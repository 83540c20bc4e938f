/**
 Choosing tests from line coverage (scripts/select_tests.py): the nearest covered line in the
 innermost function, and the tests picked for a set of changed lines.
 */
module CoverageTargets {
  import opened Sorting
  import opened Wrappers

  datatype Span = Span(start: int, end: int, name: string)
  {
    predicate Contains(line: int) { start <= line <= end }
  }

  /** Why a test was picked. */
  datatype Detail = Direct(line: int) | Near(near: int, func: string, line: int)

  type LineMap = map<int, seq<string>>

  function Abs(n: int): nat { if n < 0 then -n else n }

  /** Shorter spans first, then those starting earlier. */
  predicate Tighter(a: Span, b: Span)
  {
    a.end - a.start < b.end - b.start || (a.end - a.start == b.end - b.start && a.start < b.start)
  }

  /** spans[k] is the innermost span around the line, the first of them listed. */
  predicate IsInnermost(line: int, spans: seq<Span>, k: nat)
  {
    && k < |spans| && spans[k].Contains(line)
    && (forall j | 0 <= j < |spans| && spans[j].Contains(line) :: !Tighter(spans[j], spans[k]))
    && (forall j | 0 <= j < k && spans[j].Contains(line) :: Tighter(spans[k], spans[j]))
  }

  predicate Closer(a: int, b: int, line: int)
  {
    Abs(a - line) < Abs(b - line) || (Abs(a - line) == Abs(b - line) && a < b)
  }

  /** Covered lines of the span other than the line itself. */
  predicate Candidate(c: int, line: int, span: Span, covered: set<int>)
  {
    c in covered && span.Contains(c) && c != line
  }

  /** c is the covered line of the innermost span nearest to `line`, the lower one on a tie. */
  ghost predicate IsNearest(line: int, spans: seq<Span>, covered: set<int>, c: int, name: string)
  {
    exists k :: IsNearestIn(line, spans, covered, c, name, k)
  }

  predicate IsNearestIn(line: int, spans: seq<Span>, covered: set<int>, c: int, name: string, k: nat)
  {
    && IsInnermost(line, spans, k) && name == spans[k].name
    && Candidate(c, line, spans[k], covered)
    && forall d | d in covered && d != c :: Candidate(d, line, spans[k], covered) ==> Closer(c, d, line)
  }

  lemma NearestIsUnique(line: int, spans: seq<Span>, covered: set<int>, c: int, name: string, c': int, name': string)
    requires IsNearest(line, spans, covered, c, name) && IsNearest(line, spans, covered, c', name')
    ensures c == c' && name == name'
  {
    var k: nat :| IsNearestIn(line, spans, covered, c, name, k);
    var k': nat :| IsNearestIn(line, spans, covered, c', name', k');
    SameInnermost(line, spans, k, k');
    assert c != c' ==> Closer(c, c', line) && Closer(c', c, line);
  }

  lemma SameInnermost(line: int, spans: seq<Span>, k: nat, k': nat)
    requires IsInnermost(line, spans, k) && IsInnermost(line, spans, k')
    ensures k == k'
  {
  }

  method Innermost(line: int, spans: seq<Span>) returns (best: Option<nat>)
    ensures best.Some? ==> IsInnermost(line, spans, best.value)
    ensures best.None? ==> forall k | 0 <= k < |spans| :: !spans[k].Contains(line)
  {
    best := None;
    for i := 0 to |spans|
      invariant best.None? ==> forall k | 0 <= k < i :: !spans[k].Contains(line)
      invariant best.Some? ==>
        && best.value < i && spans[best.value].Contains(line)
        && (forall j | 0 <= j < i && spans[j].Contains(line) :: !Tighter(spans[j], spans[best.value]))
        && (forall j | 0 <= j < best.value && spans[j].Contains(line) :: Tighter(spans[best.value], spans[j]))
    {
      if spans[i].Contains(line) && (best.None? || Tighter(spans[i], spans[best.value])) {
        best := Some(i);
      }
    }
  }

  method NearestCovered(line: int, spans: seq<Span>, covered: set<int>) returns (best: Option<(int, string)>)
    ensures best.Some? ==> IsNearest(line, spans, covered, best.value.0, best.value.1)
    ensures best.None? ==> forall c, name :: !IsNearest(line, spans, covered, c, name)
  {
    var inner := Innermost(line, spans);
    if inner.None? { return None; }
    var span := spans[inner.value];
    IntOrder();
    var inOrder := Sorted(covered, IntLess);
    best := None;
    for i := 0 to |inOrder|
      invariant best.None? ==> forall j | 0 <= j < i :: !Candidate(inOrder[j], line, span, covered)
      invariant best.Some? ==>
        && Candidate(best.value.0, line, span, covered) && best.value.1 == span.name
        && (exists j :: 0 <= j < i && inOrder[j] == best.value.0)
        && forall j | 0 <= j < i && inOrder[j] != best.value.0 ::
             Candidate(inOrder[j], line, span, covered) ==> Closer(best.value.0, inOrder[j], line)
    {
      var c := inOrder[i];
      if span.start <= c <= span.end && c != line {
        if best.None? || Abs(c - line) < Abs(best.value.0 - line) {
          best := Some((c, span.name));
        }
      }
    }
    if best.Some? {
      assert IsNearestIn(line, spans, covered, best.value.0, best.value.1, inner.value);
    } else {
      forall c, name ensures !IsNearest(line, spans, covered, c, name) {
        forall k: nat ensures !IsNearestIn(line, spans, covered, c, name, k) {
          if IsInnermost(line, spans, k) { SameInnermost(line, spans, k, inner.value); }
          assert c in covered ==> c in inOrder;
        }
      }
    }
  }

  // ----- Changed lines to tests -----

  function Covered(lineMap: LineMap): set<int>
  {
    set line | line in lineMap && lineMap[line] != []
  }

  /** The test is picked for the changed line, for the given reason: it executes the line, or
      nothing does because it is not code and the test executes the nearest covered line. */
  ghost predicate PickedFor(test: string, line: int, lineMap: LineMap, spans: seq<Span>, why: Detail)
  {
    if line in lineMap then test in lineMap[line] && why == Direct(line)
    else
      && why.Near? && why.line == line
      && IsNearest(line, spans, Covered(lineMap), why.near, why.func)
      && why.near in lineMap && test in lineMap[why.near]
  }

  ghost predicate PickedAt(test: string, line: int, lineMap: LineMap, spans: seq<Span>)
  {
    exists why :: PickedFor(test, line, lineMap, spans, why)
  }

  /** The reason recorded is that of the lowest line that picks the test. */
  ghost predicate FirstReason(test: string, why: Detail, lines: set<int>, lineMap: LineMap, spans: seq<Span>)
  {
    && why.line in lines && PickedFor(test, why.line, lineMap, spans, why)
    && forall line | line in lines && line < why.line :: !PickedAt(test, line, lineMap, spans)
  }

  /** setdefault for each test in turn. */
  function AddAll(targets: map<string, Detail>, tests: seq<string>, why: Detail): (r: map<string, Detail>)
    ensures forall t :: t in r <==> t in targets || t in tests
    ensures forall t | t in r :: r[t] == if t in targets then targets[t] else why
    decreases |tests|
  {
    if tests == [] then targets
    else AddAll(if tests[0] in targets then targets else targets[tests[0] := why], tests[1..], why)
  }

  /** The targets after the changed lines `done`. */
  ghost predicate PickedSoFar(targets: map<string, Detail>, done: set<int>, lineMap: LineMap, spans: seq<Span>)
  {
    && (forall test :: test in targets <==> exists line :: line in done && PickedAt(test, line, lineMap, spans))
    && (forall test | test in targets :: FirstReason(test, targets[test], done, lineMap, spans))
  }

  lemma PickMore(targets: map<string, Detail>, done: set<int>, line: int, tests: seq<string>, why: Detail,
                 lineMap: LineMap, spans: seq<Span>)
    requires PickedSoFar(targets, done, lineMap, spans) && why.line == line && forall d | d in done :: d < line
    requires forall test :: PickedAt(test, line, lineMap, spans) <==> test in tests
    requires forall test | test in tests :: PickedFor(test, line, lineMap, spans, why)
    ensures PickedSoFar(AddAll(targets, tests, why), done + {line}, lineMap, spans)
  {
    hide PickedFor, PickedAt;
    var after := AddAll(targets, tests, why);
    forall test ensures test in after <==> exists l :: l in done + {line} && PickedAt(test, l, lineMap, spans) {
      if test in after {
        if test in targets {
          var l :| l in done && PickedAt(test, l, lineMap, spans);
          assert l in done + {line};
        } else {
          assert line in done + {line} && PickedAt(test, line, lineMap, spans);
        }
      }
    }
    forall test | test in after ensures FirstReason(test, after[test], done + {line}, lineMap, spans) {
      if test in targets { assert FirstReason(test, targets[test], done, lineMap, spans); }
    }
  }

  lemma DirectPicks(line: int, lineMap: LineMap, spans: seq<Span>)
    requires line in lineMap
    ensures forall test :: PickedAt(test, line, lineMap, spans) <==> test in lineMap[line]
    ensures forall test | test in lineMap[line] :: PickedFor(test, line, lineMap, spans, Direct(line))
  {
    forall test | test in lineMap[line] ensures PickedAt(test, line, lineMap, spans) {
      assert PickedFor(test, line, lineMap, spans, Direct(line));
    }
  }

  lemma NearPicks(line: int, lineMap: LineMap, spans: seq<Span>, near: int, func: string)
    requires line !in lineMap && IsNearest(line, spans, Covered(lineMap), near, func)
    ensures near in lineMap
    ensures forall test :: PickedAt(test, line, lineMap, spans) <==> test in lineMap[near]
    ensures forall test | test in lineMap[near] :: PickedFor(test, line, lineMap, spans, Near(near, func, line))
  {
    hide IsNearest;
    NearestIsCovered(line, spans, Covered(lineMap), near, func);
    forall test ensures PickedAt(test, line, lineMap, spans) <==> test in lineMap[near] {
      if test in lineMap[near] { assert PickedFor(test, line, lineMap, spans, Near(near, func, line)); }
      if why :| PickedFor(test, line, lineMap, spans, why) {
        NearestIsUnique(line, spans, Covered(lineMap), near, func, why.near, why.func);
      }
    }
  }

  lemma NearestIsCovered(line: int, spans: seq<Span>, covered: set<int>, c: int, name: string)
    requires IsNearest(line, spans, covered, c, name)
    ensures c in covered
  {
  }

  lemma NonePicked(line: int, lineMap: LineMap, spans: seq<Span>)
    requires line !in lineMap && forall c, name :: !IsNearest(line, spans, Covered(lineMap), c, name)
    ensures forall test :: !PickedAt(test, line, lineMap, spans)
  {
    hide IsNearest;
  }

  /** _coverage_targets_for_file before symbol attribution. */
  method TargetsForFile(lines: set<int>, lineMap: LineMap, spans: seq<Span>)
    returns (targets: map<string, Detail>, touchedExecutable: bool, symbolLines: seq<int>)
    ensures forall test :: test in targets <==> exists line :: line in lines && PickedAt(test, line, lineMap, spans)
    ensures forall test | test in targets :: FirstReason(test, targets[test], lines, lineMap, spans)
    ensures touchedExecutable <==> exists line :: line in lines && line in lineMap
    ensures Increasing(symbolLines, IntLess)
    ensures forall line :: line in symbolLines <==> line in lines && line in lineMap && lineMap[line] == []
  {
    hide PickedAt, PickedSoFar, PickedFor, IsNearest, Covered;
    var covered := Covered(lineMap);
    targets, touchedExecutable, symbolLines := map[], false, [];
    IntOrder();
    var inOrder := Sorted(lines, IntLess);
    ghost var done: set<int> := {};
    StartPicking(lineMap, spans);
    for i := 0 to |inOrder|
      invariant forall line :: line in done <==> line in inOrder[..i]
      invariant PickedSoFar(targets, done, lineMap, spans)
      invariant touchedExecutable <==> exists line :: line in done && line in lineMap
      invariant Increasing(symbolLines, IntLess)
      invariant forall line :: line in symbolLines <==> line in done && line in lineMap && lineMap[line] == []
    {
      var line := inOrder[i];
      assert inOrder[..i + 1] == inOrder[..i] + [line];
      assert forall d | d in done :: d < line;
      assert line in done + {line};
      forall k | 0 <= k < |symbolLines| ensures IntLess(symbolLines[k], line) {
        assert symbolLines[k] in symbolLines;
        assert symbolLines[k] in done;
      }
      if line in lineMap && lineMap[line] != [] {
        touchedExecutable := true;
        DirectPicks(line, lineMap, spans);
        PickMore(targets, done, line, lineMap[line], Direct(line), lineMap, spans);
        targets := AddAll(targets, lineMap[line], Direct(line));
      } else if line in lineMap {
        touchedExecutable := true;
        symbolLines := symbolLines + [line];
        DirectPicks(line, lineMap, spans);
        PickMore(targets, done, line, [], Direct(line), lineMap, spans);
      } else {
        var found := NearestCovered(line, spans, covered);
        if found.Some? {
          var (near, func) := found.value;
          NearPicks(line, lineMap, spans, near, func);
          PickMore(targets, done, line, lineMap[near], Near(near, func, line), lineMap, spans);
          targets := AddAll(targets, lineMap[near], Near(near, func, line));
        } else {
          NonePicked(line, lineMap, spans);
          PickMore(targets, done, line, [], Direct(line), lineMap, spans);
        }
      }
      done := done + {line};
    }
    assert inOrder[..|inOrder|] == inOrder;
    forall line ensures line in done <==> line in lines {
      assert line in done <==> line in inOrder;
    }
    assert done == lines;
    AllPicked(targets, lines, lineMap, spans);
  }

  lemma StartPicking(lineMap: LineMap, spans: seq<Span>)
    ensures PickedSoFar(map[], {}, lineMap, spans)
  {
  }

  lemma AllPicked(targets: map<string, Detail>, lines: set<int>, lineMap: LineMap, spans: seq<Span>)
    requires PickedSoFar(targets, lines, lineMap, spans)
    ensures forall test :: test in targets <==> exists line :: line in lines && PickedAt(test, line, lineMap, spans)
    ensures forall test | test in targets :: FirstReason(test, targets[test], lines, lineMap, spans)
  {
  }
}
