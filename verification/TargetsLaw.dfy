/**
 Which tests changed lines pick and for what reason, said of the lines, the spans and the tests on
 each line themselves (scripts/select_tests.py).
 */
module TargetsLaw {
  import opened CoverageTargets
  import opened Sorting

  function Distance(a: int, b: int): int { if a < b then b - a else a - b }

  predicate Within(line: int, span: Span) { span.start <= line && line <= span.end }

  /** Among the spans around the line the shortest; of those as short the one that starts first; of
      those that also start there the one listed first. */
  ghost predicate Inner(line: int, spans: seq<Span>, k: nat)
  {
    && k < |spans| && Within(line, spans[k])
    && forall j | 0 <= j < |spans| && Within(line, spans[j]) ::
         var longer := (spans[j].end - spans[j].start) - (spans[k].end - spans[k].start);
         && longer >= 0
         && (longer == 0 ==> spans[j].start >= spans[k].start)
         && (longer == 0 && spans[j].start == spans[k].start ==> j >= k)
  }

  /** A line some test executes. */
  predicate Owned(line: int, lineMap: LineMap) { line in lineMap && |lineMap[line]| > 0 }

  /** The owned line of that span nearest to the changed one, the lower of two as near. */
  ghost predicate Nearby(line: int, lineMap: LineMap, spans: seq<Span>, near: int, func: string, k: nat)
  {
    && Inner(line, spans, k) && func == spans[k].name
    && Owned(near, lineMap) && Within(near, spans[k]) && near != line
    && forall other | other in lineMap && Owned(other, lineMap) && Within(other, spans[k]) && other != line ::
         && Distance(near, line) <= Distance(other, line)
         && (Distance(near, line) == Distance(other, line) ==> near <= other)
  }

  /** Why a changed line picks a test: the test executes it; or nothing does, as it is no code, and
      the test executes the owned line nearby. */
  ghost predicate Because(test: string, line: int, lineMap: LineMap, spans: seq<Span>, why: Detail)
  {
    match why
    case Direct(l) => l == line && line in lineMap && test in lineMap[line]
    case Near(near, func, l) =>
      && l == line && line !in lineMap && near in lineMap && test in lineMap[near]
      && exists k: nat :: Nearby(line, lineMap, spans, near, func, k)
  }

  lemma InnerIff(line: int, spans: seq<Span>, k: nat)
    ensures IsInnermost(line, spans, k) <==> Inner(line, spans, k)
  {
  }

  lemma NearbyIff(line: int, lineMap: LineMap, spans: seq<Span>, near: int, func: string, k: nat)
    ensures IsNearestIn(line, spans, Covered(lineMap), near, func, k) <==> Nearby(line, lineMap, spans, near, func, k)
  {
    InnerIff(line, spans, k);
    hide IsInnermost, Inner;
    forall d ensures d in Covered(lineMap) <==> Owned(d, lineMap) {}
    if k < |spans| {
      forall d
        ensures Candidate(d, line, spans[k], Covered(lineMap))
                <==> Owned(d, lineMap) && Within(d, spans[k]) && d != line
        ensures d != near ==>
                  (Closer(near, d, line)
                   <==> && Distance(near, line) <= Distance(d, line)
                        && (Distance(near, line) == Distance(d, line) ==> near <= d))
      {
      }
    }
    assert forall d | d in Covered(lineMap) :: d in lineMap;
    hide Candidate, Closer, Distance, Within, Covered, Owned;
  }

  lemma BecauseIff(test: string, line: int, lineMap: LineMap, spans: seq<Span>, why: Detail)
    ensures PickedFor(test, line, lineMap, spans, why) <==> Because(test, line, lineMap, spans, why)
  {
    if why.Near? {
      forall k: nat { NearbyIff(line, lineMap, spans, why.near, why.func, k); }
    }
    hide IsNearestIn, Nearby, Covered;
  }

  /** A test is selected exactly when some changed line picks it, for the reason of the lowest such
      line; code was touched exactly when a changed line is executable, and the executable lines no
      test owns are handed on. */
  method Select(lines: set<int>, lineMap: LineMap, spans: seq<Span>)
    returns (targets: map<string, Detail>, touched: bool, handedOn: seq<int>)
    ensures forall test :: test in targets
              <==> exists line, why :: line in lines && Because(test, line, lineMap, spans, why)
    ensures forall test | test in targets ::
              && targets[test].line in lines
              && Because(test, targets[test].line, lineMap, spans, targets[test])
              && forall line, why | line in lines && Because(test, line, lineMap, spans, why) ::
                   targets[test].line <= line
    ensures touched <==> exists line :: line in lines && line in lineMap
    ensures forall line :: line in handedOn <==> line in lines && line in lineMap && lineMap[line] == []
    ensures forall i, j | 0 <= i < j < |handedOn| :: handedOn[i] < handedOn[j]
  {
    hide PickedFor, Because;
    forall test, line, why { BecauseIff(test, line, lineMap, spans, why); }
    targets, touched, handedOn := TargetsForFile(lines, lineMap, spans);
    forall test, line
      ensures PickedAt(test, line, lineMap, spans) <==> exists why :: Because(test, line, lineMap, spans, why)
    {
      if why :| PickedFor(test, line, lineMap, spans, why) { assert Because(test, line, lineMap, spans, why); }
      if why :| Because(test, line, lineMap, spans, why) { assert PickedFor(test, line, lineMap, spans, why); }
    }
    forall test | test in targets
      ensures && targets[test].line in lines
              && Because(test, targets[test].line, lineMap, spans, targets[test])
              && forall line, why | line in lines && Because(test, line, lineMap, spans, why) ::
                   targets[test].line <= line
    {
      assert FirstReason(test, targets[test], lines, lineMap, spans);
    }
  }
}
