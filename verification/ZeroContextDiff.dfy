/**
 The two readers of `git diff -U0` output (scripts/select_tests.py): the lines a diff touches on
 the new side of one path, and the lines it removes from the old side.
 */
module ZeroContextDiff {
  import opened Decimal
  import opened HunkHeader
  import opened Lines
  import opened Text
  import opened Wrappers

  // ----- The readers -----

  datatype Side = NEW | REMOVED

  /** What a reader keeps: the path of the file it is in, the old line it has reached (zero
      before any hunk of the path) and the line numbers found. */
  datatype Cursor = Cursor(current: Option<string>, oldLine: nat, found: set<int>)

  const START := Cursor(None, 0, {})

  function Interval(from: int, count: nat): (s: set<int>)
    ensures forall i :: i in s <==> from <= i < from + count
  {
    if count == 0 then {} else Interval(from, count - 1) + {from + count - 1}
  }

  /** A pure deletion touches the line it happened at. */
  function NewRange(start: nat, count: nat): set<int>
  {
    if count == 0 then {if start > 1 then start else 1} else Interval(start, count)
  }

  function Unquote(name: string): string
  {
    if StartsWith(name, "\"") && EndsWith(name, "\"") then
      if |name| >= 2 then name[1..|name| - 1] else ""
    else name
  }

  /** The path a line starting with "+++ " names; None for /dev/null. */
  function NameIn(line: string): Option<string>
    requires |line| >= 4
  {
    var name := Unquote(Strip(line[4..]));
    var path := if StartsWith(name, "b/") then name[2..] else name;
    if path == "/dev/null" then None else Some(path)
  }

  function NewStep(line: string, path: string, c: Cursor): Cursor
  {
    if StartsWith(line, "+++ ") then c.(current := NameIn(line))
    else if StartsWith(line, "@@ ") && c.current == Some(path) then
      match ReadHeader(line)
      case None => c
      case Some(h) => c.(found := c.found + NewRange(h.newStart, h.newCount))
    else c
  }

  function RemovedStep(line: string, path: string, c: Cursor): Cursor
  {
    if StartsWith(line, "+++ ") then c.(current := NameIn(line))
    else if StartsWith(line, "--- ") then c
    else if StartsWith(line, "@@ ") && c.current == Some(path) then
      match ReadHeader(line)
      case None => c
      case Some(h) => c.(oldLine := h.oldStart)
    else if c.current == Some(path) && c.oldLine != 0 && StartsWith(line, "-") then
      Cursor(c.current, c.oldLine + 1, c.found + {c.oldLine})
    else c
  }

  function Step(side: Side, line: string, path: string, c: Cursor): Cursor
  {
    if side == NEW then NewStep(line, path, c) else RemovedStep(line, path, c)
  }

  function Read(side: Side, lines: seq<string>, path: string, c: Cursor): Cursor
  {
    if lines == [] then c else Read(side, lines[1..], path, Step(side, lines[0], path, c))
  }

  method NewSideLines(diffText: string, path: string) returns (found: set<int>)
    ensures found == Read(NEW, SplitLines(diffText), path, START).found
  {
    hide ReadHeader, NameIn;
    var lines := SplitLines(diffText);
    var current: Option<string> := None;
    found := {};
    for i := 0 to |lines|
      invariant Read(NEW, lines[i..], path, Cursor(current, 0, found)) == Read(NEW, lines, path, START)
    {
      var line := lines[i];
      assert lines[i..][1..] == lines[i + 1..];
      if StartsWith(line, "+++ ") {
        current := NameIn(line);
      } else if StartsWith(line, "@@ ") && current == Some(path) {
        match ReadHeader(line) {
          case None =>
          case Some(h) =>
            if h.newCount == 0 {
              found := found + {if h.newStart > 1 then h.newStart else 1};
            } else {
              found := found + Interval(h.newStart, h.newCount);
            }
        }
      }
    }
  }

  method RemovedOldLines(diffText: string, path: string) returns (found: set<int>)
    ensures found == Read(REMOVED, SplitLines(diffText), path, START).found
  {
    hide ReadHeader, NameIn;
    var lines := SplitLines(diffText);
    var current: Option<string> := None;
    var oldLine := 0;
    found := {};
    for i := 0 to |lines|
      invariant Read(REMOVED, lines[i..], path, Cursor(current, oldLine, found)) == Read(REMOVED, lines, path, START)
    {
      var line := lines[i];
      assert lines[i..][1..] == lines[i + 1..];
      if StartsWith(line, "+++ ") {
        current := NameIn(line);
      } else if StartsWith(line, "--- ") {
      } else if StartsWith(line, "@@ ") && current == Some(path) {
        match ReadHeader(line) {
          case None =>
          case Some(h) => oldLine := h.oldStart;
        }
      } else if current == Some(path) && oldLine != 0 {
        if StartsWith(line, "-") {
          found := found + {oldLine};
          oldLine := oldLine + 1;
        }
      }
    }
  }

  // ----- -U0 diffs and their text -----

  datatype Hunk = Hunk(oldStart: nat, newStart: nat, removed: seq<string>, oldNoEol: bool,
                       added: seq<string>, newNoEol: bool, heading: string)

  /** `tab` is git's mark after a name that contains a space. */
  datatype Target = DevNull | Path(name: string, quoted: bool, tab: bool)

  datatype Patch = Patch(oldName: string, target: Target, hunks: seq<Hunk>)

  /** A binary or mode-only entry has no patch. */
  datatype FileDiff = FileDiff(preamble: seq<string>, patch: Option<Patch>)

  function Marked(mark: char, bodies: seq<string>): seq<string>
  {
    if bodies == [] then [] else [[mark] + bodies[0]] + Marked(mark, bodies[1..])
  }

  function NoEol(missing: bool): seq<string>
  {
    if missing then ["\\ No newline at end of file"] else []
  }

  function HeaderOf(h: Hunk): Header
  {
    Header(h.oldStart, |h.removed|, h.newStart, |h.added|)
  }

  /** The lines of a hunk below its header. */
  function Body(h: Hunk): seq<string>
  {
    Marked('-', h.removed) + (NoEol(h.oldNoEol) + (Marked('+', h.added) + NoEol(h.newNoEol)))
  }

  function ShowHunk(h: Hunk): seq<string>
  {
    [ShowHeader(HeaderOf(h), h.heading)] + Body(h)
  }

  function ShowHunks(hunks: seq<Hunk>): seq<string>
  {
    if hunks == [] then [] else ShowHunk(hunks[0]) + ShowHunks(hunks[1..])
  }

  function ShowTarget(t: Target): string
  {
    match t
    case DevNull => "+++ /dev/null"
    case Path(name, quoted, tab) =>
      "+++ " + ((if quoted then "\"b/" + name + "\"" else "b/" + name) + if tab then "\t" else "")
  }

  function ShowNames(p: Patch): seq<string>
  {
    ["--- " + p.oldName] + [ShowTarget(p.target)]
  }

  function ShowFile(f: FileDiff): seq<string>
  {
    f.preamble + match f.patch case None => [] case Some(p) => ShowNames(p) + ShowHunks(p.hunks)
  }

  function ShowDiff(files: seq<FileDiff>): seq<string>
  {
    if files == [] then [] else ShowFile(files[0]) + ShowDiff(files[1..])
  }

  /** run_git: the lines of the output, as splitlines cuts it, that are not blank. */
  function RunGit(output: string): seq<string>
  {
    NotBlank(SplitLines(output))
  }

  function NotBlank(lines: seq<string>): (ls: seq<string>)
    ensures forall l | l in ls :: l in lines && l != ""
  {
    if lines == [] then []
    else (if Strip(lines[0]) != "" then [lines[0]] else []) + NotBlank(lines[1..])
  }

  /** The text the readers get: git writes a newline after each line, and what run_git
      returns is joined again. */
  function DiffText(files: seq<FileDiff>): string
  {
    Join(RunGit(Unlines(ShowDiff(files))))
  }

  function TargetName(t: Target): Option<string>
  {
    match t case DevNull => None case Path(name, _, _) => Some(name)
  }

  /** The hunks of `path`. */
  function HunksOf(files: seq<FileDiff>, path: string): seq<Hunk>
  {
    if files == [] then []
    else HunksIn(files[0], path) + HunksOf(files[1..], path)
  }

  function HunksIn(f: FileDiff, path: string): seq<Hunk>
  {
    match f.patch case None => [] case Some(p) => if TargetName(p.target) == Some(path) then p.hunks else []
  }

  // ----- What a line means to the readers -----

  datatype Mark = File(name: Option<string>) | Head(header: Header) | Minus | Inert

  function MarkOf(line: string): Mark
  {
    if StartsWith(line, "+++ ") then File(NameIn(line))
    else if StartsWith(line, "--- ") then Inert
    else if StartsWith(line, "@@ ") then
      match ReadHeader(line) case None => Inert case Some(h) => Head(h)
    else if StartsWith(line, "-") then Minus
    else Inert
  }

  function Marks(lines: seq<string>): (ms: seq<Mark>)
    ensures |ms| == |lines| && forall k | 0 <= k < |ms| :: ms[k] == MarkOf(lines[k])
  {
    if lines == [] then [] else [MarkOf(lines[0])] + Marks(lines[1..])
  }

  function MarkStep(side: Side, m: Mark, path: string, c: Cursor): Cursor
  {
    match m
    case File(name) => c.(current := name)
    case Head(h) =>
      if c.current != Some(path) then c
      else if side == NEW then c.(found := c.found + NewRange(h.newStart, h.newCount))
      else c.(oldLine := h.oldStart)
    case Minus =>
      if side == REMOVED && c.current == Some(path) && c.oldLine != 0 then
        Cursor(c.current, c.oldLine + 1, c.found + {c.oldLine})
      else c
    case Inert => c
  }

  function ReadMarks(side: Side, marks: seq<Mark>, path: string, c: Cursor): Cursor
  {
    if marks == [] then c else ReadMarks(side, marks[1..], path, MarkStep(side, marks[0], path, c))
  }

  lemma StepIsMarkStep(side: Side, line: string, path: string, c: Cursor)
    ensures Step(side, line, path, c) == MarkStep(side, MarkOf(line), path, c)
  {
    hide ReadHeader, NameIn;
    Prefixes(line);
  }

  lemma Prefixes(line: string)
    ensures StartsWith(line, "@@ ") ==> !StartsWith(line, "--- ") && !StartsWith(line, "-") && !StartsWith(line, "+++ ")
    ensures StartsWith(line, "--- ") ==> !StartsWith(line, "+++ ")
  {
    if StartsWith(line, "@@ ") { OtherMark(line, "--- "); OtherMark(line, "-"); OtherMark(line, "+++ "); }
    if StartsWith(line, "--- ") { OtherMark(line, "+++ "); }
  }

  lemma OtherMark(line: string, prefix: string)
    requires line != "" && prefix != "" && line[0] != prefix[0]
    ensures !StartsWith(line, prefix)
  {
  }

  lemma {:induction false} ReadIsReadMarks(side: Side, lines: seq<string>, path: string, c: Cursor)
    ensures Read(side, lines, path, c) == ReadMarks(side, Marks(lines), path, c)
  {
    hide Step, MarkOf, MarkStep;
    if lines != [] {
      StepIsMarkStep(side, lines[0], path, c);
      ReadIsReadMarks(side, lines[1..], path, Step(side, lines[0], path, c));
    }
  }

  lemma BlankIsInert(line: string)
    requires Strip(line) == ""
    ensures MarkOf(line) == Inert
  {
    if line != "" {
      if !IsSpace(line[0]) { StripKeepsFirst(line); }
      hide ReadHeader, NameIn, Strip;
      OtherMark(line, "+++ ");
      OtherMark(line, "--- ");
      OtherMark(line, "@@ ");
      OtherMark(line, "-");
    }
  }

  lemma {:induction false} ReadNotBlank(side: Side, lines: seq<string>, path: string, c: Cursor)
    ensures Read(side, NotBlank(lines), path, c) == Read(side, lines, path, c)
  {
    hide Step, Strip;
    if lines != [] {
      var next := Step(side, lines[0], path, c);
      ReadNotBlank(side, lines[1..], path, next);
      if Strip(lines[0]) == "" {
        BlankIsInert(lines[0]);
        StepIsMarkStep(side, lines[0], path, c);
        assert NotBlank(lines) == NotBlank(lines[1..]);
      } else {
        assert NotBlank(lines)[1..] == NotBlank(lines[1..]);
      }
    }
  }

  /** Cutting, dropping blank lines, joining and cutting again leaves what each line written
      by git is cut into. */
  lemma ReadText(side: Side, files: seq<FileDiff>, path: string)
    ensures Read(side, SplitLines(DiffText(files)), path, START)
            == ReadMarks(side, Marks(PiecesOf(ShowDiff(files))), path, START)
  {
    hide Read, ReadMarks, ShowDiff, Marks, NotBlank;
    var pieces := SplitLines(Unlines(ShowDiff(files)));
    hide SplitLines, Join;
    SplitIsPieces(ShowDiff(files));
    SplitJoined(NotBlank(pieces));
    ReadNotBlank(side, pieces, path, START);
    ReadIsReadMarks(side, pieces, path, START);
  }

  // ----- The lines of a diff -----

  /** A line as the readers see it; `own` for the header of a hunk of the path. */
  datatype Item = Item(mark: Mark, own: bool)

  function Others(lines: seq<string>): (items: seq<Item>)
    ensures |items| == |lines| && forall k | 0 <= k < |items| :: items[k] == Item(MarkOf(lines[k]), false)
  {
    if lines == [] then [] else [Item(MarkOf(lines[0]), false)] + Others(lines[1..])
  }

  /** The lines after the header of a hunk: what its heading and its body are cut into. */
  function Tail(h: Hunk): seq<string>
  {
    Strays(h.heading) + PiecesOf(Body(h))
  }

  function HunkItems(h: Hunk, own: bool): seq<Item>
  {
    [Item(Head(HeaderOf(h)), own)] + Others(Tail(h))
  }

  function HunksItems(hunks: seq<Hunk>, own: bool): seq<Item>
  {
    if hunks == [] then [] else HunkItems(hunks[0], own) + HunksItems(hunks[1..], own)
  }

  function FileItems(f: FileDiff, path: string): seq<Item>
  {
    Others(PiecesOf(f.preamble))
    + match f.patch
      case None => []
      case Some(p) => Others(PiecesOf(ShowNames(p))) + HunksItems(p.hunks, TargetName(p.target) == Some(path))
  }

  function Items(files: seq<FileDiff>, path: string): seq<Item>
  {
    if files == [] then [] else FileItems(files[0], path) + Items(files[1..], path)
  }

  function MarksIn(items: seq<Item>): (ms: seq<Mark>)
    ensures |ms| == |items| && forall k | 0 <= k < |ms| :: ms[k] == items[k].mark
  {
    if items == [] then [] else [items[0].mark] + MarksIn(items[1..])
  }

  lemma MarksInConcat(a: seq<Item>, b: seq<Item>)
    ensures MarksIn(a + b) == MarksIn(a) + MarksIn(b)
  {
  }

  lemma MarksConcat(a: seq<string>, b: seq<string>)
    ensures Marks(a + b) == Marks(a) + Marks(b)
  {
  }

  lemma MarksInOthers(lines: seq<string>)
    ensures MarksIn(Others(lines)) == Marks(lines)
  {
  }

  lemma HeaderMark(h: Header, heading: string)
    ensures MarkOf(ShowHeader(h, heading)) == Head(h)
  {
    ReadShownHeader(h, heading);
    hide ReadHeader, ShowHeader, NameIn;
    Prefixes(ShowHeader(h, heading));
  }

  lemma HunkMarks(h: Hunk, own: bool)
    ensures Marks(PiecesOf(ShowHunk(h))) == MarksIn(HunkItems(h, own))
  {
    hide *;
    var head := HeaderOf(h);
    var header, shown := ShowHeader(head, h.heading), ShowHeader(head, Pieces(h.heading)[0]);
    HeaderPieces(head, h.heading);
    HeaderMark(head, Pieces(h.heading)[0]);
    HunkParts(h, own);
    PiecesOfFirst(header, Body(h));
    assert PiecesOf(ShowHunk(h)) == [shown] + Tail(h);
    MarksConcat([shown], Tail(h));
    MarksInConcat([Item(Head(head), own)], Others(Tail(h)));
    MarksInOthers(Tail(h));
    assert Marks([shown])[0] == Head(head) && MarksIn([Item(Head(head), own)])[0] == Head(head);
  }

  lemma HunkParts(h: Hunk, own: bool)
    ensures ShowHunk(h) == [ShowHeader(HeaderOf(h), h.heading)] + Body(h)
    ensures Tail(h) == Strays(h.heading) + PiecesOf(Body(h))
    ensures HunkItems(h, own) == [Item(Head(HeaderOf(h)), own)] + Others(Tail(h))
  {
    hide Others, Body, PiecesOf, Strays, ShowHeader;
  }

  lemma {:induction false} HunksMarks(hunks: seq<Hunk>, own: bool)
    ensures Marks(PiecesOf(ShowHunks(hunks))) == MarksIn(HunksItems(hunks, own))
  {
    hide ShowHunk, HunkItems;
    if hunks != [] {
      var first, rest := ShowHunk(hunks[0]), ShowHunks(hunks[1..]);
      PiecesOfConcat(first, rest);
      MarksConcat(PiecesOf(first), PiecesOf(rest));
      HunkMarks(hunks[0], own);
      HunksMarks(hunks[1..], own);
      MarksInConcat(HunkItems(hunks[0], own), HunksItems(hunks[1..], own));
    }
  }

  lemma FileMarks(f: FileDiff, path: string)
    ensures Marks(PiecesOf(ShowFile(f))) == MarksIn(FileItems(f, path))
  {
    hide ShowHunks, HunksItems, ShowNames, PiecesOf, Marks, MarksIn, Others, TargetName;
    MarksInOthers(PiecesOf(f.preamble));
    match f.patch
    case None =>
      assert f.preamble + [] == f.preamble;
      assert Others(PiecesOf(f.preamble)) + [] == Others(PiecesOf(f.preamble));
    case Some(p) =>
      var own := TargetName(p.target) == Some(path);
      var names, hunks := ShowNames(p), ShowHunks(p.hunks);
      PiecesOfConcat(f.preamble, names + hunks);
      PiecesOfConcat(names, hunks);
      MarksConcat(PiecesOf(f.preamble), PiecesOf(names) + PiecesOf(hunks));
      MarksConcat(PiecesOf(names), PiecesOf(hunks));
      MarksInOthers(PiecesOf(names));
      HunksMarks(p.hunks, own);
      MarksInConcat(Others(PiecesOf(f.preamble)), Others(PiecesOf(names)) + HunksItems(p.hunks, own));
      MarksInConcat(Others(PiecesOf(names)), HunksItems(p.hunks, own));
  }

  lemma {:induction false} DiffMarks(files: seq<FileDiff>, path: string)
    ensures Marks(PiecesOf(ShowDiff(files))) == MarksIn(Items(files, path))
  {
    hide ShowFile, FileItems;
    if files != [] {
      var first, rest := ShowFile(files[0]), ShowDiff(files[1..]);
      PiecesOfConcat(first, rest);
      MarksConcat(PiecesOf(first), PiecesOf(rest));
      FileMarks(files[0], path);
      DiffMarks(files[1..], path);
      MarksInConcat(FileItems(files[0], path), Items(files[1..], path));
    }
  }

  // ----- What the readers find -----

  /** A hunk header of the path (`own`) or one a reader takes for such (`believed`), and the
      removed lines a reader counts from it. */
  datatype Span = Span(header: Header, own: bool, believed: bool, minuses: nat)

  /** `lead` counts the removed lines before the first believed header. */
  datatype Heard = Heard(lead: nat, spans: seq<Span>)

  /** `inside` while the reader takes itself to be in the path's part of the diff. */
  function Hear(items: seq<Item>, path: string, inside: bool): Heard
  {
    if items == [] then Heard(0, [])
    else
      var m := items[0].mark;
      var next := Hear(items[1..], path, if m.File? then m.name == Some(path) else inside);
      match m
      case File(_) => next
      case Head(h) =>
        if inside then Heard(0, [Span(h, items[0].own, true, next.lead)] + next.spans)
        else if items[0].own then Heard(next.lead, [Span(h, true, false, 0)] + next.spans)
        else next
      case Minus => if inside then next.(lead := next.lead + 1) else next
      case Inert => next
  }

  function Spans(files: seq<FileDiff>, path: string): seq<Span>
  {
    Hear(Items(files, path), path, false).spans
  }

  /** The lines a header of -U0 output names on one side. */
  function Range(side: Side, h: Header): set<int>
  {
    if side == NEW then NewRange(h.newStart, h.newCount) else Interval(h.oldStart, h.oldCount)
  }

  /** The lines found from one header. */
  function FoundFrom(side: Side, s: Span): set<int>
  {
    if !s.believed then {}
    else if side == NEW then NewRange(s.header.newStart, s.header.newCount)
    else if s.header.oldStart == 0 then {}
    else Interval(s.header.oldStart, s.minuses)
  }

  function Found(side: Side, spans: seq<Span>): set<int>
  {
    set k, n | 0 <= k < |spans| && n in FoundFrom(side, spans[k]) :: n
  }

  lemma FoundFirst(side: Side, s: Span, spans: seq<Span>)
    ensures Found(side, [s] + spans) == FoundFrom(side, s) + Found(side, spans)
  {
    hide FoundFrom;
    var all := [s] + spans;
    forall n ensures n in Found(side, all) <==> n in FoundFrom(side, s) + Found(side, spans) {
      if n in FoundFrom(side, s) { assert n in FoundFrom(side, all[0]); }
      if n in Found(side, spans) {
        var k :| 0 <= k < |spans| && n in FoundFrom(side, spans[k]);
        assert n in FoundFrom(side, all[k + 1]);
      }
    }
  }

  function FromLead(side: Side, oldLine: nat, lead: nat): set<int>
  {
    if side == REMOVED && oldLine != 0 then Interval(oldLine, lead) else {}
  }

  lemma {:induction false} IntervalFirst(from: int, count: nat)
    ensures Interval(from, count + 1) == {from} + Interval(from + 1, count)
  {
  }

  lemma {:induction false} ReadItems(side: Side, items: seq<Item>, path: string, c: Cursor)
    ensures var heard := Hear(items, path, c.current == Some(path));
            ReadMarks(side, MarksIn(items), path, c).found
            == c.found + FromLead(side, c.oldLine, heard.lead) + Found(side, heard.spans)
  {
    if items == [] {
      NothingFound(side, c.oldLine);
    } else {
      var next := MarkStep(side, items[0].mark, path, c);
      var after := Hear(items[1..], path, next.current == Some(path));
      ReadItems(side, items[1..], path, next);
      assert MarksIn(items)[1..] == MarksIn(items[1..]);
      match items[0].mark
      case File(_) =>
      case Head(h) =>
        NothingFound(side, c.oldLine);
        if c.current == Some(path) {
          var s := Span(h, items[0].own, true, after.lead);
          FoundFirst(side, s, after.spans);
        } else if items[0].own {
          FoundFirst(side, Span(h, true, false, 0), after.spans);
        }
      case Minus => IntervalFirst(c.oldLine, after.lead);
      case Inert =>
    }
  }

  lemma NothingFound(side: Side, oldLine: nat)
    ensures Found(side, []) == {} && FromLead(side, oldLine, 0) == {}
  {
  }

  /** What either reader finds in the text of any -U0 diff, whatever its lines and names
      contain: the lines counted from the headers it believes. */
  lemma ReadDiff(side: Side, files: seq<FileDiff>, path: string)
    ensures Read(side, SplitLines(DiffText(files)), path, START).found == Found(side, Spans(files, path))
  {
    hide Read, DiffText, SplitLines, ReadMarks, MarksIn, Items, Hear, Found;
    ReadText(side, files, path);
    DiffMarks(files, path);
    ReadItems(side, Items(files, path), path, START);
  }

  // ----- The lines really touched -----

  function Touched(side: Side, hunks: seq<Hunk>): set<int>
  {
    set k, n | 0 <= k < |hunks| && n in Range(side, HeaderOf(hunks[k])) :: n
  }

  function OwnLines(side: Side, spans: seq<Span>): set<int>
  {
    set k, n | 0 <= k < |spans| && spans[k].own && n in Range(side, spans[k].header) :: n
  }

  function Headers(hunks: seq<Hunk>): (hs: seq<Header>)
    ensures |hs| == |hunks| && forall k | 0 <= k < |hs| :: hs[k] == HeaderOf(hunks[k])
  {
    if hunks == [] then [] else [HeaderOf(hunks[0])] + Headers(hunks[1..])
  }

  function OwnHeaders(spans: seq<Span>): seq<Header>
  {
    if spans == [] then [] else (if spans[0].own then [spans[0].header] else []) + OwnHeaders(spans[1..])
  }

  function OwnOf(items: seq<Item>): seq<Header>
  {
    if items == [] then []
    else (if items[0].own && items[0].mark.Head? then [items[0].mark.header] else []) + OwnOf(items[1..])
  }

  lemma {:induction false} OwnOfConcat(a: seq<Item>, b: seq<Item>)
    ensures OwnOf(a + b) == OwnOf(a) + OwnOf(b)
  {
    if a == [] {
      assert a + b == b;
    } else {
      assert (a + b)[1..] == a[1..] + b;
      OwnOfConcat(a[1..], b);
    }
  }

  lemma {:induction false} OwnOfOthers(lines: seq<string>)
    ensures OwnOf(Others(lines)) == []
  {
    hide MarkOf;
    if lines != [] { OwnOfOthers(lines[1..]); }
  }

  lemma {:induction false} OwnOfHunks(hunks: seq<Hunk>, own: bool)
    ensures OwnOf(HunksItems(hunks, own)) == if own then Headers(hunks) else []
  {
    if hunks != [] {
      var h := hunks[0];
      var item := Item(Head(HeaderOf(h)), own);
      OwnOfHunks(hunks[1..], own);
      OwnOfConcat(HunkItems(h, own), HunksItems(hunks[1..], own));
      OwnOfConcat([item], Others(Tail(h)));
      OwnOfOthers(Tail(h));
      assert OwnOf([item]) == if own then [HeaderOf(h)] else [];
    }
  }

  lemma HeadersConcat(a: seq<Hunk>, b: seq<Hunk>)
    ensures Headers(a + b) == Headers(a) + Headers(b)
  {
  }

  lemma OwnOfFile(f: FileDiff, path: string)
    ensures OwnOf(FileItems(f, path)) == Headers(HunksIn(f, path))
  {
    hide OwnOf, Others, PiecesOf, ShowNames, HunksItems, TargetName;
    OwnOfOthers(PiecesOf(f.preamble));
    match f.patch
    case None => assert Others(PiecesOf(f.preamble)) + [] == Others(PiecesOf(f.preamble));
    case Some(p) =>
      var names, hunks := Others(PiecesOf(ShowNames(p))), HunksItems(p.hunks, TargetName(p.target) == Some(path));
      OwnOfConcat(Others(PiecesOf(f.preamble)), names + hunks);
      OwnOfConcat(names, hunks);
      OwnOfOthers(PiecesOf(ShowNames(p)));
      OwnOfHunks(p.hunks, TargetName(p.target) == Some(path));
  }

  lemma {:induction false} OwnOfDiff(files: seq<FileDiff>, path: string)
    ensures OwnOf(Items(files, path)) == Headers(HunksOf(files, path))
  {
    hide FileItems, TargetName;
    if files != [] {
      OwnOfFile(files[0], path);
      OwnOfDiff(files[1..], path);
      OwnOfConcat(FileItems(files[0], path), Items(files[1..], path));
      assert HunksOf(files, path) == HunksIn(files[0], path) + HunksOf(files[1..], path);
      HeadersConcat(HunksIn(files[0], path), HunksOf(files[1..], path));
    }
  }

  lemma {:induction false} HearKeepsOwn(items: seq<Item>, path: string, inside: bool)
    ensures OwnHeaders(Hear(items, path, inside).spans) == OwnOf(items)
  {
    if items != [] {
      var m := items[0].mark;
      HearKeepsOwn(items[1..], path, if m.File? then m.name == Some(path) else inside);
    }
  }

  lemma {:induction false} InOwnHeaders(spans: seq<Span>, h: Header)
    ensures h in OwnHeaders(spans) <==> exists k :: 0 <= k < |spans| && spans[k].own && spans[k].header == h
  {
    if spans != [] {
      var rest := spans[1..];
      InOwnHeaders(rest, h);
      if h in OwnHeaders(rest) {
        var k :| 0 <= k < |rest| && rest[k].own && rest[k].header == h;
        assert spans[k + 1].own && spans[k + 1].header == h;
      }
      if k :| 0 <= k < |spans| && spans[k].own && spans[k].header == h {
        if k > 0 { assert rest[k - 1] == spans[k]; }
      }
    }
  }

  lemma OwnSpansAreTheHunks(files: seq<FileDiff>, path: string)
    ensures OwnHeaders(Spans(files, path)) == Headers(HunksOf(files, path))
  {
    hide OwnHeaders, Headers, HunksOf, Items, Hear, OwnOf;
    HearKeepsOwn(Items(files, path), path, false);
    OwnOfDiff(files, path);
  }

  lemma OwnLinesAreTouched(side: Side, files: seq<FileDiff>, path: string)
    ensures OwnLines(side, Spans(files, path)) == Touched(side, HunksOf(files, path))
  {
    hide OwnHeaders, HunksOf, Spans, Range;
    OwnSpansAreTheHunks(files, path);
    var spans, hunks := Spans(files, path), HunksOf(files, path);
    forall n | n in OwnLines(side, spans) ensures n in Touched(side, hunks) {
      var k :| 0 <= k < |spans| && spans[k].own && n in Range(side, spans[k].header);
      InOwnHeaders(spans, spans[k].header);
    }
    forall n | n in Touched(side, hunks) ensures n in OwnLines(side, spans) {
      var k :| 0 <= k < |hunks| && n in Range(side, HeaderOf(hunks[k]));
      assert Headers(hunks)[k] in OwnHeaders(spans);
      InOwnHeaders(spans, HeaderOf(hunks[k]));
    }
  }

  // ----- When the readers are right -----

  /** The lines found from headers that are not the path's. */
  function Stray(side: Side, spans: seq<Span>): set<int>
  {
    set k, n | 0 <= k < |spans| && !spans[k].own && n in FoundFrom(side, spans[k]) :: n
  }

  function Start(side: Side, h: Header): nat { if side == NEW then h.newStart else h.oldStart }

  function Count(side: Side, h: Header): nat { if side == NEW then h.newCount else h.oldCount }

  /** An empty range names the line before it. */
  function Begin(side: Side, h: Header): nat { if Count(side, h) == 0 then Start(side, h) + 1 else Start(side, h) }

  /** The lines of one hunk end, and at least one unchanged line follows, before those of a
      later hunk begin: what -U0 output is. */
  predicate Gap(side: Side, a: Header, b: Header)
  {
    Begin(side, a) + Count(side, a) < Begin(side, b)
  }

  predicate Apart(side: Side, hunks: seq<Hunk>)
  {
    forall i, j | 0 <= i < j < |hunks| :: Gap(side, HeaderOf(hunks[i]), HeaderOf(hunks[j]))
  }

  predicate SpansApart(side: Side, spans: seq<Span>)
  {
    forall i, j | 0 <= i < j < |spans| && spans[i].own && spans[j].own :: Gap(side, spans[i].header, spans[j].header)
  }

  predicate HeadersApart(side: Side, headers: seq<Header>)
  {
    forall i, j | 0 <= i < j < |headers| :: Gap(side, headers[i], headers[j])
  }

  lemma {:induction false} OwnSpansApart(side: Side, spans: seq<Span>)
    requires HeadersApart(side, OwnHeaders(spans))
    ensures SpansApart(side, spans)
  {
    hide Gap;
    if spans != [] {
      var rest, headers := spans[1..], OwnHeaders(spans);
      var after := OwnHeaders(rest);
      assert headers == (if spans[0].own then [spans[0].header] else []) + after;
      hide OwnHeaders;
      LaterApart(side, headers, after);
      OwnSpansApart(side, rest);
      forall i, j | 0 <= i < j < |spans| && spans[i].own && spans[j].own
        ensures Gap(side, spans[i].header, spans[j].header)
      {
        if i > 0 {
          assert Gap(side, rest[i - 1].header, rest[j - 1].header);
        } else {
          assert rest[j - 1] == spans[j];
          InOwnHeaders(rest, spans[j].header);
          var k :| 0 <= k < |after| && after[k] == spans[j].header;
          assert headers[0] == spans[0].header && headers[k + 1] == after[k];
        }
      }
    }
  }

  lemma LaterApart(side: Side, headers: seq<Header>, after: seq<Header>)
    requires HeadersApart(side, headers) && (headers == after || (headers != [] && headers[1..] == after))
    ensures HeadersApart(side, after)
  {
    hide Gap;
    if headers != after {
      forall i, j | 0 <= i < j < |after| ensures Gap(side, after[i], after[j]) {
        assert after[i] == headers[i + 1] && after[j] == headers[j + 1];
      }
    }
  }

  /** A hunk that only deletes lines at the top names line 1 as touched, like one that deletes
      after line 1. */
  predicate TopDeletion(h: Header) { h.newCount == 0 && h.newStart <= 1 }

  predicate TopIsFound(spans: seq<Span>)
  {
    exists k :: 0 <= k < |spans| && spans[k].own && spans[k].believed && TopDeletion(spans[k].header)
  }

  /** Every line of a hunk the reader misses is found from other headers, or is line 1, named by
      a second deletion that it does not miss. */
  predicate MissedIsStray(spans: seq<Span>)
  {
    forall k | 0 <= k < |spans| && spans[k].own && !spans[k].believed ::
      || Range(NEW, spans[k].header) <= Stray(NEW, spans)
      || (TopDeletion(spans[k].header) && TopIsFound(spans))
  }

  /** The new-side reader is right about hunks that are apart exactly when what it takes for
      other hunks of the path names only lines that are touched, and the lines of each hunk
      it misses are named by such headers. */
  lemma NewLinesIff(files: seq<FileDiff>, path: string)
    requires Apart(NEW, HunksOf(files, path))
    ensures var spans, touched := Spans(files, path), Touched(NEW, HunksOf(files, path));
            Read(NEW, SplitLines(DiffText(files)), path, START).found == touched
            <==> Stray(NEW, spans) <= touched && MissedIsStray(spans)
  {
    hide Read, DiffText, SplitLines, Spans, HunksOf, Touched, OwnHeaders;
    hide Stray, Found, OwnLines, MissedIsStray;
    ReadDiff(NEW, files, path);
    OwnLinesAreTouched(NEW, files, path);
    OwnSpansAreTheHunks(files, path);
    OwnSpansApart(NEW, Spans(files, path));
    NewSpansIff(Spans(files, path));
  }

  lemma OverlapIsTop(spans: seq<Span>, i: nat, j: nat, n: int)
    requires SpansApart(NEW, spans) && i < |spans| && j < |spans| && i != j && spans[i].own && spans[j].own
    requires n in Range(NEW, spans[i].header) && n in Range(NEW, spans[j].header)
    ensures TopDeletion(spans[i].header) && TopDeletion(spans[j].header)
  {
    if i < j {
      assert Gap(NEW, spans[i].header, spans[j].header);
    } else {
      assert Gap(NEW, spans[j].header, spans[i].header);
    }
  }

  lemma NewSpansIff(spans: seq<Span>)
    requires SpansApart(NEW, spans)
    ensures Found(NEW, spans) == OwnLines(NEW, spans)
            <==> Stray(NEW, spans) <= OwnLines(NEW, spans) && MissedIsStray(spans)
  {
    hide SpansApart;
    if Found(NEW, spans) == OwnLines(NEW, spans) { NewRightMeans(spans); }
    if Stray(NEW, spans) <= OwnLines(NEW, spans) && MissedIsStray(spans) { NewRightIf(spans); }
  }

  lemma NewRightMeans(spans: seq<Span>)
    requires SpansApart(NEW, spans) && Found(NEW, spans) == OwnLines(NEW, spans)
    ensures Stray(NEW, spans) <= OwnLines(NEW, spans) && MissedIsStray(spans)
  {
    hide NewRange, SpansApart, TopDeletion;
    forall n | n in Stray(NEW, spans) ensures n in OwnLines(NEW, spans) {
      var k :| 0 <= k < |spans| && !spans[k].own && n in FoundFrom(NEW, spans[k]);
      assert n in Found(NEW, spans);
    }
    forall k | 0 <= k < |spans| && spans[k].own && !spans[k].believed
      ensures Range(NEW, spans[k].header) <= Stray(NEW, spans)
              || (TopDeletion(spans[k].header) && TopIsFound(spans))
    {
      var range, stray := Range(NEW, spans[k].header), Stray(NEW, spans);
      if !(range <= stray) {
        var n := NotWithin(range, stray);
        assert n in OwnLines(NEW, spans);
        var j :| 0 <= j < |spans| && n in FoundFrom(NEW, spans[j]);
        assert spans[j].own && spans[j].believed && n in Range(NEW, spans[j].header);
        OverlapIsTop(spans, k, j, n);
        assert TopDeletion(spans[j].header);
      }
    }
  }

  lemma NotWithin(a: set<int>, b: set<int>) returns (n: int)
    requires !(a <= b)
    ensures n in a && n !in b
  {
    assert (forall x | x in a :: x in b) ==> a <= b;
    n :| n in a && n !in b;
  }

  lemma NewRightIf(spans: seq<Span>)
    requires Stray(NEW, spans) <= OwnLines(NEW, spans) && MissedIsStray(spans)
    ensures Found(NEW, spans) == OwnLines(NEW, spans)
  {
    forall n | n in Found(NEW, spans) ensures n in OwnLines(NEW, spans) {
      var k :| 0 <= k < |spans| && n in FoundFrom(NEW, spans[k]);
      if spans[k].own { assert n in Range(NEW, spans[k].header); } else { assert n in Stray(NEW, spans); }
    }
    forall n | n in OwnLines(NEW, spans) ensures n in Found(NEW, spans) {
      var k :| 0 <= k < |spans| && spans[k].own && n in Range(NEW, spans[k].header);
      if spans[k].believed {
        assert n in FoundFrom(NEW, spans[k]);
      } else if Range(NEW, spans[k].header) <= Stray(NEW, spans) {
        var j :| 0 <= j < |spans| && !spans[j].own && n in FoundFrom(NEW, spans[j]);
      } else {
        var j :| 0 <= j < |spans| && spans[j].own && spans[j].believed && TopDeletion(spans[j].header);
        assert n == 1 && n in FoundFrom(NEW, spans[j]);
      }
    }
  }

  /** The old-side reader is right about hunks that are apart exactly when what it counts from
      other headers is touched, it counts no more than the removed lines of a hunk from its
      header, and the lines it counts too few are all found from other headers. */
  lemma RemovedLinesIff(files: seq<FileDiff>, path: string)
    requires Apart(REMOVED, HunksOf(files, path))
    ensures var spans, touched := Spans(files, path), Touched(REMOVED, HunksOf(files, path));
            Read(REMOVED, SplitLines(DiffText(files)), path, START).found == touched
            <==> Stray(REMOVED, spans) <= touched && NoneTooMany(spans) && RestIsStray(spans)
  {
    hide Read, DiffText, SplitLines, Spans, HunksOf, Touched, OwnHeaders;
    hide NoneTooMany, RestIsStray, Stray, Found, OwnLines;
    ReadDiff(REMOVED, files, path);
    OwnLinesAreTouched(REMOVED, files, path);
    OwnSpansAreTheHunks(files, path);
    OwnSpansApart(REMOVED, Spans(files, path));
    RemovedSpansIff(Spans(files, path));
  }

  predicate NoneTooMany(spans: seq<Span>)
  {
    forall k | 0 <= k < |spans| && spans[k].own && spans[k].believed && spans[k].header.oldStart > 0 ::
      spans[k].minuses <= spans[k].header.oldCount
  }

  predicate RestIsStray(spans: seq<Span>)
  {
    forall k | 0 <= k < |spans| && spans[k].own ::
      Range(REMOVED, spans[k].header) - FoundFrom(REMOVED, spans[k]) <= Stray(REMOVED, spans)
  }

  /** The line after a hunk's own is touched by no hunk. */
  lemma LineAfter(spans: seq<Span>, k: nat)
    requires SpansApart(REMOVED, spans) && k < |spans| && spans[k].own
    ensures spans[k].header.oldStart + spans[k].header.oldCount !in OwnLines(REMOVED, spans)
  {
    var h := spans[k].header;
    var n := h.oldStart + h.oldCount;
    forall j | 0 <= j < |spans| && spans[j].own ensures n !in Range(REMOVED, spans[j].header) {
      if j < k { assert Gap(REMOVED, spans[j].header, h); }
      if k < j { assert Gap(REMOVED, h, spans[j].header); }
    }
  }

  lemma OwnRangesAreDisjoint(spans: seq<Span>, i: nat, j: nat)
    requires SpansApart(REMOVED, spans) && i < |spans| && j < |spans| && i != j && spans[i].own && spans[j].own
    ensures Range(REMOVED, spans[i].header) !! Range(REMOVED, spans[j].header)
  {
    var a, b := spans[if i < j then i else j], spans[if i < j then j else i];
    assert Gap(REMOVED, a.header, b.header);
  }

  lemma NotTooMany(s: Span)
    requires s.own && (s.believed && s.header.oldStart > 0 ==> s.minuses <= s.header.oldCount)
    ensures FoundFrom(REMOVED, s) <= Range(REMOVED, s.header)
  {
  }

  lemma RemovedSpansIff(spans: seq<Span>)
    requires SpansApart(REMOVED, spans)
    ensures Found(REMOVED, spans) == OwnLines(REMOVED, spans)
            <==> Stray(REMOVED, spans) <= OwnLines(REMOVED, spans) && NoneTooMany(spans) && RestIsStray(spans)
  {
    if Found(REMOVED, spans) == OwnLines(REMOVED, spans) {
      RightMeans(spans);
    }
    if Stray(REMOVED, spans) <= OwnLines(REMOVED, spans) && NoneTooMany(spans) && RestIsStray(spans) {
      RightIf(spans);
    }
  }

  lemma RightMeans(spans: seq<Span>)
    requires SpansApart(REMOVED, spans) && Found(REMOVED, spans) == OwnLines(REMOVED, spans)
    ensures Stray(REMOVED, spans) <= OwnLines(REMOVED, spans) && NoneTooMany(spans) && RestIsStray(spans)
  {
    forall n | n in Stray(REMOVED, spans) ensures n in OwnLines(REMOVED, spans) {
      var k :| 0 <= k < |spans| && !spans[k].own && n in FoundFrom(REMOVED, spans[k]);
      assert n in Found(REMOVED, spans);
    }
    forall k | 0 <= k < |spans| && spans[k].own && spans[k].believed && spans[k].header.oldStart > 0
      ensures spans[k].minuses <= spans[k].header.oldCount
    {
      var n := spans[k].header.oldStart + spans[k].header.oldCount;
      LineAfter(spans, k);
      assert n !in Found(REMOVED, spans) && n !in FoundFrom(REMOVED, spans[k]);
    }
    hide Range, FoundFrom, SpansApart;
    forall k, n
      | 0 <= k < |spans| && spans[k].own && n in Range(REMOVED, spans[k].header) - FoundFrom(REMOVED, spans[k])
      ensures n in Stray(REMOVED, spans)
    {
      assert n in OwnLines(REMOVED, spans);
      forall j | 0 <= j < |spans| && spans[j].own && j != k ensures n !in FoundFrom(REMOVED, spans[j]) {
        NotTooMany(spans[j]);
        OwnRangesAreDisjoint(spans, k, j);
      }
      var j :| 0 <= j < |spans| && n in FoundFrom(REMOVED, spans[j]);
    }
  }

  lemma RightIf(spans: seq<Span>)
    requires Stray(REMOVED, spans) <= OwnLines(REMOVED, spans) && NoneTooMany(spans) && RestIsStray(spans)
    ensures Found(REMOVED, spans) == OwnLines(REMOVED, spans)
  {
    hide Range, FoundFrom;
    forall n | n in Found(REMOVED, spans) ensures n in OwnLines(REMOVED, spans) {
      var k :| 0 <= k < |spans| && n in FoundFrom(REMOVED, spans[k]);
      if spans[k].own { NotTooMany(spans[k]); } else { assert n in Stray(REMOVED, spans); }
    }
    forall n | n in OwnLines(REMOVED, spans) ensures n in Found(REMOVED, spans) {
      var k :| 0 <= k < |spans| && spans[k].own && n in Range(REMOVED, spans[k].header);
      if n !in FoundFrom(REMOVED, spans[k]) {
        assert n in Stray(REMOVED, spans);
        var j :| 0 <= j < |spans| && !spans[j].own && n in FoundFrom(REMOVED, spans[j]);
      }
    }
  }

  // ----- Diffs without a second reading -----

  /** Lines that are neither a file name nor a hunk header to the readers. */
  predicate Calm(lines: seq<string>)
  {
    forall l | l in lines :: MarkOf(l).Minus? || MarkOf(l).Inert?
  }

  predicate AllInert(lines: seq<string>)
  {
    forall l | l in lines :: MarkOf(l).Inert?
  }

  /** A name the readers read back. */
  predicate GoodTarget(t: Target)
  {
    t.Path? ==> && t.name != "" && t.name != "/dev/null" && BreakFree(t.name)
                && (t.quoted || !IsSpace(t.name[|t.name| - 1]))
  }

  predicate QuietFile(f: FileDiff)
  {
    && AllInert(PiecesOf(f.preamble))
    && (f.patch.Some? ==>
          && AllInert(Strays(f.patch.value.oldName)) && GoodTarget(f.patch.value.target)
          && forall k | 0 <= k < |f.patch.value.hunks| :: Calm(Tail(f.patch.value.hunks[k])))
  }

  /** Nothing in the diff but its file names and hunk headers reads as one: no body or heading
      is cut into a piece that does, and no added line begins "++ ". */
  predicate Quiet(files: seq<FileDiff>)
  {
    forall k | 0 <= k < |files| :: QuietFile(files[k])
  }

  /** The lines that read as removed ones. */
  function Minuses(lines: seq<string>): nat
  {
    if lines == [] then 0 else (if MarkOf(lines[0]).Minus? then 1 else 0) + Minuses(lines[1..])
  }

  function OwnSpans(hunks: seq<Hunk>): (spans: seq<Span>)
    ensures |spans| == |hunks|
    ensures forall k | 0 <= k < |spans| :: spans[k] == Span(HeaderOf(hunks[k]), true, true, Minuses(Tail(hunks[k])))
  {
    if hunks == [] then []
    else [Span(HeaderOf(hunks[0]), true, true, Minuses(Tail(hunks[0])))] + OwnSpans(hunks[1..])
  }

  lemma {:induction false} HearCalm(lines: seq<string>, rest: seq<Item>, path: string, inside: bool)
    requires Calm(lines)
    ensures var next := Hear(rest, path, inside);
            Hear(Others(lines) + rest, path, inside)
            == Heard(next.lead + if inside then Minuses(lines) else 0, next.spans)
  {
    hide MarkOf;
    if lines == [] {
      assert Others(lines) + rest == rest;
    } else {
      assert MarkOf(lines[0]).Minus? || MarkOf(lines[0]).Inert?;
      HearCalm(lines[1..], rest, path, inside);
      assert (Others(lines) + rest)[1..] == Others(lines[1..]) + rest;
    }
  }

  lemma {:induction false} NoMinuses(lines: seq<string>)
    requires AllInert(lines)
    ensures Minuses(lines) == 0 && Calm(lines)
  {
    hide MarkOf;
    if lines != [] {
      assert MarkOf(lines[0]).Inert?;
      NoMinuses(lines[1..]);
    }
  }

  lemma HearHunk(h: Hunk, own: bool, rest: seq<Item>, path: string)
    requires Calm(Tail(h)) && Hear(rest, path, own).lead == 0
    ensures var next := Hear(rest, path, own);
            Hear(HunkItems(h, own) + rest, path, own)
            == if own then Heard(0, [Span(HeaderOf(h), true, true, Minuses(Tail(h)))] + next.spans) else next
  {
    hide Tail, Minuses, Calm, Others;
    var item := Item(Head(HeaderOf(h)), own);
    HearCalm(Tail(h), rest, path, own);
    var items := HunkItems(h, own) + rest;
    assert items[0] == item && items[1..] == Others(Tail(h)) + rest;
  }

  lemma {:induction false} HearHunks(hunks: seq<Hunk>, own: bool, rest: seq<Item>, path: string)
    requires forall k | 0 <= k < |hunks| :: Calm(Tail(hunks[k]))
    requires Hear(rest, path, own).lead == 0
    ensures var next := Hear(rest, path, own);
            Hear(HunksItems(hunks, own) + rest, path, own)
            == Heard(0, (if own then OwnSpans(hunks) else []) + next.spans)
  {
    hide HunkItems, Tail, Minuses, Calm, Hear;
    var next := Hear(rest, path, own);
    if hunks == [] {
      assert HunksItems(hunks, own) + rest == rest;
      assert [] + next.spans == next.spans;
    } else {
      var first, later := HunkItems(hunks[0], own), HunksItems(hunks[1..], own);
      HearHunks(hunks[1..], own, rest, path);
      HearHunk(hunks[0], own, later + rest, path);
      assert HunksItems(hunks, own) + rest == first + (later + rest);
      if own {
        var s := Span(HeaderOf(hunks[0]), true, true, Minuses(Tail(hunks[0])));
        assert [s] + (OwnSpans(hunks[1..]) + next.spans) == OwnSpans(hunks) + next.spans;
      } else {
        assert [] + next.spans == next.spans;
      }
    }
  }

  lemma TargetIsRead(t: Target)
    requires GoodTarget(t)
    ensures StartsWith(ShowTarget(t), "+++ ") && NameIn(ShowTarget(t)) == TargetName(t)
  {
    match t
    case DevNull =>
      assert ShowTarget(t)[4..] == "/dev/null";
      StripKeepsTrimmed("/dev/null");
    case Path(name, quoted, tab) =>
      hide Strip;
      var shown := if quoted then "\"b/" + name + "\"" else "b/" + name;
      var space := if tab then "\t" else "";
      assert ShowTarget(t)[4..] == shown + space;
      assert ShowTarget(t)[..4] == "+++ ";
      ShownNameIsTrimmed(name, quoted);
      StripDropsTrailingSpace(shown, space);
      UnquoteShown(name, quoted);
      assert ("b/" + name)[2..] == name;
  }

  lemma ShownNameIsTrimmed(name: string, quoted: bool)
    requires name != "" && (quoted || !IsSpace(name[|name| - 1]))
    ensures Trimmed(if quoted then "\"b/" + name + "\"" else "b/" + name)
  {
  }

  lemma UnquoteShown(name: string, quoted: bool)
    ensures Unquote(if quoted then "\"b/" + name + "\"" else "b/" + name) == "b/" + name
  {
    var shown := "\"b/" + name + "\"";
    assert shown[1..|shown| - 1] == "b/" + name;
    OtherMark("b/" + name, "\"");
  }

  lemma TargetMark(t: Target)
    requires GoodTarget(t)
    ensures MarkOf(ShowTarget(t)) == File(TargetName(t))
  {
    TargetIsRead(t);
    hide NameIn, ShowTarget, TargetName, ReadHeader;
  }

  lemma ShownTargetIsWhole(t: Target)
    requires GoodTarget(t)
    ensures Pieces(ShowTarget(t)) == [ShowTarget(t)]
  {
    assert BreakFree("+++ ") && BreakFree("b/") && BreakFree("\"");
    hide Pieces;
    WholePiece(ShowTarget(t));
  }

  lemma OldNameMark(name: string)
    ensures MarkOf("--- " + name) == Inert
  {
    hide NameIn, ReadHeader;
    var line := "--- " + name;
    assert line[..4] == "--- ";
    Prefixes(line);
  }

  /** The file header says which path follows, and nothing else. */
  lemma NamesAre(p: Patch)
    requires GoodTarget(p.target) && AllInert(Strays(p.oldName))
    ensures var lines := PiecesOf(ShowNames(p));
            && lines != [] && MarkOf(lines[|lines| - 1]) == File(TargetName(p.target))
            && AllInert(lines[..|lines| - 1])
  {
    hide MarkOf, Pieces, GoodTarget, TargetName, ShowTarget, StartsWith;
    var minus := "--- " + p.oldName;
    PiecesAfter("--- ", p.oldName);
    var first := "--- " + Pieces(p.oldName)[0];
    OldNameMark(Pieces(p.oldName)[0]);
    TargetMark(p.target);
    ShownTargetIsWhole(p.target);
    PiecesOfFirst(minus, [ShowTarget(p.target)]);
    PiecesOfFirst(ShowTarget(p.target), []);
    assert [ShowTarget(p.target)] + [] == [ShowTarget(p.target)];
    var lines := [first] + Strays(p.oldName) + [ShowTarget(p.target)];
    assert PiecesOf(ShowNames(p)) == lines;
    assert lines[..|lines| - 1] == [first] + Strays(p.oldName);
  }

  lemma HearNames(p: Patch, rest: seq<Item>, path: string, inside: bool)
    requires GoodTarget(p.target) && AllInert(Strays(p.oldName))
    ensures Hear(Others(PiecesOf(ShowNames(p))) + rest, path, inside)
            == Hear(rest, path, TargetName(p.target) == Some(path))
  {
    hide *;
    var lines := PiecesOf(ShowNames(p));
    NamesAre(p);
    var n := |lines| - 1;
    var before, last := lines[..n], [lines[n]];
    assert lines == before + last;
    NoMinuses(before);
    OthersConcat(before, last);
    assert (Others(before) + Others(last)) + rest == Others(before) + (Others(last) + rest);
    HearCalm(before, Others(last) + rest, path, inside);
    HearFileMark(lines[n], TargetName(p.target), rest, path, inside);
    var next := Hear(rest, path, TargetName(p.target) == Some(path));
    assert Heard(next.lead + 0, next.spans) == next;
  }

  lemma OthersConcat(a: seq<string>, b: seq<string>)
    ensures Others(a + b) == Others(a) + Others(b)
  {
    hide MarkOf;
  }

  lemma HearFileMark(line: string, name: Option<string>, rest: seq<Item>, path: string, inside: bool)
    requires MarkOf(line) == File(name)
    ensures Hear(Others([line]) + rest, path, inside) == Hear(rest, path, name == Some(path))
  {
    hide MarkOf;
    var items := Others([line]) + rest;
    assert items[0] == Item(File(name), false) && items[1..] == rest;
  }

  lemma HearFile(f: FileDiff, rest: seq<Item>, path: string, inside: bool)
    requires QuietFile(f) && forall i :: Hear(rest, path, i).lead == 0
    ensures exists after :: Hear(FileItems(f, path) + rest, path, inside)
                            == Heard(0, OwnSpans(HunksIn(f, path)) + Hear(rest, path, after).spans)
  {
    hide MarkOf, PiecesOf, ShowNames, GoodTarget, TargetName, Minuses, Calm, Others, Hear, HunksItems;
    hide OwnSpans, AllInert, Tail, FileItems;
    var before := PiecesOf(f.preamble);
    NoMinuses(before);
    NoSpans();
    match f.patch
    case None =>
      FileWithout(f, path, rest);
      HearCalm(before, rest, path, inside);
      var spans := Hear(rest, path, inside).spans;
      assert [] + spans == spans;
    case Some(p) =>
      var own := TargetName(p.target) == Some(path);
      var hunks := HunksItems(p.hunks, own) + rest;
      FileWith(f, path, rest);
      HearHunks(p.hunks, own, rest, path);
      HearNames(p, hunks, path, inside);
      HearCalm(before, Others(PiecesOf(ShowNames(p))) + hunks, path, inside);
      assert Hear(FileItems(f, path) + rest, path, inside)
             == Heard(0, OwnSpans(HunksIn(f, path)) + Hear(rest, path, own).spans);
  }

  lemma FileWithout(f: FileDiff, path: string, rest: seq<Item>)
    requires f.patch.None?
    ensures FileItems(f, path) + rest == Others(PiecesOf(f.preamble)) + rest
  {
    hide Others, PiecesOf;
  }

  lemma FileWith(f: FileDiff, path: string, rest: seq<Item>)
    requires f.patch.Some?
    ensures var p := f.patch.value;
            FileItems(f, path) + rest
            == Others(PiecesOf(f.preamble))
               + (Others(PiecesOf(ShowNames(p))) + (HunksItems(p.hunks, TargetName(p.target) == Some(path)) + rest))
  {
    hide Others, PiecesOf, ShowNames, HunksItems, TargetName;
  }

  lemma NoSpans()
    ensures OwnSpans([]) == []
  {
  }

  lemma {:induction false} OwnSpansConcat(a: seq<Hunk>, b: seq<Hunk>)
    ensures OwnSpans(a + b) == OwnSpans(a) + OwnSpans(b)
  {
    hide Minuses, Tail;
  }

  /** In a quiet diff the readers believe exactly the headers of the path. */
  lemma {:induction false} QuietSpans(files: seq<FileDiff>, path: string, inside: bool)
    requires Quiet(files)
    ensures Hear(Items(files, path), path, inside) == Heard(0, OwnSpans(HunksOf(files, path)))
  {
    hide QuietFile, FileItems, OwnSpans, TargetName;
    NoSpans();
    if files != [] {
      var f, rest := files[0], Items(files[1..], path);
      forall i ensures Hear(rest, path, i) == Heard(0, OwnSpans(HunksOf(files[1..], path))) {
        QuietSpans(files[1..], path, i);
      }
      HearFile(f, rest, path, inside);
      assert HunksOf(files, path) == HunksIn(f, path) + HunksOf(files[1..], path);
      OwnSpansConcat(HunksIn(f, path), HunksOf(files[1..], path));
    }
  }

  /** As many lines are counted from the header of the hunk as it removes. */
  predicate CountsRight(h: Hunk)
  {
    if h.oldStart == 0 then h.removed == [] else Minuses(Tail(h)) == |h.removed|
  }

  /** On the text of a quiet -U0 diff the new-side reader returns exactly the union of the
      new-side ranges of the path's hunks, and the old-side reader exactly the union of their
      old-side ranges if and only if, in each, as many pieces of lines read as removed lines
      as lines were removed. */
  lemma ReadersFindTheHunks(files: seq<FileDiff>, path: string)
    requires Quiet(files) && Apart(REMOVED, HunksOf(files, path))
    ensures var lines, hunks := SplitLines(DiffText(files)), HunksOf(files, path);
            && Read(NEW, lines, path, START).found == Touched(NEW, hunks)
            && (Read(REMOVED, lines, path, START).found == Touched(REMOVED, hunks)
                <==> forall k | 0 <= k < |hunks| :: CountsRight(hunks[k]))
  {
    hide Read, SplitLines, DiffText, Touched, Quiet, Items, Hear, HunksOf;
    var hunks := HunksOf(files, path);
    QuietSpans(files, path, false);
    ReadDiff(NEW, files, path);
    OwnLinesAreTouched(NEW, files, path);
    hide Minuses, Tail, NewRange, Apart, Found, OwnLines;
    OwnFoundNew(hunks);
    RemovedLinesIff(files, path);
    OwnCounts(hunks);
  }

  lemma OwnFoundNew(hunks: seq<Hunk>)
    ensures Found(NEW, OwnSpans(hunks)) == OwnLines(NEW, OwnSpans(hunks))
  {
    hide NewRange, Minuses, Tail;
    var spans := OwnSpans(hunks);
    assert forall k | 0 <= k < |spans| :: FoundFrom(NEW, spans[k]) == Range(NEW, spans[k].header);
  }

  lemma OwnCount(h: Hunk, s: Span)
    requires s == Span(HeaderOf(h), true, true, Minuses(Tail(h)))
    ensures CountsRight(h) <==> && (h.oldStart > 0 ==> s.minuses <= |h.removed|)
                                && Range(REMOVED, s.header) - FoundFrom(REMOVED, s) == {}
  {
    hide Minuses, Tail;
    var range, found := Range(REMOVED, s.header), FoundFrom(REMOVED, s);
    var last := h.oldStart + |h.removed| - 1;
    if h.removed != [] {
      assert last in range;
      if h.oldStart == 0 || s.minuses < |h.removed| { assert last in range - found; }
    }
    if CountsRight(h) {
      assert found == range;
    }
  }

  lemma OwnCounts(hunks: seq<Hunk>)
    ensures var spans := OwnSpans(hunks);
            && Stray(REMOVED, spans) == {}
            && (NoneTooMany(spans) && RestIsStray(spans) <==> forall k | 0 <= k < |hunks| :: CountsRight(hunks[k]))
  {
    hide Minuses, Tail, CountsRight, Range, FoundFrom;
    var spans := OwnSpans(hunks);
    assert Stray(REMOVED, spans) == {};
    forall k | 0 <= k < |spans|
      ensures CountsRight(hunks[k])
              <==> && (spans[k].header.oldStart > 0 ==> spans[k].minuses <= spans[k].header.oldCount)
                   && Range(REMOVED, spans[k].header) - FoundFrom(REMOVED, spans[k]) <= {}
    {
      OwnCount(hunks[k], spans[k]);
    }
  }

  // ----- Hunks no line of which is cut -----

  predicate AllBreakFree(bodies: seq<string>)
  {
    forall k | 0 <= k < |bodies| :: BreakFree(bodies[k])
  }

  predicate Untorn(h: Hunk)
  {
    BreakFree(h.heading) && AllBreakFree(h.removed) && AllBreakFree(h.added)
  }

  predicate NoneStarts(bodies: seq<string>, prefix: string)
  {
    forall k | 0 <= k < |bodies| :: !StartsWith(bodies[k], prefix)
  }

  lemma MarkedPrefix(mark: char, body: string, prefix: string)
    ensures StartsWith([mark] + body, [mark] + prefix) <==> StartsWith(body, prefix)
  {
    if StartsWith([mark] + body, [mark] + prefix) {
      forall k | 0 <= k < |prefix| ensures body[k] == prefix[k] {
        assert ([mark] + body)[k + 1] == ([mark] + prefix)[k + 1];
      }
    }
  }

  lemma RemovedMark(body: string)
    ensures MarkOf(['-'] + body) == if StartsWith(body, "-- ") then Inert else Minus
  {
    hide ReadHeader, NameIn;
    var line := ['-'] + body;
    MarkedPrefix('-', body, "-- ");
    assert ['-'] + "-- " == "--- ";
    OtherMark(line, "+++ ");
    OtherMark(line, "@@ ");
    assert line[..1] == "-";
  }

  lemma AddedMark(body: string)
    ensures MarkOf(['+'] + body).Inert? || MarkOf(['+'] + body).File?
    ensures MarkOf(['+'] + body).File? <==> StartsWith(body, "++ ")
  {
    hide ReadHeader, NameIn;
    var line := ['+'] + body;
    MarkedPrefix('+', body, "++ ");
    assert ['+'] + "++ " == "+++ ";
    OtherMark(line, "--- ");
    OtherMark(line, "@@ ");
    OtherMark(line, "-");
  }

  lemma {:induction false} MinusesConcat(a: seq<string>, b: seq<string>)
    ensures Minuses(a + b) == Minuses(a) + Minuses(b)
  {
    hide MarkOf;
    if a == [] {
      assert a + b == b;
    } else {
      assert (a + b)[1..] == a[1..] + b;
      MinusesConcat(a[1..], b);
    }
  }

  lemma CalmConcat(a: seq<string>, b: seq<string>)
    ensures Calm(a + b) <==> Calm(a) && Calm(b)
  {
    hide MarkOf;
    if Calm(a + b) {
      forall l | l in a ensures MarkOf(l).Minus? || MarkOf(l).Inert? { assert l in a + b; }
      forall l | l in b ensures MarkOf(l).Minus? || MarkOf(l).Inert? { assert l in a + b; }
    }
  }

  lemma {:induction false} RemovedLines(bodies: seq<string>)
    requires AllBreakFree(bodies)
    ensures var lines := PiecesOf(Marked('-', bodies));
            && Calm(lines) && Minuses(lines) <= |bodies|
            && (Minuses(lines) == |bodies| <==> NoneStarts(bodies, "-- "))
  {
    hide MarkOf, StartsWith, Pieces;
    if bodies != [] {
      var line := ['-'] + bodies[0];
      WholePiece(line);
      RemovedMark(bodies[0]);
      RemovedLines(bodies[1..]);
      PiecesOfFirst(line, Marked('-', bodies[1..]));
      var rest := PiecesOf(Marked('-', bodies[1..]));
      MinusesConcat([line], rest);
      CalmConcat([line], rest);
      assert NoneStarts(bodies, "-- ") <==> !StartsWith(bodies[0], "-- ") && NoneStarts(bodies[1..], "-- ") by {
        NoneStartsFirst(bodies, "-- ");
      }
    }
  }

  lemma NoneStartsFirst(bodies: seq<string>, prefix: string)
    requires bodies != []
    ensures NoneStarts(bodies, prefix) <==> !StartsWith(bodies[0], prefix) && NoneStarts(bodies[1..], prefix)
  {
    hide StartsWith;
    var rest := bodies[1..];
    if NoneStarts(bodies, prefix) {
      forall k | 0 <= k < |rest| ensures !StartsWith(rest[k], prefix) { assert rest[k] == bodies[k + 1]; }
    }
    if !StartsWith(bodies[0], prefix) && NoneStarts(rest, prefix) {
      forall k | 0 <= k < |bodies| ensures !StartsWith(bodies[k], prefix) {
        if k > 0 { assert bodies[k] == rest[k - 1]; }
      }
    }
  }

  lemma {:induction false} AddedLines(bodies: seq<string>)
    requires AllBreakFree(bodies)
    ensures var lines := PiecesOf(Marked('+', bodies));
            Minuses(lines) == 0 && (Calm(lines) <==> NoneStarts(bodies, "++ "))
  {
    hide MarkOf, StartsWith, Pieces;
    if bodies != [] {
      var line := ['+'] + bodies[0];
      WholePiece(line);
      AddedMark(bodies[0]);
      AddedLines(bodies[1..]);
      PiecesOfFirst(line, Marked('+', bodies[1..]));
      var rest := PiecesOf(Marked('+', bodies[1..]));
      MinusesConcat([line], rest);
      CalmConcat([line], rest);
      NoneStartsFirst(bodies, "++ ");
    }
  }

  lemma NoEolLines(missing: bool)
    ensures var lines := PiecesOf(NoEol(missing)); Minuses(lines) == 0 && Calm(lines)
  {
    if missing {
      var line := "\\ No newline at end of file";
      assert BreakFree(line);
      OtherMark(line, "+++ ");
      OtherMark(line, "--- ");
      OtherMark(line, "@@ ");
      OtherMark(line, "-");
      hide ReadHeader, NameIn, Pieces;
      WholePiece(line);
      PiecesOfFirst(line, []);
      assert [line] + [] == [line] && [line][1..] == [];
    }
  }

  /** When no line is cut, the old-side reader is right about a hunk exactly when no removed
      line begins "-- ": such a line reads "--- " in the diff, is skipped, and the last line
      of the hunk is then missed. And a second reading needs an added line that begins "++ ". */
  lemma UntornHunk(h: Hunk)
    requires Untorn(h) && (h.removed != [] ==> h.oldStart >= 1)
    ensures CountsRight(h) <==> NoneStarts(h.removed, "-- ")
    ensures Calm(Tail(h)) <==> NoneStarts(h.added, "++ ")
  {
    var removed, added := Marked('-', h.removed), Marked('+', h.added);
    var tail := added + NoEol(h.newNoEol);
    WholePiece(h.heading);
    RemovedLines(h.removed);
    AddedLines(h.added);
    NoEolLines(h.oldNoEol);
    NoEolLines(h.newNoEol);
    hide PiecesOf, MarkOf, Pieces, Strays, Marked, NoEol, Minuses, Calm, StartsWith;
    PiecesOfConcat(removed, NoEol(h.oldNoEol) + tail);
    PiecesOfConcat(NoEol(h.oldNoEol), tail);
    PiecesOfConcat(added, NoEol(h.newNoEol));
    assert Tail(h) == PiecesOf(removed) + (PiecesOf(NoEol(h.oldNoEol))
                                           + (PiecesOf(added) + PiecesOf(NoEol(h.newNoEol))));
    MinusesConcat(PiecesOf(removed), PiecesOf(NoEol(h.oldNoEol)) + (PiecesOf(added) + PiecesOf(NoEol(h.newNoEol))));
    MinusesConcat(PiecesOf(NoEol(h.oldNoEol)), PiecesOf(added) + PiecesOf(NoEol(h.newNoEol)));
    MinusesConcat(PiecesOf(added), PiecesOf(NoEol(h.newNoEol)));
    CalmConcat(PiecesOf(removed), PiecesOf(NoEol(h.oldNoEol)) + (PiecesOf(added) + PiecesOf(NoEol(h.newNoEol))));
    CalmConcat(PiecesOf(NoEol(h.oldNoEol)), PiecesOf(added) + PiecesOf(NoEol(h.newNoEol)));
    CalmConcat(PiecesOf(added), PiecesOf(NoEol(h.newNoEol)));
    assert h.removed == [] ==> NoneStarts(h.removed, "-- ");
  }

  // ----- Diffs no line of which is cut -----

  /** What git writes before the first hunk of a file is none of the readers' business. */
  predicate PlainPreamble(lines: seq<string>)
  {
    forall k | 0 <= k < |lines| ::
      BreakFree(lines[k]) && !StartsWith(lines[k], "+++ ") && !StartsWith(lines[k], "@@ ") && !StartsWith(lines[k], "-")
  }

  /** Nothing in the file's part of the diff contains a line boundary, its name can be read
      back, and a hunk that removes lines says from which on. */
  predicate UntornFile(f: FileDiff)
  {
    && PlainPreamble(f.preamble)
    && (f.patch.Some? ==>
          && BreakFree(f.patch.value.oldName) && GoodTarget(f.patch.value.target)
          && forall k | 0 <= k < |f.patch.value.hunks| :: GoodHunk(f.patch.value.hunks[k]))
  }

  predicate GoodHunk(h: Hunk) { Untorn(h) && (h.removed != [] ==> h.oldStart >= 1) }

  predicate NoPlusPlus(f: FileDiff)
  {
    f.patch.Some? ==> forall k | 0 <= k < |f.patch.value.hunks| :: NoneStarts(f.patch.value.hunks[k].added, "++ ")
  }

  lemma {:induction false} PreambleIsInert(lines: seq<string>)
    requires PlainPreamble(lines)
    ensures AllInert(PiecesOf(lines))
  {
    if lines != [] {
      PreambleIsInert(lines[1..]);
      WholePiece(lines[0]);
      assert MarkOf(lines[0]) == Inert;
      hide MarkOf, Pieces, StartsWith;
    }
  }

  lemma UntornIsQuiet(f: FileDiff)
    requires UntornFile(f) && NoPlusPlus(f)
    ensures QuietFile(f)
  {
    PreambleIsInert(f.preamble);
    if f.patch.Some? {
      var p := f.patch.value;
      WholePiece(p.oldName);
      hide Tail, Calm, NoneStarts, Untorn, PiecesOf, GoodTarget, Strays, CountsRight, MarkOf;
      forall k | 0 <= k < |p.hunks| ensures Calm(Tail(p.hunks[k])) {
        assert GoodHunk(p.hunks[k]);
        UntornHunk(p.hunks[k]);
      }
    }
  }

  lemma {:induction false} HunksAreGood(files: seq<FileDiff>, path: string)
    requires forall k | 0 <= k < |files| :: UntornFile(files[k])
    ensures forall k | 0 <= k < |HunksOf(files, path)| :: GoodHunk(HunksOf(files, path)[k])
  {
    hide GoodHunk, PlainPreamble, GoodTarget, TargetName;
    if files != [] { HunksAreGood(files[1..], path); }
  }

  /** On the text of a -U0 diff none of whose lines contains a boundary and no added line of
      which begins "++ ", the new-side reader is right, and the old-side reader is right
      exactly when no line removed from the path begins "-- ". */
  lemma UntornDiffIff(files: seq<FileDiff>, path: string)
    requires forall k | 0 <= k < |files| :: UntornFile(files[k]) && NoPlusPlus(files[k])
    requires Apart(REMOVED, HunksOf(files, path))
    ensures var lines, hunks := SplitLines(DiffText(files)), HunksOf(files, path);
            && Read(NEW, lines, path, START).found == Touched(NEW, hunks)
            && (Read(REMOVED, lines, path, START).found == Touched(REMOVED, hunks)
                <==> forall k | 0 <= k < |hunks| :: NoneStarts(hunks[k].removed, "-- "))
  {
    hide *;
    forall k | 0 <= k < |files| ensures QuietFile(files[k]) { UntornIsQuiet(files[k]); }
    FilesAreQuiet(files);
    ReadersFindTheHunks(files, path);
    HunksAreGood(files, path);
    var hunks := HunksOf(files, path);
    forall k | 0 <= k < |hunks| ensures CountsRight(hunks[k]) <==> NoneStarts(hunks[k].removed, "-- ") {
      GoodHunkCounts(hunks[k]);
    }
  }

  lemma FilesAreQuiet(files: seq<FileDiff>)
    requires forall k | 0 <= k < |files| :: QuietFile(files[k])
    ensures Quiet(files)
  {
    hide QuietFile;
  }

  lemma GoodHunkCounts(h: Hunk)
    requires GoodHunk(h)
    ensures CountsRight(h) <==> NoneStarts(h.removed, "-- ")
  {
    hide Untorn, CountsRight, NoneStarts, Tail, Calm;
    UntornHunk(h);
  }

  // ----- Lines that are cut -----

  /** Line 1, "a", replaced by one line. */
  function OneLineHunk(added: string): Hunk
  {
    Hunk(1, 1, ["a"], false, [added], false, "")
  }

  const F_PATH := Path("f", false, false)

  function Replaced(added: string): seq<FileDiff>
  {
    [FileDiff([], Some(Patch("a/f", F_PATH, [OneLineHunk(added)])))]
  }

  lemma ReplacedTail(added: string)
    ensures Tail(OneLineHunk(added)) == ["-a"] + Pieces(['+'] + added)
  {
    var h := OneLineHunk(added);
    assert ['-'] + "a" == "-a";
    assert Marked('-', ["a"]) == ["-a"] + Marked('-', []);
    assert Marked('+', [added]) == [['+'] + added] + Marked('+', []);
    assert Body(h) == ["-a"] + [['+'] + added];
    WholePiece("");
    WholePiece("-a");
    hide Pieces, Body, Strays;
    PiecesOfFirst("-a", [['+'] + added]);
    PiecesOfFirst(['+'] + added, []);
    assert [['+'] + added] + [] == [['+'] + added] && Pieces(['+'] + added) + [] == Pieces(['+'] + added);
  }

  lemma ReplacedHunks(added: string)
    ensures HunksOf(Replaced(added), "f") == [OneLineHunk(added)]
    ensures Items(Replaced(added), "f") == FileItems(Replaced(added)[0], "f")
    ensures Touched(NEW, HunksOf(Replaced(added), "f")) == {1} && Touched(REMOVED, HunksOf(Replaced(added), "f")) == {1}
  {
    var files, h := Replaced(added), OneLineHunk(added);
    hide FileItems;
    assert files[1..] == [] && HunksOf(files, "f") == [h] + [] == [h];
    assert Range(NEW, HeaderOf(h)) == {1} && Range(REMOVED, HeaderOf(h)) == {1};
    assert HunksOf(files, "f")[0] == h;
  }

  lemma ReplacedItems(p: Patch, h: Hunk)
    requires p == Patch("a/f", F_PATH, [h])
    ensures FileItems(FileDiff([], Some(p)), "f") == Others(PiecesOf(ShowNames(p))) + HunkItems(h, true)
  {
    hide Others, ShowNames, HunkItems;
    assert [h][1..] == [];
    assert HunksItems([h], true) == HunkItems(h, true) + [] == HunkItems(h, true);
    NoOthers();
    var items := Others(PiecesOf(ShowNames(p))) + HunkItems(h, true);
    assert [] + items == items;
  }

  lemma NoOthers()
    ensures Others(PiecesOf([])) == []
  {
  }

  lemma ReplacedSpans(added: string)
    ensures Spans(Replaced(added), "f")
            == Hear([Item(Head(Header(1, 1, 1, 1)), true)] + Others(["-a"] + Pieces(['+'] + added)), "f", true).spans
  {
    var h := OneLineHunk(added);
    var p := Patch("a/f", F_PATH, [h]);
    WholePiece("a/f");
    assert GoodTarget(F_PATH) by { assert !IsSpace('f'); }
    assert TargetName(F_PATH) == Some("f") && HeaderOf(h) == Header(1, 1, 1, 1) && AllInert([]);
    assert Spans(Replaced(added), "f") == Hear(Items(Replaced(added), "f"), "f", false).spans;
    assert Replaced(added)[0] == FileDiff([], Some(p));
    hide *;
    ReplacedTail(added);
    ReplacedHunks(added);
    ReplacedItems(p, h);
    HearNames(p, HunkItems(h, true), "f", false);
    HunkParts(h, true);
  }

  lemma TornPieces(first: string, second: string)
    requires BreakFree(first) && BreakFree(second)
    ensures Pieces(first + "\U{c}" + second) == [first, second]
  {
    var rest := "\U{c}" + second;
    CutAtStart(second);
    assert first + rest == first + "\U{c}" + second && first + "" == first;
    hide *;
    PiecesAfter(first, rest);
    PiecesAreFirstAndStrays(rest);
  }

  lemma PiecesAreFirstAndStrays(line: string)
    ensures Pieces(line) == [Pieces(line)[0]] + Strays(line)
  {
    hide Pieces;
  }

  lemma CutAtStart(second: string)
    requires BreakFree(second)
    ensures Pieces("\U{c}" + second) == ["", second]
  {
    var rest := "\U{c}" + second;
    WholePiece(second);
    assert rest + "\n" == "\U{c}" + (second + "\n");
    assert AfterBreak(rest + "\n") == second + "\n";
    assert Pieces(rest) == [""] + Pieces(second);
  }

  lemma HearThree(h: Header, lines: seq<string>)
    requires |lines| == 3 && MarkOf(lines[0]) == Minus && MarkOf(lines[1]) == Inert
    ensures var spans := Hear([Item(Head(h), true)] + Others(lines), "f", true).spans;
            && (MarkOf(lines[2]) == Minus ==> spans == [Span(h, true, true, 2)])
            && (MarkOf(lines[2]).Head? ==>
                  spans == [Span(h, true, true, 1), Span(MarkOf(lines[2]).header, false, true, 0)])
  {
    hide MarkOf;
    var third, second := Others([lines[2]]), Others([lines[1], lines[2]]);
    var items := [Item(Head(h), true)] + Others(lines);
    assert third[1..] == [] && second[1..] == third && Others(lines)[1..] == second && items[1..] == Others(lines);
    var last := Hear(third, "f", true);
    assert Hear([], "f", true) == Heard(0, []);
    assert MarkOf(lines[2]) == Minus ==> last == Heard(1, []);
    assert MarkOf(lines[2]).Head? ==> last == Heard(0, [Span(MarkOf(lines[2]).header, false, true, 0)]);
    assert Hear(second, "f", true) == last;
    assert Hear(Others(lines), "f", true) == last.(lead := last.lead + 1);
  }

  /** The three lines of the hunk after its header, when the added line is cut in two. */
  lemma CutInTwo(first: string, second: string)
    requires BreakFree(first) && BreakFree(second) && !StartsWith(first, "++ ")
    ensures var spans := Spans(Replaced(first + "\U{c}" + second), "f"); var h := Header(1, 1, 1, 1);
            && (MarkOf(second) == Minus ==> spans == [Span(h, true, true, 2)])
            && (MarkOf(second).Head? ==> spans == [Span(h, true, true, 1), Span(MarkOf(second).header, false, true, 0)])
  {
    var added := first + "\U{c}" + second;
    assert BreakFree(['+'] + first) && (['+'] + first) + "\U{c}" + second == ['+'] + added;
    assert ['-'] + "a" == "-a" && !StartsWith("a", "-- ");
    hide *;
    TornPieces(['+'] + first, second);
    RemovedMark("a");
    AddedMark(first);
    ReplacedSpans(added);
    HearThree(Header(1, 1, 1, 1), ["-a"] + [['+'] + first, second]);
  }

  /** What the readers then find: the second piece passes for a removed line or a header. */
  lemma CutInTwoFinds(first: string, second: string)
    requires BreakFree(first) && BreakFree(second) && !StartsWith(first, "++ ")
    ensures var lines := SplitLines(DiffText(Replaced(first + "\U{c}" + second)));
            && (MarkOf(second) == Minus ==> Read(REMOVED, lines, "f", START).found == {1, 2})
            && (MarkOf(second).Head? ==>
                  var h := MarkOf(second).header;
                  Read(NEW, lines, "f", START).found == {1} + NewRange(h.newStart, h.newCount))
  {
    var files, h := Replaced(first + "\U{c}" + second), Header(1, 1, 1, 1);
    var one, two := Span(h, true, true, 1), Span(h, true, true, 2);
    assert FoundFrom(NEW, one) == {1} && FoundFrom(REMOVED, two) == {1, 2};
    hide Read, SplitLines, DiffText, MarkOf, Spans, Replaced, StartsWith, Found, NewRange;
    CutInTwo(first, second);
    if MarkOf(second) == Minus { OneSpanFinds(REMOVED, files, two); }
    if MarkOf(second).Head? { TwoSpansFind(NEW, files, one, Span(MarkOf(second).header, false, true, 0)); }
  }

  lemma OneSpanFinds(side: Side, files: seq<FileDiff>, s: Span)
    requires Spans(files, "f") == [s]
    ensures Read(side, SplitLines(DiffText(files)), "f", START).found == FoundFrom(side, s)
  {
    NothingFound(side, 0);
    hide *;
    ReadDiff(side, files, "f");
    FoundFirst(side, s, []);
    assert [s] + [] == [s];
  }

  lemma TwoSpansFind(side: Side, files: seq<FileDiff>, s: Span, t: Span)
    requires Spans(files, "f") == [s, t]
    ensures Read(side, SplitLines(DiffText(files)), "f", START).found == FoundFrom(side, s) + FoundFrom(side, t)
  {
    NothingFound(side, 0);
    hide *;
    ReadDiff(side, files, "f");
    FoundFirst(side, t, []);
    FoundFirst(side, s, [t]);
    assert [t] + [] == [t] && [s] + [t] == [s, t];
  }

  /** "+b" and "-c" are two lines to splitlines when a form feed stands between them, and the
      second reads as a line removed from the file: the old-side reader finds line 2. */
  lemma TornAddedLine()
    ensures var files := Replaced("b\U{c}-c");
            && Touched(REMOVED, HunksOf(files, "f")) == {1}
            && Read(REMOVED, SplitLines(DiffText(files)), "f", START).found == {1, 2}
  {
    assert "b" + "\U{c}" + "-c" == "b\U{c}-c" && ['-'] + "c" == "-c" && BreakFree("b") && BreakFree("-c");
    assert !StartsWith("b", "++ ") && !StartsWith("c", "-- ");
    hide *;
    RemovedMark("c");
    CutInTwoFinds("b", "-c");
    ReplacedHunks("b\U{c}-c");
  }

  lemma SecondHeader()
    ensures MarkOf("@@ -1 +9 @@") == Head(Header(1, 1, 9, 1))
  {
    assert Show(1) == "1" && Show(9) == "9";
    assert ShowHeader(Header(1, 1, 9, 1), "") == "@@ -1 +9 @@";
    hide *;
    HeaderMark(Header(1, 1, 9, 1), "");
  }

  lemma SecondHeaderText()
    ensures "x" + "\U{c}" + "@@ -1 +9 @@" == "x\U{c}@@ -1 +9 @@"
    ensures BreakFree("x") && BreakFree("@@ -1 +9 @@") && !StartsWith("x", "++ ")
  {
  }

  /** And if the second reads as a hunk header, the new-side reader finds its lines. */
  lemma TornIntoHeader()
    ensures var files := Replaced("x\U{c}@@ -1 +9 @@");
            && Touched(NEW, HunksOf(files, "f")) == {1}
            && Read(NEW, SplitLines(DiffText(files)), "f", START).found == {1, 9}
  {
    assert NewRange(9, 1) == {9};
    hide *;
    SecondHeader();
    SecondHeaderText();
    CutInTwoFinds("x", "@@ -1 +9 @@");
    ReplacedHunks("x\U{c}@@ -1 +9 @@");
  }
}
