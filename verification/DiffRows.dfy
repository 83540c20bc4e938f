/**
 Numbered rows of one file's unified diff (src/saberops/candidate_diff.py).
 */
module DiffRows {
  import opened HunkHeader
  import opened Lines
  import opened Wrappers

  datatype RowKind = HUNK | ADD | DELETE | CONTEXT | META

  datatype Row = Row(kind: RowKind, oldNo: Option<int>, newNo: Option<int>, text: string)

  predicate IsBodyLine(line: string)
  {
    line != "" && (line[0] == '+' || line[0] == '-' || line[0] == ' ')
  }

  function BodyRow(line: string, oldNo: int, newNo: int): Row
    requires IsBodyLine(line)
  {
    Row(if line[0] == '+' then ADD else if line[0] == '-' then DELETE else CONTEXT,
        if line[0] != '+' then Some(oldNo) else None,
        if line[0] != '-' then Some(newNo) else None,
        line)
  }

  function RowsFrom(lines: seq<string>, oldNo: int, newNo: int, inHunk: bool): seq<Row>
  {
    if lines == [] then []
    else
      var line := lines[0];
      match ReadHeader(line)
      case Some(h) => [Row(HUNK, None, None, line)] + RowsFrom(lines[1..], h.oldStart, h.newStart, true)
      case None =>
        if inHunk && IsBodyLine(line) then
          [BodyRow(line, oldNo, newNo)]
          + RowsFrom(lines[1..], oldNo + if line[0] != '+' then 1 else 0, newNo + if line[0] != '-' then 1 else 0, true)
        else
          [Row(META, None, None, line)] + RowsFrom(lines[1..], oldNo, newNo, inHunk)
  }

  /** The line loop of project_diff_files over one block. */
  method ProjectRows(block: string) returns (rows: seq<Row>)
    ensures rows == RowsFrom(SplitLines(block), 0, 0, false)
  {
    var lines := SplitLines(block);
    hide ReadHeader, SplitLines, RowsFrom;
    var oldNo, newNo, inHunk := 0, 0, false;
    rows := [];
    for i := 0 to |lines|
      invariant rows + RowsFrom(lines[i..], oldNo, newNo, inHunk) == RowsFrom(lines, 0, 0, false)
    {
      var line := lines[i];
      assert lines[i..][0] == line && lines[i..][1..] == lines[i + 1..];
      RowsAfterLine(lines, i, oldNo, newNo, inHunk);
      match ReadHeader(line) {
        case Some(h) =>
          AppendAssoc(rows, Row(HUNK, None, None, line), RowsFrom(lines[i + 1..], h.oldStart, h.newStart, true));
          oldNo, newNo, inHunk := h.oldStart, h.newStart, true;
          rows := rows + [Row(HUNK, None, None, line)];
        case None =>
          if inHunk && IsBodyLine(line) {
            var row := BodyRow(line, oldNo, newNo);
            oldNo := oldNo + if line[0] != '+' then 1 else 0;
            newNo := newNo + if line[0] != '-' then 1 else 0;
            AppendAssoc(rows, row, RowsFrom(lines[i + 1..], oldNo, newNo, inHunk));
            rows := rows + [row];
          } else {
            AppendAssoc(rows, Row(META, None, None, line), RowsFrom(lines[i + 1..], oldNo, newNo, inHunk));
            rows := rows + [Row(META, None, None, line)];
          }
      }
    }
    NoRows(oldNo, newNo, inHunk);
    assert lines[|lines|..] == [];
  }

  lemma NoRows(o: int, n: int, inHunk: bool)
    ensures RowsFrom([], o, n, inHunk) == []
  {
  }

  lemma RowsAfterLine(lines: seq<string>, i: nat, o: int, n: int, inHunk: bool)
    requires i < |lines|
    ensures var line := lines[i];
            RowsFrom(lines[i..], o, n, inHunk)
            == match ReadHeader(line)
               case Some(h) => [Row(HUNK, None, None, line)] + RowsFrom(lines[i + 1..], h.oldStart, h.newStart, true)
               case None =>
                 if inHunk && IsBodyLine(line) then
                   [BodyRow(line, o, n)]
                   + RowsFrom(lines[i + 1..], o + if line[0] != '+' then 1 else 0, n + if line[0] != '-' then 1 else 0, true)
                 else [Row(META, None, None, line)] + RowsFrom(lines[i + 1..], o, n, inHunk)
  {
    hide ReadHeader;
    assert lines[i..][0] == lines[i] && lines[i..][1..] == lines[i + 1..];
  }

  lemma AppendAssoc(a: seq<Row>, row: Row, b: seq<Row>)
    ensures a + ([row] + b) == a + [row] + b
  {
  }

  // ----- Numbering, for any text -----

  /** Within each hunk old numbers step by one over context and delete rows, and new numbers
      over context and add rows.  `lastOld` and `lastNew` are the last ones in this hunk. */
  predicate Consecutive(rows: seq<Row>, lastOld: Option<int>, lastNew: Option<int>)
  {
    rows == []
    || var row := rows[0];
       && (row.oldNo.Some? <==> row.kind == CONTEXT || row.kind == DELETE)
       && (row.newNo.Some? <==> row.kind == CONTEXT || row.kind == ADD)
       && if row.kind == HUNK then Consecutive(rows[1..], None, None)
          else
            && (row.oldNo.Some? && lastOld.Some? ==> row.oldNo.value == lastOld.value + 1)
            && (row.newNo.Some? && lastNew.Some? ==> row.newNo.value == lastNew.value + 1)
            && Consecutive(rows[1..], if row.oldNo.Some? then row.oldNo else lastOld,
                           if row.newNo.Some? then row.newNo else lastNew)
  }

  /** Every line becomes one row, in order, and numbering is consecutive within each hunk. */
  lemma {:induction false} RowsAreConsecutive(lines: seq<string>, oldNo: int, newNo: int, inHunk: bool,
                                              lastOld: Option<int>, lastNew: Option<int>)
    requires lastOld.Some? ==> oldNo == lastOld.value + 1
    requires lastNew.Some? ==> newNo == lastNew.value + 1
    ensures var rows := RowsFrom(lines, oldNo, newNo, inHunk);
            && Consecutive(rows, lastOld, lastNew)
            && |rows| == |lines| && forall i | 0 <= i < |rows| :: rows[i].text == lines[i]
  {
    hide ReadHeader;
    if lines != [] {
      var rows := RowsFrom(lines, oldNo, newNo, inHunk);
      var line := lines[0];
      if ReadHeader(line).Some? {
        var h := ReadHeader(line).value;
        RowsAreConsecutive(lines[1..], h.oldStart, h.newStart, true, None, None);
        assert rows[1..] == RowsFrom(lines[1..], h.oldStart, h.newStart, true);
      } else if inHunk && IsBodyLine(line) {
        var row := BodyRow(line, oldNo, newNo);
        var o, n := oldNo + if line[0] != '+' then 1 else 0, newNo + if line[0] != '-' then 1 else 0;
        RowsAreConsecutive(lines[1..], o, n, true, if row.oldNo.Some? then row.oldNo else lastOld,
                           if row.newNo.Some? then row.newNo else lastNew);
        assert rows[1..] == RowsFrom(lines[1..], o, n, true);
      } else {
        RowsAreConsecutive(lines[1..], oldNo, newNo, inHunk, lastOld, lastNew);
        assert rows[1..] == RowsFrom(lines[1..], oldNo, newNo, inHunk);
      }
    }
  }

  // ----- Unified diffs -----

  datatype BodyLine = Context(text: string) | Delete(text: string) | Add(text: string) | NoNewline(text: string)

  /** A pair of files, cut into stretches the diff leaves out and hunks it shows. */
  datatype Segment = Gap(lines: seq<string>) | Hunk(body: seq<BodyLine>, heading: string)

  function OldOf(body: seq<BodyLine>): seq<string>
  {
    if body == [] then []
    else (if body[0].Context? || body[0].Delete? then [body[0].text] else []) + OldOf(body[1..])
  }

  function NewOf(body: seq<BodyLine>): seq<string>
  {
    if body == [] then []
    else (if body[0].Context? || body[0].Add? then [body[0].text] else []) + NewOf(body[1..])
  }

  function OldFile(segs: seq<Segment>): seq<string>
  {
    if segs == [] then []
    else (match segs[0] case Gap(ls) => ls case Hunk(b, _) => OldOf(b)) + OldFile(segs[1..])
  }

  function NewFile(segs: seq<Segment>): seq<string>
  {
    if segs == [] then []
    else (match segs[0] case Gap(ls) => ls case Hunk(b, _) => NewOf(b)) + NewFile(segs[1..])
  }

  /** The number a range starts at after `before` lines; an empty one names the line before. */
  function RangeStart(before: nat, count: nat): nat { if count == 0 then before else before + 1 }

  function ShowBodyLine(b: BodyLine): string
  {
    match b
    case Context(t) => " " + t
    case Delete(t) => "-" + t
    case Add(t) => "+" + t
    case NoNewline(t) => "\\" + t
  }

  function ShowBody(body: seq<BodyLine>): seq<string>
  {
    if body == [] then [] else [ShowBodyLine(body[0])] + ShowBody(body[1..])
  }

  function HeaderAfter(oldBefore: nat, newBefore: nat, body: seq<BodyLine>): Header
  {
    Header(RangeStart(oldBefore, |OldOf(body)|), |OldOf(body)|, RangeStart(newBefore, |NewOf(body)|), |NewOf(body)|)
  }

  /** The unified diff of the two files, given the lines of each that came before. */
  function UnifiedDiff(segs: seq<Segment>, oldBefore: nat, newBefore: nat): seq<string>
  {
    if segs == [] then []
    else
      match segs[0]
      case Gap(ls) => UnifiedDiff(segs[1..], oldBefore + |ls|, newBefore + |ls|)
      case Hunk(body, heading) =>
        [ShowHeader(HeaderAfter(oldBefore, newBefore, body), heading)] + ShowBody(body)
        + UnifiedDiff(segs[1..], oldBefore + |OldOf(body)|, newBefore + |NewOf(body)|)
  }

  // ----- Replaying rows by their numbers -----

  /** Apply the rows to `base` by their line numbers alone, checking every line they claim to
      be in `base` and every number they give to a line of the result.  `pos` lines of `base`
      have been used and `out` is the result so far. */
  function Replay(base: seq<string>, rows: seq<Row>, pos: nat, out: seq<string>): Option<seq<string>>
    requires pos <= |base|
    decreases |rows|
  {
    if rows == [] then Some(out + base[pos..])
    else
      var row := rows[0];
      if row.kind == HUNK || row.kind == META then Replay(base, rows[1..], pos, out)
      else if row.text == "" then None
      else
        var text := row.text[1..];
        if row.kind == ADD then
          if row.newNo.None? || !(0 <= row.newNo.value - 1 - |out| <= |base| - pos) then None
          else
            var upTo := pos + row.newNo.value - 1 - |out|;
            Replay(base, rows[1..], upTo, out + base[pos..upTo] + [text])
        else if row.oldNo.None? || !(pos < row.oldNo.value <= |base|) || base[row.oldNo.value - 1] != text then None
        else
          var kept := out + base[pos..row.oldNo.value - 1] + if row.kind == CONTEXT then [text] else [];
          if row.kind == CONTEXT && row.newNo != Some(|kept|) then None
          else Replay(base, rows[1..], row.oldNo.value, kept)
  }

  /** The row of a body line that both counters have reached. */
  function BodyLineRow(b: BodyLine, o: int, n: int): Row
  {
    match b
    case Context(t) => Row(CONTEXT, Some(o), Some(n), " " + t)
    case Delete(t) => Row(DELETE, Some(o), None, "-" + t)
    case Add(t) => Row(ADD, None, Some(n), "+" + t)
    case NoNewline(t) => Row(META, None, None, "\\" + t)
  }

  lemma BodyLinesAreNotHeaders(b: BodyLine)
    ensures ReadHeader(ShowBodyLine(b)).None?
  {
    hide ReadRange, ReadNewRange;
    assert ShowBodyLine(b)[0] != "@@ -"[0];
    assert DropPrefix(ShowBodyLine(b), "@@ -").None?;
  }

  lemma RowsAfterBodyLine(b: BodyLine, tail: seq<string>, o: int, n: int)
    ensures RowsFrom([ShowBodyLine(b)] + tail, o, n, true)
            == [BodyLineRow(b, o, n)] + RowsFrom(tail, o + |OldOf([b])|, n + |NewOf([b])|, true)
  {
    var line := ShowBodyLine(b);
    BodyLinesAreNotHeaders(b);
    hide ReadHeader;
    assert ([line] + tail)[1..] == tail;
    assert [b][1..] == [];
  }

  lemma RowsAfterHeader(h: Header, heading: string, tail: seq<string>, o: int, n: int, inHunk: bool)
    ensures var line := ShowHeader(h, heading);
            RowsFrom([line] + tail, o, n, inHunk)
            == [Row(HUNK, None, None, line)] + RowsFrom(tail, h.oldStart, h.newStart, true)
  {
    ReadShownHeader(h, heading);
    hide ReadHeader;
    assert ([ShowHeader(h, heading)] + tail)[1..] == tail;
  }

  // ----- Pieces of lines -----

  /** Lines that number no row. */
  predicate AllMeta(lines: seq<string>)
  {
    forall l | l in lines :: ReadHeader(l).None? && !IsBodyLine(l)
  }

  predicate UntornLine(b: BodyLine) { b.NoNewline? || BreakFree(b.text) }

  /** No line of either file that a hunk shows is cut. */
  predicate UntornBody(body: seq<BodyLine>)
  {
    body == [] || (UntornLine(body[0]) && UntornBody(body[1..]))
  }

  predicate Untorn(segs: seq<Segment>)
  {
    segs == [] || ((segs[0].Hunk? ==> UntornBody(segs[0].body)) && Untorn(segs[1..]))
  }

  /** What a heading, which the diff only quotes, or a remark is cut into numbers no row. */
  predicate QuietBody(body: seq<BodyLine>)
  {
    body == [] || ((body[0].NoNewline? ==> AllMeta(Strays(body[0].text))) && QuietBody(body[1..]))
  }

  predicate Quiet(segs: seq<Segment>)
  {
    segs == []
    || ((segs[0].Hunk? ==> AllMeta(Strays(segs[0].heading)) && QuietBody(segs[0].body)) && Quiet(segs[1..]))
  }

  lemma {:induction false} ReplayMetaLines(lines: seq<string>, tail: seq<string>, base: seq<string>, o: int, n: int,
                                           inHunk: bool, pos: nat, out: seq<string>)
    requires AllMeta(lines) && pos <= |base|
    ensures Replay(base, RowsFrom(lines + tail, o, n, inHunk), pos, out)
            == Replay(base, RowsFrom(tail, o, n, inHunk), pos, out)
  {
    hide ReadHeader, IsBodyLine, Replay;
    if lines == [] {
      assert lines + tail == tail;
    } else {
      assert ReadHeader(lines[0]).None? && !IsBodyLine(lines[0]);
      assert (lines + tail)[1..] == lines[1..] + tail;
      ReplayMeta(Row(META, None, None, lines[0]), RowsFrom(lines[1..] + tail, o, n, inHunk), base, pos, out);
      ReplayMetaLines(lines[1..], tail, base, o, n, inHunk, pos, out);
    }
  }

  lemma {:induction false} ReplayKeepsPrefix(base: seq<string>, rows: seq<Row>, pos: nat, out: seq<string>)
    requires pos <= |base|
    ensures var r := Replay(base, rows, pos, out); r.Some? ==> out <= r.value
    decreases |rows|
  {
    if rows != [] {
      var row := rows[0];
      if row.kind == HUNK || row.kind == META {
        ReplayKeepsPrefix(base, rows[1..], pos, out);
      } else if row.text != "" {
        var text := row.text[1..];
        if row.kind == ADD {
          if row.newNo.Some? && 0 <= row.newNo.value - 1 - |out| <= |base| - pos {
            var upTo := pos + row.newNo.value - 1 - |out|;
            ReplayKeepsPrefix(base, rows[1..], upTo, out + base[pos..upTo] + [text]);
          }
        } else if row.oldNo.Some? && pos < row.oldNo.value <= |base| && base[row.oldNo.value - 1] == text {
          var kept := out + base[pos..row.oldNo.value - 1] + if row.kind == CONTEXT then [text] else [];
          ReplayKeepsPrefix(base, rows[1..], row.oldNo.value, kept);
        }
      }
    }
  }

  /** A row that holds only the first piece of its line: an old line does not match it, and a
      new one is not what it adds. */
  lemma ReplayTornRow(b: BodyLine, piece: string, rest: seq<Row>, base: seq<string>, oldPart: seq<string>,
                      newPart: seq<string>, more: seq<string>, later: seq<string>, pos: nat, out: seq<string>,
                      o: nat, n: nat)
    requires !b.NoNewline? && piece != b.text
    requires base == oldPart + OldOf([b]) + more && pos <= |oldPart|
    requires out + oldPart[pos..] == newPart
    requires OldOf([b]) == [] || o == |oldPart| + 1
    requires NewOf([b]) == [] || n == |newPart| + 1
    ensures Replay(base, [BodyLineRow(b.(text := piece), o, n)] + rest, pos, out) != Some(newPart + NewOf([b]) + later)
  {
    hide Replay, OldOf, NewOf;
    OfOne(b);
    if b.Add? {
      assert base[pos..|oldPart|] == oldPart[pos..];
      ReplayAdd(piece, rest, base, |oldPart|, n, pos, out);
      ReplayKeepsPrefix(base, rest, |oldPart|, newPart + [piece]);
      var r := Replay(base, rest, |oldPart|, newPart + [piece]);
      assert r.Some? ==> r.value[|newPart|] == piece;
      assert (newPart + NewOf([b]) + later)[|newPart|] == b.text;
    } else {
      assert base[o - 1] == b.text;
      ReplayMismatch(BodyLineRow(b.(text := piece), o, n), rest, base, pos, out);
    }
  }

  lemma ReplayMismatch(row: Row, rest: seq<Row>, base: seq<string>, pos: nat, out: seq<string>)
    requires pos <= |base| && (row.kind == CONTEXT || row.kind == DELETE) && row.text != ""
    requires row.oldNo.Some? && 0 < row.oldNo.value <= |base| && base[row.oldNo.value - 1] != row.text[1..]
    ensures Replay(base, [row] + rest, pos, out).None?
  {
    assert ([row] + rest)[0] == row;
  }

  /** Replayed on the old file, the rows of a unified diff give exactly the new file if no line
      shown is cut, and otherwise something else or nothing.  `oldPart` and `newPart` are the
      files up to here, of which the replay has reached `pos` and `out`. */
  lemma {:induction false} ReplaySegments(segs: seq<Segment>, base: seq<string>, oldPart: seq<string>,
                                          newPart: seq<string>,
                                          pos: nat, out: seq<string>, o: int, n: int, inHunk: bool)
    requires Quiet(segs)
    requires base == oldPart + OldFile(segs) && pos <= |oldPart|
    requires out + oldPart[pos..] == newPart
    ensures Replay(base, RowsFrom(PiecesOf(UnifiedDiff(segs, |oldPart|, |newPart|)), o, n, inHunk), pos, out)
            == Some(newPart + NewFile(segs))
            <==> Untorn(segs)
    decreases |segs|, 2, 0
  {
    hide RowsFrom, ShowHeader, ShowBody, Replay, OldOf, NewOf, UntornBody, QuietBody, AllMeta, Pieces;
    if segs == [] {
      assert base[pos..] == oldPart[pos..];
      NothingToReplay(base, o, n, inHunk, pos, out);
      assert newPart + NewFile(segs) == newPart;
    } else {
      var later := segs[1..];
      match segs[0]
      case Gap(ls) =>
        assert (oldPart + ls)[pos..] == oldPart[pos..] + ls;
        assert out + (oldPart + ls)[pos..] == newPart + ls;
        assert base == (oldPart + ls) + OldFile(later);
        ReplaySegments(later, base, oldPart + ls, newPart + ls, pos, out, o, n, inHunk);
        assert newPart + NewFile(segs) == (newPart + ls) + NewFile(later);
      case Hunk(body, heading) =>
        ReplayHunk(body, heading, later, base, oldPart, newPart, pos, out, o, n, inHunk);
        assert base == oldPart + OldOf(body) + OldFile(later);
        assert newPart + NewFile(segs) == newPart + NewOf(body) + NewFile(later);
    }
  }

  lemma NothingToReplay(base: seq<string>, o: int, n: int, inHunk: bool, pos: nat, out: seq<string>)
    requires pos <= |base|
    ensures Replay(base, RowsFrom([], o, n, inHunk), pos, out) == Some(out + base[pos..])
  {
  }

  lemma StartsAfter(oldBefore: nat, newBefore: nat, body: seq<BodyLine>)
    ensures var h := HeaderAfter(oldBefore, newBefore, body);
            (OldOf(body) == [] || h.oldStart == oldBefore + 1) && (NewOf(body) == [] || h.newStart == newBefore + 1)
  {
    hide OldOf, NewOf;
  }

  lemma {:induction false} ReplayHunk(body: seq<BodyLine>, heading: string, segs: seq<Segment>, base: seq<string>,
                                      oldPart: seq<string>, newPart: seq<string>, pos: nat, out: seq<string>,
                                      o: int, n: int, inHunk: bool)
    requires AllMeta(Strays(heading)) && QuietBody(body) && Quiet(segs)
    requires base == oldPart + OldOf(body) + OldFile(segs) && pos <= |oldPart|
    requires out + oldPart[pos..] == newPart
    ensures var header := ShowHeader(HeaderAfter(|oldPart|, |newPart|, body), heading);
            var tail := UnifiedDiff(segs, |oldPart| + |OldOf(body)|, |newPart| + |NewOf(body)|);
            Replay(base, RowsFrom(PiecesOf([header] + ShowBody(body) + tail), o, n, inHunk), pos, out)
            == Some(newPart + NewOf(body) + NewFile(segs))
            <==> UntornBody(body) && Untorn(segs)
    decreases |segs| + 1, 1, 0
  {
    hide *;
    var h := HeaderAfter(|oldPart|, |newPart|, body);
    StartsAfter(|oldPart|, |newPart|, body);
    var header, shown := ShowHeader(h, heading), ShowHeader(h, Pieces(heading)[0]);
    var tail := UnifiedDiff(segs, |oldPart| + |OldOf(body)|, |newPart| + |NewOf(body)|);
    var lines := PiecesOf(ShowBody(body) + tail);
    assert [header] + ShowBody(body) + tail == [header] + (ShowBody(body) + tail);
    PiecesOfFirst(header, ShowBody(body) + tail);
    HeaderPieces(h, heading);
    assert ([shown] + Strays(heading)) + lines == [shown] + (Strays(heading) + lines);
    RowsAfterHeader(h, Pieces(heading)[0], Strays(heading) + lines, o, n, inHunk);
    var rows := RowsFrom(Strays(heading) + lines, h.oldStart, h.newStart, true);
    ReplayMeta(Row(HUNK, None, None, shown), rows, base, pos, out);
    ReplayMetaLines(Strays(heading), lines, base, h.oldStart, h.newStart, true, pos, out);
    ReplayBody(body, segs, base, oldPart, newPart, pos, out, h.oldStart, h.newStart);
  }

  /** One body row replayed where the old file stands at `oldPart` and the new at `newPart`. */
  lemma ReplayBodyRow(b: BodyLine, rest: seq<Row>, base: seq<string>, oldPart: seq<string>, newPart: seq<string>,
                      more: seq<string>, pos: nat, out: seq<string>, o: nat, n: nat)
    returns (newPos: nat, newOut: seq<string>)
    requires base == oldPart + OldOf([b]) + more && pos <= |oldPart|
    requires out + oldPart[pos..] == newPart
    requires OldOf([b]) == [] || o == |oldPart| + 1
    requires NewOf([b]) == [] || n == |newPart| + 1
    ensures newPos <= |oldPart + OldOf([b])|
    ensures newOut + (oldPart + OldOf([b]))[newPos..] == newPart + NewOf([b])
    ensures Replay(base, [BodyLineRow(b, o, n)] + rest, pos, out) == Replay(base, rest, newPos, newOut)
  {
    hide Replay, OldOf, NewOf;
    OfOne(b);
    assert base[pos..|oldPart|] == oldPart[pos..];
    var upTo := out + base[pos..|oldPart|];
    assert oldPart + [] == oldPart && newPart + [] == newPart;
    match b
    case NoNewline(_) =>
      newPos, newOut := pos, out;
      ReplayMeta(BodyLineRow(b, o, n), rest, base, pos, out);
    case Add(t) =>
      newPos, newOut := |oldPart|, upTo + [t];
      ReplayAdd(t, rest, base, |oldPart|, n, pos, out);
    case Delete(t) =>
      newPos, newOut := o, upTo;
      ReplayDelete(t, rest, base, o, pos, out);
    case Context(t) =>
      newPos, newOut := o, upTo + [t];
      ReplayContext(t, rest, base, o, n, pos, out);
  }

  lemma ReplayMeta(row: Row, rest: seq<Row>, base: seq<string>, pos: nat, out: seq<string>)
    requires pos <= |base| && (row.kind == META || row.kind == HUNK)
    ensures Replay(base, [row] + rest, pos, out) == Replay(base, rest, pos, out)
  {
    assert ([row] + rest)[1..] == rest;
  }

  lemma ReplayAdd(t: string, rest: seq<Row>, base: seq<string>, upTo: nat, n: nat, pos: nat, out: seq<string>)
    requires pos <= upTo <= |base| && n == |out + base[pos..upTo]| + 1
    ensures Replay(base, [BodyLineRow(Add(t), 0, n)] + rest, pos, out)
            == Replay(base, rest, upTo, out + base[pos..upTo] + [t])
  {
    var row := BodyLineRow(Add(t), 0, n);
    assert ([row] + rest)[1..] == rest && row.text[1..] == t;
  }

  lemma ReplayDelete(t: string, rest: seq<Row>, base: seq<string>, o: nat, pos: nat, out: seq<string>)
    requires pos < o <= |base| && base[o - 1] == t
    ensures Replay(base, [BodyLineRow(Delete(t), o, 0)] + rest, pos, out)
            == Replay(base, rest, o, out + base[pos..o - 1])
  {
    var row := BodyLineRow(Delete(t), o, 0);
    assert ([row] + rest)[1..] == rest && row.text[1..] == t;
    assert out + base[pos..o - 1] + [] == out + base[pos..o - 1];
  }

  lemma ReplayContext(t: string, rest: seq<Row>, base: seq<string>, o: nat, n: nat, pos: nat, out: seq<string>)
    requires pos < o <= |base| && base[o - 1] == t && n == |out + base[pos..o - 1]| + 1
    ensures Replay(base, [BodyLineRow(Context(t), o, n)] + rest, pos, out)
            == Replay(base, rest, o, out + base[pos..o - 1] + [t])
  {
    var row := BodyLineRow(Context(t), o, n);
    assert ([row] + rest)[1..] == rest && row.text[1..] == t;
  }

  lemma BodyLinePieces(b: BodyLine)
    ensures Pieces(ShowBodyLine(b)) == [ShowBodyLine(b.(text := Pieces(b.text)[0]))] + Strays(b.text)
    ensures b.NoNewline? ==> AllMeta([ShowBodyLine(b.(text := Pieces(b.text)[0]))])
    ensures BreakFree(b.text) ==> Pieces(b.text)[0] == b.text && Strays(b.text) == []
    ensures !BreakFree(b.text) ==> Pieces(b.text)[0] != b.text
  {
    var mark := match b case Context(_) => " " case Delete(_) => "-" case Add(_) => "+" case NoNewline(_) => "\\";
    assert BreakFree(mark) && BreakFree(Pieces(b.text)[0]);
    BodyLinesAreNotHeaders(b.(text := Pieces(b.text)[0]));
    hide Pieces, Strays, ReadHeader, BreakFree;
    PiecesAfter(mark, b.text);
    if BreakFree(b.text) { WholePiece(b.text); }
  }

  lemma LineIsCut(b: BodyLine)
    ensures UntornLine(b) <==> b.NoNewline? || BreakFree(b.text)
  {
  }

  /** A line that is not cut, replayed. */
  lemma ReplayLine(b: BodyLine, lines: seq<string>, base: seq<string>, oldPart: seq<string>, newPart: seq<string>,
                   more: seq<string>, pos: nat, out: seq<string>, o: nat, n: nat)
    returns (newPos: nat, newOut: seq<string>)
    requires UntornLine(b) && (b.NoNewline? ==> AllMeta(Strays(b.text)))
    requires base == oldPart + OldOf([b]) + more && pos <= |oldPart|
    requires out + oldPart[pos..] == newPart
    requires OldOf([b]) == [] || o == |oldPart| + 1
    requires NewOf([b]) == [] || n == |newPart| + 1
    ensures newPos <= |oldPart + OldOf([b])|
    ensures newOut + (oldPart + OldOf([b]))[newPos..] == newPart + NewOf([b])
    ensures Replay(base, RowsFrom(Pieces(ShowBodyLine(b)) + lines, o, n, true), pos, out)
            == Replay(base, RowsFrom(lines, o + |OldOf([b])|, n + |NewOf([b])|, true), newPos, newOut)
  {
    hide *;
    BodyLinePieces(b);
    LineIsCut(b);
    if BreakFree(b.text) {
      assert b.(text := b.text) == b && [ShowBodyLine(b)] + [] == [ShowBodyLine(b)];
      RowsAfterBodyLine(b, lines, o, n);
      newPos, newOut := ReplayBodyRow(b, RowsFrom(lines, o + |OldOf([b])|, n + |NewOf([b])|, true), base,
                                      oldPart, newPart, more, pos, out, o, n);
    } else {
      OfOne(b);
      newPos, newOut := pos, out;
      assert oldPart + [] == oldPart && newPart + [] == newPart;
      var first := [ShowBodyLine(b.(text := Pieces(b.text)[0]))];
      assert (first + Strays(b.text)) + lines == first + (Strays(b.text) + lines);
      ReplayMetaLines(first, Strays(b.text) + lines, base, o, n, true, pos, out);
      ReplayMetaLines(Strays(b.text), lines, base, o, n, true, pos, out);
    }
  }

  /** And one that is. */
  lemma ReplayCutLine(b: BodyLine, lines: seq<string>, base: seq<string>, oldPart: seq<string>, newPart: seq<string>,
                      more: seq<string>, later: seq<string>, pos: nat, out: seq<string>, o: nat, n: nat)
    requires !UntornLine(b)
    requires base == oldPart + OldOf([b]) + more && pos <= |oldPart|
    requires out + oldPart[pos..] == newPart
    requires OldOf([b]) == [] || o == |oldPart| + 1
    requires NewOf([b]) == [] || n == |newPart| + 1
    ensures Replay(base, RowsFrom(Pieces(ShowBodyLine(b)) + lines, o, n, true), pos, out)
            != Some(newPart + NewOf([b]) + later)
  {
    hide *;
    LineIsCut(b);
    BodyLinePieces(b);
    var first := b.(text := Pieces(b.text)[0]);
    var rest := Strays(b.text) + lines;
    assert [ShowBodyLine(first)] + Strays(b.text) + lines == [ShowBodyLine(first)] + rest;
    RowsAfterBodyLine(first, rest, o, n);
    ReplayTornRow(b, first.text, RowsFrom(rest, o + |OldOf([first])|, n + |NewOf([first])|, true), base, oldPart,
                  newPart, more, later, pos, out, o, n);
  }

  lemma {:induction false} ReplayBody(body: seq<BodyLine>, segs: seq<Segment>, base: seq<string>, oldPart: seq<string>,
                                      newPart: seq<string>, pos: nat, out: seq<string>, o: nat, n: nat)
    requires QuietBody(body) && Quiet(segs)
    requires base == oldPart + OldOf(body) + OldFile(segs) && pos <= |oldPart|
    requires out + oldPart[pos..] == newPart
    requires OldOf(body) == [] || o == |oldPart| + 1
    requires NewOf(body) == [] || n == |newPart| + 1
    ensures var tail := UnifiedDiff(segs, |oldPart| + |OldOf(body)|, |newPart| + |NewOf(body)|);
            Replay(base, RowsFrom(PiecesOf(ShowBody(body) + tail), o, n, true), pos, out)
            == Some(newPart + NewOf(body) + NewFile(segs))
            <==> UntornBody(body) && Untorn(segs)
    decreases |segs| + 1, 0, |body|
  {
    hide *;
    var tail := UnifiedDiff(segs, |oldPart| + |OldOf(body)|, |newPart| + |NewOf(body)|);
    if body == [] {
      EmptyBody();
      assert ShowBody(body) + tail == tail && newPart + NewOf(body) == newPart;
      assert base == oldPart + OldFile(segs);
      ReplaySegments(segs, base, oldPart, newPart, pos, out, o, n, true);
    } else {
      var b, later := body[0], body[1..];
      var more := OldOf(later) + OldFile(segs);
      FirstOf(body);
      assert base == oldPart + OldOf([b]) + more;
      assert ShowBody(body) + tail == [ShowBodyLine(b)] + (ShowBody(later) + tail);
      var lines := PiecesOf(ShowBody(later) + tail);
      PiecesOfFirst(ShowBodyLine(b), ShowBody(later) + tail);
      var target := newPart + NewOf(body) + NewFile(segs);
      assert target == newPart + NewOf([b]) + (NewOf(later) + NewFile(segs));
      if UntornLine(b) {
        var newPos, newOut := ReplayLine(b, lines, base, oldPart, newPart, more, pos, out, o, n);
        var midOld, midNew := oldPart + OldOf([b]), newPart + NewOf([b]);
        assert base == midOld + OldOf(later) + OldFile(segs);
        ReplayBody(later, segs, base, midOld, midNew, newPos, newOut, o + |OldOf([b])|, n + |NewOf([b])|);
        assert target == midNew + NewOf(later) + NewFile(segs);
      } else {
        ReplayCutLine(b, lines, base, oldPart, newPart, more, NewOf(later) + NewFile(segs), pos, out, o, n);
      }
    }
  }

  lemma EmptyBody()
    ensures OldOf([]) == NewOf([]) == ShowBody([]) == []
    ensures UntornBody([])
  {
  }

  lemma FirstOf(body: seq<BodyLine>)
    requires body != []
    ensures OldOf(body) == OldOf([body[0]]) + OldOf(body[1..])
    ensures NewOf(body) == NewOf([body[0]]) + NewOf(body[1..])
    ensures ShowBody(body) == [ShowBodyLine(body[0])] + ShowBody(body[1..])
    ensures UntornBody(body) <==> UntornLine(body[0]) && UntornBody(body[1..])
    ensures QuietBody(body) ==> QuietBody(body[1..]) && (body[0].NoNewline? ==> AllMeta(Strays(body[0].text)))
  {
    hide ShowBodyLine, AllMeta, UntornLine;
    OfOne(body[0]);
  }

  lemma OfOne(b: BodyLine)
    ensures OldOf([b]) == if b.Context? || b.Delete? then [b.text] else []
    ensures NewOf([b]) == if b.Context? || b.Add? then [b.text] else []
  {
    assert [b][1..] == [];
  }

  /** The lines git puts before the first hunk: nothing in them reads as a hunk header. */
  lemma {:induction false} PreambleIsMeta(preamble: seq<string>, lines: seq<string>, base: seq<string>)
    requires forall k | 0 <= k < |preamble| :: ReadHeader(preamble[k]).None?
    ensures Replay(base, RowsFrom(preamble + lines, 0, 0, false), 0, [])
            == Replay(base, RowsFrom(lines, 0, 0, false), 0, [])
  {
    if preamble == [] {
      assert preamble + lines == lines;
    } else {
      assert (preamble + lines)[1..] == preamble[1..] + lines;
      var rows := RowsFrom(preamble + lines, 0, 0, false);
      assert rows[1..] == RowsFrom(preamble[1..] + lines, 0, 0, false);
      PreambleIsMeta(preamble[1..], lines, base);
    }
  }

  /** Replaying the rows of one file's block on the old file gives exactly the new file if and
      only if no line of either file that the diff shows contains a line boundary. */
  lemma RowsReplayTheDiff(preamble: seq<string>, segs: seq<Segment>)
    requires var pieces := PiecesOf(preamble); forall k | 0 <= k < |pieces| :: ReadHeader(pieces[k]).None?
    requires Quiet(segs)
    ensures var block := Unlines(preamble + UnifiedDiff(segs, 0, 0));
            Replay(OldFile(segs), RowsFrom(SplitLines(block), 0, 0, false), 0, []) == Some(NewFile(segs))
            <==> Untorn(segs)
  {
    hide *;
    var base, diff := OldFile(segs), UnifiedDiff(segs, 0, 0);
    SplitIsPieces(preamble + diff);
    PiecesOfConcat(preamble, diff);
    PreambleIsMeta(PiecesOf(preamble), PiecesOf(diff), base);
    assert base == [] + base && [] + NewFile(segs) == NewFile(segs);
    ReplaySegments(segs, base, [], [], 0, [], 0, 0, false);
  }

  /** A line of the file with a boundary inside it, a form feed say, is torn: the block no
      longer has one row for each line git wrote. */
  lemma TornLines(lines: seq<string>)
    requires exists l :: l in lines && !BreakFree(l)
    ensures var rows := RowsFrom(SplitLines(Unlines(lines)), 0, 0, false);
            |rows| != |lines| || exists i :: 0 <= i < |rows| && rows[i].text != lines[i]
  {
    var split := SplitLines(Unlines(lines));
    SplitUnlinesIff(lines);
    RowsAreConsecutive(split, 0, 0, false, None, None);
    if |split| == |lines| {
      var i :| 0 <= i < |lines| && split[i] != lines[i];
    }
  }
}
