/**
 The hunk header of a unified diff (IEEE Std 1003.1-2017, diff, "Diff -u or -U Output
 Format"): "@@ -start,count +start,count @@", a count of one being left out.
 */
module HunkHeader {
  import opened Decimal
  import opened Lines
  import opened Text
  import opened Wrappers

  datatype Header = Header(oldStart: nat, oldCount: nat, newStart: nat, newCount: nat)

  function ShowRange(start: nat, count: nat): string
  {
    Show(start) + if count == 1 then "" else "," + Show(count)
  }

  function ShowHeader(h: Header, heading: string): string
  {
    "@@ -" + ShowRange(h.oldStart, h.oldCount) + " +" + ShowRange(h.newStart, h.newCount) + " @@" + heading
  }

  /** A start and an optional count, and what follows them. */
  function ReadRange(s: string): Option<(nat, nat, string)>
  {
    var start := TakeDigits(s);
    var rest := s[|start|..];
    if start == "" then None
    else if rest != "" && rest[0] == ',' then
      var count := TakeDigits(rest[1..]);
      if count == "" then None else Some((Read(start), Read(count), rest[1 + |count|..]))
    else Some((Read(start), 1, rest))
  }

  function DropPrefix(s: string, prefix: string): Option<string>
  {
    if StartsWith(s, prefix) then Some(s[|prefix|..]) else None
  }

  function ReadNewRange(s: string, oldStart: nat, oldCount: nat): Option<Header>
  {
    match DropPrefix(s, " +")
    case None => None
    case Some(t) =>
      match ReadRange(t)
      case None => None
      case Some((newStart, newCount, rest)) =>
        if StartsWith(rest, " @@") then Some(Header(oldStart, oldCount, newStart, newCount)) else None
  }

  /** The match of ^@@ -(\d+)(?:,(\d+))? \+(\d+)(?:,(\d+))? @@ */
  function ReadHeader(line: string): Option<Header>
  {
    match DropPrefix(line, "@@ -")
    case None => None
    case Some(t) =>
      match ReadRange(t)
      case None => None
      case Some((oldStart, oldCount, rest)) => ReadNewRange(rest, oldStart, oldCount)
  }

  lemma ReadShownRange(start: nat, count: nat, rest: string)
    requires rest != "" && rest[0] == ' '
    ensures ReadRange(ShowRange(start, count) + rest) == Some((start, count, rest))
  {
    ReadShow(start);
    ReadShow(count);
    var s := ShowRange(start, count) + rest;
    if count == 1 {
      assert s == Show(start) + rest;
      TakeDigitsIs(Show(start), rest);
      assert s[|Show(start)|..] == rest;
    } else {
      var tail := "," + (Show(count) + rest);
      assert s == Show(start) + tail;
      TakeDigitsIs(Show(start), tail);
      assert s[|Show(start)|..] == tail && tail[1..] == Show(count) + rest;
      TakeDigitsIs(Show(count), rest);
      assert tail[1 + |Show(count)|..] == rest;
    }
  }

  lemma DropShown(prefix: string, rest: string)
    ensures DropPrefix(prefix + rest, prefix) == Some(rest)
  {
  }

  lemma ReadShownNewRange(h: Header, heading: string)
    ensures ReadNewRange(" +" + (ShowRange(h.newStart, h.newCount) + (" @@" + heading)), h.oldStart, h.oldCount)
            == Some(h)
  {
    var rest := " @@" + heading;
    DropShown(" +", ShowRange(h.newStart, h.newCount) + rest);
    ReadShownRange(h.newStart, h.newCount, rest);
    DropShown(" @@", heading);
  }

  lemma ReadShownHeader(h: Header, heading: string)
    ensures ReadHeader(ShowHeader(h, heading)) == Some(h)
    ensures StartsWith(ShowHeader(h, heading), "@@ ")
  {
    hide ReadRange, ReadNewRange, DropPrefix;
    var rest := " +" + (ShowRange(h.newStart, h.newCount) + (" @@" + heading));
    var t := ShowRange(h.oldStart, h.oldCount) + rest;
    ShownHeaderParts(h, heading);
    DropShown("@@ -", t);
    ReadShownRange(h.oldStart, h.oldCount, rest);
    ReadShownNewRange(h, heading);
  }

  lemma ShownHeaderParts(h: Header, heading: string)
    ensures ShowHeader(h, heading)
            == "@@ -" + (ShowRange(h.oldStart, h.oldCount)
                         + (" +" + (ShowRange(h.newStart, h.newCount) + (" @@" + heading))))
  {
    hide ShowRange;
    var o, n := ShowRange(h.oldStart, h.oldCount), ShowRange(h.newStart, h.newCount);
    assert "@@ -" + o + " +" + n + " @@" + heading == "@@ -" + (o + (" +" + (n + (" @@" + heading))));
  }

  lemma DigitsAreBreakFree(s: string)
    requires AllDigits(s)
    ensures BreakFree(s)
  {
  }

  lemma RangeIsBreakFree(start: nat, count: nat)
    ensures BreakFree(ShowRange(start, count))
  {
    ReadShow(start);
    ReadShow(count);
    DigitsAreBreakFree(Show(start));
    DigitsAreBreakFree(Show(count));
    BreakFreeConcat(",", Show(count));
    BreakFreeConcat(Show(start), "," + Show(count));
    assert Show(start) + "" == Show(start);
  }

  /** A heading may be cut, the header never is. */
  lemma HeaderPieces(h: Header, heading: string)
    ensures Pieces(ShowHeader(h, heading)) == [ShowHeader(h, Pieces(heading)[0])] + Strays(heading)
  {
    var prefix := "@@ -" + ShowRange(h.oldStart, h.oldCount) + " +" + ShowRange(h.newStart, h.newCount) + " @@";
    RangeIsBreakFree(h.oldStart, h.oldCount);
    RangeIsBreakFree(h.newStart, h.newCount);
    assert BreakFree("@@ -") && BreakFree(" +") && BreakFree(" @@");
    hide BreakFree, Pieces, ShowRange, Strays;
    BreakFreeConcat("@@ -", ShowRange(h.oldStart, h.oldCount));
    BreakFreeConcat("@@ -" + ShowRange(h.oldStart, h.oldCount), " +");
    BreakFreeConcat("@@ -" + ShowRange(h.oldStart, h.oldCount) + " +", ShowRange(h.newStart, h.newCount));
    BreakFreeConcat("@@ -" + ShowRange(h.oldStart, h.oldCount) + " +" + ShowRange(h.newStart, h.newCount), " @@");
    PiecesAfter(prefix, heading);
  }
}
