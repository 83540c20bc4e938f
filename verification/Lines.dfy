/** str.splitlines: the line boundaries it knows go far beyond the newline. */
module Lines {

  predicate IsBreak(c: char)
  {
    || '\n' <= c <= '\r'
    || '\U{1c}' <= c <= '\U{1e}'
    || c == '\U{85}' || c == '\U{2028}' || c == '\U{2029}'
  }

  predicate BreakFree(s: string)
  {
    forall k | 0 <= k < |s| :: !IsBreak(s[k])
  }

  lemma BreakFreeConcat(a: string, b: string)
    requires BreakFree(a) && BreakFree(b)
    ensures BreakFree(a + b)
  {
  }

  /** The longest prefix without a boundary. */
  function FirstLine(s: string): (l: string)
    ensures BreakFree(l) && l <= s && (|l| < |s| ==> IsBreak(s[|l|]))
  {
    if s == "" || IsBreak(s[0]) then "" else [s[0]] + FirstLine(s[1..])
  }

  /** A carriage return followed by a newline is one boundary. */
  function AfterBreak(s: string): string
    requires s != ""
  {
    if |s| > 1 && s[0] == '\r' && s[1] == '\n' then s[2..] else s[1..]
  }

  function SplitLines(s: string): (ls: seq<string>)
    ensures forall l | l in ls :: BreakFree(l)
    decreases |s|
  {
    if s == "" then []
    else
      var l := FirstLine(s);
      if |l| == |s| then [l] else [l] + SplitLines(AfterBreak(s[|l|..]))
  }

  function Unlines(ls: seq<string>): string
  {
    if ls == [] then "" else ls[0] + "\n" + Unlines(ls[1..])
  }

  lemma {:induction false} FirstLineIs(l: string, rest: string)
    requires BreakFree(l)
    ensures FirstLine(l + "\n" + rest) == l
  {
    if l != "" {
      FirstLineIs(l[1..], rest);
      assert (l + "\n" + rest)[1..] == l[1..] + "\n" + rest;
    }
  }

  lemma {:induction false} SplitUnlines(ls: seq<string>)
    requires forall l | l in ls :: BreakFree(l)
    ensures SplitLines(Unlines(ls)) == ls
  {
    if ls != [] {
      var rest := Unlines(ls[1..]);
      FirstLineIs(ls[0], rest);
      assert Unlines(ls) == ls[0] + "\n" + rest;
      assert Unlines(ls)[|ls[0]|..] == "\n" + rest;
      assert AfterBreak("\n" + rest) == rest;
      SplitUnlines(ls[1..]);
    }
  }

  /** Lines written one per newline are read back as they were exactly when none of them
      contains any other boundary, such as a form feed. */
  lemma SplitUnlinesIff(ls: seq<string>)
    ensures SplitLines(Unlines(ls)) == ls <==> forall l | l in ls :: BreakFree(l)
  {
    if forall l | l in ls :: BreakFree(l) { SplitUnlines(ls); }
  }

  /** "\n".join(ls). */
  function Join(ls: seq<string>): string
  {
    if ls == [] then "" else if |ls| == 1 then ls[0] else ls[0] + "\n" + Join(ls[1..])
  }

  lemma {:induction false} SplitJoined(ls: seq<string>)
    requires forall l | l in ls :: BreakFree(l) && l != ""
    ensures SplitLines(Join(ls)) == ls
  {
    if |ls| == 1 {
      WholeLine(ls[0]);
    } else if |ls| > 1 {
      var rest := Join(ls[1..]);
      FirstLineIs(ls[0], rest);
      assert Join(ls)[|ls[0]|..] == "\n" + rest;
      assert AfterBreak("\n" + rest) == rest;
      SplitJoined(ls[1..]);
    }
  }

  lemma {:induction false} WholeLine(l: string)
    requires BreakFree(l)
    ensures FirstLine(l) == l
  {
    if l != "" { WholeLine(l[1..]); }
  }

  /** Whole lines are split on their own. */
  lemma {:induction false} SplitConcat(a: string, rest: string)
    requires a != "" && a[|a| - 1] == '\n'
    ensures SplitLines(a + rest) == SplitLines(a) + SplitLines(rest)
    decreases |a|
  {
    hide *;
    FirstLineOfMore(a, rest);
    var l := FirstLine(a);
    var tail := a[|l|..];
    var after := AfterBreak(tail);
    assert (a + rest)[|l|..] == tail + rest;
    AfterBreakOfMore(tail, rest);
    SplitFirst(a);
    SplitFirst(a + rest);
    if after == "" {
      SplitNothing();
      assert after + rest == rest && SplitLines(a) == [l];
    } else {
      SplitConcat(after, rest);
      assert [l] + (SplitLines(after) + SplitLines(rest)) == ([l] + SplitLines(after)) + SplitLines(rest);
    }
  }

  lemma SplitNothing()
    ensures SplitLines("") == []
  {
  }

  lemma SplitFirst(s: string)
    requires |FirstLine(s)| < |s|
    ensures SplitLines(s) == [FirstLine(s)] + SplitLines(AfterBreak(s[|FirstLine(s)|..]))
  {
  }

  lemma AfterBreakOfMore(a: string, rest: string)
    requires a != "" && a[|a| - 1] == '\n'
    ensures |AfterBreak(a)| < |a|
    ensures AfterBreak(a + rest) == AfterBreak(a) + rest
    ensures AfterBreak(a) == "" || AfterBreak(a)[|AfterBreak(a)| - 1] == '\n'
  {
  }

  lemma {:induction false} FirstLineOfMore(a: string, rest: string)
    requires a != "" && a[|a| - 1] == '\n'
    ensures |FirstLine(a)| < |a| && FirstLine(a + rest) == FirstLine(a)
  {
    if !IsBreak(a[0]) {
      FirstLineOfMore(a[1..], rest);
      assert (a + rest)[1..] == a[1..] + rest;
    }
  }

  /** What becomes of one written line: more than one line if it contains another boundary. */
  function Pieces(line: string): (ps: seq<string>)
    ensures ps != []
  {
    SplitLines(line + "\n")
  }

  function PiecesOf(lines: seq<string>): seq<string>
  {
    if lines == [] then [] else Pieces(lines[0]) + PiecesOf(lines[1..])
  }

  lemma PiecesOfFirst(line: string, lines: seq<string>)
    ensures PiecesOf([line] + lines) == Pieces(line) + PiecesOf(lines)
  {
    hide Pieces;
    assert ([line] + lines)[1..] == lines;
  }

  lemma {:induction false} SplitIsPieces(lines: seq<string>)
    ensures SplitLines(Unlines(lines)) == PiecesOf(lines)
  {
    if lines != [] {
      SplitConcat(lines[0] + "\n", Unlines(lines[1..]));
      SplitIsPieces(lines[1..]);
    }
  }

  lemma {:induction false} PiecesOfConcat(a: seq<string>, b: seq<string>)
    ensures PiecesOf(a + b) == PiecesOf(a) + PiecesOf(b)
  {
    hide Pieces;
    if a == [] {
      assert a + b == b;
    } else {
      assert (a + b)[1..] == a[1..] + b;
      PiecesOfConcat(a[1..], b);
    }
  }

  /** The pieces of a line after its first. */
  function Strays(line: string): seq<string> { Pieces(line)[1..] }

  lemma {:induction false} PiecesAfter(prefix: string, line: string)
    requires BreakFree(prefix)
    ensures Pieces(prefix + line) == [prefix + Pieces(line)[0]] + Strays(line)
  {
    hide Pieces, IsBreak;
    if prefix == "" {
      assert prefix + line == line && prefix + Pieces(line)[0] == Pieces(line)[0];
    } else {
      assert BreakFree(prefix[1..]);
      PiecesAfter(prefix[1..], line);
      OneMore(prefix[0], prefix[1..] + line);
      assert prefix + line == [prefix[0]] + (prefix[1..] + line);
      assert [prefix[0]] + (prefix[1..] + Pieces(line)[0]) == prefix + Pieces(line)[0];
    }
  }

  lemma OneMore(c: char, line: string)
    requires !IsBreak(c)
    ensures Pieces([c] + line) == [[c] + Pieces(line)[0]] + Strays(line)
  {
    var s, t := line + "\n", [c] + line + "\n";
    assert t[1..] == s;
    FirstLineOfMore(s, "");
    assert s + "" == s;
    assert FirstLine(t) == [c] + FirstLine(s);
    assert t[|FirstLine(t)|..] == s[|FirstLine(s)|..];
  }

  lemma WholePiece(line: string)
    requires BreakFree(line)
    ensures Pieces(line) == [line] && Strays(line) == []
  {
    FirstLineIs(line, "");
    assert line + "\n" + "" == line + "\n";
    assert (line + "\n")[|line|..] == "\n" && AfterBreak("\n") == "";
  }

  // ----- What splitting is -----

  predicate Boundary(c: char)
  {
    c in {'\n', '\U{b}', '\U{c}', '\r', '\U{1c}', '\U{1d}', '\U{1e}', '\U{85}', '\U{2028}', '\U{2029}'}
  }

  predicate Separator(s: string) { s == "\r\n" || (|s| == 1 && Boundary(s[0])) }

  /** The text is the lines, each with a separator after it, which only the last may lack if it is not
      empty; no separator is part of a longer one. */
  predicate Cut(s: string, ls: seq<string>, separators: seq<string>)
    decreases |ls|
  {
    if ls == [] then s == "" && separators == []
    else
      && separators != []
      && var (l, sep) := (ls[0], separators[0]);
         && l + sep <= s && (forall k | 0 <= k < |l| :: !Boundary(l[k]))
         && var rest := s[|l| + |sep|..];
            && (if sep == "" then rest == "" && l != "" else Separator(sep))
            && !(sep == "\r" && rest != "" && rest[0] == '\n')
            && Cut(rest, ls[1..], separators[1..])
  }

  lemma BreakIff(s: string)
    ensures BreakFree(s) <==> forall k | 0 <= k < |s| :: !Boundary(s[k])
  {
    assert forall c: char :: IsBreak(c) <==> Boundary(c);
  }

  lemma {:induction false} SplitIsCut(s: string) returns (separators: seq<string>)
    ensures Cut(s, SplitLines(s), separators)
    decreases |s|
  {
    if s == "" {
      separators := [];
    } else {
      var l := FirstLine(s);
      BreakIff(l);
      if |l| == |s| {
        assert SplitLines(s) == [l] && l + "" == s && [l][1..] == [] && [""][1..] == [];
        separators := [""];
      } else {
        var rest := AfterBreak(s[|l|..]);
        var sep := s[|l|..|s| - |rest|];
        var more := SplitIsCut(rest);
        separators := [sep] + more;
        BreakIff([s[|l|]]);
        FirstCut(s, l, sep, rest, SplitLines(rest), more);
      }
    }
  }

  lemma FirstCut(s: string, l: string, sep: string, rest: string, ls: seq<string>, more: seq<string>)
    requires |l| < |s| && l <= s && BreakFree(l) && IsBreak(s[|l|]) && rest == AfterBreak(s[|l|..])
    requires sep == s[|l|..|s| - |rest|] && Cut(rest, ls, more)
    ensures Cut(s, [l] + ls, [sep] + more)
  {
    BreakIff(l);
    assert IsBreak(s[|l|]) <==> Boundary(s[|l|]);
    var tail := s[|l|..];
    BreakIs(tail, sep, rest);
    hide IsBreak, Boundary, BreakFree, AfterBreak, Separator;
    assert s == l + tail && s == l + sep + rest;
    assert s[|l| + |sep|..] == rest;
    assert ([l] + ls)[1..] == ls && ([sep] + more)[1..] == more;
  }

  lemma BreakIs(tail: string, sep: string, rest: string)
    requires tail != "" && Boundary(tail[0]) && rest == AfterBreak(tail) && sep == tail[..|tail| - |rest|]
    ensures tail == sep + rest && sep != "" && Separator(sep) && !(sep == "\r" && rest != "" && rest[0] == '\n')
  {
    assert |sep| == 2 ==> sep == ['\r', '\n'];
  }

  lemma SplitOff(l: string, sep: string, rest: string)
    requires BreakFree(l) && Separator(sep) && !(sep == "\r" && rest != "" && rest[0] == '\n')
    ensures SplitLines(l + sep + rest) == [l] + SplitLines(rest)
  {
    assert sep == "\r\n" ==> sep == ['\r', '\n'];
    assert IsBreak(sep[0]) <==> Boundary(sep[0]);
    FirstLineUpTo(l, sep + rest);
    var s := l + sep + rest;
    assert s == l + (sep + rest) && s[|l|..] == sep + rest;
    assert AfterBreak(sep + rest) == rest;
    hide FirstLine, IsBreak, BreakFree, Separator;
    SplitFirst(s);
  }

  lemma {:induction false} CutIsSplit(s: string, ls: seq<string>, separators: seq<string>)
    requires Cut(s, ls, separators)
    ensures SplitLines(s) == ls
    decreases |ls|
  {
    hide SplitLines, Separator, Boundary;
    if ls == [] {
      SplitNothing();
    } else {
      var l, sep := ls[0], separators[0];
      var rest := s[|l| + |sep|..];
      CutIsSplit(rest, ls[1..], separators[1..]);
      BreakIff(l);
      assert s == l + sep + rest && ls == [l] + ls[1..];
      if sep == "" {
        assert s == l;
        LastLine(l);
        SplitNothing();
      } else {
        SplitOff(l, sep, rest);
      }
    }
  }

  lemma LastLine(l: string)
    requires BreakFree(l) && l != ""
    ensures SplitLines(l) == [l]
  {
    WholeLine(l);
  }

  lemma {:induction false} FirstLineUpTo(l: string, rest: string)
    requires BreakFree(l) && rest != "" && IsBreak(rest[0])
    ensures FirstLine(l + rest) == l
  {
    if l != "" {
      FirstLineUpTo(l[1..], rest);
      assert (l + rest)[1..] == l[1..] + rest;
    }
  }

  /** splitlines gives the one way of cutting the text at its boundaries. */
  lemma SplitLinesIff(s: string, ls: seq<string>)
    ensures SplitLines(s) == ls <==> exists separators :: Cut(s, ls, separators)
  {
    if SplitLines(s) == ls {
      var separators := SplitIsCut(s);
      assert Cut(s, ls, separators);
    }
    hide Cut, SplitLines;
    if separators :| Cut(s, ls, separators) { CutIsSplit(s, ls, separators); }
  }
}
