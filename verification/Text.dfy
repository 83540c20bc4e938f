/** Python string operations the modelled code relies on. */
module Text {

  /** str.isspace for one character; also what a regular expression's \s matches. */
  predicate IsSpace(c: char)
  {
    || '\t' <= c <= '\r'
    || '\U{1c}' <= c <= ' '
    || c == '\U{85}' || c == '\U{a0}' || c == '\U{1680}'
    || '\U{2000}' <= c <= '\U{200a}'
    || c == '\U{2028}' || c == '\U{2029}' || c == '\U{202f}' || c == '\U{205f}' || c == '\U{3000}'
  }

  function LStrip(s: string): string
  {
    if s != "" && IsSpace(s[0]) then LStrip(s[1..]) else s
  }

  function RStrip(s: string): string
  {
    if s != "" && IsSpace(s[|s| - 1]) then RStrip(s[..|s| - 1]) else s
  }

  function Strip(s: string): string
  {
    RStrip(LStrip(s))
  }

  /** Neither empty nor starting or ending with white space. */
  predicate Trimmed(s: string)
  {
    s != "" && !IsSpace(s[0]) && !IsSpace(s[|s| - 1])
  }

  lemma StripKeepsTrimmed(s: string)
    requires Trimmed(s)
    ensures Strip(s) == s
  {
  }

  predicate AllSpace(s: string)
  {
    forall k | 0 <= k < |s| :: IsSpace(s[k])
  }

  lemma {:induction false} StripDropsTrailingSpace(s: string, space: string)
    requires Trimmed(s) && AllSpace(space)
    ensures Strip(s + space) == s
    decreases |space|
  {
    if space == "" {
      assert s + space == s;
    } else {
      var t := s + space;
      assert LStrip(t) == t;
      assert t[..|t| - 1] == s + space[..|space| - 1];
      StripDropsTrailingSpace(s, space[..|space| - 1]);
    }
  }

  lemma {:induction false} StripKeepsFirst(s: string)
    requires s != "" && !IsSpace(s[0])
    ensures Strip(s) != ""
    decreases |s|
  {
    assert LStrip(s) == s;
    if IsSpace(s[|s| - 1]) {
      var t := s[..|s| - 1];
      assert LStrip(t) == t;
      StripKeepsFirst(t);
    }
  }

  lemma {:induction false} LStripStarts(s: string)
    ensures |LStrip(s)| <= |s| && (LStrip(s) != "" ==> !IsSpace(LStrip(s)[0]))
  {
    if s != "" && IsSpace(s[0]) { LStripStarts(s[1..]); }
  }

  lemma {:induction false} RStripEnds(s: string)
    ensures RStrip(s) <= s && (RStrip(s) != "" ==> !IsSpace(RStrip(s)[|RStrip(s)| - 1]))
  {
    if s != "" && IsSpace(s[|s| - 1]) { RStripEnds(s[..|s| - 1]); }
  }

  /** What is stripped is empty or has no white space around it. */
  lemma StripIsTrimmed(s: string)
    ensures |Strip(s)| <= |s| && (Strip(s) == "" || Trimmed(Strip(s)))
  {
    LStripStarts(s);
    RStripEnds(LStrip(s));
  }

  predicate StartsWith(s: string, prefix: string)
  {
    prefix <= s
  }

  predicate EndsWith(s: string, suffix: string)
  {
    |suffix| <= |s| && s[|s| - |suffix|..] == suffix
  }
}
