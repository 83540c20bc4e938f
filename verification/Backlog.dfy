/**
 The backlog file of PASS_WITH_BACKLOG reviews (src/saberops/backlog.py): the Markdown printer, the
 structured-section parser and the appender.
 */
module Backlog {
  import opened Decimal
  import opened Text
  import opened Wrappers

  datatype Entry = Entry(title: string, runId: string, review: int, flaw: string, why: string, remedy: string)

  // ----- Printing -----

  function ShowInt(n: int): string
  {
    if n < 0 then "-" + Show(-n) else Show(n)
  }

  function Bullet(name: string, value: string): string
  {
    "- **" + name + "**: " + value + "\n"
  }

  const RUN_ID := "Originating Run ID"
  const REVIEW := "Review Number"
  const FLAW := "Residual Flaw"
  const WHY := "Why Non-Blocking Now"
  const REMEDY := "Recommended Remediation"

  function Format(e: Entry): string
  {
    "## " + e.title + "\n" + Bullet(RUN_ID, e.runId) + Bullet(REVIEW, ShowInt(e.review)) + Bullet(FLAW, e.flaw)
    + Bullet(WHY, e.why) + Bullet(REMEDY, e.remedy)
  }

  function Blocks(entries: seq<Entry>): string
  {
    if entries == [] then "" else Format(entries[0]) + "\n" + Blocks(entries[1..])
  }

  // ----- Appending -----

  /** read_text: every line ending becomes a newline. */
  function Universal(s: string): string
  {
    if s == "" then ""
    else if s[0] == '\r' then "\n" + Universal(if |s| > 1 && s[1] == '\n' then s[2..] else s[1..])
    else [s[0]] + Universal(s[1..])
  }

  function AfterAppend(content: Option<string>, entries: seq<Entry>): Option<string>
  {
    if entries == [] then content
    else
      var before := if content.Some? then Universal(content.value) else "# Backlog\n\n";
      var lined := if before != "" && !EndsWith(before, "\n") then before + "\n" else before;
      var spaced := if lined != "" && !EndsWith(lined, "\n\n") then lined + "\n" else lined;
      Some(spaced + Blocks(entries))
  }

  class BacklogFile {
    /** None while the file does not exist. */
    var content: Option<string>

    constructor ()
      ensures content == None
    {
      content := None;
    }

    method Append(entries: seq<Entry>)
      modifies this
      ensures content == AfterAppend(old(content), entries)
    {
      hide Universal, EndsWith, Format, Blocks;
      if entries == [] { return; }
      var text := if content.Some? then Universal(content.value) else "# Backlog\n\n";
      if text != "" && !EndsWith(text, "\n") { text := text + "\n"; }
      if text != "" && !EndsWith(text, "\n\n") { text := text + "\n"; }
      ghost var before := text;
      for i := 0 to |entries|
        invariant text + Blocks(entries[i..]) == before + Blocks(entries)
      {
        FirstBlock(entries, i);
        ghost var rest := Blocks(entries[i + 1..]);
        assert text + ((Format(entries[i]) + "\n") + rest) == text + (Format(entries[i]) + "\n") + rest;
        text := text + (Format(entries[i]) + "\n");
      }
      NoBlocks();
      assert entries[|entries|..] == [] && text + "" == text;
      content := Some(text);
    }
  }

  lemma FirstBlock(entries: seq<Entry>, i: nat)
    requires i < |entries|
    ensures Blocks(entries[i..]) == (Format(entries[i]) + "\n") + Blocks(entries[i + 1..])
  {
    hide Format;
    assert entries[i..][0] == entries[i] && entries[i..][1..] == entries[i + 1..];
  }

  lemma NoBlocks()
    ensures Blocks([]) == ""
  {
  }

  // ----- The section pattern -----

  /** The regular expressions the parser uses, each construct followed by what comes next:
      a literal, \s+ or \s* (greedy), a DOTALL group .+? or .*? (lazy), an optional part with or
      without its group, and the lookahead (?=\n##|\Z). */
  datatype Pattern =
    | Done
    | Lit(text: string, next: Pattern)
    | Space(min: nat, next: Pattern)
    | Lazy(min: nat, next: Pattern)
    | Either(taken: Pattern, skipped: Pattern)
    | NoGroup(next: Pattern)
    | Ahead(next: Pattern)

  /** What follows the match, and the groups. */
  datatype Found = Found(rest: string, groups: seq<Option<string>>)

  function SpaceRun(s: string): (n: nat)
    ensures n <= |s| && (forall k | 0 <= k < n :: IsSpace(s[k])) && (n < |s| ==> !IsSpace(s[n]))
  {
    if s != "" && IsSpace(s[0]) then 1 + SpaceRun(s[1..]) else 0
  }

  /** The first match at the start of s, in the order a backtracking matcher tries them. */
  function Match(p: Pattern, s: string): (f: Option<Found>)
    ensures f.Some? ==> |f.value.rest| <= |s| && (p.Lit? && p.text != "" ==> |f.value.rest| < |s|)
    decreases p, 0
  {
    match p
    case Done => Some(Found(s, []))
    case Lit(text, next) => if StartsWith(s, text) then Match(next, s[|text|..]) else None
    case Space(min, next) => MatchSpace(p, s, SpaceRun(s))
    case Lazy(min, next) => MatchLazy(p, s, min)
    case Either(taken, skipped) =>
      var first := Match(taken, s);
      if first.Some? then first else Match(skipped, s)
    case NoGroup(next) =>
      (match Match(next, s) case None => None case Some(m) => Some(Found(m.rest, [None] + m.groups)))
    case Ahead(next) => if s == "" || StartsWith(s, "\n##") then Match(next, s) else None
  }

  /** As many spaces as there are, then one fewer, and so on. */
  function MatchSpace(p: Pattern, s: string, n: nat): (f: Option<Found>)
    requires p.Space? && n <= |s|
    ensures f.Some? ==> |f.value.rest| <= |s|
    decreases p.next, n + 1
  {
    if n < p.min then None
    else
      var here := Match(p.next, s[n..]);
      if here.Some? || n == 0 then here else MatchSpace(p, s, n - 1)
  }

  /** As few characters as will do. */
  function MatchLazy(p: Pattern, s: string, n: nat): (f: Option<Found>)
    requires p.Lazy?
    ensures f.Some? ==> |f.value.rest| <= |s|
    decreases p.next, |s| + 1 - n
  {
    if n > |s| then None
    else
      match Match(p.next, s[n..])
      case Some(m) => Some(Found(m.rest, [Some(s[..n])] + m.groups))
      case None => MatchLazy(p, s, n + 1)
  }

  function Label(name: string): string { "**" + name + "**:" }

  function Field(name: string, next: Pattern): Pattern
  {
    Lit("-", Space(1, Lit(Label(name), Space(0, Lazy(0, Lit("\n", next))))))
  }

  const LAST := Lit("-", Space(1, Lit(Label(REMEDY), Space(0, Lazy(0, Ahead(Done))))))
  const REQUIRED := Field(FLAW, Field(WHY, LAST))
  const FROM_REVIEW := Either(Field(REVIEW, REQUIRED), NoGroup(REQUIRED))
  const FROM_RUN := Either(Field(RUN_ID, FROM_REVIEW), NoGroup(FROM_REVIEW))
  const SECTION := Lit("##", Space(1, Lazy(1, Lit("\n", FROM_RUN))))

  // ----- Parsing -----

  function Group(groups: seq<Option<string>>, k: nat): Option<string>
  {
    if k < |groups| then groups[k] else None
  }

  function Stripped(group: Option<string>): string
  {
    if group.Some? then Strip(group.value) else ""
  }

  /** `runId` and `review` are the caller's, for a section that does not name its own. */
  function EntryOf(groups: seq<Option<string>>, runId: string, review: int): Entry
  {
    var shownRun, shownReview := Group(groups, 1), Stripped(Group(groups, 2));
    Entry(Stripped(Group(groups, 0)),
          if shownRun.Some? && shownRun.value != "" then Strip(shownRun.value) else runId,
          if shownReview != "" && AllDigits(shownReview) then Read(shownReview) else review,
          Stripped(Group(groups, 3)), Stripped(Group(groups, 4)), Stripped(Group(groups, 5)))
  }

  /** The structured sections of a text, found from left to right. */
  function Sections(text: string, runId: string, review: int): seq<Entry>
    decreases |text|
  {
    if text == "" then []
    else
      match Match(SECTION, text)
      case Some(m) => [EntryOf(m.groups, runId, review)] + Sections(m.rest, runId, review)
      case None => Sections(text[1..], runId, review)
  }

  // ----- Bullets in a text -----

  /** The text starts with the bullet of a field: a dash, white space and the label. */
  predicate Starts(name: string, s: string)
  {
    s != "" && s[0] == '-' && SpaceRun(s[1..]) >= 1 && StartsWith(s[1..][SpaceRun(s[1..])..], Label(name))
  }

  function AfterLabel(name: string, s: string): string
    requires Starts(name, s)
  {
    s[1..][SpaceRun(s[1..])..][|Label(name)|..]
  }

  /** Some line of the value, not its first, starts with the bullet of a field. */
  predicate LineStarts(name: string, value: string)
  {
    exists k :: 0 <= k < |value| && value[k] == '\n' && Starts(name, value[k + 1..])
  }

  /** Some line starts with one bullet, and some later line with another. */
  predicate StartsThen(name: string, other: string, value: string)
  {
    exists k :: 0 <= k < |value| && value[k] == '\n' && Starts(name, value[k + 1..])
                && LineStarts(other, AfterLabel(name, value[k + 1..]))
  }

  predicate InnerSection(value: string)
  {
    exists k :: 0 <= k <= |value| && StartsWith(value[k..], "\n##")
  }

  lemma LitMatches(text: string, next: Pattern, rest: string)
    ensures Match(Lit(text, next), text + rest) == Match(next, rest)
  {
    assert (text + rest)[|text|..] == rest;
  }

  lemma LitFails(text: string, next: Pattern, s: string)
    requires !StartsWith(s, text)
    ensures Match(Lit(text, next), s).None?
  {
  }

  lemma LabelText(name: string)
    ensures |Label(name)| >= 2 && Label(name)[0] == '*' && !IsSpace('*') && !IsSpace('-')
  {
  }

  /** The label is only found after all of the white space. */
  lemma {:induction false} LabelAfterSpaces(name: string, after: Pattern, t: string, n: nat)
    requires n <= SpaceRun(t)
    ensures MatchSpace(Space(1, Lit(Label(name), after)), t, n)
            == if n == SpaceRun(t) && n >= 1 && StartsWith(t[n..], Label(name))
               then Match(after, t[n..][|Label(name)|..]) else None
    decreases n
  {
    LabelText(name);
    hide Label, IsSpace;
    if n >= 1 {
      LabelAfterSpaces(name, after, t, n - 1);
      if n < SpaceRun(t) { assert t[n..][0] == t[n]; }
    }
  }

  lemma BulletPattern(name: string, after: Pattern, s: string)
    ensures Match(Lit("-", Space(1, Lit(Label(name), after))), s)
            == if Starts(name, s) then Match(after, AfterLabel(name, s)) else None
  {
    hide Label, IsSpace;
    assert StartsWith(s, "-") <==> s != "" && s[0] == '-';
    if s != "" { LabelAfterSpaces(name, after, s[1..], SpaceRun(s[1..])); }
  }

  lemma FieldPattern(name: string, next: Pattern, s: string)
    ensures Match(Field(name, next), s)
            == if Starts(name, s) then Match(Space(0, Lazy(0, Lit("\n", next))), AfterLabel(name, s)) else None
  {
    hide Match, Label, Starts, AfterLabel;
    BulletPattern(name, Space(0, Lazy(0, Lit("\n", next))), s);
  }

  lemma LastPattern(s: string)
    ensures Match(LAST, s)
            == if Starts(REMEDY, s) then Match(Space(0, Lazy(0, Ahead(Done))), AfterLabel(REMEDY, s)) else None
  {
    hide Match, Label, Starts, AfterLabel;
    BulletPattern(REMEDY, Space(0, Lazy(0, Ahead(Done))), s);
  }

  lemma SpaceRunStops(spaces: string, rest: string)
    requires AllSpace(spaces) && (rest == "" || !IsSpace(rest[0]))
    ensures SpaceRun(spaces + rest) == |spaces|
  {
    var n := SpaceRun(spaces + rest);
    hide IsSpace, SpaceRun;
    assert forall k | 0 <= k < |spaces| :: IsSpace((spaces + rest)[k]);
    assert rest != "" ==> (spaces + rest)[|spaces|] == rest[0];
  }

  lemma BulletStarts(name: string, value: string, rest: string)
    ensures var s := Bullet(name, value) + rest;
            Starts(name, s) && AfterLabel(name, s) == " " + (value + ("\n" + rest))
  {
    var s, after := Bullet(name, value) + rest, " " + (value + ("\n" + rest));
    LabelText(name);
    assert s[1..] == " " + (Label(name) + after);
    assert AllSpace(" ");
    hide IsSpace, Label, Bullet;
    SpaceRunStops(" ", Label(name) + after);
    assert s[1..][1..] == Label(name) + after && (Label(name) + after)[|Label(name)|..] == after;
  }

  lemma FieldValue(name: string, next: Pattern, value: string, rest: string)
    ensures Match(Field(name, next), Bullet(name, value) + rest)
            == Match(Space(0, Lazy(0, Lit("\n", next))), " " + (value + ("\n" + rest)))
  {
    hide *;
    BulletStarts(name, value, rest);
    FieldPattern(name, next, Bullet(name, value) + rest);
  }

  // ----- Lazy groups -----

  lemma LazyStarts(min: nat, next: Pattern, s: string)
    ensures Match(Lazy(min, next), s) == MatchLazy(Lazy(min, next), s, min)
  {
  }

  lemma LazyStep(min: nat, next: Pattern, s: string, n: nat)
    requires n <= |s|
    ensures MatchLazy(Lazy(min, next), s, n)
            == match Match(next, s[n..])
               case Some(m) => Some(Found(m.rest, [Some(s[..n])] + m.groups))
               case None => MatchLazy(Lazy(min, next), s, n + 1)
  {
  }

  /** A lazy group finds a match if there is one, no later than it. */
  lemma {:induction false} LazyFinds(min: nat, next: Pattern, s: string, n: nat, k: nat) returns (j: nat)
    requires n <= k <= |s| && Match(next, s[k..]).Some?
    ensures n <= j <= k && Match(next, s[j..]).Some?
    ensures var f := MatchLazy(Lazy(min, next), s, n);
            f.Some? && |f.value.groups| > 0 && f.value.groups[0] == Some(s[..j])
    decreases k - n
  {
    LazyStep(min, next, s, n);
    hide Match, MatchLazy;
    if Match(next, s[n..]).None? { j := LazyFinds(min, next, s, n + 1, k); } else { j := n; }
  }

  /** There is no match of p anywhere in t. */
  ghost predicate Never(p: Pattern, t: string)
  {
    forall k | 0 <= k <= |t| :: Match(p, t[k..]).None?
  }

  lemma {:induction false} LazyFails(min: nat, next: Pattern, s: string, n: nat)
    requires Never(next, s)
    ensures MatchLazy(Lazy(min, next), s, n).None?
    decreases |s| + 1 - n
  {
    hide Match;
    if n <= |s| { LazyFails(min, next, s, n + 1); }
  }

  predicate HasGroup(f: Option<Found>)
  {
    f.Some? ==> |f.value.groups| > 0 && f.value.groups[0].Some?
  }

  lemma {:induction false} LazyHasGroup(min: nat, next: Pattern, s: string, n: nat)
    ensures HasGroup(MatchLazy(Lazy(min, next), s, n))
    decreases |s| + 1 - n
  {
    if n <= |s| {
      LazyStep(min, next, s, n);
      hide Match, MatchLazy;
      LazyHasGroup(min, next, s, n + 1);
    }
  }

  /** White space is given back until the rest matches, if it ever does. */
  lemma {:induction false} SpaceFinds(min: nat, next: Pattern, s: string, n: nat, k: nat)
    requires min <= k <= n <= |s| && Match(next, s[k..]).Some?
    ensures MatchSpace(Space(min, next), s, n).Some?
    decreases n
  {
    if k < n { SpaceFinds(min, next, s, n - 1, k); }
  }

  lemma {:induction false} SpaceHasGroup(min: nat, least: nat, next: Pattern, s: string, n: nat)
    requires n <= |s|
    ensures HasGroup(MatchSpace(Space(min, Lazy(least, next)), s, n))
    decreases n
  {
    LazyStarts(least, next, s[n..]);
    LazyHasGroup(least, next, s[n..], least);
    hide MatchLazy, HasGroup;
    if n > 0 { SpaceHasGroup(min, least, next, s, n - 1); }
  }

  lemma SpaceStarts(min: nat, next: Pattern, s: string)
    ensures Match(Space(min, next), s) == MatchSpace(Space(min, next), s, SpaceRun(s))
  {
  }

  /** A value followed by a line after which `next` matches is found, whatever it contains. */
  lemma ValueIsSome(min: nat, least: nat, next: Pattern, s: string, n: nat, k: nat)
    requires min <= n <= SpaceRun(s) && n + least <= k <= |s| && Match(next, s[k..]).Some?
    ensures var f := Match(Space(min, Lazy(least, next)), s); f.Some? && HasGroup(f)
  {
    assert s[n..][k - n..] == s[k..];
    hide *;
    var j := LazyFinds(least, next, s[n..], least, k - n);
    LazyStarts(least, next, s[n..]);
    SpaceStarts(min, Lazy(least, next), s);
    SpaceFinds(min, Lazy(least, next), s, SpaceRun(s), n);
    SpaceHasGroup(min, least, next, s, SpaceRun(s));
  }

  /** If the first try, after all the white space, succeeds, the group starts with what
      follows the white space. */
  lemma GreedyValue(min: nat, least: nat, next: Pattern, s: string, k: nat) returns (j: nat)
    requires var n := SpaceRun(s); min <= n < |s| && n + least <= k <= |s| && Match(Lit("\n", next), s[k..]).Some?
    ensures var f, n := Match(Space(min, Lazy(least, Lit("\n", next))), s), SpaceRun(s);
            && least <= j <= k - n && j > 0
            && f.Some? && |f.value.groups| > 0 && f.value.groups[0] == Some(s[n..][..j])
            && f == MatchLazy(Lazy(least, Lit("\n", next)), s[n..], least)
    ensures Strip(s[SpaceRun(s)..][..j]) != ""
  {
    var n, group := SpaceRun(s), Lazy(least, Lit("\n", next));
    var t := s[n..];
    assert t[k - n..] == s[k..];
    assert t[0] == s[n] && !IsSpace(t[0]) && IsSpace('\n');
    assert t[0..] == t && !StartsWith(t, "\n");
    LitFails("\n", next, t);
    hide Match, MatchLazy, IsSpace, SpaceRun;
    j := LazyFinds(least, Lit("\n", next), t, least, k - n);
    assert j > 0;
    LazyStarts(least, Lit("\n", next), t);
    FirstTry(min, group, s);
    StripKeepsFirst(t[..j]);
  }

  lemma FirstTry(min: nat, next: Pattern, s: string)
    requires min <= SpaceRun(s) && Match(next, s[SpaceRun(s)..]).Some?
    ensures Match(Space(min, next), s) == Match(next, s[SpaceRun(s)..])
  {
  }

  // ----- One field -----

  /** After some newline in the value the rest of the pattern matches. */
  predicate EndsIn(next: Pattern, value: string, rest: string)
  {
    exists k :: 0 <= k < |value| && value[k] == '\n' && Match(next, value[k + 1..] + ("\n" + rest)).Some?
  }

  /** The lazy group stops at the first newline after which the rest matches. */
  lemma {:induction false} LazyMatches(min: nat, next: Pattern, value: string, rest: string, n: nat)
    requires min <= n <= |value| && Match(next, rest).Some? && !EndsIn(next, value, rest)
    ensures var m := Match(next, rest).value;
            MatchLazy(Lazy(min, Lit("\n", next)), value + ("\n" + rest), n)
            == Some(Found(m.rest, [Some(value)] + m.groups))
    decreases |value| - n
  {
    var s := value + ("\n" + rest);
    LazyStep(min, Lit("\n", next), s, n);
    hide MatchLazy;
    if n == |value| {
      assert s[n..] == "\n" + rest && s[..n] == value;
      LitMatches("\n", next, rest);
    } else {
      NotYet(next, value, rest, n);
      LazyMatches(min, next, value, rest, n + 1);
    }
  }

  lemma NotYet(next: Pattern, value: string, rest: string, n: nat)
    requires n < |value| && !EndsIn(next, value, rest)
    ensures Match(Lit("\n", next), (value + ("\n" + rest))[n..]).None?
  {
    var s := value + ("\n" + rest);
    assert s[n..][0] == value[n];
    if value[n] == '\n' {
      assert s[n..] == "\n" + (value[n + 1..] + ("\n" + rest));
      LitMatches("\n", next, value[n + 1..] + ("\n" + rest));
    }
  }

  lemma EndsEarly(next: Pattern, value: string, rest: string) returns (k: nat)
    requires EndsIn(next, value, rest)
    ensures k < |value| && value[k] == '\n' && Match(Lit("\n", next), (value + ("\n" + rest))[k..]).Some?
  {
    k :| 0 <= k < |value| && value[k] == '\n' && Match(next, value[k + 1..] + ("\n" + rest)).Some?;
    assert (value + ("\n" + rest))[k..] == "\n" + (value[k + 1..] + ("\n" + rest));
    LitMatches("\n", next, value[k + 1..] + ("\n" + rest));
    hide Match;
  }

  lemma SpaceMatches(min: nat, next: Pattern, rest: string)
    requires min <= 1 && rest != "" && !IsSpace(rest[0]) && Match(next, rest).Some?
    ensures Match(Space(min, next), " " + rest) == Match(next, rest)
  {
    assert (" " + rest)[1..] == rest && AllSpace(" ");
    hide Match, IsSpace, SpaceRun;
    SpaceRunStops(" ", rest);
    FirstTry(min, next, " " + rest);
  }

  /** A value without white space around it and without an early end is the group. */
  lemma ValueMatches(min: nat, least: nat, next: Pattern, value: string, rest: string)
    requires min <= 1 && least <= 1 && Trimmed(value) && Match(next, rest).Some? && !EndsIn(next, value, rest)
    ensures var m := Match(next, rest).value;
            Match(Space(min, Lazy(least, Lit("\n", next))), " " + (value + ("\n" + rest)))
            == Some(Found(m.rest, [Some(value)] + m.groups))
  {
    var s := value + ("\n" + rest);
    hide Match, EndsIn, IsSpace;
    LazyMatches(least, next, value, rest, least);
    LazyStarts(least, Lit("\n", next), s);
    SpaceMatches(min, Lazy(least, Lit("\n", next)), s);
  }

  /** With an early end the group is shorter. */
  lemma ValueIsCut(min: nat, least: nat, next: Pattern, value: string, rest: string) returns (group: string)
    requires min <= 1 && least <= 1 && Trimmed(value) && EndsIn(next, value, rest)
    ensures var f := Match(Space(min, Lazy(least, Lit("\n", next))), " " + (value + ("\n" + rest)));
            f.Some? && |f.value.groups| > 0 && f.value.groups[0] == Some(group) && |group| < |value|
  {
    var s := value + ("\n" + rest);
    var k := EndsEarly(next, value, rest);
    assert IsSpace('\n') && k >= 1;
    hide Match, EndsIn, IsSpace;
    var j := LazyFinds(least, Lit("\n", next), s, least, k);
    LazyStarts(least, Lit("\n", next), s);
    SpaceMatches(min, Lazy(least, Lit("\n", next)), s);
    group := s[..j];
  }

  lemma FieldMatches(name: string, next: Pattern, value: string, rest: string)
    requires Trimmed(value) && Match(next, rest).Some? && !EndsIn(next, value, rest)
    ensures var m := Match(next, rest).value;
            Match(Field(name, next), Bullet(name, value) + rest) == Some(Found(m.rest, [Some(value)] + m.groups))
  {
    hide *;
    ValueMatches(0, 0, next, value, rest);
    FieldValue(name, next, value, rest);
  }

  lemma FieldIsSome(name: string, next: Pattern, value: string, rest: string)
    requires Match(next, rest).Some?
    ensures var f := Match(Field(name, next), Bullet(name, value) + rest); f.Some? && HasGroup(f)
  {
    var s := " " + (value + ("\n" + rest));
    assert s[1 + |value|..] == "\n" + rest;
    hide *;
    LitMatches("\n", next, rest);
    ValueIsSome(0, 0, Lit("\n", next), s, 0, 1 + |value|);
    FieldValue(name, next, value, rest);
  }

  /** \s* takes the newline of an empty value with it, if that leads to a match: then the group
      is not empty. */
  lemma EmptyFieldRunsOn(name: string, next: Pattern, t: string, k: nat) returns (group: string)
    requires t != "" && t[0] == '-' && k <= |t| && Match(Lit("\n", next), t[k..]).Some?
    ensures var f := Match(Field(name, next), Bullet(name, "") + t);
            f.Some? && |f.value.groups| > 0 && f.value.groups[0] == Some(group) && Strip(group) != ""
  {
    var s := " " + ("" + ("\n" + t));
    assert s == " \n" + t && s[2..] == t && s[2 + k..] == t[k..] && AllSpace(" \n") && !IsSpace('-');
    hide *;
    SpaceRunStops(" \n", t);
    var j := GreedyValue(0, 0, next, s, 2 + k);
    FieldValue(name, next, "", t);
    group := s[2..][..j];
  }

  /** Otherwise it leaves the newline to end the line, and the group is empty. */
  lemma EmptyFieldMatches(name: string, next: Pattern, t: string)
    requires t != "" && t[0] == '-' && Match(next, t).Some? && Never(Lit("\n", next), t)
    ensures var m := Match(next, t).value;
            Match(Field(name, next), Bullet(name, "") + t) == Some(Found(m.rest, [Some("")] + m.groups))
  {
    hide *;
    var group, s := Lazy(0, Lit("\n", next)), " " + ("" + ("\n" + t));
    EmptyValueText(t);
    LazyFails(0, Lit("\n", next), t, 0);
    LazyStarts(0, Lit("\n", next), t);
    LazyStarts(0, Lit("\n", next), "\n" + t);
    LazyStep(0, Lit("\n", next), "\n" + t, 0);
    LitMatches("\n", next, t);
    SpaceRunStops(" \n", t);
    SpaceStarts(0, group, s);
    GiveBackOne(0, group, s, 2);
    FieldValue(name, next, "", t);
  }

  lemma EmptyValueText(t: string)
    requires t != "" && t[0] == '-'
    ensures var s := " " + ("" + ("\n" + t));
            && s == " \n" + t && s[2..] == t && s[1..] == "\n" + t
            && ("\n" + t)[0..] == "\n" + t && ("\n" + t)[..0] == ""
    ensures AllSpace(" \n") && !IsSpace(t[0])
  {
  }

  lemma GiveBackOne(min: nat, next: Pattern, s: string, n: nat)
    requires min < n <= |s| && Match(next, s[n..]).None? && Match(next, s[n - 1..]).Some?
    ensures MatchSpace(Space(min, next), s, n) == Match(next, s[n - 1..])
  {
  }

  // ----- The remedy -----

  /** What the remedy of an entry is followed by: the blank line, and the next section if any. */
  predicate Follows(rest: string)
  {
    rest == "" || StartsWith(rest, "##")
  }

  lemma NotAhead(s: string)
    requires s != "" && !StartsWith(s, "\n##")
    ensures Match(Ahead(Done), s).None?
  {
  }

  lemma IsAhead(s: string)
    requires s == "" || StartsWith(s, "\n##")
    ensures Match(Ahead(Done), s) == Some(Found(s, []))
  {
  }

  /** The last group runs on to the lookahead, over the newlines after the remedy. */
  lemma {:induction false} RemedyRuns(value: string, rest: string, n: nat)
    requires Trimmed(value) && !InnerSection(value) && Follows(rest) && n <= |value|
    ensures MatchLazy(Lazy(0, Ahead(Done)), value + ("\n\n" + rest), n)
            == Some(if rest == "" then Found("", [Some(value + "\n\n")]) else Found("\n" + rest, [Some(value + "\n")]))
    decreases |value| - n
  {
    var s := value + ("\n\n" + rest);
    LazyStep(0, Ahead(Done), s, n);
    NotInRemedy(value, rest, n);
    hide Match, MatchLazy, Trimmed, InnerSection;
    NotAhead(s[n..]);
    if n == |value| {
      RemedyEnds(value, rest);
    } else {
      RemedyRuns(value, rest, n + 1);
    }
  }

  lemma NotInRemedy(value: string, rest: string, n: nat)
    requires Trimmed(value) && !InnerSection(value) && n <= |value|
    ensures var s := value + ("\n\n" + rest); s[n..] != "" && !StartsWith(s[n..], "\n##")
  {
    var s := value + ("\n\n" + rest);
    assert s[n..][0] == s[n] && IsSpace('\n');
    if n + 3 <= |value| {
      assert s[n..][..3] == value[n..][..3];
      assert !StartsWith(value[n..], "\n##");
    } else if n + 1 == |value| {
      assert s[n] == value[|value| - 1];
    } else if n + 2 == |value| {
      assert s[n..][2] == s[n + 2] == '\n';
    } else {
      assert s[n..][1] == s[n + 1] == '\n';
    }
  }

  lemma RemedyEnds(value: string, rest: string)
    requires Follows(rest)
    ensures MatchLazy(Lazy(0, Ahead(Done)), value + ("\n\n" + rest), |value| + 1)
            == Some(if rest == "" then Found("", [Some(value + "\n\n")]) else Found("\n" + rest, [Some(value + "\n")]))
  {
    hide Match, MatchLazy;
    var s := value + ("\n\n" + rest);
    if rest == "" {
      assert s == value + "\n\n";
      assert s[|value| + 1..] == "\n";
      NotAhead("\n");
      LazyStep(0, Ahead(Done), s, |value| + 1);
      RemedyFound(s, |value| + 2, "");
      assert s[..|value| + 2] == value + "\n\n";
    } else {
      assert ("\n" + rest)[..3] == "\n##";
      assert s[|value| + 1..] == "\n" + rest && s[..|value| + 1] == value + "\n";
      RemedyFound(s, |value| + 1, "\n" + rest);
    }
  }

  lemma RemedyFound(s: string, n: nat, rest: string)
    requires n <= |s| && s[n..] == rest && (rest == "" || StartsWith(rest, "\n##"))
    ensures MatchLazy(Lazy(0, Ahead(Done)), s, n) == Some(Found(rest, [Some(s[..n])]))
  {
    hide Match, MatchLazy;
    LazyStep(0, Ahead(Done), s, n);
    IsAhead(rest);
    assert [Some(s[..n])] + [] == [Some(s[..n])];
  }

  lemma LastValue(value: string, rest: string)
    ensures Match(LAST, Bullet(REMEDY, value) + ("\n" + rest))
            == Match(Space(0, Lazy(0, Ahead(Done))), " " + (value + ("\n\n" + rest)))
  {
    assert "\n" + ("\n" + rest) == "\n\n" + rest;
    hide *;
    BulletStarts(REMEDY, value, "\n" + rest);
    LastPattern(Bullet(REMEDY, value) + ("\n" + rest));
  }

  lemma LastIsSome(value: string, rest: string)
    ensures var f := Match(LAST, Bullet(REMEDY, value) + ("\n" + rest)); f.Some? && HasGroup(f)
  {
    var s := " " + (value + ("\n\n" + rest));
    assert s[|s|..] == "";
    hide *;
    IsAhead("");
    ValueIsSome(0, 0, Ahead(Done), s, 0, |s|);
    LastValue(value, rest);
  }

  lemma LastMatches(value: string, rest: string)
    requires Trimmed(value) && !InnerSection(value) && Follows(rest)
    ensures Match(LAST, Bullet(REMEDY, value) + ("\n" + rest))
            == Some(if rest == "" then Found("", [Some(value + "\n\n")]) else Found("\n" + rest, [Some(value + "\n")]))
  {
    var s := value + ("\n\n" + rest);
    assert s != "" && !IsSpace(s[0]);
    hide *;
    RemedyRuns(value, rest, 0);
    LazyStarts(0, Ahead(Done), s);
    SpaceMatches(0, Lazy(0, Ahead(Done)), s);
    LastValue(value, rest);
  }

  /** A remedy with a section inside ends before it. */
  lemma LastIsCut(value: string, rest: string) returns (group: string)
    requires Trimmed(value) && InnerSection(value)
    ensures var f := Match(LAST, Bullet(REMEDY, value) + ("\n" + rest));
            f.Some? && |f.value.groups| > 0 && f.value.groups[0] == Some(group) && |group| < |value|
  {
    var s := value + ("\n\n" + rest);
    var k :| 0 <= k <= |value| && StartsWith(value[k..], "\n##");
    assert s[k..][..3] == value[k..][..3] && s != "" && !IsSpace(s[0]);
    hide *;
    IsAhead(s[k..]);
    var j := LazyFinds(0, Ahead(Done), s, 0, k);
    LazyStarts(0, Ahead(Done), s);
    SpaceMatches(0, Lazy(0, Ahead(Done)), s);
    LastValue(value, rest);
    group := s[..j];
  }

  /** \s* takes everything white after an empty remedy, and the group is what comes then. */
  lemma EmptyRemedy(rest: string) returns (group: string)
    requires Follows(rest)
    ensures var f := Match(LAST, Bullet(REMEDY, "") + ("\n" + rest));
            && f.Some? && |f.value.groups| > 0 && f.value.groups[0] == Some(group)
            && (rest == "" ==> f == Some(Found("", [Some("")])))
            && (rest != "" ==> Strip(group) != "")
  {
    var s := " " + ("" + ("\n\n" + rest));
    assert s == " \n\n" + rest && s[3..] == rest && rest[|rest|..] == "" && AllSpace(" \n\n");
    assert rest != "" ==> rest[0] == '#' && !IsSpace('#') && !StartsWith(rest, "\n##");
    hide IsSpace, Match, MatchLazy, SpaceRun, Strip, Bullet;
    SpaceRunStops(" \n\n", rest);
    IsAhead("");
    var j := LazyFinds(0, Ahead(Done), rest, 0, |rest|);
    LazyStarts(0, Ahead(Done), rest);
    FirstTry(0, Lazy(0, Ahead(Done)), s);
    LastValue("", rest);
    group := rest[..j];
    if rest == "" {
      RemedyFound("", 0, "");
    } else {
      NotAhead(rest);
      assert rest[0..] == rest;
      StripKeepsFirst(group);
    }
  }

  // ----- The parts of a printed entry -----

  /** What follows the flaw, the review number and the run of a printed entry. */
  function AfterWhy(e: Entry, rest: string): string { Bullet(REMEDY, e.remedy) + ("\n" + rest) }

  function AfterFlaw(e: Entry, rest: string): string { Bullet(WHY, e.why) + AfterWhy(e, rest) }

  function AfterReview(e: Entry, rest: string): string { Bullet(FLAW, e.flaw) + AfterFlaw(e, rest) }

  function AfterRun(e: Entry, rest: string): string { Bullet(REVIEW, ShowInt(e.review)) + AfterReview(e, rest) }

  function AfterTitle(e: Entry, rest: string): string { Bullet(RUN_ID, e.runId) + AfterRun(e, rest) }

  lemma WholeEntry(e: Entry, rest: string)
    ensures Format(e) + ("\n" + rest) == "## " + e.title + "\n" + AfterTitle(e, rest)
  {
    hide Bullet, ShowInt;
  }

  lemma StartsWithDash(name: string, value: string, rest: string)
    ensures var s := Bullet(name, value) + rest; s != "" && s[0] == '-'
  {
  }

  lemma EitherTaken(taken: Pattern, skipped: Pattern, s: string)
    requires Match(taken, s).Some?
    ensures Match(Either(taken, skipped), s) == Match(taken, s)
  {
  }

  lemma EitherIsSome(taken: Pattern, skipped: Pattern, s: string)
    ensures Match(Either(taken, NoGroup(skipped)), s).Some? <==> Match(taken, s).Some? || Match(skipped, s).Some?
  {
  }

  /** Whatever its fields, every part of a printed entry matches. */
  lemma PartsMatch(e: Entry, rest: string)
    ensures Match(LAST, AfterWhy(e, rest)).Some? && Match(Field(WHY, LAST), AfterFlaw(e, rest)).Some?
    ensures Match(REQUIRED, AfterReview(e, rest)).Some? && Match(FROM_REVIEW, AfterRun(e, rest)).Some?
    ensures Match(FROM_REVIEW, AfterReview(e, rest)).Some? && Match(FROM_RUN, AfterRun(e, rest)).Some?
    ensures Match(Field(RUN_ID, FROM_REVIEW), AfterTitle(e, rest)).Some? && Match(FROM_RUN, AfterTitle(e, rest)).Some?
  {
    hide Match, Field, Bullet, ShowInt, HasGroup;
    LastIsSome(e.remedy, rest);
    FieldIsSome(WHY, LAST, e.why, AfterWhy(e, rest));
    FieldIsSome(FLAW, Field(WHY, LAST), e.flaw, AfterFlaw(e, rest));
    FieldIsSome(REVIEW, REQUIRED, ShowInt(e.review), AfterReview(e, rest));
    EitherIsSome(Field(REVIEW, REQUIRED), REQUIRED, AfterReview(e, rest));
    EitherIsSome(Field(REVIEW, REQUIRED), REQUIRED, AfterRun(e, rest));
    FieldIsSome(RUN_ID, FROM_REVIEW, e.runId, AfterRun(e, rest));
    EitherIsSome(Field(RUN_ID, FROM_REVIEW), FROM_REVIEW, AfterRun(e, rest));
    EitherIsSome(Field(RUN_ID, FROM_REVIEW), FROM_REVIEW, AfterTitle(e, rest));
  }

  // ----- Which lines end a field early -----

  /** Empty or not ending in white space. */
  predicate Solid(value: string) { value != "" ==> !IsSpace(value[|value| - 1]) }

  predicate NoStar(rest: string)
  {
    var r := rest[SpaceRun(rest)..]; r == "" || r[0] != '*'
  }

  predicate NoNewline(name: string)
  {
    forall k | 0 <= k < |name| :: name[k] != '\n'
  }

  lemma SpaceRunWithin(v: string, tail: string)
    requires v != "" && Solid(v)
    ensures SpaceRun(v + tail) == SpaceRun(v) < |v|
  {
    var n := SpaceRun(v);
    assert n < |v|;
    assert v + tail == v[..n] + (v[n..] + tail);
    assert (v[n..] + tail)[0] == v[n];
    hide IsSpace, SpaceRun;
    SpaceRunStops(v[..n], v[n..] + tail);
  }

  /** No bullet runs over the end of a value. */
  lemma NoStraddle(name: string, u: string, rest: string)
    requires u != "" && Solid(u) && NoStar(rest) && NoNewline(name)
    ensures Starts(name, u + ("\n" + rest)) <==> Starts(name, u)
    ensures Starts(name, u) ==> AfterLabel(name, u + ("\n" + rest)) == AfterLabel(name, u) + ("\n" + rest)
  {
    var tail := "\n" + rest;
    var s := u + tail;
    assert s[1..] == u[1..] + tail && s[0] == u[0];
    LabelText(name);
    if |u| == 1 {
      DashAlone(name, u, rest);
    } else {
      var v := u[1..];
      assert v[|v| - 1] == u[|u| - 1];
      SpaceRunWithin(v, tail);
      var n := SpaceRun(v);
      assert (v + tail)[n..] == v[n..] + tail;
      LabelWithin(name, v[n..], rest);
    }
  }

  lemma DashAlone(name: string, u: string, rest: string)
    requires |u| == 1 && NoStar(rest)
    ensures !Starts(name, u) && !Starts(name, u + ("\n" + rest))
  {
    var s, n := u + ("\n" + rest), SpaceRun(rest);
    LabelText(name);
    assert s[1..] == "\n" + rest == ("\n" + rest[..n]) + rest[n..];
    assert IsSpace('\n') && AllSpace("\n" + rest[..n]);
    hide IsSpace, Label, SpaceRun;
    if n < |rest| { assert rest[n..][0] == rest[n]; }
    SpaceRunStops("\n" + rest[..n], rest[n..]);
    assert s[1..][n + 1..] == rest[n..];
    assert SpaceRun("") == 0;
  }

  lemma LabelWithin(name: string, v: string, rest: string)
    requires NoNewline(name)
    ensures StartsWith(v + ("\n" + rest), Label(name)) <==> StartsWith(v, Label(name))
    ensures StartsWith(v, Label(name)) ==> (v + ("\n" + rest))[|Label(name)|..] == v[|Label(name)|..] + ("\n" + rest)
  {
    var s, mark := v + ("\n" + rest), Label(name);
    assert forall k | 0 <= k < |mark| :: mark[k] != '\n';
    hide Label;
    if StartsWith(s, mark) {
      assert forall k | 0 <= k < |mark| :: s[k] == mark[k] && s[k] != '\n';
      assert s[|v|] == '\n';
      assert mark == s[..|mark|] == v[..|mark|];
    }
    if StartsWith(v, mark) { assert mark == v[..|mark|] == s[..|mark|]; }
  }

  lemma LineTail(value: string, k: nat)
    requires Solid(value) && k < |value| && value[k] == '\n'
    ensures value[k + 1..] != "" && Solid(value[k + 1..])
  {
    assert IsSpace('\n');
  }

  lemma EndsWithMore(a: string, t: string, end: string)
    requires EndsWith(t, end)
    ensures EndsWith(a + t, end)
  {
    var s := a + t;
    assert s[|s| - |end|..] == t[|t| - |end|..];
  }

  /** The end of a line after which `next` matches is found in a text that ends with it. */
  lemma LineEndIn(next: Pattern, t: string, found: string)
    requires EndsWith(t, "\n" + found) && Match(next, found).Some?
    ensures var k := |t| - |found| - 1; 0 <= k <= |t| && Match(Lit("\n", next), t[k..]).Some?
  {
    LitMatches("\n", next, found);
    hide Match;
  }

  lemma FieldEndsAt(name: string, next: Pattern, u: string, rest: string, found: string)
    requires u != "" && Solid(u) && NoStar(rest) && NoNewline(name)
    requires EndsWith("\n" + rest, "\n" + found) && Match(next, found).Some?
    ensures Match(Field(name, next), u + ("\n" + rest)).Some? <==> Starts(name, u)
  {
    hide *;
    NoStraddle(name, u, rest);
    FieldPattern(name, next, u + ("\n" + rest));
    if Starts(name, u) {
      var t := AfterLabel(name, u) + ("\n" + rest);
      EndsWithMore(AfterLabel(name, u), "\n" + rest, "\n" + found);
      LineEndIn(next, t, found);
      ValueIsSome(0, 0, Lit("\n", next), t, 0, |t| - |found| - 1);
    }
  }

  lemma FieldEnds(name: string, next: Pattern, value: string, rest: string, found: string)
    requires Solid(value) && NoStar(rest) && NoNewline(name)
    requires EndsWith("\n" + rest, "\n" + found) && Match(next, found).Some?
    ensures EndsIn(Field(name, next), value, rest) <==> LineStarts(name, value)
  {
    hide Solid, NoStar, NoNewline, EndsWith, Match, Field, Starts;
    forall k | 0 <= k < |value| && value[k] == '\n'
      ensures Match(Field(name, next), value[k + 1..] + ("\n" + rest)).Some? <==> Starts(name, value[k + 1..])
    {
      LineTail(value, k);
      FieldEndsAt(name, next, value[k + 1..], rest, found);
    }
  }

  lemma LastEndsAt(u: string, rest: string)
    requires u != "" && Solid(u) && NoStar(rest)
    ensures Match(LAST, u + ("\n" + rest)).Some? <==> Starts(REMEDY, u)
  {
    assert NoNewline(REMEDY);
    hide *;
    NoStraddle(REMEDY, u, rest);
    LastPattern(u + ("\n" + rest));
    if Starts(REMEDY, u) {
      var t := AfterLabel(REMEDY, u) + ("\n" + rest);
      assert t[|t|..] == "";
      IsAhead("");
      ValueIsSome(0, 0, Ahead(Done), t, 0, |t|);
    }
  }

  lemma LastEnds(value: string, rest: string)
    requires Solid(value) && NoStar(rest)
    ensures EndsIn(LAST, value, rest) <==> LineStarts(REMEDY, value)
  {
    hide Solid, NoStar, Match, Starts;
    forall k | 0 <= k < |value| && value[k] == '\n'
      ensures Match(LAST, value[k + 1..] + ("\n" + rest)).Some? <==> Starts(REMEDY, value[k + 1..])
    {
      LineTail(value, k);
      LastEndsAt(value[k + 1..], rest);
    }
  }

  lemma EitherEnds(taken: Pattern, skipped: Pattern, value: string, rest: string)
    ensures EndsIn(Either(taken, NoGroup(skipped)), value, rest)
            <==> EndsIn(taken, value, rest) || EndsIn(skipped, value, rest)
  {
    hide Match;
    forall k | 0 <= k < |value| && value[k] == '\n' {
      EitherIsSome(taken, skipped, value[k + 1..] + ("\n" + rest));
    }
  }

  lemma BulletEnds(name: string, value: string, t: string)
    ensures EndsWith(Bullet(name, value) + t, "\n" + t) && EndsWith("\n" + (Bullet(name, value) + t), "\n" + t)
    ensures NoStar(Bullet(name, value) + t)
  {
    var s := Bullet(name, value) + t;
    var line := "- **" + name + "**: " + value;
    assert s == line + ("\n" + t) && "\n" + s == ("\n" + line) + ("\n" + t);
    assert s[0] == '-' && !IsSpace('-');
    hide IsSpace;
    assert SpaceRun(s) == 0;
  }

  lemma FieldNames()
    ensures NoNewline(RUN_ID) && NoNewline(REVIEW) && NoNewline(FLAW) && NoNewline(WHY) && NoNewline(REMEDY)
  {
  }

  /** The lines that end the why, the flaw and the run of an entry early. */
  lemma EndsOfParts(e: Entry, rest: string)
    ensures Solid(e.why) ==> (EndsIn(LAST, e.why, AfterWhy(e, rest)) <==> LineStarts(REMEDY, e.why))
    ensures Solid(e.flaw) ==> (EndsIn(Field(WHY, LAST), e.flaw, AfterFlaw(e, rest)) <==> LineStarts(WHY, e.flaw))
    ensures Solid(e.runId) ==>
              (EndsIn(FROM_REVIEW, e.runId, AfterRun(e, rest))
               <==> LineStarts(REVIEW, e.runId) || LineStarts(FLAW, e.runId))
  {
    hide Match, Solid, NoStar, NoNewline, EndsWith, EndsIn, LineStarts, Bullet, Field, ShowInt;
    FieldNames();
    PartsMatch(e, rest);
    BulletEnds(REMEDY, e.remedy, "\n" + rest);
    BulletEnds(WHY, e.why, AfterWhy(e, rest));
    BulletEnds(FLAW, e.flaw, AfterFlaw(e, rest));
    BulletEnds(REVIEW, ShowInt(e.review), AfterReview(e, rest));
    if Solid(e.why) { LastEnds(e.why, AfterWhy(e, rest)); }
    if Solid(e.flaw) { FieldEnds(WHY, LAST, e.flaw, AfterFlaw(e, rest), AfterWhy(e, rest)); }
    if Solid(e.runId) {
      FieldEnds(REVIEW, REQUIRED, e.runId, AfterRun(e, rest), AfterReview(e, rest));
      FlawInRun(e, rest);
      FieldEnds(FLAW, Field(WHY, LAST), e.runId, AfterRun(e, rest), AfterFlaw(e, rest));
      EitherEnds(Field(REVIEW, REQUIRED), REQUIRED, e.runId, AfterRun(e, rest));
    }
  }

  lemma FlawInRun(e: Entry, rest: string)
    ensures EndsWith("\n" + AfterRun(e, rest), "\n" + AfterFlaw(e, rest))
  {
    BulletEnds(FLAW, e.flaw, AfterFlaw(e, rest));
    hide EndsWith, Bullet;
    EndsWithMore("\n" + Bullet(REVIEW, ShowInt(e.review)), AfterReview(e, rest), "\n" + AfterFlaw(e, rest));
    assert "\n" + AfterRun(e, rest) == "\n" + Bullet(REVIEW, ShowInt(e.review)) + AfterReview(e, rest);
  }

  lemma PartsOfTitle(e: Entry, rest: string)
    ensures EndsWith("\n" + AfterTitle(e, rest), "\n" + AfterRun(e, rest))
    ensures EndsWith("\n" + AfterTitle(e, rest), "\n" + AfterReview(e, rest))
    ensures EndsWith("\n" + AfterTitle(e, rest), "\n" + AfterFlaw(e, rest))
  {
    BulletEnds(RUN_ID, e.runId, AfterRun(e, rest));
    BulletEnds(REVIEW, ShowInt(e.review), AfterReview(e, rest));
    FlawInRun(e, rest);
    hide EndsWith, Bullet, ShowInt;
    var line := "\n" + Bullet(RUN_ID, e.runId);
    assert "\n" + AfterTitle(e, rest) == line + AfterRun(e, rest);
    BulletEnds(FLAW, e.flaw, AfterFlaw(e, rest));
    EndsWithMore(Bullet(REVIEW, ShowInt(e.review)), AfterReview(e, rest), "\n" + AfterFlaw(e, rest));
    EndsWithMore(line, AfterRun(e, rest), "\n" + AfterReview(e, rest));
    EndsWithMore(line, AfterRun(e, rest), "\n" + AfterFlaw(e, rest));
  }

  lemma EndsOfTitle(e: Entry, rest: string)
    requires Solid(e.title)
    ensures EndsIn(FROM_RUN, e.title, AfterTitle(e, rest))
            <==> LineStarts(RUN_ID, e.title) || LineStarts(REVIEW, e.title) || LineStarts(FLAW, e.title)
  {
    hide Match, Solid, NoStar, NoNewline, EndsWith, EndsIn, LineStarts, Bullet, Field, ShowInt;
    FieldNames();
    PartsMatch(e, rest);
    PartsOfTitle(e, rest);
    BulletEnds(RUN_ID, e.runId, AfterRun(e, rest));
    var t := AfterTitle(e, rest);
    FieldEnds(RUN_ID, FROM_REVIEW, e.title, t, AfterRun(e, rest));
    FieldEnds(REVIEW, REQUIRED, e.title, t, AfterReview(e, rest));
    FieldEnds(FLAW, Field(WHY, LAST), e.title, t, AfterFlaw(e, rest));
    EitherEnds(Field(REVIEW, REQUIRED), REQUIRED, e.title, t);
    EitherEnds(Field(RUN_ID, FROM_REVIEW), FROM_REVIEW, e.title, t);
  }

  // ----- What comes after an empty field -----

  lemma NeverIn(next: Pattern, y: string, rest: string)
    ensures Never(Lit("\n", next), y + ("\n" + rest))
            <==> !EndsIn(next, y, rest) && Match(next, rest).None? && Never(Lit("\n", next), rest)
  {
    var t := y + ("\n" + rest);
    LitMatches("\n", next, rest);
    assert t[|y|..] == "\n" + rest;
    hide EndsIn, Match;
    if Never(Lit("\n", next), t) {
      if EndsIn(next, y, rest) {
        var k := EndsEarly(next, y, rest);
        assert false;
      }
      forall k | 0 <= k <= |rest| ensures Match(Lit("\n", next), rest[k..]).None? {
        assert rest[k..] == t[|y| + 1 + k..];
      }
    }
    if !EndsIn(next, y, rest) && Match(next, rest).None? && Never(Lit("\n", next), rest) {
      forall k | 0 <= k <= |t| ensures Match(Lit("\n", next), t[k..]).None? {
        if k < |y| { NotYet(next, y, rest, k); }
        if k > |y| { assert t[k..] == rest[k - |y| - 1..]; }
      }
    }
  }

  lemma EndsAfter(prefix: string, next: Pattern, value: string, rest: string)
    requires NoNewline(prefix)
    ensures EndsIn(next, prefix + value, rest) <==> EndsIn(next, value, rest)
  {
    var line := prefix + value;
    hide Match;
    if EndsIn(next, value, rest) {
      var k :| 0 <= k < |value| && value[k] == '\n' && Match(next, value[k + 1..] + ("\n" + rest)).Some?;
      assert line[|prefix| + k] == '\n' && line[|prefix| + k + 1..] == value[k + 1..];
    }
    if EndsIn(next, line, rest) {
      var k :| 0 <= k < |line| && line[k] == '\n' && Match(next, line[k + 1..] + ("\n" + rest)).Some?;
      assert forall i | 0 <= i < |prefix| :: line[i] == prefix[i] && line[i] != '\n';
      assert value[k - |prefix|] == '\n' && value[k - |prefix| + 1..] == line[k + 1..];
    }
  }

  lemma NeverInBullet(name: string, next: Pattern, value: string, rest: string)
    requires NoNewline(name)
    ensures Never(Lit("\n", next), Bullet(name, value) + rest)
            <==> !EndsIn(next, value, rest) && Match(next, rest).None? && Never(Lit("\n", next), rest)
  {
    var prefix := "- **" + name + "**: ";
    assert Bullet(name, value) + rest == (prefix + value) + ("\n" + rest);
    hide Match, Never, Bullet, EndsIn;
    NeverIn(next, prefix + value, rest);
    EndsAfter(prefix, next, value, rest);
  }

  lemma NothingAfterLast()
    ensures Match(LAST, "\n").None? && Match(Field(WHY, LAST), "\n").None? && NoStar("\n")
    ensures Never(Lit("\n", LAST), "\n") && Never(Lit("\n", Field(WHY, LAST)), "\n")
  {
    assert !Starts(REMEDY, "\n") && !Starts(WHY, "\n") && !Starts(REMEDY, "") && !Starts(WHY, "");
    assert IsSpace('\n') && SpaceRun("\n") == 1;
    hide Match, Starts, Field;
    LastPattern("\n");
    LastPattern("");
    FieldPattern(WHY, LAST, "\n");
    FieldPattern(WHY, LAST, "");
    assert "\n"[0..] == "\n" && "\n"[1..] == "" && "\n" + "" == "\n";
    LitMatches("\n", LAST, "");
    LitMatches("\n", Field(WHY, LAST), "");
    LitFails("\n", LAST, "");
    LitFails("\n", Field(WHY, LAST), "");
    forall k | 0 <= k <= |"\n"|
      ensures Match(Lit("\n", LAST), "\n"[k..]).None? && Match(Lit("\n", Field(WHY, LAST)), "\n"[k..]).None?
    {
      assert k == 0 || k == 1;
    }
  }

  /** After an empty why of the last entry: a bullet inside the remedy passes for its end. */
  lemma AfterEmptyWhy(e: Entry)
    requires Solid(e.remedy)
    ensures Never(Lit("\n", LAST), AfterWhy(e, "")) <==> !LineStarts(REMEDY, e.remedy)
  {
    hide Match, Solid, NoStar, Never, Bullet, EndsIn, LineStarts, NoNewline;
    FieldNames();
    NothingAfterLast();
    assert "\n" + "" == "\n";
    NeverInBullet(REMEDY, LAST, e.remedy, "\n");
    LastEnds(e.remedy, "\n");
  }

  lemma SomeLater(next: Pattern, x: string)
    ensures Match(Space(0, Lazy(0, next)), x).Some? <==> !Never(next, x)
  {
    assert x[0..] == x;
    hide Match, MatchLazy;
    if !Never(next, x) {
      var k :| 0 <= k <= |x| && Match(next, x[k..]).Some?;
      ValueIsSome(0, 0, next, x, 0, k);
    } else {
      SpaceStarts(0, Lazy(0, next), x);
      SpaceFails(next, x, SpaceRun(x));
    }
  }

  lemma {:induction false} SpaceFails(next: Pattern, x: string, n: nat)
    requires Never(next, x) && n <= |x|
    ensures MatchSpace(Space(0, Lazy(0, next)), x, n).None?
    decreases n
  {
    forall k | 0 <= k <= |x[n..]| ensures Match(next, x[n..][k..]).None? { assert x[n..][k..] == x[n + k..]; }
    LazyStarts(0, next, x[n..]);
    LazyFails(0, next, x[n..], 0);
    hide MatchLazy, Never;
    if n > 0 { SpaceFails(next, x, n - 1); }
  }

  lemma WhyLineAt(u: string)
    requires u != "" && Solid(u)
    ensures Match(Field(WHY, LAST), u + ("\n" + "\n")).Some?
            <==> Starts(WHY, u) && LineStarts(REMEDY, AfterLabel(WHY, u))
  {
    hide Match, NoStar, Never, EndsIn, LineStarts, NoNewline, Starts, SpaceRun, Label, IsSpace;
    FieldNames();
    NothingAfterLast();
    NoStraddle(WHY, u, "\n");
    FieldPattern(WHY, LAST, u + ("\n" + "\n"));
    if Starts(WHY, u) {
      var y := AfterLabel(WHY, u);
      SolidAfterLabel(u);
      SomeLater(Lit("\n", LAST), y + ("\n" + "\n"));
      NeverIn(LAST, y, "\n");
      LastEnds(y, "\n");
    }
  }

  lemma SolidAfterLabel(u: string)
    requires Solid(u) && Starts(WHY, u)
    ensures Solid(AfterLabel(WHY, u))
  {
    var y := AfterLabel(WHY, u);
    hide IsSpace, Label;
    if y != "" { assert y[|y| - 1] == u[|u| - 1]; }
  }

  lemma WhyLinesInRemedy(value: string)
    requires Solid(value)
    ensures EndsIn(Field(WHY, LAST), value, "\n") <==> StartsThen(WHY, REMEDY, value)
  {
    hide Solid, Match, Starts, LineStarts, Field;
    forall k | 0 <= k < |value| && value[k] == '\n'
      ensures Match(Field(WHY, LAST), value[k + 1..] + ("\n" + "\n")).Some?
              <==> Starts(WHY, value[k + 1..]) && LineStarts(REMEDY, AfterLabel(WHY, value[k + 1..]))
    {
      LineTail(value, k);
      WhyLineAt(value[k + 1..]);
    }
  }

  /** After an empty flaw of the last entry: a why bullet inside the why, or inside the remedy
      before a remedy bullet, passes for its end. */
  lemma AfterEmptyFlaw(e: Entry)
    requires Solid(e.why) && Solid(e.remedy)
    ensures Never(Lit("\n", Field(WHY, LAST)), AfterFlaw(e, ""))
            <==> !LineStarts(WHY, e.why) && !StartsThen(WHY, REMEDY, e.remedy)
  {
    var next := Field(WHY, LAST);
    hide Match, Solid, NoStar, Never, Bullet, EndsIn, LineStarts, NoNewline, Field, StartsThen;
    FieldNames();
    NothingAfterLast();
    assert "\n" + "" == "\n";
    NeverInBullet(WHY, next, e.why, AfterWhy(e, ""));
    NeverInBullet(REMEDY, next, e.remedy, "\n");
    NotAWhy(e.remedy, "\n");
    PartsMatch(e, "");
    BulletEnds(REMEDY, e.remedy, "\n");
    EndsWithSelf(AfterWhy(e, ""));
    WhyInWhy(e);
    WhyLinesInRemedy(e.remedy);
  }

  lemma EndsWithSelf(t: string)
    ensures EndsWith("\n" + t, "\n" + t)
  {
  }

  lemma WhyInWhy(e: Entry)
    requires Solid(e.why)
    ensures EndsIn(Field(WHY, LAST), e.why, AfterWhy(e, "")) <==> LineStarts(WHY, e.why)
  {
    hide *;
    FieldNames();
    PartsMatch(e, "");
    BulletEnds(REMEDY, e.remedy, "\n" + "");
    EndsWithSelf(AfterWhy(e, ""));
    AfterWhyIs(e, "");
    FieldEnds(WHY, LAST, e.why, AfterWhy(e, ""), AfterWhy(e, ""));
  }

  lemma AfterWhyIs(e: Entry, rest: string)
    ensures AfterWhy(e, rest) == Bullet(REMEDY, e.remedy) + ("\n" + rest)
  {
  }

  lemma NotAWhy(value: string, rest: string)
    ensures Match(Field(WHY, LAST), Bullet(REMEDY, value) + rest).None?
  {
    var s := Bullet(REMEDY, value) + rest;
    var after := " " + (value + ("\n" + rest));
    assert s[1..] == " " + (Label(REMEDY) + after) && AllSpace(" ");
    LabelText(REMEDY);
    assert (Label(REMEDY) + after)[2] == 'R' && Label(WHY)[2] == 'W';
    hide IsSpace, Label, Bullet, Match, SpaceRun;
    SpaceRunStops(" ", Label(REMEDY) + after);
    assert s[1..][1..] == Label(REMEDY) + after;
    FieldPattern(WHY, LAST, s);
  }

  // ----- Fields that come back -----

  /** The lines of the title do not pass for what follows it, and so on field by field; a field
      after the run may be empty only if nothing follows the entry, and no later line of it
      then passes for the end of the empty one. */
  predicate FieldsReadBack(e: Entry, isLast: bool)
  {
    && Trimmed(e.title) && !LineStarts(RUN_ID, e.title) && !LineStarts(REVIEW, e.title) && !LineStarts(FLAW, e.title)
    && Trimmed(e.runId) && !LineStarts(REVIEW, e.runId) && !LineStarts(FLAW, e.runId)
    && (if e.flaw == "" then isLast && !LineStarts(WHY, e.why) && !StartsThen(WHY, REMEDY, e.remedy)
        else Trimmed(e.flaw) && !LineStarts(WHY, e.flaw))
    && (if e.why == "" then isLast && !LineStarts(REMEDY, e.remedy)
        else Trimmed(e.why) && !LineStarts(REMEDY, e.why))
    && (if e.remedy == "" then isLast else Trimmed(e.remedy) && !InnerSection(e.remedy))
  }

  /** The value of a field is what its group holds. */
  ghost predicate Fine(next: Pattern, value: string, rest: string)
  {
    if value == "" then Never(Lit("\n", next), rest) else Trimmed(value) && !EndsIn(next, value, rest)
  }

  predicate RemedyFine(remedy: string, rest: string)
  {
    if remedy == "" then rest == "" else Trimmed(remedy) && !InnerSection(remedy)
  }

  /** The same in terms of the patterns. */
  ghost predicate PartsFine(e: Entry, rest: string)
  {
    && e.title != "" && Fine(FROM_RUN, e.title, AfterTitle(e, rest))
    && e.runId != "" && Fine(FROM_REVIEW, e.runId, AfterRun(e, rest))
    && Fine(Field(WHY, LAST), e.flaw, AfterFlaw(e, rest)) && Fine(LAST, e.why, AfterWhy(e, rest))
    && RemedyFine(e.remedy, rest)
  }

  lemma TrimmedIsSolid(value: string)
    ensures value == "" || Trimmed(value) ==> Solid(value)
    ensures Trimmed(value) ==> value != ""
  {
  }

  /** For the last entry. */
  lemma LastPartsFine(e: Entry)
    ensures PartsFine(e, "") <==> FieldsReadBack(e, true)
  {
    TrimmedIsSolid(e.title);
    TrimmedIsSolid(e.runId);
    TrimmedIsSolid(e.flaw);
    TrimmedIsSolid(e.why);
    TrimmedIsSolid(e.remedy);
    hide Match, Trimmed, Solid, LineStarts, StartsThen, InnerSection, Never, EndsIn;
    hide AfterTitle, AfterRun, AfterReview, AfterFlaw, AfterWhy, Field;
    EndsOfParts(e, "");
    if Solid(e.title) { EndsOfTitle(e, ""); }
    if Solid(e.remedy) {
      AfterEmptyWhy(e);
      if Solid(e.why) { AfterEmptyFlaw(e); }
    }
  }

  /** For an entry another one follows. */
  lemma EarlierPartsFine(e: Entry, later: Entry, rest: string)
    ensures PartsFine(e, Format(later) + ("\n" + rest)) <==> FieldsReadBack(e, false)
  {
    var s := Format(later) + ("\n" + rest);
    TrimmedIsSolid(e.title);
    TrimmedIsSolid(e.runId);
    TrimmedIsSolid(e.flaw);
    TrimmedIsSolid(e.why);
    hide Match, Trimmed, Solid, LineStarts, StartsThen, InnerSection, Never, EndsIn;
    hide AfterTitle, AfterRun, AfterReview, AfterFlaw, AfterWhy, Field, Format;
    EndsOfParts(e, s);
    if Solid(e.title) { EndsOfTitle(e, s); }
    StartsWithHashes(later, rest);
    LaterEnds(e, later, rest);
  }

  lemma StartsWithHashes(e: Entry, rest: string)
    ensures var s := Format(e) + ("\n" + rest); s != "" && Follows(s)
  {
    WholeEntry(e, rest);
    assert ("## " + e.title + "\n" + AfterTitle(e, rest))[..2] == "##";
  }

  /** The next entry holds lines that pass for the end of an empty flaw and of an empty why. */
  lemma LaterEnds(e: Entry, later: Entry, rest: string)
    ensures var s := Format(later) + ("\n" + rest);
            !Never(Lit("\n", Field(WHY, LAST)), AfterFlaw(e, s)) && !Never(Lit("\n", LAST), AfterWhy(e, s))
  {
    var s := Format(later) + ("\n" + rest);
    PartsMatch(later, rest);
    PartsEnd(e, later, rest);
    hide Match, Field, AfterFlaw, AfterWhy, Format, EndsWith;
    LineEndIn(Field(WHY, LAST), AfterFlaw(e, s), AfterFlaw(later, rest));
    LineEndIn(LAST, AfterWhy(e, s), AfterWhy(later, rest));
  }

  lemma PartsEnd(e: Entry, later: Entry, rest: string)
    ensures var s := Format(later) + ("\n" + rest);
            && EndsWith(AfterFlaw(e, s), "\n" + AfterFlaw(later, rest))
            && EndsWith(AfterWhy(e, s), "\n" + AfterWhy(later, rest))
  {
    var s := Format(later) + ("\n" + rest);
    var whyOn, flawOn := "\n" + AfterWhy(later, rest), "\n" + AfterFlaw(later, rest);
    EntryEnds(later, rest);
    hide EndsWith, Bullet, Format;
    EndsWithMore(Bullet(REMEDY, e.remedy) + "\n", s, whyOn);
    EndsWithMore(Bullet(WHY, e.why) + (Bullet(REMEDY, e.remedy) + "\n"), s, flawOn);
    assert AfterWhy(e, s) == (Bullet(REMEDY, e.remedy) + "\n") + s;
    assert AfterFlaw(e, s) == (Bullet(WHY, e.why) + (Bullet(REMEDY, e.remedy) + "\n")) + s;
  }

  lemma EntryEnds(e: Entry, rest: string)
    ensures var s := Format(e) + ("\n" + rest);
            EndsWith(s, "\n" + AfterFlaw(e, rest)) && EndsWith(s, "\n" + AfterWhy(e, rest))
  {
    var whyOn, flawOn := "\n" + AfterWhy(e, rest), "\n" + AfterFlaw(e, rest);
    BulletEnds(WHY, e.why, AfterWhy(e, rest));
    BulletEnds(FLAW, e.flaw, AfterFlaw(e, rest));
    WholeEntry(e, rest);
    hide EndsWith, Bullet, ShowInt, Format, AfterWhy;
    EndsWithMore(Bullet(FLAW, e.flaw), AfterFlaw(e, rest), whyOn);
    var before := "## " + e.title + "\n" + Bullet(RUN_ID, e.runId) + Bullet(REVIEW, ShowInt(e.review));
    assert Format(e) + ("\n" + rest) == before + AfterReview(e, rest);
    EndsWithMore(before, AfterReview(e, rest), whyOn);
    EndsWithMore(before, AfterReview(e, rest), flawOn);
  }

  // ----- Reading one entry -----

  lemma FineMatches(name: string, next: Pattern, value: string, rest: string)
    requires rest != "" && rest[0] == '-' && Match(next, rest).Some? && Fine(next, value, rest)
    ensures var m := Match(next, rest).value;
            Match(Field(name, next), Bullet(name, value) + rest) == Some(Found(m.rest, [Some(value)] + m.groups))
  {
    hide Match, Field, Bullet, Never, EndsIn, Trimmed;
    if value == "" { EmptyFieldMatches(name, next, rest); } else { FieldMatches(name, next, value, rest); }
  }

  /** A value that is not fine is not what is read. */
  lemma Misread(name: string, next: Pattern, value: string, rest: string)
    requires rest != "" && rest[0] == '-' && Match(next, rest).Some? && !Fine(next, value, rest)
    ensures var f := Match(Field(name, next), Bullet(name, value) + rest);
            f.Some? && |f.value.groups| > 0 && f.value.groups[0].Some? && Strip(f.value.groups[0].value) != value
  {
    FieldIsSome(name, next, value, rest);
    var group := Match(Field(name, next), Bullet(name, value) + rest).value.groups[0].value;
    StripIsTrimmed(group);
    hide Match, Field, Bullet, EndsIn, Trimmed, Strip;
    if value == "" {
      var k :| 0 <= k <= |rest| && Match(Lit("\n", next), rest[k..]).Some?;
      var read := EmptyFieldRunsOn(name, next, rest, k);
    } else if Trimmed(value) {
      FieldValue(name, next, value, rest);
      var read := ValueIsCut(0, 0, next, value, rest);
    }
  }

  lemma TitleValue(e: Entry, rest: string)
    ensures Match(SECTION, Format(e) + ("\n" + rest))
            == Match(Space(1, Lazy(1, Lit("\n", FROM_RUN))), " " + (e.title + ("\n" + AfterTitle(e, rest))))
  {
    var s := " " + (e.title + ("\n" + AfterTitle(e, rest)));
    WholeEntry(e, rest);
    assert "## " + e.title + "\n" + AfterTitle(e, rest) == "##" + s;
    hide *;
    LitMatches("##", Space(1, Lazy(1, Lit("\n", FROM_RUN))), s);
    SectionIs();
  }

  lemma SectionIs()
    ensures SECTION == Lit("##", Space(1, Lazy(1, Lit("\n", FROM_RUN))))
  {
  }

  lemma ReviewIsFine(n: int, next: Pattern, rest: string)
    ensures Fine(next, ShowInt(n), rest)
  {
    ShownInt(n);
    hide Match, Trimmed;
  }

  lemma ShownInt(n: int)
    ensures Trimmed(ShowInt(n)) && (forall k | 0 <= k < |ShowInt(n)| :: ShowInt(n)[k] != '\n' && ShowInt(n)[k] != '\r')
    ensures n >= 0 ==> AllDigits(ShowInt(n)) && Read(ShowInt(n)) == n
    ensures n < 0 ==> !AllDigits(ShowInt(n))
  {
    ReadShow(if n < 0 then -n else n);
  }

  /** The first three fields, whatever the required part then reads as. */
  lemma HeadMatches(e: Entry, rest: string)
    requires e.title != "" && Fine(FROM_RUN, e.title, AfterTitle(e, rest))
    requires e.runId != "" && Fine(FROM_REVIEW, e.runId, AfterRun(e, rest))
    ensures var m := Match(REQUIRED, AfterReview(e, rest));
            && m.Some?
            && Match(SECTION, Format(e) + ("\n" + rest))
               == Some(Found(m.value.rest,
                             [Some(e.title)] + ([Some(e.runId)] + ([Some(ShowInt(e.review))] + m.value.groups))))
  {
    StartsWithDash(RUN_ID, e.runId, AfterRun(e, rest));
    StartsWithDash(REVIEW, ShowInt(e.review), AfterReview(e, rest));
    StartsWithDash(FLAW, e.flaw, AfterFlaw(e, rest));
    hide Match, Field, Bullet, ShowInt, EndsIn, Never, Trimmed, Format;
    PartsMatch(e, rest);
    ReviewIsFine(e.review, REQUIRED, AfterReview(e, rest));
    FineMatches(REVIEW, REQUIRED, ShowInt(e.review), AfterReview(e, rest));
    EitherTaken(Field(REVIEW, REQUIRED), NoGroup(REQUIRED), AfterRun(e, rest));
    FineMatches(RUN_ID, FROM_REVIEW, e.runId, AfterRun(e, rest));
    EitherTaken(Field(RUN_ID, FROM_REVIEW), NoGroup(FROM_REVIEW), AfterTitle(e, rest));
    ValueMatches(1, 1, FROM_RUN, e.title, AfterTitle(e, rest));
    TitleValue(e, rest);
  }

  function RemedyGroup(remedy: string, rest: string): string
  {
    if remedy == "" then "" else remedy + if rest == "" then "\n\n" else "\n"
  }

  function GroupsOf(e: Entry, rest: string): seq<Option<string>>
  {
    [Some(e.title), Some(e.runId), Some(ShowInt(e.review)), Some(e.flaw), Some(e.why),
     Some(RemedyGroup(e.remedy, rest))]
  }

  lemma RemedyMatches(e: Entry, rest: string)
    requires Follows(rest) && RemedyFine(e.remedy, rest)
    ensures Match(LAST, AfterWhy(e, rest))
            == Some(Found(if rest == "" then "" else "\n" + rest, [Some(RemedyGroup(e.remedy, rest))]))
  {
    hide Match, Bullet, Trimmed, InnerSection;
    if e.remedy == "" { var group := EmptyRemedy(rest); } else { LastMatches(e.remedy, rest); }
  }

  /** A printed entry whose fields are fine, followed by a blank line, is one match of the
      section pattern with its fields as the groups. */
  lemma SectionMatches(e: Entry, rest: string)
    requires PartsFine(e, rest) && Follows(rest)
    ensures Match(SECTION, Format(e) + ("\n" + rest))
            == Some(Found(if rest == "" then "" else "\n" + rest, GroupsOf(e, rest)))
  {
    StartsWithDash(WHY, e.why, AfterWhy(e, rest));
    StartsWithDash(REMEDY, e.remedy, "\n" + rest);
    hide Match, Field, Bullet, ShowInt, Fine, RemedyFine, Format, RemedyGroup, Follows;
    HeadMatches(e, rest);
    RemedyMatches(e, rest);
    FineMatches(WHY, LAST, e.why, AfterWhy(e, rest));
    FineMatches(FLAW, Field(WHY, LAST), e.flaw, AfterFlaw(e, rest));
    var last := [Some(RemedyGroup(e.remedy, rest))];
    assert [Some(e.title)] + ([Some(e.runId)] + ([Some(ShowInt(e.review))] + ([Some(e.flaw)] + ([Some(e.why)] + last))))
           == GroupsOf(e, rest);
  }

  lemma StripKeeps(value: string)
    requires value == "" || Trimmed(value)
    ensures Strip(value) == value
  {
    if value != "" { StripKeepsTrimmed(value); }
  }

  lemma SectionReadsBack(e: Entry, rest: string, runId: string, review: int)
    requires PartsFine(e, rest)
    ensures EntryOf(GroupsOf(e, rest), runId, review) == Reread(e, review)
  {
    hide Match, EndsIn, Never, InnerSection;
    StripKeeps(e.title);
    StripKeeps(e.runId);
    StripKeeps(e.flaw);
    StripKeeps(e.why);
    StripKeeps(e.remedy);
    if e.remedy != "" {
      StripDropsTrailingSpace(e.remedy, "\n");
      StripDropsTrailingSpace(e.remedy, "\n\n");
    }
    ShownInt(e.review);
    StripKeeps(ShowInt(e.review));
    hide Strip, ShowInt, AllDigits, Read;
  }

  // ----- Reading an entry wrong -----

  /** The first entry read from the text is another one. */
  ghost predicate ReadsWrong(e: Entry, text: string, runId: string, review: int)
  {
    var read := Sections(text, runId, review);
    read != [] && (read[0].title != e.title || read[0].runId != e.runId || read[0].flaw != e.flaw
                   || read[0].why != e.why || read[0].remedy != e.remedy)
  }

  /** As the groups say. */
  predicate Differs(groups: seq<Option<string>>, e: Entry)
  {
    || Stripped(Group(groups, 0)) != e.title || Stripped(Group(groups, 3)) != e.flaw
    || Stripped(Group(groups, 4)) != e.why || Stripped(Group(groups, 5)) != e.remedy
    || (Group(groups, 1).Some? && Group(groups, 1).value != "" && Strip(Group(groups, 1).value) != e.runId)
  }

  lemma WrongGroups(e: Entry, text: string, runId: string, review: int)
    requires text != "" && Match(SECTION, text).Some? && Differs(Match(SECTION, text).value.groups, e)
    ensures ReadsWrong(e, text, runId, review)
  {
    hide Match, Strip, AllDigits, Read;
  }

  /** The text after the label of a field. */
  lemma ValueText(value: string, t: string, k: nat)
    requires t != "" && t[0] == '-' && k <= |t|
    ensures var s := " " + (value + ("\n" + t));
            && s != "" && 1 <= SpaceRun(s) <= 2 + |value| < |s| && s[2 + |value| + k..] == t[k..]
            && (value == "" ==> SpaceRun(s) == 2)
  {
    var s := " " + (value + ("\n" + t));
    assert s[2 + |value| + k..] == t[k..] && s[2 + |value|] == t[0];
    assert IsSpace(' ') && !IsSpace('-') && AllSpace(" \n");
    hide IsSpace;
    assert SpaceRun(s) >= 1;
    if value == "" {
      assert s == " \n" + t;
      SpaceRunStops(" \n", t);
    }
  }

  /** A value that is missing or not fine is not what is read, and something is. */
  lemma ValueMisread(min: nat, next: Pattern, value: string, t: string, end: string)
    requires min <= 1 && t != "" && t[0] == '-' && EndsWith(t, "\n" + end) && Match(next, end).Some?
    requires value == "" || !Fine(next, value, t)
    ensures var f := Match(Space(min, Lazy(min, Lit("\n", next))), " " + (value + ("\n" + t)));
            && f.Some? && |f.value.groups| > 0 && f.value.groups[0].Some? && f.value.groups[0].value != ""
            && Strip(f.value.groups[0].value) != value
  {
    var s, k := " " + (value + ("\n" + t)), |t| - |end| - 1;
    assert Strip("") == "" && (value != "" ==> !Trimmed(value) || EndsIn(next, value, t));
    assert EndsWith(t, "\n" + end) ==> |t| > |end| && t[k] == '\n';
    hide Match, Strip, EndsIn, EndsWith, IsSpace, SpaceRun, Trimmed, Fine;
    LineEndIn(next, t, end);
    ValueText(value, t, k);
    var j := GreedyValue(min, min, next, s, 2 + |value| + k);
    StripIsTrimmed(s[SpaceRun(s)..][..j]);
    if value != "" && Trimmed(value) { var read := ValueIsCut(min, min, next, value, t); }
  }

  lemma TitleMisread(e: Entry, rest: string)
    requires e.title == "" || !Fine(FROM_RUN, e.title, AfterTitle(e, rest))
    ensures var f := Match(SECTION, Format(e) + ("\n" + rest)); f.Some? && Differs(f.value.groups, e)
  {
    hide *;
    AfterTitleStarts(e, rest);
    PartsMatch(e, rest);
    ValueMisread(1, FROM_RUN, e.title, AfterTitle(e, rest), AfterRun(e, rest));
    TitleValue(e, rest);
    FirstDiffers(Match(SECTION, Format(e) + ("\n" + rest)).value.groups, e);
  }

  lemma FirstDiffers(groups: seq<Option<string>>, e: Entry)
    requires |groups| > 0 && groups[0].Some? && Strip(groups[0].value) != e.title
    ensures Differs(groups, e)
  {
    hide Strip;
  }

  lemma AfterTitleStarts(e: Entry, rest: string)
    ensures var t := AfterTitle(e, rest); t != "" && t[0] == '-' && EndsWith(t, "\n" + AfterRun(e, rest))
    ensures var t := AfterRun(e, rest); t != "" && t[0] == '-' && EndsWith(t, "\n" + AfterReview(e, rest))
  {
    hide Bullet, EndsWith, ShowInt;
    StartsWithDash(RUN_ID, e.runId, AfterRun(e, rest));
    BulletEnds(RUN_ID, e.runId, AfterRun(e, rest));
    StartsWithDash(REVIEW, ShowInt(e.review), AfterReview(e, rest));
    BulletEnds(REVIEW, ShowInt(e.review), AfterReview(e, rest));
  }

  lemma RunMisread(e: Entry, rest: string)
    requires e.runId == "" || !Fine(FROM_REVIEW, e.runId, AfterRun(e, rest))
    ensures var f := Match(Field(RUN_ID, FROM_REVIEW), AfterTitle(e, rest));
            && f.Some? && |f.value.groups| > 0 && f.value.groups[0].Some? && f.value.groups[0].value != ""
            && Strip(f.value.groups[0].value) != e.runId
  {
    assert AfterTitle(e, rest) == Bullet(RUN_ID, e.runId) + AfterRun(e, rest);
    hide *;
    AfterTitleStarts(e, rest);
    PartsMatch(e, rest);
    ValueMisread(0, FROM_REVIEW, e.runId, AfterRun(e, rest), AfterReview(e, rest));
    FieldValue(RUN_ID, FROM_REVIEW, e.runId, AfterRun(e, rest));
  }

  /** The required part, when one of its fields is not fine. */
  lemma RequiredMisread(e: Entry, rest: string)
    requires Follows(rest)
    requires !(Fine(Field(WHY, LAST), e.flaw, AfterFlaw(e, rest)) && Fine(LAST, e.why, AfterWhy(e, rest))
               && RemedyFine(e.remedy, rest))
    ensures var f := Match(REQUIRED, AfterReview(e, rest));
            && f.Some?
            && var groups := f.value.groups;
               || Stripped(Group(groups, 0)) != e.flaw || Stripped(Group(groups, 1)) != e.why
               || Stripped(Group(groups, 2)) != e.remedy
  {
    StartsWithDash(WHY, e.why, AfterWhy(e, rest));
    StartsWithDash(REMEDY, e.remedy, "\n" + rest);
    PartsMatch(e, rest);
    hide Match, Field, Bullet, Fine, RemedyFine, Strip, Follows;
    if !Fine(Field(WHY, LAST), e.flaw, AfterFlaw(e, rest)) {
      Misread(FLAW, Field(WHY, LAST), e.flaw, AfterFlaw(e, rest));
    } else {
      FineMatches(FLAW, Field(WHY, LAST), e.flaw, AfterFlaw(e, rest));
      if !Fine(LAST, e.why, AfterWhy(e, rest)) {
        Misread(WHY, LAST, e.why, AfterWhy(e, rest));
      } else {
        FineMatches(WHY, LAST, e.why, AfterWhy(e, rest));
        RemedyMisread(e, rest);
      }
    }
  }

  lemma RemedyMisread(e: Entry, rest: string)
    requires Follows(rest) && !RemedyFine(e.remedy, rest)
    ensures var f := Match(LAST, AfterWhy(e, rest));
            f.Some? && |f.value.groups| > 0 && f.value.groups[0].Some? && Strip(f.value.groups[0].value) != e.remedy
  {
    LastIsSome(e.remedy, rest);
    var group := Match(LAST, AfterWhy(e, rest)).value.groups[0].value;
    StripIsTrimmed(group);
    hide Match, Bullet, Strip, Trimmed, InnerSection;
    if e.remedy == "" {
      var read := EmptyRemedy(rest);
    } else if Trimmed(e.remedy) {
      var read := LastIsCut(e.remedy, rest);
    }
  }

  /** Where some field of an entry is not fine, another entry is read. */
  lemma NotFineReadsWrong(e: Entry, rest: string, runId: string, review: int)
    requires Follows(rest) && !PartsFine(e, rest)
    ensures ReadsWrong(e, Format(e) + ("\n" + rest), runId, review)
  {
    var text := Format(e) + ("\n" + rest);
    StartsWithHashes(e, rest);
    hide Match, Field, Bullet, ShowInt, Fine, RemedyFine, Format, Strip, Follows, ReadsWrong;
    hide AfterTitle, AfterRun, AfterReview, AfterFlaw, AfterWhy;
    if !(e.title != "" && Fine(FROM_RUN, e.title, AfterTitle(e, rest))) {
      TitleMisread(e, rest);
    } else if !(e.runId != "" && Fine(FROM_REVIEW, e.runId, AfterRun(e, rest))) {
      RunMisread(e, rest);
      RunInSection(e, rest);
    } else {
      HeadMatches(e, rest);
      RequiredMisread(e, rest);
      LaterGroups(e, Match(REQUIRED, AfterReview(e, rest)).value.groups);
    }
    WrongGroups(e, text, runId, review);
  }

  lemma RunInSection(e: Entry, rest: string)
    requires e.title != "" && Fine(FROM_RUN, e.title, AfterTitle(e, rest))
    ensures var m := Match(Field(RUN_ID, FROM_REVIEW), AfterTitle(e, rest));
            && m.Some?
            && Match(SECTION, Format(e) + ("\n" + rest)) == Some(Found(m.value.rest, [Some(e.title)] + m.value.groups))
  {
    hide Match, Field, Bullet, Format, EndsIn, Never, AfterTitle;
    PartsMatch(e, rest);
    EitherTaken(Field(RUN_ID, FROM_REVIEW), NoGroup(FROM_REVIEW), AfterTitle(e, rest));
    ValueMatches(1, 1, FROM_RUN, e.title, AfterTitle(e, rest));
    TitleValue(e, rest);
  }

  lemma LaterGroups(e: Entry, groups: seq<Option<string>>)
    ensures var all := [Some(e.title)] + ([Some(e.runId)] + ([Some(ShowInt(e.review))] + groups));
            && Group(all, 3) == Group(groups, 0) && Group(all, 4) == Group(groups, 1)
            && Group(all, 5) == Group(groups, 2)
  {
    hide ShowInt;
  }

  // ----- The whole file -----

  /** What a section reads back as: a negative review number is no run of digits. */
  function Reread(e: Entry, review: int): Entry
  {
    if e.review >= 0 then e else e.(review := review)
  }

  function RereadAll(entries: seq<Entry>, review: int): seq<Entry>
  {
    if entries == [] then [] else [Reread(entries[0], review)] + RereadAll(entries[1..], review)
  }

  /** The entry comes back as it was. */
  predicate ReadsBack(e: Entry, isLast: bool, review: int)
  {
    FieldsReadBack(e, isLast) && (e.review >= 0 || e.review == review)
  }

  lemma BlocksFollow(entries: seq<Entry>)
    ensures Follows(Blocks(entries))
    ensures Blocks(entries) == "" <==> entries == []
  {
    if entries != [] {
      FirstOfBlocks(entries);
      hide Format, Blocks;
      StartsWithHashes(entries[0], Blocks(entries[1..]));
    }
  }

  lemma FirstOfBlocks(entries: seq<Entry>)
    requires entries != []
    ensures Blocks(entries) == Format(entries[0]) + ("\n" + Blocks(entries[1..]))
  {
    hide Format;
  }

  lemma NoSectionAt(s: string)
    requires s != "" && (s[0] != '#' || (|s| > 1 && s[1] != '#'))
    ensures Match(SECTION, s).None?
  {
    hide Match, FROM_RUN;
    assert !StartsWith(s, "##");
    LitFails("##", Space(1, Lazy(1, Lit("\n", FROM_RUN))), s);
  }

  lemma SkipNewline(text: string, runId: string, review: int)
    ensures Sections("\n" + text, runId, review) == Sections(text, runId, review)
  {
    assert ("\n" + text)[1..] == text;
    NoSectionAt("\n" + text);
    hide Match;
  }

  lemma {:induction false} SkipHeading(heading: string, text: string, runId: string, review: int)
    requires forall k | 0 <= k < |heading| :: heading[k] == '#' ==> k + 1 < |heading| && heading[k + 1] != '#'
    ensures Sections(heading + text, runId, review) == Sections(text, runId, review)
  {
    if heading == "" {
      assert heading + text == text;
    } else {
      NoSectionAt(heading + text);
      hide Match;
      assert (heading + text)[1..] == heading[1..] + text;
      SkipHeading(heading[1..], text, runId, review);
    }
  }

  lemma OneSection(text: string, groups: seq<Option<string>>, rest: string, runId: string, review: int)
    requires text != "" && Match(SECTION, text) == Some(Found(rest, groups))
    ensures Sections(text, runId, review) == [EntryOf(groups, runId, review)] + Sections(rest, runId, review)
  {
    hide Match, EntryOf;
  }

  lemma PartsFineIff(entries: seq<Entry>)
    requires entries != []
    ensures PartsFine(entries[0], Blocks(entries[1..])) <==> FieldsReadBack(entries[0], |entries| == 1)
  {
    hide PartsFine, FieldsReadBack, Blocks, Format;
    if |entries| == 1 {
      NoBlocks();
      LastPartsFine(entries[0]);
    } else {
      FirstOfBlocks(entries[1..]);
      EarlierPartsFine(entries[0], entries[1], Blocks(entries[1..][1..]));
    }
  }

  lemma FirstReadsBack(entries: seq<Entry>, runId: string, review: int)
    requires entries != [] && FieldsReadBack(entries[0], |entries| == 1)
    ensures Sections(Blocks(entries), runId, review)
            == [Reread(entries[0], review)] + Sections(Blocks(entries[1..]), runId, review)
  {
    hide *;
    var e, rest := entries[0], Blocks(entries[1..]);
    PartsFineIff(entries);
    BlocksFollow(entries);
    BlocksFollow(entries[1..]);
    FirstOfBlocks(entries);
    SectionMatches(e, rest);
    SectionReadsBack(e, rest, runId, review);
    OneSection(Blocks(entries), GroupsOf(e, rest), if rest == "" then "" else "\n" + rest, runId, review);
    SkipNewline(rest, runId, review);
  }

  lemma {:induction false} BlocksReadBack(entries: seq<Entry>, runId: string, review: int)
    requires forall i | 0 <= i < |entries| :: FieldsReadBack(entries[i], i == |entries| - 1)
    ensures Sections(Blocks(entries), runId, review) == RereadAll(entries, review)
  {
    hide Blocks, FieldsReadBack, Sections;
    if entries == [] {
      NoBlocks();
      NoSections(runId, review);
    } else {
      var later := entries[1..];
      forall i | 0 <= i < |later| ensures FieldsReadBack(later[i], i == |later| - 1) {
        assert FieldsReadBack(entries[i + 1], i + 1 == |entries| - 1);
      }
      assert FieldsReadBack(entries[0], 0 == |entries| - 1);
      FirstReadsBack(entries, runId, review);
      BlocksReadBack(later, runId, review);
    }
  }

  /** The entries come back unchanged exactly when every review number is at least zero or
      the one the parser falls back to. */
  lemma {:induction false} RereadIff(entries: seq<Entry>, review: int)
    ensures RereadAll(entries, review) == entries <==> forall e | e in entries :: e.review >= 0 || e.review == review
  {
    if entries != [] {
      RereadIff(entries[1..], review);
      assert entries == [entries[0]] + entries[1..];
    }
  }

  lemma NoSections(runId: string, review: int)
    ensures Sections("", runId, review) == []
  {
  }

  /** An entry that does not read back is read as another. */
  lemma FirstReadsWrong(entries: seq<Entry>, runId: string, review: int)
    requires entries != [] && !FieldsReadBack(entries[0], |entries| == 1)
    ensures ReadsWrong(entries[0], Blocks(entries), runId, review)
  {
    hide *;
    PartsFineIff(entries);
    BlocksFollow(entries[1..]);
    FirstOfBlocks(entries);
    NotFineReadsWrong(entries[0], Blocks(entries[1..]), runId, review);
  }

  lemma {:induction false} BlocksReadBackIff(entries: seq<Entry>, runId: string, review: int)
    ensures Sections(Blocks(entries), runId, review) == entries
            <==> forall i | 0 <= i < |entries| :: ReadsBack(entries[i], i == |entries| - 1, review)
  {
    hide Blocks, FieldsReadBack, Sections;
    if entries == [] {
      NoBlocks();
      NoSections(runId, review);
    } else {
      var e, later := entries[0], entries[1..];
      assert entries == [e] + later;
      if FieldsReadBack(e, |entries| == 1) {
        FirstReadsBack(entries, runId, review);
        BlocksReadBackIff(later, runId, review);
        FirstAndRest(entries, review);
      } else {
        FirstReadsWrong(entries, runId, review);
        assert !ReadsBack(entries[0], 0 == |entries| - 1, review);
      }
    }
  }

  lemma FirstAndRest(entries: seq<Entry>, review: int)
    requires entries != []
    ensures (forall i | 0 <= i < |entries| :: ReadsBack(entries[i], i == |entries| - 1, review))
            <==> && ReadsBack(entries[0], |entries| == 1, review)
                 && var later := entries[1..];
                    forall i | 0 <= i < |later| :: ReadsBack(later[i], i == |later| - 1, review)
  {
    hide ReadsBack;
    var later := entries[1..];
    if (forall i | 0 <= i < |entries| :: ReadsBack(entries[i], i == |entries| - 1, review)) {
      assert ReadsBack(entries[0], 0 == |entries| - 1, review);
      forall i | 0 <= i < |later| ensures ReadsBack(later[i], i == |later| - 1, review) {
        assert ReadsBack(entries[i + 1], i + 1 == |entries| - 1, review);
      }
    }
    if ReadsBack(entries[0], |entries| == 1, review)
       && forall i | 0 <= i < |later| :: ReadsBack(later[i], i == |later| - 1, review) {
      forall i | 0 <= i < |entries| ensures ReadsBack(entries[i], i == |entries| - 1, review) {
        if i > 0 { assert ReadsBack(later[i - 1], i - 1 == |later| - 1, review); }
      }
    }
  }

  const HEADING := "# Backlog\n\n"

  // ----- Any sequence of appends -----

  function AppendAll(batches: seq<seq<Entry>>): Option<string>
  {
    if batches == [] then None else AfterAppend(AppendAll(batches[..|batches| - 1]), batches[|batches| - 1])
  }

  function Appended(batches: seq<seq<Entry>>): seq<Entry>
  {
    if batches == [] then [] else Appended(batches[..|batches| - 1]) + batches[|batches| - 1]
  }

  predicate NoReturns(s: string)
  {
    forall k | 0 <= k < |s| :: s[k] != '\r'
  }

  lemma {:induction false} UniversalKeeps(s: string)
    requires NoReturns(s)
    ensures Universal(s) == s
  {
    if s != "" { UniversalKeeps(s[1..]); }
  }

  /** read_text leaves the fields as they are. */
  predicate Printed(e: Entry)
  {
    NoReturns(e.title) && NoReturns(e.runId) && NoReturns(e.flaw) && NoReturns(e.why) && NoReturns(e.remedy)
  }

  predicate FullLine(s: string) { NoReturns(s) && EndsWith(s, "\n") }

  lemma FullLines(a: string, b: string)
    requires FullLine(a) && FullLine(b)
    ensures FullLine(a + b)
  {
  }

  lemma FormatHasNoReturns(e: Entry)
    requires Printed(e)
    ensures FullLine(Format(e))
  {
    ShownInt(e.review);
    BulletHasNoReturns(RUN_ID, e.runId);
    BulletHasNoReturns(REVIEW, ShowInt(e.review));
    BulletHasNoReturns(FLAW, e.flaw);
    BulletHasNoReturns(WHY, e.why);
    BulletHasNoReturns(REMEDY, e.remedy);
    var line := "## " + e.title + "\n";
    assert FullLine(line);
    hide FullLine, Bullet, ShowInt;
    FullLines(line, Bullet(RUN_ID, e.runId));
    FullLines(line + Bullet(RUN_ID, e.runId), Bullet(REVIEW, ShowInt(e.review)));
    var lines := line + Bullet(RUN_ID, e.runId) + Bullet(REVIEW, ShowInt(e.review));
    FullLines(lines, Bullet(FLAW, e.flaw));
    FullLines(lines + Bullet(FLAW, e.flaw), Bullet(WHY, e.why));
    FullLines(lines + Bullet(FLAW, e.flaw) + Bullet(WHY, e.why), Bullet(REMEDY, e.remedy));
  }

  lemma BulletHasNoReturns(name: string, value: string)
    requires NoReturns(name) && NoReturns(value)
    ensures FullLine(Bullet(name, value))
  {
  }

  lemma {:induction false} TextAfter(text: string, entries: seq<Entry>)
    requires NoReturns(text) && EndsWith(text, "\n\n") && forall e | e in entries :: Printed(e)
    ensures NoReturns(text + Blocks(entries)) && EndsWith(text + Blocks(entries), "\n\n")
    decreases |entries|
  {
    hide Format, Printed;
    if entries == [] {
      assert text + Blocks(entries) == text;
    } else {
      var e := entries[0];
      FormatHasNoReturns(e);
      var block := Format(e) + "\n";
      assert (text + block) + Blocks(entries[1..]) == text + Blocks(entries);
      TextAfter(text + block, entries[1..]);
    }
  }

  lemma {:induction false} BlocksConcat(a: seq<Entry>, b: seq<Entry>)
    ensures Blocks(a + b) == Blocks(a) + Blocks(b)
  {
    hide Format;
    if a == [] {
      assert a + b == b;
    } else {
      assert (a + b)[1..] == a[1..] + b;
      BlocksConcat(a[1..], b);
    }
  }

  lemma AppendToText(text: string, entries: seq<Entry>)
    requires NoReturns(text) && EndsWith(text, "\n\n")
    ensures AfterAppend(Some(text), entries) == Some(text + Blocks(entries))
  {
    hide Blocks;
    UniversalKeeps(text);
    NoBlocks();
    assert text + "" == text && EndsWith(text, "\n");
  }

  lemma AppendToNothing(entries: seq<Entry>)
    ensures AfterAppend(None, entries) == if entries == [] then None else Some(HEADING + Blocks(entries))
  {
    hide Blocks;
  }

  /** From no file, the file holds the heading and the entries appended, if any were. */
  lemma {:induction false} ContentAfter(batches: seq<seq<Entry>>)
    requires forall e | e in Appended(batches) :: Printed(e)
    ensures AppendAll(batches)
            == if Appended(batches) == [] then None else Some(HEADING + Blocks(Appended(batches)))
  {
    hide Printed, Blocks, AfterAppend, Universal, NoReturns, EndsWith;
    if batches != [] {
      var before, now := Appended(batches[..|batches| - 1]), batches[|batches| - 1];
      ContentAfter(batches[..|batches| - 1]);
      if before == [] {
        AppendToNothing(now);
        assert before + now == now;
      } else {
        HeadingIsText();
        TextAfter(HEADING, before);
        AppendToText(HEADING + Blocks(before), now);
        BlocksConcat(before, now);
        assert HEADING + Blocks(before) + Blocks(now) == HEADING + (Blocks(before) + Blocks(now));
      }
    }
  }

  lemma HeadingIsText()
    ensures NoReturns(HEADING) && EndsWith(HEADING, "\n\n")
  {
  }

  /** After any appends starting from no file, of entries whose fields come back, whatever lines
      they have, the sections of the file as it is read are exactly the entries appended, in
      order; a review number below zero reads back as the number the caller passes. */
  lemma BacklogRoundTrip(batches: seq<seq<Entry>>, runId: string, review: int)
    requires Appended(batches) != [] && forall e | e in Appended(batches) :: Printed(e)
    requires var entries := Appended(batches);
             forall i | 0 <= i < |entries| :: FieldsReadBack(entries[i], i == |entries| - 1)
    ensures var file := AppendAll(batches);
            file.Some? && Sections(Universal(file.value), runId, review) == RereadAll(Appended(batches), review)
  {
    var entries := Appended(batches);
    FileReads(batches, runId, review);
    hide *;
    BlocksReadBack(entries, runId, review);
  }

  lemma FileReads(batches: seq<seq<Entry>>, runId: string, review: int)
    requires Appended(batches) != [] && forall e | e in Appended(batches) :: Printed(e)
    ensures var file := AppendAll(batches);
            && file.Some?
            && Sections(Universal(file.value), runId, review) == Sections(Blocks(Appended(batches)), runId, review)
  {
    var entries := Appended(batches);
    hide Printed, Blocks, Sections, Appended, AppendAll, Universal, Match;
    HeadingIsText();
    SkipHeading(HEADING, Blocks(entries), runId, review);
    hide *;
    ContentAfter(batches);
    TextAfter(HEADING, entries);
    UniversalKeeps(HEADING + Blocks(entries));
  }

  /** After any appends starting from no file, of any entries without carriage returns, the
      sections of the file as it is read are the entries appended exactly when no field has
      white space around it or a line that passes for what follows the field, fields after
      the run are empty only in the last entry, where no later line passes for their end, and
      every review number is at least zero or the one the parser falls back to. */
  lemma BacklogRoundTripIff(batches: seq<seq<Entry>>, runId: string, review: int)
    requires Appended(batches) != [] && forall e | e in Appended(batches) :: Printed(e)
    ensures var file, entries := AppendAll(batches), Appended(batches);
            && file.Some?
            && (Sections(Universal(file.value), runId, review) == entries
                <==> forall i | 0 <= i < |entries| :: ReadsBack(entries[i], i == |entries| - 1, review))
  {
    FileReads(batches, runId, review);
    hide *;
    BlocksReadBackIff(Appended(batches), runId, review);
  }
}
