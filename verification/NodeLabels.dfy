/**
 Matching pytest node IDs with coverage context labels (scripts/build_test_map.py).
 */
module NodeLabels {
  import opened Text

  /** Where `sep` first occurs in s; |s| when it does not. */
  function Find(s: string, sep: string): (i: nat)
    requires sep != ""
    ensures i <= |s|
    ensures i < |s| ==> i + |sep| <= |s| && s[i..i + |sep|] == sep && s[i] == sep[0]
    ensures forall j | 0 <= j < i :: !StartsWith(s[j..], sep)
  {
    if s == "" then 0
    else if StartsWith(s, sep) then 0
    else
      assert forall j | 1 <= j :: j <= |s| ==> s[j..] == s[1..][j - 1..];
      1 + Find(s[1..], sep)
  }

  predicate Contains(s: string, sep: string)
    requires sep != ""
  {
    Find(s, sep) < |s|
  }

  /** s.split(sep). */
  function Split(s: string, sep: string): (parts: seq<string>)
    requires sep != ""
    ensures parts != []
    decreases |s|
  {
    var i := Find(s, sep);
    if i == |s| then [s] else [s[..i]] + Split(s[i + |sep|..], sep)
  }

  /** sep.join(parts). */
  function JoinWith(parts: seq<string>, sep: string): string
  {
    if parts == [] then "" else if |parts| == 1 then parts[0] else parts[0] + sep + JoinWith(parts[1..], sep)
  }

  /** The last component of a path; empty and "." components do not count. */
  function LastName(parts: seq<string>): string
  {
    if parts == [] then ""
    else if parts[|parts| - 1] == "" || parts[|parts| - 1] == "." then LastName(parts[..|parts| - 1])
    else parts[|parts| - 1]
  }

  function LastDot(name: string): int
  {
    if name == "" then -1 else if name[|name| - 1] == '.' then |name| - 1 else LastDot(name[..|name| - 1])
  }

  /** PurePosixPath(path).stem. */
  function Stem(path: string): string
  {
    var name := LastName(Split(path, "/"));
    var dot := LastDot(name);
    if 0 < dot < |name| - 1 then name[..dot] else name
  }

  function Quals(parts: seq<string>): seq<string>
  {
    if parts == [] then [] else [Split(parts[0], "[")[0]] + Quals(parts[1..])
  }

  /** The label a node's context ends with: module stem and qualified name, no parameters. */
  function Dotted(node: string): string
  {
    var i := Find(node, "::");
    JoinWith([Stem(node[..i])] + if i < |node| then Quals(Split(node[i + 2..], "::")) else [], ".")
  }

  predicate Matches(tag: string, node: string)
  {
    tag == Dotted(node) || EndsWith(tag, "." + Dotted(node))
  }

  /** The file a node ID starts with. */
  function FileOf(node: string): string
  {
    Split(node, "::")[0]
  }

  // ----- Parametrized tests -----

  predicate Without(s: string, c: char)
  {
    forall k | 0 <= k < |s| :: s[k] != c
  }

  lemma FirstAt(s: string, sep: string, i: nat)
    requires sep != "" && i + |sep| <= |s| && s[i..i + |sep|] == sep
    requires forall k | 0 <= k < i :: s[k] != sep[0]
    ensures Find(s, sep) == i
  {
    var f := Find(s, sep);
    assert s[i..][..|sep|] == sep;
    assert StartsWith(s[i..], sep);
  }

  lemma NeverAt(s: string, sep: string)
    requires sep != "" && Without(s, sep[0])
    ensures Find(s, sep) == |s|
  {
    var f := Find(s, sep);
  }

  /** A qualifier with parameters, or with the part of them before a "::", is cut at the bracket. */
  lemma CutAtBracket(qual: string, params: string)
    requires Without(qual, '[')
    ensures Split(qual + "[" + params, "[")[0] == qual && Split(qual, "[") == [qual]
  {
    var s := qual + "[" + params;
    assert s[|qual|..|qual| + 1] == "[";
    FirstAt(s, "[", |qual|);
    assert s[..|qual|] == qual;
    NeverAt(qual, "[");
  }

  predicate ColonsAt(s: string, i: int)
  {
    0 <= i < |s| - 1 && s[i] == ':' && s[i + 1] == ':'
  }

  lemma FirstColons(s: string)
    ensures var f := Find(s, "::"); f < |s| ==> ColonsAt(s, f)
    ensures forall i | ColonsAt(s, i) :: Find(s, "::") <= i
  {
    var f := Find(s, "::");
    hide Find, StartsWith;
    if f < |s| { assert s[f..f + 2][0] == s[f] && s[f..f + 2][1] == s[f + 1]; }
    forall i | ColonsAt(s, i) ensures f <= i { ColonsStart(s, i); }
  }

  lemma ColonsStart(s: string, i: nat)
    requires ColonsAt(s, i)
    ensures StartsWith(s[i..], "::")
  {
    assert s[i..][..2] == "::";
  }

  /** Where the first "::" of "qual[params]" is, if anywhere. */
  lemma FindInParams(qual: string, params: string)
    requires Without(qual, ':')
    ensures var s, i := qual + "[" + params + "]", Find(params, "::");
            Find(s, "::") == if i < |params| then |qual| + 1 + i else |s|
  {
    hide Find;
    var s := qual + "[" + params + "]";
    FirstColons(s);
    FirstColons(params);
    assert forall k | 0 <= k < |params| :: s[|qual| + 1 + k] == params[k];
    assert forall k | 0 <= k < |qual| :: s[k] == qual[k];
    var f, i := Find(s, "::"), Find(params, "::");
    if i < |params| { assert ColonsAt(s, |qual| + 1 + i); }
    if f < |s| { assert ColonsAt(params, f - |qual| - 1); }
  }

  lemma {:induction false} LongerJoin(parts: seq<string>, more: seq<string>)
    requires parts != [] && more != []
    ensures |JoinWith(parts + more, ".")| > |JoinWith(parts, ".")|
  {
    if |parts| == 1 {
      assert (parts + more)[1..] == more;
    } else {
      assert (parts + more)[1..] == parts[1..] + more;
      LongerJoin(parts[1..], more);
    }
  }

  function Node(file: string, qual: string): string { file + "::" + qual }

  /** The qualified name of a test inside classes. */
  function Nested(outer: seq<string>, last: string): string
  {
    if outer == [] then last else outer[0] + "::" + Nested(outer[1..], last)
  }

  /** The first "::" of a node ID is the one after the file. */
  predicate FileName(file: string) { !Contains(file + ":", "::") }

  lemma DottedNode(file: string, tail: string)
    requires FileName(file)
    ensures Dotted(Node(file, tail)) == JoinWith([Stem(file)] + Quals(Split(tail, "::")), ".")
  {
    var node, marked := Node(file, tail), file + ":";
    FirstColons(node);
    FirstColons(marked);
    assert forall k | 0 <= k <= |file| :: node[k] == marked[k];
    assert ColonsAt(node, |file|);
    var i := Find(node, "::");
    forall k | 0 <= k < |file| ensures !ColonsAt(node, k) { assert ColonsAt(node, k) == ColonsAt(marked, k); }
    assert node[..|file|] == file && node[|file| + 2..] == tail;
    hide Find, Split, Stem, Quals;
  }

  /** Parameters of a test, whatever classes it is in, do not change the label it is matched
      with, exactly when they do not contain "::": after one, the rest of the parameters
      passes for more qualifiers. */
  lemma SiblingsShareTheLabel(file: string, outer: seq<string>, qual: string, params: string)
    requires FileName(file) && Identifier(qual) && forall k | 0 <= k < |outer| :: Identifier(outer[k])
    ensures Dotted(Node(file, Nested(outer, qual + "[" + params + "]"))) == Dotted(Node(file, Nested(outer, qual)))
            <==> !Contains(params, "::")
  {
    hide *;
    DottedNode(file, Nested(outer, qual + "[" + params + "]"));
    DottedNode(file, Nested(outer, qual));
    var rest := NestedQuals(outer, qual, params);
    var parts := [Stem(file)] + (outer + [qual]);
    assert [Stem(file)] + ((outer + [qual]) + rest) == parts + rest;
    if rest != [] {
      LongerJoin(parts, rest);
    } else {
      assert parts + rest == parts;
    }
  }

  /** A name in a qualified name. */
  predicate Identifier(name: string) { Without(name, ':') && Without(name, '[') }

  lemma {:induction false} NestedQuals(outer: seq<string>, qual: string, params: string) returns (rest: seq<string>)
    requires Identifier(qual) && forall k | 0 <= k < |outer| :: Identifier(outer[k])
    ensures Quals(Split(Nested(outer, qual), "::")) == outer + [qual]
    ensures Quals(Split(Nested(outer, qual + "[" + params + "]"), "::")) == (outer + [qual]) + rest
    ensures rest == [] <==> !Contains(params, "::")
  {
    hide Quals, Split, Contains, Without;
    if outer == [] {
      rest := TailQuals(qual, params);
      assert outer + [qual] == [qual];
    } else {
      rest := NestedQuals(outer[1..], qual, params);
      OuterQual(outer[0], Nested(outer[1..], qual));
      OuterQual(outer[0], Nested(outer[1..], qual + "[" + params + "]"));
      assert [outer[0]] + (outer[1..] + [qual]) == outer + [qual];
      assert [outer[0]] + ((outer[1..] + [qual]) + rest) == (outer + [qual]) + rest;
    }
  }

  lemma OuterQual(name: string, tail: string)
    requires Identifier(name)
    ensures Quals(Split(name + "::" + tail, "::")) == [name] + Quals(Split(tail, "::"))
  {
    var s := name + "::" + tail;
    assert s[|name|..|name| + 2] == "::";
    FirstAt(s, "::", |name|);
    assert s[..|name|] == name && s[|name| + 2..] == tail;
    assert Split(s, "::") == [name] + Split(tail, "::");
    CutAtBracket(name, "");
    assert ([name] + Split(tail, "::"))[1..] == Split(tail, "::");
    hide Split, Find;
  }

  lemma TailQuals(qual: string, params: string) returns (rest: seq<string>)
    requires Identifier(qual)
    ensures Quals(Split(qual, "::")) == [qual] && Quals(Split(qual + "[" + params + "]", "::")) == [qual] + rest
    ensures rest == [] <==> !Contains(params, "::")
  {
    OneQual(qual, params);
    WholeSplits(qual, params);
    hide Quals, Split, Find, Contains;
    rest := [];
    assert [qual] + [] == [qual];
    if Contains(params, "::") { rest := MoreQuals(qual, params); }
  }

  lemma WholeSplits(qual: string, params: string)
    requires Without(qual, ':')
    ensures Split(qual, "::") == [qual]
    ensures !Contains(params, "::") ==> Split(qual + "[" + params + "]", "::") == [qual + "[" + params + "]"]
  {
    FindInParams(qual, params);
    NeverAt(qual, "::");
  }

  lemma OneQual(qual: string, params: string)
    requires Without(qual, '[')
    ensures Quals([qual]) == Quals([qual + "[" + params + "]"]) == [qual]
  {
    CutAtBracket(qual, params + "]");
    assert qual + "[" + (params + "]") == qual + "[" + params + "]";
    hide Split;
    assert [qual][1..] == [] && [qual + "[" + params + "]"][1..] == [];
  }

  lemma MoreQuals(qual: string, params: string) returns (rest: seq<string>)
    requires Without(qual, ':') && Without(qual, '[') && Contains(params, "::")
    ensures rest != [] && Quals(Split(qual + "[" + params + "]", "::")) == [qual] + rest
  {
    var tail := qual + "[" + params + "]";
    FirstPart(qual, params);
    var later := SplitRest(tail, "::");
    hide Split, Find;
    rest := QualsRest(tail[..Find(tail, "::")], later);
  }

  lemma FirstPart(qual: string, params: string)
    requires Without(qual, ':') && Without(qual, '[') && Contains(params, "::")
    ensures var tail := qual + "[" + params + "]";
            Contains(tail, "::") && Split(tail[..Find(tail, "::")], "[")[0] == qual
  {
    var tail, i := qual + "[" + params + "]", Find(params, "::");
    FindInParams(qual, params);
    CutAtBracket(qual, params[..i]);
    assert tail[..|qual| + 1 + i] == qual + "[" + params[..i];
  }

  lemma SplitRest(s: string, sep: string) returns (later: seq<string>)
    requires sep != "" && Contains(s, sep)
    ensures later != [] && Split(s, sep) == [s[..Find(s, sep)]] + later
  {
    later := Split(s[Find(s, sep) + |sep|..], sep);
  }

  lemma QualsRest(first: string, later: seq<string>) returns (rest: seq<string>)
    requires later != []
    ensures rest != [] && Quals([first] + later) == [Split(first, "[")[0]] + rest
  {
    hide Split;
    assert ([first] + later)[1..] == later;
    rest := Quals(later);
  }
}
