/**
 The labels coverage gives the tests of an ordinary node ID, said of the names in it, and the index
 said of those labels (scripts/build_test_map.py).
 */
module LabelLaw {
  import opened CoverageIndex
  import opened NodeLabels
  import opened Sorting
  import opened Text
  import opened Wrappers

  // ----- Labels -----

  /** A test by its names: module file "stem.ext" in some directory, classes, test, parameters if any. */
  datatype Test = Test(directory: string, stem: string, ext: string, classes: seq<string>, name: string,
                       params: Option<string>)

  /** "::" and each name in turn. */
  function Colons(names: seq<string>): string
  {
    if names == [] then "" else "::" + names[0] + Colons(names[1..])
  }

  function Dots(names: seq<string>): string
  {
    if names == [] then "" else "." + names[0] + Dots(names[1..])
  }

  function File(t: Test): string { t.directory + t.stem + "." + t.ext }

  function NodeId(t: Test): string
  {
    File(t) + Colons(t.classes) + "::" + t.name + if t.params.Some? then "[" + t.params.value + "]" else ""
  }

  /** The module, the classes and the test, without directory, extension or parameters. */
  function LabelFor(t: Test): string { t.stem + Dots(t.classes) + "." + t.name }

  predicate HasColons(s: string) { exists i :: 0 <= i < |s| - 1 && s[i] == ':' && s[i + 1] == ':' }

  predicate PlainName(name: string) { forall k | 0 <= k < |name| :: name[k] != ':' && name[k] != '[' }

  /** The directory is empty or ends with "/", the extension is what follows the last dot of the file's
      name, no "::" comes before the first class, and none is in the parameters. */
  predicate Ordinary(t: Test)
  {
    && (t.directory == "" || t.directory[|t.directory| - 1] == '/')
    && t.stem != "" && '/' !in t.stem && t.ext != "" && '/' !in t.ext && '.' !in t.ext
    && !HasColons(File(t) + ":")
    && PlainName(t.name) && (forall k | 0 <= k < |t.classes| :: PlainName(t.classes[k]))
    && (t.params.Some? ==> !HasColons(t.params.value))
  }

  /** The tag is the label, or ends with a dot and the label. */
  ghost predicate Carries(tag: string, name: string)
  {
    tag == name || exists before :: tag == before + "." + name
  }

  lemma FirstSlash(directory: string, name: string)
    requires directory != "" && directory[|directory| - 1] == '/'
    ensures Find(directory + name, "/") == Find(directory, "/") < |directory|
  {
    var s, i := directory + name, Find(directory, "/");
    assert StartsWith(directory[|directory| - 1..], "/");
    hide Find;
    assert s[i..i + 1] == directory[i..i + 1];
    forall k | 0 <= k < i ensures s[k] != '/' {
      assert directory[k] == '/' <==> StartsWith(directory[k..], "/");
    }
    FirstAt(s, "/", i);
  }

  lemma {:induction false} SplitEnds(directory: string, name: string)
    requires directory == "" || directory[|directory| - 1] == '/'
    requires '/' !in name
    ensures var parts := Split(directory + name, "/"); parts[|parts| - 1] == name
    decreases |directory|
  {
    hide Find;
    var s := directory + name;
    if directory == "" {
      assert s == name;
      NeverAt(name, "/");
    } else {
      var i := Find(directory, "/");
      FirstSlash(directory, name);
      assert s[i + 1..] == directory[i + 1..] + name;
      SplitEnds(directory[i + 1..], name);
    }
  }

  lemma {:induction false} LastDotIs(stem: string, ext: string)
    requires '.' !in ext
    ensures LastDot(stem + "." + ext) == |stem|
    decreases |ext|
  {
    var name := stem + "." + ext;
    if ext != "" {
      assert name[..|name| - 1] == stem + "." + ext[..|ext| - 1];
      assert name[|name| - 1] == ext[|ext| - 1];
      LastDotIs(stem, ext[..|ext| - 1]);
    }
  }

  lemma {:induction false} LastDotIff(name: string)
    ensures var k := LastDot(name);
            -1 <= k < |name| && (k >= 0 ==> name[k] == '.') && forall i | k < i < |name| :: name[i] != '.'
  {
    if name != "" { LastDotIff(name[..|name| - 1]); }
  }

  /** The name is those two parts, neither empty, around its last dot. */
  predicate Parts(name: string, before: string, ext: string)
  {
    name == before + "." + ext && before != "" && ext != "" && '.' !in ext
  }

  /** A file's stem is what is before the last dot of its name, if there is something on both sides of
      that dot, and the whole name otherwise, whatever directory it is in. */
  lemma StemIff(directory: string, name: string, stem: string)
    requires (directory == "" || directory[|directory| - 1] == '/') && '/' !in name && name != "" && name != "."
    ensures Stem(directory + name) == stem
            <==> || (exists ext :: Parts(name, stem, ext))
                 || (stem == name && forall before, ext :: !Parts(name, before, ext))
  {
    hide Split, LastDot, Find, HasColons;
    SplitEnds(directory, name);
    var parts := Split(directory + name, "/");
    assert LastName(parts) == name;
    hide LastName;
    var k := LastDot(name);
    LastDotIff(name);
    forall before, ext | name == before + "." + ext && '.' !in ext ensures |before| == k {
      LastDotIs(before, ext);
    }
    if 0 < k < |name| - 1 {
      assert name == name[..k] + "." + name[k + 1..];
      assert Parts(name, name[..k], name[k + 1..]);
      forall before, more | Parts(name, before, more) ensures before == name[..k] {}
    }
  }

  lemma StemIs(t: Test)
    requires Ordinary(t)
    ensures Stem(File(t)) == t.stem
  {
    var name := t.stem + "." + t.ext;
    assert |name| > 1 && File(t) == t.directory + name;
    assert '/' !in name && Parts(name, t.stem, t.ext);
    hide Split, Find, HasColons, PlainName, Stem;
    StemIff(t.directory, name, t.stem);
  }

  lemma ColonsIff(s: string)
    ensures Contains(s, "::") <==> HasColons(s)
  {
    FirstColons(s);
    hide Find;
    if HasColons(s) {
      var i :| 0 <= i < |s| - 1 && s[i] == ':' && s[i + 1] == ':';
      assert ColonsAt(s, i);
    }
  }

  lemma {:induction false} ColonsNest(classes: seq<string>, last: string)
    ensures Colons(classes) + "::" + last == "::" + Nested(classes, last)
  {
    if classes != [] {
      ColonsNest(classes[1..], last);
      assert Colons(classes) + "::" + last == "::" + classes[0] + (Colons(classes[1..]) + "::" + last);
    } else {
      assert Colons(classes) + "::" + last == "::" + last;
    }
  }

  lemma {:induction false} DotsJoin(stem: string, classes: seq<string>, name: string)
    ensures JoinWith([stem] + (classes + [name]), ".") == stem + Dots(classes) + "." + name
    decreases |classes|
  {
    var parts := [stem] + (classes + [name]);
    assert parts[1..] == classes + [name];
    if classes == [] {
      assert parts[1..] == [name];
      assert stem + Dots(classes) + "." + name == stem + "." + name;
    } else {
      assert classes + [name] == [classes[0]] + (classes[1..] + [name]);
      DotsJoin(classes[0], classes[1..], name);
      assert stem + "." + (classes[0] + Dots(classes[1..]) + "." + name) == stem + Dots(classes) + "." + name;
    }
  }

  /** The label a node is matched with is its module, classes and test joined by dots. */
  lemma DottedIs(t: Test)
    requires Ordinary(t)
    ensures Dotted(NodeId(t)) == LabelFor(t)
  {
    hide Dotted, Stem, Split, Find, Quals, JoinWith, Nested, Contains, File, Without, PlainName, Identifier, EndsWith;
    assert !HasColons("");
    hide HasColons;
    var params := if t.params.Some? then t.params.value else "";
    var last := if t.params.Some? then t.name + "[" + params + "]" else t.name;
    ColonsNest(t.classes, last);
    assert NodeId(t) == Node(File(t), Nested(t.classes, last)) by {
      assert NodeId(t) == File(t) + (Colons(t.classes) + "::" + last);
    }
    ColonsIff(File(t) + ":");
    ColonsIff(params);
    assert FileName(File(t));
    hide FileName;
    DottedNode(File(t), Nested(t.classes, last));
    StemIs(t);
    forall k | 0 <= k < |t.classes| ensures Identifier(t.classes[k]) { IdentifierIs(t.classes[k]); }
    IdentifierIs(t.name);
    var rest := NestedQuals(t.classes, t.name, params);
    assert (t.classes + [t.name]) + rest == t.classes + [t.name];
    DotsJoin(t.stem, t.classes, t.name);
  }

  lemma IdentifierIs(name: string)
    requires PlainName(name)
    ensures Identifier(name)
  {
  }

  /** A context belongs to an ordinary test exactly when it is named by the test's label, whatever
      package it was imported from. */
  lemma LabelIff(tag: string, t: Test)
    requires Ordinary(t)
    ensures Matches(tag, NodeId(t)) <==> Carries(tag, LabelFor(t))
  {
    DottedIs(t);
    SuffixIff(tag, LabelFor(t));
    hide Dotted, NodeId, LabelFor, Ordinary, EndsWith, Carries;
  }

  lemma SuffixIff(tag: string, name: string)
    ensures tag == name || EndsWith(tag, "." + name) <==> Carries(tag, name)
  {
    var dotted := "." + name;
    if EndsWith(tag, dotted) {
      var before := tag[..|tag| - |dotted|];
      assert tag == before + "." + name;
    }
    if Carries(tag, name) && tag != name {
      var before :| tag == before + "." + name;
      assert tag[|tag| - |dotted|..] == dotted;
    }
  }

  lemma SplitHead(s: string, sep: string)
    requires sep != ""
    ensures Split(s, sep)[0] == s[..Find(s, sep)]
  {
    hide Find;
  }

  lemma FirstColonsAt(file: string, tail: string)
    requires !HasColons(file + ":")
    ensures Find(file + "::" + tail, "::") == |file|
  {
    var node, marked := file + "::" + tail, file + ":";
    FirstColons(node);
    hide Find;
    assert ColonsAt(node, |file|);
    assert forall k | 0 <= k <= |file| :: node[k] == marked[k];
  }

  /** The file of an ordinary test is found again in its node ID. */
  lemma FileIs(t: Test)
    requires Ordinary(t)
    ensures FileOf(NodeId(t)) == File(t)
  {
    hide Find, Split, HasColons, PlainName, File, Stem, Quals, Dots;
    var last := t.name + if t.params.Some? then "[" + t.params.value + "]" else "";
    var tail := if t.classes == [] then last else t.classes[0] + Colons(t.classes[1..]) + "::" + last;
    assert NodeId(t) == File(t) + (Colons(t.classes) + "::" + last);
    assert Colons(t.classes) + "::" + last == "::" + tail;
    assert NodeId(t) == File(t) + "::" + tail;
    SplitHead(NodeId(t), "::");
    FirstColonsAt(File(t), tail);
    assert (File(t) + "::" + tail)[..|File(t)|] == File(t);
  }

  // ----- The index -----

  /** A context of the test executed the line. */
  ghost predicate Ran(rows: seq<Row>, contexts: map<int, string>, line: int, t: Test)
  {
    exists k :: 0 <= k < |rows| && line in rows[k].lines && InContext(rows[k].context, contexts, t)
  }

  ghost predicate InContext(context: int, contexts: map<int, string>, t: Test)
  {
    context in contexts && Carries(contexts[context], LabelFor(t))
  }

  lemma InContextIff(context: int, contexts: map<int, string>, t: Test)
    requires Ordinary(t)
    ensures LabelOf(contexts, context) != "" && Matches(LabelOf(contexts, context), NodeId(t))
            <==> InContext(context, contexts, t)
  {
    LabelIff(LabelOf(contexts, context), t);
    NeverUnnamed(t);
    hide Ordinary, LabelFor, NodeId, Carries, Matches;
  }

  lemma NeverUnnamed(t: Test)
    ensures !Carries("", LabelFor(t))
  {
    forall before: string ensures before + "." + LabelFor(t) != "" {
      assert |before + "." + LabelFor(t)| > 0;
    }
    assert |LabelFor(t)| > 0;
  }

  lemma RanIff(rows: seq<Row>, contexts: map<int, string>, line: int, t: Test)
    requires Ordinary(t)
    ensures Covers(rows, contexts, line, NodeId(t)) <==> Ran(rows, contexts, line, t)
  {
    forall k | 0 <= k < |rows| { InContextIff(rows[k].context, contexts, t); }
    hide Ordinary, NodeId, LabelOf, Matches, InContext;
    if Covers(rows, contexts, line, NodeId(t)) {
      var k :| 0 <= k < |rows| && line in rows[k].lines && RowMatches(rows[k], contexts, NodeId(t));
      assert InContext(rows[k].context, contexts, t);
    }
    if Ran(rows, contexts, line, t) {
      var k :| 0 <= k < |rows| && line in rows[k].lines && InContext(rows[k].context, contexts, t);
      assert RowMatches(rows[k], contexts, NodeId(t));
    }
  }

  lemma LabelledIff(nodes: seq<string>, nodeIds: seq<string>, contexts: map<int, string>, t: Test)
    requires RightNodes(nodes, nodeIds, contexts) && Ordinary(t)
    ensures NodeId(t) in nodes <==> NodeId(t) in nodeIds && exists c :: InContext(c, contexts, t)
  {
    forall c { InContextIff(c, contexts, t); }
    hide Ordinary, NodeId, Matches, InContext;
    if tag :| tag in Labels(NodeId(t), Observed(contexts)) {
      var c :| c in contexts && contexts[c] == tag;
      assert InContext(c, contexts, t);
    }
    if c :| InContext(c, contexts, t) {
      assert c in contexts && contexts[c] in Observed(contexts);
      assert contexts[c] in Labels(NodeId(t), Observed(contexts));
    }
  }

  /** A collected test ran on some line of a file row of this path. */
  ghost predicate Touched(files: seq<Measured>, nodeIds: seq<string>, contexts: map<int, string>, rel: string)
  {
    exists k, line, t ::
      && 0 <= k < |files| && files[k].rel == Some(rel)
      && Ordinary(t) && NodeId(t) in nodeIds && Ran(files[k].rows, contexts, line, t)
  }

  ghost predicate AllOrdinary(nodeIds: seq<string>)
  {
    forall node | node in nodeIds :: exists t: Test :: Ordinary(t) && NodeId(t) == node
  }

  lemma AnyCoverIff(rows: seq<Row>, nodes: seq<string>, nodeIds: seq<string>, contexts: map<int, string>)
    requires RightNodes(nodes, nodeIds, contexts) && AllOrdinary(nodeIds)
    ensures AnyCover(rows, contexts, nodes)
            <==> exists line, t: Test :: Ordinary(t) && NodeId(t) in nodeIds && Ran(rows, contexts, line, t)
  {
    hide Ordinary, NodeId, Covers, InContext, Labels;
    NodesAreCollected(nodes, nodeIds, contexts);
    if AnyCover(rows, contexts, nodes) {
      var line: int, p: nat :| p < |nodes| && Covers(rows, contexts, line, nodes[p]);
      assert nodes[p] in nodeIds;
      var t: Test :| Ordinary(t) && NodeId(t) == nodes[p];
      RanIff(rows, contexts, line, t);
      assert Ran(rows, contexts, line, t);
    }
    if line, t: Test :| Ordinary(t) && NodeId(t) in nodeIds && Ran(rows, contexts, line, t) {
      RanIff(rows, contexts, line, t);
      var k :| 0 <= k < |rows| && line in rows[k].lines && InContext(rows[k].context, contexts, t);
      LabelledIff(nodes, nodeIds, contexts, t);
      var p: nat :| p < |nodes| && nodes[p] == NodeId(t);
      assert Covers(rows, contexts, line, nodes[p]);
    }
  }

  lemma TouchedIff(covered: set<string>, files: seq<Measured>, nodes: seq<string>, nodeIds: seq<string>,
                   contexts: map<int, string>)
    requires RightNodes(nodes, nodeIds, contexts) && RightCovered(covered, contexts, files, nodes)
    ensures AllOrdinary(nodeIds) ==> forall rel :: rel in covered <==> Touched(files, nodeIds, contexts, rel)
  {
    hide RightNodes, AnyCover, Ordinary, NodeId, Ran, AllOrdinary;
    if AllOrdinary(nodeIds) {
      forall k | 0 <= k < |files| { AnyCoverIff(files[k].rows, nodes, nodeIds, contexts); }
    }
  }

  /** Building the index, writing it and reading a file's lines back: the lines are those that were
      executed, each with the collected tests in whose contexts it ran, in order, once; and each test
      file has its tests that ran anywhere.  The covered files, from which the blind spots follow, are
      those some collected test ran in. */
  method BuildAndRead(nodeIds: seq<string>, contexts: map<int, string>, files: seq<Measured>, k: nat)
    returns (lines: map<int, seq<string>>, byTest: map<string, seq<string>>, covered: set<string>)
    requires IsLastOf(files, k)
    ensures forall line :: line in lines <==>
              exists r :: 0 <= r < |files[k].rows| && line in files[k].rows[r].lines
    ensures forall line, t: Test | line in lines && Ordinary(t) ::
              NodeId(t) in lines[line] <==> NodeId(t) in nodeIds && Ran(files[k].rows, contexts, line, t)
    ensures forall line, i, j | line in lines && 0 <= i < j < |lines[line]| ::
              StringLess(lines[line][i], lines[line][j])
    ensures forall line, node | line in lines && node in lines[line] :: node in nodeIds
    ensures forall t: Test | Ordinary(t) ::
              File(t) in byTest && NodeId(t) in byTest[File(t)]
              <==> NodeId(t) in nodeIds && exists c :: InContext(c, contexts, t)
    ensures AllOrdinary(nodeIds) ==> forall rel :: rel in covered <==> Touched(files, nodeIds, contexts, rel)
  {
    hide RightNodes, RightByTest, RightShards, RightCovered, ReadShard, NodesAt, InRange, Covers, StringLess, FileOf;
    hide Ordinary, NodeId, File, Ran, InContext, Touched, AllOrdinary, Matches, LabelOf, LabelFor;
    var index := BuildIndex(nodeIds, contexts, files);
    IndexAgrees(index, nodeIds, contexts, files, k);
    var coverage := new CoverageMap(index);
    var read := coverage.LinesFor(files[k].rel.value);
    TouchedIff(index.coveredAny, files, index.nodes, nodeIds, contexts);
    lines, byTest, covered := read.value, coverage.byTest, index.coveredAny;
    forall t: Test | Ordinary(t)
      ensures forall line :: Covers(files[k].rows, contexts, line, NodeId(t)) <==> Ran(files[k].rows, contexts, line, t)
      ensures FileOf(NodeId(t)) == File(t)
      ensures NodeId(t) in index.nodes <==> NodeId(t) in nodeIds && exists c :: InContext(c, contexts, t)
    {
      FileIs(t);
      LabelledIff(index.nodes, nodeIds, contexts, t);
      forall line { RanIff(files[k].rows, contexts, line, t); }
    }
  }
}
