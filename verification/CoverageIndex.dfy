/**
 The interned, sharded coverage index: how it is built (scripts/build_test_map.py) and how it is
 read back (scripts/select_tests.py).
 */
module CoverageIndex {
  import opened Decimal
  import opened NodeLabels
  import opened Sorting
  import opened Wrappers

  /** The lines one context executed in one file. */
  datatype Row = Row(context: int, lines: seq<nat>)

  /** A file row of the coverage data; no `rel` for a path outside the repository's src tree. */
  datatype Measured = Measured(rel: Option<string>, rows: seq<Row>)

  /** A shard as written: line numbers as JSON keys, in order, with positions in `nodes`. */
  type Shard = seq<(string, seq<nat>)>

  datatype Index = Index(nodes: seq<string>, byTest: map<string, seq<nat>>, shards: map<string, Shard>,
                         coveredAny: set<string>)

  // ----- The raw relation -----

  function LabelOf(contexts: map<int, string>, context: int): string
  {
    if context in contexts then contexts[context] else ""
  }

  function Observed(contexts: map<int, string>): set<string>
  {
    set c | c in contexts && contexts[c] != "" :: contexts[c]
  }

  function Labels(node: string, observed: set<string>): set<string>
  {
    set tag | tag in observed && Matches(tag, node)
  }

  predicate Executed(rows: seq<Row>, line: int)
  {
    exists k :: 0 <= k < |rows| && line in rows[k].lines
  }

  /** Some context that executed the line carries a label matching the node. */
  predicate Covers(rows: seq<Row>, contexts: map<int, string>, line: int, node: string)
  {
    exists k :: 0 <= k < |rows| && line in rows[k].lines && RowMatches(rows[k], contexts, node)
  }

  predicate RowMatches(row: Row, contexts: map<int, string>, node: string)
  {
    LabelOf(contexts, row.context) != "" && Matches(LabelOf(contexts, row.context), node)
  }

  // ----- Building -----

  method LabelsFor(node: string, observed: set<string>) returns (labels: seq<string>)
    ensures Increasing(labels, StringLess)
    ensures forall tag :: tag in labels <==> tag in Labels(node, observed)
  {
    StringOrder();
    labels := Sorted(Labels(node, observed), StringLess);
  }

  /** Which collected nodes carry each label. */
  ghost predicate Grouped(groups: map<string, set<string>>, nodeIds: seq<string>, observed: set<string>)
  {
    && (forall tag, node :: tag in groups && node in groups[tag] ==> node in nodeIds && tag in Labels(node, observed))
    && (forall tag, node :: node in nodeIds && tag in Labels(node, observed) ==> tag in groups && node in groups[tag])
  }

  method GroupByLabel(nodeIds: seq<string>, observed: set<string>)
    returns (groups: map<string, set<string>>, unmatched: nat)
    ensures Grouped(groups, nodeIds, observed)
  {
    hide Labels, Matches;
    groups, unmatched := map[], 0;
    for i := 0 to |nodeIds|
      invariant Grouped(groups, nodeIds[..i], observed)
    {
      var labels := LabelsFor(nodeIds[i], observed);
      if labels == [] { unmatched := unmatched + 1; }
      ghost var before := groups;
      groups := AddNode(groups, labels, nodeIds[i]);
      GroupOneMore(before, groups, labels, nodeIds, observed, i);
    }
    assert nodeIds[..|nodeIds|] == nodeIds;
  }

  method AddNode(groups: map<string, set<string>>, labels: seq<string>, node: string)
    returns (after: map<string, set<string>>)
    ensures NodeAdded(groups, after, labels, node)
  {
    after := groups;
    for j := 0 to |labels|
      invariant NodeAdded(groups, after, labels[..j], node)
    {
      ghost var before := after;
      var tag := labels[j];
      after := after[tag := (if tag in after then after[tag] else {}) + {node}];
      assert labels[..j + 1] == labels[..j] + [tag];
      assert forall t | t in before && t != tag :: after[t] == before[t];
    }
    assert labels[..|labels|] == labels;
  }

  ghost predicate NodeAdded(before: map<string, set<string>>, after: map<string, set<string>>, labels: seq<string>,
                            node: string)
  {
    && (forall tag :: tag in after <==> tag in before || tag in labels)
    && forall tag, n | tag in after ::
         n in after[tag] <==> (tag in before && n in before[tag]) || (tag in labels && n == node)
  }

  lemma GroupOneMore(before: map<string, set<string>>, after: map<string, set<string>>, labels: seq<string>,
                     nodeIds: seq<string>, observed: set<string>, i: nat)
    requires i < |nodeIds| && Grouped(before, nodeIds[..i], observed)
    requires forall tag :: tag in labels <==> tag in Labels(nodeIds[i], observed)
    requires NodeAdded(before, after, labels, nodeIds[i])
    ensures Grouped(after, nodeIds[..i + 1], observed)
  {
    hide Labels, Matches;
    assert nodeIds[..i + 1] == nodeIds[..i] + [nodeIds[i]];
    forall tag, n | tag in after && n in after[tag] ensures n in nodeIds[..i + 1] && tag in Labels(n, observed) {
      if tag in before && n in before[tag] { assert n in nodeIds[..i]; } else { assert n == nodeIds[i]; }
    }
    forall tag, n | n in nodeIds[..i + 1] && tag in Labels(n, observed) ensures tag in after && n in after[tag] {
      if n in nodeIds[..i] { assert tag in before && n in before[tag]; }
    }
  }

  /** The positions of the nodes carrying each label. */
  ghost predicate Interned(positions: map<string, set<nat>>, nodes: seq<string>, groups: map<string, set<string>>)
  {
    && positions.Keys == groups.Keys
    && forall tag, i: nat | tag in groups :: i in positions[tag] <==> i < |nodes| && nodes[i] in groups[tag]
  }

  /** The position of every node in the sorted list. */
  method Number(nodes: seq<string>) returns (index: map<string, nat>)
    requires Increasing(nodes, StringLess)
    ensures index.Keys == set n | n in nodes
    ensures forall i | 0 <= i < |nodes| :: index[nodes[i]] == i
  {
    hide StringLess, Increasing;
    index := map[];
    for i := 0 to |nodes|
      invariant forall n :: n in index <==> n in nodes[..i]
      invariant forall j | 0 <= j < i :: nodes[j] in nodes[..i] && index[nodes[j]] == j
    {
      assert nodes[..i + 1] == nodes[..i] + [nodes[i]];
      forall j | 0 <= j < i ensures nodes[j] != nodes[i] {
        Apart(nodes, j, i);
      }
      index := index[nodes[i] := i];
    }
    assert nodes[..|nodes|] == nodes;
  }

  lemma Apart(nodes: seq<string>, i: nat, j: nat)
    requires Increasing(nodes, StringLess) && i < j < |nodes|
    ensures nodes[i] != nodes[j]
  {
    StringOrder();
  }

  method Intern(groups: map<string, set<string>>) returns (nodes: seq<string>, positions: map<string, set<nat>>)
    ensures Increasing(nodes, StringLess)
    ensures forall n :: n in nodes <==> exists tag :: tag in groups && n in groups[tag]
    ensures Interned(positions, nodes, groups)
  {
    StringOrder();
    nodes := Sorted(set tag, n | tag in groups && n in groups[tag] :: n, StringLess);
    hide StringLess, Increasing;
    var index := Number(nodes);
    assert forall tag, n | tag in groups && n in groups[tag] :: n in index;
    positions := map tag | tag in groups :: set n | n in groups[tag] :: index[n];
    forall tag, i: nat | tag in groups ensures i in positions[tag] <==> i < |nodes| && nodes[i] in groups[tag] {
      if i in positions[tag] {
        var n :| n in groups[tag] && index[n] == i;
        assert n in nodes;
      }
    }
  }

  function PositionsOf(positions: map<string, set<nat>>, tag: string): set<nat>
  {
    if tag in positions then positions[tag] else {}
  }

  /** What a file's rows put on each line. */
  ghost predicate Collected(lineSets: map<int, set<nat>>, rows: seq<Row>, contexts: map<int, string>,
                            positions: map<string, set<nat>>)
  {
    && (forall line :: line in lineSets <==> Executed(rows, line))
    && (forall line: int, p: nat :: OnLine(lineSets, line, p) <==> HasPosition(rows, contexts, positions, line, p))
  }

  predicate OnLine(lineSets: map<int, set<nat>>, line: int, p: nat)
  {
    line in lineSets && p in lineSets[line]
  }

  predicate HasPosition(rows: seq<Row>, contexts: map<int, string>, positions: map<string, set<nat>>, line: int, p: nat)
  {
    exists k :: 0 <= k < |rows| && line in rows[k].lines && p in PositionsOf(positions, LabelOf(contexts, rows[k].context))
  }

  lemma OneRowMore(rows: seq<Row>, contexts: map<int, string>, positions: map<string, set<nat>>, i: nat)
    requires i < |rows|
    ensures forall line :: Executed(rows[..i + 1], line) <==> Executed(rows[..i], line) || line in rows[i].lines
    ensures forall line: int, p: nat :: HasPosition(rows[..i + 1], contexts, positions, line, p)
              <==> HasPosition(rows[..i], contexts, positions, line, p)
                   || (line in rows[i].lines && p in PositionsOf(positions, LabelOf(contexts, rows[i].context)))
  {
    var before, after := rows[..i], rows[..i + 1];
    forall line ensures Executed(after, line) <==> Executed(before, line) || line in rows[i].lines {
      if line in rows[i].lines { assert line in after[i].lines; }
      if Executed(before, line) {
        var k :| 0 <= k < |before| && line in before[k].lines;
        assert line in after[k].lines;
      }
      if Executed(after, line) && line !in rows[i].lines {
        var k :| 0 <= k < |after| && line in after[k].lines;
        assert line in before[k].lines;
      }
    }
    forall line: int, p: nat
      ensures HasPosition(after, contexts, positions, line, p)
              <==> HasPosition(before, contexts, positions, line, p)
                   || (line in rows[i].lines && p in PositionsOf(positions, LabelOf(contexts, rows[i].context)))
    {
      if line in rows[i].lines && p in PositionsOf(positions, LabelOf(contexts, rows[i].context)) {
        assert line in after[i].lines;
      }
      if HasPosition(before, contexts, positions, line, p) {
        var k :| 0 <= k < |before| && line in before[k].lines
                 && p in PositionsOf(positions, LabelOf(contexts, before[k].context));
        assert line in after[k].lines;
      }
      if HasPosition(after, contexts, positions, line, p) {
        var k :| 0 <= k < |after| && line in after[k].lines
                 && p in PositionsOf(positions, LabelOf(contexts, after[k].context));
        assert k < i ==> line in before[k].lines;
      }
    }
  }

  method CollectLines(rows: seq<Row>, contexts: map<int, string>, positions: map<string, set<nat>>)
    returns (lineSets: map<int, set<nat>>)
    ensures Collected(lineSets, rows, contexts, positions)
  {
    hide *;
    lineSets := map[];
    NoRows(contexts, positions);
    assert rows[..0] == [];
    for i := 0 to |rows|
      invariant Collected(lineSets, rows[..i], contexts, positions)
    {
      var row := rows[i];
      ghost var before := lineSets;
      lineSets := AddLines(lineSets, row.lines, PositionsOf(positions, LabelOf(contexts, row.context)));
      CollectRow(before, lineSets, rows, contexts, positions, i);
    }
    assert rows[..|rows|] == rows;
  }

  method AddLines(lineSets: map<int, set<nat>>, lines: seq<nat>, more: set<nat>) returns (after: map<int, set<nat>>)
    ensures Updated(lineSets, after, lines, more)
  {
    after := lineSets;
    for j := 0 to |lines|
      invariant Updated(lineSets, after, lines[..j], more)
    {
      var line := lines[j];
      assert lines[..j + 1] == lines[..j] + [line];
      after := after[line as int := (if line in after then after[line] else {}) + more];
    }
    assert lines[..|lines|] == lines;
  }

  ghost predicate Updated(before: map<int, set<nat>>, after: map<int, set<nat>>, lines: seq<nat>, more: set<nat>)
  {
    && (forall line :: line in after <==> line in before || line in lines)
    && forall line | line in after ::
         after[line] == (if line in before then before[line] else {}) + if line in lines then more else {}
  }

  lemma CollectRow(before: map<int, set<nat>>, after: map<int, set<nat>>, rows: seq<Row>, contexts: map<int, string>,
                   positions: map<string, set<nat>>, i: nat)
    requires i < |rows| && Collected(before, rows[..i], contexts, positions)
    requires Updated(before, after, rows[i].lines, PositionsOf(positions, LabelOf(contexts, rows[i].context)))
    ensures Collected(after, rows[..i + 1], contexts, positions)
  {
    hide Executed, HasPosition, LabelOf, PositionsOf;
    OneRowMore(rows, contexts, positions, i);
    var now := rows[..i + 1];
    forall line: int, p: nat ensures OnLine(after, line, p) <==> HasPosition(now, contexts, positions, line, p) {
      assert OnLine(before, line, p) <==> HasPosition(rows[..i], contexts, positions, line, p);
    }
  }

  lemma NoRows(contexts: map<int, string>, positions: map<string, set<nat>>)
    ensures Collected(map[], [], contexts, positions)
  {
  }

  /** A shard as it should be: the executed lines in order, each with the positions of its tests. */
  ghost predicate RightShard(shard: Shard, rows: seq<Row>, contexts: map<int, string>, nodes: seq<string>)
  {
    exists lines :: Lists(shard, lines, rows, contexts, nodes)
  }

  ghost predicate Lists(shard: Shard, lines: seq<int>, rows: seq<Row>, contexts: map<int, string>, nodes: seq<string>)
  {
    && |shard| == |lines| && Increasing(lines, IntLess)
    && (forall line :: line in lines <==> Executed(rows, line))
    && forall k | 0 <= k < |lines| :: Entry(shard[k], lines[k], rows, contexts, nodes)
  }

  ghost predicate Entry(item: (string, seq<nat>), line: int, rows: seq<Row>, contexts: map<int, string>,
                        nodes: seq<string>)
  {
    && line >= 0 && item.0 == Show(line) && Increasing(item.1, NatLess)
    && forall p: nat :: p in item.1 <==> p < |nodes| && Covers(rows, contexts, line, nodes[p])
  }

  predicate NatLess(a: nat, b: nat) { a < b }

  lemma NatOrder()
    ensures StrictOrder(NatLess)
  {
  }

  /** The nodes that carry some label, sorted. */
  ghost predicate RightNodes(nodes: seq<string>, nodeIds: seq<string>, contexts: map<int, string>)
  {
    && Increasing(nodes, StringLess)
    && forall n :: n in nodes <==> n in nodeIds && exists tag :: tag in Labels(n, Observed(contexts))
  }

  method WriteShard(lineSets: map<int, set<nat>>) returns (shard: Shard, ghost lines: seq<int>)
    requires forall line | line in lineSets :: line >= 0
    ensures |shard| == |lines| && Increasing(lines, IntLess)
    ensures forall line :: line in lines <==> line in lineSets
    ensures forall k | 0 <= k < |lines| :: Keeps(shard[k], lines[k], lineSets)
  {
    IntOrder();
    NatOrder();
    var inOrder := Sorted(lineSets.Keys, IntLess);
    lines := inOrder;
    shard := [];
    for k := 0 to |inOrder|
      invariant |shard| == k
      invariant forall j | 0 <= j < k :: Keeps(shard[j], inOrder[j], lineSets)
    {
      var line := inOrder[k];
      assert line in lineSets;
      var places := Sorted(lineSets[line], NatLess);
      shard := shard + [(Show(line), places)];
    }
  }

  ghost predicate Keeps(item: (string, seq<nat>), line: int, lineSets: map<int, set<nat>>)
  {
    && line in lineSets && line >= 0 && item.0 == Show(line) && Increasing(item.1, NatLess)
    && forall p: nat :: p in item.1 <==> OnLine(lineSets, line, p)
  }

  /** Positions carry over to nodes and labels. */
  lemma PositionIsCover(rows: seq<Row>, contexts: map<int, string>, nodeIds: seq<string>, groups: map<string,
                        set<string>>,
                        nodes: seq<string>, positions: map<string, set<nat>>, line: int, p: nat)
    requires Grouped(groups, nodeIds, Observed(contexts)) && Interned(positions, nodes, groups)
    requires p < |nodes| ==> nodes[p] in nodeIds
    ensures HasPosition(rows, contexts, positions, line, p) <==> p < |nodes| && Covers(rows, contexts, line, nodes[p])
  {
    hide Matches;
    forall k | 0 <= k < |rows|
      ensures p in PositionsOf(positions, LabelOf(contexts, rows[k].context))
              <==> p < |nodes| && RowMatches(rows[k], contexts, nodes[p])
    {
      var tag := LabelOf(contexts, rows[k].context);
      assert tag in Observed(contexts) <==> tag != "" by {
        if tag != "" { assert contexts[rows[k].context] == tag; }
      }
      if p < |nodes| {
        assert tag in Labels(nodes[p], Observed(contexts)) <==> RowMatches(rows[k], contexts, nodes[p]);
        assert tag in groups && nodes[p] in groups[tag] <==> tag in Labels(nodes[p], Observed(contexts));
      }
    }
  }

  lemma ExecutedIsNat(rows: seq<Row>, line: int)
    requires Executed(rows, line)
    ensures line >= 0
  {
  }

  method BuildShard(rows: seq<Row>, contexts: map<int, string>, positions: map<string, set<nat>>,
                    ghost nodeIds: seq<string>, ghost groups: map<string, set<string>>, ghost nodes: seq<string>)
    returns (shard: Shard, covered: bool)
    requires Grouped(groups, nodeIds, Observed(contexts)) && Interned(positions, nodes, groups)
    requires forall n | n in nodes :: n in nodeIds
    ensures RightShard(shard, rows, contexts, nodes)
    ensures covered <==> exists line: int, p: nat :: p < |nodes| && Covers(rows, contexts, line, nodes[p])
  {
    hide Executed, HasPosition, Covers, Grouped, Interned;
    var lineSets := CollectLines(rows, contexts, positions);
    forall line | line in lineSets ensures line >= 0 { ExecutedIsNat(rows, line); }
    ghost var lines: seq<int>;
    shard, lines := WriteShard(lineSets);
    forall line: int, p: nat ensures OnLine(lineSets, line, p) <==> p < |nodes| && Covers(rows, contexts, line, nodes[p]) {
      PositionIsCover(rows, contexts, nodeIds, groups, nodes, positions, line, p);
    }
    assert Lists(shard, lines, rows, contexts, nodes);
    covered := exists line | line in lineSets :: lineSets[line] != {};
    if covered {
      var line :| line in lineSets && lineSets[line] != {};
      var p :| p in lineSets[line];
      assert OnLine(lineSets, line, p);
    }
    if line: int, p: nat :| p < |nodes| && Covers(rows, contexts, line, nodes[p]) { assert OnLine(lineSets, line, p); }
  }

  /** Which nodes each test file's entry lists. */
  ghost predicate RightByTest(byTest: map<string, seq<nat>>, nodes: seq<string>)
  {
    forall file, p: nat :: Listed(byTest, file, p) <==> p < |nodes| && FileOf(nodes[p]) == file
  }

  predicate Listed(byTest: map<string, seq<nat>>, file: string, p: nat)
  {
    file in byTest && p in byTest[file]
  }

  method GroupByFile(nodes: seq<string>) returns (byTest: map<string, seq<nat>>)
    ensures RightByTest(byTest, nodes)
    ensures forall file | file in byTest :: byTest[file] != [] && Increasing(byTest[file], NatLess)
  {
    hide FileOf;
    byTest := map[];
    for i := 0 to |nodes|
      invariant forall file, p: nat :: Listed(byTest, file, p) <==> p < i && FileOf(nodes[p]) == file
      invariant forall file | file in byTest :: byTest[file] != [] && Increasing(byTest[file], NatLess)
      invariant forall file, k | file in byTest && 0 <= k < |byTest[file]| :: byTest[file][k] < i
    {
      var file := FileOf(nodes[i]);
      ghost var before := byTest;
      byTest := byTest[file := (if file in byTest then byTest[file] else []) + [i]];
      forall f, p: nat ensures Listed(byTest, f, p) <==> p < i + 1 && FileOf(nodes[p]) == f {
        assert Listed(before, f, p) <==> p < i && FileOf(nodes[p]) == f;
      }
    }
  }

  /** The last file row of a path: the one whose shard stays on disk. */
  predicate IsLastOf(files: seq<Measured>, k: nat)
  {
    && k < |files| && files[k].rel.Some?
    && forall j | k < j < |files| :: files[j].rel != files[k].rel
  }

  ghost predicate Built(index: Index, nodeIds: seq<string>, contexts: map<int, string>, files: seq<Measured>)
  {
    && RightNodes(index.nodes, nodeIds, contexts)
    && RightByTest(index.byTest, index.nodes)
    && RightShards(index.shards, contexts, files, index.nodes)
    && RightCovered(index.coveredAny, contexts, files, index.nodes)
  }

  ghost predicate RightShards(shards: map<string, Shard>, contexts: map<int, string>, files: seq<Measured>,
                              nodes: seq<string>)
  {
    && (forall rel :: rel in shards <==> HasRel(files, rel))
    && (forall k | 0 <= k < |files| && IsLastOf(files, k) ::
          files[k].rel.value in shards && RightShard(shards[files[k].rel.value], files[k].rows, contexts, nodes))
  }

  ghost predicate RightCovered(covered: set<string>, contexts: map<int, string>, files: seq<Measured>,
                               nodes: seq<string>)
  {
    forall rel :: rel in covered <==>
      exists k :: 0 <= k < |files| && files[k].rel == Some(rel) && AnyCover(files[k].rows, contexts, nodes)
  }

  ghost predicate AnyCover(rows: seq<Row>, contexts: map<int, string>, nodes: seq<string>)
  {
    exists line: int, p: nat :: p < |nodes| && Covers(rows, contexts, line, nodes[p])
  }

  lemma ShardsMore(shards: map<string, Shard>, contexts: map<int, string>, files: seq<Measured>, nodes: seq<string>,
                   i: nat, shard: Shard)
    requires i < |files| && RightShards(shards, contexts, files[..i], nodes)
    requires files[i].rel.Some? ==> RightShard(shard, files[i].rows, contexts, nodes)
    ensures RightShards(if files[i].rel.Some? then shards[files[i].rel.value := shard] else shards, contexts, files[..i + 1], nodes)
  {
    hide RightShard, HasRel;
    var before, now := files[..i], files[..i + 1];
    var after := if files[i].rel.Some? then shards[files[i].rel.value := shard] else shards;
    RelsMore(files, i);
    forall k | 0 <= k < |now| && IsLastOf(now, k)
      ensures now[k].rel.value in after && RightShard(after[now[k].rel.value], now[k].rows, contexts, nodes)
    {
      if k < i {
        StillLast(files, i, k);
        assert before[k] == now[k];
      }
    }
  }

  lemma StillLast(files: seq<Measured>, i: nat, k: nat)
    requires k < i < |files| && IsLastOf(files[..i + 1], k)
    ensures IsLastOf(files[..i], k) && files[i].rel != files[k].rel
  {
    var before, now := files[..i], files[..i + 1];
    assert now[i].rel != now[k].rel;
    forall j | k < j < i ensures before[j].rel != before[k].rel { assert now[j].rel != now[k].rel; }
  }

  predicate HasRel(files: seq<Measured>, rel: string)
  {
    exists k :: 0 <= k < |files| && files[k].rel == Some(rel)
  }

  lemma RelsMore(files: seq<Measured>, i: nat)
    requires i < |files|
    ensures forall rel :: HasRel(files[..i + 1], rel) <==> HasRel(files[..i], rel) || files[i].rel == Some(rel)
  {
    var before, now := files[..i], files[..i + 1];
    forall rel ensures HasRel(now, rel) <==> HasRel(before, rel) || files[i].rel == Some(rel) {
      if HasRel(before, rel) { var k :| 0 <= k < i && before[k].rel == Some(rel); assert now[k].rel == Some(rel); }
      if files[i].rel == Some(rel) { assert now[i].rel == Some(rel); }
      if k :| 0 <= k < i + 1 && now[k].rel == Some(rel) { assert k < i ==> before[k].rel == Some(rel); }
    }
  }

  lemma CoveredMore(covered: set<string>, contexts: map<int, string>, files: seq<Measured>, nodes: seq<string>,
                    i: nat, any: bool)
    requires i < |files| && RightCovered(covered, contexts, files[..i], nodes)
    requires any <==> files[i].rel.Some? && AnyCover(files[i].rows, contexts, nodes)
    ensures RightCovered(if any then covered + {files[i].rel.value} else covered, contexts, files[..i + 1], nodes)
  {
    hide AnyCover;
    var before, now := files[..i], files[..i + 1];
    var after := if any then covered + {files[i].rel.value} else covered;
    forall rel
      ensures rel in after
              <==> exists k :: 0 <= k < |now| && now[k].rel == Some(rel) && AnyCover(now[k].rows, contexts, nodes)
    {
      if rel in covered {
        var k :| 0 <= k < |before| && before[k].rel == Some(rel) && AnyCover(before[k].rows, contexts, nodes);
        assert now[k].rel == Some(rel);
      }
      if any && files[i].rel == Some(rel) { assert now[i].rel == Some(rel); }
      if k :| 0 <= k < |now| && now[k].rel == Some(rel) && AnyCover(now[k].rows, contexts, nodes) {
        assert k < i ==> before[k].rel == Some(rel);
      }
    }
  }

  lemma RightFromGroups(nodes: seq<string>, nodeIds: seq<string>, contexts: map<int, string>, groups: map<string,
                        set<string>>)
    requires Grouped(groups, nodeIds, Observed(contexts)) && Increasing(nodes, StringLess)
    requires forall n :: n in nodes <==> exists tag :: tag in groups && n in groups[tag]
    ensures RightNodes(nodes, nodeIds, contexts)
  {
    hide Matches, Observed, StringLess;
    forall n ensures n in nodes <==> n in nodeIds && exists tag :: tag in Labels(n, Observed(contexts)) {
      if n in nodes {
        var tag :| tag in groups && n in groups[tag];
        assert tag in Labels(n, Observed(contexts));
      }
      if n in nodeIds && exists tag :: tag in Labels(n, Observed(contexts)) {
        var tag :| tag in Labels(n, Observed(contexts));
        assert tag in groups && n in groups[tag];
      }
    }
  }

  /** build_shards: `files` are the file rows in the order of their paths. */
  method BuildIndex(nodeIds: seq<string>, contexts: map<int, string>, files: seq<Measured>) returns (index: Index)
    ensures Built(index, nodeIds, contexts, files)
  {
    hide *;
    var groups, unmatched := GroupByLabel(nodeIds, Observed(contexts));
    var nodes, positions := Intern(groups);
    RightFromGroups(nodes, nodeIds, contexts, groups);
    var shards: map<string, Shard>, coveredAny: set<string> := map[], {};
    NoFiles(contexts, nodes);
    assert files[..0] == [];
    for i := 0 to |files|
      invariant RightShards(shards, contexts, files[..i], nodes)
      invariant RightCovered(coveredAny, contexts, files[..i], nodes)
    {
      var file := files[i];
      if file.rel.Some? {
        NodesAreCollected(nodes, nodeIds, contexts);
        var shard, covered := BuildShard(file.rows, contexts, positions, nodeIds, groups, nodes);
        AnyCoverIs(file.rows, contexts, nodes, covered);
        ShardsMore(shards, contexts, files, nodes, i, shard);
        CoveredMore(coveredAny, contexts, files, nodes, i, covered);
        shards := shards[file.rel.value := shard];
        if covered { coveredAny := coveredAny + {file.rel.value}; }
      } else {
        ShardsMore(shards, contexts, files, nodes, i, []);
        CoveredMore(coveredAny, contexts, files, nodes, i, false);
      }
    }
    assert files[..|files|] == files;
    var byTest := GroupByFile(nodes);
    index := Index(nodes, byTest, shards, coveredAny);
    IsBuilt(index, nodeIds, contexts, files);
  }

  lemma NoFiles(contexts: map<int, string>, nodes: seq<string>)
    ensures RightShards(map[], contexts, [], nodes) && RightCovered({}, contexts, [], nodes)
  {
  }

  lemma NodesAreCollected(nodes: seq<string>, nodeIds: seq<string>, contexts: map<int, string>)
    requires RightNodes(nodes, nodeIds, contexts)
    ensures forall n | n in nodes :: n in nodeIds
  {
  }

  lemma AnyCoverIs(rows: seq<Row>, contexts: map<int, string>, nodes: seq<string>, covered: bool)
    requires covered <==> exists line: int, p: nat :: p < |nodes| && Covers(rows, contexts, line, nodes[p])
    ensures covered <==> AnyCover(rows, contexts, nodes)
  {
  }

  lemma IsBuilt(index: Index, nodeIds: seq<string>, contexts: map<int, string>, files: seq<Measured>)
    requires RightNodes(index.nodes, nodeIds, contexts) && RightByTest(index.byTest, index.nodes)
    requires RightShards(index.shards, contexts, files, index.nodes)
    requires RightCovered(index.coveredAny, contexts, files, index.nodes)
    ensures Built(index, nodeIds, contexts, files)
  {
  }

  // ----- Reading back -----

  predicate IsNumber(key: string) { key != "" && AllDigits(key) }

  /** A shard as lines_for reads it: a later entry for a line replaces an earlier one; None
      when a key is no number or a position is out of range. */
  function ReadShard(shard: Shard, nodes: seq<string>): Option<map<int, seq<string>>>
    decreases |shard|
  {
    if shard == [] then Some(map[])
    else
      match ReadShard(shard[..|shard| - 1], nodes)
      case None => None
      case Some(m) =>
        var (key, places) := shard[|shard| - 1];
        if IsNumber(key) && InRange(places, nodes) then Some(m[Read(key) as int := NodesAt(places, nodes)]) else None
  }

  predicate InRange(places: seq<nat>, nodes: seq<string>)
  {
    forall k | 0 <= k < |places| :: places[k] < |nodes|
  }

  function NodesAt(places: seq<nat>, nodes: seq<string>): (r: seq<string>)
    requires InRange(places, nodes)
  {
    seq(|places|, k requires 0 <= k < |places| => nodes[places[k]])
  }

  /** The loaded map, with its cache of the shards already read. */
  class CoverageMap {
    const nodes: seq<string>
    const byTest: map<string, seq<string>>
    const shards: map<string, Shard>
    var cache: map<string, Option<map<int, seq<string>>>>

    function Answer(rel: string): Option<map<int, seq<string>>>
    {
      if rel in shards then ReadShard(shards[rel], nodes) else None
    }

    ghost predicate Valid()
      reads this
    {
      forall rel | rel in cache :: cache[rel] == Answer(rel)
    }

    constructor (index: Index)
      requires RightByTest(index.byTest, index.nodes)
      ensures Valid() && nodes == index.nodes && shards == index.shards
      ensures forall file, node ::
                file in byTest && node in byTest[file] <==> node in index.nodes && FileOf(node) == file
    {
      forall file | file in index.byTest ensures InRange(index.byTest[file], index.nodes) {
        LoadedByTest(index, file, "");
      }
      nodes, shards, cache := index.nodes, index.shards, map[];
      byTest := map file | file in index.byTest :: NodesAt(index.byTest[file], index.nodes);
      new;
      forall file, node
        ensures file in byTest && node in byTest[file] <==> node in index.nodes && FileOf(node) == file
      {
        LoadedByTest(index, file, node);
      }
    }

    method LinesFor(rel: string) returns (lines: Option<map<int, seq<string>>>)
      requires Valid()
      modifies this`cache
      ensures Valid() && lines == Answer(rel)
    {
      if rel !in cache {
        var read := if rel in shards then ReadShard(shards[rel], nodes) else None;
        cache := cache[rel := read];
      }
      lines := cache[rel];
    }
  }

  lemma LoadedByTest(index: Index, file: string, node: string)
    requires RightByTest(index.byTest, index.nodes)
    ensures file in index.byTest ==> InRange(index.byTest[file], index.nodes)
    ensures file in index.byTest && node in NodesAt(index.byTest[file], index.nodes)
            <==> node in index.nodes && FileOf(node) == file
  {
    hide FileOf;
    if file in index.byTest {
      var places := index.byTest[file];
      forall k | 0 <= k < |places| ensures places[k] < |index.nodes| {
        assert Listed(index.byTest, file, places[k]);
      }
      if node in NodesAt(places, index.nodes) {
        var k :| 0 <= k < |places| && index.nodes[places[k]] == node;
        assert Listed(index.byTest, file, places[k]);
      }
    }
    if node in index.nodes && FileOf(node) == file {
      var p: nat :| p < |index.nodes| && index.nodes[p] == node;
      assert Listed(index.byTest, file, p);
      var k :| 0 <= k < |index.byTest[file]| && index.byTest[file][k] == p;
      assert NodesAt(index.byTest[file], index.nodes)[k] == node;
    }
  }

  // ----- The index agrees with the raw relation -----

  /** What selection may rely on for one file: the lines are those some context executed, and a
      node is on a line exactly when a context with a label matching it executed the line. */
  ghost predicate Agrees(m: map<int, seq<string>>, nodeIds: seq<string>, rows: seq<Row>, contexts: map<int, string>)
  {
    && (forall line :: line in m <==> Executed(rows, line))
    && (forall line, node | line in m :: node in m[line] <==> node in nodeIds && Covers(rows, contexts, line, node))
    && (forall line | line in m :: Increasing(m[line], StringLess))
  }

  /** A right shard reads back line by line. */
  lemma {:induction false} ReadRightShard(shard: Shard, lines: seq<int>, rows: seq<Row>, contexts: map<int,
                                          string>, nodes: seq<string>)
    returns (m: map<int, seq<string>>)
    requires |shard| == |lines| && Increasing(lines, IntLess)
    requires forall k | 0 <= k < |lines| :: Entry(shard[k], lines[k], rows, contexts, nodes)
    ensures ReadShard(shard, nodes) == Some(m)
    ensures forall line :: line in m <==> line in lines
    ensures forall k | 0 <= k < |lines| :: InRange(shard[k].1, nodes) && m[lines[k]] == NodesAt(shard[k].1, nodes)
    decreases |shard|
  {
    hide Entry, Show, NodesAt, InRange;
    if shard == [] {
      m := map[];
    } else {
      var n := |shard| - 1;
      var before := ReadRightShard(shard[..n], lines[..n], rows, contexts, nodes);
      EntryReads(shard[n], lines[n], rows, contexts, nodes);
      m := before[lines[n] := NodesAt(shard[n].1, nodes)];
      assert lines == lines[..n] + [lines[n]];
      forall k | 0 <= k < n ensures lines[k] != lines[n] && lines[..n][k] == lines[k] && shard[..n][k] == shard[k] {
        assert IntLess(lines[k], lines[n]);
      }
    }
  }

  lemma EntryReads(item: (string, seq<nat>), line: int, rows: seq<Row>, contexts: map<int, string>, nodes: seq<string>)
    requires Entry(item, line, rows, contexts, nodes)
    ensures IsNumber(item.0) && Read(item.0) == line && InRange(item.1, nodes)
  {
    ReadShow(line);
    forall k | 0 <= k < |item.1| ensures item.1[k] < |nodes| { assert item.1[k] in item.1; }
  }

  lemma EntryAgrees(item: (string, seq<nat>), line: int, rows: seq<Row>, contexts: map<int, string>, nodes: seq<string>,
                    nodeIds: seq<string>)
    requires Entry(item, line, rows, contexts, nodes) && RightNodes(nodes, nodeIds, contexts) && InRange(item.1, nodes)
    ensures forall node :: node in NodesAt(item.1, nodes) <==> node in nodeIds && Covers(rows, contexts, line, node)
    ensures Increasing(NodesAt(item.1, nodes), StringLess)
  {
    hide Covers, StringLess, Labels;
    var listed := NodesAt(item.1, nodes);
    forall node ensures node in listed <==> node in nodeIds && Covers(rows, contexts, line, node) {
      if node in listed {
        var k :| 0 <= k < |item.1| && nodes[item.1[k]] == node;
        assert item.1[k] in item.1 && node in nodes;
      }
      if node in nodeIds && Covers(rows, contexts, line, node) {
        CoveredIsLabelled(rows, contexts, line, node);
        assert node in nodes;
        var p: nat :| p < |nodes| && nodes[p] == node;
        assert p in item.1;
        var k :| 0 <= k < |item.1| && item.1[k] == p;
        assert listed[k] == node;
      }
    }
    forall i, j | 0 <= i < j < |listed| ensures StringLess(listed[i], listed[j]) {
      assert NatLess(item.1[i], item.1[j]);
    }
  }

  lemma CoveredIsLabelled(rows: seq<Row>, contexts: map<int, string>, line: int, node: string)
    requires Covers(rows, contexts, line, node)
    ensures exists tag :: tag in Labels(node, Observed(contexts))
  {
    hide Matches;
    var k :| 0 <= k < |rows| && line in rows[k].lines && RowMatches(rows[k], contexts, node);
    var tag := LabelOf(contexts, rows[k].context);
    assert contexts[rows[k].context] == tag;
    assert tag in Labels(node, Observed(contexts));
  }

  /** For every measured src file, the lines and nodes read back from its shard are exactly
      those of the coverage data: sorting, interning and sharding lose and add nothing, and a
      line no test owns is still there, with no nodes. */
  lemma IndexAgrees(index: Index, nodeIds: seq<string>, contexts: map<int, string>, files: seq<Measured>, k: nat)
    requires Built(index, nodeIds, contexts, files) && IsLastOf(files, k)
    ensures files[k].rel.value in index.shards
    ensures var read := ReadShard(index.shards[files[k].rel.value], index.nodes);
            read.Some? && Agrees(read.value, nodeIds, files[k].rows, contexts)
  {
    hide RightByTest, RightCovered, RightShard, RightNodes, Agrees, ReadShard;
    ShardAgrees(index.shards[files[k].rel.value], nodeIds, files[k].rows, contexts, index.nodes);
  }

  lemma ShardAgrees(shard: Shard, nodeIds: seq<string>, rows: seq<Row>, contexts: map<int, string>, nodes: seq<string>)
    requires RightNodes(nodes, nodeIds, contexts) && RightShard(shard, rows, contexts, nodes)
    ensures var read := ReadShard(shard, nodes); read.Some? && Agrees(read.value, nodeIds, rows, contexts)
  {
    hide Entry, Executed, Covers, ReadShard, StringLess, NodesAt, InRange, Labels, RightNodes;
    var lines :| Lists(shard, lines, rows, contexts, nodes);
    var m := ReadRightShard(shard, lines, rows, contexts, nodes);
    forall line | line in m
      ensures forall node :: node in m[line] <==> node in nodeIds && Covers(rows, contexts, line, node)
      ensures Increasing(m[line], StringLess)
    {
      var j :| 0 <= j < |lines| && lines[j] == line;
      EntryAgrees(shard[j], line, rows, contexts, nodes, nodeIds);
    }
  }
}
