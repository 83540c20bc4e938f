/**
 Eviction of kept failed gate runs (scripts/gate_tools.py): one per worktree, newest first, as
 many as fit the cap.
 */
module KeepFailed {

  datatype Dir = Dir(failed: bool, worktree: string, mtime: int, size: nat)

  type Tree = map<string, Dir>

  predicate Listed(paths: seq<string>, tree: Tree)
  {
    forall k | 0 <= k < |paths| :: paths[k] in tree
  }

  predicate Distinct(paths: seq<string>)
  {
    forall i, j | 0 <= i < j < |paths| :: paths[i] != paths[j]
  }

  function Failed(paths: seq<string>, tree: Tree): (r: seq<string>)
    requires Listed(paths, tree)
    ensures Listed(r, tree) && forall p :: p in r <==> p in paths && tree[p].failed
  {
    if paths == [] then []
    else (if tree[paths[0]].failed then [paths[0]] else []) + Failed(paths[1..], tree)
  }

  /** Put a directory before the first that is not newer, as a stable sort in reverse order does. */
  function Insert(p: string, paths: seq<string>, tree: Tree): (r: seq<string>)
    requires p in tree && Listed(paths, tree)
    ensures Listed(r, tree) && multiset(r) == multiset(paths) + multiset{p}
  {
    if paths == [] || tree[p].mtime >= tree[paths[0]].mtime then [p] + paths
    else
      assert paths == [paths[0]] + paths[1..];
      [paths[0]] + Insert(p, paths[1..], tree)
  }

  function NewestFirst(paths: seq<string>, tree: Tree): (r: seq<string>)
    requires Listed(paths, tree)
    ensures Listed(r, tree) && multiset(r) == multiset(paths)
  {
    if paths == [] then []
    else
      assert paths == [paths[0]] + paths[1..];
      Insert(paths[0], NewestFirst(paths[1..], tree), tree)
  }

  predicate Ordered(paths: seq<string>, tree: Tree)
    requires Listed(paths, tree)
  {
    forall i, j | 0 <= i < j < |paths| :: tree[paths[i]].mtime >= tree[paths[j]].mtime
  }

  lemma {:induction false} InsertOrders(p: string, paths: seq<string>, tree: Tree)
    requires p in tree && Listed(paths, tree) && Ordered(paths, tree)
    ensures Ordered(Insert(p, paths, tree), tree)
  {
    if paths != [] && tree[p].mtime < tree[paths[0]].mtime {
      InsertOrders(p, paths[1..], tree);
      var rest := Insert(p, paths[1..], tree);
      forall k | 0 <= k < |rest| ensures tree[paths[0]].mtime >= tree[rest[k]].mtime {
        assert rest[k] in multiset(rest);
        assert rest[k] in multiset(paths[1..]) || rest[k] == p;
        hide Insert;
      }
    }
  }

  lemma {:induction false} NewestFirstOrders(paths: seq<string>, tree: Tree)
    requires Listed(paths, tree)
    ensures Ordered(NewestFirst(paths, tree), tree)
  {
    if paths != [] {
      NewestFirstOrders(paths[1..], tree);
      InsertOrders(paths[0], NewestFirst(paths[1..], tree), tree);
    }
  }

  /** The first of the paths for each worktree not in `seen`. */
  function OnePerWorktree(paths: seq<string>, tree: Tree, seen: set<string>): (r: seq<string>)
    requires Listed(paths, tree)
    ensures Listed(r, tree) && forall p | p in r :: p in paths && tree[p].worktree !in seen
  {
    if paths == [] then []
    else
      var name := tree[paths[0]].worktree;
      if name in seen then OnePerWorktree(paths[1..], tree, seen)
      else [paths[0]] + OnePerWorktree(paths[1..], tree, seen + {name})
  }

  lemma OnePerStep(paths: seq<string>, tree: Tree, seen: set<string>, i: nat)
    requires Listed(paths, tree) && i < |paths|
    ensures var name := tree[paths[i]].worktree;
            OnePerWorktree(paths[i..], tree, seen)
            == if name in seen then OnePerWorktree(paths[i + 1..], tree, seen)
               else [paths[i]] + OnePerWorktree(paths[i + 1..], tree, seen + {name})
  {
    assert paths[i..][1..] == paths[i + 1..];
  }

  lemma NoneLeft(tree: Tree, seen: set<string>)
    ensures OnePerWorktree([], tree, seen) == []
  {
  }

  function Total(paths: seq<string>, tree: Tree): nat
    requires Listed(paths, tree)
  {
    if paths == [] then 0 else Total(paths[..|paths| - 1], tree) + tree[paths[|paths| - 1]].size
  }

  /** Of the first i paths, some are kept and the others removed. */
  ghost predicate Split(paths: seq<string>, i: nat, kept: seq<string>, removed: set<string>)
    requires i <= |paths|
  {
    && (forall p :: p in removed <==> p in paths[..i] && p !in kept)
    && (forall p | p in kept :: p in paths[..i])
  }

  lemma NothingSplit(paths: seq<string>)
    ensures Split(paths, 0, [], {})
  {
  }

  lemma SplitStep(paths: seq<string>, i: nat, kept: seq<string>, removed: set<string>)
    requires i < |paths| && Distinct(paths) && Split(paths, i, kept, removed)
    ensures paths[i] !in removed
    ensures Split(paths, i + 1, kept, removed + {paths[i]}) && Split(paths, i + 1, kept + [paths[i]], removed)
  {
    assert paths[..i + 1] == paths[..i] + [paths[i]];
    assert paths[i] !in paths[..i];
  }

  lemma SplitAll(paths: seq<string>, kept: seq<string>, removed: set<string>)
    requires Split(paths, |paths|, kept, removed)
    ensures removed == set p | p in paths && p !in kept :: p
  {
    assert paths[..|paths|] == paths;
  }

  lemma NoTotal(tree: Tree)
    ensures Total([], tree) == 0
  {
  }

  lemma TotalStep(paths: seq<string>, tree: Tree, n: nat)
    requires n < |paths| && Listed(paths, tree)
    ensures Total(paths[..n + 1], tree) == Total(paths[..n], tree) + tree[paths[n]].size
  {
    assert paths[..n + 1][..n] == paths[..n];
  }

  /** n directories fit, and no more would. */
  predicate LongestFit(kept: seq<string>, tree: Tree, cap: int, n: nat)
    requires Listed(kept, tree)
  {
    && n <= |kept| && (n == 0 || Total(kept[..n], tree) <= cap)
    && forall m | n < m <= |kept| :: Total(kept[..m], tree) > cap
  }

  lemma Fits(kept: seq<string>, tree: Tree, cap: int, n: nat)
    requires Listed(kept, tree) && n <= |kept| && (n == 0 || Total(kept[..n], tree) <= cap)
    requires forall j | n < j <= |kept| :: Total(kept[..j], tree) > cap
    ensures LongestFit(kept, tree, cap, n)
  {
  }

  /** The one-per-worktree list the cap is applied to. */
  function Candidates(listing: seq<string>, tree: Tree): (r: seq<string>)
    requires Listed(listing, tree)
    ensures Listed(r, tree)
  {
    OnePerWorktree(NewestFirst(Failed(listing, tree), tree), tree, {})
  }

  class RunRoot {
    var dirs: Tree

    method Remove(path: string)
      modifies this
      ensures dirs == old(dirs) - {path}
    {
      dirs := dirs - {path};
    }

    method KeepOnePerWorktree(failed: seq<string>) returns (kept: seq<string>)
      requires Listed(failed, dirs) && Distinct(failed)
      modifies this
      ensures kept == old(OnePerWorktree(failed, dirs, {}))
      ensures dirs == old(dirs) - set p | p in failed && p !in kept :: p
    {
      hide OnePerWorktree, Split;
      ghost var tree, removed: set<string> := dirs, {};
      var seen: set<string> := {};
      kept := [];
      NothingSplit(failed);
      for i := 0 to |failed|
        invariant kept + OnePerWorktree(failed[i..], tree, seen) == OnePerWorktree(failed, tree, {})
        invariant dirs == tree - removed
        invariant Split(failed, i, kept, removed)
      {
        var path := failed[i];
        OnePerStep(failed, tree, seen, i);
        SplitStep(failed, i, kept, removed);
        var name := dirs[path].worktree;
        if name in seen {
          Remove(path);
          removed := removed + {path};
        } else {
          seen := seen + {name};
          kept := kept + [path];
        }
      }
      NoneLeft(tree, seen);
      SplitAll(failed, kept, removed);
      assert failed[|failed|..] == [] && kept + [] == kept;
    }

    method EvictToCap(kept: seq<string>, cap: int) returns (n: nat)
      requires Listed(kept, dirs) && Distinct(kept)
      modifies this
      ensures LongestFit(kept, old(dirs), cap, n)
      ensures dirs == old(dirs) - set p | p in kept[n..] :: p
    {
      hide LongestFit, Total;
      NoTotal(dirs);
      ghost var tree := dirs;
      var total := 0;
      for i := 0 to |kept|
        invariant dirs == tree && total == Total(kept[..i], tree)
      {
        TotalStep(kept, tree, i);
        total := total + dirs[kept[i]].size;
      }
      assert kept[..|kept|] == kept;
      n := |kept|;
      ghost var removed: set<string> := {};
      while n > 0 && total > cap
        invariant n <= |kept| && Listed(kept[..n], tree) && total == Total(kept[..n], tree)
        invariant forall j | n < j <= |kept| :: Listed(kept[..j], tree) && Total(kept[..j], tree) > cap
        invariant dirs == tree - removed && forall p :: p in removed <==> p in kept[n..]
      {
        var path := kept[n - 1];
        TotalStep(kept, tree, n - 1);
        assert kept[n - 1..] == [path] + kept[n..];
        assert path !in kept[n..];
        total := total - dirs[path].size;
        Remove(path);
        removed := removed + {path};
        n := n - 1;
      }
      assert removed == set p | p in kept[n..] :: p;
      Fits(kept, tree, cap, n);
    }

    /** `listing` is the order in which the file system enumerates the directories.  A
        directory not marked failed stays as it is; of the others exactly those of the
        longest prefix of the candidates that fits the cap are left. */
    method KeepFailed(listing: seq<string>, cap: int) returns (n: nat)
      requires Listed(listing, dirs) && Distinct(listing) && forall p | p in dirs :: p in listing
      modifies this
      ensures LongestFit(old(Candidates(listing, dirs)), old(dirs), cap, n)
      ensures dirs.Keys == set p | p in old(dirs) && (old(dirs)[p].failed ==>
                p in old(Candidates(listing, dirs))[..n]) :: p
      ensures forall p | p in dirs :: dirs[p] == old(dirs)[p]
    {
      hide NewestFirst, Failed, OnePerWorktree, Total;
      ghost var tree := dirs;
      var failed := NewestFirst(Failed(listing, dirs), dirs);
      FailedAreDistinct(listing, dirs);
      ghost var candidates := Candidates(listing, dirs);
      OnePerIsDistinct(failed, dirs, {});
      var kept := KeepOnePerWorktree(failed);
      assert dirs.Keys == tree.Keys - set p | p in failed && p !in kept :: p;
      SameTotals(kept, tree, dirs);
      n := EvictToCap(kept, cap);
      assert kept == kept[..n] + kept[n..];
      forall p | p in tree
        ensures p in dirs <==> (tree[p].failed ==> p in candidates[..n])
      {
        assert p in failed <==> tree[p].failed;
        assert p in kept <==> p in kept[..n] || p in kept[n..];
        ApartAt(kept, n, p);
      }
    }
  }

  lemma ApartAt(paths: seq<string>, n: nat, p: string)
    requires Distinct(paths) && n <= |paths|
    ensures p in paths[..n] ==> p !in paths[n..]
  {
  }

  lemma DistinctTail(first: string, rest: seq<string>)
    ensures Distinct([first] + rest) <==> Distinct(rest) && first !in rest
  {
    var paths := [first] + rest;
    assert forall k | 0 <= k < |rest| :: paths[k + 1] == rest[k];
    if Distinct(rest) && first !in rest {
      forall i, j | 0 <= i < j < |paths| ensures paths[i] != paths[j] {
        assert paths[j] == rest[j - 1] && rest[j - 1] in rest;
      }
    }
    if Distinct(paths) {
      forall i, j | 0 <= i < j < |rest| ensures rest[i] != rest[j] { assert paths[i + 1] != paths[j + 1]; }
      forall k | 0 <= k < |rest| ensures rest[k] != first { assert paths[0] != paths[k + 1]; }
    }
  }

  lemma {:induction false} DistinctIsCounted(paths: seq<string>)
    ensures Distinct(paths) <==> forall p :: multiset(paths)[p] <= 1
  {
    if paths != [] {
      var first, rest := paths[0], paths[1..];
      assert paths == [first] + rest;
      DistinctTail(first, rest);
      DistinctIsCounted(rest);
      assert multiset(paths) == multiset{first} + multiset(rest);
      assert first in rest <==> multiset(rest)[first] > 0;
      hide Distinct;
      if p :| multiset(rest)[p] > 1 { assert multiset(paths)[p] > 1; }
      if first in rest { assert multiset(paths)[first] > 1; }
    }
  }

  lemma {:induction false} FailedKeepsDistinct(listing: seq<string>, tree: Tree)
    requires Listed(listing, tree) && Distinct(listing)
    ensures Distinct(Failed(listing, tree))
  {
    if listing != [] {
      assert Distinct(listing[1..]);
      FailedKeepsDistinct(listing[1..], tree);
      forall k | 0 <= k < |Failed(listing[1..], tree)| ensures Failed(listing[1..], tree)[k] != listing[0] {
        assert Failed(listing[1..], tree)[k] in listing[1..];
      }
    }
  }

  lemma FailedAreDistinct(listing: seq<string>, tree: Tree)
    requires Listed(listing, tree) && Distinct(listing)
    ensures var failed := NewestFirst(Failed(listing, tree), tree);
            Distinct(failed) && forall p :: p in failed <==> p in listing && tree[p].failed
  {
    var failed := Failed(listing, tree);
    FailedKeepsDistinct(listing, tree);
    DistinctIsCounted(failed);
    DistinctIsCounted(NewestFirst(failed, tree));
    forall p ensures p in NewestFirst(failed, tree) <==> p in failed {
      assert p in multiset(failed) <==> p in failed;
      assert p in multiset(NewestFirst(failed, tree)) <==> p in NewestFirst(failed, tree);
    }
  }

  lemma {:induction false} OnePerIsDistinct(paths: seq<string>, tree: Tree, seen: set<string>)
    requires Listed(paths, tree)
    ensures Distinct(OnePerWorktree(paths, tree, seen))
    decreases |paths|
  {
    if paths != [] {
      var name := tree[paths[0]].worktree;
      OnePerIsDistinct(paths[1..], tree, seen + {name});
      OnePerIsDistinct(paths[1..], tree, seen);
      var rest := OnePerWorktree(paths[1..], tree, seen + {name});
      forall k | 0 <= k < |rest| ensures rest[k] != paths[0] { assert tree[rest[k]].worktree !in seen + {name}; }
    }
  }

  lemma {:induction false} SameTotal(paths: seq<string>, tree: Tree, dirs: Tree)
    requires Listed(paths, tree) && Listed(paths, dirs) && forall p | p in dirs :: p in tree && dirs[p] == tree[p]
    ensures Total(paths, dirs) == Total(paths, tree)
  {
    if paths != [] { SameTotal(paths[..|paths| - 1], tree, dirs); }
  }

  lemma SameTotals(kept: seq<string>, tree: Tree, dirs: Tree)
    requires Listed(kept, tree) && Listed(kept, dirs) && forall p | p in dirs :: p in tree && dirs[p] == tree[p]
    ensures forall m | 0 <= m <= |kept| :: Total(kept[..m], dirs) == Total(kept[..m], tree)
  {
    forall m | 0 <= m <= |kept| ensures Total(kept[..m], dirs) == Total(kept[..m], tree) {
      SameTotal(kept[..m], tree, dirs);
    }
  }

  // ----- Which directories are candidates -----

  /** A candidate is the newest failed directory of its worktree: of the ordered failed
      directories no earlier one has the same worktree. */
  lemma {:induction false} FirstOfItsWorktree(paths: seq<string>, tree: Tree, seen: set<string>, k: nat)
    requires Listed(paths, tree) && Distinct(paths) && k < |paths|
    ensures paths[k] in OnePerWorktree(paths, tree, seen)
            <==> tree[paths[k]].worktree !in seen
                 && forall i | 0 <= i < k :: tree[paths[i]].worktree != tree[paths[k]].worktree
    decreases |paths|
  {
    var name, rest := tree[paths[0]].worktree, paths[1..];
    var seen' := if name in seen then seen else seen + {name};
    assert forall i | 0 < i < |paths| :: paths[i] == rest[i - 1];
    if k > 0 {
      FirstOfItsWorktree(rest, tree, seen', k - 1);
      assert paths[0] != paths[k];
    } else if name in seen {
      assert paths[0] !in rest;
    }
  }

  /** The candidates are exactly the failed directories no failed directory of the same
      worktree is newer than, or as new and listed earlier in the order. */
  lemma CandidatesAreNewest(listing: seq<string>, tree: Tree)
    requires Listed(listing, tree) && Distinct(listing)
    ensures var failed := NewestFirst(Failed(listing, tree), tree);
            && Ordered(failed, tree)
            && forall k | 0 <= k < |failed| ::
                 failed[k] in Candidates(listing, tree)
                 <==> forall i | 0 <= i < k :: tree[failed[i]].worktree != tree[failed[k]].worktree
  {
    var failed := NewestFirst(Failed(listing, tree), tree);
    NewestFirstOrders(Failed(listing, tree), tree);
    FailedAreDistinct(listing, tree);
    forall k | 0 <= k < |failed|
      ensures failed[k] in Candidates(listing, tree)
              <==> forall i | 0 <= i < k :: tree[failed[i]].worktree != tree[failed[k]].worktree
    {
      FirstOfItsWorktree(failed, tree, {}, k);
    }
  }

  // ----- In which order they are kept -----

  predicate Earlier(listing: seq<string>, p: string, q: string)
  {
    exists i, j :: 0 <= i < j < |listing| && listing[i] == p && listing[j] == q
  }

  /** Newer, or as new and listed earlier. */
  predicate Precedes(listing: seq<string>, tree: Tree, p: string, q: string)
    requires p in tree && q in tree
  {
    tree[p].mtime > tree[q].mtime || (tree[p].mtime == tree[q].mtime && Earlier(listing, p, q))
  }

  predicate InOrder(paths: seq<string>, listing: seq<string>, tree: Tree)
    requires Listed(paths, tree)
  {
    forall i, j | 0 <= i < j < |paths| :: Precedes(listing, tree, paths[i], paths[j])
  }

  /** Nothing but the first of its worktree's failed directories is a candidate, and the candidates
      come newest first, those as new as each other in the order they are listed. */
  lemma CandidatesIff(listing: seq<string>, tree: Tree)
    requires Listed(listing, tree) && Distinct(listing)
    ensures var candidates := Candidates(listing, tree);
            && (forall p :: p in candidates
                  <==> p in listing && tree[p].failed
                       && forall q | q in listing && tree[q].failed && tree[q].worktree == tree[p].worktree && q != p ::
                            Precedes(listing, tree, p, q))
            && forall i, j | 0 <= i < j < |candidates| :: Precedes(listing, tree, candidates[i], candidates[j])
  {
    var failed := NewestFirst(Failed(listing, tree), tree);
    FailedAreDistinct(listing, tree);
    FailedKeepsListing(listing, tree);
    SortKeepsOrder(Failed(listing, tree), listing, tree);
    OnePerKeepsOrder(failed, listing, tree, {});
    forall k: nat | k < |failed| { FirstOfItsWorktree(failed, tree, {}, k); }
    forall p ensures p in Candidates(listing, tree) ==> p in failed {}
    hide NewestFirst, Failed, OnePerWorktree;
    forall k: nat | k < |failed|
      ensures failed[k] in Candidates(listing, tree)
              <==> forall q | q in failed && tree[q].worktree == tree[failed[k]].worktree && q != failed[k] ::
                     Precedes(listing, tree, failed[k], q)
    {
      FirstPrecedes(failed, listing, tree, k);
    }
  }

  /** In an ordered list, no earlier entry shares the worktree exactly when the entry precedes all others that do. */
  lemma FirstPrecedes(failed: seq<string>, listing: seq<string>, tree: Tree, k: nat)
    requires Listed(failed, tree) && Distinct(listing) && InOrder(failed, listing, tree) && k < |failed|
    ensures (forall i | 0 <= i < k :: tree[failed[i]].worktree != tree[failed[k]].worktree)
            <==> forall q | q in failed && tree[q].worktree == tree[failed[k]].worktree && q != failed[k] ::
                   Precedes(listing, tree, failed[k], q)
  {
    forall i: nat | i < k ensures failed[i] != failed[k] && !Precedes(listing, tree, failed[k], failed[i]) {
      NeverBothWays(listing, failed[i], failed[k]);
      assert Precedes(listing, tree, failed[i], failed[k]);
    }
  }

  lemma NeverBothWays(listing: seq<string>, p: string, q: string)
    requires Distinct(listing)
    ensures Earlier(listing, p, q) ==> !Earlier(listing, q, p) && p != q
  {
  }

  lemma EarlierInLonger(first: string, rest: seq<string>)
    ensures forall p, q | Earlier(rest, p, q) :: Earlier([first] + rest, p, q)
    ensures forall q | q in rest :: Earlier([first] + rest, first, q)
  {
    var listing := [first] + rest;
    forall p, q | Earlier(rest, p, q) ensures Earlier(listing, p, q) {
      var i, j :| 0 <= i < j < |rest| && rest[i] == p && rest[j] == q;
      assert listing[i + 1] == p && listing[j + 1] == q;
    }
    forall q | q in rest ensures Earlier(listing, first, q) {
      var j :| 0 <= j < |rest| && rest[j] == q;
      assert listing[0] == first && listing[j + 1] == q;
    }
  }

  lemma {:induction false} FailedKeepsListing(listing: seq<string>, tree: Tree)
    requires Listed(listing, tree)
    ensures var failed := Failed(listing, tree);
            forall i, j | 0 <= i < j < |failed| :: Earlier(listing, failed[i], failed[j])
  {
    if listing != [] {
      var first, rest := listing[0], listing[1..];
      assert listing == [first] + rest;
      FailedKeepsListing(rest, tree);
      EarlierInLonger(first, rest);
      assert Failed(listing, tree) == (if tree[first].failed then [first] else []) + Failed(rest, tree);
      assert forall k | 0 <= k < |Failed(rest, tree)| :: Failed(rest, tree)[k] in rest;
      hide Failed, Earlier;
    }
  }

  lemma {:induction false} InsertKeepsOrder(p: string, paths: seq<string>, listing: seq<string>, tree: Tree)
    requires p in tree && Listed(paths, tree) && InOrder(paths, listing, tree)
    requires forall q | q in paths :: Earlier(listing, p, q)
    ensures InOrder(Insert(p, paths, tree), listing, tree)
  {
    hide Earlier;
    if paths != [] && tree[p].mtime < tree[paths[0]].mtime {
      InsertKeepsOrder(p, paths[1..], listing, tree);
      var rest := Insert(p, paths[1..], tree);
      forall k | 0 <= k < |rest| ensures Precedes(listing, tree, paths[0], rest[k]) {
        assert rest[k] in multiset(rest);
        assert rest[k] in multiset(paths[1..]) || rest[k] == p;
        hide Insert;
      }
    } else {
      forall k | 0 <= k < |paths| ensures Precedes(listing, tree, p, paths[k]) {
        assert k > 0 ==> Precedes(listing, tree, paths[0], paths[k]);
      }
    }
  }

  lemma {:induction false} SortKeepsOrder(paths: seq<string>, listing: seq<string>, tree: Tree)
    requires Listed(paths, tree)
    requires forall i, j | 0 <= i < j < |paths| :: Earlier(listing, paths[i], paths[j])
    ensures InOrder(NewestFirst(paths, tree), listing, tree)
  {
    if paths != [] {
      var rest := paths[1..];
      SortKeepsOrder(rest, listing, tree);
      var sorted := NewestFirst(rest, tree);
      forall q | q in sorted ensures Earlier(listing, paths[0], q) {
        assert q in multiset(sorted);
        assert q in multiset(rest);
      }
      hide Earlier, Insert;
      InsertKeepsOrder(paths[0], sorted, listing, tree);
    }
  }

  lemma {:induction false} OnePerKeepsOrder(paths: seq<string>, listing: seq<string>, tree: Tree, seen: set<string>)
    requires Listed(paths, tree) && InOrder(paths, listing, tree)
    ensures InOrder(OnePerWorktree(paths, tree, seen), listing, tree)
    decreases |paths|
  {
    if paths != [] {
      var name := tree[paths[0]].worktree;
      OnePerKeepsOrder(paths[1..], listing, tree, seen + {name});
      OnePerKeepsOrder(paths[1..], listing, tree, seen);
      var rest := OnePerWorktree(paths[1..], tree, seen + {name});
      forall k | 0 <= k < |rest| ensures Precedes(listing, tree, paths[0], rest[k]) {
        assert rest[k] in paths[1..];
      }
    }
  }
}
