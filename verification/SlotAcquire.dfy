/**
 Taking slots (`slot` in scripts/gate_tools.py): one process's scan-and-retry loop over its lock
 files, while other processes take and release them.  How such loops interleave is in GateSlots.
 */
module SlotAcquire {
  import opened Wrappers

  datatype SlotError = NOT_POSITIVE | SLOT_WAIT_TIMEOUT

  /** What `slot` is asked for: any one slot, a look at all of them free, or all of them held. */
  datatype Mode = AnyOne | Observe | All(drainMax: Option<nat>)

  function LockCount(mode: Mode, count: nat): nat
  {
    if mode.All? && mode.drainMax.Some? && mode.drainMax.value + 1 > count then mode.drainMax.value + 1 else count
  }

  /** The slots a caller may proceed with. */
  predicate Enough(mode: Mode, count: nat, acquired: seq<nat>)
  {
    if mode.AnyOne? then |acquired| == 1 && acquired[0] < count
    else |acquired| == LockCount(mode, count) && forall k | 0 <= k < |acquired| :: acquired[k] == k
  }

  class LockFiles {
    /** The locks other processes hold when this one makes its t-th attempt. */
    const env: nat -> set<nat>
    var clock: nat
    var mine: set<nat>
    /** What was held at each wait between scans. */
    ghost var waits: seq<set<nat>>

    /** The i-th lock was taken when a scan begun at the given time came to it. */
    predicate Busy(start: nat, i: nat) { i in env(start + i) }

    constructor (env: nat -> set<nat>)
      ensures mine == {} && waits == [] && this.env == env && clock == 0
    {
      this.env, clock, mine, waits := env, 0, {}, [];
    }

    /** flock(LOCK_EX | LOCK_NB): no process takes a lock this one holds. */
    method TryLock(i: nat) returns (ok: bool)
      modifies this`clock, this`mine
      ensures mine == if ok then old(mine) + {i} else old(mine)
      ensures ok <==> i in old(mine) || i !in env(old(clock))
      ensures clock == old(clock) + 1
    {
      var others := env(clock) - mine;
      clock := clock + 1;
      ok := i !in others;
      if ok { mine := mine + {i}; }
    }

    method Unlock(i: nat)
      modifies this`mine
      ensures mine == old(mine) - {i}
    {
      mine := mine - {i};
    }

    method UnlockAll(acquired: seq<nat>)
      requires forall i :: i in mine <==> i in acquired
      modifies this`mine
      ensures mine == {}
    {
      for k := 0 to |acquired|
        invariant forall i | i in mine :: i in acquired[k..]
      {
        Unlock(acquired[k]);
      }
    }

    /** One pass over the lock files, in order. */
    method Scan(mode: Mode, lockCount: nat) returns (acquired: seq<nat>)
      requires mine == {}
      modifies this`clock, this`mine
      ensures forall i :: i in mine <==> i in acquired
      ensures forall k | 0 <= k < |acquired| :: acquired[k] < lockCount
      ensures forall j, k | 0 <= j < k < |acquired| :: acquired[j] < acquired[k]
      // Every lock free when its turn comes is taken; with one the scan is over in that mode.
      ensures mode.AnyOne? ==>
                && |acquired| <= 1
                && forall i: nat | i < lockCount && (acquired == [] || i < acquired[0]) :: Busy(old(clock), i)
      ensures mode.AnyOne? && acquired != [] ==> !Busy(old(clock), acquired[0])
      ensures !mode.AnyOne? ==>
                forall i: nat | i < lockCount :: i in acquired <==> !Busy(old(clock), i)
      ensures old(clock) <= clock
    {
      acquired := [];
      var i := 0;
      while i < lockCount
        invariant forall i :: i in mine <==> i in acquired
        invariant forall k | 0 <= k < |acquired| :: acquired[k] < i <= lockCount
        invariant forall j, k | 0 <= j < k < |acquired| :: acquired[j] < acquired[k]
        invariant mode.AnyOne? ==> acquired == []
        invariant clock == old(clock) + i
        invariant mode.AnyOne? ==> forall j: nat | j < i :: Busy(old(clock), j)
        invariant !mode.AnyOne? ==> forall j: nat | j < i :: j in acquired <==> !Busy(old(clock), j)
      {
        var ok := TryLock(i);
        if ok {
          acquired := acquired + [i];
          if mode.AnyOne? { return; }
        }
        i := i + 1;
      }
    }

    /** Enter the slot, or give up after `scans` passes: with exactly the slots the mode asks
        for, or with none; and never waiting with a part of them. */
    method Enter(mode: Mode, count: int, scans: nat) returns (r: Result<seq<nat>, SlotError>)
      requires mine == {}
      modifies this`clock, this`mine, this`waits
      ensures r.Ok? ==> count >= 1 && Enough(mode, count, r.value) && forall i :: i in mine <==> i in r.value
      ensures r.Err? ==> mine == {}
      ensures r == Err(NOT_POSITIVE) <==> count < 1
      ensures old(waits) <= waits && forall w | w in waits[|old(waits)|..] :: w == {}
      // Giving up takes all the passes, and does not happen to a process nobody competes with.
      ensures r == Err(SLOT_WAIT_TIMEOUT) ==> |waits| == |old(waits)| + scans
      ensures count >= 1 && (forall t | t >= old(clock) :: env(t) == {}) ==> r.Ok? && waits == old(waits)
    {
      if count < 1 { return Err(NOT_POSITIVE); }
      var lockCount := LockCount(mode, count);
      var left := scans;
      while true
        invariant mine == {} && 0 <= left <= scans && old(clock) <= clock
        invariant |waits| == |old(waits)| + scans - left
        invariant (forall t | t >= old(clock) :: env(t) == {}) ==> left == scans && waits == old(waits)
        invariant old(waits) <= waits && forall w | w in waits[|old(waits)|..] :: w == {}
        decreases left
      {
        ghost var start := clock;
        var acquired := Scan(mode, lockCount);
        if forall t | t >= old(clock) :: env(t) == {} {
          forall i: nat ensures !Busy(start, i) { assert env(start + i) == {}; }
          assert !Busy(start, 0);
          if !mode.AnyOne? { AllTaken(acquired, lockCount); }
        }
        if (mode.Observe? && |acquired| == lockCount) || (!mode.Observe? && acquired != []) {
          if mode.All? && |acquired| < lockCount {
            UnlockAll(acquired);
          } else {
            if !mode.AnyOne? {
              if acquired != [] { AtLeast(acquired, |acquired| - 1); }
              FullScan(acquired, lockCount);
            }
            return Ok(acquired);
          }
        } else {
          UnlockAll(acquired);
        }
        if left == 0 { return Err(SLOT_WAIT_TIMEOUT); }
        ghost var before := waits;
        waits := waits + [mine];
        assert waits[|old(waits)|..] == before[|old(waits)|..] + [mine];
        left := left - 1;
      }
    }

    /** Leaving, by whatever way, closes every handle. */
    method Leave(acquired: seq<nat>)
      requires forall i :: i in mine <==> i in acquired
      modifies this`mine
      ensures mine == {}
    {
      UnlockAll(acquired);
    }
  }

  /** As many distinct indices below n as n are all of them. */
  lemma {:induction false} FullScan(acquired: seq<nat>, n: nat)
    requires |acquired| == n && forall k | 0 <= k < |acquired| :: acquired[k] < n
    requires forall j, k | 0 <= j < k < |acquired| :: acquired[j] < acquired[k]
    ensures forall k | 0 <= k < |acquired| :: acquired[k] == k
  {
    if n > 0 {
      AtLeast(acquired, n - 1);
      FullScan(acquired[..n - 1], n - 1);
    }
  }

  lemma {:induction false} AllTaken(acquired: seq<nat>, n: nat)
    requires forall i, j | 0 <= i < j < |acquired| :: acquired[i] < acquired[j]
    requires forall k | 0 <= k < |acquired| :: acquired[k] < n
    requires forall i: nat | i < n :: i in acquired
    ensures |acquired| == n
  {
    if n > 0 {
      var last := |acquired| - 1;
      var top: nat := n - 1;
      assert top in acquired;
      var j :| 0 <= j < |acquired| && acquired[j] == top;
      forall i: nat | i < n - 1 ensures i in acquired[..last] {
        assert i in acquired;
        var k :| 0 <= k < |acquired| && acquired[k] == i;
        assert acquired[..last][k] == i;
      }
      AllTaken(acquired[..last], n - 1);
    }
  }

  lemma {:induction false} AtLeast(acquired: seq<nat>, k: nat)
    requires k < |acquired| && forall i, j | 0 <= i < j < |acquired| :: acquired[i] < acquired[j]
    ensures acquired[k] >= k
  {
    if k > 0 { AtLeast(acquired, k - 1); }
  }

  /** A full gate that drains up to the lane ceiling holds a slot in common with every lane,
      whatever counts the two computed, so flock never admits both. */
  lemma GateAndLaneCollide(gateCount: nat, laneCount: nat, ceiling: nat, gate: seq<nat>, lane: seq<nat>)
    requires Enough(All(Some(ceiling)), gateCount, gate) && Enough(AnyOne, laneCount, lane) && laneCount <= ceiling + 1
    ensures lane[0] in gate
  {
    assert gate[lane[0]] == lane[0];
  }
}
