/**
 What each part of the slot protocol comes to when a process runs it without interference: a whole
 pass over its lock files at a time (scripts/gate_tools.py).  The steps in between are GateSlots'.
 */
module GateLaw {
  import opened GateSlots
  import opened Wrappers

  type Owners = map<Lock, nat>

  /** The state with process p elsewhere in its program, and other owners. */
  function Put(s: State, p: nat, at: Point, owner: Owners): State
    requires p < |s.procs|
  {
    State(s.procs[p := s.procs[p].(at := at)], owner)
  }

  function LockAt(heavy: bool, i: nat): Lock { if heavy then Heavy(i) else Light(i) }

  function TryAt(heavy: bool, i: nat): Point { if heavy then HeavyTry(i) else LightTry(i) }

  function CloseAt(heavy: bool, i: nat, next: After): Point
  {
    if heavy then HeavyClose(i, next) else LightClose(i, next)
  }

  lemma PutPut(s: State, p: nat, a: Point, o: Owners, b: Point, o': Owners)
    requires p < |s.procs|
    ensures p < |Put(s, p, a, o).procs| && Put(Put(s, p, a, o), p, b, o') == Put(s, p, b, o')
  {
    assert Put(Put(s, p, a, o), p, b, o').procs == Put(s, p, b, o').procs;
  }

  lemma PutSame(s: State, p: nat)
    requires p < |s.procs|
    ensures Put(s, p, s.procs[p].at, s.owner) == s
  {
    assert s.procs[p := s.procs[p].(at := s.procs[p].at)] == s.procs;
  }

  lemma Unroll(s: State, p: nat, n: nat)
    requires n > 0
    ensures Exec(s, Repeat(p, n)) == Exec(Apply(s, Run(p)), Repeat(p, n - 1))
  {
    assert Repeat(p, n)[0] == Run(p) && Repeat(p, n)[1..] == Repeat(p, n - 1);
  }

  // ----- Taking any one slot: a gate a heavy one, a lane a light one -----

  /** The slots of that kind a process that takes one looks at. */
  function Looked(me: Process): nat { if me.IsGate() then me.heavy else me.light }

  lemma {:induction false} TakesFirstFree(s: State, p: nat, k: nat, i: nat)
    requires p < |s.procs| && k <= i < Looked(s.procs[p]) && s.procs[p].at == TryAt(s.procs[p].IsGate(), k)
    requires forall j: nat | k <= j < i :: LockAt(s.procs[p].IsGate(), j) in s.owner
    requires LockAt(s.procs[p].IsGate(), i) !in s.owner
    ensures var me := s.procs[p];
            Exec(s, Repeat(p, i - k + 1))
            == Put(s, p, if me.IsGate() then LightTry(0) else Body, s.owner[LockAt(me.IsGate(), i) := p])
    decreases i - k
  {
    var heavy := s.procs[p].IsGate();
    Unroll(s, p, i - k + 1);
    var t := Apply(s, Run(p));
    if k < i {
      assert LockAt(heavy, k) in s.owner;
      assert t == Put(s, p, TryAt(heavy, k + 1), s.owner);
      TakesFirstFree(t, p, k + 1, i);
      PutPut(s, p, TryAt(heavy, k + 1), s.owner, if heavy then LightTry(0) else Body, s.owner[LockAt(heavy, i) := p]);
    } else {
      assert Exec(t, []) == t;
    }
  }

  lemma {:induction false} FindsNoneFree(s: State, p: nat, k: nat)
    requires p < |s.procs| && k < Looked(s.procs[p]) && s.procs[p].at == TryAt(s.procs[p].IsGate(), k)
    requires forall j: nat | k <= j < Looked(s.procs[p]) :: LockAt(s.procs[p].IsGate(), j) in s.owner
    ensures Exec(s, Repeat(p, Looked(s.procs[p]) - k)) == Put(s, p, TryAt(s.procs[p].IsGate(), 0), s.owner)
    decreases Looked(s.procs[p]) - k
  {
    var heavy, n := s.procs[p].IsGate(), Looked(s.procs[p]);
    Unroll(s, p, n - k);
    var t := Apply(s, Run(p));
    assert LockAt(heavy, k) in s.owner;
    if k + 1 < n {
      assert t == Put(s, p, TryAt(heavy, k + 1), s.owner);
      FindsNoneFree(t, p, k + 1);
      PutPut(s, p, TryAt(heavy, k + 1), s.owner, TryAt(heavy, 0), s.owner);
    } else {
      assert Exec(t, []) == t;
    }
  }

  // ----- Taking all slots: a lane, to look, every heavy one; a gate, to keep, every light one -----

  /** A lane looks at the heavy slots it counts; a gate drains nine light ones, or more if it counts more. */
  function Wanted(me: Process): nat { if !me.IsGate() then me.heavy else if me.light > 9 then me.light else 9 }

  /** Of the locks k to n of the kind, those that were free are now p's, and nothing else changed. */
  ghost predicate Grabbed(o: Owners, o': Owners, heavy: bool, k: nat, n: nat, p: nat)
  {
    forall l: Lock ::
      if l in o then l in o' && o'[l] == o[l]
      else if exists j: nat :: k <= j < n && l == LockAt(heavy, j) then l in o' && o'[l] == p
      else l !in o'
  }

  /** All of the first n are p's. */
  ghost predicate HasAll(o: Owners, heavy: bool, n: nat, p: nat)
  {
    forall j: nat | j < n :: LockAt(heavy, j) in o && o[LockAt(heavy, j)] == p
  }

  /** Where the pass leads: on with all of them, to closing them otherwise; a lane closes them either way. */
  function AfterPass(me: Process, all: bool): Point
  {
    if me.IsGate() then if all then Body else LightClose(0, Retry)
    else HeavyClose(0, if all then Proceed else Retry)
  }

  lemma PutIs(s: State, p: nat, at: Point, owner: Owners)
    requires p < |s.procs|
    ensures var t, me := Put(s, p, at, owner), s.procs[p];
            && p < |t.procs| && t.procs[p].at == at && t.owner == owner
            && t.procs[p].IsGate() == me.IsGate() && Wanted(t.procs[p]) == Wanted(me)
            && t.procs[p].LightCount() == me.LightCount() && t.procs[p].heavy == me.heavy
            && (forall all :: AfterPass(t.procs[p], all) == AfterPass(me, all))
            && forall heavy :: Opened(t.procs[p], heavy) == Opened(me, heavy)
  {
  }

  lemma GrabStep(s: State, p: nat, k: nat)
    requires p < |s.procs| && k < Wanted(s.procs[p]) && s.procs[p].at == TryAt(!s.procs[p].IsGate(), k)
    ensures var me, l := s.procs[p], LockAt(!s.procs[p].IsGate(), k);
            var o := if l in s.owner then s.owner else s.owner[l := p];
            Apply(s, Run(p))
            == Put(s, p, if k + 1 < Wanted(me) then TryAt(!me.IsGate(), k + 1)
                         else AfterPass(me, HasAll(o, !me.IsGate(), Wanted(me), p)), o)
  {
    var me, l := s.procs[p], LockAt(!s.procs[p].IsGate(), k);
    var o := if l in s.owner then s.owner else s.owner[l := p];
    assert TryLock(s, p, l) == State(s.procs, o);
    HasAllIff(State(s.procs, o), !me.IsGate(), Wanted(me), p);
    hide HasAll, HoldsAllHeavy, HoldsAllLight;
  }

  lemma GrabLast(s: State, p: nat, k: nat)
    requires p < |s.procs| && k + 1 == Wanted(s.procs[p]) && s.procs[p].at == TryAt(!s.procs[p].IsGate(), k)
    ensures var me := s.procs[p];
            var t := Exec(s, Repeat(p, 1));
            && t == Put(s, p, AfterPass(me, HasAll(t.owner, !me.IsGate(), Wanted(me), p)), t.owner)
            && Grabbed(s.owner, t.owner, !me.IsGate(), k, Wanted(me), p)
  {
    var l := LockAt(!s.procs[p].IsGate(), k);
    var o := if l in s.owner then s.owner else s.owner[l := p];
    Unroll(s, p, 1);
    GrabStep(s, p, k);
    assert Exec(Apply(s, Run(p)), Repeat(p, 0)) == Apply(s, Run(p));
    hide Apply, Exec, Repeat, HasAll, AfterPass;
    GrabbedLast(s.owner, o, !s.procs[p].IsGate(), k, p);
  }

  lemma {:induction false} GrabsFree(s: State, p: nat, k: nat)
    requires p < |s.procs| && k < Wanted(s.procs[p]) && s.procs[p].at == TryAt(!s.procs[p].IsGate(), k)
    ensures var me := s.procs[p];
            var t := Exec(s, Repeat(p, Wanted(me) - k));
            && t == Put(s, p, AfterPass(me, HasAll(t.owner, !me.IsGate(), Wanted(me), p)), t.owner)
            && Grabbed(s.owner, t.owner, !me.IsGate(), k, Wanted(me), p)
    decreases Wanted(s.procs[p]) - k
  {
    var me := s.procs[p];
    var heavy, n := !me.IsGate(), Wanted(me);
    if k + 1 < n {
      var l := LockAt(heavy, k);
      var o1 := if l in s.owner then s.owner else s.owner[l := p];
      Unroll(s, p, n - k);
      GrabStep(s, p, k);
      var s1 := Apply(s, Run(p));
      PutIs(s, p, TryAt(heavy, k + 1), o1);
      hide Apply, Exec, Repeat, Grabbed, HasAll, Put, Wanted, AfterPass, TryAt;
      GrabsFree(s1, p, k + 1);
      var t := Exec(s1, Repeat(p, n - k - 1));
      PutPut(s, p, TryAt(heavy, k + 1), o1, AfterPass(me, HasAll(t.owner, heavy, n, p)), t.owner);
      GrabbedMore(s.owner, o1, t.owner, heavy, k, n, p);
    } else {
      GrabLast(s, p, k);
    }
  }

  lemma GrabbedLast(o: Owners, o1: Owners, heavy: bool, k: nat, p: nat)
    requires o1 == if LockAt(heavy, k) in o then o else o[LockAt(heavy, k) := p]
    ensures Grabbed(o, o1, heavy, k, k + 1, p)
  {
  }

  lemma HasAllIff(s: State, heavy: bool, n: nat, p: nat)
    ensures HasAll(s.owner, heavy, n, p) <==> if heavy then HoldsAllHeavy(s, p, n) else HoldsAllLight(s, p, n)
  {
    assert forall j: nat :: Holds(s, p, LockAt(heavy, j))
             <==> LockAt(heavy, j) in s.owner && s.owner[LockAt(heavy, j)] == p;
    assert forall j: nat :: heavy ==> LockAt(heavy, j) == Heavy(j);
    assert forall j: nat :: !heavy ==> LockAt(heavy, j) == Light(j);
    if heavy && HoldsAllHeavy(s, p, n) {
      forall j: nat | j < n ensures Holds(s, p, LockAt(heavy, j)) { assert Holds(s, p, Heavy(j)); }
    }
    if !heavy && HoldsAllLight(s, p, n) {
      forall j: nat | j < n ensures Holds(s, p, LockAt(heavy, j)) { assert Holds(s, p, Light(j)); }
    }
    if HasAll(s.owner, heavy, n, p) {
      forall j: nat | j < n ensures Holds(s, p, LockAt(heavy, j)) {}
    }
  }

  lemma GrabbedMore(o: Owners, o1: Owners, o2: Owners, heavy: bool, k: nat, n: nat, p: nat)
    requires k < n && Grabbed(o1, o2, heavy, k + 1, n, p)
    requires o1 == if LockAt(heavy, k) in o then o else o[LockAt(heavy, k) := p]
    ensures Grabbed(o, o2, heavy, k, n, p)
  {
    forall l: Lock
      ensures if l in o then l in o2 && o2[l] == o[l]
              else if exists j: nat :: k <= j < n && l == LockAt(heavy, j) then l in o2 && o2[l] == p
              else l !in o2
    {
      if l == LockAt(heavy, k) { assert l in o1; }
      assert (exists j: nat :: k <= j < n && l == LockAt(heavy, j))
        <==> l == LockAt(heavy, k) || exists j: nat :: k + 1 <= j < n && l == LockAt(heavy, j);
    }
  }

  // ----- Closing -----

  /** p's locks k to n of the kind are free, and nothing else changed. */
  ghost predicate Released(o: Owners, o': Owners, heavy: bool, k: nat, n: nat, p: nat)
  {
    forall l: Lock ::
      if l in o && o[l] == p && exists j: nat :: k <= j < n && l == LockAt(heavy, j) then l !in o'
      else (l in o' <==> l in o) && (l in o ==> o'[l] == o[l])
  }

  function Opened(me: Process, heavy: bool): nat { if heavy then me.heavy else me.LightCount() }

  function AfterClose(heavy: bool, next: After): Point
  {
    if heavy then match next case Retry => HeavyTry(0) case Proceed => LightTry(0) case Finish => Done
    else if next == Finish then HeavyClose(0, Finish) else LightTry(0)
  }

  lemma CloseStep(s: State, p: nat, heavy: bool, k: nat, next: After)
    requires p < |s.procs| && k <= Opened(s.procs[p], heavy) && s.procs[p].at == CloseAt(heavy, k, next)
    ensures var l := LockAt(heavy, k);
            Apply(s, Run(p))
            == if k < Opened(s.procs[p], heavy) then
                 Put(s, p, CloseAt(heavy, k + 1, next),
                     if l in s.owner && s.owner[l] == p then s.owner - {l} else s.owner)
               else Put(s, p, AfterClose(heavy, next), s.owner)
  {
  }

  lemma {:induction false} ReleasesHeld(s: State, p: nat, heavy: bool, k: nat, next: After)
    requires p < |s.procs| && k <= Opened(s.procs[p], heavy) && s.procs[p].at == CloseAt(heavy, k, next)
    ensures var n := Opened(s.procs[p], heavy);
            var t := Exec(s, Repeat(p, n - k + 1));
            && t == Put(s, p, AfterClose(heavy, next), t.owner)
            && Released(s.owner, t.owner, heavy, k, n, p)
    decreases Opened(s.procs[p], heavy) - k
  {
    var n := Opened(s.procs[p], heavy);
    Unroll(s, p, n - k + 1);
    CloseStep(s, p, heavy, k, next);
    var s1 := Apply(s, Run(p));
    var l := LockAt(heavy, k);
    if k < n {
      var o1 := if l in s.owner && s.owner[l] == p then s.owner - {l} else s.owner;
      PutIs(s, p, CloseAt(heavy, k + 1, next), o1);
      assert Opened(s1.procs[p], heavy) == n;
      hide Apply, Exec, Repeat, Released, Put, Opened, CloseAt, AfterClose;
      ReleasesHeld(s1, p, heavy, k + 1, next);
      var t := Exec(s1, Repeat(p, n - k));
      PutPut(s, p, CloseAt(heavy, k + 1, next), o1, AfterClose(heavy, next), t.owner);
      ReleasedMore(s.owner, o1, t.owner, heavy, k, n, p);
    } else {
      assert Exec(s1, Repeat(p, 0)) == s1;
      hide Apply, Exec, Repeat;
    }
  }

  lemma ReleasedMore(o: Owners, o1: Owners, o2: Owners, heavy: bool, k: nat, n: nat, p: nat)
    requires k < n && Released(o1, o2, heavy, k + 1, n, p)
    requires o1 == if LockAt(heavy, k) in o && o[LockAt(heavy, k)] == p then o - {LockAt(heavy, k)} else o
    ensures Released(o, o2, heavy, k, n, p)
  {
    forall l: Lock
      ensures if l in o && o[l] == p && exists j: nat :: k <= j < n && l == LockAt(heavy, j) then l !in o2
              else (l in o2 <==> l in o) && (l in o ==> o2[l] == o[l])
    {
      assert (exists j: nat :: k <= j < n && l == LockAt(heavy, j))
        <==> l == LockAt(heavy, k) || exists j: nat :: k + 1 <= j < n && l == LockAt(heavy, j);
    }
  }

  // ----- Whole passes -----

  lemma {:induction false} RepeatSum(p: nat, a: nat, b: nat)
    ensures Repeat(p, a + b) == Repeat(p, a) + Repeat(p, b)
  {
    if a > 0 { RepeatSum(p, a - 1, b); }
  }

  lemma InTurn(s: State, p: nat, a: nat, b: nat)
    ensures Exec(s, Repeat(p, a + b)) == Exec(Exec(s, Repeat(p, a)), Repeat(p, b))
  {
    RepeatSum(p, a, b);
    ExecConcat(s, Repeat(p, a), Repeat(p, b));
  }

  predicate Free(s: State, heavy: bool, i: nat) { LockAt(heavy, i) !in s.owner }

  ghost predicate AllFree(s: State, heavy: bool, n: nat) { forall j: nat | j < n :: Free(s, heavy, j) }

  ghost predicate NoneFree(s: State, heavy: bool, n: nat) { forall j: nat | j < n :: !Free(s, heavy, j) }

  ghost predicate HoldsNone(s: State, heavy: bool, p: nat) { forall j: nat :: !Holds(s, p, LockAt(heavy, j)) }

  /** A gate for its heavy slot, and a lane for its light one: the first free slot of those it counts, and
      only that; with none free it has changed nothing and starts over. */
  lemma AnySlotPass(s: State, p: nat)
    requires p < |s.procs| && s.procs[p].Admissible() && s.procs[p].at == TryAt(s.procs[p].IsGate(), 0)
    ensures var me, heavy := s.procs[p], s.procs[p].IsGate();
            var n := if heavy then me.heavy else me.light;
            && (forall i: nat | i < n && Free(s, heavy, i) && NoneFree(s, heavy, i) ::
                  Exec(s, Repeat(p, i + 1))
                  == Put(s, p, if heavy then LightTry(0) else Body, s.owner[LockAt(heavy, i) := p]))
            && (NoneFree(s, heavy, n) ==> Exec(s, Repeat(p, n)) == s)
  {
    var me, heavy := s.procs[p], s.procs[p].IsGate();
    hide Exec, Repeat, NoneFree, Put;
    forall i: nat | i < Looked(me) && Free(s, heavy, i) && NoneFree(s, heavy, i)
      ensures Exec(s, Repeat(p, i + 1))
              == Put(s, p, if heavy then LightTry(0) else Body, s.owner[LockAt(heavy, i) := p])
    {
      NoneFreeIs(s, heavy, i);
      TakesFirstFree(s, p, 0, i);
    }
    if NoneFree(s, heavy, Looked(me)) {
      NoneFreeIs(s, heavy, Looked(me));
      FindsNoneFree(s, p, 0);
      PutSame(s, p);
    }
  }

  lemma NoneFreeIs(s: State, heavy: bool, n: nat)
    requires NoneFree(s, heavy, n)
    ensures forall j: nat | j < n :: LockAt(heavy, j) in s.owner
  {
    forall j: nat | j < n ensures LockAt(heavy, j) in s.owner { assert !Free(s, heavy, j); }
  }

  /** Nobody has any of the first n of the kind. */
  ghost predicate Unowned(o: Owners, heavy: bool, n: nat) { forall j: nat | j < n :: LockAt(heavy, j) !in o }

  ghost predicate OwnsNone(o: Owners, heavy: bool, p: nat)
  {
    forall j: nat :: !(LockAt(heavy, j) in o && o[LockAt(heavy, j)] == p)
  }

  lemma GrabbedAllIff(o: Owners, o': Owners, heavy: bool, n: nat, p: nat)
    requires Grabbed(o, o', heavy, 0, n, p) && OwnsNone(o, heavy, p)
    ensures HasAll(o', heavy, n, p) <==> Unowned(o, heavy, n)
  {
    if HasAll(o', heavy, n, p) {
      forall j: nat | j < n ensures LockAt(heavy, j) !in o {
        assert LockAt(heavy, j) in o' && o'[LockAt(heavy, j)] == p;
      }
    }
  }

  lemma ReleasedAgain(o: Owners, o1: Owners, o2: Owners, heavy: bool, n: nat, p: nat)
    requires Grabbed(o, o1, heavy, 0, n, p) && Released(o1, o2, heavy, 0, n, p)
    requires OwnsNone(o, heavy, p)
    ensures o2 == o
  {
    forall l: Lock ensures (l in o2 <==> l in o) && (l in o ==> o2[l] == o[l]) {
      assert l in o && o[l] == p ==> forall j: nat :: l != LockAt(heavy, j);
    }
  }

  lemma SlotIff(l: Lock, heavy: bool, n: nat)
    ensures (exists j: nat :: 0 <= j < n && l == LockAt(heavy, j)) <==> l.Heavy? == heavy && l.index < n
  {
    if l.Heavy? == heavy { assert l == LockAt(heavy, l.index); }
  }

  /** The process takes all the slots of the kind, n of them, in order to close or to keep them. */
  predicate TakesAll(me: Process, heavy: bool, n: nat)
  {
    heavy == !me.IsGate() && me.at == TryAt(heavy, 0) && 0 < n == Wanted(me) == Opened(me, heavy)
  }

  lemma GrabUntilClose(s: State, p: nat, heavy: bool, n: nat, next: After)
    requires p < |s.procs| && TakesAll(s.procs[p], heavy, n) && OwnsNone(s.owner, heavy, p)
    requires AfterPass(s.procs[p], Unowned(s.owner, heavy, n)) == CloseAt(heavy, 0, next)
    ensures var t := Exec(s, Repeat(p, n));
            t == Put(s, p, CloseAt(heavy, 0, next), t.owner) && Grabbed(s.owner, t.owner, heavy, 0, n, p)
  {
    hide Exec, Repeat, Grabbed, HasAll, OwnsNone, Unowned, AfterPass, CloseAt, Put;
    GrabsFree(s, p, 0);
    GrabbedAllIff(s.owner, Exec(s, Repeat(p, n)).owner, heavy, n, p);
  }

  lemma CloseBack(s: State, t: State, p: nat, heavy: bool, next: After)
    requires p < |s.procs| && t == Put(s, p, CloseAt(heavy, 0, next), t.owner) && OwnsNone(s.owner, heavy, p)
    requires Grabbed(s.owner, t.owner, heavy, 0, Opened(s.procs[p], heavy), p)
    ensures Exec(t, Repeat(p, Opened(s.procs[p], heavy) + 1)) == Put(s, p, AfterClose(heavy, next), s.owner)
  {
    var n := Opened(s.procs[p], heavy);
    hide *;
    PutIs(s, p, CloseAt(heavy, 0, next), t.owner);
    ReleasesHeld(t, p, heavy, 0, next);
    var u := Exec(t, Repeat(p, n + 1));
    ReleasedAgain(s.owner, t.owner, u.owner, heavy, n, p);
    PutPut(s, p, CloseAt(heavy, 0, next), t.owner, AfterClose(heavy, next), s.owner);
  }

  /** A pass that ends in closing what it took leaves every owner as it was. */
  lemma GrabAndClose(s: State, p: nat, heavy: bool, n: nat, next: After)
    requires p < |s.procs| && TakesAll(s.procs[p], heavy, n) && OwnsNone(s.owner, heavy, p)
    requires AfterPass(s.procs[p], Unowned(s.owner, heavy, n)) == CloseAt(heavy, 0, next)
    ensures Exec(s, Repeat(p, n + (n + 1))) == Put(s, p, AfterClose(heavy, next), s.owner)
  {
    assert n == Opened(s.procs[p], heavy);
    hide *;
    GrabUntilClose(s, p, heavy, n, next);
    CloseBack(s, Exec(s, Repeat(p, n)), p, heavy, next);
    InTurn(s, p, n, n + 1);
  }

  lemma NoneIsOwned(s: State, heavy: bool, p: nat)
    requires HoldsNone(s, heavy, p)
    ensures OwnsNone(s.owner, heavy, p)
  {
    forall j: nat ensures !(LockAt(heavy, j) in s.owner && s.owner[LockAt(heavy, j)] == p) {
      assert !Holds(s, p, LockAt(heavy, j));
    }
  }

  /** A lane looking at the heavy slots: it goes on exactly if it could take every one it counts, and
      keeps none either way. */
  lemma ObservePass(s: State, p: nat)
    requires p < |s.procs| && s.procs[p].Admissible() && !s.procs[p].IsGate() && s.procs[p].at == HeavyTry(0)
    requires HoldsNone(s, true, p)
    ensures var n := s.procs[p].heavy;
            Exec(s, Repeat(p, n + (n + 1))) == if AllFree(s, true, n) then Put(s, p, LightTry(0), s.owner) else s
  {
    FreeIff(s, true, s.procs[p].heavy);
    NoneIsOwned(s, true, p);
    PutSame(s, p);
    hide Exec, Repeat, HoldsNone, AllFree, Put, OwnsNone, Unowned;
    GrabAndClose(s, p, true, s.procs[p].heavy, if AllFree(s, true, s.procs[p].heavy) then Proceed else Retry);
  }

  lemma FreeIff(s: State, heavy: bool, n: nat)
    ensures AllFree(s, heavy, n) <==> Unowned(s.owner, heavy, n)
  {
    if AllFree(s, heavy, n) {
      forall j: nat | j < n ensures LockAt(heavy, j) !in s.owner { assert Free(s, heavy, j); }
    }
  }

  /** A gate draining the light slots: with the nine of them free it is in its body and holds those
      nine more; otherwise it gives back what it took and starts over. */
  lemma DrainPass(s: State, p: nat)
    requires p < |s.procs| && s.procs[p].Admissible() && s.procs[p].IsGate() && s.procs[p].at == LightTry(0)
    requires HoldsNone(s, false, p)
    ensures if AllFree(s, false, 9) then
              Exec(s, Repeat(p, 9)) == Put(s, p, Body, s.owner + map j: nat | j < 9 :: Light(j) := p)
            else Exec(s, Repeat(p, 9 + 10)) == s
  {
    var me := s.procs[p];
    assert Wanted(me) == 9 && me.LightCount() == 9;
    FreeIff(s, false, 9);
    PutSame(s, p);
    NoneIsOwned(s, false, p);
    hide Exec, Repeat, Grabbed, HasAll, HoldsNone, AllFree, Put, OwnsNone, Unowned;
    if AllFree(s, false, 9) {
      GrabsFree(s, p, 0);
      var t := Exec(s, Repeat(p, 9));
      GrabbedAllIff(s.owner, t.owner, false, 9, p);
      NineMore(s.owner, t.owner, p);
    } else {
      GrabAndClose(s, p, false, 9, Retry);
    }
  }

  lemma NineMore(o: Owners, o': Owners, p: nat)
    requires Grabbed(o, o', false, 0, 9, p) && Unowned(o, false, 9)
    ensures o' == o + map j: nat | j < 9 :: Light(j) := p
  {
    var all := o + map j: nat | j < 9 :: Light(j) := p;
    forall l: Lock ensures (l in o' <==> l in all) && (l in all ==> o'[l] == all[l]) {
      SlotIff(l, false, 9);
      assert l.Light? && l.index < 9 ==> l == LockAt(false, l.index);
    }
  }

  lemma CloseBoth(s: State, p: nat, light: nat, heavy: nat) returns (o1: Owners, o2: Owners)
    requires p < |s.procs| && s.procs[p].at == LightClose(0, Finish)
    requires light == s.procs[p].LightCount() && heavy == s.procs[p].heavy
    ensures Released(s.owner, o1, false, 0, light, p) && Released(o1, o2, true, 0, heavy, p)
    ensures Exec(s, Repeat(p, (light + 1) + (heavy + 1))) == Put(s, p, Done, o2)
  {
    hide Exec, Repeat, Released;
    ReleasesHeld(s, p, false, 0, Finish);
    var s1 := Exec(s, Repeat(p, light + 1));
    o1 := s1.owner;
    assert s1 == Put(s, p, HeavyClose(0, Finish), o1);
    ReleasesHeld(s1, p, true, 0, Finish);
    o2 := Exec(s1, Repeat(p, heavy + 1)).owner;
    PutPut(s, p, HeavyClose(0, Finish), o1, Done, o2);
    InTurn(s, p, light + 1, heavy + 1);
  }

  /** Leaving its body a process gives back everything it holds, and nothing else changes. */
  lemma LeavingPass(s: State, p: nat)
    requires Inv(s) && p < |s.procs| && s.procs[p].at == Body
    ensures var me := s.procs[p];
            var n := if me.IsGate() then 9 else me.light;
            Exec(s, Repeat(p, 1 + ((n + 1) + (me.heavy + 1))))
            == Put(s, p, Done, map l | l in s.owner && s.owner[l] != p :: s.owner[l])
  {
    LocksAreCounted(s, p);
    assert Apply(s, Run(p)) == Put(s, p, LightClose(0, Finish), s.owner);
    hide *;
    LeaveAll(s, p, s.procs[p].LightCount(), s.procs[p].heavy);
  }

  lemma LeaveAll(s: State, p: nat, light: nat, heavy: nat)
    requires p < |s.procs| && Apply(s, Run(p)) == Put(s, p, LightClose(0, Finish), s.owner)
    requires light == s.procs[p].LightCount() && heavy == s.procs[p].heavy
    requires forall l | l in s.owner && s.owner[l] == p :: l.index < if l.Heavy? then heavy else light
    ensures Exec(s, Repeat(p, 1 + ((light + 1) + (heavy + 1))))
            == Put(s, p, Done, map l | l in s.owner && s.owner[l] != p :: s.owner[l])
  {
    hide *;
    var t := Put(s, p, LightClose(0, Finish), s.owner);
    PutIs(s, p, LightClose(0, Finish), s.owner);
    Unroll(s, p, 1 + ((light + 1) + (heavy + 1)));
    var o1, o2 := CloseBoth(t, p, light, heavy);
    AllReleased(s.owner, o1, o2, heavy, light, p);
    PutPut(s, p, LightClose(0, Finish), s.owner, Done, o2);
  }

  lemma LocksAreCounted(s: State, p: nat)
    requires Inv(s) && p < |s.procs|
    ensures var me := s.procs[p];
            && me.LightCount() == (if me.IsGate() then 9 else me.light)
            && forall l | l in s.owner && s.owner[l] == p :: l.index < if l.Heavy? then me.heavy else me.LightCount()
  {
    assert Local(s, p);
    forall l | l in s.owner && s.owner[l] == p
      ensures l.index < if l.Heavy? then s.procs[p].heavy else s.procs[p].LightCount()
    {
      assert Holds(s, p, l);
    }
  }

  lemma AllReleased(o: Owners, o1: Owners, o2: Owners, heavy: nat, light: nat, p: nat)
    requires Released(o, o1, false, 0, light, p) && Released(o1, o2, true, 0, heavy, p)
    requires forall l | l in o && o[l] == p :: l.index < if l.Heavy? then heavy else light
    ensures o2 == map l | l in o && o[l] != p :: o[l]
  {
    forall l: Lock
      ensures if l in o && o[l] == p then l !in o2 else (l in o2 <==> l in o) && (l in o ==> o2[l] == o[l])
    {
      SlotIff(l, false, light);
      SlotIff(l, true, heavy);
    }
  }

  /** The counts a process may have are those it can be given. */
  lemma AdmissibleIff(me: Process)
    ensures me.Admissible()
            <==> exists heavy, light, wait, host ::
                   var r := ResolveSlotCounts(heavy, light, wait, host);
                   r.Ok? && r.value.heavy == me.heavy && r.value.light == me.light
  {
    if me.Admissible() {
      var r := ResolveSlotCounts(Number(me.heavy), Number(me.light), Unset, Host(None, None, 1));
      assert r.Ok? && r.value.heavy == me.heavy && r.value.light == me.light;
    }
  }
}
