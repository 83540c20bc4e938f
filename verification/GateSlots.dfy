/**
 The slot protocol of scripts/gate_tools.py as an interleaved state machine.

 Every process runs `slot` twice: once over the heavy lock files, once over the light
 ones.  One step is one system call on one lock file: a non-blocking attempt to take it,
 or closing (releasing) it.  Any process may be interrupted between any two steps.
 */
module GateSlots {
  import opened Wrappers

  const MAX_LIGHT_SLOTS := 8

  datatype Kind = FullGate | Exclusive | Lane

  datatype Lock = Heavy(index: nat) | Light(index: nat)

  /** What a process does once it has closed the lock files it is closing. */
  datatype After = Retry | Proceed | Finish

  datatype Point =
    | HeavyTry(i: nat)
    | HeavyClose(i: nat, next: After)
    | LightTry(i: nat)
    | LightClose(i: nat, next: After)
    | Body
    | Done

  /** `heavy` and `light` are the counts this process computed for itself. */
  datatype Process = Process(kind: Kind, heavy: nat, light: nat, at: Point)
  {
    predicate IsGate() { kind != Lane }

    /** The number of light lock files this process opens: a gate drains one index
        beyond every index a lane may use. */
    function LightCount(): nat
    {
      if IsGate() && MAX_LIGHT_SLOTS + 1 > light then MAX_LIGHT_SLOTS + 1 else light
    }

    predicate Admissible() { heavy >= 1 && 1 <= light <= MAX_LIGHT_SLOTS }
  }

  datatype State = State(procs: seq<Process>, owner: map<Lock, nat>)

  predicate Holds(s: State, p: nat, l: Lock)
  {
    l in s.owner && s.owner[l] == p
  }

  predicate HoldsAllHeavy(s: State, p: nat, count: nat)
  {
    forall j: nat | j < count :: Holds(s, p, Heavy(j))
  }

  predicate HoldsAllLight(s: State, p: nat, count: nat)
  {
    forall j: nat | j < count :: Holds(s, p, Light(j))
  }

  function Goto(s: State, p: nat, at: Point): State
    requires p < |s.procs|
  {
    s.(procs := s.procs[p := s.procs[p].(at := at)])
  }

  /** A non-blocking exclusive lock attempt. */
  function TryLock(s: State, p: nat, l: Lock): State
  {
    if l in s.owner then s else s.(owner := s.owner[l := p])
  }

  /** Closing a handle releases the lock if this process took it. */
  function Close(s: State, p: nat, l: Lock): State
  {
    if Holds(s, p, l) then s.(owner := s.owner - {l}) else s
  }

  /** One step of process p. */
  function Step(s: State, p: nat): State
    requires p < |s.procs|
  {
    var me := s.procs[p];
    match me.at
    case HeavyTry(i) =>
      var taken := Heavy(i) !in s.owner;
      var s1 := TryLock(s, p, Heavy(i));
      if me.IsGate() then
        // Any one heavy slot will do.
        Goto(s1, p, if taken then LightTry(0) else if i + 1 < me.heavy then HeavyTry(i + 1) else HeavyTry(0))
      else if i + 1 < me.heavy then
        Goto(s1, p, HeavyTry(i + 1))
      else
        // A lane only observes: it needs to see every heavy slot free, then lets go of all.
        Goto(s1, p, HeavyClose(0, if HoldsAllHeavy(s1, p, me.heavy) then Proceed else Retry))
    case HeavyClose(i, next) =>
      if i < me.heavy then
        Goto(Close(s, p, Heavy(i)), p, HeavyClose(i + 1, next))
      else
        Goto(s, p, match next case Retry => HeavyTry(0) case Proceed => LightTry(0) case Finish => Done)
    case LightTry(i) =>
      var taken := Light(i) !in s.owner;
      var s1 := TryLock(s, p, Light(i));
      if !me.IsGate() then
        Goto(s1, p, if taken then Body else if i + 1 < me.light then LightTry(i + 1) else LightTry(0))
      else if i + 1 < me.LightCount() then
        Goto(s1, p, LightTry(i + 1))
      else
        Goto(s1, p, if HoldsAllLight(s1, p, me.LightCount()) then Body else LightClose(0, Retry))
    case LightClose(i, next) =>
      if i < me.LightCount() then
        Goto(Close(s, p, Light(i)), p, LightClose(i + 1, next))
      else
        Goto(s, p, if next == Finish then HeavyClose(0, Finish) else LightTry(0))
    case Body => Goto(s, p, LightClose(0, Finish))
    case Done => s
  }

  /** Abort covers the wait timeout, a signal, an I/O error and the death of the process:
      whatever the process was doing, it goes on to close every handle it has open. */
  datatype Action = Run(p: nat) | Abort(p: nat)

  function Apply(s: State, a: Action): State
  {
    if a.p >= |s.procs| || s.procs[a.p].at.Done? then s
    else if a.Run? then Step(s, a.p)
    else Goto(s, a.p, LightClose(0, Finish))
  }

  function Exec(s: State, acts: seq<Action>): State
    decreases |acts|
  {
    if acts == [] then s else Exec(Apply(s, acts[0]), acts[1..])
  }

  predicate Initial(s: State)
  {
    && s.owner == map[]
    && forall p: nat | p < |s.procs| :: s.procs[p].Admissible() && s.procs[p].at == HeavyTry(0)
  }

  /** The full gate, an exclusive command or a lane is doing what it took its slots for. */
  predicate InBody(s: State, p: nat)
  {
    p < |s.procs| && s.procs[p].at.Body?
  }

  // ----- What every step keeps -----

  /** p holds one of the first `count` heavy slots. */
  ghost predicate HoldsSomeHeavy(s: State, p: nat, count: nat)
  {
    exists j: nat :: j < count && Holds(s, p, Heavy(j))
  }

  /** What process p holds at each point of its program. */
  ghost predicate Local(s: State, p: nat)
    requires p < |s.procs|
  {
    var me := s.procs[p];
    && me.Admissible()
    && (forall l: Lock | Holds(s, p, l) :: if l.Heavy? then l.index < me.heavy else l.index < me.LightCount())
    && match me.at
       case HeavyTry(i) =>
         && i < me.heavy
         && (forall l: Lock | Holds(s, p, l) :: l.Heavy? && l.index < i && !me.IsGate())
       case HeavyClose(i, next) =>
         && i <= me.heavy
         && (next != Finish ==> !me.IsGate())
         && (forall l: Lock | Holds(s, p, l) :: l.Heavy? && i <= l.index)
       case LightTry(i) =>
         && i < me.LightCount()
         && (me.IsGate() ==> HoldsSomeHeavy(s, p, me.heavy))
         && (forall l: Lock | Holds(s, p, l) :: me.IsGate() && (l.Light? ==> l.index < i))
       case LightClose(i, next) =>
         && i <= me.LightCount()
         && next != Proceed
         && (next == Retry ==> me.IsGate() && HoldsSomeHeavy(s, p, me.heavy))
         && (forall l: Lock | Holds(s, p, l) && l.Light? :: i <= l.index)
       case Body =>
         if me.IsGate() then
           && HoldsAllLight(s, p, me.LightCount())
           && HoldsSomeHeavy(s, p, me.heavy)
         else
           && (exists j: nat :: j < me.light && Holds(s, p, Light(j)))
           && (forall l: Lock | Holds(s, p, l) :: l.Light?)
       case Done => forall l: Lock :: !Holds(s, p, l)
  }

  ghost predicate Inv(s: State)
  {
    && (forall l: Lock | l in s.owner :: s.owner[l] < |s.procs|)
    && (forall p: nat | p < |s.procs| :: Local(s, p))
  }

  /** s' differs from s only in process p and in locks p held or has taken. */
  ghost predicate OnlyMoved(s: State, s': State, p: nat)
  {
    && |s'.procs| == |s.procs|
    && p < |s.procs|
    && (forall q: nat | q < |s.procs| && q != p :: s'.procs[q] == s.procs[q])
    && (forall q: nat, l: Lock | q != p :: Holds(s', q, l) <==> Holds(s, q, l))
    && s'.procs[p] == s.procs[p].(at := s'.procs[p].at)
  }

  lemma StepMovesOnlyItself(s: State, a: Action)
    requires a.p < |s.procs|
    ensures OnlyMoved(s, Apply(s, a), a.p)
  {
  }

  lemma LocalIsFramed(s: State, s': State, p: nat, q: nat)
    requires OnlyMoved(s, s', p) && q != p && q < |s.procs| && Local(s, q)
    ensures Local(s', q)
  {
    assert forall l: Lock :: Holds(s', q, l) <==> Holds(s, q, l);
  }

  lemma HeavyTryKeepsLocal(s: State, p: nat)
    requires p < |s.procs| && Local(s, p) && s.procs[p].at.HeavyTry?
    ensures Local(Step(s, p), p)
  {
    var i := s.procs[p].at.i;
    if Heavy(i) !in s.owner { assert Holds(Step(s, p), p, Heavy(i)); }
  }

  lemma LightTryKeepsLocal(s: State, p: nat)
    requires p < |s.procs| && Local(s, p) && s.procs[p].at.LightTry?
    ensures Local(Step(s, p), p)
  {
    var i, me, s' := s.procs[p].at.i, s.procs[p], Step(s, p);
    if me.IsGate() {
      var j: nat :| j < me.heavy && Holds(s, p, Heavy(j));
      assert Holds(s', p, Heavy(j));
    } else if Light(i) !in s.owner {
      assert Holds(s', p, Light(i));
    }
  }

  lemma CloseKeepsLocal(s: State, p: nat)
    requires p < |s.procs| && Local(s, p) && (s.procs[p].at.HeavyClose? || s.procs[p].at.LightClose?)
    ensures Local(Step(s, p), p)
  {
    var me, s' := s.procs[p], Step(s, p);
    if me.at.LightClose? && me.at.next == Retry {
      var j: nat :| j < me.heavy && Holds(s, p, Heavy(j));
      assert Holds(s', p, Heavy(j));
    }
  }

  lemma StepKeepsLocal(s: State, a: Action)
    requires a.p < |s.procs| && Local(s, a.p)
    ensures Local(Apply(s, a), a.p)
  {
    if a.Run? {
      match s.procs[a.p].at
      case HeavyTry(_) => HeavyTryKeepsLocal(s, a.p);
      case HeavyClose(_, _) => CloseKeepsLocal(s, a.p);
      case LightTry(_) => LightTryKeepsLocal(s, a.p);
      case LightClose(_, _) => CloseKeepsLocal(s, a.p);
      case Body =>
      case Done =>
    }
  }

  lemma ApplyKeepsInv(s: State, a: Action)
    requires Inv(s)
    ensures Inv(Apply(s, a))
  {
    if a.p < |s.procs| {
      var s' := Apply(s, a);
      StepMovesOnlyItself(s, a);
      StepKeepsLocal(s, a);
      forall q: nat | q < |s'.procs| && q != a.p ensures Local(s', q) { LocalIsFramed(s, s', a.p, q); }
    }
  }

  lemma {:induction false} ExecKeepsInv(s: State, acts: seq<Action>)
    requires Inv(s)
    ensures Inv(Exec(s, acts)) && |Exec(s, acts).procs| == |s.procs|
    decreases |acts|
  {
    if acts != [] {
      ApplyKeepsInv(s, acts[0]);
      ExecKeepsInv(Apply(s, acts[0]), acts[1..]);
    }
  }

  // ----- Mutual exclusion -----

  lemma BodyHoldsALightSlot(s: State, p: nat) returns (j: nat)
    requires Inv(s) && InBody(s, p)
    ensures j <= MAX_LIGHT_SLOTS && Holds(s, p, Light(j))
  {
    assert Local(s, p);
    if s.procs[p].IsGate() {
      j := 0;
    } else {
      j :| j < s.procs[p].light && Holds(s, p, Light(j));
    }
  }

  /** In every interleaving, however each process sized itself, a full gate or exclusive
      command in its body excludes every other body, gate or lane. */
  lemma MutualExclusion(s: State, acts: seq<Action>, g: nat, q: nat)
    requires Initial(s)
    requires g != q && InBody(Exec(s, acts), g) && Exec(s, acts).procs[g].IsGate()
    ensures !InBody(Exec(s, acts), q)
  {
    var t := Exec(s, acts);
    ExecKeepsInv(s, acts);
    assert Local(t, g);
    if InBody(t, q) {
      var j := BodyHoldsALightSlot(t, q);
    }
  }

  /** A waiter between two scans holds no part of the set it is waiting for, and a lane
      that waits for a light slot, or has one, holds no heavy slot. */
  lemma WaitersHoldNoPartialSet(s: State, acts: seq<Action>, p: nat, l: Lock)
    requires Initial(s) && p < |Exec(s, acts).procs| && Holds(Exec(s, acts), p, l)
    ensures var me := Exec(s, acts).procs[p];
            && me.at != HeavyTry(0)
            && (me.at == LightTry(0) ==> me.IsGate() && l.Heavy?)
            && (!me.IsGate() && (me.at.LightTry? || me.at.Body?) ==> l.Light?)
  {
    ExecKeepsInv(s, acts);
    assert Local(Exec(s, acts), p);
  }

  // ----- How a process sizes itself -----

  const GB := 1024 * 1024 * 1024
  const DEFAULT_SLOT_WAIT := 3600.0

  /** An environment variable that should hold a number. */
  datatype Setting<T> = Unset | Malformed | Number(n: T)

  /** One reading of the host's memory; None where it cannot be read. */
  datatype Host = Host(total: Option<int>, available: Option<int>, cores: int)

  datatype SlotCounts = SlotCounts(heavy: nat, light: nat, wait: real)

  datatype SettingError = MalformedSetting | NegativeWait | HeavyBelowOne | LightBelowOne

  function DynamicLightSlots(host: Host): int
  {
    match host.available
    case None => 1
    case Some(available) =>
      var usable := available - 2 * GB;
      if usable <= 0 then 1
      else
        var byRam, byCpu := usable / GB, host.cores / 2;
        Max(1, Min(MAX_LIGHT_SLOTS, Min(byRam, byCpu)))
  }

  function DynamicHeavySlots(host: Host): int
  {
    if host.total.None? || host.available.None? then 1
    else if host.total.value >= 32 * GB && host.available.value >= 8 * GB && host.cores >= 12 then 2
    else 1
  }

  function Min(a: int, b: int): int { if a <= b then a else b }
  function Max(a: int, b: int): int { if a >= b then a else b }

  function ResolveSlotCounts(heavy: Setting<int>, light: Setting<int>, wait: Setting<real>, host: Host)
    : (r: Result<SlotCounts, SettingError>)
    // Every process that gets as far as taking slots has at least one heavy slot and a
    // light count inside the range a full gate drains, whatever it was told or read.
    ensures r.Ok? ==> r.value.heavy >= 1 && 1 <= r.value.light <= MAX_LIGHT_SLOTS && r.value.wait >= 0.0
  {
    if wait.Malformed? then Err(MalformedSetting)
    else
      var w := if wait.Unset? then DEFAULT_SLOT_WAIT else wait.n;
      if w < 0.0 then Err(NegativeWait)
      else if heavy.Malformed? then Err(MalformedSetting)
      else if heavy.Number? && heavy.n < 1 then Err(HeavyBelowOne)
      else if light.Malformed? then Err(MalformedSetting)
      else if light.Number? && light.n < 1 then Err(LightBelowOne)
      else
        Ok(SlotCounts(
          if heavy.Number? then heavy.n else DynamicHeavySlots(host),
          if light.Number? then Min(light.n, MAX_LIGHT_SLOTS) else DynamicLightSlots(host),
          w))
  }

  /** Room for n light slots: a GiB for each above the two held back, and two cores for each. */
  predicate Room(host: Host, n: int)
  {
    host.available.Some? && host.available.value >= (2 + n) * 0x4000_0000 && host.cores >= 2 * n
  }

  /** The most light slots there is room for, one at the least and eight at the most. */
  lemma LightSlotsIff(host: Host, n: int)
    ensures DynamicLightSlots(host) == n
            <==> && 1 <= n <= 8
                 && (n > 1 ==> Room(host, n)) && (n < 8 ==> !Room(host, n + 1))
  {
    if host.available.Some? {
      var usable := host.available.value - 2 * GB;
      assert forall m :: usable / GB >= m <==> usable >= m * GB;
    }
  }

  /** What a process is given: the numbers it was told, light slots up to eight, and for those it was
      not told the host's: the light slots it has room for, and a second heavy slot on twelve cores and
      32 GiB with 8 of them free.  Nothing when a number is malformed or too small. */
  ghost predicate Sized(heavy: Setting<int>, light: Setting<int>, wait: Setting<real>, host: Host, c: SlotCounts)
  {
    && (match wait case Unset => c.wait == 3600.0 case Malformed => false case Number(w) => w >= 0.0 && c.wait == w)
    && (match heavy
        case Unset =>
          c.heavy in {1, 2} && (c.heavy == 2
            <==> host.total.Some? && host.total.value >= 0x8_0000_0000 && host.available.Some?
                 && host.available.value >= 0x2_0000_0000 && host.cores >= 12)
        case Malformed => false
        case Number(n) => n > 0 && c.heavy == n)
    && (match light
        case Unset =>
          c.light in {1, 2, 3, 4, 5, 6, 7, 8}
          && (c.light > 1 ==> Room(host, c.light)) && (c.light < 8 ==> !Room(host, c.light + 1))
        case Malformed => false
        case Number(n) => n > 0 && c.light == if n > 8 then 8 else n)
  }

  lemma ResolveIff(heavy: Setting<int>, light: Setting<int>, wait: Setting<real>, host: Host, c: SlotCounts)
    ensures ResolveSlotCounts(heavy, light, wait, host) == Ok(c) <==> Sized(heavy, light, wait, host, c)
  {
    LightSlotsIff(host, c.light);
    hide DynamicLightSlots, Room;
  }

  // ----- No deadlock: every waiter can still reach its body -----

  /** The schedule `acts` interrupts nobody and leads from s to t. */
  ghost predicate Schedule(s: State, acts: seq<Action>, t: State)
  {
    Exec(s, acts) == t && forall k: nat | k < |acts| :: acts[k].Run?
  }

  lemma {:induction false} ExecConcat(s: State, a: seq<Action>, b: seq<Action>)
    ensures Exec(s, a + b) == Exec(Exec(s, a), b)
    decreases |a|
  {
    if a == [] {
      assert a + b == b;
    } else {
      assert (a + b)[1..] == a[1..] + b;
      ExecConcat(Apply(s, a[0]), a[1..], b);
    }
  }

  lemma ThenSchedule(s: State, a: seq<Action>, t: State, b: seq<Action>, u: State)
    requires Schedule(s, a, t) && Schedule(t, b, u)
    ensures Schedule(s, a + b, u)
  {
    ExecConcat(s, a, b);
  }

  /** Waiting for slots, or about to: not yet in the body and not on the way out. */
  predicate Waiting(at: Point)
  {
    match at
    case HeavyTry(_) => true
    case HeavyClose(_, next) => next != Finish
    case LightTry(_) => true
    case LightClose(_, next) => next != Finish
    case Body => false
    case Done => false
  }

  predicate Settled(at: Point)
  {
    at == HeavyTry(0) || at == LightTry(0) || at.Body? || at.Done?
  }

  /** Steps a process can take on its own before it is settled. */
  function StepsToSettle(me: Process): int
  {
    var h, l := me.heavy, me.LightCount();
    match me.at
    case HeavyClose(i, _) => h - i + 1
    case LightClose(i, next) => l - i + 1 + if next == Finish then h + 2 else 0
    case HeavyTry(i) => if i == 0 then 0 else h - i + h + 3
    case LightTry(i) => if i == 0 then 0 else l - i + l + 3
    case Body => 0
    case Done => 0
  }

  lemma OneStep(s: State, p: nat) returns (t: State)
    requires Inv(s) && p < |s.procs| && !s.procs[p].at.Done?
    ensures t == Step(s, p) && Inv(t) && OnlyMoved(s, t, p) && Schedule(s, [Run(p)], t)
  {
    t := Apply(s, Run(p));
    ApplyKeepsInv(s, Run(p));
    StepMovesOnlyItself(s, Run(p));
    assert [Run(p)][1..] == [];
    assert Exec(t, []) == t;
  }

  lemma StepSettles(s: State, p: nat)
    requires p < |s.procs| && Inv(s) && Inv(Step(s, p)) && OnlyMoved(s, Step(s, p), p) && !Settled(s.procs[p].at)
    ensures !s.procs[p].at.Body? && 0 <= StepsToSettle(Step(s, p).procs[p]) < StepsToSettle(s.procs[p])
    ensures Waiting(s.procs[p].at) ==> Waiting(Step(s, p).procs[p].at) || Step(s, p).procs[p].at.Body?
  {
    assert Local(s, p) && Local(Step(s, p), p);
  }

  lemma {:induction false} Settle(s: State, p: nat) returns (acts: seq<Action>, t: State)
    requires Inv(s) && p < |s.procs|
    ensures Schedule(s, acts, t) && Inv(t) && OnlyMoved(s, t, p) && Settled(t.procs[p].at)
    ensures Waiting(s.procs[p].at) || s.procs[p].at.Body? ==> !t.procs[p].at.Done?
    decreases StepsToSettle(s.procs[p])
  {
    if Settled(s.procs[p].at) {
      acts, t := [], s;
    } else {
      var s1 := OneStep(s, p);
      StepSettles(s, p);
      hide *;
      var rest;
      rest, t := Settle(s1, p);
      acts := [Run(p)] + rest;
      ThenSchedule(s, [Run(p)], s1, rest, t);
    }
  }

  predicate Leaving(at: Point)
  {
    at.Body? || at.Done? || (at.HeavyClose? && at.next == Finish) || (at.LightClose? && at.next == Finish)
  }

  function StepsToLeave(me: Process): int
  {
    match me.at
    case Body => me.heavy + me.LightCount() + 4
    case LightClose(i, _) => me.heavy + me.LightCount() - i + 3
    case HeavyClose(i, _) => me.heavy - i + 1
    case _ => 0
  }

  /** A process in its body or on the way out needs nobody else to get to its end. */
  lemma {:induction false} Leave(s: State, p: nat) returns (acts: seq<Action>, t: State)
    requires Inv(s) && p < |s.procs| && Leaving(s.procs[p].at)
    ensures Schedule(s, acts, t) && Inv(t) && OnlyMoved(s, t, p) && t.procs[p].at.Done?
    decreases StepsToLeave(s.procs[p])
  {
    assert Local(s, p);
    if s.procs[p].at.Done? {
      acts, t := [], s;
    } else {
      var s1 := OneStep(s, p);
      assert Local(s1, p);
      var rest;
      rest, t := Leave(s1, p);
      acts := [Run(p)] + rest;
      ThenSchedule(s, [Run(p)], s1, rest, t);
    }
  }

  /** Once nobody else holds a light slot, one scan is enough. */
  lemma {:induction false} EnterFromLight(s: State, p: nat) returns (acts: seq<Action>, t: State)
    requires Inv(s) && p < |s.procs| && s.procs[p].at.LightTry?
    requires !s.procs[p].IsGate() ==> s.procs[p].at.i == 0
    requires forall j: nat | Light(j) in s.owner :: s.owner[Light(j)] == p
    requires HoldsAllLight(s, p, s.procs[p].at.i)
    ensures Schedule(s, acts, t) && Inv(t) && OnlyMoved(s, t, p) && InBody(t, p)
    decreases s.procs[p].LightCount() - s.procs[p].at.i
  {
    assert Local(s, p);
    var i := s.procs[p].at.i;
    assert Light(i) !in s.owner;
    var s1 := OneStep(s, p);
    assert Holds(s1, p, Light(i));
    acts, t := [Run(p)], s1;
    if s1.procs[p].at.LightTry? {
      assert Local(s1, p);
      var rest;
      rest, t := EnterFromLight(s1, p);
      acts := [Run(p)] + rest;
      ThenSchedule(s, [Run(p)], s1, rest, t);
    }
  }

  /** With every lock free, or this process's own, a waiter gets all the way from its first
      heavy attempt to its body. */
  lemma {:induction false} EnterAlone(s: State, p: nat) returns (acts: seq<Action>, t: State)
    requires Inv(s) && p < |s.procs|
    requires forall l: Lock | l in s.owner :: s.owner[l] == p
    requires var at := s.procs[p].at;
             || (at.HeavyTry? && HoldsAllHeavy(s, p, at.i) && (s.procs[p].IsGate() ==> at.i == 0))
             || (at.HeavyClose? && at.next == Proceed)
             || at == LightTry(0)
    ensures Schedule(s, acts, t) && Inv(t) && OnlyMoved(s, t, p) && InBody(t, p)
    decreases if s.procs[p].at.HeavyTry? then 2 else if s.procs[p].at.HeavyClose? then 1 else 0,
              s.procs[p].heavy - if s.procs[p].at.LightTry? then 0 else s.procs[p].at.i
  {
    assert Local(s, p);
    if s.procs[p].at.LightTry? {
      acts, t := EnterFromLight(s, p);
    } else {
      var s1 := OneStep(s, p);
      assert Local(s1, p);
      if s.procs[p].at.HeavyTry? {
        assert Heavy(s.procs[p].at.i) !in s.owner;
        assert Holds(s1, p, Heavy(s.procs[p].at.i));
      }
      var rest;
      rest, t := EnterAlone(s1, p);
      acts := [Run(p)] + rest;
      ThenSchedule(s, [Run(p)], s1, rest, t);
    }
  }

  /** Between scans: in no body and holding no light slot. */
  predicate Quiet(at: Point)
  {
    at == HeavyTry(0) || at == LightTry(0) || at.Done?
  }

  /** The processes below k other than p have been brought between scans. */
  lemma {:induction false} QuietBelow(s: State, p: nat, k: nat) returns (acts: seq<Action>, t: State)
    requires Inv(s) && p < |s.procs| && k <= |s.procs|
    ensures Schedule(s, acts, t) && Inv(t) && |t.procs| == |s.procs| && t.procs[p] == s.procs[p]
    ensures forall q: nat | q < k && q != p :: Quiet(t.procs[q].at)
  {
    if k == 0 {
      acts, t := [], s;
    } else {
      var a, u := QuietBelow(s, p, k - 1);
      if k - 1 == p {
        acts, t := a, u;
      } else {
        var b, v := Settle(u, k - 1);
        ThenSchedule(s, a, u, b, v);
        acts, t := a + b, v;
        if v.procs[k - 1].at.Body? {
          var c, w := Leave(v, k - 1);
          ThenSchedule(s, a + b, v, c, w);
          acts, t := a + b + c, w;
        }
      }
    }
  }

  lemma QuietMeansNoLight(s: State, p: nat, j: nat)
    requires Inv(s) && forall q: nat | q < |s.procs| :: Quiet(s.procs[q].at)
    ensures Light(j) !in s.owner
  {
    if Light(j) in s.owner {
      assert Local(s, s.owner[Light(j)]);
      assert Holds(s, s.owner[Light(j)], Light(j));
    }
  }

  /** From there, the ones below k that hold a heavy slot run to their end, one by one. */
  lemma {:induction false} DrainBelow(s: State, p: nat, k: nat) returns (acts: seq<Action>, t: State)
    requires Inv(s) && p < |s.procs| && k <= |s.procs|
    requires forall q: nat | q < |s.procs| :: Quiet(s.procs[q].at)
    ensures Schedule(s, acts, t) && Inv(t) && |t.procs| == |s.procs| && t.procs[p] == s.procs[p]
    ensures forall q: nat | q < |s.procs| :: Quiet(t.procs[q].at)
    ensures forall q: nat | q < k && q != p :: t.procs[q].at == HeavyTry(0) || t.procs[q].at.Done?
  {
    if k == 0 {
      acts, t := [], s;
    } else {
      var a, u := DrainBelow(s, p, k - 1);
      if k - 1 == p || !u.procs[k - 1].at.LightTry? {
        acts, t := a, u;
      } else {
        forall j: nat ensures Light(j) !in u.owner { QuietMeansNoLight(u, p, j); }
        var b, v := EnterFromLight(u, k - 1);
        var c, w := Leave(v, k - 1);
        ThenSchedule(s, a, u, b, v);
        ThenSchedule(s, a + b, v, c, w);
        acts, t := a + b + c, w;
      }
    }
  }

  /** No deadlock: in every reachable state every waiter has a schedule, interrupting
      nobody, that takes it to its body. */
  lemma EveryWaiterCanReachItsBody(s0: State, before: seq<Action>, p: nat) returns (acts: seq<Action>)
    requires Initial(s0) && p < |s0.procs| && Waiting(WaiterAt(s0, before, p))
    ensures forall k: nat | k < |acts| :: acts[k].Run?
    ensures InBody(Exec(s0, before + acts), p)
  {
    var s := Exec(s0, before);
    ExecKeepsInv(s0, before);
    var a, t := Settle(s, p);
    if !t.procs[p].at.Body? {
      var b, u := QuietBelow(t, p, |t.procs|);
      var c, v := DrainBelow(u, p, |u.procs|);
      ThenSchedule(s, a, t, b, u);
      ThenSchedule(s, a + b, u, c, v);
      var d, w := EnterAfterDrain(v, p);
      ThenSchedule(s, a + b + c, v, d, w);
      a, t := a + b + c + d, w;
    }
    acts := a;
    ExecConcat(s0, before, acts);
  }

  function WaiterAt(s0: State, before: seq<Action>, p: nat): Point
  {
    var s := Exec(s0, before);
    if p < |s.procs| then s.procs[p].at else Done
  }

  lemma EnterAfterDrain(s: State, p: nat) returns (acts: seq<Action>, t: State)
    requires Inv(s) && p < |s.procs| && (s.procs[p].at == HeavyTry(0) || s.procs[p].at == LightTry(0))
    requires forall q: nat | q < |s.procs| && q != p :: s.procs[q].at == HeavyTry(0) || s.procs[q].at.Done?
    ensures Schedule(s, acts, t) && InBody(t, p)
  {
    forall l: Lock | l in s.owner ensures s.owner[l] == p {
      assert Local(s, s.owner[l]);
      assert Holds(s, s.owner[l], l);
    }
    acts, t := EnterAlone(s, p);
  }

  // ----- Draining: a gate that holds a heavy slot shuts the observer -----

  /** A lane that has seen every heavy slot free: it may take a light slot, or has one. */
  predicate PassedObserver(me: Process)
  {
    && !me.IsGate()
    && match me.at
       case HeavyClose(_, next) => next == Proceed
       case LightTry(_) => true
       case LightClose(_, _) => false
       case HeavyTry(_) => false
       case Body => true
       case Done => false
  }

  /** The lanes the holder of heavy slot j still has to wait for, among those it can stop. */
  function LanesPast(s: State, j: nat): set<nat>
  {
    set q: nat | q < |s.procs| && s.procs[q].heavy > j && PassedObserver(s.procs[q])
  }

  /** Getting past the observer takes every heavy slot the lane knows of. */
  lemma PassingTakesEveryHeavySlot(s: State, a: Action, q: nat)
    requires Inv(s) && q < |s.procs|
    ensures var s' := Apply(s, a);
            |s'.procs| == |s.procs|
            && (PassedObserver(s'.procs[q]) ==>
                  PassedObserver(s.procs[q]) || HoldsAllHeavy(s', q, s.procs[q].heavy))
  {
    assert Local(s, q);
    if a.p < |s.procs| { StepMovesOnlyItself(s, a); }
  }

  lemma DrainStep(s: State, a: Action, g: nat, j: nat)
    requires Inv(s) && g < |s.procs| && Holds(s, g, Heavy(j)) && s.procs[g].IsGate()
    requires Holds(Apply(s, a), g, Heavy(j))
    ensures LanesPast(Apply(s, a), j) <= LanesPast(s, j)
  {
    var s' := Apply(s, a);
    if a.p < |s.procs| { StepMovesOnlyItself(s, a); }
    forall q: nat | q in LanesPast(s', j) ensures q in LanesPast(s, j) {
      PassingTakesEveryHeavySlot(s, a, q);
    }
  }

  /** g holds heavy slot j in every state of the run. */
  ghost predicate HoldsThroughout(s: State, acts: seq<Action>, g: nat, j: nat)
    decreases |acts|
  {
    && g < |s.procs| && s.procs[g].IsGate() && Holds(s, g, Heavy(j))
    && (acts != [] ==> HoldsThroughout(Apply(s, acts[0]), acts[1..], g, j))
  }

  /** While a gate holds heavy slot j, no lane that observes slot j gets past the observer,
      so the lanes it has to wait for only become fewer.  When all processes computed the
      same heavy count, these are all the lanes. */
  lemma {:induction false} DrainNeverGrows(s: State, acts: seq<Action>, g: nat, j: nat)
    requires Inv(s) && HoldsThroughout(s, acts, g, j)
    ensures LanesPast(Exec(s, acts), j) <= LanesPast(s, j)
    ensures (forall q: nat | q < |s.procs| :: s.procs[q].heavy == s.procs[g].heavy) ==>
              forall q: nat | q < |Exec(s, acts).procs| && PassedObserver(Exec(s, acts).procs[q]) ::
                q < |s.procs| && PassedObserver(s.procs[q])
    decreases |acts|
  {
    ExecKeepsInv(s, acts);
    if acts != [] {
      ApplyKeepsInv(s, acts[0]);
      DrainStep(s, acts[0], g, j);
      DrainNeverGrows(Apply(s, acts[0]), acts[1..], g, j);
    }
    HeavyCountsNeverChange(s, acts);
    assert Local(s, g);
    forall q: nat | q < |s.procs| && s.procs[q].heavy == s.procs[g].heavy && PassedObserver(Exec(s, acts).procs[q])
      ensures PassedObserver(s.procs[q])
    {
      assert q in LanesPast(Exec(s, acts), j);
    }
  }

  lemma {:induction false} HeavyCountsNeverChange(s: State, acts: seq<Action>)
    ensures |Exec(s, acts).procs| == |s.procs|
    ensures forall q: nat | q < |s.procs| ::
              Exec(s, acts).procs[q].heavy == s.procs[q].heavy && Exec(s, acts).procs[q].kind == s.procs[q].kind
    decreases |acts|
  {
    if acts != [] {
      if acts[0].p < |s.procs| { StepMovesOnlyItself(s, acts[0]); }
      HeavyCountsNeverChange(Apply(s, acts[0]), acts[1..]);
    }
  }

  function Repeat(p: nat, n: nat): seq<Action>
  {
    if n == 0 then [] else [Run(p)] + Repeat(p, n - 1)
  }

  /** The equal counts are needed.  With a gate alone on heavy slot j, a lane about to
      observe gets past it in one scan exactly when it counts j heavy slots or fewer. */
  lemma ObserverBlockedExactly(s: State, g: nat, j: nat, p: nat)
    requires Inv(s) && g < |s.procs| && p < |s.procs| && g != p
    requires Holds(s, g, Heavy(j)) && forall i: nat | Heavy(i) in s.owner :: i == j
    requires s.procs[p].kind == Lane && s.procs[p].at == HeavyTry(0)
    ensures var t := Exec(s, Repeat(p, s.procs[p].heavy));
            |t.procs| == |s.procs| && (PassedObserver(t.procs[p]) <==> s.procs[p].heavy <= j)
  {
    assert Local(s, p);
    ObserverScan(s, g, j, p);
  }

  lemma {:induction false} ObserverScan(s: State, g: nat, j: nat, p: nat)
    requires g < |s.procs| && p < |s.procs| && g != p && s.procs[p].kind == Lane
    requires s.procs[p].at.HeavyTry? && s.procs[p].at.i < s.procs[p].heavy
    requires Holds(s, g, Heavy(j))
    requires forall k: nat | Heavy(k) in s.owner ::
               k == j || (s.owner[Heavy(k)] == p && k < s.procs[p].at.i)
    requires forall k: nat | k < s.procs[p].at.i && k != j :: Holds(s, p, Heavy(k))
    ensures var t := Exec(s, Repeat(p, s.procs[p].heavy - s.procs[p].at.i));
            |t.procs| == |s.procs| && (PassedObserver(t.procs[p]) <==> s.procs[p].heavy <= j)
    decreases s.procs[p].heavy - s.procs[p].at.i
  {
    var i, n := s.procs[p].at.i, s.procs[p].heavy;
    var acts := Repeat(p, n - i);
    assert acts[0] == Run(p) && acts[1..] == Repeat(p, n - i - 1);
    var s1 := Apply(s, acts[0]);
    if i + 1 < n {
      ObserverScan(s1, g, j, p);
    } else {
      assert !Holds(s1, p, Heavy(j));
      assert HoldsAllHeavy(s1, p, n) <==> n <= j by {
        if n <= j {
          forall k: nat | k < n ensures Holds(s1, p, Heavy(k)) { if k == i { assert Heavy(i) !in s.owner; } }
        }
      }
      assert Exec(s1, []) == s1;
    }
  }
}
