/**
 The autonomous supervisor of src/saberops/autonomous_runtime.py.

 `Decide` is one decision over durable state.  Everything it consults besides the
 attempts of the run -- owner authority, the binding registry, the candidate ladder,
 effort resolution and the failover verdict -- is an environment that may be different
 at every decision.
 */
module Supervisor {
  import opened Text
  import opened Wrappers

  datatype Role = WORKER | ORCHESTRATOR

  datatype Binding = Binding(id: string, role: Role, provider: string, model: string,
                             profile: string, pool: string)

  /** A registry never declares one binding id twice. */
  type Registry = bs: seq<Binding> | forall i, j | 0 <= i < j < |bs| :: bs[i].id != bs[j].id

  /** `bindingId` is empty for a static candidate. */
  datatype Candidate = Candidate(provider: string, model: string, bindingId: string)

  datatype Effort = RESOLVED(tier: string) | UNSUPPORTED | UNAUTHORIZED

  datatype Status = PENDING | RUNNING | SUCCESS | FAILED | TIMEOUT

  /** `dispatched` is the binding its durable dispatch evidence names, if any was recorded. */
  datatype Attempt = Attempt(id: nat, status: Status, base: string, uncertain: bool,
                             provider: string, model: string, dispatched: Option<string>)
  {
    predicate Terminal() { status == FAILED || status == TIMEOUT }

    /** The key of the no-progress count: an exact binding, or provider:model without evidence. */
    function Key(): string
    {
      if dispatched.Some? then dispatched.value else provider + ":" + model
    }
  }

  datatype VerdictAction =
    | NOOP_TERMINAL | BLOCKED_ESCALATE | NEW_ATTEMPT_SAME_BINDING | NEW_ATTEMPT_DIFFERENT_BINDING

  datatype Behavior = SAME_BINDING | DIFFERENT_BINDING

  /** What the failover engine answers. */
  datatype Verdict = Verdict(action: VerdictAction, behavior: Option<Behavior>, source: nat,
                             requiresBase: bool, requiredBase: Option<string>)

  datatype StopReason =
    | SUCCEEDED | BLOCKED | ATTEMPT_BUDGET_EXHAUSTED | FAILOVER_BUDGET_EXHAUSTED
    | NO_PROGRESS | NO_ELIGIBLE_BINDING | STALL | AUTHORITY_REFUSED

  datatype Target = Target(bindingId: string, profile: string, pool: string, provider: string,
                           model: string, tier: string, from: Option<nat>, requiredBase: Option<string>)

  datatype Decision = Stop(reason: StopReason) | LaunchAttempt(target: Target) | FailoverNewAttempt(target: Target)

  datatype Budgets = Budgets(maxFailovers: int, maxNoProgress: int)

  datatype Env = Env(autoStart: bool, autoRetry: bool, stalled: bool, registry: Registry,
                     ladder: seq<Candidate>, effort: Binding -> Effort, verdict: Verdict)

  /** `decided` lists the binding each attempt was launched on; `failovers` counts the
      persisted FAILOVER_NEW_ATTEMPT decisions. */
  datatype Run = Run(attempts: seq<Attempt>, decided: seq<string>, failovers: nat)

  // ----- Binding resolution -----

  function Workers(bs: seq<Binding>): (ws: seq<Binding>)
    ensures forall b :: b in ws <==> b in bs && b.role == WORKER
  {
    if bs == [] then [] else (if bs[0].role == WORKER then [bs[0]] else []) + Workers(bs[1..])
  }

  function FindById(bs: seq<Binding>, id: string): (f: Option<Binding>)
    ensures match f case Some(b) => b in bs && b.id == id case None => forall b | b in bs :: b.id != id
  {
    if bs == [] then None else if bs[0].id == id then Some(bs[0]) else FindById(bs[1..], id)
  }

  function FindByModel(bs: seq<Binding>, provider: string, model: string): (f: Option<Binding>)
    ensures match f
            case Some(b) => b in bs && b.provider == provider && b.model == model
            case None => forall b | b in bs :: b.provider != provider || b.model != model
  {
    if bs == [] then None
    else if bs[0].provider == provider && bs[0].model == model then Some(bs[0])
    else FindByModel(bs[1..], provider, model)
  }

  function BindingForCandidate(registry: Registry, c: Candidate): Option<Binding>
  {
    if c.provider == "" || c.model == "" then None
    else if Strip(c.bindingId) != "" then
      var found := FindById(Workers(registry), Strip(c.bindingId));
      if found.Some? && found.value.provider == c.provider && found.value.model == c.model then found else None
    else
      FindByModel(Workers(registry), c.provider, c.model)
  }

  predicate OnLadder(ladder: seq<Candidate>, provider: string, model: string)
  {
    exists k :: 0 <= k < |ladder| && ladder[k].provider == provider && ladder[k].model == model
  }

  function EffortStop(e: Effort): Decision
  {
    Stop(if e == UNAUTHORIZED then AUTHORITY_REFUSED else NO_ELIGIBLE_BINDING)
  }

  function TargetOn(b: Binding, tier: string, from: Option<nat>, requiredBase: Option<string>): Target
  {
    Target(b.id, b.profile, b.pool, b.provider, b.model, tier, from, requiredBase)
  }

  // ----- Deciding -----

  function TerminalOf(attempts: seq<Attempt>): seq<Attempt>
  {
    if attempts == [] then []
    else (if attempts[0].Terminal() then [attempts[0]] else []) + TerminalOf(attempts[1..])
  }

  function FindAttempt(attempts: seq<Attempt>, id: nat): Option<Attempt>
  {
    if attempts == [] then None
    else if attempts[0].id == id then Some(attempts[0])
    else FindAttempt(attempts[1..], id)
  }

  /** How many of the last keys are `key`. */
  function TrailingRun(keys: seq<string>, key: string): nat
  {
    if keys == [] || keys[|keys| - 1] != key then 0 else 1 + TrailingRun(keys[..|keys| - 1], key)
  }

  /** The count of `_same_binding_decision`, walking back from the latest attempt. */
  method CountTrailingRun(keys: seq<string>, key: string) returns (n: nat)
    ensures n == TrailingRun(keys, key)
  {
    n := 0;
    assert keys[..|keys|] == keys;
    while n < |keys| && keys[|keys| - 1 - n] == key
      invariant n <= |keys|
      invariant n + TrailingRun(keys[..|keys| - n], key) == TrailingRun(keys, key)
    {
      assert keys[..|keys| - n][..|keys| - n - 1] == keys[..|keys| - (n + 1)];
      n := n + 1;
    }
  }

  function Keys(attempts: seq<Attempt>): seq<string>
  {
    seq(|attempts|, i requires 0 <= i < |attempts| => attempts[i].Key())
  }

  function FirstDecision(env: Env): Decision
    requires env.ladder != []
  {
    match BindingForCandidate(env.registry, env.ladder[0])
    case None => Stop(NO_ELIGIBLE_BINDING)
    case Some(b) =>
      var e := env.effort(b);
      if e.RESOLVED? then LaunchAttempt(TargetOn(b, e.tier, None, None)) else EffortStop(e)
  }

  function SameBindingDecision(b: Budgets, env: Env, terminal: seq<Attempt>, source: string): Decision
    requires terminal != []
  {
    var last := terminal[|terminal| - 1];
    match FindById(env.registry, source)
    case None => Stop(NO_ELIGIBLE_BINDING)
    case Some(binding) =>
      if FindById(Workers(env.registry), source).None? then Stop(NO_ELIGIBLE_BINDING)
      else if !OnLadder(env.ladder, binding.provider, binding.model) then Stop(NO_ELIGIBLE_BINDING)
      else
        var keys := Keys(terminal);
        if TrailingRun(keys, source) >= b.maxNoProgress + 1 then Stop(NO_PROGRESS)
        else if |terminal| >= b.maxNoProgress + 1 && (forall k | 0 <= k < |keys| :: keys[k] == source) then
          Stop(ATTEMPT_BUDGET_EXHAUSTED)
        else
          var e := env.effort(binding);
          if e.RESOLVED? then
            LaunchAttempt(TargetOn(binding, e.tier, Some(last.id), env.verdict.requiredBase))
          else EffortStop(e)
  }

  /** The first binding of a candidate's provider and model other than the source's. */
  function FindOther(bs: seq<Binding>, provider: string, model: string, source: string): (f: Option<Binding>)
    ensures match f
            case Some(b) => b in bs && b.provider == provider && b.model == model && b.id != source
            case None => forall b | b in bs :: b.provider != provider || b.model != model || b.id == source
  {
    if bs == [] then None
    else if bs[0].provider == provider && bs[0].model == model && bs[0].id != source then Some(bs[0])
    else FindOther(bs[1..], provider, model, source)
  }

  function FailoverTo(env: Env, last: Attempt, b: Binding): Decision
  {
    var e := env.effort(b);
    if e.RESOLVED? then FailoverNewAttempt(TargetOn(b, e.tier, Some(last.id), env.verdict.requiredBase))
    else EffortStop(e)
  }

  function WalkLadder(env: Env, ladder: seq<Candidate>, last: Attempt, source: string): Decision
  {
    if ladder == [] then Stop(NO_ELIGIBLE_BINDING)
    else
      var c := ladder[0];
      if c.bindingId != "" then
        match BindingForCandidate(env.registry, c)
        case None => Stop(NO_ELIGIBLE_BINDING)
        case Some(b) =>
          if b.id == source then WalkLadder(env, ladder[1..], last, source) else FailoverTo(env, last, b)
      else
        match FindOther(Workers(env.registry), c.provider, c.model, source)
        case None => WalkLadder(env, ladder[1..], last, source)
        case Some(b) => FailoverTo(env, last, b)
  }

  function DifferentBindingDecision(b: Budgets, env: Env, run: Run, last: Attempt, source: string): Decision
  {
    if run.failovers >= b.maxFailovers then Stop(FAILOVER_BUDGET_EXHAUSTED)
    else WalkLadder(env, env.ladder, last, source)
  }

  /** Required-base validation: None when a new attempt may be considered. */
  predicate BaseRefused(env: Env, run: Run)
  {
    && env.verdict.requiresBase
    && (|| env.verdict.requiredBase.None? || env.verdict.requiredBase.value == ""
        || (var source := FindAttempt(run.attempts, env.verdict.source);
            source.None? || source.value.base != env.verdict.requiredBase.value))
  }

  function SourceBinding(env: Env, run: Run): Option<string>
  {
    match FindAttempt(run.attempts, env.verdict.source)
    case None => None
    case Some(a) => a.dispatched
  }

  function RetryDecision(b: Budgets, env: Env, run: Run): Decision
    requires TerminalOf(run.attempts) != []
  {
    var terminal := TerminalOf(run.attempts);
    var last := terminal[|terminal| - 1];
    var v := env.verdict;
    if last.uncertain then Stop(BLOCKED)
    else if v.action == NOOP_TERMINAL then Stop(SUCCEEDED)
    else if v.action == BLOCKED_ESCALATE then Stop(BLOCKED)
    else if !env.autoRetry then Stop(AUTHORITY_REFUSED)
    else if BaseRefused(env, run) then Stop(BLOCKED)
    else
      match SourceBinding(env, run)
      case None => Stop(NO_ELIGIBLE_BINDING)
      case Some(source) =>
        if source == "" then Stop(NO_ELIGIBLE_BINDING)
        else if v.action == NEW_ATTEMPT_SAME_BINDING || v.behavior == Some(SAME_BINDING) then
          SameBindingDecision(b, env, terminal, source)
        else
          // The action can only be NEW_ATTEMPT_DIFFERENT_BINDING here.
          DifferentBindingDecision(b, env, run, last, source)
  }

  function Decide(b: Budgets, env: Env, run: Run): Decision
  {
    if !env.autoStart then Stop(AUTHORITY_REFUSED)
    else if exists k :: 0 <= k < |run.attempts| && run.attempts[k].status == SUCCESS then Stop(SUCCEEDED)
    else if env.ladder == [] then Stop(NO_ELIGIBLE_BINDING)
    else if TerminalOf(run.attempts) == [] then
      if env.stalled && (exists k :: 0 <= k < |run.attempts| && run.attempts[k].status == RUNNING) then Stop(STALL)
      else FirstDecision(env)
    else RetryDecision(b, env, run)
  }

  // ----- What a launching decision names -----

  /** A target on a registered WORKER binding, of a provider and model on the ladder, at the
      effort resolved for it. */
  ghost predicate Authorized(env: Env, t: Target)
  {
    && OnLadder(env.ladder, t.provider, t.model)
    && exists b: Binding ::
         && b in env.registry && b.role == WORKER
         && t.bindingId == b.id && t.profile == b.profile && t.pool == b.pool
         && t.provider == b.provider && t.model == b.model
         && env.effort(b) == RESOLVED(t.tier)
  }

  lemma AuthorizeTarget(env: Env, b: Binding, from: Option<nat>, requiredBase: Option<string>)
    requires b in env.registry && b.role == WORKER && env.effort(b).RESOLVED?
    requires OnLadder(env.ladder, b.provider, b.model)
    ensures Authorized(env, TargetOn(b, env.effort(b).tier, from, requiredBase))
  {
  }

  lemma CandidateBindingIsWorker(registry: Registry, c: Candidate)
    ensures var f := BindingForCandidate(registry, c);
            f.Some? ==> f.value in registry && f.value.role == WORKER
                        && f.value.provider == c.provider && f.value.model == c.model
  {
  }

  lemma {:induction false} WalkLadderTarget(env: Env, k: nat, last: Attempt, source: string)
    requires k <= |env.ladder|
    ensures var d := WalkLadder(env, env.ladder[k..], last, source);
            && !d.LaunchAttempt?
            && (d.FailoverNewAttempt? ==>
                  Authorized(env, d.target) && d.target.bindingId != source
                  && d.target.from == Some(last.id) && d.target.requiredBase == env.verdict.requiredBase)
    decreases |env.ladder| - k
  {
    var d := WalkLadder(env, env.ladder[k..], last, source);
    if k < |env.ladder| {
      var c := env.ladder[k];
      assert env.ladder[k..][1..] == env.ladder[k + 1..];
      CandidateBindingIsWorker(env.registry, c);
      WalkLadderTarget(env, k + 1, last, source);
      var found := if c.bindingId != "" then BindingForCandidate(env.registry, c)
                   else FindOther(Workers(env.registry), c.provider, c.model, source);
      if found.Some? && env.effort(found.value).RESOLVED? {
        AuthorizeTarget(env, found.value, Some(last.id), env.verdict.requiredBase);
      }
    }
  }

  lemma SameBindingTarget(b: Budgets, env: Env, terminal: seq<Attempt>, source: string)
    requires terminal != []
    ensures var d := SameBindingDecision(b, env, terminal, source);
            && !d.FailoverNewAttempt?
            && (d.LaunchAttempt? ==>
                  Authorized(env, d.target) && d.target.bindingId == source
                  && TrailingRun(Keys(terminal), source) <= b.maxNoProgress
                  && d.target.from == Some(terminal[|terminal| - 1].id)
                  && d.target.requiredBase == env.verdict.requiredBase)
  {
    var d := SameBindingDecision(b, env, terminal, source);
    if d.LaunchAttempt? {
      // Ids are unique, so the binding found by id is the eligible one.
      var w := FindById(Workers(env.registry), source).value;
      assert w in env.registry && w == FindById(env.registry, source).value;
      AuthorizeTarget(env, FindById(env.registry, source).value,
                      Some(terminal[|terminal| - 1].id), env.verdict.requiredBase);
    }
  }

  /** Every launching decision is authorised.  A same-binding verdict keeps the source
      attempt's binding, a failover never does, and when base validation is required the
      base the new attempt is tied to is the source attempt's own. */
  lemma LaunchesAreAuthorized(b: Budgets, env: Env, run: Run)
    ensures var d := Decide(b, env, run);
            && (d.LaunchAttempt? && d.target.from.None? ==> Authorized(env, d.target) && TerminalOf(run.attempts) == [])
            && (d.LaunchAttempt? && d.target.from.Some? ==>
                  Authorized(env, d.target) && SourceBinding(env, run) == Some(d.target.bindingId))
            && (d.FailoverNewAttempt? ==>
                  && Authorized(env, d.target) && run.failovers < b.maxFailovers
                  && SourceBinding(env, run).Some? && SourceBinding(env, run) != Some(d.target.bindingId))
            && (!d.Stop? && d.target.from.Some? && env.verdict.requiresBase ==>
                  var source := FindAttempt(run.attempts, env.verdict.source);
                  source.Some? && d.target.requiredBase == Some(source.value.base))
  {
    if !Decide(b, env, run).Stop? {
      if TerminalOf(run.attempts) == [] {
        FirstLaunchIsAuthorized(b, env, run);
      } else {
        var terminal := TerminalOf(run.attempts);
        RetryOutcome(b, env, run);
        RetryKeepsTheBase(b, env, run);
        hide *;
        var source := SourceBinding(env, run).value;
        SameBindingTarget(b, env, terminal, source);
        WalkLadderTarget(env, 0, terminal[|terminal| - 1], source);
      }
    }
  }

  lemma FirstLaunchIsAuthorized(b: Budgets, env: Env, run: Run)
    requires TerminalOf(run.attempts) == [] && !Decide(b, env, run).Stop?
    ensures var d := Decide(b, env, run); d.LaunchAttempt? && d.target.from.None? && Authorized(env, d.target)
  {
    CandidateBindingIsWorker(env.registry, env.ladder[0]);
    var found := BindingForCandidate(env.registry, env.ladder[0]);
    if found.Some? && env.effort(found.value).RESOLVED? {
      AuthorizeTarget(env, found.value, None, None);
    }
  }

  lemma RetryKeepsTheBase(b: Budgets, env: Env, run: Run)
    requires TerminalOf(run.attempts) != [] && !Decide(b, env, run).Stop?
    ensures env.verdict.requiresBase ==>
              var source := FindAttempt(run.attempts, env.verdict.source);
              source.Some? && env.verdict.requiredBase == Some(source.value.base)
  {
  }

  lemma {:induction false} AllEqualIsTrailing(keys: seq<string>, key: string)
    requires forall k | 0 <= k < |keys| :: keys[k] == key
    ensures TrailingRun(keys, key) == |keys|
  {
    if keys != [] { AllEqualIsTrailing(keys[..|keys| - 1], key); }
  }

  lemma {:induction false} WalkLadderStops(env: Env, ladder: seq<Candidate>, last: Attempt, source: string)
    ensures WalkLadder(env, ladder, last, source) != Stop(ATTEMPT_BUDGET_EXHAUSTED)
  {
    if ladder != [] { WalkLadderStops(env, ladder[1..], last, source); }
  }

  /** No state and no verdict reaches the ATTEMPT_BUDGET_EXHAUSTED branch: the no-progress
      branch before it always answers first. */
  lemma AttemptBudgetBranchIsDead(b: Budgets, env: Env, run: Run)
    ensures Decide(b, env, run) != Stop(ATTEMPT_BUDGET_EXHAUSTED)
  {
    var terminal := TerminalOf(run.attempts);
    if terminal != [] && SourceBinding(env, run).Some? {
      var source := SourceBinding(env, run).value;
      WalkLadderStops(env, env.ladder, terminal[|terminal| - 1], source);
      SameBindingStops(b, env, terminal, source);
      hide SameBindingDecision, WalkLadder;
    }
  }

  lemma SameBindingStops(b: Budgets, env: Env, terminal: seq<Attempt>, source: string)
    requires terminal != []
    ensures SameBindingDecision(b, env, terminal, source) != Stop(ATTEMPT_BUDGET_EXHAUSTED)
  {
    var keys := Keys(terminal);
    if forall k | 0 <= k < |keys| :: keys[k] == source { AllEqualIsTrailing(keys, source); }
  }

  // ----- Whole runs -----

  /** One turn of the canonical runtime: an environment to decide in and, if that launches,
      how the attempt ends and whether dispatch evidence was recorded for it. */
  datatype Turn = Turn(env: Env, status: Status, base: string, uncertain: bool, evidence: bool)

  /** Attempts end FAILED, TIMEOUT or SUCCESS, and the failover engine speaks about the last. */
  predicate TurnOk(run: Run, turn: Turn)
  {
    && (turn.status == FAILED || turn.status == TIMEOUT || turn.status == SUCCESS)
    && turn.env.verdict.source + 1 == Max(|run.attempts|, 1)
  }

  function Max(a: int, b: int): int { if a >= b then a else b }

  /** The decision is persisted, the attempt launched and ended. */
  function Launch(run: Run, d: Decision, turn: Turn): Run
    requires !d.Stop?
  {
    var t := d.target;
    var a := Attempt(|run.attempts|, turn.status, turn.base, turn.uncertain, t.provider, t.model,
                     if turn.evidence then Some(t.bindingId) else None);
    Run(run.attempts + [a], run.decided + [t.bindingId], run.failovers + if d.FailoverNewAttempt? then 1 else 0)
  }

  function Advance(b: Budgets, run: Run, turn: Turn): Run
  {
    var d := Decide(b, turn.env, run);
    if d.Stop? then run else Launch(run, d, turn)
  }

  const NOTHING_LAUNCHED := Run([], [], 0)

  function Drive(b: Budgets, turns: seq<Turn>): Run
  {
    if |turns| == 0 then NOTHING_LAUNCHED
    else Advance(b, Drive(b, turns[..|turns| - 1]), turns[|turns| - 1])
  }

  ghost predicate Legal(b: Budgets, turns: seq<Turn>)
  {
    |turns| == 0
    || (Legal(b, turns[..|turns| - 1]) && TurnOk(Drive(b, turns[..|turns| - 1]), turns[|turns| - 1]))
  }

  /** The longest stretch of attempts on one binding the budgets allow. */
  function Stretch(b: Budgets): nat { Max(b.maxNoProgress, 0) + 1 }

  function Bound(b: Budgets): nat { (Max(b.maxFailovers, 0) + 1) * Stretch(b) }

  /** The attempts in n full stretches of length s. */
  function Stretches(n: nat, s: nat): nat
  {
    if n == 0 then 0 else Stretches(n - 1, s) + s
  }

  lemma {:induction false} StretchesIsProduct(n: nat, s: nat)
    ensures Stretches(n, s) == n * s
  {
    if n != 0 { StretchesIsProduct(n - 1, s); }
  }

  lemma {:induction false} StretchesMonotone(m: nat, n: nat, s: nat)
    requires m <= n
    ensures Stretches(m, s) <= Stretches(n, s)
  {
    if m < n { StretchesMonotone(m, n - 1, s); }
  }

  /** Dispatch evidence, where there is any, names the binding decided.  Only the last
      attempt can lack it or have succeeded: either ends the run. */
  ghost predicate Recorded(run: Run)
  {
    && |run.decided| == |run.attempts|
    && (forall k | 0 <= k < |run.attempts| :: EntryOk(run.attempts[k], k, run.decided[k]))
    && (forall k | 0 <= k < |run.attempts| - 1 :: Spent(run.attempts[k]))
  }

  predicate EntryOk(a: Attempt, k: nat, key: string)
  {
    && a.id == k && (a.Terminal() || a.status == SUCCESS)
    && (a.dispatched.Some? ==> a.dispatched.value == key)
  }

  predicate Spent(a: Attempt) { a.Terminal() && a.dispatched.Some? }

  /** Every stretch is within its limit, and every stretch but the first cost a failover. */
  ghost predicate Counted(b: Budgets, run: Run)
    requires |run.decided| == |run.attempts|
  {
    && run.failovers <= Max(b.maxFailovers, 0)
    && (run.attempts == [] ==> run.failovers == 0)
    && (run.attempts != [] ==>
          var t := TrailingRun(run.decided, run.decided[|run.decided| - 1]);
          t <= Stretch(b) && |run.attempts| <= Stretches(run.failovers, Stretch(b)) + t)
  }

  ghost predicate RunInv(b: Budgets, run: Run)
  {
    Recorded(run) && Counted(b, run)
  }

  lemma {:induction false} AllTerminal(attempts: seq<Attempt>)
    requires forall k | 0 <= k < |attempts| :: attempts[k].Terminal()
    ensures TerminalOf(attempts) == attempts
  {
    if attempts != [] { AllTerminal(attempts[1..]); }
  }

  lemma {:induction false} FindAttemptAt(attempts: seq<Attempt>, from: nat, k: nat)
    requires k < |attempts| && forall i | 0 <= i < |attempts| :: attempts[i].id == from + i
    ensures FindAttempt(attempts, from + k) == Some(attempts[k])
  {
    if k != 0 { FindAttemptAt(attempts[1..], from + 1, k - 1); }
  }

  lemma TrailingOfExtended(keys: seq<string>, key: string)
    ensures TrailingRun(keys + [key], key) == 1 + TrailingRun(keys, key)
  {
    assert (keys + [key])[..|keys|] == keys;
  }

  /** Past the first attempt, a launching decision was taken with every attempt failed and
      every dispatch on record, so the keys it counted are the bindings decided. */
  lemma LaunchSawTheWholeRun(b: Budgets, run: Run, turn: Turn)
    requires RunInv(b, run) && TurnOk(run, turn) && run.attempts != []
    requires !Decide(b, turn.env, run).Stop?
    ensures TerminalOf(run.attempts) == run.attempts && Keys(run.attempts) == run.decided
    ensures run.attempts[|run.attempts| - 1].Terminal() && run.attempts[|run.attempts| - 1].dispatched.Some?
    ensures SourceBinding(turn.env, run) == Some(run.decided[|run.decided| - 1])
  {
    LaunchSawNoSuccess(b, turn.env, run);
    hide Decide, Counted;
    LaunchSawEvidence(b, run, turn);
  }

  lemma LaunchSawNoSuccess(b: Budgets, env: Env, run: Run)
    requires !Decide(b, env, run).Stop?
    ensures forall k | 0 <= k < |run.attempts| :: run.attempts[k].status != SUCCESS
  {
  }

  lemma LaunchSawEvidence(b: Budgets, run: Run, turn: Turn)
    requires Recorded(run) && TurnOk(run, turn) && run.attempts != []
    requires forall k | 0 <= k < |run.attempts| :: run.attempts[k].status != SUCCESS
    requires !Decide(b, turn.env, run).Stop?
    ensures TerminalOf(run.attempts) == run.attempts && Keys(run.attempts) == run.decided
    ensures run.attempts[|run.attempts| - 1].Terminal() && run.attempts[|run.attempts| - 1].dispatched.Some?
    ensures SourceBinding(turn.env, run) == Some(run.decided[|run.decided| - 1])
  {
    var n := |run.attempts|;
    AllTerminal(run.attempts);
    FindAttemptAt(run.attempts, 0, n - 1);
    RetryNeedsASource(b, turn.env, run);
    hide Decide, TerminalOf, FindAttempt;
  }

  lemma RetryNeedsASource(b: Budgets, env: Env, run: Run)
    requires TerminalOf(run.attempts) != [] && !Decide(b, env, run).Stop?
    ensures SourceBinding(env, run).Some?
  {
  }

  /** A launch after a failed attempt comes out of one of the two binding decisions. */
  lemma RetryOutcome(b: Budgets, env: Env, run: Run)
    requires TerminalOf(run.attempts) != [] && !Decide(b, env, run).Stop?
    ensures var d, terminal := Decide(b, env, run), TerminalOf(run.attempts);
            && SourceBinding(env, run).Some?
            && var source := SourceBinding(env, run).value;
               || d == SameBindingDecision(b, env, terminal, source)
               || (run.failovers < b.maxFailovers
                   && d == WalkLadder(env, env.ladder[0..], terminal[|terminal| - 1], source))
  {
    assert env.ladder[0..] == env.ladder;
  }

  /** What a launching decision tells about the counts: a same-binding launch lengthens the
      last stretch, which is short of the limit; a failover starts a new one and uses up one
      of the failovers. */
  ghost predicate Affordable(b: Budgets, run: Run, d: Decision)
    requires !d.Stop? && |run.decided| == |run.attempts|
  {
    if run.attempts == [] then d.LaunchAttempt?
    else
      var source := run.decided[|run.decided| - 1];
      && Spent(run.attempts[|run.attempts| - 1])
      && if d.LaunchAttempt? then
           d.target.bindingId == source && TrailingRun(run.decided, source) <= b.maxNoProgress
         else
           d.target.bindingId != source && run.failovers < b.maxFailovers
  }

  lemma LaunchIsAffordable(b: Budgets, run: Run, turn: Turn, d: Decision)
    requires RunInv(b, run) && TurnOk(run, turn)
    requires d == Decide(b, turn.env, run) && !d.Stop?
    ensures Affordable(b, run, d)
  {
    if run.attempts == [] {
      FirstLaunch(b, turn.env, run);
    } else {
      InvParts(b, run);
      hide *;
      var source, last := run.decided[|run.decided| - 1], run.attempts[|run.attempts| - 1];
      LaunchSawTheWholeRun(b, run, turn);
      RetryOutcome(b, turn.env, run);
      SameBindingTarget(b, turn.env, run.attempts, source);
      WalkLadderTarget(turn.env, 0, last, source);
      AffordableFrom(b, run, d, source);
    }
  }

  lemma AffordableFrom(b: Budgets, run: Run, d: Decision, source: string)
    requires |run.decided| == |run.attempts| > 0 && source == run.decided[|run.decided| - 1] && !d.Stop?
    requires run.attempts[|run.attempts| - 1].Terminal() && run.attempts[|run.attempts| - 1].dispatched.Some?
    requires d.LaunchAttempt? ==> d.target.bindingId == source && TrailingRun(run.decided, source) <= b.maxNoProgress
    requires d.FailoverNewAttempt? ==> d.target.bindingId != source && run.failovers < b.maxFailovers
    ensures Affordable(b, run, d)
  {
  }

  lemma FirstLaunch(b: Budgets, env: Env, run: Run)
    requires run.attempts == [] && !Decide(b, env, run).Stop?
    ensures Decide(b, env, run).LaunchAttempt?
  {
  }

  lemma LaunchKeepsRecorded(run: Run, d: Decision, turn: Turn)
    requires Recorded(run) && !d.Stop? && (turn.status == FAILED || turn.status == TIMEOUT || turn.status == SUCCESS)
    requires run.attempts != [] ==> Spent(run.attempts[|run.attempts| - 1])
    ensures Recorded(Launch(run, d, turn))
  {
  }

  lemma LaunchKeepsCounted(b: Budgets, run: Run, d: Decision, turn: Turn)
    requires |run.decided| == |run.attempts| && Counted(b, run) && !d.Stop? && Affordable(b, run, d)
    ensures Counted(b, Launch(run, d, turn))
    ensures var run' := Launch(run, d, turn);
            TrailingRun(run'.decided, run'.decided[|run'.decided| - 1])
            == if d.FailoverNewAttempt? then 1 else 1 + TrailingRun(run.decided, d.target.bindingId)
  {
    TrailingOfExtended(run.decided, d.target.bindingId);
    if d.FailoverNewAttempt? { assert TrailingRun(run.decided, d.target.bindingId) == 0; }
  }

  lemma AdvanceKeepsInv(b: Budgets, run: Run, turn: Turn)
    requires RunInv(b, run) && TurnOk(run, turn)
    ensures RunInv(b, Advance(b, run, turn))
  {
    hide Decide, Recorded, Counted;
    var d := Decide(b, turn.env, run);
    if !d.Stop? {
      LaunchIsAffordable(b, run, turn, d);
      LaunchKeepsRecorded(run, d, turn);
      LaunchKeepsCounted(b, run, d, turn);
    }
  }

  lemma {:induction false} DriveKeepsInv(b: Budgets, turns: seq<Turn>)
    requires Legal(b, turns)
    ensures RunInv(b, Drive(b, turns))
  {
    if |turns| != 0 {
      DriveKeepsInv(b, turns[..|turns| - 1]);
      AdvanceKeepsInv(b, Drive(b, turns[..|turns| - 1]), turns[|turns| - 1]);
    }
  }

  /** Whatever the failover engine, the owner's authority, the registry, the ladder and the
      effort resolver answer at each decision, a run never launches more attempts than this. */
  lemma RunIsBounded(b: Budgets, turns: seq<Turn>)
    requires Legal(b, turns)
    ensures |Drive(b, turns).attempts| <= Bound(b)
  {
    hide Decide, Drive, Recorded;
    DriveKeepsInv(b, turns);
    var f := Max(b.maxFailovers, 0);
    StretchesMonotone(Drive(b, turns).failovers, f, Stretch(b));
    StretchesIsProduct(f + 1, Stretch(b));
  }

  // ----- The bound is reached -----

  const BINDING_A := Binding("a", WORKER, "p", "m", "profile", "pool")
  const BINDING_B := Binding("b", WORKER, "p", "m", "profile", "pool")

  /** Two interchangeable bindings, every permission granted, and a failover engine that
      answers `action`. */
  function WillingTurn(action: VerdictAction, source: nat): Turn
  {
    Turn(Env(true, true, false, [BINDING_A, BINDING_B], [Candidate("p", "m", "")], (b: Binding) => RESOLVED("MEDIUM"),
             Verdict(action, None, source, false, None)),
         FAILED, "", false, true)
  }

  /** Attempt k failed on binding a or b, with evidence. */
  predicate Willing(run: Run, k: nat)
  {
    && k < |run.attempts| == |run.decided|
    && run.decided[k] in {"a", "b"}
    && run.attempts[k].status == FAILED && !run.attempts[k].uncertain
    && run.attempts[k].dispatched == Some(run.decided[k])
  }

  ghost predicate AllWilling(run: Run)
  {
    |run.decided| == |run.attempts| && forall k: nat | k < |run.attempts| :: Willing(run, k)
  }

  lemma WillingBindings()
    ensures Workers([BINDING_A, BINDING_B]) == [BINDING_A, BINDING_B]
  {
    assert [BINDING_B][1..] == [];
    assert Workers([BINDING_B]) == [BINDING_B];
    assert [BINDING_A, BINDING_B][1..] == [BINDING_B];
  }

  lemma WillingFirst(b: Budgets)
    ensures var d := Decide(b, WillingTurn(NEW_ATTEMPT_SAME_BINDING, 0).env, NOTHING_LAUNCHED);
            d.LaunchAttempt? && d.target.bindingId == "a"
  {
    WillingBindings();
    assert Strip("") == "";
  }

  /** What any retry sees once every attempt failed with evidence. */
  lemma WillingRetry(b: Budgets, run: Run, action: VerdictAction)
    requires Recorded(run) && AllWilling(run) && run.attempts != []
    ensures var env := WillingTurn(action, |run.attempts| - 1).env;
            && TerminalOf(run.attempts) == run.attempts && Keys(run.attempts) == run.decided
            && SourceBinding(env, run) == Some(run.decided[|run.decided| - 1])
            && Decide(b, env, run) == RetryDecision(b, env, run)
  {
    var n := |run.attempts|;
    assert forall k: nat | k < n :: Willing(run, k) && run.attempts[k].Terminal();
    AllTerminal(run.attempts);
    FindAttemptAt(run.attempts, 0, n - 1);
  }

  lemma WillingSameDecision(b: Budgets, env: Env, terminal: seq<Attempt>, source: string)
    requires env == WillingTurn(NEW_ATTEMPT_SAME_BINDING, env.verdict.source).env
    requires terminal != [] && source in {"a", "b"} && TrailingRun(Keys(terminal), source) <= b.maxNoProgress
    ensures var d := SameBindingDecision(b, env, terminal, source);
            d.LaunchAttempt? && d.target.bindingId == source
  {
    WillingBindings();
    assert FindById([BINDING_A, BINDING_B], source).Some?;
    assert env.ladder[0] == Candidate("p", "m", "");
    var keys := Keys(terminal);
    if forall k | 0 <= k < |keys| :: keys[k] == source { AllEqualIsTrailing(keys, source); }
  }

  lemma WillingSame(b: Budgets, run: Run)
    requires Recorded(run) && AllWilling(run) && run.attempts != []
    requires TrailingRun(run.decided, run.decided[|run.decided| - 1]) <= b.maxNoProgress
    ensures var d := Decide(b, WillingTurn(NEW_ATTEMPT_SAME_BINDING, |run.attempts| - 1).env, run);
            d.LaunchAttempt? && d.target.bindingId == run.decided[|run.decided| - 1]
  {
    var env := WillingTurn(NEW_ATTEMPT_SAME_BINDING, |run.attempts| - 1).env;
    var source := run.decided[|run.decided| - 1];
    WillingRetry(b, run, NEW_ATTEMPT_SAME_BINDING);
    assert Willing(run, |run.attempts| - 1);
    SameVerdictDecides(b, env, run);
    hide Decide, RetryDecision, TerminalOf, SourceBinding, Recorded, AllWilling, Willing, SameBindingDecision;
    WillingSameDecision(b, env, run.attempts, source);
  }

  lemma SameVerdictDecides(b: Budgets, env: Env, run: Run)
    requires env == WillingTurn(NEW_ATTEMPT_SAME_BINDING, env.verdict.source).env
    requires TerminalOf(run.attempts) != [] && SourceBinding(env, run).Some? && SourceBinding(env, run).value != ""
    requires !TerminalOf(run.attempts)[|TerminalOf(run.attempts)| - 1].uncertain
    ensures RetryDecision(b, env, run)
            == SameBindingDecision(b, env, TerminalOf(run.attempts), SourceBinding(env, run).value)
  {
    hide SameBindingDecision, WalkLadder, TerminalOf;
  }

  lemma WillingOther(b: Budgets, run: Run)
    requires Recorded(run) && AllWilling(run) && run.attempts != [] && run.failovers < b.maxFailovers
    ensures var d := Decide(b, WillingTurn(NEW_ATTEMPT_DIFFERENT_BINDING, |run.attempts| - 1).env, run);
            d.FailoverNewAttempt? && d.target.bindingId in {"a", "b"}
  {
    var env := WillingTurn(NEW_ATTEMPT_DIFFERENT_BINDING, |run.attempts| - 1).env;
    var last, source := run.attempts[|run.attempts| - 1], run.decided[|run.decided| - 1];
    WillingRetry(b, run, NEW_ATTEMPT_DIFFERENT_BINDING);
    assert Willing(run, |run.attempts| - 1);
    assert Decide(b, env, run) == WalkLadder(env, env.ladder, last, source);
    WillingBindings();
    assert FindOther([BINDING_A, BINDING_B], "p", "m", source).Some?;
  }

  /** f failovers so far, and t attempts on the last binding. */
  ghost predicate FilledUpTo(b: Budgets, run: Run, f: nat, t: nat)
  {
    && RunInv(b, run) && run.attempts != []
    && |run.attempts| == Stretches(f, Stretch(b)) + t && run.failovers == f
    && AllWilling(run)
    && TrailingRun(run.decided, run.decided[|run.decided| - 1]) == t
  }

  lemma {:induction false} FillUp(b: Budgets, f: nat, t: nat) returns (turns: seq<Turn>)
    requires f <= Max(b.maxFailovers, 0) && 1 <= t <= Stretch(b)
    ensures Legal(b, turns) && FilledUpTo(b, Drive(b, turns), f, t)
    decreases f, t
  {
    if t > 1 {
      turns := FillUp(b, f, t - 1);
      turns := FillSame(b, turns, f, t - 1);
    } else if f > 0 {
      turns := FillUp(b, f - 1, Stretch(b));
      turns := FillOther(b, turns, f - 1);
    } else {
      turns := FillFirst(b);
    }
  }

  lemma FillFirst(b: Budgets) returns (turns: seq<Turn>)
    ensures Legal(b, turns) && FilledUpTo(b, Drive(b, turns), 0, 1)
  {
    var turn := WillingTurn(NEW_ATTEMPT_SAME_BINDING, 0);
    WillingFirst(b);
    turns := OneMore(b, [], turn, Decide(b, turn.env, NOTHING_LAUNCHED));
  }

  lemma FillSame(b: Budgets, before: seq<Turn>, f: nat, t: nat) returns (turns: seq<Turn>)
    requires Legal(b, before) && FilledUpTo(b, Drive(b, before), f, t) && t < Stretch(b)
    ensures Legal(b, turns) && FilledUpTo(b, Drive(b, turns), f, t + 1)
  {
    var run := Drive(b, before);
    var turn := WillingTurn(NEW_ATTEMPT_SAME_BINDING, |run.attempts| - 1);
    WillingSame(b, run);
    assert Willing(run, |run.attempts| - 1);
    turns := OneMore(b, before, turn, Decide(b, turn.env, run));
  }

  lemma FillOther(b: Budgets, before: seq<Turn>, f: nat) returns (turns: seq<Turn>)
    requires Legal(b, before) && FilledUpTo(b, Drive(b, before), f, Stretch(b)) && f < b.maxFailovers
    ensures Legal(b, turns) && FilledUpTo(b, Drive(b, turns), f + 1, 1)
  {
    var run := Drive(b, before);
    var turn := WillingTurn(NEW_ATTEMPT_DIFFERENT_BINDING, |run.attempts| - 1);
    WillingOther(b, run);
    turns := OneMore(b, before, turn, Decide(b, turn.env, run));
  }

  lemma OneMore(b: Budgets, before: seq<Turn>, turn: Turn, d: Decision) returns (turns: seq<Turn>)
    requires Legal(b, before) && RunInv(b, Drive(b, before)) && AllWilling(Drive(b, before))
    requires TurnOk(Drive(b, before), turn) && d == Decide(b, turn.env, Drive(b, before)) && !d.Stop?
    requires turn.status == FAILED && !turn.uncertain && turn.evidence && d.target.bindingId in {"a", "b"}
    ensures Legal(b, turns)
    ensures var run, run' := Drive(b, before), Drive(b, turns);
            && RunInv(b, run') && AllWilling(run')
            && |run'.attempts| == |run.attempts| + 1
            && run'.failovers == run.failovers + (if d.FailoverNewAttempt? then 1 else 0)
            && TrailingRun(run'.decided, run'.decided[|run'.decided| - 1])
               == if d.FailoverNewAttempt? then 1 else 1 + TrailingRun(run.decided, d.target.bindingId)
  {
    var run := Drive(b, before);
    var run' := Launch(run, d, turn);
    turns := before + [turn];
    DriveOneMore(b, before, turn, d);
    LaunchStaysWilling(run, d, turn);
    LaunchSizes(run, d, turn);
    hide *;
    LaunchIsAffordable(b, run, turn, d);
    SpentBeforeLaunch(b, run, d);
    LaunchKeepsRecorded(run, d, turn);
    LaunchKeepsCounted(b, run, d, turn);
    InvParts(b, run);
    InvParts(b, run');
  }

  lemma InvParts(b: Budgets, run: Run)
    ensures RunInv(b, run) ==> Recorded(run) && |run.decided| == |run.attempts| && Counted(b, run)
    ensures Recorded(run) ==> |run.decided| == |run.attempts|
    ensures Recorded(run) && Counted(b, run) ==> RunInv(b, run)
  {
  }

  lemma SpentBeforeLaunch(b: Budgets, run: Run, d: Decision)
    requires |run.decided| == |run.attempts| && !d.Stop? && Affordable(b, run, d)
    ensures run.attempts != [] ==> Spent(run.attempts[|run.attempts| - 1])
  {
  }

  lemma DriveOneMore(b: Budgets, before: seq<Turn>, turn: Turn, d: Decision)
    requires Legal(b, before) && TurnOk(Drive(b, before), turn) && d == Decide(b, turn.env, Drive(b, before))
             && !d.Stop?
    ensures Legal(b, before + [turn]) && Drive(b, before + [turn]) == Launch(Drive(b, before), d, turn)
  {
    hide Decide, TurnOk;
    var turns := before + [turn];
    assert turns[..|turns| - 1] == before;
  }

  lemma LaunchSizes(run: Run, d: Decision, turn: Turn)
    requires !d.Stop?
    ensures var run' := Launch(run, d, turn);
            && |run'.attempts| == |run.attempts| + 1
            && run'.failovers == run.failovers + (if d.FailoverNewAttempt? then 1 else 0)
  {
  }

  lemma LaunchStaysWilling(run: Run, d: Decision, turn: Turn)
    requires AllWilling(run) && !d.Stop?
    requires turn.status == FAILED && !turn.uncertain && turn.evidence && d.target.bindingId in {"a", "b"}
    ensures AllWilling(Launch(run, d, turn))
  {
    var run' := Launch(run, d, turn);
    forall k: nat | k < |run'.attempts| ensures Willing(run', k) {
      if k < |run.attempts| { assert Willing(run, k); }
    }
  }

  /** So no smaller bound would be right. */
  lemma BoundIsReached(b: Budgets) returns (turns: seq<Turn>)
    ensures Legal(b, turns) && |Drive(b, turns).attempts| == Bound(b)
  {
    hide Drive, RunInv, AllWilling, TrailingRun, Legal;
    var f := Max(b.maxFailovers, 0);
    turns := FillUp(b, f, Stretch(b));
    StretchesIsProduct(f + 1, Stretch(b));
  }
}
