/**
 What the supervisor decides, said of the raw state: the attempts of the run, the owner's authority, the
 ladder, the registry and the failover engine's verdict (src/saberops/autonomous_runtime.py).
 */
module SupervisorLaw {
  import opened Supervisor
  import opened Text
  import opened Wrappers

  // ----- The run -----

  ghost predicate Ended(a: Attempt) { a.status == FAILED || a.status == TIMEOUT }

  ghost predicate SomeEnded(run: Run)
  {
    exists k :: 0 <= k < |run.attempts| && Ended(run.attempts[k])
  }

  /** The last attempt that ended without a candidate. */
  ghost predicate LastEnded(run: Run, k: nat) { LastEndedOf(run.attempts, k) }

  ghost predicate LastEndedOf(attempts: seq<Attempt>, k: nat)
  {
    k < |attempts| && Ended(attempts[k]) && forall j | k < j < |attempts| :: !Ended(attempts[j])
  }

  ghost predicate InStatus(run: Run, status: Status)
  {
    exists k :: 0 <= k < |run.attempts| && run.attempts[k].status == status
  }

  /** The attempt the failover engine speaks about. */
  ghost predicate SourceAt(env: Env, run: Run, k: nat)
  {
    && k < |run.attempts| && run.attempts[k].id == env.verdict.source
    && forall j | 0 <= j < k :: run.attempts[j].id != env.verdict.source
  }

  /** The binding its dispatch evidence names. */
  ghost predicate SourceIs(env: Env, run: Run, source: string)
  {
    source != "" && exists k: nat :: SourceAt(env, run, k) && run.attempts[k].dispatched == Some(source)
  }

  /** A base has to be validated, and is not the base of that attempt. */
  ghost predicate BaseMismatch(env: Env, run: Run)
  {
    && env.verdict.requiresBase
    && !exists k: nat :: SourceAt(env, run, k) && run.attempts[k].base != ""
                         && env.verdict.requiredBase == Some(run.attempts[k].base)
  }

  /** The exact binding an attempt ran on, or its provider and model. */
  function RanOn(a: Attempt): string
  {
    match a.dispatched case Some(id) => id case None => a.provider + ":" + a.model
  }

  /** Of the attempts that ended, the last `n` and more ran on `source`. */
  ghost predicate LastRanOn(attempts: seq<Attempt>, source: string, n: int)
  {
    exists j: nat :: j <= |attempts| && EndedOn(attempts, source, j) && |EndedSince(attempts, j)| >= n
  }

  ghost predicate EndedOn(attempts: seq<Attempt>, source: string, j: nat)
  {
    forall k | j <= k < |attempts| && Ended(attempts[k]) :: RanOn(attempts[k]) == source
  }

  ghost function EndedSince(attempts: seq<Attempt>, j: nat): set<nat>
  {
    set k: nat | j <= k < |attempts| && Ended(attempts[k])
  }

  // ----- The registry and the ladder -----

  ghost predicate NamedWorker(env: Env, id: string, x: Binding)
  {
    x in env.registry && x.role == WORKER && x.id == id
  }

  ghost predicate WorkerOf(x: Binding, provider: string, model: string, except: Option<string>)
  {
    x.role == WORKER && x.provider == provider && x.model == model && Some(x.id) != except
  }

  /** The first worker of a provider and model, but for one binding. */
  ghost predicate FirstIn(bs: seq<Binding>, provider: string, model: string, except: Option<string>, x: Binding)
  {
    exists i :: 0 <= i < |bs| && bs[i] == x && WorkerOf(x, provider, model, except)
                && forall j | 0 <= j < i :: !WorkerOf(bs[j], provider, model, except)
  }

  ghost predicate FirstWorker(env: Env, c: Candidate, except: Option<string>, x: Binding)
  {
    FirstIn(env.registry, c.provider, c.model, except, x)
  }

  /** The worker a candidate stands for: the one it is pinned to, if that has its provider and
      model, and otherwise the first that has. */
  ghost predicate StandsFor(env: Env, c: Candidate, x: Binding)
  {
    && c.provider != "" && c.model != ""
    && if Strip(c.bindingId) != "" then
         NamedWorker(env, Strip(c.bindingId), x) && x.provider == c.provider && x.model == c.model
       else FirstWorker(env, c, None, x)
  }

  /** What a failover from `source` launches on when it comes to a candidate. */
  ghost predicate TakesOver(env: Env, source: string, c: Candidate, x: Binding)
  {
    if c.bindingId != "" then StandsFor(env, c, x) && x.id != source else FirstWorker(env, c, Some(source), x)
  }

  /** A candidate passed over: pinned to the source itself, or of no other worker. */
  ghost predicate PassedOver(env: Env, source: string, c: Candidate)
  {
    if c.bindingId != "" then exists x :: x in env.registry && StandsFor(env, c, x) && x.id == source
    else !exists x :: x in env.registry && FirstWorker(env, c, Some(source), x)
  }

  /** The first candidate not passed over takes over. */
  ghost predicate FailsOverTo(env: Env, ladder: seq<Candidate>, source: string, x: Binding)
  {
    exists k :: 0 <= k < |ladder| && TakesOver(env, source, ladder[k], x)
                && forall j | 0 <= j < k :: PassedOver(env, source, ladder[j])
  }

  ghost predicate ListsModel(env: Env, x: Binding)
  {
    exists k :: 0 <= k < |env.ladder| && env.ladder[k].provider == x.provider && env.ladder[k].model == x.model
  }

  // ----- What may be asked for -----

  /** The owner lets autonomous work start, no candidate exists, and there is somebody to ask. */
  ghost predicate Ready(env: Env, run: Run)
  {
    env.autoStart && !InStatus(run, SUCCESS) && env.ladder != []
  }

  ghost predicate AsksAgain(v: Verdict)
  {
    v.action == NEW_ATTEMPT_SAME_BINDING || v.action == NEW_ATTEMPT_DIFFERENT_BINDING
  }

  ghost predicate AsksTheSame(v: Verdict)
  {
    v.action == NEW_ATTEMPT_SAME_BINDING || v.behavior == Some(SAME_BINDING)
  }

  /** The last attempt that ended is reconciled, and the engine asks for another. */
  ghost predicate Retries(env: Env, run: Run)
  {
    Ready(env, run) && AsksAgain(env.verdict) && exists k: nat :: LastEnded(run, k) && !run.attempts[k].uncertain
  }

  /** The owner lets it happen, on the right base. */
  ghost predicate MayRetry(env: Env, run: Run)
  {
    Retries(env, run) && env.autoRetry && !BaseMismatch(env, run)
  }

  ghost predicate Stalled(env: Env, run: Run) { env.stalled && InStatus(run, RUNNING) }

  datatype Occasion = FIRST | AGAIN | FAILOVER

  /** Nothing but the effort stands between this binding and a launch. */
  ghost predicate Chosen(b: Budgets, env: Env, run: Run, occasion: Occasion, x: Binding)
  {
    match occasion
    case FIRST => Ready(env, run) && !SomeEnded(run) && !Stalled(env, run) && StandsFor(env, env.ladder[0], x)
    case AGAIN => AgainOn(env, run, x) && !LastRanOn(run.attempts, x.id, b.maxNoProgress + 1)
    case FAILOVER => MayRetry(env, run) && !AsksTheSame(env.verdict) && run.failovers < b.maxFailovers
                     && exists source: string :: SourceIs(env, run, source) && FailsOverTo(env, env.ladder, source, x)
  }

  /** The source binding is still a worker of a provider and model on the ladder. */
  ghost predicate AgainOn(env: Env, run: Run, x: Binding)
  {
    && MayRetry(env, run) && AsksTheSame(env.verdict) && SourceIs(env, run, x.id)
    && NamedWorker(env, x.id, x) && ListsModel(env, x)
  }

  ghost predicate SomeChosen(b: Budgets, env: Env, run: Run, e: Effort)
  {
    exists occasion, x :: x in env.registry && Chosen(b, env, run, occasion, x) && env.effort(x) == e
  }

  /** The target on a binding after the last ended attempt, if any. */
  ghost predicate Names(env: Env, run: Run, occasion: Occasion, x: Binding, t: Target)
  {
    && t.bindingId == x.id && t.profile == x.profile && t.pool == x.pool && t.provider == x.provider
    && t.model == x.model && env.effort(x) == RESOLVED(t.tier)
    && if occasion == FIRST then t.from == None && t.requiredBase == None
       else t.requiredBase == env.verdict.requiredBase
            && exists k: nat :: LastEnded(run, k) && t.from == Some(run.attempts[k].id)
  }

  // ----- The law -----

  ghost predicate Answers(b: Budgets, env: Env, run: Run, d: Decision)
  {
    match d
    case LaunchAttempt(t) =>
      exists occasion, x ::
        occasion != FAILOVER && x in env.registry && Chosen(b, env, run, occasion, x) && Names(env, run, occasion, x, t)
    case FailoverNewAttempt(t) =>
      exists x :: x in env.registry && Chosen(b, env, run, FAILOVER, x) && Names(env, run, FAILOVER, x, t)
    case Stop(reason) => Stops(b, env, run, reason)
  }

  ghost predicate Stops(b: Budgets, env: Env, run: Run, reason: StopReason)
  {
    match reason
    case SUCCEEDED =>
      && env.autoStart
      && (|| InStatus(run, SUCCESS)
          || (&& env.ladder != [] && env.verdict.action == NOOP_TERMINAL
              && exists k: nat :: LastEnded(run, k) && !run.attempts[k].uncertain))
    case BLOCKED =>
      && Ready(env, run)
      && (|| (exists k: nat :: LastEnded(run, k) && run.attempts[k].uncertain)
          || (SomeEnded(run) && env.verdict.action == BLOCKED_ESCALATE)
          || (Retries(env, run) && env.autoRetry && BaseMismatch(env, run)))
    case STALL => Ready(env, run) && !SomeEnded(run) && Stalled(env, run)
    case AUTHORITY_REFUSED =>
      || !env.autoStart
      || (Retries(env, run) && !env.autoRetry)
      || SomeChosen(b, env, run, UNAUTHORIZED)
    case NO_PROGRESS =>
      exists x :: x in env.registry && AgainOn(env, run, x) && LastRanOn(run.attempts, x.id, b.maxNoProgress + 1)
    case FAILOVER_BUDGET_EXHAUSTED =>
      && MayRetry(env, run) && !AsksTheSame(env.verdict) && run.failovers >= b.maxFailovers
      && exists source: string :: SourceIs(env, run, source)
    case ATTEMPT_BUDGET_EXHAUSTED => false
    case NO_ELIGIBLE_BINDING =>
      || (env.autoStart && !InStatus(run, SUCCESS) && env.ladder == [])
      || SomeChosen(b, env, run, UNSUPPORTED)
      || (Ready(env, run) && !SomeEnded(run) && !Stalled(env, run) && NobodyStandsFor(env, env.ladder[0]))
      || (MayRetry(env, run) && !exists source: string :: SourceIs(env, run, source))
      || (MayRetry(env, run) && AsksTheSame(env.verdict) && !exists x :: x in env.registry && AgainOn(env, run, x))
      || (&& MayRetry(env, run) && !AsksTheSame(env.verdict) && run.failovers < b.maxFailovers
          && exists source: string :: SourceIs(env, run, source) && NobodyTakesOver(env, source))
  }

  ghost predicate NobodyStandsFor(env: Env, c: Candidate)
  {
    forall x | x in env.registry :: !StandsFor(env, c, x)
  }

  ghost predicate NobodyTakesOver(env: Env, source: string)
  {
    forall x | x in env.registry :: !FailsOverTo(env, env.ladder, source, x)
  }

  // ----- Attempts -----

  lemma {:induction false} TerminalLast(attempts: seq<Attempt>)
    ensures TerminalOf(attempts) == [] <==> forall k | 0 <= k < |attempts| :: !Ended(attempts[k])
    ensures TerminalOf(attempts) != [] ==>
              exists k: nat ::
                LastEndedOf(attempts, k) && attempts[k] == TerminalOf(attempts)[|TerminalOf(attempts)| - 1]
  {
    if attempts != [] {
      var rest := attempts[1..];
      TerminalLast(rest);
      assert TerminalOf(attempts) == (if Ended(attempts[0]) then [attempts[0]] else []) + TerminalOf(rest);
      assert forall j | 0 < j < |attempts| :: attempts[j] == rest[j - 1];
      assert Ended(attempts[0]) && (forall j | 0 <= j < |rest| :: !Ended(rest[j])) ==> LastEndedOf(attempts, 0);
      hide TerminalOf, Ended, LastEndedOf;
      if TerminalOf(rest) != [] {
        var k: nat :| LastEndedOf(rest, k) && rest[k] == TerminalOf(rest)[|TerminalOf(rest)| - 1];
        LastEndedLater(attempts, k);
      }
    }
  }

  lemma LastEndedLater(attempts: seq<Attempt>, k: nat)
    requires attempts != [] && LastEndedOf(attempts[1..], k)
    ensures LastEndedOf(attempts, k + 1) && attempts[k + 1] == attempts[1..][k]
  {
    hide Ended;
    assert forall j | 0 < j < |attempts| :: attempts[j] == attempts[1..][j - 1];
  }

  lemma LastIsOne(run: Run, j: nat, k: nat)
    requires LastEnded(run, j) && LastEnded(run, k)
    ensures j == k
  {
  }

  /** The attempts that ended without a candidate, and the last of them. */
  lemma LastOfRun(run: Run)
    ensures SomeEnded(run) <==> TerminalOf(run.attempts) != []
    ensures SomeEnded(run) ==>
              exists k: nat :: LastEnded(run, k)
                               && run.attempts[k] == TerminalOf(run.attempts)[|TerminalOf(run.attempts)| - 1]
  {
    TerminalLast(run.attempts);
    hide TerminalOf, Ended;
    if SomeEnded(run) {
      var k: nat :| LastEndedOf(run.attempts, k)
                    && run.attempts[k] == TerminalOf(run.attempts)[|TerminalOf(run.attempts)| - 1];
      assert LastEnded(run, k);
    }
  }

  lemma {:induction false} FoundFirst(attempts: seq<Attempt>, id: nat)
    ensures match FindAttempt(attempts, id)
            case Some(a) => exists k: nat :: k < |attempts| && attempts[k] == a && a.id == id
                                             && forall j | 0 <= j < k :: attempts[j].id != id
            case None => forall k | 0 <= k < |attempts| :: attempts[k].id != id
  {
    if attempts != [] && attempts[0].id != id {
      var rest := attempts[1..];
      FoundFirst(rest, id);
      if FindAttempt(rest, id).Some? {
        var a := FindAttempt(rest, id).value;
        var k: nat :| k < |rest| && rest[k] == a && forall j | 0 <= j < k :: rest[j].id != id;
        forall j | 0 <= j < k + 1 ensures attempts[j].id != id { if j > 0 { assert attempts[j] == rest[j - 1]; } }
        assert attempts[k + 1] == a;
      } else {
        forall k | 0 <= k < |attempts| ensures attempts[k].id != id { if k > 0 { assert attempts[k] == rest[k - 1]; } }
      }
    }
  }

  lemma SourceIff(env: Env, run: Run)
    ensures forall source: string ::
              SourceIs(env, run, source) <==> source != "" && SourceBinding(env, run) == Some(source)
    ensures BaseMismatch(env, run) <==> BaseRefused(env, run)
  {
    FoundFirst(run.attempts, env.verdict.source);
    var f := FindAttempt(run.attempts, env.verdict.source);
    forall k: nat | SourceAt(env, run, k) ensures f == Some(run.attempts[k]) {
      assert f.Some?;
      var i: nat :| i < |run.attempts| && run.attempts[i] == f.value && f.value.id == env.verdict.source
                    && forall j | 0 <= j < i :: run.attempts[j].id != env.verdict.source;
      assert i == k;
    }
    if f.Some? {
      var k: nat :| k < |run.attempts| && run.attempts[k] == f.value && f.value.id == env.verdict.source
                    && forall j | 0 <= j < k :: run.attempts[j].id != env.verdict.source;
      assert SourceAt(env, run, k);
    }
  }

  lemma {:induction false} TerminalOfMore(attempts: seq<Attempt>, a: Attempt)
    ensures TerminalOf(attempts + [a]) == TerminalOf(attempts) + if Ended(a) then [a] else []
  {
    if attempts == [] {
      assert [] + [a] == [a] && [a][1..] == [];
    } else {
      assert (attempts + [a])[1..] == attempts[1..] + [a];
      TerminalOfMore(attempts[1..], a);
    }
  }

  /** The count the loop makes is that of the last ended attempts. */
  lemma {:induction false} TrailingIff(attempts: seq<Attempt>, source: string, n: int)
    ensures LastRanOn(attempts, source, n) <==> TrailingRun(Keys(TerminalOf(attempts)), source) >= n
  {
    if attempts == [] {
      assert EndedOn([], source, 0) && EndedSince([], 0) == {};
      if LastRanOn([], source, n) {
        var j: nat :| j <= 0 && EndedOn([], source, j) && |EndedSince([], j)| >= n;
      }
    } else {
      var last := |attempts| - 1;
      var init, a := attempts[..last], attempts[last];
      assert attempts == init + [a];
      TerminalOfMore(init, a);
      var keys, all := Keys(TerminalOf(init)), Keys(TerminalOf(attempts));
      if !Ended(a) {
        assert TerminalOf(attempts) == TerminalOf(init);
        TrailingIff(init, source, n);
        StillRanOn(init, a, source, n);
      } else {
        assert all == keys + [RanOn(a)];
        assert all[..|all| - 1] == keys;
        if RanOn(a) == source {
          TrailingIff(init, source, n - 1);
          OneMoreRanOn(init, a, source, n);
        } else {
          OtherRanLast(init, a, source, n);
        }
      }
    }
  }

  lemma StillRanOn(init: seq<Attempt>, a: Attempt, source: string, n: int)
    requires !Ended(a)
    ensures LastRanOn(init + [a], source, n) <==> LastRanOn(init, source, n)
  {
    hide Ended, RanOn;
    var all := init + [a];
    forall j: nat | j <= |init| ensures EndedSince(all, j) == EndedSince(init, j) {}
    assert EndedSince(all, |all|) == {} == EndedSince(init, |init|);
    if LastRanOn(all, source, n) {
      var j: nat :| j <= |all| && EndedOn(all, source, j) && |EndedSince(all, j)| >= n;
      var i := if j <= |init| then j else |init|;
      forall k | i <= k < |init| && Ended(init[k]) ensures RanOn(init[k]) == source { assert all[k] == init[k]; }
      assert EndedOn(init, source, i) && |EndedSince(init, i)| >= n;
    }
    if LastRanOn(init, source, n) {
      var j: nat :| j <= |init| && EndedOn(init, source, j) && |EndedSince(init, j)| >= n;
      assert EndedOn(all, source, j) && |EndedSince(all, j)| >= n;
    }
  }

  lemma OneMoreRanOn(init: seq<Attempt>, a: Attempt, source: string, n: int)
    requires Ended(a) && RanOn(a) == source
    ensures LastRanOn(init + [a], source, n) <==> LastRanOn(init, source, n - 1)
  {
    hide Ended, RanOn;
    var all := init + [a];
    forall j: nat | j <= |init| ensures |EndedSince(all, j)| == |EndedSince(init, j)| + 1 {
      assert EndedSince(all, j) == EndedSince(init, j) + {|init|};
    }
    assert EndedSince(all, |all|) == {} == EndedSince(init, |init|);
    if LastRanOn(all, source, n) {
      var j: nat :| j <= |all| && EndedOn(all, source, j) && |EndedSince(all, j)| >= n;
      var i := if j <= |init| then j else |init|;
      forall k | i <= k < |init| && Ended(init[k]) ensures RanOn(init[k]) == source { assert all[k] == init[k]; }
      assert EndedOn(init, source, i) && |EndedSince(init, i)| >= n - 1;
    }
    if LastRanOn(init, source, n - 1) {
      var j: nat :| j <= |init| && EndedOn(init, source, j) && |EndedSince(init, j)| >= n - 1;
      assert EndedOn(all, source, j) && |EndedSince(all, j)| >= n;
    }
  }

  lemma OtherRanLast(init: seq<Attempt>, a: Attempt, source: string, n: int)
    requires Ended(a) && RanOn(a) != source
    ensures LastRanOn(init + [a], source, n) <==> n <= 0
  {
    hide Ended, RanOn;
    var all := init + [a];
    assert all[|init|] == a;
    assert EndedSince(all, |all|) == {} && EndedOn(all, source, |all|);
    if LastRanOn(all, source, n) {
      var j: nat :| j <= |all| && EndedOn(all, source, j) && |EndedSince(all, j)| >= n;
      assert j == |all|;
    }
  }

  // ----- Bindings -----

  lemma {:induction false} FindsFirst(bs: seq<Binding>, provider: string, model: string, x: Binding)
    ensures FindByModel(Workers(bs), provider, model) == Some(x) <==> FirstIn(bs, provider, model, None, x)
  {
    hide FirstIn;
    if bs == [] {
      NoFirst(provider, model, x);
    } else {
      WorkersFirst(bs);
      hide Workers;
      FindsFirst(bs[1..], provider, model, x);
      FirstOrLater(bs, provider, model, None, x);
    }
  }

  lemma {:induction false} FindsOther(bs: seq<Binding>, provider: string, model: string, source: string, x: Binding)
    ensures FindOther(Workers(bs), provider, model, source) == Some(x)
            <==> FirstIn(bs, provider, model, Some(source), x)
  {
    hide FirstIn;
    if bs == [] {
      NoFirst(provider, model, x);
    } else {
      WorkersFirst(bs);
      hide Workers;
      FindsOther(bs[1..], provider, model, source, x);
      FirstOrLater(bs, provider, model, Some(source), x);
    }
  }

  lemma WorkersFirst(bs: seq<Binding>)
    requires bs != []
    ensures var ws := Workers(bs);
            if bs[0].role == WORKER then ws != [] && ws[0] == bs[0] && ws[1..] == Workers(bs[1..])
            else ws == Workers(bs[1..])
  {
  }

  lemma NoFirst(provider: string, model: string, x: Binding)
    ensures forall except :: !FirstIn([], provider, model, except, x)
  {
  }

  lemma FirstOrLater(bs: seq<Binding>, provider: string, model: string, except: Option<string>, x: Binding)
    requires bs != []
    ensures FirstIn(bs, provider, model, except, x)
            <==> if WorkerOf(bs[0], provider, model, except) then x == bs[0]
                 else FirstIn(bs[1..], provider, model, except, x)
  {
    hide WorkerOf;
    var rest := bs[1..];
    if FirstIn(bs, provider, model, except, x) && !WorkerOf(bs[0], provider, model, except) {
      var i :| 0 <= i < |bs| && bs[i] == x && WorkerOf(x, provider, model, except)
               && forall j | 0 <= j < i :: !WorkerOf(bs[j], provider, model, except);
      assert rest[i - 1] == x;
      forall j | 0 <= j < i - 1 ensures !WorkerOf(rest[j], provider, model, except) { assert rest[j] == bs[j + 1]; }
    }
    if FirstIn(rest, provider, model, except, x) && !WorkerOf(bs[0], provider, model, except) {
      var i :| 0 <= i < |rest| && rest[i] == x && WorkerOf(x, provider, model, except)
               && forall j | 0 <= j < i :: !WorkerOf(rest[j], provider, model, except);
      assert bs[i + 1] == x;
      forall j | 0 <= j < i + 1 ensures !WorkerOf(bs[j], provider, model, except) {
        if j > 0 { assert bs[j] == rest[j - 1]; }
      }
    }
  }

  lemma SameIdSameBinding(env: Env, x: Binding, y: Binding)
    requires x in env.registry && y in env.registry && x.id == y.id
    ensures x == y
  {
    var i :| 0 <= i < |env.registry| && env.registry[i] == x;
    var j :| 0 <= j < |env.registry| && env.registry[j] == y;
  }

  lemma NamedWorkerIff(env: Env, id: string, x: Binding)
    ensures FindById(Workers(env.registry), id) == Some(x) <==> NamedWorker(env, id, x)
  {
    var f := FindById(Workers(env.registry), id);
    if NamedWorker(env, id, x) && f.Some? { SameIdSameBinding(env, x, f.value); }
  }

  lemma StandsForIff(env: Env, c: Candidate, x: Binding)
    ensures BindingForCandidate(env.registry, c) == Some(x) <==> StandsFor(env, c, x)
    ensures StandsFor(env, c, x) ==> x in env.registry
  {
    NamedWorkerIff(env, Strip(c.bindingId), x);
    FindsFirst(env.registry, c.provider, c.model, x);
    var f := FindById(Workers(env.registry), Strip(c.bindingId));
    if f.Some? { NamedWorkerIff(env, Strip(c.bindingId), f.value); }
  }

  lemma FailsOverFirst(env: Env, ladder: seq<Candidate>, source: string, x: Binding)
    requires ladder != []
    ensures FailsOverTo(env, ladder, source, x)
            <==> || TakesOver(env, source, ladder[0], x)
                 || (PassedOver(env, source, ladder[0]) && FailsOverTo(env, ladder[1..], source, x))
  {
    hide TakesOver, PassedOver;
    var rest := ladder[1..];
    if FailsOverTo(env, ladder, source, x) {
      var k :| 0 <= k < |ladder| && TakesOver(env, source, ladder[k], x)
               && forall j | 0 <= j < k :: PassedOver(env, source, ladder[j]);
      if k > 0 {
        assert rest[k - 1] == ladder[k] && PassedOver(env, source, ladder[0]);
        forall j | 0 <= j < k - 1 ensures PassedOver(env, source, rest[j]) { assert rest[j] == ladder[j + 1]; }
      }
    }
    if PassedOver(env, source, ladder[0]) && FailsOverTo(env, rest, source, x) {
      var k :| 0 <= k < |rest| && TakesOver(env, source, rest[k], x)
               && forall j | 0 <= j < k :: PassedOver(env, source, rest[j]);
      assert ladder[k + 1] == rest[k];
      forall j | 0 <= j < k + 1 ensures PassedOver(env, source, ladder[j]) {
        if j > 0 { assert ladder[j] == rest[j - 1]; }
      }
    }
  }

  /** One candidate of the ladder: it takes over, is passed over, or ends the walk. */
  lemma CandidateIff(env: Env, source: string, c: Candidate, last: Attempt, rest: seq<Candidate>)
    ensures var d := WalkLadder(env, [c] + rest, last, source);
            && (forall x | TakesOver(env, source, c, x) :: x in env.registry && d == FailoverTo(env, last, x))
            && (PassedOver(env, source, c) ==>
                  d == WalkLadder(env, rest, last, source) && forall x :: !TakesOver(env, source, c, x))
            && (!PassedOver(env, source, c) && (forall x | x in env.registry :: !TakesOver(env, source, c, x)) ==>
                  d == Stop(NO_ELIGIBLE_BINDING))
  {
    assert ([c] + rest)[1..] == rest;
    var pinned := BindingForCandidate(env.registry, c);
    var other := FindOther(Workers(env.registry), c.provider, c.model, source);
    forall x ensures (pinned == Some(x) <==> StandsFor(env, c, x)) && (pinned == Some(x) ==> x in env.registry) {
      StandsForIff(env, c, x);
    }
    forall x
      ensures (other == Some(x) <==> FirstWorker(env, c, Some(source), x)) && (other == Some(x) ==> x in env.registry)
    {
      FindsOther(env.registry, c.provider, c.model, source, x);
      InRegistry(env, c, Some(source), x);
    }
    hide StandsFor, FirstWorker, FailoverTo, BindingForCandidate, Workers, FindOther;
  }

  lemma InRegistry(env: Env, c: Candidate, except: Option<string>, x: Binding)
    ensures FirstWorker(env, c, except, x) ==> x in env.registry
    ensures FirstWorker(env, c, except, x) <==> FirstIn(env.registry, c.provider, c.model, except, x)
  {
  }

  lemma {:induction false} WalkIff(env: Env, ladder: seq<Candidate>, last: Attempt, source: string)
    ensures var d := WalkLadder(env, ladder, last, source);
            && (forall x | FailsOverTo(env, ladder, source, x) :: x in env.registry && d == FailoverTo(env, last, x))
            && ((forall x | x in env.registry :: !FailsOverTo(env, ladder, source, x)) ==>
                  d == Stop(NO_ELIGIBLE_BINDING))
  {
    hide TakesOver, PassedOver, FailoverTo;
    if ladder != [] {
      var rest := ladder[1..];
      assert ladder == [ladder[0]] + rest;
      WalkIff(env, rest, last, source);
      CandidateIff(env, source, ladder[0], last, rest);
      hide WalkLadder;
      forall x { FailsOverFirst(env, ladder, source, x); }
      hide FailsOverTo;
    }
  }

  // ----- Every decision -----

  lemma NotReadyIff(b: Budgets, env: Env, run: Run, d: Decision)
    requires !Ready(env, run)
    ensures Decide(b, env, run) == d <==> Answers(b, env, run, d)
  {
    hide StandsFor, NamedWorker, LastRanOn, FailsOverTo, ListsModel, RetryDecision, FirstDecision;
    hide BaseMismatch, SourceIs;
  }

  lemma OnlyFirstChosen(b: Budgets, env: Env, run: Run)
    requires Ready(env, run) && !SomeEnded(run)
    ensures !Retries(env, run) && !MayRetry(env, run)
    ensures forall occasion, x ::
              Chosen(b, env, run, occasion, x)
              <==> occasion == FIRST && !Stalled(env, run) && StandsFor(env, env.ladder[0], x)
  {
    hide StandsFor, NamedWorker, LastRanOn, FailsOverTo, ListsModel, BaseMismatch, SourceIs, Stalled;
  }

  lemma FirstIff(b: Budgets, env: Env, run: Run, d: Decision)
    requires Ready(env, run) && !SomeEnded(run)
    ensures Decide(b, env, run) == d <==> Answers(b, env, run, d)
  {
    LastOfRun(run);
    OnlyFirstChosen(b, env, run);
    var f := BindingForCandidate(env.registry, env.ladder[0]);
    forall x ensures (StandsFor(env, env.ladder[0], x) <==> f == Some(x)) && (f == Some(x) ==> x in env.registry) {
      StandsForIff(env, env.ladder[0], x);
    }
    if f.Some? {
      assert StandsFor(env, env.ladder[0], f.value);
      assert !Stalled(env, run) ==> Chosen(b, env, run, FIRST, f.value);
    }
    assert Decide(b, env, run) == if Stalled(env, run) then Stop(STALL) else FirstDecision(env);
    hide StandsFor, LastRanOn, Chosen, AgainOn, Retries, MayRetry, RetryDecision, BindingForCandidate, SourceIs;
    hide TerminalOf, Workers, Stalled, SomeEnded, Decide;
    match d
    case LaunchAttempt(t) =>
    case FailoverNewAttempt(t) =>
    case Stop(reason) =>
      match reason
      case SUCCEEDED =>
      case BLOCKED =>
      case STALL =>
      case AUTHORITY_REFUSED =>
      case NO_PROGRESS =>
      case FAILOVER_BUDGET_EXHAUSTED =>
      case ATTEMPT_BUDGET_EXHAUSTED =>
      case NO_ELIGIBLE_BINDING =>
  }

  /** The last ended attempt is the one the decision looks at. */
  lemma LastIs(run: Run) returns (k: nat)
    requires SomeEnded(run)
    ensures LastEnded(run, k) && (forall j: nat | LastEnded(run, j) :: j == k)
    ensures TerminalOf(run.attempts) != []
    ensures run.attempts[k] == TerminalOf(run.attempts)[|TerminalOf(run.attempts)| - 1]
  {
    LastOfRun(run);
    k :| LastEnded(run, k) && run.attempts[k] == TerminalOf(run.attempts)[|TerminalOf(run.attempts)| - 1];
    forall j: nat | LastEnded(run, j) ensures j == k { LastIsOne(run, j, k); }
  }

  lemma NoneChosen(b: Budgets, env: Env, run: Run)
    requires SomeEnded(run) && !MayRetry(env, run)
    ensures forall x :: !AgainOn(env, run, x)
    ensures forall occasion, x :: !Chosen(b, env, run, occasion, x)
  {
    hide StandsFor, NamedWorker, LastRanOn, FailsOverTo, ListsModel, BaseMismatch, SourceIs, Stalled, MayRetry;
  }

  lemma NoRetryIff(b: Budgets, env: Env, run: Run, d: Decision)
    requires Ready(env, run) && SomeEnded(run) && !MayRetry(env, run)
    ensures Decide(b, env, run) == d <==> Answers(b, env, run, d)
  {
    var k := LastIs(run);
    var last, v := run.attempts[k], env.verdict;
    SourceIff(env, run);
    NoneChosen(b, env, run);
    assert Retries(env, run) <==> AsksAgain(v) && !last.uncertain;
    assert Decide(b, env, run) == RetryDecision(b, env, run);
    hide TerminalOf, SourceIs, LastEnded, BaseMismatch, BaseRefused, SourceBinding;
    var answer := Stop(if last.uncertain then BLOCKED else if v.action == NOOP_TERMINAL then SUCCEEDED
                       else if v.action == BLOCKED_ESCALATE then BLOCKED else if !env.autoRetry then AUTHORITY_REFUSED
                       else BLOCKED);
    assert Decide(b, env, run) == answer by {
      hide SameBindingDecision, DifferentBindingDecision, Decide, Ready;
    }
    hide Decide, RetryDecision, Retries, Chosen, AgainOn;
    match d
    case LaunchAttempt(t) =>
    case FailoverNewAttempt(t) =>
    case Stop(reason) =>
      match reason
      case SUCCEEDED =>
      case BLOCKED =>
      case STALL =>
      case AUTHORITY_REFUSED =>
      case NO_PROGRESS =>
      case FAILOVER_BUDGET_EXHAUSTED =>
      case ATTEMPT_BUDGET_EXHAUSTED =>
      case NO_ELIGIBLE_BINDING =>
  }

  lemma ListsIff(env: Env, x: Binding)
    ensures ListsModel(env, x) <==> OnLadder(env.ladder, x.provider, x.model)
  {
  }

  /** The same binding again, in terms of the worker the source names. */
  lemma SameDecisionIs(b: Budgets, env: Env, terminal: seq<Attempt>, source: string)
    requires terminal != []
    ensures SameBindingDecision(b, env, terminal, source)
            == match FindById(Workers(env.registry), source)
               case None => Stop(NO_ELIGIBLE_BINDING)
               case Some(x) =>
                 if !OnLadder(env.ladder, x.provider, x.model) then Stop(NO_ELIGIBLE_BINDING)
                 else if TrailingRun(Keys(terminal), source) >= b.maxNoProgress + 1 then Stop(NO_PROGRESS)
                 else AgainDecision(env, x, terminal[|terminal| - 1])
  {
    SameBindingStops(b, env, terminal, source);
    var w := FindById(Workers(env.registry), source);
    var f := FindById(env.registry, source);
    if w.Some? {
      assert w.value in env.registry;
      SameIdSameBinding(env, w.value, f.value);
    }
    hide Keys, TrailingRun, OnLadder, Workers;
  }

  ghost function AgainDecision(env: Env, x: Binding, last: Attempt): Decision
  {
    var e := env.effort(x);
    if e.RESOLVED? then LaunchAttempt(TargetOn(x, e.tier, Some(last.id), env.verdict.requiredBase)) else EffortStop(e)
  }

  /** What a retry that nothing forbids comes to. */
  lemma RetryIs(b: Budgets, env: Env, run: Run, k: nat)
    requires MayRetry(env, run) && LastEnded(run, k) && TerminalOf(run.attempts) != []
    requires run.attempts[k] == TerminalOf(run.attempts)[|TerminalOf(run.attempts)| - 1]
    requires forall j: nat | LastEnded(run, j) :: j == k
    ensures Decide(b, env, run)
            == match SourceBinding(env, run)
               case None => Stop(NO_ELIGIBLE_BINDING)
               case Some(source) =>
                 if source == "" then Stop(NO_ELIGIBLE_BINDING)
                 else if AsksTheSame(env.verdict) then SameBindingDecision(b, env, TerminalOf(run.attempts), source)
                 else if run.failovers >= b.maxFailovers then Stop(FAILOVER_BUDGET_EXHAUSTED)
                 else WalkLadder(env, env.ladder, run.attempts[k], source)
  {
    SourceIff(env, run);
    assert Decide(b, env, run) == RetryDecision(b, env, run);
    hide Decide, TerminalOf, SourceIs, BaseMismatch, BaseRefused, SourceBinding, LastEnded;
    hide SameBindingDecision, WalkLadder;
  }

  lemma AgainIff(env: Env, run: Run, x: Binding)
    requires MayRetry(env, run) && AsksTheSame(env.verdict)
    ensures AgainOn(env, run, x)
            <==> && x.id != "" && SourceBinding(env, run) == Some(x.id)
                 && FindById(Workers(env.registry), x.id) == Some(x) && OnLadder(env.ladder, x.provider, x.model)
    ensures AgainOn(env, run, x) ==> x in env.registry
  {
    SourceIff(env, run);
    NamedWorkerIff(env, x.id, x);
    ListsIff(env, x);
    hide MayRetry, SourceIs, SourceBinding, ListsModel, OnLadder, Workers;
  }

  lemma AgainChosen(b: Budgets, env: Env, run: Run)
    requires SomeEnded(run) && MayRetry(env, run) && AsksTheSame(env.verdict)
    ensures forall occasion, x ::
              Chosen(b, env, run, occasion, x)
              <==> occasion == AGAIN && AgainOn(env, run, x) && !LastRanOn(run.attempts, x.id, b.maxNoProgress + 1)
  {
    hide StandsFor, LastRanOn, FailsOverTo, AgainOn, SourceIs, Stalled, MayRetry;
  }

  lemma SameIff(b: Budgets, env: Env, run: Run, d: Decision)
    requires SomeEnded(run) && MayRetry(env, run) && AsksTheSame(env.verdict)
    ensures Decide(b, env, run) == d <==> Answers(b, env, run, d)
  {
    var k := LastIs(run);
    SourceIff(env, run);
    RetryIs(b, env, run, k);
    AgainChosen(b, env, run);
    var terminal := TerminalOf(run.attempts);
    assert Ready(env, run) && Retries(env, run) && env.autoStart && !InStatus(run, SUCCESS) && env.ladder != [];
    assert !run.attempts[k].uncertain && AsksAgain(env.verdict);
    hide Ready, Retries, MayRetry, InStatus, SomeEnded, LastEnded, LastRanOn, AgainOn, Chosen, SourceIs, BaseMismatch;
    hide SourceBinding, Decide, SameBindingDecision, TerminalOf, Workers, OnLadder, Stalled, TrailingRun, Keys;
    var found: Option<Binding> := None;
    if SourceBinding(env, run).Some? && SourceBinding(env, run).value != "" {
      var source := SourceBinding(env, run).value;
      SameDecisionIs(b, env, terminal, source);
      TrailingIff(run.attempts, source, b.maxNoProgress + 1);
      found := FindById(Workers(env.registry), source);
      if found.Some? && !OnLadder(env.ladder, found.value.provider, found.value.model) { found := None; }
    }
    forall x ensures (AgainOn(env, run, x) <==> found == Some(x)) && (AgainOn(env, run, x) ==> x in env.registry) {
      AgainIff(env, run, x);
    }
    SameAnswers(b, env, run, d, k, found);
  }

  /** With the worker of the same binding, if there is one. */
  lemma SameAnswers(b: Budgets, env: Env, run: Run, d: Decision, k: nat, found: Option<Binding>)
    requires SomeEnded(run) && MayRetry(env, run) && AsksTheSame(env.verdict)
    requires LastEnded(run, k) && (forall j: nat | LastEnded(run, j) :: j == k) && !run.attempts[k].uncertain
    requires forall x :: (AgainOn(env, run, x) <==> found == Some(x)) && (AgainOn(env, run, x) ==> x in env.registry)
    requires Decide(b, env, run)
             == match found
                case None => Stop(NO_ELIGIBLE_BINDING)
                case Some(x) =>
                  if LastRanOn(run.attempts, x.id, b.maxNoProgress + 1) then Stop(NO_PROGRESS)
                  else AgainDecision(env, x, run.attempts[k])
    ensures Decide(b, env, run) == d <==> Answers(b, env, run, d)
  {
    AgainChosen(b, env, run);
    assert Ready(env, run) && Retries(env, run) && env.autoStart && !InStatus(run, SUCCESS) && env.ladder != [];
    assert AsksAgain(env.verdict) && env.autoRetry && !BaseMismatch(env, run);
    hide LastEnded;
    hide Ready, Retries, InStatus, SomeEnded, LastRanOn, AgainOn, Chosen, BaseMismatch, SourceIs, MayRetry, AsksTheSame;
    hide Decide, Stalled;
    if found.Some? {
      var x := found.value;
      assert AgainOn(env, run, x) && x in env.registry;
      assert !LastRanOn(run.attempts, x.id, b.maxNoProgress + 1) ==> Chosen(b, env, run, AGAIN, x);
      SourceOfAgain(env, run, x);
    }
    match d
    case LaunchAttempt(t) =>
    case FailoverNewAttempt(t) =>
    case Stop(reason) =>
      match reason
      case SUCCEEDED =>
      case BLOCKED =>
      case STALL =>
      case AUTHORITY_REFUSED =>
      case NO_PROGRESS =>
      case FAILOVER_BUDGET_EXHAUSTED =>
      case ATTEMPT_BUDGET_EXHAUSTED =>
      case NO_ELIGIBLE_BINDING =>
  }

  lemma SourceOfAgain(env: Env, run: Run, x: Binding)
    requires AgainOn(env, run, x)
    ensures exists source: string :: SourceIs(env, run, source)
  {
    assert SourceIs(env, run, x.id);
  }

  lemma FailoverChosen(b: Budgets, env: Env, run: Run, source: Option<string>)
    requires SomeEnded(run) && MayRetry(env, run) && !AsksTheSame(env.verdict)
    requires forall other: string :: SourceIs(env, run, other) <==> source == Some(other)
    ensures forall x :: !AgainOn(env, run, x)
    ensures forall occasion, x ::
              Chosen(b, env, run, occasion, x)
              <==> && occasion == FAILOVER && run.failovers < b.maxFailovers && source.Some?
                   && FailsOverTo(env, env.ladder, source.value, x)
  {
    hide StandsFor, LastRanOn, FailsOverTo, SourceIs, Stalled, MayRetry;
  }

  lemma OtherIff(b: Budgets, env: Env, run: Run, d: Decision)
    requires SomeEnded(run) && MayRetry(env, run) && !AsksTheSame(env.verdict)
    ensures Decide(b, env, run) == d <==> Answers(b, env, run, d)
  {
    var k := LastIs(run);
    SourceIff(env, run);
    RetryIs(b, env, run, k);
    var binding := SourceBinding(env, run);
    var source := if binding == Some("") then None else binding;
    assert !run.attempts[k].uncertain;
    hide Decide, Answers, SomeEnded, MayRetry, AsksTheSame, LastEnded, SourceIs, AgainOn, Chosen, FailsOverTo;
    hide RetryDecision, WalkLadder, FailoverTo, SourceBinding, TerminalOf, Ready, Retries, StandsFor, TakesOver;
    hide NamedWorker, ListsModel, BaseMismatch, LastRanOn, PassedOver, InStatus, Stalled, Stops, Names, SomeChosen;
    var found: Option<Binding> := None;
    if source.Some? && run.failovers < b.maxFailovers {
      WalkIff(env, env.ladder, run.attempts[k], source.value);
      if x :| x in env.registry && FailsOverTo(env, env.ladder, source.value, x) { found := Some(x); }
      forall x ensures FailsOverTo(env, env.ladder, source.value, x) <==> found == Some(x) {
        if FailsOverTo(env, env.ladder, source.value, x) { OneFailsOver(env, source.value, x, found); }
      }
    }
    FailoverChosen(b, env, run, source);
    OtherAnswers(b, env, run, d, k, source, found);
  }

  lemma OneTakesOver(env: Env, source: string, c: Candidate, x: Binding, y: Binding)
    requires TakesOver(env, source, c, x)
    ensures TakesOver(env, source, c, y) ==> x == y
    ensures !PassedOver(env, source, c) && x in env.registry
  {
    StandsForIff(env, c, x);
    StandsForIff(env, c, y);
    forall z ensures StandsFor(env, c, z) ==> BindingForCandidate(env.registry, c) == Some(z) {
      StandsForIff(env, c, z);
    }
    FindsOther(env.registry, c.provider, c.model, source, x);
    FindsOther(env.registry, c.provider, c.model, source, y);
    InRegistry(env, c, Some(source), x);
    InRegistry(env, c, Some(source), y);
    hide StandsFor, FirstIn, BindingForCandidate, FindOther, Workers;
  }

  /** One binding takes over. */
  lemma OneFailsOver(env: Env, source: string, x: Binding, found: Option<Binding>)
    requires FailsOverTo(env, env.ladder, source, x)
    requires found.Some? ==> FailsOverTo(env, env.ladder, source, found.value)
    requires found.None? ==> forall y | y in env.registry :: !FailsOverTo(env, env.ladder, source, y)
    ensures found == Some(x)
  {
    hide TakesOver, PassedOver;
    var k :| 0 <= k < |env.ladder| && TakesOver(env, source, env.ladder[k], x)
             && forall j | 0 <= j < k :: PassedOver(env, source, env.ladder[j]);
    OneTakesOver(env, source, env.ladder[k], x, x);
    assert found.Some?;
    var y := found.value;
    var i :| 0 <= i < |env.ladder| && TakesOver(env, source, env.ladder[i], y)
             && forall j | 0 <= j < i :: PassedOver(env, source, env.ladder[j]);
    OneTakesOver(env, source, env.ladder[i], y, x);
  }

  /** With the source binding, if there is one, and the binding that takes over, if one may. */
  ghost predicate OtherCase(b: Budgets, env: Env, run: Run, k: nat, source: Option<string>, found: Option<Binding>)
  {
    && SomeEnded(run) && MayRetry(env, run) && !AsksTheSame(env.verdict)
    && LastEnded(run, k) && (forall j: nat | LastEnded(run, j) :: j == k) && !run.attempts[k].uncertain
    && (forall other: string :: SourceIs(env, run, other) <==> source == Some(other))
    && (forall x :: !AgainOn(env, run, x))
    && (forall occasion, x :: Chosen(b, env, run, occasion, x) <==> occasion == FAILOVER && found == Some(x))
    && (found.Some? ==> found.value in env.registry && source.Some? && run.failovers < b.maxFailovers)
    && (source.Some? && run.failovers < b.maxFailovers ==>
          forall x :: FailsOverTo(env, env.ladder, source.value, x) <==> found == Some(x))
    && Decide(b, env, run)
       == if source.None? then Stop(NO_ELIGIBLE_BINDING)
          else if run.failovers >= b.maxFailovers then Stop(FAILOVER_BUDGET_EXHAUSTED)
          else match found
               case None => Stop(NO_ELIGIBLE_BINDING)
               case Some(x) => FailoverTo(env, run.attempts[k], x)
  }

  lemma AnswersIsStops(b: Budgets, env: Env, run: Run, reason: StopReason)
    ensures Answers(b, env, run, Stop(reason)) <==> Stops(b, env, run, reason)
  {
    hide Stops;
  }

  lemma OtherAnswers(b: Budgets, env: Env, run: Run, d: Decision, k: nat, source: Option<string>,
                     found: Option<Binding>)
    requires OtherCase(b, env, run, k, source, found)
    ensures Decide(b, env, run) == d <==> Answers(b, env, run, d)
  {
    hide *;
    if d.Stop? {
      OtherStops(b, env, run, d.reason, k, source, found);
      AnswersIsStops(b, env, run, d.reason);
    } else {
      OtherLaunches(b, env, run, d, k, source, found);
    }
  }

  lemma OtherLaunches(b: Budgets, env: Env, run: Run, d: Decision, k: nat, source: Option<string>,
                      found: Option<Binding>)
    requires OtherCase(b, env, run, k, source, found) && !d.Stop?
    ensures Decide(b, env, run) == d <==> Answers(b, env, run, d)
  {
    hide LastEnded, FailsOverTo;
    hide Ready, Retries, InStatus, SomeEnded, LastRanOn, AgainOn, Chosen, BaseMismatch, SourceIs, MayRetry, AsksTheSame;
    hide Decide, Stalled, AsksAgain;
    if found.Some? { assert Chosen(b, env, run, FAILOVER, found.value); }
  }

  lemma OtherStops(b: Budgets, env: Env, run: Run, reason: StopReason, k: nat, source: Option<string>,
                   found: Option<Binding>)
    requires OtherCase(b, env, run, k, source, found)
    ensures Decide(b, env, run) == Stop(reason) <==> Stops(b, env, run, reason)
  {
    assert Ready(env, run) && Retries(env, run) && env.autoStart && !InStatus(run, SUCCESS) && env.ladder != [];
    assert AsksAgain(env.verdict) && env.autoRetry && !BaseMismatch(env, run);
    hide LastEnded, FailsOverTo;
    hide Ready, Retries, InStatus, SomeEnded, LastRanOn, AgainOn, Chosen, BaseMismatch, SourceIs, MayRetry, AsksTheSame;
    hide Decide, Stalled, AsksAgain;
    if reason == NO_ELIGIBLE_BINDING {
      OtherNoBinding(b, env, run, k, source, found);
    } else {
      hide NobodyTakesOver, NobodyStandsFor;
      if found.Some? { assert Chosen(b, env, run, FAILOVER, found.value); }
      match reason
      case SUCCEEDED =>
      case BLOCKED =>
      case STALL =>
      case AUTHORITY_REFUSED =>
      case NO_PROGRESS =>
      case FAILOVER_BUDGET_EXHAUSTED =>
      case _ =>
    }
  }

  lemma OtherNoBinding(b: Budgets, env: Env, run: Run, k: nat, source: Option<string>, found: Option<Binding>)
    requires OtherCase(b, env, run, k, source, found)
    ensures Decide(b, env, run) == Stop(NO_ELIGIBLE_BINDING) <==> Stops(b, env, run, NO_ELIGIBLE_BINDING)
  {
    assert Ready(env, run) && Retries(env, run) && env.autoStart && !InStatus(run, SUCCESS) && env.ladder != [];
    assert AsksAgain(env.verdict) && env.autoRetry && !BaseMismatch(env, run);
    hide LastEnded, FailsOverTo;
    hide Ready, Retries, InStatus, SomeEnded, LastRanOn, AgainOn, Chosen, BaseMismatch, SourceIs, MayRetry, AsksTheSame;
    hide Decide, Stalled, AsksAgain;
    if found.Some? { assert Chosen(b, env, run, FAILOVER, found.value); }
  }

  /** Every decision, each stop with its reason and each launch with its whole target, is the
      one the raw state calls for: `Answers` holds of exactly one decision, and that is made. */
  lemma DecideIff(b: Budgets, env: Env, run: Run, d: Decision)
    ensures Decide(b, env, run) == d <==> Answers(b, env, run, d)
  {
    hide *;
    if !Ready(env, run) {
      NotReadyIff(b, env, run, d);
    } else if !SomeEnded(run) {
      FirstIff(b, env, run, d);
    } else if !MayRetry(env, run) {
      NoRetryIff(b, env, run, d);
    } else if AsksTheSame(env.verdict) {
      SameIff(b, env, run, d);
    } else {
      OtherIff(b, env, run, d);
    }
  }

  /** So a launch needs the owner's leave, no candidate yet and somebody to ask; and after an
      attempt that ended, leave to retry, evidence that is certain and an engine that asks. */
  lemma LaunchesNeedLeave(b: Budgets, env: Env, run: Run)
    ensures !Decide(b, env, run).Stop? ==>
              && env.autoStart && !InStatus(run, SUCCESS) && env.ladder != []
              && (SomeEnded(run) ==>
                    && env.autoRetry && AsksAgain(env.verdict) && !BaseMismatch(env, run)
                    && exists k: nat :: LastEnded(run, k) && !run.attempts[k].uncertain)
              && (!SomeEnded(run) ==> Decide(b, env, run).LaunchAttempt? && !Stalled(env, run))
  {
    DecideIff(b, env, run, Decide(b, env, run));
    hide Decide, StandsFor, FailsOverTo, BaseMismatch, LastRanOn, InStatus, Names, ListsModel, NamedWorker, SourceIs;
  }
}
