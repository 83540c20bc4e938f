/**
 Integrating a candidate (src/saberops/accept.py): compare-and-swap of the target ref, the gate, and
 the one rollback boundary, against writers that may act between any two steps.
 */
module AcceptProtocol {
  import opened Sha
  import opened Text
  import opened Wrappers

  // ----- The target repository and its other writers -----

  datatype Writer = ENGINE | EXTERNAL

  /** One change of the target ref. */
  datatype Update = Update(writer: Writer, before: string, after: string)

  /** What happens to the repository between two steps of the engine: the ref is moved, the
      worktree touched; and whether the engine's next primitive fails for reasons of its own. */
  datatype Turn = Turn(moves: seq<string>, tree: Option<string>, untracked: Option<bool>, fault: bool)

  datatype EventKind =
    | GATE_RECEIPT | GATE_PREFLIGHT_BLOCKED | GATE_RUNNER_INFRASTRUCTURE_ERROR | GATE_RUNNER_UNEXPECTED_EXCEPTION
    | POST_INTEGRATION_GATE_SKIPPED | RUN_ACCEPTED

  type Swap = (string, string)

  /** The ref after the first k updates. */
  function HeadAt(origin: string, history: seq<Update>, k: nat): string
    requires k <= |history|
  {
    if k == 0 then origin else history[k - 1].after
  }

  function HeadAfter(origin: string, history: seq<Update>): string { HeadAt(origin, history, |history|) }

  /** Every update replaced the value the ref really had. */
  predicate Linked(origin: string, history: seq<Update>)
  {
    forall k | 0 <= k < |history| :: LinkedAt(origin, history, k)
  }

  predicate LinkedAt(origin: string, history: seq<Update>, k: nat)
    requires k < |history|
  {
    history[k].before == HeadAt(origin, history, k)
  }

  /** What the engine wrote, in order. */
  function EngineWrites(history: seq<Update>): seq<Swap>
  {
    if history == [] then []
    else
      var last := history[|history| - 1];
      EngineWrites(history[..|history| - 1]) + if last.writer == ENGINE then [(last.before, last.after)] else []
  }

  lemma {:induction false} EngineWritesConcat(a: seq<Update>, b: seq<Update>)
    ensures EngineWrites(a + b) == EngineWrites(a) + EngineWrites(b)
    decreases |b|
  {
    if b == [] {
      assert a + b == a;
    } else {
      assert (a + b)[..|a + b| - 1] == a + b[..|b| - 1];
      EngineWritesConcat(a, b[..|b| - 1]);
    }
  }

  lemma OneMoreUpdate(origin: string, history: seq<Update>, u: Update)
    requires Linked(origin, history) && u.before == HeadAfter(origin, history)
    ensures Linked(origin, history + [u]) && HeadAfter(origin, history + [u]) == u.after
    ensures EngineWrites(history + [u]) == EngineWrites(history) + if u.writer
            == ENGINE then [(u.before, u.after)] else []
  {
    var now := history + [u];
    assert now[..|history|] == history;
    forall k | 0 <= k < |now| ensures LinkedAt(origin, now, k) {
      assert HeadAt(origin, now, k) == HeadAt(origin, history, k);
      if k < |history| { assert LinkedAt(origin, history, k); }
    }
  }

  // ----- What a swap refuses to touch -----

  predicate Contains(s: string, c: char, d: char)
  {
    exists k :: 0 <= k < |s| - 1 && s[k] == c && s[k + 1] == d
  }

  predicate DangerousInRef(c: char)
  {
    c in "\\^:~?*[]" || IsSpace(c) || c < ' ' || c == '\U{7f}'
  }

  /** HEAD or a branch, without anything git gives a meaning of its own. */
  predicate SafeRef(ref: string)
  {
    && (ref == "HEAD" || StartsWith(ref, "refs/heads/"))
    && !Contains(ref, '.', '.') && !Contains(ref, '@', '{')
    && forall k | 0 <= k < |ref| :: !DangerousInRef(ref[k])
  }

  /** A swap of the two commits on the ref is not refused outright. */
  predicate Swappable(ref: string, a: string, b: string)
  {
    SafeRef(ref) && Canonical(a) && Canonical(b)
  }

  datatype SwapOutcome = SWAPPED | RACED | REFUSED

  // ----- The gate -----

  datatype Receipt = Receipt(exitCode: int, timedOut: bool, launchFailed: bool, terminationIncomplete: bool,
                             evidenceFailed: bool, notRun: bool, postSha: string, postClean: bool)
  {
    predicate Passed()
    {
      exitCode == 0 && !timedOut && !launchFailed && !terminationIncomplete && !evidenceFailed && !notRun
    }
  }

  datatype RunnerOutcome = Preflight | Infrastructure | Raised | NoReceipt | Returned(receipt: Receipt)

  datatype Classification =
    | PREFLIGHT_BLOCKED | GATE_FAILED | INFRASTRUCTURE_OR_EVIDENCE_FAILURE | UNEXPECTED_GATE_FAILURE

  /** The one receipt that lets a candidate through: the gate ran, exited with 0, kept its evidence
      and left the candidate checked out, clean. */
  function Clean(candidate: string): Receipt { Receipt(0, false, false, false, false, false, candidate, true) }

  /** What the boundary needs to know of a failure. */
  datatype Failure = Failure(classification: Classification, hasReceipt: bool, error: FailureError, recorded: bool)

  datatype FailureError = NoError | PreflightError | InfraError | UnexpectedError

  datatype Result =
    | Refused                                                         // no swap was tried
    | RaceLost                                                        // the ref was not ours to move
    | SyncFailed                                                      // after the swap, before HEAD was read
    | PolicyUnread                                                    // installed, but no policy to gate it by
    | RolledBack(classification: Classification, complete: bool)      // the boundary
    | RecordFailed(receipt: Option<Receipt>)                          // after the boundary
    | Accepted(receipt: Option<Receipt>)

  /** Which classification a failure of the gate phase gets; a receipt whose event could not be
      written is an evidence failure whatever it says. */
  predicate Fits(c: Classification, runner: RunnerOutcome, fault: bool, candidate: string)
  {
    match c
    case PREFLIGHT_BLOCKED => runner.Preflight?
    case INFRASTRUCTURE_OR_EVIDENCE_FAILURE => runner.Infrastructure? || (runner.Returned? && fault)
    case GATE_FAILED => runner.Returned? && !fault && !runner.receipt.Passed()
    case UNEXPECTED_GATE_FAILURE =>
      || runner.Raised? || runner.NoReceipt?
      || (runner.Returned? && !fault && runner.receipt.Passed()
          && (runner.receipt.postSha == "" || runner.receipt.postSha != candidate || !runner.receipt.postClean))
  }

  datatype GateOutcome = Passed(receipt: Receipt) | Failed(failure: Failure)

  // ----- What decides an acceptance that starts in turn t -----

  /** The ref after others moved it. */
  function Moved(head: string, moves: seq<string>): string
  {
    if moves == [] then head else moves[|moves| - 1]
  }

  /** The swap is made. */
  predicate Installs(env: nat -> Turn, t: nat, ref: string, head: string, base: string, candidate: string)
  {
    Swappable(ref, base, candidate) && !env(t).fault && Moved(head, env(t).moves) == base
  }

  /** The installation cannot be verified. */
  predicate SyncFails(env: nat -> Turn, t: nat)
  {
    env(t + 1).fault || env(t + 2).fault
  }

  /** Nobody moves the ref before HEAD is read. */
  predicate StaysInstalled(env: nat -> Turn, t: nat, candidate: string)
  {
    Moved(Moved(candidate, env(t + 1).moves), env(t + 2).moves) == candidate
  }

  /** The swap is made and found to hold. */
  predicate Verifies(env: nat -> Turn, t: nat, ref: string, head: string, base: string, candidate: string)
  {
    Installs(env, t, ref, head, base, candidate) && !SyncFails(env, t) && StaysInstalled(env, t, candidate)
  }

  /** The gate lets the candidate through in turn t: it is disabled, or its receipt is recorded and
      says all went well. */
  predicate GatePasses(env: nat -> Turn, t: nat, gateEnabled: bool, runner: RunnerOutcome, candidate: string)
  {
    gateEnabled ==> !env(t).fault && runner == Returned(Clean(candidate))
  }

  /** What then fails to be recorded: the skipped gate, or the acceptance. */
  predicate RecordFails(env: nat -> Turn, t: nat, gateEnabled: bool)
  {
    (!gateEnabled && env(t).fault) || env(t + 1).fault
  }

  // ----- Which swaps are tried, spelled out -----

  predicate Hex40(s: string) { |s| == 40 && forall k | 0 <= k < 40 :: s[k] in "0123456789abcdef" }

  ghost predicate Within(s: string, part: string) { exists before, after :: s == before + part + after }

  /** Exactly those on HEAD or a branch whose name holds nothing git reads as more than a name,
      between two full hexadecimal SHAs. */
  lemma SwappableIff(ref: string, a: string, b: string)
    ensures Swappable(ref, a, b)
            <==> && (ref == "HEAD" || exists name: string :: ref == "refs/heads/" + name)
                 && !Within(ref, "..") && !Within(ref, "@{")
                 && (forall k | 0 <= k < |ref| ::
                       ' ' < ref[k] && ref[k] != '\U{7f}' && !IsSpace(ref[k])
                       && ref[k] !in {'\\', '^', ':', '~', '?', '*', '[', ']'})
                 && Hex40(a) && Hex40(b)
  {
    HexIff(a);
    HexIff(b);
    assert ".." == ['.', '.'] && "@{" == ['@', '{'];
    WithinIff(ref, '.', '.');
    WithinIff(ref, '@', '{');
    if StartsWith(ref, "refs/heads/") { assert ref == "refs/heads/" + ref[11..]; }
    hide Canonical, Hex40, Contains, Within;
  }

  lemma WithinIff(s: string, c: char, d: char)
    ensures Within(s, [c, d]) <==> Contains(s, c, d)
  {
    if before, after :| s == before + [c, d] + after {
      assert s[|before|] == c && s[|before| + 1] == d;
    }
    if k :| 0 <= k < |s| - 1 && s[k] == c && s[k + 1] == d {
      assert s == s[..k] + [c, d] + s[k + 2..];
    }
  }

  lemma HexIff(s: string)
    ensures Canonical(s) <==> Hex40(s)
  {
    forall c: char ensures IsLowerHex(c) <==> c in "0123456789abcdef" {
      assert "0123456789abcdef"[0..10] == "0123456789" && "0123456789abcdef"[10..] == "abcdef";
    }
  }

  class TargetRepository {
    /** The other writers and the faults, one turn before each primitive. */
    const env: nat -> Turn
    /** The ref of the checked-out branch. */
    const ref: string
    /** Whether the run's frozen policy enables the gate; None when it is malformed. */
    const policy: Option<bool>
    ghost const origin: string
    var clock: nat

    var head: string
    /** The commit whose tree the index and worktree hold, and whether untracked files lie in it. */
    var tree: string
    var untracked: bool
    var events: seq<EventKind>

    ghost var history: seq<Update>
    /** Every compare-and-swap the engine tried. */
    ghost var swaps: seq<Swap>
    /** Every value of HEAD the engine read. */
    ghost var seen: seq<string>

    ghost predicate Valid()
      reads this
    {
      Linked(origin, history) && head == HeadAfter(origin, history)
    }

    constructor (env: nat -> Turn, ref: string, policy: Option<bool>, head: string, tree: string, untracked: bool)
      ensures Valid() && this.env == env && this.ref == ref && this.policy == policy
      ensures this.head == head && this.tree == tree && this.untracked == untracked
      ensures events == [] && history == [] && swaps == [] && seen == [] && clock == 0
    {
      this.env, this.ref, this.policy, this.origin, this.clock := env, ref, policy, head, 0;
      this.head, this.tree, this.untracked, this.events := head, tree, untracked, [];
      this.history, this.swaps, this.seen := [], [], [];
    }

    method MoveExternally(moves: seq<string>)
      requires Valid()
      modifies this`head, this`history
      ensures Valid() && old(history) <= history
      ensures EngineWrites(history) == EngineWrites(old(history))
      ensures head == Moved(old(head), moves)
      ensures moves == [] ==> head == old(head) && history == old(history)
    {
      assert moves[..|moves|] == moves;
      for i := 0 to |moves|
        invariant Valid() && old(history) <= history
        invariant EngineWrites(history) == EngineWrites(old(history))
        invariant head == Moved(old(head), moves[..i])
        invariant i == 0 ==> head == old(head) && history == old(history)
      {
        OneMoreUpdate(origin, history, Update(EXTERNAL, head, moves[i]));
        history := history + [Update(EXTERNAL, head, moves[i])];
        head := moves[i];
      }
    }

    /** The others' turn. */
    method Yield() returns (fault: bool)
      requires Valid()
      modifies this`head, this`history, this`tree, this`untracked, this`clock
      ensures Valid() && old(history) <= history && clock == old(clock) + 1
      ensures EngineWrites(history) == EngineWrites(old(history))
      ensures fault == env(old(clock)).fault && head == Moved(old(head), env(old(clock)).moves)
      ensures env(old(clock)) == Turn([], None, None, false) ==>
                head == old(head) && history == old(history) && tree == old(tree) && untracked == old(untracked) && !fault
    {
      var turn := env(clock);
      clock := clock + 1;
      MoveExternally(turn.moves);
      if turn.tree.Some? { tree := turn.tree.value; }
      if turn.untracked.Some? { untracked := turn.untracked.value; }
      fault := turn.fault;
    }

    /** Atomically replaces the ref's value, if it is the expected one; an unsafe ref or a name
        that is no SHA is refused before git is asked. */
    method CompareAndSwap(expected: string, target: string) returns (o: SwapOutcome)
      requires Valid()
      modifies this`head, this`history, this`tree, this`untracked, this`clock, this`swaps
      ensures Valid() && old(history) <= history
      ensures o == REFUSED <==> !Swappable(ref, expected, target)
      ensures o == REFUSED ==> head == old(head) && history == old(history) && tree == old(tree)
      ensures swaps == old(swaps) + if o == REFUSED then [] else [(expected, target)]
      ensures EngineWrites(history) == EngineWrites(old(history)) + if o == SWAPPED then [(expected, target)] else []
      ensures clock == old(clock) + if o == REFUSED then 0 else 1
      ensures o == SWAPPED <==>
                o != REFUSED && !env(old(clock)).fault && Moved(old(head), env(old(clock)).moves) == expected
      ensures o == SWAPPED ==> head == target
      ensures Quiet(env) && old(head) == expected && o != REFUSED ==>
                o == SWAPPED && tree == old(tree) && untracked == old(untracked)
    {
      hide EngineWrites, Linked, HeadAt, HeadAfter, SafeRef;
      if !Swappable(ref, expected, target) { return REFUSED; }
      var fault := Yield();
      swaps := swaps + [(expected, target)];
      if fault || head != expected { return RACED; }
      OneMoreUpdate(origin, history, Update(ENGINE, head, target));
      history := history + [Update(ENGINE, head, target)];
      head := target;
      return SWAPPED;
    }

    /** read-tree -u --reset HEAD: the ref stays, and so do untracked files. */
    method SyncIndexWorktree() returns (ok: bool)
      requires Valid()
      modifies this`head, this`history, this`tree, this`untracked, this`clock
      ensures Valid() && old(history) <= history && EngineWrites(history) == EngineWrites(old(history))
      ensures clock == old(clock) + 1 && ok == !env(old(clock)).fault
      ensures head == Moved(old(head), env(old(clock)).moves)
      ensures Quiet(env) ==> ok && head == old(head) && tree == head && untracked == old(untracked)
    {
      var fault := Yield();
      ok := !fault;
      if ok { tree := head; }
    }

    method ReadHead() returns (sha: Option<string>)
      requires Valid()
      modifies this`head, this`history, this`tree, this`untracked, this`clock, this`seen
      ensures seen == if sha.Some? then old(seen) + [sha.value] else old(seen)
      ensures Valid() && old(history) <= history && EngineWrites(history) == EngineWrites(old(history))
      ensures clock == old(clock) + 1
      ensures sha == if env(old(clock)).fault then None else Some(head)
      ensures head == Moved(old(head), env(old(clock)).moves)
      ensures Quiet(env) ==>
                sha == Some(old(head)) && head == old(head) && tree == old(tree) && untracked == old(untracked)
    {
      var fault := Yield();
      sha := if fault then None else Some(head);
      if sha.Some? { seen := seen + [head]; }
    }

    /** _validation_policy: the run's row is read again, and the read may fail. */
    method ReadPolicy() returns (gateEnabled: Option<bool>)
      requires Valid()
      modifies this`head, this`history, this`tree, this`untracked, this`clock
      ensures Valid() && old(history) <= history && EngineWrites(history) == EngineWrites(old(history))
      ensures clock == old(clock) + 1
      ensures gateEnabled == if env(old(clock)).fault then None else policy
      ensures Quiet(env) ==>
                gateEnabled == policy && head == old(head) && tree == old(tree) && untracked == old(untracked)
    {
      var fault := Yield();
      gateEnabled := if fault then None else policy;
    }

    method IsClean() returns (clean: bool)
      requires Valid()
      modifies this`head, this`history, this`tree, this`untracked, this`clock
      ensures Valid() && old(history) <= history && EngineWrites(history) == EngineWrites(old(history))
      ensures Quiet(env) ==> clean == (old(tree) == old(head) && !old(untracked))
                             && head == old(head) && tree == old(tree) && untracked == old(untracked)
    {
      var fault := Yield();
      clean := !fault && tree == head && !untracked;
    }

    method RecordEvent(kind: EventKind) returns (ok: bool)
      requires Valid()
      modifies this`head, this`history, this`tree, this`untracked, this`clock, this`events
      ensures Valid() && old(history) <= history && EngineWrites(history) == EngineWrites(old(history))
      ensures clock == old(clock) + 1 && ok == !env(old(clock)).fault
      ensures events == if ok then old(events) + [kind] else old(events)
      ensures Quiet(env) ==> ok && head == old(head) && tree == old(tree) && untracked == old(untracked)
    {
      var fault := Yield();
      ok := !fault;
      if ok { events := events + [kind]; }
    }

    // ----- Rolling back -----

    /** _rollback_to_base: tries exactly one swap, from the candidate this acceptance
        installed, and never moves the ref in any other way. */
    method RollbackToBase(base: string, candidate: string) returns (ok: bool)
      requires Valid() && Swappable(ref, candidate, base)
      modifies this`head, this`history, this`tree, this`untracked, this`clock, this`swaps, this`seen
      ensures old(seen) <= seen
      ensures Valid() && old(history) <= history
      ensures swaps == old(swaps) + [(candidate, base)]
      ensures EngineWrites(history) == EngineWrites(old(history))
              || EngineWrites(history) == EngineWrites(old(history)) + [(candidate, base)]
      ensures ok ==> EngineWrites(history) == EngineWrites(old(history)) + [(candidate, base)]
      ensures Quiet(env) && old(head) == candidate ==>
                head == base && tree == base && untracked == old(untracked) && ok == !old(untracked)
    {
      hide EngineWrites, Linked, HeadAt, HeadAfter, Swappable;
      var swapped := CompareAndSwap(candidate, base);
      if swapped != SWAPPED {
        var now := ReadHead();
        var clean := IsClean();
        return false;
      }
      var synced := SyncIndexWorktree();
      var now := ReadHead();
      var clean := IsClean();
      ok := synced && now == Some(base) && clean;
    }

    // ----- The gate phase -----

    /** _execute_gate_phase: the verified receipt, or the failure for the boundary. */
    method ExecuteGatePhase(runner: RunnerOutcome, candidate: string) returns (outcome: GateOutcome)
      requires Valid()
      modifies this`head, this`history, this`tree, this`untracked, this`clock, this`events
      ensures Valid() && old(history) <= history && EngineWrites(history) == EngineWrites(old(history))
      ensures old(events) <= events && RUN_ACCEPTED !in events[|old(events)|..]
      ensures outcome.Passed? ==> runner == Returned(outcome.receipt) && outcome.receipt == Clean(candidate)
      ensures outcome.Failed? ==> Fits(outcome.failure.classification, runner, env(old(clock)).fault, candidate)
      ensures candidate != "" ==> (outcome.Passed? <==> GatePasses(env, old(clock), true, runner, candidate))
      ensures clock == old(clock) + if runner.Returned? then 1 else 0
      ensures Quiet(env) ==> head == old(head) && tree == old(tree) && untracked == old(untracked)
    {
      match runner
      case Preflight => outcome := Failed(Failure(PREFLIGHT_BLOCKED, false, PreflightError, false));
      case Infrastructure =>
        outcome := Failed(Failure(INFRASTRUCTURE_OR_EVIDENCE_FAILURE, false, InfraError, false));
      case Raised =>
        outcome := Failed(Failure(UNEXPECTED_GATE_FAILURE, false, UnexpectedError, false));
      case NoReceipt =>
        outcome := Failed(Failure(UNEXPECTED_GATE_FAILURE, false, UnexpectedError, false));
      case Returned(receipt) =>
        var recorded := RecordEvent(GATE_RECEIPT);
        if !recorded {
          outcome := Failed(Failure(INFRASTRUCTURE_OR_EVIDENCE_FAILURE, true, InfraError, false));
        } else if !receipt.Passed() {
          outcome := Failed(Failure(GATE_FAILED, true, NoError, true));
        } else if receipt.postSha == "" || receipt.postSha != candidate || !receipt.postClean {
          outcome := Failed(Failure(UNEXPECTED_GATE_FAILURE, true, UnexpectedError, true));
        } else {
          outcome := Passed(receipt);
        }
    }

    /** _fail_closed_after_cas: whatever the failure, and whether or not its evidence can be
        recorded, exactly one rollback is tried. */
    method FailClosedAfterCas(base: string, candidate: string, failure: Failure) returns (ok: bool)
      requires Valid() && Swappable(ref, candidate, base)
      modifies this`head, this`history, this`tree, this`untracked, this`clock, this`events, this`swaps, this`seen
      ensures old(seen) <= seen
      ensures Valid() && old(history) <= history
      ensures swaps == old(swaps) + [(candidate, base)]
      ensures EngineWrites(history) == EngineWrites(old(history))
              || EngineWrites(history) == EngineWrites(old(history)) + [(candidate, base)]
      ensures ok ==> EngineWrites(history) == EngineWrites(old(history)) + [(candidate, base)]
      ensures old(events) <= events && RUN_ACCEPTED !in events[|old(events)|..]
      ensures Quiet(env) && old(head) == candidate ==>
                head == base && tree == base && untracked == old(untracked) && ok == !old(untracked)
    {
      hide *;
      if failure.hasReceipt && !failure.recorded {
        var recorded := RecordEvent(GATE_RECEIPT);
      }
      match failure.error {
        case NoError =>
        case PreflightError => var noted := RecordEvent(GATE_PREFLIGHT_BLOCKED);
        case InfraError => var noted := RecordEvent(GATE_RUNNER_INFRASTRUCTURE_ERROR);
        case UnexpectedError => var noted := RecordEvent(GATE_RUNNER_UNEXPECTED_EXCEPTION);
      }
      ok := RollbackToBase(base, candidate);
    }

    // ----- The whole integration -----

    /** The swap, and reading back that it holds; None when it does. */
    method Install(base: string, candidate: string) returns (early: Option<Result>)
      requires Valid()
      modifies this`head, this`history, this`tree, this`untracked, this`clock, this`swaps, this`seen
      ensures old(seen) <= seen
      ensures Valid() && old(history) <= history
      ensures early.Some? ==> early.value.Refused? || early.value.RaceLost? || early.value.SyncFailed?
      ensures early == Some(Refused) <==> !Swappable(ref, base, candidate)
      ensures early == Some(SyncFailed) <==>
                Installs(env, old(clock), ref, old(head), base, candidate) && SyncFails(env, old(clock))
      ensures early.None? <==> Verifies(env, old(clock), ref, old(head), base, candidate)
      ensures swaps == old(swaps) + if early == Some(Refused) then [] else [(base, candidate)]
      ensures EngineWrites(history) == EngineWrites(old(history))
              + if Installs(env, old(clock), ref, old(head), base, candidate) then [(base, candidate)] else []
      ensures early.None? ==> && head == candidate && clock == old(clock) + 3
                              && |seen| > |old(seen)| && seen[|old(seen)|] == candidate
      ensures Quiet(env) && old(head) == base && Swappable(ref, base, candidate) ==>
                early.None? && tree == candidate && untracked == old(untracked)
    {
      hide EngineWrites, Linked, HeadAt, HeadAfter, Swappable, SafeRef, Valid;
      var swapped := CompareAndSwap(base, candidate);
      if swapped == REFUSED { return Some(Refused); }
      if swapped == RACED { return Some(RaceLost); }
      var now: Option<string> := None;
      var synced := SyncIndexWorktree();
      if synced { now := ReadHead(); }
      if now.None? { return Some(SyncFailed); }
      if now.value != candidate { return Some(RaceLost); }
      return None;
    }

    /** accept_run from its compare-and-swap on. */
    method Integrate(base: string, candidate: string, runner: RunnerOutcome) returns (r: Result)
      requires Valid()
      modifies this`head, this`history, this`tree, this`untracked, this`clock, this`events, this`swaps, this`seen
      ensures old(seen) <= seen
      ensures Valid() && old(history) <= history
      ensures r.Refused? <==> !Swappable(ref, base, candidate)
      // The swaps tried: the installation, and a rollback exactly when the gate phase failed.
      ensures swaps == old(swaps) + (if r.Refused? then [] else [(base, candidate)])
                       + if r.RolledBack? then [(candidate, base)] else []
      // The ref writes made: each a swap that was tried, in the same order.
      ensures var wrote, before := EngineWrites(history), EngineWrites(old(history));
              || (wrote == before && (r.Refused? || r.RaceLost?))
              || (wrote == before + [(base, candidate)] && !r.Refused?)
              || (wrote == before + [(base, candidate), (candidate, base)] && r.RolledBack?)
      ensures r.RolledBack? && r.complete ==>
                EngineWrites(history) == EngineWrites(old(history)) + [(base, candidate), (candidate, base)]
      // A revision another writer puts on the ref is never replaced by the engine.
      ensures forall k | 0 <= k && |old(history)| <= k + 1 < |history| && history[k].after !in {base, candidate} ::
                history[k + 1].writer == EXTERNAL
      // Nothing is gated, recorded or rolled back before HEAD was seen to be the candidate.
      ensures r.PolicyUnread? || r.RolledBack? || r.RecordFailed? || r.Accepted? ==>
                |seen| > |old(seen)| && seen[|old(seen)|] == candidate
      // The verdict.
      ensures old(events) <= events
      ensures RUN_ACCEPTED in events[|old(events)|..] <==> r.Accepted?
      ensures r.Accepted? || r.RecordFailed? ==>
                && policy.Some?
                && (policy == Some(true) ==>
                      runner == Returned(Clean(candidate)) && r.receipt == Some(Clean(candidate)))
      ensures r.RolledBack? ==>
                policy == Some(true) && Fits(r.classification, runner, env(old(clock) + 4).fault, candidate)
      // When each outcome occurs: the faults and the other writers of the turns from now on decide.
      ensures var t := old(clock);
              && (EngineWrites(history) != EngineWrites(old(history))
                  <==> Installs(env, t, ref, old(head), base, candidate))
              && (r.SyncFailed? <==> Installs(env, t, ref, old(head), base, candidate) && SyncFails(env, t))
              && (r.PolicyUnread? <==>
                    Verifies(env, t, ref, old(head), base, candidate) && (env(t + 3).fault || policy.None?))
              && (r.RecordFailed? <==>
                    && Verifies(env, t, ref, old(head), base, candidate) && !env(t + 3).fault && policy.Some?
                    && GatePasses(env, t + 4, policy.value, runner, candidate)
                    && RecordFails(env, t + 4, policy.value))
              && (r.Accepted? <==>
                    && Verifies(env, t, ref, old(head), base, candidate) && !env(t + 3).fault && policy.Some?
                    && GatePasses(env, t + 4, policy.value, runner, candidate)
                    && !RecordFails(env, t + 4, policy.value))
              && (r.RolledBack? <==>
                    && Verifies(env, t, ref, old(head), base, candidate) && !env(t + 3).fault && policy.Some?
                    && !GatePasses(env, t + 4, policy.value, runner, candidate))
      ensures Quiet(env) && old(head) == base && Swappable(ref, base, candidate) ==>
                if policy.None? then r.PolicyUnread? && head == candidate && tree == candidate
                else if policy.value && runner != Returned(Clean(candidate)) then
                  r.RolledBack? && head == base && tree == base && r.complete == !old(untracked)
                else r.Accepted? && head == candidate && tree == candidate
    {
      hide EngineWrites, Linked, HeadAt, HeadAfter, Swappable, SafeRef, Clean, Fits, GatePasses, RecordFails, Valid;
      hide SyncFails, StaysInstalled, Moved;
      ghost var before, wrote := history, EngineWrites(history);
      assert wrote != wrote + [(base, candidate)];
      assert wrote != wrote + [(base, candidate), (candidate, base)] && wrote + [] == wrote;
      assert wrote + [(base, candidate)] + [(candidate, base)] == wrote + [(base, candidate), (candidate, base)];
      SwappableBack(ref, base, candidate);
      var early := Install(base, candidate);
      if early.Some? {
        r := early.value;
      } else {
        var gateEnabled := ReadPolicy();
        if gateEnabled.None? {
          r := PolicyUnread;
        } else {
          r := GateAndRecord(base, candidate, gateEnabled.value, runner);
        }
      }
      ValidIsLinked();
      OthersSurvive(origin, before, history, base, candidate);
    }

    lemma ValidIsLinked()
      requires Valid()
      ensures Linked(origin, history)
    {
    }

    /** From the verified installation and the policy read on: a verified gate, or exactly one
        rollback tried. */
    method GateAndRecord(base: string, candidate: string, gateEnabled: bool, runner: RunnerOutcome) returns (r: Result)
      requires Valid() && Swappable(ref, candidate, base)
      modifies this`head, this`history, this`tree, this`untracked, this`clock, this`events, this`swaps, this`seen
      ensures old(seen) <= seen
      ensures Valid() && old(history) <= history
      ensures r.RolledBack? || r.RecordFailed? || r.Accepted?
      ensures swaps == old(swaps) + if r.RolledBack? then [(candidate, base)] else []
      ensures EngineWrites(history) == EngineWrites(old(history))
              || (r.RolledBack? && EngineWrites(history) == EngineWrites(old(history)) + [(candidate, base)])
      ensures r.RolledBack? && r.complete ==> EngineWrites(history) == EngineWrites(old(history)) + [(candidate, base)]
      ensures old(events) <= events
      ensures RUN_ACCEPTED in events[|old(events)|..] <==> r.Accepted?
      ensures gateEnabled && (r.Accepted? || r.RecordFailed?) ==>
                runner == Returned(Clean(candidate)) && r.receipt == Some(Clean(candidate))
      ensures r.RolledBack? ==> gateEnabled && Fits(r.classification, runner, env(old(clock)).fault, candidate)
      ensures r.RolledBack? <==> !GatePasses(env, old(clock), gateEnabled, runner, candidate)
      ensures r.RecordFailed? <==> && GatePasses(env, old(clock), gateEnabled, runner, candidate)
                                   && RecordFails(env, old(clock), gateEnabled)
      ensures Quiet(env) && old(head) == candidate && old(tree) == candidate && candidate != "" ==>
                if gateEnabled && runner != Returned(Clean(candidate)) then
                  r.RolledBack? && head == base && tree == base && r.complete == !old(untracked)
                else r.Accepted? && head == candidate && tree == candidate
    {
      hide EngineWrites, Linked, HeadAt, HeadAfter, Swappable, SafeRef, Clean, Fits, Valid;
      SwappableBack(ref, candidate, base);
      var receipt: Option<Receipt> := None;
      if gateEnabled {
        var outcome := ExecuteGatePhase(runner, candidate);
        if outcome.Failed? {
          var complete := FailClosedAfterCas(base, candidate, outcome.failure);
          return RolledBack(outcome.failure.classification, complete);
        }
        receipt := Some(outcome.receipt);
      } else {
        var noted := RecordEvent(POST_INTEGRATION_GATE_SKIPPED);
        if !noted { return RecordFailed(None); }
      }
      ghost var before := events;
      var recorded := RecordEvent(RUN_ACCEPTED);
      assert recorded ==> events[|before|] == RUN_ACCEPTED;
      r := if recorded then Accepted(receipt) else RecordFailed(receipt);
    }
  }

  // ----- What that means for the other writers -----

  /** All engine writes swap the two commits of one acceptance. */
  predicate OnlySwaps(writes: seq<Swap>, base: string, candidate: string)
  {
    forall k | 0 <= k < |writes| :: writes[k] == (base, candidate) || writes[k] == (candidate, base)
  }

  lemma {:induction false} WriteIsListed(history: seq<Update>, k: nat)
    requires k < |history| && history[k].writer == ENGINE
    ensures (history[k].before, history[k].after) in EngineWrites(history)
    decreases |history|
  {
    if k < |history| - 1 { WriteIsListed(history[..|history| - 1], k); }
  }

  lemma WriteIsSwap(history: seq<Update>, base: string, candidate: string, k: nat)
    requires OnlySwaps(EngineWrites(history), base, candidate) && k < |history|
    ensures history[k].writer == ENGINE ==> history[k].before == base || history[k].before == candidate
  {
    if history[k].writer == ENGINE { WriteIsListed(history, k); }
    hide EngineWrites;
  }

  lemma SwappableBack(ref: string, a: string, b: string)
    ensures Swappable(ref, a, b) <==> Swappable(ref, b, a)
    ensures Swappable(ref, a, b) ==> a != "" && b != ""
  {
  }

  /** A revision another writer puts on the ref during an acceptance, on whatever history it
      found, is not overwritten by the engine, unless it is one of the two commits swapped:
      the update after it, if any, is again another writer's. */
  lemma OthersSurvive(origin: string, before: seq<Update>, history: seq<Update>, base: string, candidate: string)
    requires before <= history && Linked(origin, history)
    requires var wrote, had := EngineWrites(history), EngineWrites(before);
             || wrote == had || wrote == had + [(base, candidate)]
             || wrote == had + [(base, candidate), (candidate, base)]
    ensures forall k | 0 <= k && |before| <= k + 1 < |history| && history[k].after !in {base, candidate} ::
              history[k + 1].writer == EXTERNAL
  {
    hide *;
    var during := history[|before|..];
    DuringOnlySwaps(before, during, history, base, candidate);
    forall k | 0 <= k && |before| <= k + 1 < |history| && history[k].after !in {base, candidate}
      ensures history[k + 1].writer == EXTERNAL
    {
      var j := k + 1 - |before|;
      assert during[j] == history[k + 1];
      WriteIsSwap(during, base, candidate, j);
      LinkOf(origin, history, k);
    }
  }

  lemma DuringOnlySwaps(before: seq<Update>, during: seq<Update>, history: seq<Update>, base: string, candidate: string)
    requires before <= history && during == history[|before|..]
    requires var wrote, had := EngineWrites(history), EngineWrites(before);
             || wrote == had || wrote == had + [(base, candidate)]
             || wrote == had + [(base, candidate), (candidate, base)]
    ensures OnlySwaps(EngineWrites(during), base, candidate)
  {
    hide EngineWrites;
    EngineWritesConcat(before, during);
    assert history == before + during;
    var had, added := EngineWrites(before), EngineWrites(during);
    assert (had + added)[|had|..] == added;
  }

  lemma LinkOf(origin: string, history: seq<Update>, k: nat)
    requires Linked(origin, history) && k + 1 < |history|
    ensures history[k + 1].before == history[k].after
  {
    assert LinkedAt(origin, history, k + 1);
  }

  ghost predicate Quiet(env: nat -> Turn)
  {
    forall t: nat :: env(t) == Turn([], None, None, false)
  }
}
