/**
 Acceptance preconditions (src/saberops/accept.py): the read-only checklist and the engine's own
 refusals, over one snapshot of the run, the evidence and the target repository.
 */
module AcceptEligibility {
  import opened CandidateLifecycle
  import opened Text
  import opened Wrappers

  // ----- The snapshot -----

  /** The value of one key of the run's configuration. */
  datatype Json = Absent | Null | Bool(value: bool) | Str(text: string) | Other

  /** The configuration JSON frozen into the run; `parent` when `parallel_parent_run_id` is truthy. */
  datatype Config =
    | NoConfig | Malformed | NotAnObject
    | Object(parent: bool, gateEnabled: Json, reviewDisabled: Json, reviewEnabled: Json, scratchMode: Json)

  datatype RunStatus = COMPLETED | INCOMPLETE

  datatype RunRow = RunRow(status: RunStatus, base: string, config: Config)

  datatype Reading<T> = Unreadable | Value(value: T)

  /** A persisted risk-adaptive review decision. */
  datatype ReviewDecision = Invalid | Decision(ownerDisabled: bool, required: bool)

  /** `proven` and `repository` are the answers of the provenance and repository assertions. */
  datatype Snapshot = Snapshot(
    run: Option<RunRow>, attempts: seq<Attempt>, proven: bool, events: seq<Event>, repository: bool,
    clean: Reading<bool>, head: Reading<string>, candidateRef: Reading<Option<string>>,
    decision: Option<ReviewDecision>, latestReview: Option<Verdict>, fastForward: Reading<bool>, evidenceDir: bool)

  // ----- Frozen policies -----

  /** Whether the gate is enabled and whether review is disabled; Err when the policy raises. */
  function ValidationPolicy(config: Config): Result<(bool, bool), string>
  {
    match config
    case NoConfig => Ok((true, false))
    case Malformed => Err("Invalid frozen validation policy")
    case NotAnObject => Err("Invalid frozen validation policy")
    case Object(_, gate, review, _, _) =>
      if (gate.Absent? || gate.Bool?) && (review.Absent? || review.Bool?) then
        Ok((if gate.Absent? then true else gate.value, if review.Absent? then false else review.value))
      else Err("Invalid frozen validation policy")
  }

  function LegacyReviewRequired(config: Config): Result<bool, string>
  {
    match config
    case NoConfig => Ok(false)
    case Malformed => Err("persisted run configuration is invalid")
    case NotAnObject => Err("persisted run configuration is invalid")
    case Object(_, _, _, review, _) =>
      if review.Absent? then Ok(false) else if review.Bool? then Ok(review.value)
      else Err("persisted run configuration is invalid")
  }

  /** _resolve_review_required_from_persisted_run. */
  function ReviewRequired(config: Config, decision: Option<ReviewDecision>): Result<bool, string>
  {
    match ValidationPolicy(config)
    case Err(e) => Err(e)
    case Ok((_, disabled)) =>
      if disabled then Ok(false)
      else
        match decision
        case Some(Invalid) => Ok(true)
        case Some(Decision(ownerDisabled, required)) => Ok(ownerDisabled || required)
        case None => LegacyReviewRequired(config)
  }

  datatype ScratchMode = DISK | RAM_PREFERRED | RAM_REQUIRED

  function FrozenScratchMode(config: Config): Result<ScratchMode, string>
  {
    match config
    case NoConfig => Ok(DISK)
    case Malformed => Err("persisted run configuration JSON is malformed")
    case NotAnObject => Err("persisted run configuration must be a JSON object")
    case Object(_, _, _, _, mode) =>
      if mode.Absent? then Ok(DISK)
      else if mode.Str? then
        var name := Strip(mode.text);
        if name == "DISK" then Ok(DISK) else if name == "RAM_PREFERRED" then Ok(RAM_PREFERRED)
        else if name == "RAM_REQUIRED" then Ok(RAM_REQUIRED) else Err("not a recognized mode")
      else Err("must be a string")
  }

  // ----- The preconditions -----

  datatype Key =
    | TEAM_WORKER | RUN_COMPLETED | CANDIDATE_AVAILABLE | CANDIDATE_PROVENANCE | CANDIDATE_NOT_REJECTED
    | TARGET_REPOSITORY | TARGET_CLEAN | TARGET_HEAD | CANDIDATE_REF | DETERMINISTIC_GATE | REVIEW_SATISFIED
    | FAST_FORWARD | GATE_SCRATCH | EVIDENCE_DIR

  /** The order in which they are looked at. */
  function Rank(key: Key): nat
  {
    match key
    case TEAM_WORKER => 0
    case RUN_COMPLETED => 1
    case CANDIDATE_AVAILABLE => 2
    case CANDIDATE_PROVENANCE => 3
    case CANDIDATE_NOT_REJECTED => 4
    case TARGET_REPOSITORY => 5
    case TARGET_CLEAN => 6
    case TARGET_HEAD => 7
    case CANDIDATE_REF => 8
    case DETERMINISTIC_GATE => 9
    case REVIEW_SATISFIED => 10
    case FAST_FORWARD => 11
    case GATE_SCRATCH => 12
    case EVIDENCE_DIR => 13
  }

  function CandidateSha(s: Snapshot): string
  {
    var a := Current(s.attempts);
    if a.Some? then a.value.commit.value else ""
  }

  function ConfigOf(s: Snapshot): Config { if s.run.Some? then s.run.value.config else NoConfig }

  predicate Approves(v: Verdict) { v == PASS || v == PASS_WITH_BACKLOG }

  /** A required review exists, and a review that exists approves. */
  predicate ReviewHolds(s: Snapshot)
  {
    var required := ReviewRequired(ConfigOf(s), s.decision);
    && required.Ok?
    && if s.latestReview.None? then !required.value else Approves(s.latestReview.value)
  }

  /** What each precondition asks. */
  predicate Holds(s: Snapshot, key: Key)
  {
    match key
    case TEAM_WORKER => s.run.None? || !(s.run.value.config.Object? && s.run.value.config.parent)
    case RUN_COMPLETED => s.run.Some? && s.run.value.status == COMPLETED
    case CANDIDATE_AVAILABLE => Current(s.attempts).Some?
    case CANDIDATE_PROVENANCE => s.proven
    case CANDIDATE_NOT_REJECTED => FindRejection(s.events, CandidateSha(s)).None?
    case TARGET_REPOSITORY => s.repository
    case TARGET_CLEAN => s.clean == Value(true)
    case TARGET_HEAD => s.run.Some? && s.head == Value(s.run.value.base)
    case CANDIDATE_REF => s.candidateRef == Value(None) || s.candidateRef == Value(Some(CandidateSha(s)))
    case DETERMINISTIC_GATE => ValidationPolicy(ConfigOf(s)).Ok?
    case REVIEW_SATISFIED => ReviewHolds(s)
    case FAST_FORWARD => s.fastForward == Value(true)
    case GATE_SCRATCH => FrozenScratchMode(ConfigOf(s)).Ok?
    case EVIDENCE_DIR => s.evidenceDir
  }

  /** Everything asked before `rank` holds. */
  ghost predicate HoldsBefore(s: Snapshot, rank: nat)
  {
    forall key | Rank(key) < rank :: Holds(s, key)
  }

  /** The first precondition that does not hold. */
  ghost predicate Blocks(s: Snapshot, key: Key)
  {
    HoldsBefore(s, Rank(key)) && !Holds(s, key)
  }

  // ----- The checklist -----

  datatype Precondition = Precondition(key: Key, pass: bool)

  datatype Eligibility = Eligibility(eligible: bool, checks: seq<Precondition>)

  /** Exactly the preconditions before `rank` are listed, in order and as passed; being no team
      worker goes without saying. */
  ghost predicate AllPassed(s: Snapshot, checks: seq<Precondition>, rank: nat)
  {
    && HoldsBefore(s, rank)
    && (forall k | 0 <= k < |checks| :: checks[k].pass && Rank(checks[k].key) < rank)
    && (forall i, j | 0 <= i < j < |checks| :: Rank(checks[i].key) < Rank(checks[j].key))
    && (forall key | Rank(key) < rank && key != TEAM_WORKER :: Precondition(key, true) in checks)
  }

  lemma PassOne(s: Snapshot, checks: seq<Precondition>, key: Key)
    requires AllPassed(s, checks, Rank(key)) && Holds(s, key)
    ensures AllPassed(s, checks + [Precondition(key, true)], Rank(key) + 1)
    ensures key == TEAM_WORKER && checks == [] ==> AllPassed(s, [], 1)
  {
    hide Holds;
    forall other | Rank(other) < Rank(key) + 1 ensures Holds(s, other) {
      if Rank(other) == Rank(key) { SameRank(other, key); }
    }
    forall other | Rank(other) < Rank(key) + 1 && other != TEAM_WORKER
      ensures Precondition(other, true) in checks + [Precondition(key, true)]
    {
      if Rank(other) == Rank(key) { SameRank(other, key); }
    }
  }

  lemma SameRank(a: Key, b: Key)
    requires Rank(a) == Rank(b)
    ensures a == b
  {
  }

  /** The checklist ends with the precondition that blocks. */
  ghost predicate BlockedAt(s: Snapshot, checks: seq<Precondition>, key: Key)
  {
    && Blocks(s, key) && |checks| > 0 && checks[|checks| - 1] == Precondition(key, false)
    && AllPassed(s, checks[..|checks| - 1], Rank(key))
  }

  lemma Blocked(s: Snapshot, checks: seq<Precondition>, key: Key)
    requires AllPassed(s, checks, Rank(key)) && !Holds(s, key)
    ensures BlockedAt(s, checks + [Precondition(key, false)], key)
  {
    assert (checks + [Precondition(key, false)])[..|checks|] == checks;
  }

  /** What the projection answers, or that it raises. */
  ghost predicate Answers(s: Snapshot, r: Result<Eligibility, string>)
  {
    && (r.Err? <==> Blocks(s, DETERMINISTIC_GATE))
    && (r.Ok? ==> (r.value.eligible <==> HoldsBefore(s, Rank(EVIDENCE_DIR))))
    && (r.Ok? && r.value.eligible ==> AllPassed(s, r.value.checks, Rank(EVIDENCE_DIR)))
    && (r.Ok? && !r.value.eligible ==> exists key :: key != DETERMINISTIC_GATE && BlockedAt(s, r.value.checks, key))
  }

  /** check_accept_eligibility; Err when the projection raises instead of answering. */
  method CheckAcceptEligibility(s: Snapshot) returns (r: Result<Eligibility, string>)
    ensures r.Err? <==> Blocks(s, DETERMINISTIC_GATE)
    ensures r.Ok? ==> (r.value.eligible <==> HoldsBefore(s, Rank(EVIDENCE_DIR)))
    ensures r.Ok? && r.value.eligible ==> AllPassed(s, r.value.checks, Rank(EVIDENCE_DIR))
    ensures r.Ok? && !r.value.eligible ==> exists key :: key != DETERMINISTIC_GATE && BlockedAt(s, r.value.checks, key)
  {
    r := CheckCandidate(s);
  }

  method CheckCandidate(s: Snapshot) returns (r: Result<Eligibility, string>)
    ensures Answers(s, r)
  {
    hide AllPassed, Answers, HoldsBefore, FindRejection, Current;
    var checks: seq<Precondition> := [];
    NothingAsked(s);
    if s.run.Some? && s.run.value.config.Object? && s.run.value.config.parent {
      r := Refusal(s, checks, TEAM_WORKER);
      return;
    }
    PassOne(s, checks, TEAM_WORKER);
    if s.run.None? || s.run.value.status != COMPLETED {
      r := Refusal(s, checks, RUN_COMPLETED);
      return;
    }
    checks := Pass(s, checks, RUN_COMPLETED);
    var current := Current(s.attempts);
    if current.None? {
      r := Refusal(s, checks, CANDIDATE_AVAILABLE);
      return;
    }
    CurrentHasCommit(s);
    var candidate := current.value.commit.value;
    checks := Pass(s, checks, CANDIDATE_AVAILABLE);
    if !s.proven {
      r := Refusal(s, checks, CANDIDATE_PROVENANCE);
      return;
    }
    checks := Pass(s, checks, CANDIDATE_PROVENANCE);
    var rejection := FindMatchingRejection(s.events, candidate);
    if rejection.Some? {
      r := Refusal(s, checks, CANDIDATE_NOT_REJECTED);
      return;
    }
    checks := Pass(s, checks, CANDIDATE_NOT_REJECTED);
    r := CheckTarget(s, s.run.value.base, candidate, checks);
  }

  lemma CurrentHasCommit(s: Snapshot)
    requires Current(s.attempts).Some?
    ensures Current(s.attempts).value.commit == Some(CandidateSha(s))
  {
  }

  method CheckTarget(s: Snapshot, base: string, candidate: string, passed: seq<Precondition>)
    returns (r: Result<Eligibility, string>)
    requires s.run.Some? && base == s.run.value.base && candidate == CandidateSha(s)
    requires AllPassed(s, passed, Rank(TARGET_REPOSITORY))
    ensures Answers(s, r)
  {
    hide AllPassed, Answers, HoldsBefore, CandidateSha;
    var checks := passed;
    if !s.repository {
      r := Refusal(s, checks, TARGET_REPOSITORY);
      return;
    }
    checks := Pass(s, checks, TARGET_REPOSITORY);
    if s.clean.Unreadable? || !s.clean.value {
      r := Refusal(s, checks, TARGET_CLEAN);
      return;
    }
    checks := Pass(s, checks, TARGET_CLEAN);
    if s.head.Unreadable? || s.head.value != base {
      r := Refusal(s, checks, TARGET_HEAD);
      return;
    }
    checks := Pass(s, checks, TARGET_HEAD);
    r := CheckRef(s, candidate, checks);
  }

  method CheckRef(s: Snapshot, candidate: string, passed: seq<Precondition>) returns (r: Result<Eligibility, string>)
    requires s.run.Some? && candidate == CandidateSha(s) && AllPassed(s, passed, Rank(CANDIDATE_REF))
    ensures Answers(s, r)
  {
    hide AllPassed, Answers, HoldsBefore, CandidateSha;
    var checks := passed;
    if s.candidateRef.Unreadable? || (s.candidateRef.value.Some? && s.candidateRef.value.value != candidate) {
      r := Refusal(s, checks, CANDIDATE_REF);
      return;
    }
    checks := Pass(s, checks, CANDIDATE_REF);
    r := CheckPolicies(s, s.run.value.config, checks);
  }

  /** The frozen validation policy: read without a guard, it raises when malformed. */
  method CheckPolicies(s: Snapshot, config: Config, passed: seq<Precondition>) returns (r: Result<Eligibility, string>)
    requires config == ConfigOf(s) && AllPassed(s, passed, Rank(DETERMINISTIC_GATE))
    ensures Answers(s, r)
  {
    hide AllPassed, Answers, HoldsBefore, ConfigOf, ValidationPolicy;
    var checks := passed;
    var policy := ValidationPolicy(config);
    if policy.Err? {
      Raises(s, checks, policy.error);
      return Err(policy.error);
    }
    checks := Pass(s, checks, DETERMINISTIC_GATE);
    r := CheckReview(s, config, checks);
  }

  method CheckReview(s: Snapshot, config: Config, passed: seq<Precondition>) returns (r: Result<Eligibility, string>)
    requires config == ConfigOf(s) && AllPassed(s, passed, Rank(REVIEW_SATISFIED))
    ensures Answers(s, r)
  {
    hide AllPassed, Answers, HoldsBefore, ConfigOf, ReviewRequired, FrozenScratchMode;
    var checks := passed;
    var required := ReviewRequired(config, s.decision);
    if required.Err?
       || (s.latestReview.None? && required.value)
       || (s.latestReview.Some? && s.latestReview.value != PASS && s.latestReview.value != PASS_WITH_BACKLOG) {
      r := Refusal(s, checks, REVIEW_SATISFIED);
      return;
    }
    checks := Pass(s, checks, REVIEW_SATISFIED);
    r := CheckIntegration(s, config, checks);
  }

  method CheckIntegration(s: Snapshot, config: Config, passed: seq<Precondition>)
    returns (r: Result<Eligibility, string>)
    requires config == ConfigOf(s) && AllPassed(s, passed, Rank(FAST_FORWARD))
    ensures Answers(s, r)
  {
    hide AllPassed, Answers, HoldsBefore, ConfigOf, ReviewHolds, FrozenScratchMode;
    var checks := passed;
    if s.fastForward.Unreadable? || !s.fastForward.value {
      r := Refusal(s, checks, FAST_FORWARD);
      return;
    }
    checks := Pass(s, checks, FAST_FORWARD);
    var mode := FrozenScratchMode(config);
    if mode.Err? {
      r := Refusal(s, checks, GATE_SCRATCH);
      return;
    }
    checks := Pass(s, checks, GATE_SCRATCH);
    AllHold(s, checks);
    r := Ok(Eligibility(true, checks));
  }

  lemma NothingAsked(s: Snapshot)
    ensures AllPassed(s, [], Rank(TEAM_WORKER))
  {
  }

  method Pass(s: Snapshot, checks: seq<Precondition>, key: Key) returns (more: seq<Precondition>)
    requires AllPassed(s, checks, Rank(key)) && Holds(s, key)
    ensures more == checks + [Precondition(key, true)] && AllPassed(s, more, Rank(key) + 1)
  {
    PassOne(s, checks, key);
    more := checks + [Precondition(key, true)];
  }

  method Refusal(s: Snapshot, checks: seq<Precondition>, key: Key) returns (r: Result<Eligibility, string>)
    requires AllPassed(s, checks, Rank(key)) && !Holds(s, key) && key != DETERMINISTIC_GATE && key != EVIDENCE_DIR
    ensures r == Ok(Eligibility(false, checks + [Precondition(key, false)])) && Answers(s, r)
  {
    Blocked(s, checks, key);
    OneBlocker(s, key, DETERMINISTIC_GATE);
    assert Rank(key) < Rank(EVIDENCE_DIR);
    hide Holds, AllPassed;
    r := Ok(Eligibility(false, checks + [Precondition(key, false)]));
  }

  /** At most one precondition is the first that does not hold. */
  lemma OneBlocker(s: Snapshot, a: Key, b: Key)
    requires Blocks(s, a)
    ensures Blocks(s, b) <==> a == b
  {
    hide Holds;
    if Rank(a) == Rank(b) { SameRank(a, b); }
  }

  lemma Raises(s: Snapshot, checks: seq<Precondition>, e: string)
    requires AllPassed(s, checks, Rank(DETERMINISTIC_GATE)) && !Holds(s, DETERMINISTIC_GATE)
    ensures Answers(s, Err(e))
  {
  }

  lemma AllHold(s: Snapshot, checks: seq<Precondition>)
    requires AllPassed(s, checks, Rank(EVIDENCE_DIR))
    ensures Answers(s, Ok(Eligibility(true, checks)))
  {
    hide Holds;
  }

  // ----- The engine -----

  /** accept_run up to its compare-and-swap: the candidate it is about to install, or the
      precondition it refuses on.  It never looks at the validation policy on its own. */
  method AcceptPreconditions(s: Snapshot) returns (r: Result<string, Key>)
    ensures r.Ok? <==> HoldsBefore(s, Rank(EVIDENCE_DIR) + 1)
    ensures r.Ok? ==> r.value == CandidateSha(s)
    ensures r.Err? ==> Refuses(s, r.error)
  {
    hide HoldsBefore, Refuses, FindRejection, Current;
    AskNothing(s);
    if s.run.None? { Refuse(s, RUN_COMPLETED); return Err(RUN_COMPLETED); }
    var run := s.run.value;
    if run.config.Object? && run.config.parent { Refuse(s, TEAM_WORKER); return Err(TEAM_WORKER); }
    Ask(s, TEAM_WORKER);
    if run.status != COMPLETED { Refuse(s, RUN_COMPLETED); return Err(RUN_COMPLETED); }
    Ask(s, RUN_COMPLETED);
    var current := Current(s.attempts);
    if current.None? { Refuse(s, CANDIDATE_AVAILABLE); return Err(CANDIDATE_AVAILABLE); }
    Ask(s, CANDIDATE_AVAILABLE);
    if !s.proven { Refuse(s, CANDIDATE_PROVENANCE); return Err(CANDIDATE_PROVENANCE); }
    Ask(s, CANDIDATE_PROVENANCE);
    CurrentHasCommit(s);
    var candidate := current.value.commit.value;
    var rejection := FindMatchingRejection(s.events, candidate);
    if rejection.Some? { Refuse(s, CANDIDATE_NOT_REJECTED); return Err(CANDIDATE_NOT_REJECTED); }
    Ask(s, CANDIDATE_NOT_REJECTED);
    r := AcceptOnTarget(s, run.base, candidate);
  }

  method AcceptOnTarget(s: Snapshot, base: string, candidate: string) returns (r: Result<string, Key>)
    requires s.run.Some? && base == s.run.value.base && candidate == CandidateSha(s)
    requires HoldsBefore(s, Rank(TARGET_REPOSITORY))
    ensures r.Ok? <==> HoldsBefore(s, Rank(EVIDENCE_DIR) + 1)
    ensures r.Ok? ==> r.value == CandidateSha(s)
    ensures r.Err? ==> Refuses(s, r.error)
  {
    hide HoldsBefore, Refuses, CandidateSha;
    if !s.repository { Refuse(s, TARGET_REPOSITORY); return Err(TARGET_REPOSITORY); }
    Ask(s, TARGET_REPOSITORY);
    if s.clean.Unreadable? || !s.clean.value { Refuse(s, TARGET_CLEAN); return Err(TARGET_CLEAN); }
    Ask(s, TARGET_CLEAN);
    if s.head.Unreadable? || s.head.value != base { Refuse(s, TARGET_HEAD); return Err(TARGET_HEAD); }
    Ask(s, TARGET_HEAD);
    if s.candidateRef.Unreadable? || (s.candidateRef.value.Some? && s.candidateRef.value.value != candidate) {
      Refuse(s, CANDIDATE_REF);
      return Err(CANDIDATE_REF);
    }
    Ask(s, CANDIDATE_REF);
    r := AcceptUnderPolicies(s, s.run.value.config, candidate);
  }

  method AcceptUnderPolicies(s: Snapshot, config: Config, candidate: string) returns (r: Result<string, Key>)
    requires config == ConfigOf(s) && HoldsBefore(s, Rank(DETERMINISTIC_GATE))
    ensures r.Ok? <==> HoldsBefore(s, Rank(EVIDENCE_DIR) + 1)
    ensures r.Ok? ==> r.value == candidate
    ensures r.Err? ==> Refuses(s, r.error)
  {
    hide HoldsBefore, Refuses, ConfigOf, ValidationPolicy, ReviewRequired, FrozenScratchMode;
    var required := ReviewRequired(config, s.decision);
    if required.Err?
       || (s.latestReview.None? && required.value)
       || (s.latestReview.Some? && s.latestReview.value != PASS && s.latestReview.value != PASS_WITH_BACKLOG) {
      Refuse(s, REVIEW_SATISFIED);
      return Err(REVIEW_SATISFIED);
    }
    ReviewReadsThePolicy(s);
    Ask(s, DETERMINISTIC_GATE);
    Ask(s, REVIEW_SATISFIED);
    if s.fastForward.Unreadable? || !s.fastForward.value { Refuse(s, FAST_FORWARD); return Err(FAST_FORWARD); }
    Ask(s, FAST_FORWARD);
    var mode := FrozenScratchMode(config);
    if mode.Err? { Refuse(s, GATE_SCRATCH); return Err(GATE_SCRATCH); }
    Ask(s, GATE_SCRATCH);
    if !s.evidenceDir { Refuse(s, EVIDENCE_DIR); return Err(EVIDENCE_DIR); }
    Ask(s, EVIDENCE_DIR);
    r := Ok(candidate);
  }

  /** The engine's first refusal: the validation policy is not a question of its own there. */
  ghost predicate Refuses(s: Snapshot, key: Key)
  {
    && key != DETERMINISTIC_GATE && !Holds(s, key)
    && forall other | Rank(other) < Rank(key) && other != DETERMINISTIC_GATE :: Holds(s, other)
  }

  lemma AskNothing(s: Snapshot)
    ensures HoldsBefore(s, 0)
  {
  }

  lemma Ask(s: Snapshot, key: Key)
    requires HoldsBefore(s, Rank(key)) && Holds(s, key)
    ensures HoldsBefore(s, Rank(key) + 1)
  {
    hide Holds;
    forall other | Rank(other) < Rank(key) + 1 ensures Holds(s, other) {
      if Rank(other) == Rank(key) { SameRank(other, key); }
    }
  }

  lemma Refuse(s: Snapshot, key: Key)
    requires !Holds(s, key) && key != DETERMINISTIC_GATE
    requires HoldsBefore(s, Rank(key)) || (key == REVIEW_SATISFIED && HoldsBefore(s, Rank(DETERMINISTIC_GATE)))
             || (key == RUN_COMPLETED && s.run.None?)
    ensures Refuses(s, key) && !HoldsBefore(s, Rank(EVIDENCE_DIR) + 1)
  {
    hide Holds;
    if !HoldsBefore(s, Rank(key)) && key == REVIEW_SATISFIED {
      forall other | Rank(other) < Rank(key) && other != DETERMINISTIC_GATE ensures Holds(s, other) {
        if Rank(other) == Rank(DETERMINISTIC_GATE) { SameRank(other, DETERMINISTIC_GATE); }
      }
    }
    if key == RUN_COMPLETED && s.run.None? { MissingIsNoWorker(s); }
  }

  lemma MissingIsNoWorker(s: Snapshot)
    requires s.run.None?
    ensures Holds(s, TEAM_WORKER)
    ensures forall other | Rank(other) < Rank(RUN_COMPLETED) :: other == TEAM_WORKER
  {
  }

  /** A review question that has an answer has read a policy that is well formed. */
  lemma ReviewReadsThePolicy(s: Snapshot)
    requires ReviewRequired(ConfigOf(s), s.decision).Ok?
    ensures Holds(s, DETERMINISTIC_GATE)
  {
  }

  // ----- The two agree -----

  /** On one snapshot, the projection answers or raises and the engine goes on or refuses:
      all of the projection's questions hold exactly when the engine reaches its
      compare-and-swap given a usable evidence directory; and otherwise both stop at the
      same question, except that where a malformed validation policy makes the projection
      raise, the engine refuses on the review. */
  lemma SameVerdict(s: Snapshot, asked: Key, refused: Key)
    ensures HoldsBefore(s, Rank(EVIDENCE_DIR) + 1) <==> HoldsBefore(s, Rank(EVIDENCE_DIR)) && s.evidenceDir
    ensures Blocks(s, asked) && asked != DETERMINISTIC_GATE && Refuses(s, refused) ==> asked == refused
    ensures Blocks(s, DETERMINISTIC_GATE) && Refuses(s, refused) ==> refused == REVIEW_SATISFIED
  {
    OnlyEvidenceIsLast(s);
    if Blocks(s, asked) && asked != DETERMINISTIC_GATE && Refuses(s, refused) {
      if Rank(asked) == Rank(refused) { SameRank(asked, refused); }
    }
    if Blocks(s, DETERMINISTIC_GATE) {
      PolicyBlocksReview(s);
    }
    hide Holds;
  }

  lemma OnlyEvidenceIsLast(s: Snapshot)
    ensures HoldsBefore(s, Rank(EVIDENCE_DIR) + 1) <==> HoldsBefore(s, Rank(EVIDENCE_DIR)) && s.evidenceDir
  {
    assert Holds(s, EVIDENCE_DIR) == s.evidenceDir;
    hide Holds;
    if HoldsBefore(s, Rank(EVIDENCE_DIR)) && s.evidenceDir { Ask(s, EVIDENCE_DIR); }
  }

  lemma PolicyBlocksReview(s: Snapshot)
    ensures !Holds(s, DETERMINISTIC_GATE) ==> !Holds(s, REVIEW_SATISFIED)
  {
  }

  lemma BlockedAtBlocks(s: Snapshot, checks: seq<Precondition>, key: Key)
    requires BlockedAt(s, checks, key)
    ensures Blocks(s, key) && |checks| > 0 && checks[|checks| - 1] == Precondition(key, false)
  {
  }

  lemma RefusedMeansNotAll(s: Snapshot, key: Key)
    requires Refuses(s, key) && HoldsBefore(s, Rank(EVIDENCE_DIR))
    ensures key == EVIDENCE_DIR && !s.evidenceDir
  {
    if Rank(key) == Rank(EVIDENCE_DIR) { SameRank(key, EVIDENCE_DIR); }
  }

  /** The owner is shown the checklist and then accepts, nothing having changed: the two answers. */
  method ShowThenAccept(s: Snapshot) returns (shown: Result<Eligibility, string>, accepted: Result<string, Key>)
    // Eligible means the swap is reached, and the swap is reached only when eligible.
    ensures accepted.Ok? <==> shown.Ok? && shown.value.eligible && s.evidenceDir
    // An engine that refuses what was shown eligible lacks its evidence directory.
    ensures shown.Ok? && shown.value.eligible && accepted.Err? ==> accepted.error == EVIDENCE_DIR
    // What was shown to fail is what the engine refuses on.
    ensures shown.Ok? && !shown.value.eligible ==>
              var checks := shown.value.checks;
              accepted.Err? && |checks| > 0 && checks[|checks| - 1] == Precondition(accepted.error, false)
    ensures shown.Err? ==> accepted == Err(REVIEW_SATISFIED)
  {
    hide *;
    shown := CheckAcceptEligibility(s);
    accepted := AcceptPreconditions(s);
    OnlyEvidenceIsLast(s);
    if accepted.Err? {
      SameVerdict(s, DETERMINISTIC_GATE, accepted.error);
      if shown.Ok? && shown.value.eligible {
        RefusedMeansNotAll(s, accepted.error);
      } else if shown.Ok? {
        ghost var key :| key != DETERMINISTIC_GATE && BlockedAt(s, shown.value.checks, key);
        BlockedAtBlocks(s, shown.value.checks, key);
        SameVerdict(s, key, accepted.error);
      }
    } else {
      AllHoldBlocksNone(s);
    }
  }

  lemma AllHoldBlocksNone(s: Snapshot)
    requires HoldsBefore(s, Rank(EVIDENCE_DIR))
    ensures !Blocks(s, DETERMINISTIC_GATE)
  {
  }
}
