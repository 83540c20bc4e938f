/**
 What the preconditions of an acceptance come to, said of the fields of the snapshot
 (src/saberops/accept.py).
 */
module AcceptLaw {
  import opened AcceptEligibility
  import opened CandidateLaw
  import opened CandidateLifecycle
  import opened Text
  import opened Wrappers

  // ----- The frozen configuration -----

  predicate Switch(j: Json) { j == Absent || j == Bool(true) || j == Bool(false) }

  /** The two switches of the validation policy can be read. */
  predicate PolicyReads(c: Config)
  {
    c == NoConfig || (c.Object? && Switch(c.gateEnabled) && Switch(c.reviewDisabled))
  }

  predicate GateOff(c: Config) { c.Object? && c.gateEnabled == Bool(false) }

  predicate ReviewOff(c: Config) { c.Object? && c.reviewDisabled == Bool(true) }

  /** The older switch, for runs that were never classified. */
  predicate LegacyReads(c: Config) { c == NoConfig || (c.Object? && Switch(c.reviewEnabled)) }

  predicate LegacyOn(c: Config) { c.Object? && c.reviewEnabled == Bool(true) }

  predicate Named(j: Json, name: string) { j.Str? && Strip(j.text) == name }

  predicate ScratchReads(c: Config)
  {
    || c == NoConfig
    || (c.Object? && (|| c.scratchMode == Absent || Named(c.scratchMode, "DISK")
                      || Named(c.scratchMode, "RAM_PREFERRED") || Named(c.scratchMode, "RAM_REQUIRED")))
  }

  // ----- The review -----

  /** Whether a review is required can be told. */
  predicate RequirementReads(c: Config, decision: Option<ReviewDecision>)
  {
    PolicyReads(c) && (ReviewOff(c) || decision.Some? || LegacyReads(c))
  }

  /** It is not, when the owner switched reviews off; when a valid decision, not the owner's
      alone, does not require one; or when nothing was decided and the older switch is not on. */
  predicate NoReviewNeeded(c: Config, decision: Option<ReviewDecision>)
  {
    && RequirementReads(c, decision)
    && (ReviewOff(c) || decision == Some(Decision(false, false)) || (decision == None && !LegacyOn(c)))
  }

  predicate Approving(v: Verdict) { v == PASS || v == PASS_WITH_BACKLOG }

  predicate ReviewSatisfied(s: Snapshot, c: Config)
  {
    match s.latestReview
    case None => NoReviewNeeded(c, s.decision)
    case Some(v) => RequirementReads(c, s.decision) && Approving(v)
  }

  // ----- The whole -----

  /** Everything an acceptance asks before the evidence directory. */
  ghost predicate Eligible(s: Snapshot, sha: string)
  {
    && s.run.Some? && s.run.value.status == COMPLETED
    && var c := s.run.value.config;
       && !(c.Object? && c.parent)
       && CandidateIs(s.attempts, sha) && s.proven && !RejectedBy(s.events, sha)
       && s.repository && s.clean == Value(true) && s.head == Value(s.run.value.base)
       && (s.candidateRef == Value(None) || s.candidateRef == Value(Some(sha)))
       && PolicyReads(c) && ReviewSatisfied(s, c) && s.fastForward == Value(true) && ScratchReads(c)
  }

  lemma PolicyIff(c: Config)
    ensures ValidationPolicy(c).Ok? <==> PolicyReads(c)
    ensures PolicyReads(c) ==> ValidationPolicy(c) == Ok((!GateOff(c), ReviewOff(c)))
  {
  }

  lemma RequiredIff(c: Config, decision: Option<ReviewDecision>)
    ensures ReviewRequired(c, decision).Ok? <==> RequirementReads(c, decision)
    ensures NoReviewNeeded(c, decision) ==> RequirementReads(c, decision)
    ensures RequirementReads(c, decision) ==> ReviewRequired(c, decision) == Ok(!NoReviewNeeded(c, decision))
  {
    PolicyIff(c);
    hide ValidationPolicy;
  }

  lemma ScratchIff(c: Config)
    ensures FrozenScratchMode(c).Ok? <==> ScratchReads(c)
    ensures FrozenScratchMode(c) == Ok(RAM_PREFERRED) <==> c.Object? && Named(c.scratchMode, "RAM_PREFERRED")
    ensures FrozenScratchMode(c) == Ok(RAM_REQUIRED) <==> c.Object? && Named(c.scratchMode, "RAM_REQUIRED")
  {
    hide Strip;
  }

  /** The checklist is eligible, and the engine gets as far as the evidence directory, exactly
      when the snapshot has everything asked. */
  lemma EligibleIff(s: Snapshot)
    ensures HoldsBefore(s, Rank(EVIDENCE_DIR)) <==> exists sha: string :: Eligible(s, sha)
    ensures HoldsBefore(s, Rank(EVIDENCE_DIR)) ==> Eligible(s, CandidateSha(s))
  {
    CandidateIff(Log("", s.attempts, [], [], [], []));
    RejectionIff(s.events, CandidateSha(s));
    var c := ConfigOf(s);
    PolicyIff(c);
    RequiredIff(c, s.decision);
    ScratchIff(c);
    hide Current, FindRejection, ValidationPolicy, ReviewRequired, FrozenScratchMode, CandidateIs, RejectedBy;
    hide PolicyReads, RequirementReads, NoReviewNeeded, ScratchReads, GateOff, ReviewOff;
    KeysIff(s);
    hide HoldsBefore;
    assert HoldsBefore(s, Rank(EVIDENCE_DIR)) ==> Eligible(s, CandidateSha(s));
    if sha: string :| Eligible(s, sha) {
      assert CandidateIs(s.attempts, sha) && sha == CandidateSha(s);
      assert Holds(s, REVIEW_SATISFIED) && Holds(s, CANDIDATE_NOT_REJECTED) && Holds(s, GATE_SCRATCH);
    }
  }

  lemma KeysIff(s: Snapshot)
    ensures HoldsBefore(s, Rank(EVIDENCE_DIR))
            <==> && Holds(s, TEAM_WORKER) && Holds(s, RUN_COMPLETED) && Holds(s, CANDIDATE_AVAILABLE)
                 && Holds(s, CANDIDATE_PROVENANCE) && Holds(s, CANDIDATE_NOT_REJECTED)
                 && Holds(s, TARGET_REPOSITORY) && Holds(s, TARGET_CLEAN) && Holds(s, TARGET_HEAD)
                 && Holds(s, CANDIDATE_REF) && Holds(s, DETERMINISTIC_GATE) && Holds(s, REVIEW_SATISFIED)
                 && Holds(s, FAST_FORWARD) && Holds(s, GATE_SCRATCH)
  {
    hide Holds;
  }

  /** The engine goes on to its swap exactly with everything asked and a usable evidence
      directory, and then with the candidate; so a candidate without a review goes on only if
      no review is needed.  The checklist raises only when it gets to a policy it cannot read. */
  method Accept(s: Snapshot) returns (shown: Result<Eligibility, string>, accepted: Result<string, Key>)
    ensures accepted.Ok? <==> s.evidenceDir && exists sha: string :: Eligible(s, sha)
    ensures accepted.Ok? ==> Eligible(s, accepted.value)
    ensures accepted.Ok? && s.latestReview.None? ==> s.run.Some? && NoReviewNeeded(s.run.value.config, s.decision)
    ensures shown.Ok? ==> (shown.value.eligible <==> exists sha: string :: Eligible(s, sha))
    ensures shown.Err? ==> s.run.Some? && !PolicyReads(s.run.value.config)
  {
    EligibleIff(s);
    PolicyIff(ConfigOf(s));
    hide Eligible, PolicyReads, NoReviewNeeded;
    shown := CheckAcceptEligibility(s);
    accepted := AcceptPreconditions(s);
    OnlyEvidenceIsLast(s);
    EligibleNeedsNoReview(s, CandidateSha(s));
    BlockedOnPolicy(s);
    hide *;
  }

  lemma EligibleNeedsNoReview(s: Snapshot, sha: string)
    ensures Eligible(s, sha) && s.latestReview.None? ==> s.run.Some? && NoReviewNeeded(s.run.value.config, s.decision)
  {
    hide CandidateIs, RejectedBy, NoReviewNeeded;
  }

  lemma BlockedOnPolicy(s: Snapshot)
    ensures Blocks(s, DETERMINISTIC_GATE) ==> s.run.Some? && !PolicyReads(s.run.value.config)
  {
    PolicyIff(ConfigOf(s));
    hide Current, FindRejection, ReviewRequired, FrozenScratchMode, ValidationPolicy, PolicyReads;
    assert Rank(RUN_COMPLETED) < Rank(DETERMINISTIC_GATE);
    assert Blocks(s, DETERMINISTIC_GATE) ==> Holds(s, RUN_COMPLETED);
  }
}
