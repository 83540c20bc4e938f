/**
 The lifecycle state of a run's candidate, said of the recorded evidence itself
 (src/saberops/candidate_lifecycle.py).
 */
module CandidateLaw {
  import opened CandidateLifecycle
  import opened Sha
  import opened Wrappers

  // ----- The evidence -----

  predicate HasCandidate(a: Attempt)
  {
    a.status == SUCCESS && a.commit.Some? && a.commit.value != ""
  }

  /** The last successful attempt with a commit. */
  ghost predicate LastCandidate(attempts: seq<Attempt>, k: nat)
  {
    k < |attempts| && HasCandidate(attempts[k]) && forall j | k < j < |attempts| :: !HasCandidate(attempts[j])
  }

  ghost predicate CandidateIs(attempts: seq<Attempt>, sha: string)
  {
    exists k: nat :: LastCandidate(attempts, k) && attempts[k].commit == Some(sha)
  }

  /** A check of that attempt passed. */
  ghost predicate GatePassed(log: Log)
  {
    exists k: nat, c :: LastCandidate(log.attempts, k) && c in log.checks && c.attempt == log.attempts[k].id && c.passed
  }

  predicate Acceptance(e: Event) { e.kind == RUN_ACCEPTED && e.payload.Dict? }

  /** A full SHA, or one and a final newline. */
  ghost predicate NamesCommit(sha: string)
  {
    Canonical(sha) || exists line: string :: Canonical(line) && sha == line + "\n"
  }

  /** The last acceptance with a payload names the SHA, in its provenance too. */
  ghost predicate AcceptedBy(log: Log, sha: string)
  {
    && NamesCommit(sha)
    && exists k :: && 0 <= k < |log.events| && Acceptance(log.events[k])
                   && log.events[k].payload == Dict(Some(sha), Some(Some(sha)))
                   && forall j | k < j < |log.events| :: !Acceptance(log.events[j])
  }

  ghost predicate RejectedBy(events: seq<Event>, sha: string)
  {
    && Canonical(sha)
    && exists e :: e in events && e.kind == CANDIDATE_REJECTED && e.payload.Dict?
                   && e.payload.candidate == Some(sha)
  }

  /** A review dispatch of the candidate names the review, by association or outright. */
  ghost predicate ReviewsIt(log: Log, sha: string, r: Review)
  {
    exists d :: && d in log.dispatches && d.stage == REVIEW && d.candidate == Some(sha)
                && (d.association == r.id || (d.review == Some(r.id) && r.id != ""))
  }

  predicate Judges(v: Verdict)
  {
    v == PASS || v == BLOCK || v == PASS_WITH_BACKLOG || v == FINAL_BLOCK || v == CONVERGENCE_STALLED
  }

  /** The last review of the candidate that judges it. */
  ghost predicate JudgedBy(log: Log, sha: string, v: Verdict)
  {
    exists k :: && 0 <= k < |log.reviews| && log.reviews[k].verdict == v && JudgesIt(log, sha, log.reviews[k])
                && forall j | k < j < |log.reviews| :: !JudgesIt(log, sha, log.reviews[j])
  }

  ghost predicate JudgesIt(log: Log, sha: string, r: Review)
  {
    Judges(r.verdict) && ReviewsIt(log, sha, r)
  }

  /** A review dispatch of the candidate none of whose reviews has come in. */
  ghost predicate Awaits(log: Log, sha: string)
  {
    exists d :: && d in log.dispatches && d.stage == REVIEW && d.candidate == Some(sha)
                && forall r | r in log.reviews && ReviewsIt(log, sha, r) ::
                     r.id != d.association && d.review != Some(r.id)
  }

  // ----- The law -----

  /** What is projected: of no candidate, of one whose gate is not proven, and in each state. */
  ghost predicate Projects(log: Log, head: Option<string>, p: Projection)
  {
    match p.candidate
    case None => p.state.None? && p.verdict.None? && !exists sha: string :: CandidateIs(log.attempts, sha)
    case Some(sha) =>
      && CandidateIs(log.attempts, sha)
      && (p.state == Some(REVIEWED) <==> p.verdict.Some?)
      && match p.state
         case None => !GatePassed(log)
         case Some(state) => GatePassed(log) && InState(log, head, sha, state, p.verdict)
  }

  ghost predicate InState(log: Log, head: Option<string>, sha: string, state: State, verdict: Option<Verdict>)
  {
    match state
    case ACCEPTED => AcceptedBy(log, sha)
    case REJECTED => RejectedBy(log.events, sha) && !AcceptedBy(log, sha)
    case STALE => Undecided(log, sha) && head.Some? && head != Some(log.base)
    case REVIEWED => Unmoved(log, head, sha) && verdict.Some? && JudgedBy(log, sha, verdict.value)
    case IN_REVIEW => Unmoved(log, head, sha) && Unjudged(log, sha) && Awaits(log, sha)
    case READY => Unmoved(log, head, sha) && Unjudged(log, sha) && !Awaits(log, sha)
  }

  ghost predicate Undecided(log: Log, sha: string) { !AcceptedBy(log, sha) && !RejectedBy(log.events, sha) }

  /** Undecided, and the target has not moved as far as one knows. */
  ghost predicate Unmoved(log: Log, head: Option<string>, sha: string)
  {
    Undecided(log, sha) && (head.None? || head == Some(log.base))
  }

  ghost predicate Unjudged(log: Log, sha: string)
  {
    forall r | r in log.reviews :: !JudgesIt(log, sha, r)
  }

  lemma {:induction false} CurrentIs(attempts: seq<Attempt>)
    ensures match Current(attempts)
            case None => forall k | 0 <= k < |attempts| :: !HasCandidate(attempts[k])
            case Some(a) => exists k: nat :: && k < |attempts| && HasCandidate(attempts[k]) && attempts[k] == a
                                             && forall j | k < j < |attempts| :: !HasCandidate(attempts[j])
  {
    if attempts != [] {
      var last := |attempts| - 1;
      CurrentIs(attempts[..last]);
      if HasCandidate(attempts[last]) {
        assert Current(attempts) == Some(attempts[last]);
      } else if Current(attempts).Some? {
        var init := attempts[..last];
        var k: nat :| && k < |init| && HasCandidate(init[k]) && init[k] == Current(attempts).value
                      && forall j | k < j < |init| :: !HasCandidate(init[j]);
        assert attempts[k] == init[k];
        forall j | k < j < |attempts| ensures !HasCandidate(attempts[j]) {
          if j < last { assert attempts[j] == init[j]; }
        }
      } else {
        forall j | 0 <= j < |attempts| ensures !HasCandidate(attempts[j]) {
          if j < last { assert attempts[j] == attempts[..last][j]; }
        }
      }
    }
  }

  /** There is one last candidate, the current one. */
  lemma CandidateIff(log: Log)
    ensures forall sha: string ::
              CandidateIs(log.attempts, sha)
              <==> Current(log.attempts).Some? && Current(log.attempts).value.commit == Some(sha)
    ensures Current(log.attempts).Some? ==> (GatePassed(log) <==> Gated(log.checks, Current(log.attempts).value.id))
  {
    CurrentIs(log.attempts);
    var a := Current(log.attempts);
    forall i: nat, j: nat | LastCandidate(log.attempts, i) && LastCandidate(log.attempts, j) ensures i == j {}
    if a.Some? {
      var k: nat :| && k < |log.attempts| && HasCandidate(log.attempts[k]) && log.attempts[k] == a.value
                    && forall j | k < j < |log.attempts| :: !HasCandidate(log.attempts[j]);
      assert LastCandidate(log.attempts, k);
      hide Current, HasCandidate, LastCandidate;
      if Gated(log.checks, a.value.id) {
        var i :| 0 <= i < |log.checks| && log.checks[i].attempt == a.value.id && log.checks[i].passed;
        assert log.checks[i] in log.checks;
      }
    }
  }

  lemma {:induction false} LatestAcceptedIs(events: seq<Event>)
    ensures match LatestAccepted(events)
            case None => forall k | 0 <= k < |events| :: !Acceptance(events[k])
            case Some(p) => exists k :: && 0 <= k < |events| && Acceptance(events[k]) && events[k].payload == p
                                        && forall j | k < j < |events| :: !Acceptance(events[j])
  {
    if events != [] {
      var last := |events| - 1;
      var init := events[..last];
      LatestAcceptedIs(init);
      if Acceptance(events[last]) {
        assert LatestAccepted(events) == Some(events[last].payload);
      } else if LatestAccepted(events).Some? {
        var k :| && 0 <= k < |init| && Acceptance(init[k]) && init[k].payload == LatestAccepted(events).value
                 && forall j | k < j < |init| :: !Acceptance(init[j]);
        assert events[k] == init[k];
        forall j | k < j < |events| ensures !Acceptance(events[j]) { if j < last { assert events[j] == init[j]; } }
      } else {
        forall j | 0 <= j < |events| ensures !Acceptance(events[j]) { if j < last { assert events[j] == init[j]; } }
      }
    }
  }

  lemma NamesCommitIff(sha: string)
    ensures NamesCommit(sha) <==> CanonicalLine(sha)
  {
    if |sha| == 41 && sha[40] == '\n' { assert sha == sha[..40] + "\n"; }
    if line: string :| Canonical(line) && sha == line + "\n" { assert sha[..40] == line; }
  }

  lemma AcceptedIff(log: Log, sha: string)
    ensures AcceptedBy(log, sha) <==> AcceptedFor(log.events, sha)
  {
    LatestAcceptedIs(log.events);
    NamesCommitIff(sha);
    hide LatestAccepted, CanonicalLine, NamesCommit;
    var p := LatestAccepted(log.events);
    if p.Some? {
      var k :| && 0 <= k < |log.events| && Acceptance(log.events[k]) && log.events[k].payload == p.value
               && forall j | k < j < |log.events| :: !Acceptance(log.events[j]);
      if AcceptedBy(log, sha) {
        var i :| && 0 <= i < |log.events| && Acceptance(log.events[i])
                 && log.events[i].payload == Dict(Some(sha), Some(Some(sha)))
                 && forall j | i < j < |log.events| :: !Acceptance(log.events[j]);
        assert i == k;
      }
    }
  }

  lemma RejectionIff(events: seq<Event>, sha: string)
    ensures RejectedBy(events, sha) <==> FindRejection(events, sha).Some?
  {
    var f := FindRejection(events, sha);
    if f.Some? {
      assert events[f.value] in events;
    }
  }

  lemma BoundIff(log: Log, sha: string, r: Review)
    ensures ReviewsIt(log, sha, r) <==> Bound(r, log.dispatches, sha)
  {
    if Bound(r, log.dispatches, sha) {
      var k :| 0 <= k < |log.dispatches| && ReviewOf(log.dispatches[k], sha) && Names(log.dispatches[k], r.id);
      assert log.dispatches[k] in log.dispatches;
    }
  }

  lemma {:induction false} JudgmentIs(log: Log, sha: string, reviews: seq<Review>)
    requires reviews <= log.reviews
    ensures match LatestJudgment(reviews, log.dispatches, sha)
            case None => forall k | 0 <= k < |reviews| :: !JudgesIt(log, sha, reviews[k])
            case Some(v) => exists k :: && 0 <= k < |reviews|
                                        && reviews[k].verdict == v && JudgesIt(log, sha, reviews[k])
                                        && forall j | k < j < |reviews| :: !JudgesIt(log, sha, reviews[j])
  {
    if reviews != [] {
      var last := |reviews| - 1;
      var init := reviews[..last];
      JudgmentIs(log, sha, init);
      BoundIff(log, sha, reviews[last]);
      hide Bound, ReviewsIt;
      assert JudgesIt(log, sha, reviews[last]) <==>
             Bound(reviews[last], log.dispatches, sha) && Substantive(reviews[last].verdict);
      if JudgesIt(log, sha, reviews[last]) {
        assert LatestJudgment(reviews, log.dispatches, sha) == Some(reviews[last].verdict);
      } else if LatestJudgment(init, log.dispatches, sha).Some? {
        var v := LatestJudgment(init, log.dispatches, sha).value;
        var k :| && 0 <= k < |init| && init[k].verdict == v && JudgesIt(log, sha, init[k])
                 && forall j | k < j < |init| :: !JudgesIt(log, sha, init[j]);
        hide JudgesIt;
        assert reviews[k] == init[k];
        forall j | k < j < |reviews| ensures !JudgesIt(log, sha, reviews[j]) {
          if j < last { assert reviews[j] == init[j]; }
        }
      } else {
        hide JudgesIt;
        forall j | 0 <= j < |reviews| ensures !JudgesIt(log, sha, reviews[j]) {
          if j < last { assert reviews[j] == init[j]; }
        }
      }
    }
  }

  lemma JudgmentIff(log: Log, sha: string)
    ensures forall v :: JudgedBy(log, sha, v) <==> LatestJudgment(log.reviews, log.dispatches, sha) == Some(v)
    ensures Unjudged(log, sha) <==> LatestJudgment(log.reviews, log.dispatches, sha).None?
  {
    JudgmentIs(log, sha, log.reviews);
    hide LatestJudgment, JudgesIt;
    forall i, j
      | && 0 <= i < |log.reviews| && JudgesIt(log, sha, log.reviews[i])
        && (forall k | i < k < |log.reviews| :: !JudgesIt(log, sha, log.reviews[k]))
        && 0 <= j < |log.reviews| && JudgesIt(log, sha, log.reviews[j])
        && (forall k | j < k < |log.reviews| :: !JudgesIt(log, sha, log.reviews[k]))
      ensures i == j
    {
    }
  }

  lemma CompletedIff(log: Log, sha: string, id: string)
    ensures Completed(log.reviews, log.dispatches, sha, id)
            <==> exists r :: r in log.reviews && ReviewsIt(log, sha, r) && r.id == id
  {
    hide Bound, ReviewsIt;
    forall r ensures ReviewsIt(log, sha, r) <==> Bound(r, log.dispatches, sha) { BoundIff(log, sha, r); }
    if Completed(log.reviews, log.dispatches, sha, id) {
      var k :| 0 <= k < |log.reviews| && log.reviews[k].id == id && Bound(log.reviews[k], log.dispatches, sha);
      assert log.reviews[k] in log.reviews;
    }
  }

  lemma AwaitsIff(log: Log, sha: string)
    ensures Awaits(log, sha) <==> InFlight(log.reviews, log.dispatches, sha)
  {
    hide Completed, ReviewsIt;
    forall id ensures Completed(log.reviews, log.dispatches, sha, id)
                      <==> exists r :: r in log.reviews && ReviewsIt(log, sha, r) && r.id == id
    {
      CompletedIff(log, sha, id);
    }
    if InFlight(log.reviews, log.dispatches, sha) {
      var k :| && 0 <= k < |log.dispatches| && ReviewOf(log.dispatches[k], sha)
               && Unsettled(log.dispatches[k], log.reviews, log.dispatches, sha);
      assert log.dispatches[k] in log.dispatches;
    }
    if Awaits(log, sha) {
      var d :| && d in log.dispatches && d.stage == REVIEW && d.candidate == Some(sha)
               && forall r | r in log.reviews && ReviewsIt(log, sha, r) ::
                    r.id != d.association && d.review != Some(r.id);
      var k :| 0 <= k < |log.dispatches| && log.dispatches[k] == d;
      assert Unsettled(log.dispatches[k], log.reviews, log.dispatches, sha);
    }
  }

  lemma StateIff(log: Log, head: Option<string>, sha: string, state: State, verdict: Option<Verdict>)
    requires state == REVIEWED <==> verdict.Some?
    ensures InState(log, head, sha, state, verdict)
            <==> var judgment := LatestJudgment(log.reviews, log.dispatches, sha);
                 if AcceptedFor(log.events, sha) then state == ACCEPTED
                 else if FindRejection(log.events, sha).Some? then state == REJECTED
                 else if head.Some? && head.value != log.base then state == STALE
                 else if judgment.Some? then state == REVIEWED && verdict == judgment
                 else if InFlight(log.reviews, log.dispatches, sha) then state == IN_REVIEW
                 else state == READY
  {
    AcceptedIff(log, sha);
    RejectionIff(log.events, sha);
    JudgmentIff(log, sha);
    AwaitsIff(log, sha);
    hide AcceptedBy, RejectedBy, JudgedBy, Unjudged, Awaits, AcceptedFor, FindRejection, LatestJudgment, InFlight;
    match state
    case ACCEPTED =>
    case REJECTED =>
    case STALE =>
    case REVIEWED =>
    case IN_REVIEW =>
    case READY =>
  }

  /** Every projection, with its candidate, state and verdict, is the one the evidence calls for:
      `Projects` holds of exactly one projection, and that is made. */
  lemma ProjectIff(log: Log, head: Option<string>, p: Projection)
    ensures Project(log, head) == p <==> Projects(log, head, p)
  {
    CandidateIff(log);
    var a := Current(log.attempts);
    if a.Some? && p.candidate == a.value.commit && p.state.Some? && (p.state == Some(REVIEWED) <==> p.verdict.Some?) {
      StateIff(log, head, a.value.commit.value, p.state.value, p.verdict);
    }
    if a.Some? { assert CandidateIs(log.attempts, a.value.commit.value); }
    hide CandidateIs, GatePassed, InState, Current, Gated, AcceptedFor, FindRejection, LatestJudgment, InFlight;
  }

  // ----- The decisions -----

  ghost predicate Named(events: seq<Event>, sha: string)
  {
    exists e :: e in events && e.kind == CANDIDATE_REJECTED && e.payload.Dict? && e.payload.candidate == Some(sha)
  }

  /** The candidate can be rejected: proven, not accepted, with a full SHA, and not rejected yet. */
  ghost predicate Rejectable(log: Log, sha: string)
  {
    && CandidateIs(log.attempts, sha) && GatePassed(log) && !AcceptedBy(log, sha)
    && Canonical(sha) && !Named(log.events, sha)
  }

  ghost predicate Acceptable(log: Log, sha: string)
  {
    CandidateIs(log.attempts, sha) && Canonical(sha) && !RejectedBy(log.events, sha)
  }

  /** What one operation adds to the evidence, and that it adds nothing else. */
  ghost predicate Adds(log: Log, op: Op, log': Log)
  {
    && log'.base == log.base
    && log'.attempts == log.attempts + (if op.Attempted? then [op.attempt] else [])
    && log'.checks == log.checks + (if op.Checked? then [op.check] else [])
    && log'.dispatches == log.dispatches + (if op.Dispatched? then [op.dispatch] else [])
    && log'.reviews == log.reviews + (if op.Reviewed? then [op.review] else [])
    && match op
       case Noted(payload) => log'.events == log.events + [Event(OTHER, payload)]
       case Reject =>
         && (forall sha: string | Rejectable(log, sha) ::
               log'.events == log.events + [Event(CANDIDATE_REJECTED, Dict(Some(sha), None))])
         && ((forall sha: string :: !Rejectable(log, sha)) ==> log'.events == log.events)
       case Accept(permitted) =>
         && (forall sha: string | permitted && Acceptable(log, sha) ::
               log'.events == log.events + [Event(RUN_ACCEPTED, Dict(Some(sha), Some(Some(sha))))])
         && (!permitted || (forall sha: string :: !Acceptable(log, sha)) ==> log'.events == log.events)
       case _ => log'.events == log.events
  }

  lemma RejectingIs(log: Log)
    ensures match RejectRefusal(log)
            case Some(_) => forall sha: string :: !Rejectable(log, sha)
            case None =>
              var sha := Project(log, None).candidate.value;
              && (forall other: string | Rejectable(log, other) :: other == sha)
              && (Rejectable(log, sha) <==> !AlreadyRejected(log.events, sha))
  {
    var p := Project(log, None);
    ProjectIff(log, None, p);
    hide Project, AcceptedBy, GatePassed, RejectedBy, JudgesIt, Awaits, LastCandidate;
    CandidateIff(log);
    hide CandidateIs;
    if p.candidate.Some? {
      forall other: string | CandidateIs(log.attempts, other) ensures other == p.candidate.value {}
      NamedIff(log.events, p.candidate.value);
    }
    hide AlreadyRejected, Named;
  }

  lemma NamedIff(events: seq<Event>, sha: string)
    ensures Named(events, sha) <==> AlreadyRejected(events, sha)
  {
    if AlreadyRejected(events, sha) {
      var k :| 0 <= k < |events| && Rejects(events[k], sha);
      assert events[k] in events;
    }
    if Named(events, sha) {
      var e :| e in events && e.kind == CANDIDATE_REJECTED && e.payload.Dict? && e.payload.candidate == Some(sha);
      var k :| 0 <= k < |events| && events[k] == e;
      assert Rejects(events[k], sha);
    }
  }

  lemma AcceptingIs(log: Log)
    ensures match Current(log.attempts)
            case None => forall sha: string :: !Acceptable(log, sha)
            case Some(a) =>
              var sha := a.commit.value;
              && (forall other: string | Acceptable(log, other) :: other == sha)
              && (Acceptable(log, sha) <==> Canonical(sha) && FindRejection(log.events, sha).None?)
  {
    CandidateIff(log);
    var a := Current(log.attempts);
    if a.Some? { RejectionIff(log.events, a.value.commit.value); }
    hide CandidateIs, RejectedBy, Canonical, FindRejection;
  }

  /** Every operation of a run adds exactly this. */
  lemma ApplyIff(log: Log, op: Op, log': Log)
    ensures Apply(log, op) == log' <==> Adds(log, op, log')
  {
    match op
    case Attempted(_) =>
    case Checked(_) =>
    case Dispatched(_) =>
    case Reviewed(_) =>
    case Noted(_) =>
    case Reject =>
      RejectingIs(log);
      hide Rejectable, RejectRefusal, AlreadyRejected, Project;
    case Accept(_) =>
      AcceptingIs(log);
      hide Acceptable, Current, FindRejection, Canonical;
  }
}
