/**
 The lifecycle projection of a run's current candidate (src/saberops/candidate_lifecycle.py), with the
 acceptance verifier (src/saberops/autonomous_runtime.py) and the rejection record (src/saberops/db.py).
 */
module CandidateLifecycle {
  import opened Sha
  import opened Wrappers

  // ----- Durable evidence -----

  datatype AttemptStatus = PENDING | RUNNING | SUCCESS | FAILED | TIMEOUT

  datatype Attempt = Attempt(id: nat, status: AttemptStatus, commit: Option<string>)

  datatype Check = Check(attempt: nat, passed: bool)

  datatype Stage = WORK | REVIEW

  datatype Dispatch = Dispatch(association: string, stage: Stage, candidate: Option<string>, review: Option<string>)

  datatype Verdict =
    | PASS | BLOCK | PASS_WITH_BACKLOG | FINAL_BLOCK | CONVERGENCE_STALLED
    | REVIEW_EXECUTION_FAILED | REVIEW_UNAVAILABLE

  datatype Review = Review(id: string, verdict: Verdict)

  /** An event's payload: its `candidate_sha` when that is a string, and, when `provenance` is a
      dict with something in it, the `candidate_sha` there. */
  datatype Payload = NotADict | Dict(candidate: Option<string>, provenance: Option<Option<string>>)

  datatype EventKind = CANDIDATE_REJECTED | RUN_ACCEPTED | OTHER

  datatype Event = Event(kind: EventKind, payload: Payload)

  /** Everything recorded for one run, each list in the order it was recorded. */
  datatype Log = Log(base: string, attempts: seq<Attempt>, checks: seq<Check>, dispatches: seq<Dispatch>,
                     reviews: seq<Review>, events: seq<Event>)

  // ----- Reading the evidence -----

  /** The latest SUCCESS attempt with a commit. */
  function Current(attempts: seq<Attempt>): (a: Option<Attempt>)
    ensures a.Some? ==> a.value in attempts && a.value.commit.Some? && a.value.commit.value != ""
  {
    if attempts == [] then None
    else
      var last := attempts[|attempts| - 1];
      if last.status == SUCCESS && last.commit.Some? && last.commit.value != "" then Some(last)
      else Current(attempts[..|attempts| - 1])
  }

  predicate Gated(checks: seq<Check>, attempt: nat)
  {
    exists k :: 0 <= k < |checks| && checks[k].attempt == attempt && checks[k].passed
  }

  /** The current candidate, when a passed check of its attempt proves its gate. */
  function Proven(log: Log): Option<string>
  {
    match Current(log.attempts)
    case None => None
    case Some(a) => if Gated(log.checks, a.id) then a.commit else None
  }

  predicate Rejects(e: Event, sha: string)
  {
    e.kind == CANDIDATE_REJECTED && e.payload.Dict? && e.payload.candidate == Some(sha)
  }

  /** The latest canonical rejection of exactly this candidate. */
  function FindRejection(events: seq<Event>, sha: string): (f: Option<nat>)
    ensures match f
            case Some(k) => Canonical(sha) && k < |events| && Rejects(events[k], sha)
                            && forall j | k < j < |events| :: !Rejects(events[j], sha)
            case None => !Canonical(sha) || forall j | 0 <= j < |events| :: !Rejects(events[j], sha)
  {
    if !Canonical(sha) || events == [] then None
    else if Rejects(events[|events| - 1], sha) then Some(|events| - 1)
    else FindRejection(events[..|events| - 1], sha)
  }

  method FindMatchingRejection(events: seq<Event>, sha: string) returns (latest: Option<nat>)
    ensures latest == FindRejection(events, sha)
  {
    latest := None;
    if !Canonical(sha) { return; }
    for i := 0 to |events|
      invariant latest == FindRejection(events[..i], sha)
    {
      assert events[..i + 1][..i] == events[..i];
      var e := events[i];
      if e.kind == CANDIDATE_REJECTED && e.payload.Dict? {
        var named := e.payload.candidate;
        if named.Some? && Canonical(named.value) && named.value == sha {
          latest := Some(i);
        }
      }
    }
    assert events[..|events|] == events;
  }

  /** The payload of the latest run_accepted event that has one. */
  function LatestAccepted(events: seq<Event>): Option<Payload>
  {
    if events == [] then None
    else
      var last := events[|events| - 1];
      if last.kind == RUN_ACCEPTED && last.payload.Dict? then Some(last.payload)
      else LatestAccepted(events[..|events| - 1])
  }

  method LatestRunAccepted(events: seq<Event>) returns (last: Option<Payload>)
    ensures last == LatestAccepted(events)
  {
    last := None;
    for i := 0 to |events|
      invariant last == LatestAccepted(events[..i])
    {
      assert events[..i + 1][..i] == events[..i];
      if events[i].kind == RUN_ACCEPTED && events[i].payload.Dict? {
        last := Some(events[i].payload);
      }
    }
    assert events[..|events|] == events;
  }

  /** _verify_accept_engine_evidence succeeds. */
  predicate AcceptedFor(events: seq<Event>, sha: string)
  {
    var last := LatestAccepted(events);
    && CanonicalLine(sha) && last.Some? && last.value.Dict?
    && last.value.candidate == Some(sha) && last.value.provenance == Some(Some(sha))
  }

  predicate Substantive(v: Verdict) { v != REVIEW_EXECUTION_FAILED && v != REVIEW_UNAVAILABLE }

  predicate ReviewOf(d: Dispatch, sha: string) { d.stage == REVIEW && d.candidate == Some(sha) }

  /** Some review dispatch of this candidate names the review. */
  predicate Bound(r: Review, dispatches: seq<Dispatch>, sha: string)
  {
    exists k :: 0 <= k < |dispatches| && ReviewOf(dispatches[k], sha) && Names(dispatches[k], r.id)
  }

  predicate Names(d: Dispatch, review: string)
  {
    d.association == review || (d.review == Some(review) && review != "")
  }

  /** The latest substantive review bound to the candidate. */
  function LatestJudgment(reviews: seq<Review>, dispatches: seq<Dispatch>, sha: string): Option<Verdict>
  {
    if reviews == [] then None
    else
      var last := reviews[|reviews| - 1];
      if Bound(last, dispatches, sha) && Substantive(last.verdict) then Some(last.verdict)
      else LatestJudgment(reviews[..|reviews| - 1], dispatches, sha)
  }

  predicate Completed(reviews: seq<Review>, dispatches: seq<Dispatch>, sha: string, id: string)
  {
    exists k :: 0 <= k < |reviews| && reviews[k].id == id && Bound(reviews[k], dispatches, sha)
  }

  /** Some review dispatch of this candidate has no completed review at all. */
  predicate InFlight(reviews: seq<Review>, dispatches: seq<Dispatch>, sha: string)
  {
    exists k :: 0 <= k < |dispatches| && ReviewOf(dispatches[k], sha) && Unsettled(dispatches[k], reviews, dispatches, sha)
  }

  predicate Unsettled(d: Dispatch, reviews: seq<Review>, dispatches: seq<Dispatch>, sha: string)
  {
    && !Completed(reviews, dispatches, sha, d.association)
    && (d.review.None? || !Completed(reviews, dispatches, sha, d.review.value))
  }

  // ----- The projection -----

  datatype State = READY | IN_REVIEW | REVIEWED | STALE | REJECTED | ACCEPTED

  datatype Projection = Projection(candidate: Option<string>, state: Option<State>, verdict: Option<Verdict>)

  /** `head` is the live target HEAD, when a resolver supplied one. */
  function Project(log: Log, head: Option<string>): Projection
  {
    match Current(log.attempts)
    case None => Projection(None, None, None)
    case Some(a) =>
      var sha := a.commit.value;
      if !Gated(log.checks, a.id) then Projection(a.commit, None, None)
      else if AcceptedFor(log.events, sha) then Projection(a.commit, Some(ACCEPTED), None)
      else if FindRejection(log.events, sha).Some? then Projection(a.commit, Some(REJECTED), None)
      else if head.Some? && head.value != log.base then Projection(a.commit, Some(STALE), None)
      else
        var judgment := LatestJudgment(log.reviews, log.dispatches, sha);
        if judgment.Some? then Projection(a.commit, Some(REVIEWED), judgment)
        else if InFlight(log.reviews, log.dispatches, sha) then Projection(a.commit, Some(IN_REVIEW), None)
        else Projection(a.commit, Some(READY), None)
  }

  // ----- Deciding -----

  datatype Refusal = NO_PROVEN_CANDIDATE | ALREADY_ACCEPTED | NOT_CANONICAL | REJECTED_BY_OWNER | NOT_PERMITTED

  function RejectRefusal(log: Log): Option<Refusal>
  {
    var p := Project(log, None);
    if p.candidate.None? || p.state.None? then Some(NO_PROVEN_CANDIDATE)
    else if p.state == Some(ACCEPTED) then Some(ALREADY_ACCEPTED)
    else if !Canonical(p.candidate.value) then Some(NOT_CANONICAL)
    else None
  }

  predicate AlreadyRejected(events: seq<Event>, sha: string)
  {
    exists k :: 0 <= k < |events| && Rejects(events[k], sha)
  }

  function RejectionOf(sha: string): Event { Event(CANDIDATE_REJECTED, Dict(Some(sha), None)) }

  function AcceptanceOf(sha: string): Event { Event(RUN_ACCEPTED, Dict(Some(sha), Some(Some(sha)))) }

  function RejectedLog(log: Log): Log
  {
    if RejectRefusal(log).Some? then log
    else
      var sha := Project(log, None).candidate.value;
      if AlreadyRejected(log.events, sha) then log else log.(events := log.events + [RejectionOf(sha)])
  }

  /** `permitted` stands for every other precondition, the swap and the gate of accept_run; the
      swap refuses a SHA that is not canonical. */
  function AcceptedLog(log: Log, permitted: bool): Log
  {
    match Current(log.attempts)
    case None => log
    case Some(a) =>
      if FindRejection(log.events, a.commit.value).Some? || !Canonical(a.commit.value) || !permitted then log
      else log.(events := log.events + [AcceptanceOf(a.commit.value)])
  }

  class RunStore {
    var log: Log

    constructor (base: string)
      ensures log == Log(base, [], [], [], [], [])
    {
      log := Log(base, [], [], [], [], []);
    }

    method RecordRejectionOnce(sha: string) returns (inserted: bool)
      modifies this
      ensures inserted <==> !AlreadyRejected(old(log.events), sha)
      ensures log == if inserted then old(log).(events := old(log.events) + [RejectionOf(sha)]) else old(log)
    {
      for i := 0 to |log.events|
        invariant log == old(log)
        invariant forall k | 0 <= k < i :: !Rejects(log.events[k], sha)
      {
        var e := log.events[i];
        if e.kind == CANDIDATE_REJECTED && e.payload.Dict? && e.payload.candidate == Some(sha) {
          return false;
        }
      }
      log := log.(events := log.events + [RejectionOf(sha)]);
      return true;
    }

    /** A decision that is not refused leaves the candidate rejected. */
    method RejectCurrentCandidate() returns (r: Result<Projection, Refusal>)
      modifies this
      ensures log == RejectedLog(old(log))
      ensures if RejectRefusal(old(log)).Some? then r == Err(RejectRefusal(old(log)).value)
              else r == Ok(Projection(old(Project(log, None)).candidate, Some(REJECTED), None))
    {
      var p := Project(log, None);
      if p.candidate.None? || p.state.None? { return Err(NO_PROVEN_CANDIDATE); }
      if p.state == Some(ACCEPTED) { return Err(ALREADY_ACCEPTED); }
      var sha := p.candidate.value;
      if !Canonical(sha) { return Err(NOT_CANONICAL); }
      var inserted := RecordRejectionOnce(sha);
      RejectingRejects(old(log));
      r := Ok(Project(log, None));
    }

    method AcceptRun(permitted: bool) returns (r: Result<string, Refusal>)
      modifies this
      ensures log == AcceptedLog(old(log), permitted)
      ensures r.Ok? <==>
                var a := Current(log.attempts);
                && a.Some? && Canonical(a.value.commit.value) && permitted
                && FindRejection(old(log.events), a.value.commit.value).None?
    {
      var current := Current(log.attempts);
      if current.None? { return Err(NO_PROVEN_CANDIDATE); }
      var sha := current.value.commit.value;
      var rejection := FindMatchingRejection(log.events, sha);
      if rejection.Some? { return Err(REJECTED_BY_OWNER); }
      if !Canonical(sha) { return Err(NOT_CANONICAL); }
      if !permitted { return Err(NOT_PERMITTED); }
      log := log.(events := log.events + [AcceptanceOf(sha)]);
      r := Ok(sha);
    }
  }

  lemma RejectingRejects(log: Log)
    requires RejectRefusal(log).None?
    ensures Project(RejectedLog(log), None) == Projection(Project(log, None).candidate, Some(REJECTED), None)
  {
    var sha := Project(log, None).candidate.value;
    var log' := RejectedLog(log);
    if !AlreadyRejected(log.events, sha) {
      assert log'.events[..|log.events|] == log.events;
      assert Rejects(log'.events[|log.events|], sha);
    }
  }

  // ----- What appended evidence keeps -----

  /** log' is log with more evidence recorded. */
  predicate Extends(log: Log, log': Log)
  {
    && log.base == log'.base && log.attempts <= log'.attempts && log.checks <= log'.checks
    && log.dispatches <= log'.dispatches && log.reviews <= log'.reviews && log.events <= log'.events
  }

  /** REJECTED is projected exactly for a gate-proven current candidate that a rejection names
      and no valid acceptance does, whatever the live head, dispatches and reviews say. */
  lemma RejectedIff(log: Log, head: Option<string>)
    ensures Project(log, head).state == Some(REJECTED)
            <==> var sha := Proven(log);
                 sha.Some? && !AcceptedFor(log.events, sha.value) && Canonical(sha.value) && AlreadyRejected(log.events, sha.value)
  {
    var sha := Proven(log);
    if sha.Some? {
      var found := FindRejection(log.events, sha.value);
      if found.Some? { assert Rejects(log.events[found.value], sha.value); }
    }
  }

  lemma LatestAcceptedAfter(events: seq<Event>, e: Event)
    ensures LatestAccepted(events + [e]) == if e.kind == RUN_ACCEPTED
            && e.payload.Dict? then Some(e.payload) else LatestAccepted(events)
  {
    assert (events + [e])[..|events|] == events;
  }

  lemma FindRejectionAfter(events: seq<Event>, e: Event, sha: string)
    ensures FindRejection(events + [e], sha)
            == if Canonical(sha) && Rejects(e, sha) then Some(|events|) else FindRejection(events, sha)
  {
    assert (events + [e])[..|events|] == events;
  }

  /** An event that is no acceptance and does not name the current candidate as rejected, such
      as the rejection of another candidate or a malformed one, changes nothing. */
  lemma ForeignRejectionChangesNothing(log: Log, e: Event, head: Option<string>)
    requires e.kind != RUN_ACCEPTED
    requires var a := Current(log.attempts); a.Some? ==> !Rejects(e, a.value.commit.value)
    ensures Project(log.(events := log.events + [e]), head) == Project(log, head)
  {
    LatestAcceptedAfter(log.events, e);
    var a := Current(log.attempts);
    if a.Some? { FindRejectionAfter(log.events, e, a.value.commit.value); }
  }

  /** A review dispatch bound to another candidate leaks nothing into the projection either. */
  lemma ForeignDispatchChangesNothing(log: Log, d: Dispatch, head: Option<string>)
    requires var a := Current(log.attempts); a.Some? ==> !ReviewOf(d, a.value.commit.value)
    ensures Project(log.(dispatches := log.dispatches + [d]), head) == Project(log, head)
  {
    var a := Current(log.attempts);
    if a.Some? {
      var sha := a.value.commit.value;
      var more := log.dispatches + [d];
      forall r: Review ensures Bound(r, more, sha) <==> Bound(r, log.dispatches, sha) {
        SameBound(r, log.dispatches, d, sha);
      }
      SameJudgment(log.reviews, log.dispatches, more, sha);
      SameInFlight(log.reviews, log.dispatches, d, sha);
    }
  }

  lemma SameBound(r: Review, dispatches: seq<Dispatch>, d: Dispatch, sha: string)
    requires !ReviewOf(d, sha)
    ensures Bound(r, dispatches + [d], sha) <==> Bound(r, dispatches, sha)
  {
    var more := dispatches + [d];
    if Bound(r, dispatches, sha) {
      var k :| 0 <= k < |dispatches| && ReviewOf(dispatches[k], sha) && Names(dispatches[k], r.id);
      assert more[k] == dispatches[k];
    }
  }

  lemma {:induction false} SameJudgment(reviews: seq<Review>, dispatches: seq<Dispatch>, more: seq<Dispatch>,
                                        sha: string)
    requires forall r: Review :: Bound(r, more, sha) <==> Bound(r, dispatches, sha)
    ensures LatestJudgment(reviews, more, sha) == LatestJudgment(reviews, dispatches, sha)
  {
    hide Bound;
    if reviews != [] { SameJudgment(reviews[..|reviews| - 1], dispatches, more, sha); }
  }

  lemma SameInFlight(reviews: seq<Review>, dispatches: seq<Dispatch>, d: Dispatch, sha: string)
    requires !ReviewOf(d, sha) && forall r: Review :: Bound(r, dispatches + [d], sha) <==> Bound(r, dispatches, sha)
    ensures InFlight(reviews, dispatches + [d], sha) <==> InFlight(reviews, dispatches, sha)
  {
    hide Bound;
    var more := dispatches + [d];
    forall id ensures Completed(reviews, more, sha, id) <==> Completed(reviews, dispatches, sha, id) {
    }
    hide Completed;
    if InFlight(reviews, dispatches, sha) {
      var k :| 0 <= k < |dispatches| && ReviewOf(dispatches[k], sha) && Unsettled(dispatches[k], reviews, dispatches, sha);
      assert more[k] == dispatches[k] && Unsettled(more[k], reviews, more, sha);
    }
    if InFlight(reviews, more, sha) {
      var k :| 0 <= k < |more| && ReviewOf(more[k], sha) && Unsettled(more[k], reviews, more, sha);
      assert more[k] == dispatches[k] && Unsettled(dispatches[k], reviews, dispatches, sha);
    }
  }

  /** Once REJECTED, and as long as the same candidate is current and gate-proven, no head
      movement, no review and nothing else recorded changes that, except a valid run_accepted
      event for the candidate being the latest, which projects ACCEPTED. */
  lemma RejectedStays(log: Log, log': Log, head: Option<string>, head': Option<string>)
    requires Project(log, head).state == Some(REJECTED) && Extends(log, log')
    requires Proven(log') == Project(log, head).candidate
    ensures Project(log', head').state
            == Some(if AcceptedFor(log'.events, Proven(log').value) then ACCEPTED else REJECTED)
  {
    RejectedIff(log, head);
    var sha := Proven(log').value;
    var k :| 0 <= k < |log.events| && Rejects(log.events[k], sha);
    assert log'.events[k] == log.events[k];
  }

  // ----- Runs of the decisions -----

  datatype Op =
    | Attempted(attempt: Attempt) | Checked(check: Check) | Dispatched(dispatch: Dispatch) | Reviewed(review: Review)
    | Noted(payload: Payload) | Reject | Accept(permitted: bool)

  function Apply(log: Log, op: Op): Log
  {
    match op
    case Attempted(a) => log.(attempts := log.attempts + [a])
    case Checked(c) => log.(checks := log.checks + [c])
    case Dispatched(d) => log.(dispatches := log.dispatches + [d])
    case Reviewed(r) => log.(reviews := log.reviews + [r])
    case Noted(p) => log.(events := log.events + [Event(OTHER, p)])
    case Reject => RejectedLog(log)
    case Accept(permitted) => AcceptedLog(log, permitted)
  }

  function Run(base: string, ops: seq<Op>): Log
  {
    if ops == [] then Log(base, [], [], [], [], []) else Apply(Run(base, ops[..|ops| - 1]), ops[|ops| - 1])
  }

  /** At most one event rejects each candidate, and none accepts one already rejected. */
  predicate Decided(events: seq<Event>)
  {
    forall i, j | 0 <= i < j < |events| && events[i].kind == CANDIDATE_REJECTED && events[i].payload.Dict? ::
      var sha := events[i].payload.candidate;
      && (events[j].kind == CANDIDATE_REJECTED ==> events[j].payload.Dict? && events[j].payload.candidate != sha)
      && (events[j].kind == RUN_ACCEPTED ==> events[j].payload.Dict? && events[j].payload.candidate != sha)
  }

  /** Only the two decisions write rejections and acceptances, and they write them in full. */
  predicate WellWritten(events: seq<Event>)
  {
    forall k | 0 <= k < |events| ::
      && (events[k].kind == CANDIDATE_REJECTED ==>
            events[k].payload.Dict? && events[k].payload.candidate.Some? && Canonical(events[k].payload.candidate.value))
      && (events[k].kind == RUN_ACCEPTED ==>
            && events[k].payload.Dict? && events[k].payload.candidate.Some?
            && Canonical(events[k].payload.candidate.value)
            && events[k] == AcceptanceOf(events[k].payload.candidate.value))
  }

  lemma ApplyKeepsDecided(log: Log, op: Op)
    requires Decided(log.events) && WellWritten(log.events)
    ensures Decided(Apply(log, op).events) && WellWritten(Apply(log, op).events) && Extends(log, Apply(log, op))
  {
    if op.Accept? && Current(log.attempts).Some? {
      var sha := Current(log.attempts).value.commit.value;
      hide Canonical, Current;
      if FindRejection(log.events, sha).None? {
        forall i | 0 <= i < |log.events| && log.events[i].kind == CANDIDATE_REJECTED
          ensures log.events[i].payload.candidate != Some(sha)
        {
          assert !Rejects(log.events[i], sha);
        }
      }
    } else if op.Reject? && RejectRefusal(log).None? {
      var sha := Project(log, None).candidate.value;
      assert Canonical(sha);
      hide Canonical, Current, Project, RejectRefusal;
      forall i | 0 <= i < |log.events| && Rejects(log.events[i], sha) ensures AlreadyRejected(log.events, sha) {}
    }
  }

  /** Whatever evidence, rejections and acceptances come in whatever order, each candidate has
      at most one rejection event and none of them is ever accepted after it. */
  lemma {:induction false} RunIsDecided(base: string, ops: seq<Op>)
    ensures Decided(Run(base, ops).events) && WellWritten(Run(base, ops).events)
  {
    hide Apply, Decided, WellWritten;
    if ops == [] {
      NothingDecided();
    } else {
      RunIsDecided(base, ops[..|ops| - 1]);
      ApplyKeepsDecided(Run(base, ops[..|ops| - 1]), ops[|ops| - 1]);
    }
  }

  lemma NothingDecided()
    ensures Decided([]) && WellWritten([])
  {
  }

  lemma {:induction false} RunExtends(base: string, ops: seq<Op>, more: seq<Op>)
    ensures Extends(Run(base, ops), Run(base, ops + more))
    decreases |more|
  {
    hide Apply, Decided, WellWritten;
    if more == [] {
      assert ops + more == ops;
    } else {
      var last := |more| - 1;
      assert (ops + more)[..|ops + more| - 1] == ops + more[..last];
      RunExtends(base, ops, more[..last]);
      RunIsDecided(base, ops + more[..last]);
      ApplyKeepsDecided(Run(base, ops + more[..last]), more[last]);
    }
  }

  /** So once a candidate is projected REJECTED, no later sequence of decisions and evidence ever
      projects it, while current and gate-proven, as anything but REJECTED. */
  lemma RejectionIsFinal(base: string, ops: seq<Op>, more: seq<Op>, head: Option<string>, head': Option<string>)
    requires Project(Run(base, ops), head).state == Some(REJECTED)
    requires Proven(Run(base, ops + more)) == Project(Run(base, ops), head).candidate
    ensures Project(Run(base, ops + more), head').state == Some(REJECTED)
  {
    var log, log' := Run(base, ops), Run(base, ops + more);
    RunExtends(base, ops, more);
    RunIsDecided(base, ops + more);
    RejectedStays(log, log', head, head');
    RejectedIff(log, head);
    hide Run, Project, Proven, Current;
    var sha := Proven(log').value;
    NeverAcceptedAfter(log.events, log'.events, sha);
  }

  lemma {:induction false} NeverAcceptedAfter(events: seq<Event>, events': seq<Event>, sha: string)
    requires events <= events' && Decided(events') && WellWritten(events')
    requires AlreadyRejected(events, sha) && !AcceptedFor(events, sha)
    ensures !AcceptedFor(events', sha)
    decreases |events'|
  {
    if |events'| == |events| {
      assert events' == events;
    } else {
      var last := |events'| - 1;
      var i :| 0 <= i < |events| && Rejects(events[i], sha);
      assert events'[i] == events[i];
      if events'[last].kind != RUN_ACCEPTED { NeverAcceptedAfter(events, events'[..last], sha); }
    }
  }

  lemma {:induction false} LatestIsAmongThem(events: seq<Event>)
    ensures var last := LatestAccepted(events);
            last.Some? ==> exists k :: 0 <= k < |events| && events[k].kind == RUN_ACCEPTED && events[k].payload == last.value
  {
    if events != [] {
      var k := |events| - 1;
      if events[k].kind == RUN_ACCEPTED && events[k].payload.Dict? {
        assert events[k].payload == LatestAccepted(events).value;
      } else {
        LatestIsAmongThem(events[..k]);
      }
    }
  }

  /** The verifier's rule for a SHA is wider than the rejection rule, by a final newline, and
      would honour an event naming such a candidate.  But no run of decisions and evidence
      writes one, because the swap applies the narrower rule: whatever is projected ACCEPTED
      could have been rejected. */
  lemma AcceptedIsCanonical(base: string, ops: seq<Op>, head: Option<string>)
    ensures var log := Run(base, ops);
            && (Project(log, head).state == Some(ACCEPTED) ==> Canonical(Project(log, head).candidate.value))
            && forall sha | CanonicalLine(sha) && !Canonical(sha) ::
                 !AcceptedFor(log.events, sha) && AcceptedFor(log.events + [AcceptanceOf(sha)], sha)
  {
    var log := Run(base, ops);
    RunIsDecided(base, ops);
    LatestIsAmongThem(log.events);
    forall sha | CanonicalLine(sha) && !Canonical(sha)
      ensures !AcceptedFor(log.events, sha) && AcceptedFor(log.events + [AcceptanceOf(sha)], sha)
    {
      LatestAcceptedAfter(log.events, AcceptanceOf(sha));
    }
  }
}
