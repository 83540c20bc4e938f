/**
 The two decisions on a candidate when several processes decide at once: each looks at the
 evidence first and records its event later (accept_run in src/saberops/accept.py, which runs the gate
 in between, and reject_current_candidate in src/saberops/candidate_lifecycle.py).
 */
module InterleavedDecisions {
  import opened CandidateLifecycle
  import opened Sha
  import opened Wrappers

  /** The evidence, and the candidates of the acceptances and rejections that have passed their
      checks and not recorded anything yet. */
  datatype World = World(log: Log, accepting: seq<string>, rejecting: seq<string>)

  /** A decision that is given up is one that is never finished. */
  datatype Move =
    | AtOnce(op: Op)
    | StartAccept | FinishAccept(k: nat)
    | StartReject | FinishReject(k: nat)

  function Without(s: seq<string>, k: nat): seq<string>
    requires k < |s|
  {
    s[..k] + s[k + 1..]
  }

  function Record(log: Log, e: Event): Log { log.(events := log.events + [e]) }

  function Do(w: World, m: Move): World
  {
    match m
    case AtOnce(op) => w.(log := Apply(w.log, op))
    case StartAccept =>
      (match Current(w.log.attempts)
       case None => w
       case Some(a) =>
         var sha := a.commit.value;
         if FindRejection(w.log.events, sha).Some? || !Canonical(sha) then w
         else w.(accepting := w.accepting + [sha]))
    case FinishAccept(k) =>
      if k >= |w.accepting| then w
      else World(Record(w.log, AcceptanceOf(w.accepting[k])), Without(w.accepting, k), w.rejecting)
    case StartReject =>
      if RejectRefusal(w.log).Some? then w else w.(rejecting := w.rejecting + [Project(w.log, None).candidate.value])
    case FinishReject(k) =>
      if k >= |w.rejecting| then w
      else
        var sha := w.rejecting[k];
        World(if AlreadyRejected(w.log.events, sha) then w.log else Record(w.log, RejectionOf(sha)),
              w.accepting, Without(w.rejecting, k))
  }

  function RunAll(base: string, moves: seq<Move>): World
  {
    if moves == [] then World(Log(base, [], [], [], [], []), [], [])
    else Do(RunAll(base, moves[..|moves| - 1]), moves[|moves| - 1])
  }

  /** An acceptance is recorded although its candidate was rejected since it started. */
  predicate Overtakes(w: World, m: Move)
  {
    m.FinishAccept? && m.k < |w.accepting| && AlreadyRejected(w.log.events, w.accepting[m.k])
  }

  predicate AllCanonical(shas: seq<string>)
  {
    forall k | 0 <= k < |shas| :: Canonical(shas[k])
  }

  predicate Sound(w: World)
  {
    WellWritten(w.log.events) && AllCanonical(w.accepting) && AllCanonical(w.rejecting)
  }

  // ----- One move -----

  lemma RejectsOnlyIts(events: seq<Event>, sha: string)
    requires Decided(events) && WellWritten(events) && Canonical(sha) && !AlreadyRejected(events, sha)
    ensures Decided(events + [RejectionOf(sha)])
  {
    hide Canonical;
    forall i | 0 <= i < |events| && events[i].kind == CANDIDATE_REJECTED
      ensures events[i].payload.Dict? && events[i].payload.candidate != Some(sha)
    {
      assert !Rejects(events[i], sha);
    }
  }

  lemma WritesWell(events: seq<Event>, sha: string)
    requires WellWritten(events) && Canonical(sha)
    ensures WellWritten(events + [RejectionOf(sha)]) && WellWritten(events + [AcceptanceOf(sha)])
  {
    hide Canonical;
  }

  lemma AcceptsIff(events: seq<Event>, sha: string)
    requires Decided(events) && WellWritten(events)
    ensures Decided(events + [AcceptanceOf(sha)]) <==> !AlreadyRejected(events, sha)
  {
    var now := events + [AcceptanceOf(sha)];
    if AlreadyRejected(events, sha) {
      var k :| 0 <= k < |events| && Rejects(events[k], sha);
      assert now[k] == events[k] && now[|events|] == AcceptanceOf(sha);
    } else {
      forall i | 0 <= i < |events| && events[i].kind == CANDIDATE_REJECTED
        ensures events[i].payload.Dict? && events[i].payload.candidate != Some(sha)
      {
        assert !Rejects(events[i], sha);
      }
    }
  }

  lemma EarlierDecided(before: seq<Event>, after: seq<Event>)
    requires before <= after && Decided(after)
    ensures Decided(before)
  {
    forall i | 0 <= i < |before| ensures before[i] == after[i] {}
  }

  lemma KeepsSound(w: World, m: Move)
    requires Sound(w)
    ensures Sound(Do(w, m)) && Extends(w.log, Do(w, m).log)
  {
    match m
    case AtOnce(op) => ApplyKeepsWritten(w.log, op);
    case StartAccept =>
    case FinishAccept(k) => if k < |w.accepting| { WritesWell(w.log.events, w.accepting[k]); }
    case StartReject =>
    case FinishReject(k) => if k < |w.rejecting| { WritesWell(w.log.events, w.rejecting[k]); }
  }

  lemma ApplyKeepsWritten(log: Log, op: Op)
    requires WellWritten(log.events)
    ensures WellWritten(Apply(log, op).events) && Extends(log, Apply(log, op))
  {
    hide Canonical;
  }

  lemma OneMove(w: World, m: Move)
    requires Sound(w) && Decided(w.log.events)
    ensures Decided(Do(w, m).log.events) <==> !Overtakes(w, m)
  {
    match m
    case AtOnce(op) => ApplyKeepsDecided(w.log, op);
    case StartAccept =>
    case FinishAccept(k) => if k < |w.accepting| { AcceptsIff(w.log.events, w.accepting[k]); }
    case StartReject =>
    case FinishReject(k) =>
      if k < |w.rejecting| && !AlreadyRejected(w.log.events, w.rejecting[k]) {
        RejectsOnlyIts(w.log.events, w.rejecting[k]);
      }
  }

  // ----- Whole runs -----

  lemma {:induction false} RunIsSound(base: string, moves: seq<Move>)
    ensures Sound(RunAll(base, moves))
  {
    hide Sound, Do;
    if moves == [] {
      NothingIsSound(base);
    } else {
      RunIsSound(base, moves[..|moves| - 1]);
      KeepsSound(RunAll(base, moves[..|moves| - 1]), moves[|moves| - 1]);
    }
  }

  lemma NothingIsSound(base: string)
    ensures Sound(RunAll(base, [])) && Decided(RunAll(base, []).log.events)
  {
  }

  predicate NoneOvertakes(base: string, moves: seq<Move>)
  {
    moves == []
    || var last := |moves| - 1;
       NoneOvertakes(base, moves[..last]) && !Overtakes(RunAll(base, moves[..last]), moves[last])
  }

  /** However the decisions interleave, each candidate has at most one rejection event and none
      is accepted after it, exactly when no acceptance is recorded whose candidate was
      rejected while it was under way. */
  lemma {:induction false} DecidedIff(base: string, moves: seq<Move>)
    ensures Decided(RunAll(base, moves).log.events) <==> NoneOvertakes(base, moves)
  {
    hide Sound, Do, Overtakes, Decided;
    NothingIsSound(base);
    if moves != [] {
      var last := |moves| - 1;
      var w := RunAll(base, moves[..last]);
      DecidedIff(base, moves[..last]);
      RunIsSound(base, moves[..last]);
      KeepsSound(w, moves[last]);
      if Decided(w.log.events) {
        OneMove(w, moves[last]);
      } else if Decided(RunAll(base, moves).log.events) {
        EarlierDecided(w.log.events, RunAll(base, moves).log.events);
      }
    }
  }

  /** The candidate a move records an acceptance of. */
  function AcceptedBy(w: World, m: Move): Option<string>
  {
    match m
    case FinishAccept(k) => if k < |w.accepting| then Some(w.accepting[k]) else None
    case AtOnce(Accept(permitted)) =>
      (match Current(w.log.attempts)
       case None => None
       case Some(a) => if AcceptedLog(w.log, permitted) == w.log then None else a.commit)
    case _ => None
  }

  /** The last candidate accepted by the moves after the first ones. */
  function LastAccepted(base: string, moves: seq<Move>, more: seq<Move>): Option<string>
  {
    if more == [] then None
    else
      var last := |more| - 1;
      var sha := AcceptedBy(RunAll(base, moves + more[..last]), more[last]);
      if sha.Some? then sha else LastAccepted(base, moves, more[..last])
  }

  lemma LatestAfter(w: World, m: Move)
    ensures LatestAccepted(Do(w, m).log.events)
            == match AcceptedBy(w, m)
               case Some(sha) => Some(AcceptanceOf(sha).payload)
               case None => LatestAccepted(w.log.events)
  {
    hide Canonical, Current, Project, RejectRefusal, FindRejection, AlreadyRejected;
    forall e ensures LatestAccepted(w.log.events + [e]) == if e.kind == RUN_ACCEPTED && e.payload.Dict?
                                                           then Some(e.payload) else LatestAccepted(w.log.events)
    {
      LatestAcceptedAfter(w.log.events, e);
    }
    hide LatestAccepted;
    if m.AtOnce? && m.op.Accept? && AcceptedLog(w.log, m.op.permitted) != w.log {
      assert Current(w.log.attempts).Some?;
    }
  }

  lemma {:induction false} RunAllExtends(base: string, moves: seq<Move>, more: seq<Move>)
    ensures Extends(RunAll(base, moves).log, RunAll(base, moves + more).log)
    ensures LatestAccepted(RunAll(base, moves + more).log.events)
            == match LastAccepted(base, moves, more)
               case Some(sha) => Some(AcceptanceOf(sha).payload)
               case None => LatestAccepted(RunAll(base, moves).log.events)
    decreases |more|
  {
    hide Do, Sound, LatestAccepted, AcceptedBy;
    if more == [] {
      assert moves + more == moves;
    } else {
      var last := |more| - 1;
      var w := RunAll(base, moves + more[..last]);
      assert (moves + more)[..|moves + more| - 1] == moves + more[..last];
      RunAllExtends(base, moves, more[..last]);
      RunIsSound(base, moves + more[..last]);
      KeepsSound(w, more[last]);
      LatestAfter(w, more[last]);
    }
  }

  /** Once a candidate is projected REJECTED, then after any further moves, while it is current
      and gate-proven, it is projected REJECTED, except when the last acceptance recorded
      since is its own: then it is projected ACCEPTED. */
  lemma RejectionStandsIff(base: string, moves: seq<Move>, more: seq<Move>, head: Option<string>, head': Option<string>)
    requires Project(RunAll(base, moves).log, head).state == Some(REJECTED)
    requires Proven(RunAll(base, moves + more).log) == Project(RunAll(base, moves).log, head).candidate
    ensures Project(RunAll(base, moves + more).log, head').state
            == Some(if LastAccepted(base, moves, more) == Proven(RunAll(base, moves + more).log) then ACCEPTED
                    else REJECTED)
  {
    var log, log' := RunAll(base, moves).log, RunAll(base, moves + more).log;
    hide RunAll, LastAccepted;
    RunAllExtends(base, moves, more);
    RejectedIff(log, head);
    RejectedStays(log, log', head, head');
    CanonicalIsLine(Proven(log').value);
    hide Project, Current, Canonical, CanonicalLine, LatestAccepted;
  }

  lemma CanonicalIsLine(sha: string)
    requires Canonical(sha)
    ensures CanonicalLine(sha)
  {
  }

  /** And that needs an acceptance that was under way when the candidate was rejected. */
  lemma {:induction false} OnlyOvertaking(base: string, moves: seq<Move>, more: seq<Move>)
    requires LastAccepted(base, moves, more).Some?
    requires AlreadyRejected(RunAll(base, moves).log.events, LastAccepted(base, moves, more).value)
    ensures exists i :: 0 <= i < |more| && Overtakes(RunAll(base, moves + more[..i]), more[i])
    decreases |more|
  {
    var last := |more| - 1;
    var w := RunAll(base, moves + more[..last]);
    var sha := LastAccepted(base, moves, more).value;
    if AcceptedBy(w, more[last]).Some? {
      RunAllExtends(base, moves, more[..last]);
      StaysRejected(RunAll(base, moves).log.events, w.log.events, sha);
      hide RunAll, LastAccepted;
      AcceptsRejected(w, more[last]);
    } else {
      OnlyOvertaking(base, moves, more[..last]);
      var i :| 0 <= i < last && Overtakes(RunAll(base, moves + more[..last][..i]), more[..last][i]);
      assert more[..last][..i] == more[..i];
    }
  }

  lemma StaysRejected(before: seq<Event>, after: seq<Event>, sha: string)
    requires before <= after && AlreadyRejected(before, sha)
    ensures AlreadyRejected(after, sha)
  {
    var k :| 0 <= k < |before| && Rejects(before[k], sha);
    assert after[k] == before[k];
  }

  lemma AcceptsRejected(w: World, m: Move)
    requires AcceptedBy(w, m).Some? && AlreadyRejected(w.log.events, AcceptedBy(w, m).value)
    ensures Overtakes(w, m)
  {
    hide Canonical, Current, Project;
  }

  /** That does happen: a rejection recorded while the gate of an acceptance runs goes through,
      and is outranked when the acceptance is recorded. */
  lemma RejectedDuringTheGate(w: World, head: Option<string>)
    requires RejectRefusal(w.log).None? && FindRejection(w.log.events, Project(w.log, None).candidate.value).None?
    ensures var started := Do(w, StartAccept);
            var rejected := Do(started, AtOnce(Reject));
            var accepted := Do(rejected, FinishAccept(|w.accepting|));
            && Project(rejected.log, head).state == Some(REJECTED)
            && Project(accepted.log, head).state == Some(ACCEPTED)
            && Overtakes(rejected, FinishAccept(|w.accepting|))
  {
    var sha := Project(w.log, None).candidate.value;
    var started := Do(w, StartAccept);
    var rejected := Do(started, AtOnce(Reject));
    CanonicalIsLine(sha);
    RejectingRejects(w.log);
    RejectedIff(rejected.log, None);
    RejectedIff(rejected.log, head);
    LatestAcceptedAfter(rejected.log.events, AcceptanceOf(sha));
    assert started.accepting[|w.accepting|] == sha;
  }
}
