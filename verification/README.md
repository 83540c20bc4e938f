# Verification of saberops' engine logic

A Dafny model of the deterministic core of saberops, the run engine that executes worker
attempts, gates their candidates and integrates them, and of the gate tooling around it. `dafny
verify dfyconfig.toml` checks everything. There are seven parts, one or more modules each:

* **Gate slots** (`GateSlots`, `GateLaw`, `SlotAcquire`). Full gates, `exclusive` commands
  and lane checks share lock files. `GateSlots` is the protocol as a state machine whose step
  is one lock attempt or one release of any process, so that every interleaving, every memory
  reading and every interruption is a run of it. `GateLaw` says what a whole undisturbed pass of a
  process comes to. `SlotAcquire` is the scan-and-retry loop of one process.
* **Accepting a candidate** (`AcceptEligibility`, `AcceptLaw`, `AcceptProtocol`). The
  preconditions, once as the read-only checklist and once as the engine asks them, over one
  snapshot; then the compare-and-swap, the gate and the rollback boundary on a repository
  that other writers may change before every single primitive, each of which may also fail.
* **Candidate lifecycle** (`CandidateLifecycle`, `CandidateLaw`, `InterleavedDecisions`). The
  projection of a run's evidence to READY, IN_REVIEW, REVIEWED, STALE, REJECTED or ACCEPTED,
  and the two decisions that write events, one after the other and interleaved.
* **Autonomous supervision** (`Supervisor`, `SupervisorLaw`). Whether and on which binding
  the next attempt is launched, against a failover engine, authority, registry, ladder and
  effort resolver that may answer differently at every decision.
* **Configuration ledger** (`ConfigLedger`, `ContentHash`, `ConfigDecisions`, `ConfigLaw`).
  Hash-identified entries linked by `supersedes`, for sequential and for racing writers, and
  the decisions recorded in them.
* **Test selection** (`ImportGraph`, `CoverageTargets`, `TargetsLaw`, `CoverageIndex`,
  `NodeLabels`, `LabelLaw`, `ZeroContextDiff`). The import-graph search, the sharded and
  interned coverage index from the raw relation to what selection reads back, and the two
  readers of `git diff -U0`.
* **Text and disk** (`DiffRows`, `Backlog`, `KeepFailed`). Numbered diff rows, the backlog
  file's printer, appender and backtracking parser, and the eviction of kept failed runs.

A module named `...Law` says what its part computes of the recorded state itself, without the
functions that compute it. `Wrappers`, `Text`, `Decimal`, `Lines`, `Sha`, `Sorting` and
`HunkHeader` hold what several parts use.

Assumptions. The hash of a ledger entry is an injective function; numbers being what JSON can
write, integers and binary fractions, there are such functions
(`ContentHash.InjectiveHashesExist`). A supervised attempt ends FAILED, TIMEOUT or SUCCESS, the
failover engine speaks about the last attempt, decisions are persisted, and dispatch evidence
names the binding that was decided. The checked-out branch does not change while a candidate is
being accepted. A list that a database query orders comes in that order.

Findings. These are proved, not only remarked:

* The ATTEMPT_BUDGET_EXHAUSTED branch of the supervisor is unreachable
  (`Supervisor.AttemptBudgetBranchIsDead`), and the bound on a run uses each budget or zero,
  whichever is larger.
* A lane whose heavy count is no larger than the index of the slot a gate holds gets past
  that gate's observer (`GateSlots.ObserverBlockedExactly`); mutual exclusion does not depend
  on it.
* `ConfigLedger.append` does not check that its target is still a head, so two writers that
  read the same tip fork the kind for good (`ConfigLedger.RacingWritersForkForever`).
* Because the two readings of the ledger file inside `tip_for` are not one, a kind that is
  one chain looks forked exactly when it gets an entry between them although it had one, or
  gets more than one (`ConfigDecisions.TipAcrossAppends`).
* Acceptance asks for rejections before its gate and records itself after it. A rejection
  recorded in between goes through and is then outranked
  (`InterleavedDecisions.RejectedDuringTheGate`); nothing else makes a candidate accepted
  after its rejection (`InterleavedDecisions.DecidedIff`).
* The acceptance verifier's SHA pattern also matches a SHA and a final newline, which the
  rejection rule does not, although the documentation calls them the same rule. Acceptance
  itself never writes such a name, because its swap refuses it
  (`CandidateLifecycle.AcceptedIsCanonical`).
* A malformed frozen validation policy makes the eligibility projection raise where the
  engine refuses on the review (`AcceptEligibility.SameVerdict`).
* Three windows leave the candidate installed without a rollback: a failure between the
  engine's compare-and-swap and its HEAD check, a failure to read the validation policy after
  it, which the code does outside any handler, and a failure to record the outcome at the
  end. Which faults lead to the results SyncFailed, PolicyUnread and RecordFailed is stated
  exactly by `AcceptProtocol.TargetRepository.Integrate`.
* A parametrized test, in classes or not, whose parameters contain `::` is matched with the
  wrong label (`NodeLabels.SiblingsShareTheLabel`).
* The -U0 readers miss lines after a removed line that begins `-- ` or an added one that
  begins `++ ` (`ZeroContextDiff.UntornDiffIff`, `ZeroContextDiff.UntornHunk`), and find
  lines nobody touched when `splitlines` cuts a line at a form feed into pieces that read as
  a removed line or a hunk header (`ZeroContextDiff.TornAddedLine`,
  `ZeroContextDiff.TornIntoHeader`). Exactly when they are right is
  `ZeroContextDiff.NewLinesIff` and `ZeroContextDiff.RemovedLinesIff`.
* The numbered diff rows replay to the new file exactly when no line shown contains a
  boundary that only `splitlines` knows (`DiffRows.RowsReplayTheDiff`).
* A backlog field swallows what follows it when it is empty, and ends early where one of its
  own lines starts the next bullet or, in the remedy, the next section. Apart from that,
  white space around a field and negative review numbers, entries come back, fields of many
  lines included (`Backlog.BacklogRoundTripIff`).

## Model

| member | source | states |
|---|---|---|
| `GateSlots.ResolveSlotCounts` | scripts/gate_tools.py:223-254 | whatever the environment and the host's memory say, a process that goes on to take slots has at least one heavy slot and a light count inside the range a full gate drains |
| `GateSlots.ResolveIff` | scripts/gate_tools.py:125-254 | and exactly these counts: the numbers it was told, light slots up to eight; untold, the most light slots with a GiB each above two and two cores each, at least one and at most eight, and a second heavy slot exactly on 12 cores and 32 GiB with 8 available |
| `GateLaw.AdmissibleIff` | scripts/gate_tools.py:223-254 | the counts the protocol is proved for are exactly those a process can be given |
| `GateSlots.ApplyKeepsInv` | scripts/gate_tools.py:457-549 | every step and every interruption of any process keeps the relation between each process's point and the locks it owns |
| `GateSlots.MutualExclusion` | scripts/gate_tools.py:457-549 | in every interleaving, with each process's own counts, nothing else is in its body while a full gate or exclusive command is: no lane, and no second gate even when several hold heavy slots |
| `GateSlots.WaitersHoldNoPartialSet` | scripts/gate_tools.py:470-535 | in every reachable state a waiter between scans holds no part of the set it waits for, and a lane waiting for a light slot holds no heavy one |
| `GateSlots.EveryWaiterCanReachItsBody` | scripts/gate_tools.py:1196-1234 | no deadlock: from every reachable state each waiter has a schedule, interrupting nobody, that ends in its body |
| `GateSlots.DrainNeverGrows` | scripts/gate_tools.py:1173-1234 | while a gate holds a heavy slot the lanes it must wait for only become fewer; with equal heavy counts these are all the lanes |
| `GateSlots.ObserverBlockedExactly` | scripts/gate_tools.py:1215-1224 | a lane gets past a gate holding heavy slot j exactly when it counts j heavy slots or fewer |
| `GateLaw.AnySlotPass` | scripts/gate_tools.py:494-518 | undisturbed, a gate's pass over the heavy slots, or a lane's over the light ones, takes exactly the first free one it counts, and with none free changes nothing and starts over |
| `GateLaw.ObservePass` | scripts/gate_tools.py:494-518 | a lane's pass over the heavy slots goes on exactly if every one it counts is free, and holds none afterwards either way |
| `GateLaw.DrainPass` | scripts/gate_tools.py:478-518 | a gate's pass over the light slots ends in its body holding exactly nine more when all nine are free, and otherwise gives back what it took and starts over |
| `GateLaw.LeavingPass` | scripts/gate_tools.py:543-549 | leaving its body a process gives back exactly what it holds |
| `SlotAcquire.LockFiles.Scan` | scripts/gate_tools.py:494-502 | one pass takes exactly the locks that are free when their turn comes, in index order, and in the any-slot mode exactly the first of them, against others that lock and unlock at will |
| `SlotAcquire.LockFiles.Enter` | scripts/gate_tools.py:457-549 | entering ends with exactly the slots the mode asks for, or, refused or timed out, with none; no wait between scans is made holding anything; a timeout takes every scan, and with no competitor the first scan succeeds |
| `SlotAcquire.GateAndLaneCollide` | scripts/gate_tools.py:478-481 | the set a draining gate holds meets the slot of every lane whose count is within the ceiling, whatever counts the two computed |
| `AcceptProtocol.TargetRepository.CompareAndSwap` | src/saberops/git.py:672-697 | an unsafe ref or a name that is no SHA is refused before anything happens; otherwise the ref is replaced only while it has the expected value, by the target; undisturbed, whenever it has |
| `AcceptProtocol.SwappableIff` | src/saberops/git.py:672-687 | a swap is tried exactly on HEAD or a branch whose name holds no `..`, no `@{` and no control, white-space or pattern character, between two full lower-case hexadecimal SHAs |
| `AcceptProtocol.TargetRepository.SyncIndexWorktree` | src/saberops/git.py:1013-1035 | synchronising the index and worktree writes no ref, whatever others do meanwhile |
| `AcceptProtocol.TargetRepository.RollbackToBase` | src/saberops/accept.py:573-646 | one swap from the installed candidate to the base is tried, nothing else is written to the ref, and success means it was made |
| `AcceptProtocol.TargetRepository.ExecuteGatePhase` | src/saberops/accept.py:648-741 | a receipt comes out exactly when it could be recorded and says exit 0, no timeout, launch, termination or evidence failure, and the candidate checked out and clean; every other outcome is a failure with the one classification that fits runner, receipt and recording; the ref is not written |
| `AcceptProtocol.TargetRepository.FailClosedAfterCas` | src/saberops/accept.py:743-820 | for every failure, and however the recording of its evidence fares, exactly one rollback is tried and no run_accepted event is written |
| `AcceptProtocol.TargetRepository.GateAndRecord` | src/saberops/accept.py:1386-1439 | from the policy read on: with the gate enabled a verified receipt and no rollback, or exactly one rollback expecting the candidate and no run_accepted event; rolled back exactly when the gate does not pass, RecordFailed exactly when it does and recording faults |
| `AcceptProtocol.TargetRepository.Integrate` | src/saberops/accept.py:1340-1439 | the engine's ref writes are none, base to candidate, or that and candidate to base; a revision another writer puts on the ref, other than those two commits, is never replaced by the engine; run_accepted is written exactly on acceptance; nothing is gated, recorded or rolled back before HEAD was read as the candidate; and which faults, foreign moves, policy and gate verdict lead to each outcome, the unprotected windows SyncFailed, PolicyUnread and RecordFailed included, is an if-and-only-if |
| `AcceptProtocol.OthersSurvive` | src/saberops/accept.py:1321-1358 | whatever history an acceptance finds, a revision another writer puts on the ref during it, other than the base and the candidate themselves, is never overwritten by the engine |
| `AcceptEligibility.CheckAcceptEligibility` | src/saberops/accept.py:822-1160 | the checklist lists, in order and as passed, exactly the preconditions before the first that does not hold, and that one as failed; eligible when there is none; it raises exactly when the first is the validation policy |
| `AcceptEligibility.AcceptPreconditions` | src/saberops/accept.py:1162-1313 | the engine reaches its compare-and-swap, with the final candidate, exactly when every precondition holds, and otherwise refuses on the first that does not |
| `AcceptEligibility.SameVerdict` | src/saberops/accept.py:822-1342 | on one snapshot projection and engine agree on the first blocker, except that where the projection raises on a malformed policy the engine refuses on the review; with a usable evidence directory, eligible means the swap is reached |
| `AcceptEligibility.ShowThenAccept` | src/saberops/accept.py:822-1342 | asked one after the other with nothing changed: the swap is reached exactly when the checklist says eligible and the evidence directory is usable, and otherwise the engine refuses on what was shown to fail |
| `AcceptLaw.RequiredIff` | src/saberops/accept.py:208-284 | whether a review is required can be told exactly when the policy's two switches read and reviews are off, a decision is valid, or the older switch reads; none is required exactly when reviews are off, a valid decision that is not the owner's does not require one, or nothing was decided and the older switch is absent or false |
| `AcceptLaw.PolicyIff` | src/saberops/accept.py:286-300 | the policy raises exactly on a config that is no object or a switch that is no boolean; the gate is off exactly on an explicit false |
| `AcceptLaw.ScratchIff` | src/saberops/accept.py:327-387 | the scratch mode is absent or one of three names with white space around it, and is the one named |
| `AcceptLaw.EligibleIff` | src/saberops/accept.py:822-1313 | all preconditions but the evidence directory hold exactly for a completed run without a parent, a candidate proven by the gate and not rejected, a clean repository at the base, an agreeing candidate ref, a readable policy, an approving review or none needed, a fast-forward and a readable scratch mode |
| `AcceptLaw.Accept` | src/saberops/accept.py:822-1342 | the engine goes on to its swap exactly when that holds and the evidence directory is usable, without a review only if none is needed; the checklist says eligible exactly when it holds, and raises only on a policy that does not read |
| `CandidateLifecycle.FindMatchingRejection` | src/saberops/candidate_lifecycle.py:186-218 | the loop finds the latest canonical rejection of exactly this candidate, and none for a name that is not canonical |
| `CandidateLifecycle.LatestRunAccepted` | src/saberops/autonomous_runtime.py:1174-1190 | the loop finds the payload of the latest run_accepted event that has one |
| `CandidateLifecycle.RejectedIff` | src/saberops/candidate_lifecycle.py:452-492 | REJECTED is projected exactly for a gate-proven current candidate that a rejection names and no valid acceptance does, whatever head, dispatches and reviews say |
| `CandidateLifecycle.ForeignRejectionChangesNothing` | src/saberops/candidate_lifecycle.py:452-471 | the rejection of another candidate, or a malformed one, changes no projection |
| `CandidateLifecycle.ForeignDispatchChangesNothing` | src/saberops/candidate_lifecycle.py:517-557 | a review dispatch bound to another candidate changes no projection |
| `CandidateLifecycle.RejectedStays` | src/saberops/candidate_lifecycle.py:425-492 | once REJECTED, no head movement, review or other evidence changes that while the candidate is current and gate-proven; only a latest valid run_accepted for it projects ACCEPTED |
| `CandidateLifecycle.RejectionIsFinal` | src/saberops/accept.py:1206-1215 | over every sequence of evidence, rejections and sequential acceptances, a candidate once projected REJECTED is never projected otherwise while current and gate-proven |
| `CandidateLifecycle.RunIsDecided` | src/saberops/db.py:3354-3400 | over every such sequence each candidate has at most one rejection event and is never accepted after it |
| `CandidateLifecycle.RunStore.RecordRejectionOnce` | src/saberops/db.py:3354-3400 | one event is appended exactly when none names the candidate |
| `CandidateLifecycle.RunStore.RejectCurrentCandidate` | src/saberops/candidate_lifecycle.py:239-292 | a decision that is not refused leaves the candidate projected REJECTED; a refused one changes nothing |
| `CandidateLifecycle.RunStore.AcceptRun` | src/saberops/accept.py:1177-1215 | acceptance of a rejected candidate is refused without an event |
| `CandidateLifecycle.AcceptedIsCanonical` | src/saberops/git.py:136-143 | the verifier would honour an event naming a SHA with a final newline, but no sequence of decisions and evidence writes one: whatever is projected ACCEPTED is a canonical SHA |
| `CandidateLaw.ProjectIff` | src/saberops/candidate_lifecycle.py:360-567 | every projection, over any log and head: the candidate is the commit of the last SUCCESS attempt with one; READY, IN_REVIEW, REVIEWED with the verdict of the last substantive review bound to it, STALE, REJECTED and ACCEPTED are each projected exactly on the evidence that calls for them, in that order of precedence from the last |
| `CandidateLaw.ApplyIff` | src/saberops/candidate_lifecycle.py:239-292 | a rejection adds one event, naming the candidate, exactly when the candidate is gate-proven, not accepted, a full SHA and not rejected yet, and an acceptance one exactly when nothing else forbids it and the candidate is a full SHA and not rejected; no operation adds anything else |
| `InterleavedDecisions.DecidedIff` | src/saberops/accept.py:1200-1439 | over every interleaving of started and finished acceptances and rejections with any other evidence, each candidate has at most one rejection event and is never accepted after it if and only if no acceptance is recorded whose candidate was rejected while it was under way |
| `InterleavedDecisions.RejectionStandsIff` | src/saberops/accept.py:1206-1439 | over every such interleaving a candidate once projected REJECTED is, while current and gate-proven, projected ACCEPTED exactly when the last acceptance recorded since is its own, and REJECTED otherwise |
| `InterleavedDecisions.OnlyOvertaking` | src/saberops/accept.py:1206-1439 | and such an acceptance was under way when the candidate was rejected |
| `InterleavedDecisions.RejectedDuringTheGate` | src/saberops/accept.py:1206-1439 | from every state in which the candidate can be rejected and accepted, a rejection recorded between the start and the end of an acceptance projects REJECTED and is then outranked by ACCEPTED |
| `Supervisor.CountTrailingRun` | src/saberops/autonomous_runtime.py:914-935 | the loop counts the attempts of the last same-binding stretch |
| `Supervisor.LaunchesAreAuthorized` | src/saberops/autonomous_runtime.py:623-815 | every launch names a registered WORKER binding whose provider and model are on the ladder, at its resolved effort; same-binding launches keep the source binding, failovers never do; the required base is the source attempt's own |
| `Supervisor.AttemptBudgetBranchIsDead` | src/saberops/autonomous_runtime.py:936-945 | no state and no verdict reaches ATTEMPT_BUDGET_EXHAUSTED |
| `Supervisor.LaunchKeepsCounted` | src/saberops/autonomous_runtime.py:549-557 | each launch keeps the count: every stretch within its limit, every stretch but the first paid for by a failover |
| `Supervisor.RunIsBounded` | src/saberops/autonomous_runtime.py:676-815 | whatever the oracles answer, a run launches at most (max_failovers + 1) times (max_no_progress + 1) attempts |
| `Supervisor.BoundIsReached` | src/saberops/autonomous_runtime.py:676-815 | for every budget some run launches exactly that many, so no smaller bound holds |
| `SupervisorLaw.DecideIff` | src/saberops/autonomous_runtime.py:559-830 | every decision over any state and answers, each stop with its reason and each launch with its whole target, is made exactly when the attempts and the environment call for it: a first dispatch on the first rung, a retry on the last binding, a failover on the first candidate of the ladder that qualifies |
| `SupervisorLaw.LaunchesNeedLeave` | src/saberops/autonomous_runtime.py:623-775 | a launch needs leave to start, no success and a ladder; after an attempt that ended also leave to retry, a last ended attempt whose evidence is certain, and an engine that asks for another |
| `ConfigLedger.BuiltLedgers` | src/saberops/config.py:949-985 | in every ledger built by appends `supersedes` points strictly backwards within a kind, and a kind with entries has exactly one root and at least one head |
| `ConfigLedger.HeadCountAfter` | src/saberops/config.py:949-985 | an append adds a head exactly when it starts a kind or its target is no longer a head, and never loses one |
| `ConfigLedger.HeadCountNeverFalls` | src/saberops/config.py:949-985 | over any appends a kind's head count never decreases |
| `ConfigLedger.RacingWritersForkForever` | src/saberops/config.py:940-985 | two appends against the same earlier-read tip, with any appends by others before, between and after them, both go through and leave two heads or more in every later state |
| `ConfigLedger.RacingFirstWriters` | src/saberops/config.py:949-985 | of two writers that both read an empty kind the second is refused, whatever came in between |
| `ConfigLedger.OneHeadIffLinear` | src/saberops/config.py:940-948 | a kind has one head exactly when its entries form one chain in the order they were appended |
| `ContentHash.InjectiveHashesExist` | src/saberops/config.py:594-599 | bodies and values have an injective canonical text, so the assumption on hashes is one that hashes can meet |
| `ConfigDecisions.SettingsRoundTrip` | src/saberops/config.py:715-768 | valid settings written as a snapshot read back unchanged |
| `ConfigDecisions.ProposalsChangeWhatTheyList` | src/saberops/config.py:988-1025 | a proposal gives every field asked for the value asked for, keeps every other, and lists exactly those that then differ from the base |
| `ConfigDecisions.Ledger.TipFor` | src/saberops/config.py:940-948 | whatever is appended between its two readings, it answers with the one entry of the second reading that nothing in the first supersedes, none if there is none, and refuses several |
| `ConfigDecisions.TipAcrossAppends` | src/saberops/config.py:940-948 | a tip that is read is the tip at the second reading; one is read exactly when the heads at the first reading and the entries of the kind appended in between are at most one together; so a kind with one head at the second reading looks forked exactly when it got an entry although it had one, or more than one |
| `ConfigDecisions.Ledger.Append` | src/saberops/config.py:949-985 | an entry is appended exactly when its id is its hash and new and it starts a kind without entries or supersedes any entry of its kind, head or not; nothing else changes |
| `ConfigDecisions.Ledger.Record` | src/saberops/config.py:1028-1082 | each recording operation, read then append, has the effect of its specification |
| `ConfigDecisions.SequentialLedgerIsAMap` | src/saberops/config.py:1028-1148 | sequential decisions, approvals and cleanup decisions refine a map from kind to last recorded request, the kinds independent of each other |
| `ConfigDecisions.SequentialChainsAreLinear` | src/saberops/config.py:1054-1082 | under sequential callers every kind is one linear chain |
| `ConfigDecisions.CurrentSettingsAreTheLastApproved` | src/saberops/config.py:1151-1166 | when the `config` kind is written by approvals only, the current settings are the last approved, and they meet every ceiling |
| `ConfigLaw.FromDictIff` | src/saberops/config.py:621-768 | a snapshot is accepted exactly when it has the nine named settings and nothing else but its version 1, each a number of its type, and each within its ceiling; and then as those settings |
| `ConfigLaw.ProposableIff` | src/saberops/config.py:988-1025 | changes make a proposal exactly when they name settings only, give settings that are accepted and change at least one |
| `ConfigLaw.PerformIff` | src/saberops/config.py:940-1148 | on any ledger a recording operation comes to exactly this: refused for the request's own fault, for two heads of its chain or for an entry that is there already, and otherwise an entry whose kind, subject, value, rationale, approver, time and hash are the request's own, `config`, `cleanup:git` and `cleanup:storage` by name, superseding the one tip of that chain or starting it |
| `ConfigLaw.InForceIff` | src/saberops/config.py:1151-1166 | the settings in force are the defaults while `config` is empty, else what its one tip reads as if that hashes to what was approved; it fails exactly on two tips, settings that are not accepted, or another hash |
| `ConfigLaw.SequentialStep` | src/saberops/config.py:1028-1148 | under sequential callers a well-formed request always adds exactly its entry, and any other changes nothing |
| `ConfigLaw.ChainsRemember` | src/saberops/config.py:1028-1148 | after any requests each chain has one tip, recording the last well-formed request about it, or is empty when there was none |
| `ConfigLaw.CleanupChainsAreIndependent` | src/saberops/config.py:1108-1148 | the tip of `cleanup:git` is the last policy approved for git and that of `cleanup:storage` the last for storage, whatever comes in between |
| `ImportGraph.ShortestChain` | scripts/select_tests.py:1072-1088 | the search terminates with a minimum-length import path, or with nothing exactly when the goal is unreachable |
| `ImportGraph.DirectImportingTests` | scripts/select_tests.py:1145-1161 | exactly the tests with a direct import of the module are found |
| `ImportGraph.NearestChange` | scripts/select_tests.py:1730-1746 | a test is selected exactly when it reaches some changed module, for a reason no longer than any other |
| `ImportGraph.SelectStatic` | scripts/select_tests.py:1713-1747 | legacy selection is exactly the changed tests and the tests that reach a changed module |
| `ImportGraph.SelectDirect` | scripts/select_tests.py:1717-1728 | the depth-1 fallback is exactly the changed tests and the direct importers of changed source modules |
| `ImportGraph.DirectIsASubset` | scripts/select_tests.py:1717-1747 | the fallback selects no test that legacy selection would not |
| `CoverageTargets.NearestCovered` | scripts/select_tests.py:565-579 | the result is the covered line nearest to the changed one inside the innermost function around it, the lower on a tie, and nothing exactly when there is none |
| `CoverageTargets.NearestIsUnique` | scripts/select_tests.py:565-579 | that description has one answer |
| `CoverageTargets.TargetsForFile` | scripts/select_tests.py:1483-1515 | exactly the tests picked by some changed line are selected, each for the reason of its lowest line; executable code counts as touched, and uncovered executable lines are handed on, in exactly those cases |
| `TargetsLaw.Select` | scripts/select_tests.py:1483-1515 | said of the lines, spans and tests themselves: a changed line picks the tests that execute it or, not being code, those on the nearest line owned by a test in the shortest span around it, ties going to the earlier span and the lower line; a test is selected exactly when some changed line picks it, with the reason of the lowest |
| `NodeLabels.SiblingsShareTheLabel` | scripts/build_test_map.py:364-380 | for a test inside any number of classes, parameters do not change the label it is matched with exactly when they do not contain `::` |
| `LabelLaw.StemIff` | scripts/build_test_map.py:364-376 | the stem of any file name in any directory is what is before its last dot, if that has something on both sides, and the whole name otherwise |
| `LabelLaw.DottedIs` | scripts/build_test_map.py:364-377 | for a test in a file `stem.ext` of any directory, in any classes, with parameters free of `::` or none, the label is stem, classes and name joined by dots |
| `LabelLaw.LabelIff` | scripts/build_test_map.py:364-380 | a context belongs to such a test exactly when it is that label, or anything followed by a dot and that label |
| `CoverageIndex.GroupByLabel` | scripts/build_test_map.py:408-416 | each label's group is exactly the collected nodes it matches |
| `CoverageIndex.Intern` | scripts/build_test_map.py:417-422 | the node list is sorted, holds exactly the grouped nodes, and a label's positions are exactly its nodes' |
| `CoverageIndex.CollectLines` | scripts/build_test_map.py:441-449 | a line is present exactly when some context executed it, with exactly the positions of the labels of those contexts |
| `CoverageIndex.BuildIndex` | scripts/build_test_map.py:403-469 | nodes, per-file lists, shards and the covered files are exactly those of the coverage data |
| `CoverageIndex.CoverageMap.constructor` | scripts/select_tests.py:235-262 | a loaded map lists for each test file exactly its interned nodes |
| `CoverageIndex.CoverageMap.LinesFor` | scripts/select_tests.py:264-281 | the cached answer is always the one the shard gives |
| `CoverageIndex.IndexAgrees` | scripts/build_test_map.py:403-455 | read back, a node is on a line of a measured file exactly when some context that executed the line carries a label matching it; lines no test owns stay, with none; each line's nodes come sorted and once |
| `LabelLaw.BuildAndRead` | scripts/build_test_map.py:403-471 | built, written and read back, a line is there exactly when it was executed, and such a test is on it exactly when it was collected and a context ending in its label executed the line; each test file lists exactly its collected tests some context belongs to; with only such tests collected, the covered files are exactly those one of them ran in |
| `ZeroContextDiff.NewSideLines` | scripts/select_tests.py:382-406 | the loop computes what the line-by-line reading finds |
| `ZeroContextDiff.RemovedOldLines` | scripts/select_tests.py:419-448 | likewise for the removed side |
| `ZeroContextDiff.ReadDiff` | scripts/select_tests.py:382-448 | on the text of any -U0 diff, whatever its lines, names and headings contain and are cut into, either reader finds exactly the lines counted from the headers it believes |
| `ZeroContextDiff.ReadersFindTheHunks` | scripts/select_tests.py:382-448 | when no piece of a line reads as a second file name or hunk header, the new-side reader returns exactly the union of the path's new ranges, deletions anchored at max(start, 1), and the old-side reader that of the old ranges if and only if in each hunk as many pieces read as removed lines as lines were removed |
| `ZeroContextDiff.RemovedLinesIff` | scripts/select_tests.py:419-448 | over the text of every -U0 diff whose hunks of the path leave a line between them, cut lines included: the old-side reader is right exactly when what it counts from other headers is touched, it counts no more than the removed lines from a hunk's own, and what it counts too few is found from other headers |
| `ZeroContextDiff.NewLinesIff` | scripts/select_tests.py:382-406 | over the text of every -U0 diff whose hunks of the path leave a line between them, cut lines included: the new-side reader is right exactly when the foreign headers it believes name touched lines only, and name the lines of each hunk it misses, or that hunk only deletes at the top and another such hunk is not missed |
| `ZeroContextDiff.UntornHunk` | scripts/select_tests.py:382-448 | in a hunk no line of which is cut the removed lines are counted right exactly when none begins `-- `, and nothing reads as a file name or header exactly when no added line begins `++ ` |
| `ZeroContextDiff.UntornDiffIff` | scripts/select_tests.py:382-448 | over the text of every -U0 diff without a line boundary in a line and without an added line `++ `: the new-side reader is right, and the old-side reader is right if and only if no line removed from the path begins `-- ` |
| `ZeroContextDiff.TornAddedLine` | scripts/select_tests.py:424-448 | replacing line 1 by `b`, a form feed and `-c` makes the old-side reader find lines 1 and 2 |
| `ZeroContextDiff.TornIntoHeader` | scripts/select_tests.py:386-405 | and by `x`, a form feed and `@@ -1 +9 @@` makes the new-side reader find lines 1 and 9 |
| `HunkHeader.ReadShownHeader` | src/saberops/candidate_diff.py:276-282 | a printed hunk header is read back with its ranges, whatever heading follows |
| `DiffRows.ProjectRows` | src/saberops/candidate_diff.py:270-294 | the loop computes the rows of the block's lines |
| `DiffRows.RowsAreConsecutive` | src/saberops/candidate_diff.py:274-294 | for any text, one row per line in order, and within a hunk old numbers step by one over context and delete rows and new numbers over context and add rows |
| `DiffRows.RowsReplayTheDiff` | src/saberops/candidate_diff.py:267-297 | replaying the rows of a unified diff by their numbers alone turns the old file into exactly the new one if and only if no line shown contains a line boundary |
| `DiffRows.TornLines` | src/saberops/candidate_diff.py:274 | a block with a line containing any other line boundary does not get one row per line |
| `Lines.SplitLinesIff` | src/saberops/candidate_diff.py:274 | the lines of a text are the one way of cutting it at the ten boundary characters, a carriage return and newline being one boundary |
| `Backlog.BacklogFile.Append` | src/saberops/backlog.py:130-149 | the file gets the heading if new, a blank line, and the printed entries in order |
| `Backlog.ContentAfter` | src/saberops/backlog.py:130-149 | after any appends from no file, the file is the heading and all entries in order |
| `Backlog.SectionMatches` | src/saberops/backlog.py:22-60 | a printed entry whose fields hold no early end is one match of the section pattern, tried in a backtracking matcher's order, with its fields, of any number of lines, as the groups |
| `Backlog.BacklogRoundTrip` | src/saberops/backlog.py:22-77 | after any appends from no file of entries whose fields come back, parsing the file returns exactly the entries in order, a negative review number replaced by the caller's |
| `Backlog.RereadIff` | src/saberops/backlog.py:62-77 | so they come back unchanged exactly when every review number is at least zero or the caller's |
| `Backlog.FirstReadsWrong` | src/saberops/backlog.py:47-56 | an entry with a field that is empty before another entry, has white space around it, or holds a line that starts what may follow the field is read as an entry that differs from it in some field besides the review number |
| `Backlog.BacklogRoundTripIff` | src/saberops/backlog.py:22-77 | after any appends of any entries without carriage returns, the file parses to exactly those entries if and only if no field has white space around it or an inner line that starts what may follow the field (in the remedy, a section), fields after the run are empty only in the last entry, where no later line of it passes for their end, and every review number is at least zero or the caller's |
| `KeepFailed.RunRoot.KeepOnePerWorktree` | scripts/gate_tools.py:438-448 | exactly the failed directories that are not the first of their worktree are removed |
| `KeepFailed.RunRoot.EvictToCap` | scripts/gate_tools.py:449-454 | of the list exactly the longest prefix whose total fits the cap is left |
| `KeepFailed.RunRoot.KeepFailed` | scripts/gate_tools.py:437-454 | directories not marked failed stay, of the others exactly the longest newest-first prefix of the one-per-worktree list that fits; sizes and records are untouched |
| `KeepFailed.CandidatesAreNewest` | scripts/gate_tools.py:438-448 | that list is ordered newest first and holds exactly the failed directories no earlier one of the same worktree precedes |
| `KeepFailed.CandidatesIff` | scripts/gate_tools.py:437-448 | the candidates are exactly the failed directories newer than every other of their worktree, or as new and enumerated earlier, and come newest first, those as new as each other as enumerated |

## Left out

- The `SABEROPS_GATE_EXTERNAL_SLOT=1` bypass, slot metadata files, stale-PID purging, notices and the memory guard: diagnostics or waiting, the locks carry the guarantees.
- Real clocks: a slot wait is a number of scans, and a timeout, a signal or a death is an interruption at any step.
- Git, SQLite, pytest, coverage.py and subprocesses: parameters, abstract state or oracles. A primitive that fails does so at any time and for any reason.
- A swap that fails although the update was made, and an unreadable HEAD during a rollback as an error of its own: the first cannot be seen from the exit status, the second only changes the diagnostic.
- The candidate provenance assertion, the repository identity assertion, the authorised execution bases and the gate runner: taken as given answers.
- The text of diagnostics, reasons and summaries, and the payload fields no decision reads.
- The chained case of dispatch rows that are bound to a candidate after they were written: evidence is only appended.
- Run-wide facts outside one run's log, such as listeners and wake notices.
- The JSON text of ledger lines, shards and map metadata: values stand for their encodings, a shard being its items in written order. Shard keys that Python's int() takes but the builder never writes, such as "+7", read as malformed.
- Measured file paths are resolved before the model starts; the process-wide shard cache is one loaded map's.
- CoverageTargets.TargetsForFile: stops where symbol attribution begins, which reads the Python syntax tree; it hands on the lines to attribute.
- Node IDs of changed test files, and the choice between strategies.
- Splitting a multi-file patch into blocks, and the numstat, status, binary and truncation fields around the numbered rows.
- Cases two and three of the backlog parser, which structured sections never reach.
- DiffRows.RowsReplayTheDiff: says nothing about a block whose hunk heading, preamble or no-newline remark is cut into a piece that itself reads as a numbered line or a header.
- ZeroContextDiff.ReadersFindTheHunks: asks for file names without a line boundary; NewLinesIff and RemovedLinesIff do not.
- The failed-scratch cap is a finite binary fraction: rounding of a decimal on input, infinities, NaN and minus zero are not modelled.
- Backlog fields with a carriage return, which read_text turns into a newline when the file is read.
- Decimal digits and white space outside the sets listed in `Decimal` and `Text`: a regular expression's \d also takes other scripts' digits.
- Directory sizes are fixed while failed runs are evicted.
- The supervisor's ranking of the ladder, its resume path and its events: only the decision is modelled.
