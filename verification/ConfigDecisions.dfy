/**
 Workflow settings, and the callers of the configuration ledger that read a tip and append
 with nobody in between (src/saberops/config.py).
 */
module ConfigDecisions {
  import opened ConfigLedger
  import opened Wrappers

  // ----- Workflow settings -----

  const MAX_CONCURRENT_TASKS := 3
  const MAX_WORKER_SESSIONS_PER_PROJECT := 5
  const WORKFLOW_SETTINGS_VERSION := 1

  datatype RawSettings = RawSettings(
    maxConcurrentTasks: int, maxWorkerSessions: int, gateHeavySlots: int, gateLightSlotsMax: int,
    evidenceAcceptedDays: int, evidenceOtherDays: int, checkpointDays: int, vacuumDays: int,
    failedScratchCap: Float)

  /** validate_workflow_settings. */
  predicate MeetsCeilings(s: RawSettings)
  {
    && 1 <= s.maxConcurrentTasks <= MAX_CONCURRENT_TASKS
    && 1 <= s.maxWorkerSessions <= MAX_WORKER_SESSIONS_PER_PROJECT
    && s.gateHeavySlots >= 1
    && s.gateLightSlotsMax >= 1
    && s.gateLightSlotsMax >= s.maxConcurrentTasks
    && s.evidenceAcceptedDays >= 1 && s.evidenceOtherDays >= 1 && s.checkpointDays >= 1 && s.vacuumDays >= 1
    && s.evidenceOtherDays <= s.evidenceAcceptedDays
    && s.failedScratchCap.mantissa >= 0
  }

  const DEFAULTS := RawSettings(3, 5, 1, 8, 90, 30, 7, 7, Reduced(2, 0))

  /** A settings object validates itself when it is made. */
  type Settings = s: RawSettings | MeetsCeilings(s) witness DEFAULTS

  const INT_NAMES := ["max_concurrent_tasks", "max_worker_sessions_per_project", "gate_heavy_slots",
                      "gate_light_slots_max", "evidence_accepted_retention_days", "evidence_other_retention_days",
                      "checkpoint_retention_days", "owner_db_vacuum_interval_days"]
  const CAP_NAME := "failed_scratch_cap_gib"

  function IntFields(s: RawSettings): seq<int>
  {
    [s.maxConcurrentTasks, s.maxWorkerSessions, s.gateHeavySlots, s.gateLightSlotsMax,
     s.evidenceAcceptedDays, s.evidenceOtherDays, s.checkpointDays, s.vacuumDays]
  }

  function FromFields(ints: seq<int>, cap: Float): RawSettings
    requires |ints| == |INT_NAMES|
  {
    RawSettings(ints[0], ints[1], ints[2], ints[3], ints[4], ints[5], ints[6], ints[7], cap)
  }

  function AsDict(s: Settings): JsonObject
  {
    map["version" := JInt(WORKFLOW_SETTINGS_VERSION),
        INT_NAMES[0] := JInt(s.maxConcurrentTasks), INT_NAMES[1] := JInt(s.maxWorkerSessions),
        INT_NAMES[2] := JInt(s.gateHeavySlots), INT_NAMES[3] := JInt(s.gateLightSlotsMax),
        INT_NAMES[4] := JInt(s.evidenceAcceptedDays), INT_NAMES[5] := JInt(s.evidenceOtherDays),
        INT_NAMES[6] := JInt(s.checkpointDays), INT_NAMES[7] := JInt(s.vacuumDays),
        CAP_NAME := JFloat(s.failedScratchCap)]
  }

  function Get(m: JsonObject, name: string): Json { if name in m then m[name] else JNull }

  function AsInt(j: Json): int { if j.JInt? then j.i else 0 }

  /** No unknown key, the right version if any, and every field a number of its type. */
  predicate ShapeOk(m: JsonObject)
  {
    && (forall name | name in m :: name in INT_NAMES || name == CAP_NAME || name == "version")
    && ("version" in m ==> m["version"] == JInt(WORKFLOW_SETTINGS_VERSION))
    && (forall name | name in INT_NAMES :: Get(m, name).JInt?)
    && (Get(m, CAP_NAME).JFloat? || Get(m, CAP_NAME).JInt?)
  }

  function Ints(m: JsonObject): seq<int>
  {
    seq(|INT_NAMES|, k requires 0 <= k < |INT_NAMES| => AsInt(Get(m, INT_NAMES[k])))
  }

  function Cap(m: JsonObject): Float
  {
    match Get(m, CAP_NAME) case JFloat(f) => f case JInt(i) => Reduced(i, 0) case _ => Binary(0, 0)
  }

  function FromDict(m: JsonObject): Result<Settings, ConfigError>
  {
    if !ShapeOk(m) then Err(BAD_SETTINGS)
    else
      var s := FromFields(Ints(m), Cap(m));
      if MeetsCeilings(s) then Ok(s) else Err(BAD_SETTINGS)
  }

  lemma NamesAreDistinct()
    ensures forall i, j | 0 <= i < j < |INT_NAMES| :: INT_NAMES[i] != INT_NAMES[j]
    ensures CAP_NAME !in INT_NAMES && "version" !in INT_NAMES && CAP_NAME != "version"
  {
    // The first characters where any two of the names differ.
    assert INT_NAMES[0][4] == 'c' && INT_NAMES[1][4] == 'w';
    assert INT_NAMES[2][5] == 'h' && INT_NAMES[3][5] == 'l';
    assert INT_NAMES[4][9] == 'a' && INT_NAMES[5][9] == 'o';
    assert INT_NAMES[0][0] == 'm' && INT_NAMES[2][0] == 'g' && INT_NAMES[4][0] == 'e' && INT_NAMES[6][0] == 'c'
           && INT_NAMES[7][0] == 'o' && INT_NAMES[1][0] == 'm' && INT_NAMES[3][0] == 'g' && INT_NAMES[5][0] == 'e';
    assert CAP_NAME[0] == 'f' && "version"[0] == 'v';
  }

  lemma SnapshotFields(s: Settings)
    ensures forall k | 0 <= k < |INT_NAMES| :: Get(AsDict(s), INT_NAMES[k]) == JInt(IntFields(s)[k])
    ensures Get(AsDict(s), CAP_NAME) == JFloat(s.failedScratchCap)
  {
    NamesAreDistinct();
  }

  lemma ReadShape(m: JsonObject)
    requires FromDict(m).Ok?
    ensures ShapeOk(m) && FromDict(m).value == FromFields(Ints(m), Cap(m))
  {
  }

  lemma FieldsOfFields(ints: seq<int>, cap: Float)
    requires |ints| == |INT_NAMES|
    ensures IntFields(FromFields(ints, cap)) == ints && FromFields(ints, cap).failedScratchCap == cap
  {
  }

  lemma ReadFields(m: JsonObject, k: nat)
    requires FromDict(m).Ok? && k < |INT_NAMES|
    ensures Get(m, INT_NAMES[k]) == JInt(IntFields(FromDict(m).value)[k])
    ensures AskedFor(CAP_NAME, Get(m, CAP_NAME)) == JFloat(FromDict(m).value.failedScratchCap)
  {
    ReadShape(m);
    FieldsOfFields(Ints(m), Cap(m));
    assert INT_NAMES[k] in INT_NAMES;
  }

  /** A recorded snapshot reads back as the settings it was taken from. */
  lemma SettingsRoundTrip(s: Settings)
    ensures FromDict(AsDict(s)) == Ok(s)
  {
    NamesAreDistinct();
    SnapshotFields(s);
  }

  datatype Proposal = Proposal(settings: Settings, changed: set<string>, rationale: string,
                               proposedBy: string, frozenHash: Id)

  function FrozenHash(h: Hashes, s: Settings): Id { h.value(AsDict(s)) }

  /** The value of one setting in the snapshot. */
  function Field(s: Settings, name: string): Json { Get(AsDict(s), name) }

  /** The settings asked for that came out different. */
  function ChangedNames(base: Settings, s: Settings, changes: JsonObject): set<string>
  {
    set name | name in changes && Field(s, name) != Field(base, name)
  }

  function ProposeConfigChange(h: Hashes, base: Settings, changes: JsonObject, rationale: string, proposedBy: string)
    : (r: Result<Proposal, ConfigError>)
  {
    if exists name :: name in changes && name !in INT_NAMES && name != CAP_NAME then Err(BAD_SETTINGS)
    else
      match FromDict(AsDict(base) - {"version"} + changes)
      case Err(e) => Err(e)
      case Ok(s) =>
        var changed := ChangedNames(base, s, changes);
        if changed == {} then Err(BAD_SETTINGS)
        else Ok(Proposal(s, changed, rationale, proposedBy, FrozenHash(h, s)))
  }

  /** What asking for a value makes of the setting: an integer given as the cap is a number too. */
  function AskedFor(name: string, asked: Json): Json
  {
    if name == CAP_NAME && asked.JInt? then JFloat(Reduced(asked.i, 0)) else asked
  }

  /** A proposal gives every setting asked for the value asked for, keeps the others, lists
      exactly those that differ from the base, some at least, and can be approved as it stands. */
  lemma ProposalsChangeWhatTheyList(h: Hashes, base: Settings, changes: JsonObject, rationale: string, who: string)
    ensures var r := ProposeConfigChange(h, base, changes, rationale, who);
            r.Ok? ==>
              var p := r.value;
              && p.changed != {} && p.changed <= changes.Keys
              && p.frozenHash == FrozenHash(h, p.settings)
              && (forall name | name in changes :: Field(p.settings, name) == AskedFor(name, changes[name]))
              && (forall name | (name in INT_NAMES || name == CAP_NAME) && name !in changes ::
                    Field(p.settings, name) == Field(base, name))
              && forall name | name in INT_NAMES || name == CAP_NAME ::
                   name in p.changed <==> Field(p.settings, name) != Field(base, name)
  {
    var r := ProposeConfigChange(h, base, changes, rationale, who);
    if r.Ok? {
      ProposedFields(base, changes, r.value.settings);
      hide AsDict, FromDict, AskedFor;
    }
  }

  lemma ProposedFields(base: Settings, changes: JsonObject, s: Settings)
    requires forall name | name in changes :: name in INT_NAMES || name == CAP_NAME
    requires FromDict(AsDict(base) - {"version"} + changes) == Ok(s)
    ensures forall name | name in changes :: Field(s, name) == AskedFor(name, changes[name])
    ensures forall name | (name in INT_NAMES || name == CAP_NAME) && name !in changes :: Field(s, name) == Field(base, name)
  {
    var m := AsDict(base) - {"version"} + changes;
    NamesAreDistinct();
    hide AsDict, FromDict, IntFields;
    forall name | name in INT_NAMES || name == CAP_NAME ensures Field(s, name) == AskedFor(name, Get(m, name)) {
      FieldIsRead(m, s, name);
    }
    forall name | (name in INT_NAMES || name == CAP_NAME) && name !in changes ensures Field(s, name) == Field(base, name) {
      KeptFromBase(base, changes, name);
      IsSettled(base, name);
    }
  }

  lemma FieldIsRead(m: JsonObject, s: Settings, name: string)
    requires FromDict(m) == Ok(s) && (name in INT_NAMES || name == CAP_NAME)
    ensures Field(s, name) == AskedFor(name, Get(m, name))
  {
    NamesAreDistinct();
    SnapshotFields(s);
    hide AsDict, FromDict, IntFields;
    if name in INT_NAMES {
      var k: nat :| k < |INT_NAMES| && INT_NAMES[k] == name;
      ReadFields(m, k);
    } else {
      ReadFields(m, 0);
    }
  }

  /** A setting as it is in a snapshot is already in its final form. */
  lemma IsSettled(s: Settings, name: string)
    requires name in INT_NAMES || name == CAP_NAME
    ensures AskedFor(name, Field(s, name)) == Field(s, name)
  {
    SnapshotFields(s);
    hide AsDict;
  }

  lemma KeptFromBase(base: Settings, changes: JsonObject, name: string)
    requires name != "version" && name !in changes
    ensures Get(AsDict(base) - {"version"} + changes, name) == Field(base, name)
  {
  }

  // ----- Requests -----

  datatype Request =
    | RecordOne(kind: string, subject: string, value: JsonObject, rationale: string, approver: string, at: string)
    | Approve(proposal: Proposal, approver: string, at: string)
    | RecordCleanup(policy: JsonObject, rationale: string, approver: string, at: string)

  const CONFIG_KIND := "config"

  /** validate_cleanup_policy. */
  predicate CleanupPolicyOk(policy: JsonObject)
  {
    && Get(policy, "kind") in {JStr("git"), JStr("storage")}
    && Get(policy, "ttl_days").JInt? && Get(policy, "ttl_days").i >= 0
    && Get(policy, "subjects").JList? && Get(policy, "subjects").items != []
    && forall j | j in Get(policy, "subjects").items :: j.JStr? && j.s != ""
  }

  function CleanupKind(policy: JsonObject): string
  {
    if Get(policy, "kind").JStr? then Get(policy, "kind").s else ""
  }

  /** The chain the request extends. */
  function KindOf(req: Request): string
  {
    match req
    case RecordOne(kind, _, _, _, _, _) => kind
    case Approve(_, _, _) => CONFIG_KIND
    case RecordCleanup(policy, _, _, _) => "cleanup:" + CleanupKind(policy)
  }

  /** What is refused before the ledger is even read. */
  function Objection(h: Hashes, req: Request): Option<ConfigError>
  {
    match req
    case RecordOne(kind, subject, _, _, approver, _) =>
      if kind == "" || subject == "" || approver == "" then Some(EMPTY_FIELD) else None
    case Approve(p, _, _) =>
      if p.frozenHash == "" || p.frozenHash != FrozenHash(h, p.settings) then Some(BAD_FROZEN_HASH) else None
    case RecordCleanup(policy, _, approver, _) =>
      if !CleanupPolicyOk(policy) then Some(BAD_CLEANUP_POLICY)
      else if approver == "" then Some(EMPTY_FIELD) else None
  }

  function BodyFor(h: Hashes, req: Request, supersedes: Option<Id>): Body
  {
    match req
    case RecordOne(kind, subject, value, rationale, approver, at) =>
      Body(at, kind, subject, value, rationale, approver, supersedes, h.value(value))
    case Approve(p, approver, at) =>
      Body(at, CONFIG_KIND, "workflow-settings", AsDict(p.settings), p.rationale, approver, supersedes, p.frozenHash)
    case RecordCleanup(policy, rationale, approver, at) =>
      Body(at, KindOf(req), CleanupKind(policy), policy, rationale, approver, supersedes, h.value(policy))
  }

  /** The one entry among those at the given positions, if there are not several. */
  ghost function TipAmong(entries: seq<Decision>, heads: set<nat>): Result<Option<Decision>, ConfigError>
    requires forall i | i in heads :: i < |entries|
  {
    if |heads| > 1 then Err(SEVERAL_HEADS)
    else if heads == {} then Ok(None)
    else
      var i :| i in heads;
      Ok(Some(entries[i]))
  }

  /** The head of a kind, if the kind can be read. */
  ghost function TipOf(entries: seq<Decision>, kind: string): Result<Option<Decision>, ConfigError>
  {
    TipAmong(entries, Heads(entries, kind))
  }

  /** The entries of a kind in the second of two readings that nothing in the first supersedes. */
  function UnsupersededIn(first: seq<Decision>, second: seq<Decision>, kind: string): set<nat>
  {
    set i: nat | i < |second| && second[i].body.kind == kind && second[i].id !in SupersededIds(first)
  }

  /** The entries of a kind that came in between. */
  function Arrived(first: seq<Decision>, second: seq<Decision>, kind: string): set<nat>
  {
    set i: nat | |first| <= i < |second| && second[i].body.kind == kind
  }

  function IdOf(tip: Option<Decision>): Option<Id>
  {
    match tip case None => None case Some(d) => Some(d.id)
  }

  /** Reading the tip and appending, with nobody in between. */
  ghost function Perform(h: Hashes, entries: seq<Decision>, req: Request): Result<Decision, ConfigError>
  {
    if Objection(h, req).Some? then Err(Objection(h, req).value)
    else
      match TipOf(entries, KindOf(req))
      case Err(e) => Err(e)
      case Ok(tip) =>
        var body := BodyFor(h, req, IdOf(tip));
        var d := Decision(body, h.body(body));
        match Refusal(h, entries, d) case Some(e) => Err(e) case None => Ok(d)
  }

  ghost function After(entries: seq<Decision>, r: Result<Decision, ConfigError>): seq<Decision>
  {
    if r.Ok? then entries + [r.value] else entries
  }

  ghost function PerformAll(h: Hashes, reqs: seq<Request>): seq<Decision>
  {
    if reqs == [] then []
    else
      var entries := PerformAll(h, reqs[..|reqs| - 1]);
      After(entries, Perform(h, entries, reqs[|reqs| - 1]))
  }

  // ----- The ledger object -----

  class Ledger {
    const h: Hashes
    var entries: seq<Decision>

    ghost predicate Valid()
      reads this
    {
      WellFormed(h, entries)
    }

    constructor (h: Hashes)
      ensures Valid() && this.h == h && entries == []
    {
      this.h := h;
      this.entries := [];
    }

    /** The file is read twice, and others may append `meanwhile` between the two readings. */
    method TipFor(kind: string, meanwhile: seq<Decision>) returns (r: Result<Option<Decision>, ConfigError>)
      requires Valid()
      modifies this
      ensures Valid() && entries == AppendAll(h, old(entries), meanwhile)
      ensures r == TipAmong(entries, UnsupersededIn(old(entries), entries, kind))
    {
      hide WellFormed, SupersededIds, AppendAll;
      var superseded := SupersededIds(entries);
      AppendAllExtends(h, entries, meanwhile);
      ghost var first := entries;
      entries := AppendAll(h, entries, meanwhile);
      var matching: seq<nat> := [];
      ghost var heads := UnsupersededIn(first, entries, kind);
      for i := 0 to |entries|
        invariant forall k | 0 <= k < |matching| :: matching[k] in heads && matching[k] < i
        invariant forall k, l | 0 <= k < l < |matching| :: matching[k] != matching[l]
        invariant forall j | j in heads && j < i :: j in matching
      {
        if entries[i].id !in superseded && entries[i].body.kind == kind {
          matching := matching + [i];
        }
      }
      if |matching| > 1 {
        SubsetIsSmaller({matching[0], matching[1]}, heads);
        return Err(SEVERAL_HEADS);
      }
      if |matching| == 0 {
        assert heads == {};
        return Ok(None);
      }
      assert heads == {matching[0]};
      return Ok(Some(entries[matching[0]]));
    }

    method Append(d: Decision) returns (r: Result<Decision, ConfigError>)
      requires Valid()
      modifies this
      ensures Valid()
      ensures match Refusal(h, old(entries), d)
              case Some(e) => r == Err(e) && entries == old(entries)
              case None => r == Ok(d) && entries == old(entries) + [d]
      // An entry goes in exactly when it is genuine and new, and either starts a kind that has
      // no entry at all or supersedes an entry of its own kind, be that a head or not.
      ensures r.Ok? <==>
                && d.id == h.body(d.body) && !Known(old(entries), d.id)
                && if d.body.supersedes.None? then !HasKind(old(entries), d.body.kind)
                   else KnownOfKind(old(entries), |old(entries)|, d.body.supersedes.value, d.body.kind)
    {
      NoHeadsIffNoKind(h, entries, d.body.kind);
      match Refusal(h, entries, d)
      case Some(e) => r := Err(e);
      case None =>
        HeadsAfter(h, entries, d, d.body.kind);
        entries := entries + [d];
        r := Ok(d);
    }

    /** record_decision, approve_config_proposal and record_cleanup_decision. */
    method Record(req: Request) returns (r: Result<Decision, ConfigError>)
      requires Valid()
      modifies this
      ensures Valid()
      ensures r == Perform(h, old(entries), req) && entries == After(old(entries), r)
    {
      match Objection(h, req)
      case Some(e) => return Err(e);
      case None =>
      ReadAtOnce(h, entries, KindOf(req));
      var tip := TipFor(KindOf(req), []);
      match tip
      case Err(e) => return Err(e);
      case Ok(t) =>
        var body := BodyFor(h, req, IdOf(t));
        r := Append(Decision(body, h.body(body)));
    }

    method CurrentWorkflowSettings() returns (r: Result<Settings, ConfigError>)
      requires Valid()
      modifies this
      ensures Valid() && entries == old(entries) && r == SettingsIn(h, entries)
    {
      ReadAtOnce(h, entries, CONFIG_KIND);
      var tip := TipFor(CONFIG_KIND, []);
      match tip
      case Err(e) => return Err(e);
      case Ok(None) => return Ok(DEFAULTS);
      case Ok(Some(d)) =>
        var s := FromDict(d.body.value);
        if s.Ok? && FrozenHash(h, s.value) != d.body.frozenHash { return Err(BAD_FROZEN_HASH); }
        return s;
    }
  }

  lemma NoHeadsIffNoKind(h: Hashes, entries: seq<Decision>, kind: string)
    requires WellFormed(h, entries)
    ensures Heads(entries, kind) == {} <==> !HasKind(entries, kind)
  {
    if HasKind(entries, kind) {
      var last := LastIsHead(h, entries, kind);
    } else {
      NoHeadsWithoutKind(entries, kind);
    }
  }

  /** With nobody in between, the two readings are one. */
  lemma ReadAtOnce(h: Hashes, entries: seq<Decision>, kind: string)
    ensures AppendAll(h, entries, []) == entries
    ensures TipAmong(entries, UnsupersededIn(entries, entries, kind)) == TipOf(entries, kind)
  {
    assert UnsupersededIn(entries, entries, kind) == Heads(entries, kind);
  }

  /** The second reading adds every entry of the kind that came in between. */
  lemma UnsupersededAcross(h: Hashes, first: seq<Decision>, second: seq<Decision>, kind: string)
    requires first <= second && WellFormed(h, second)
    ensures UnsupersededIn(first, second, kind) == Heads(first, kind) + Arrived(first, second, kind)
    ensures |UnsupersededIn(first, second, kind)| == |Heads(first, kind)| + |Arrived(first, second, kind)|
  {
    HeadsAreBelow(first, kind);
    assert Heads(first, kind) !! Arrived(first, second, kind);
    forall i | |first| <= i < |second| ensures second[i].id !in SupersededIds(first) {
      forall j | 0 <= j < |first| ensures first[j].body.supersedes != Some(second[i].id) {
        assert LinkOk(second, j) && first[j] == second[j];
      }
    }
  }

  /** While nothing of a kind is appended, its heads stay. */
  lemma OtherKindsKeepHeads(h: Hashes, first: seq<Decision>, second: seq<Decision>, kind: string)
    requires first <= second && WellFormed(h, second)
    requires forall i | |first| <= i < |second| :: second[i].body.kind != kind
    ensures Heads(second, kind) == Heads(first, kind)
  {
    assert SupersededIds(first) <= SupersededIds(second) by {
      forall x | x in SupersededIds(first) ensures x in SupersededIds(second) {
        var i: nat :| i < |first| && first[i].body.supersedes == Some(x);
        assert second[i] == first[i];
      }
    }
    forall i | i in Heads(first, kind) ensures second[i].id !in SupersededIds(second) {
      forall j | 0 <= j < |second| ensures second[j].body.supersedes != Some(second[i].id) {
        assert LinkOk(second, j);
        if j < |first| { assert first[j] == second[j]; }
      }
    }
  }

  /** So a tip that is read is the tip of the ledger as it then is; and one is read exactly when
      the heads at the first reading and the entries of the kind appended before the second
      are together no more than one.  A kind that is one chain at the second reading therefore
      looks forked exactly when it got an entry in between although it had one already, or got
      more than one. */
  lemma TipAcrossAppends(h: Hashes, first: seq<Decision>, meanwhile: seq<Decision>, kind: string)
    requires WellFormed(h, first)
    ensures var second := AppendAll(h, first, meanwhile);
            var r := TipAmong(second, UnsupersededIn(first, second, kind));
            var arrived := |Arrived(first, second, kind)|;
            && (r.Ok? ==> r == TipOf(second, kind))
            && (r.Ok? <==> |Heads(first, kind)| + arrived <= 1)
            && (TipOf(second, kind).Ok? ==> (r.Ok? <==> arrived <= if HasKind(first, kind) then 0 else 1))
  {
    var second := AppendAll(h, first, meanwhile);
    AppendAllExtends(h, first, meanwhile);
    HeadCountNeverFalls(h, first, meanwhile, kind);
    NoHeadsIffNoKind(h, first, kind);
    hide WellFormed, UnsupersededIn, Heads, HasKind, Arrived, AppendAll;
    UnsupersededAcross(h, first, second, kind);
    TipAcross(h, first, second, kind);
  }

  lemma TipAcross(h: Hashes, first: seq<Decision>, second: seq<Decision>, kind: string)
    requires WellFormed(h, first) && first <= second && WellFormed(h, second)
    ensures var seen := UnsupersededIn(first, second, kind);
            TipAmong(second, seen).Ok? ==> TipAmong(second, seen) == TipOf(second, kind)
  {
    hide WellFormed, UnsupersededIn, Heads, HasKind, KindWithin;
    if !KindWithin(second, |first|, |second|, kind) {
      NothingAdded(h, first, second, kind);
    } else if HasKind(first, kind) {
      AddedToAKind(h, first, second, kind);
    } else {
      KindStarted(h, first, second, kind);
    }
  }

  lemma NothingAdded(h: Hashes, first: seq<Decision>, second: seq<Decision>, kind: string)
    requires first <= second && WellFormed(h, second) && !KindWithin(second, |first|, |second|, kind)
    ensures UnsupersededIn(first, second, kind) == Heads(second, kind)
  {
    UnsupersededAcross(h, first, second, kind);
    assert forall i | |first| <= i < |second| :: second[i].body.kind != kind;
    hide WellFormed, Heads, UnsupersededIn;
    OtherKindsKeepHeads(h, first, second, kind);
  }

  lemma AddedToAKind(h: Hashes, first: seq<Decision>, second: seq<Decision>, kind: string)
    requires WellFormed(h, first) && first <= second && WellFormed(h, second)
    requires HasKind(first, kind) && KindWithin(second, |first|, |second|, kind)
    ensures |UnsupersededIn(first, second, kind)| > 1
  {
    hide WellFormed, Heads, UnsupersededIn, HasKind;
    var i: nat :| |first| <= i < |second| && second[i].body.kind == kind;
    assert i in Arrived(first, second, kind);
    UnsupersededAcross(h, first, second, kind);
    HasKindHasHead(h, first, kind);
  }

  lemma KindStarted(h: Hashes, first: seq<Decision>, second: seq<Decision>, kind: string)
    requires WellFormed(h, first) && first <= second && WellFormed(h, second)
    requires !HasKind(first, kind) && KindWithin(second, |first|, |second|, kind)
    ensures |UnsupersededIn(first, second, kind)| > 1 || UnsupersededIn(first, second, kind) == Heads(second, kind)
  {
    UnsupersededAcross(h, first, second, kind);
    NoHeadsIffNoKind(h, first, kind);
    NoHeadsIffNoKind(h, second, kind);
    assert HasKind(second, kind);
    hide WellFormed, Heads, UnsupersededIn, HasKind;
    var seen := UnsupersededIn(first, second, kind);
    assert seen == Arrived(first, second, kind);
    if |seen| <= 1 { SoleOfItsKind(first, second, kind, seen); }
  }

  lemma HeadsAreBelow(entries: seq<Decision>, kind: string)
    ensures forall i | i in Heads(entries, kind) :: i < |entries|
  {
  }

  lemma SoleOfItsKind(first: seq<Decision>, second: seq<Decision>, kind: string, seen: set<nat>)
    requires first <= second && !HasKind(first, kind) && |seen| <= 1 && Heads(second, kind) != {}
    requires seen == Arrived(first, second, kind)
    ensures seen == Heads(second, kind)
  {
    NoHeadsWithoutKind(first, kind);
    assert forall i | 0 <= i < |first| :: second[i].body.kind != kind;
    var j :| j in Heads(second, kind);
    forall i | i in seen ensures i == j { SingletonOnly(seen, i, j); }
  }

  ghost function SettingsIn(h: Hashes, entries: seq<Decision>): Result<Settings, ConfigError>
  {
    match TipOf(entries, CONFIG_KIND)
    case Err(e) => Err(e)
    case Ok(None) => Ok(DEFAULTS)
    case Ok(Some(d)) =>
      var s := FromDict(d.body.value);
      if s.Ok? && FrozenHash(h, s.value) != d.body.frozenHash then Err(BAD_FROZEN_HASH) else s
  }

  // ----- Sequential callers -----

  /** The last request of a kind that was not objected to: what the ledger should remember. */
  function LastRequest(h: Hashes, reqs: seq<Request>, kind: string): Option<Request>
  {
    if reqs == [] then None
    else
      var req := reqs[|reqs| - 1];
      if KindOf(req) == kind && Objection(h, req).None? then Some(req)
      else LastRequest(h, reqs[..|reqs| - 1], kind)
  }

  ghost predicate AllReadable(entries: seq<Decision>)
  {
    forall kind: string :: |Heads(entries, kind)| <= 1
  }

  /** With one head per kind, a request nobody objects to is never refused by the ledger, and
      becomes the head of its own kind and of no other. */
  lemma SequentialRequest(h: Hashes, entries: seq<Decision>, req: Request)
    requires Injective(h) && WellFormed(h, entries) && AllReadable(entries) && Objection(h, req).None?
    ensures var r := Perform(h, entries, req);
            && r.Ok? && r.value.body == BodyFor(h, req, r.value.body.supersedes)
            && WellFormed(h, entries + [r.value]) && AllReadable(entries + [r.value])
            && TipOf(entries + [r.value], KindOf(req)) == Ok(Some(r.value))
            && forall kind | kind != KindOf(req) :: TipOf(entries + [r.value], kind) == TipOf(entries, kind)
  {
    var kind := KindOf(req);
    var tip := TipOf(entries, kind).value;
    var body := BodyFor(h, req, IdOf(tip));
    var d := Decision(body, h.body(body));
    NewIdIsFresh(h, entries, d, tip);
    NewHeadStandsAlone(h, entries, d, tip);
    HeadsAfter(h, entries, d, kind);
    forall other: string
      ensures |Heads(entries + [d], other)| <= 1
      ensures other != kind ==> TipOf(entries + [d], other) == TipOf(entries, other)
    {
      HeadsAfter(h, entries, d, other);
      if other != kind { SameHeadsSameTip(entries, entries + [d], other); }
    }
  }

  lemma NewHeadStandsAlone(h: Hashes, entries: seq<Decision>, d: Decision, tip: Option<Decision>)
    requires WellFormed(h, entries) && Refusal(h, entries, d).None?
    requires |Heads(entries, d.body.kind)| <= 1
    requires TipOf(entries, d.body.kind) == Ok(tip) && d.body.supersedes == IdOf(tip)
    ensures Heads(entries + [d], d.body.kind) == {|entries|}
    ensures TipOf(entries + [d], d.body.kind) == Ok(Some(d))
  {
    var heads := Heads(entries, d.body.kind);
    HeadsAfter(h, entries, d, d.body.kind);
    if tip.Some? {
      var t :| t in heads && entries[t] == tip.value;
      forall i | i in heads ensures i == t { SingletonOnly(heads, i, t); }
      assert heads - {t} == {};
    }
  }

  lemma SameHeadsSameTip(a: seq<Decision>, b: seq<Decision>, kind: string)
    requires Heads(a, kind) == Heads(b, kind) && a <= b && |Heads(a, kind)| <= 1
    ensures TipOf(a, kind) == TipOf(b, kind)
  {
    var heads := Heads(a, kind);
    if heads != {} {
      var i :| i in heads;
      forall j | j in heads ensures j == i { SingletonOnly(heads, i, j); }
    }
  }

  /** Content hashing is injective, so an entry that supersedes a head is itself new. */
  lemma NewIdIsFresh(h: Hashes, entries: seq<Decision>, d: Decision, tip: Option<Decision>)
    requires Injective(h) && WellFormed(h, entries) && d.id == h.body(d.body)
    requires TipOf(entries, d.body.kind) == Ok(tip) && d.body.supersedes == IdOf(tip)
    ensures Refusal(h, entries, d).None?
  {
    if tip.Some? {
      var t :| t in Heads(entries, d.body.kind) && entries[t] == tip.value;
      assert entries[t].id !in SupersededIds(entries);
      assert Known(entries, tip.value.id) && KnownOfKind(entries, |entries|, tip.value.id, d.body.kind);
    } else if HasKind(entries, d.body.kind) {
      var last := LastIsHead(h, entries, d.body.kind);
    }
    forall i | 0 <= i < |entries| ensures entries[i].id != d.id {
      assert entries[i].body != d.body;
    }
  }

  /** Under sequential callers the ledger is a map from kind to the last decision made about
      it: every kind reads back exactly the last request for it, and every kind is one chain. */
  lemma {:induction false} SequentialLedgerIsAMap(h: Hashes, reqs: seq<Request>)
    requires Injective(h)
    ensures var entries := PerformAll(h, reqs);
            && WellFormed(h, entries) && AllReadable(entries)
            && forall kind: string :: Remembers(h, entries, kind, LastRequest(h, reqs, kind))
  {
    if reqs == [] {
      forall kind: string ensures Heads([], kind) == {} {}
    } else {
      hide WellFormed, AllReadable, Remembers, Objection;
      var before, req := reqs[..|reqs| - 1], reqs[|reqs| - 1];
      var entries := PerformAll(h, before);
      SequentialLedgerIsAMap(h, before);
      if Objection(h, req).None? {
        SequentialRequest(h, entries, req);
      }
      forall kind: string
        ensures Remembers(h, PerformAll(h, reqs), kind, LastRequest(h, reqs, kind))
      {
        assert Remembers(h, entries, kind, LastRequest(h, before, kind));
      }
    }
  }

  ghost predicate Remembers(h: Hashes, entries: seq<Decision>, kind: string, last: Option<Request>)
  {
    match last
    case None => TipOf(entries, kind) == Ok(None)
    case Some(req) =>
      match TipOf(entries, kind)
      case Ok(Some(d)) => d.body == BodyFor(h, req, d.body.supersedes)
      case _ => false
  }

  lemma SequentialChainsAreLinear(h: Hashes, reqs: seq<Request>, kind: string)
    requires Injective(h)
    ensures LinearChain(PerformAll(h, reqs), kind)
  {
    SequentialLedgerIsAMap(h, reqs);
    OneHeadIffLinear(h, PerformAll(h, reqs), kind);
  }

  /** When "config" entries come only from approvals, the effective settings are the last
      approved ones, or the defaults; either way they meet every ceiling. */
  lemma CurrentSettingsAreTheLastApproved(h: Hashes, reqs: seq<Request>)
    requires Injective(h)
    requires forall k | 0 <= k < |reqs| :: KindOf(reqs[k]) == CONFIG_KIND ==> reqs[k].Approve?
    ensures var last := LastRequest(h, reqs, CONFIG_KIND);
            && (last.Some? ==> last.value.Approve?)
            && SettingsIn(h, PerformAll(h, reqs)) == Ok(if last.Some? then last.value.proposal.settings else DEFAULTS)
  {
    SequentialLedgerIsAMap(h, reqs);
    var entries, last := PerformAll(h, reqs), LastRequest(h, reqs, CONFIG_KIND);
    assert Remembers(h, entries, CONFIG_KIND, last);
    LastRequestIsOne(h, reqs, CONFIG_KIND);
    if last.Some? {
      SettingsRoundTrip(last.value.proposal.settings);
    }
  }

  lemma {:induction false} LastRequestIsOne(h: Hashes, reqs: seq<Request>, kind: string)
    ensures var last := LastRequest(h, reqs, kind);
            last.Some? ==> last.value in reqs && KindOf(last.value) == kind && Objection(h, last.value).None?
  {
    if reqs != [] {
      LastRequestIsOne(h, reqs[..|reqs| - 1], kind);
      assert reqs == reqs[..|reqs| - 1] + [reqs[|reqs| - 1]];
    }
  }
}
