/**
 What the configuration decisions record and read back, said of the requests and of the named fields
 themselves (src/saberops/config.py).
 */
module ConfigLaw {
  import opened ConfigDecisions
  import opened ConfigLedger
  import opened Wrappers

  // ----- Settings -----

  predicate IntAt(m: JsonObject, name: string, n: int) { name in m && m[name] == JInt(n) }

  /** A number may be written as an integer. */
  predicate NumberAt(m: JsonObject, name: string, f: Float)
  {
    name in m && (m[name] == JFloat(f) || (m[name].JInt? && f == Reduced(m[name].i, 0)))
  }

  /** The nine settings of a snapshot, and nothing else but its version. */
  predicate Reads(m: JsonObject, s: RawSettings)
  {
    && IntAt(m, "max_concurrent_tasks", s.maxConcurrentTasks)
    && IntAt(m, "max_worker_sessions_per_project", s.maxWorkerSessions)
    && IntAt(m, "gate_heavy_slots", s.gateHeavySlots)
    && IntAt(m, "gate_light_slots_max", s.gateLightSlotsMax)
    && IntAt(m, "evidence_accepted_retention_days", s.evidenceAcceptedDays)
    && IntAt(m, "evidence_other_retention_days", s.evidenceOtherDays)
    && IntAt(m, "checkpoint_retention_days", s.checkpointDays)
    && IntAt(m, "owner_db_vacuum_interval_days", s.vacuumDays)
    && NumberAt(m, "failed_scratch_cap_gib", s.failedScratchCap)
    && ("version" in m ==> m["version"] == JInt(1))
    && forall name | name in m :: name == "version" || IsSetting(name)
  }

  predicate IsSetting(name: string)
  {
    name in {"max_concurrent_tasks", "max_worker_sessions_per_project", "gate_heavy_slots",
             "gate_light_slots_max", "evidence_accepted_retention_days", "evidence_other_retention_days",
             "checkpoint_retention_days", "owner_db_vacuum_interval_days", "failed_scratch_cap_gib"}
  }

  /** The recorded policy: three tasks and five worker sessions at the most, room for every task
      among the light slots, retention for a day at the least, and longest for what was accepted. */
  predicate Allowed(s: RawSettings)
  {
    && s.maxConcurrentTasks in {1, 2, 3} && s.maxWorkerSessions in {1, 2, 3, 4, 5}
    && 0 < s.gateHeavySlots && 0 < s.gateLightSlotsMax && s.maxConcurrentTasks <= s.gateLightSlotsMax
    && 0 < s.evidenceOtherDays <= s.evidenceAcceptedDays && 0 < s.checkpointDays && 0 < s.vacuumDays
    && s.failedScratchCap.mantissa >= 0
  }

  lemma AllowedIff(s: RawSettings)
    ensures MeetsCeilings(s) <==> Allowed(s)
  {
  }

  /** A snapshot is accepted exactly when it reads as settings that are allowed, and then as those. */
  lemma FromDictIff(m: JsonObject, s: RawSettings)
    ensures (FromDict(m).Ok? && FromDict(m).value == s) <==> Reads(m, s) && Allowed(s)
  {
    AllowedIff(s);
    NamesAre();
    hide MeetsCeilings, Allowed;
    if Reads(m, s) { ReadsShape(m, s); }
    if ShapeOk(m) { ShapeReads(m); }
  }

  lemma NamesAre()
    ensures forall name: string :: IsSetting(name) <==> name in INT_NAMES || name == CAP_NAME
  {
    forall name | name in INT_NAMES ensures exists k :: 0 <= k < 8 && name == INT_NAMES[k] {}
    assert forall k | 0 <= k < 8 :: INT_NAMES[k] in INT_NAMES;
  }

  lemma ReadsNumbers(m: JsonObject, s: RawSettings)
    requires Reads(m, s)
    ensures forall k | 0 <= k < 8 :: IntAt(m, INT_NAMES[k], IntFields(s)[k])
    ensures NumberAt(m, CAP_NAME, s.failedScratchCap) && ("version" in m ==> m["version"] == JInt(1))
  {
    hide IntAt, NumberAt, IsSetting;
  }

  lemma ReadsInts(m: JsonObject, s: RawSettings)
    requires forall k | 0 <= k < 8 :: IntAt(m, INT_NAMES[k], IntFields(s)[k])
    ensures Ints(m) == IntFields(s) && forall name | name in INT_NAMES :: Get(m, name).JInt?
  {
    assert |INT_NAMES| == 8 && |IntFields(s)| == 8;
    hide INT_NAMES, IntFields;
    forall name | name in INT_NAMES ensures Get(m, name).JInt? {
      var k :| 0 <= k < 8 && INT_NAMES[k] == name;
      assert IntAt(m, INT_NAMES[k], IntFields(s)[k]);
    }
    assert forall k | 0 <= k < 8 :: Ints(m)[k] == IntFields(s)[k];
  }

  lemma ReadsShape(m: JsonObject, s: RawSettings)
    requires Reads(m, s)
    ensures ShapeOk(m) && FromFields(Ints(m), Cap(m)) == s
  {
    NamesAre();
    ReadsNumbers(m, s);
    ReadsInts(m, s);
    assert FromFields(IntFields(s), s.failedScratchCap) == s;
    OnlySettings(m, s);
    hide Reads, IsSetting, Ints, IntAt, INT_NAMES, IntFields, FromFields, CAP_NAME;
  }

  lemma OnlySettings(m: JsonObject, s: RawSettings)
    requires Reads(m, s)
    ensures forall name | name in m :: name in INT_NAMES || name == CAP_NAME || name == "version"
  {
    NamesAre();
    hide IsSetting, IntAt, NumberAt;
  }

  lemma ShapeNumbers(m: JsonObject)
    requires ShapeOk(m)
    ensures forall k | 0 <= k < 8 :: IntAt(m, INT_NAMES[k], Ints(m)[k])
    ensures NumberAt(m, CAP_NAME, Cap(m)) && ("version" in m ==> m["version"] == JInt(1))
  {
    forall k | 0 <= k < 8 ensures IntAt(m, INT_NAMES[k], Ints(m)[k]) {
      assert INT_NAMES[k] in INT_NAMES && Get(m, INT_NAMES[k]).JInt?;
    }
  }

  lemma ShapeReads(m: JsonObject)
    requires ShapeOk(m)
    ensures Reads(m, FromFields(Ints(m), Cap(m)))
  {
    NamesAre();
    ShapeNumbers(m);
    assert forall name | name in m :: name in INT_NAMES || name == CAP_NAME || name == "version";
    hide Ints, Cap, ShapeOk, IntAt, NumberAt, IsSetting;
  }

  /** The recorded form of settings. */
  function Snapshot(s: RawSettings): JsonObject
  {
    map["version" := JInt(1),
        "max_concurrent_tasks" := JInt(s.maxConcurrentTasks),
        "max_worker_sessions_per_project" := JInt(s.maxWorkerSessions),
        "gate_heavy_slots" := JInt(s.gateHeavySlots),
        "gate_light_slots_max" := JInt(s.gateLightSlotsMax),
        "evidence_accepted_retention_days" := JInt(s.evidenceAcceptedDays),
        "evidence_other_retention_days" := JInt(s.evidenceOtherDays),
        "checkpoint_retention_days" := JInt(s.checkpointDays),
        "owner_db_vacuum_interval_days" := JInt(s.vacuumDays),
        "failed_scratch_cap_gib" := JFloat(s.failedScratchCap)]
  }

  lemma SnapshotIs(s: Settings)
    ensures AsDict(s) == Snapshot(s)
  {
  }

  /** The changes over the base, as they are validated. */
  function Changed(base: RawSettings, changes: JsonObject): JsonObject { Snapshot(base) - {"version"} + changes }

  /** Some setting asked for differs from the base. */
  ghost predicate Differs(base: RawSettings, s: RawSettings, changes: JsonObject)
  {
    exists name :: name in changes && IsSetting(name) && Snapshot(s)[name] != Snapshot(base)[name]
  }

  /** A change is proposable exactly when it names settings only, gives settings that are allowed, and
      changes one of them at the least. */
  lemma ProposableIff(h: Hashes, base: Settings, changes: JsonObject, why: string, who: string)
    ensures ProposeConfigChange(h, base, changes, why, who).Ok?
            <==> (forall name | name in changes :: IsSetting(name))
                 && exists s: Settings :: Reads(Changed(base, changes), s) && Differs(base, s, changes)
  {
    NamesAre();
    var m := Changed(base, changes);
    forall s: Settings ensures FromDict(m) == Ok(s) <==> Reads(m, s) {
      AllowedIff(s);
      FromDictIff(m, s);
    }
    if forall name | name in changes :: IsSetting(name) {
      ProposedAsRead(h, base, changes, why, who);
      if FromDict(m).Ok? { DiffersIff(base, FromDict(m).value, changes); }
      hide *;
    } else {
      hide FromDict, Reads, IsSetting, MeetsCeilings, Differs, INT_NAMES, CAP_NAME, Changed;
    }
  }

  lemma ProposedAsRead(h: Hashes, base: Settings, changes: JsonObject, why: string, who: string)
    requires forall name | name in changes :: name in INT_NAMES || name == CAP_NAME
    ensures var read := FromDict(Changed(base, changes));
            ProposeConfigChange(h, base, changes, why, who).Ok?
            <==> read.Ok? && exists name :: name in changes && Field(read.value, name) != Field(base, name)
  {
    SnapshotIs(base);
    hide FromDict, Snapshot, AsDict, MeetsCeilings, Field;
    var read, r := FromDict(Changed(base, changes)), ProposeConfigChange(h, base, changes, why, who);
    if read.Ok? {
      assert forall name :: name in ChangedNames(base, read.value, changes)
               <==> name in changes && Field(read.value, name) != Field(base, name);
      assert r.Ok? <==> ChangedNames(base, read.value, changes) != {};
    }
  }

  lemma DiffersIff(base: Settings, s: Settings, changes: JsonObject)
    requires forall name | name in changes :: IsSetting(name)
    ensures Differs(base, s, changes)
            <==> exists name :: name in changes && Field(s, name) != Field(base, name)
  {
    SnapshotIs(base);
    SnapshotIs(s);
    SettingsAreInSnapshot(base);
    SettingsAreInSnapshot(s);
    hide Snapshot, AsDict, IsSetting, MeetsCeilings;
    if Differs(base, s, changes) {
      var name :| name in changes && IsSetting(name) && Snapshot(s)[name] != Snapshot(base)[name];
      assert name in changes && Field(s, name) != Field(base, name);
    } else {
      forall name | name in changes ensures Field(s, name) == Field(base, name) { assert IsSetting(name); }
    }
  }

  lemma SettingsAreInSnapshot(s: RawSettings)
    ensures forall name | IsSetting(name) :: name in Snapshot(s)
  {
  }

  // ----- Requests -----

  /** A cleanup policy for `target`: how long to keep what, with every subject named. */
  predicate PolicyFor(policy: JsonObject, target: string)
  {
    && "kind" in policy && policy["kind"] == JStr(target)
    && "ttl_days" in policy && policy["ttl_days"].JInt? && 0 <= policy["ttl_days"].i
    && "subjects" in policy && policy["subjects"].JList? && |policy["subjects"].items| > 0
    && forall k | 0 <= k < |policy["subjects"].items| ::
         policy["subjects"].items[k].JStr? && |policy["subjects"].items[k].s| > 0
  }

  predicate WellFormedPolicy(policy: JsonObject) { PolicyFor(policy, "git") || PolicyFor(policy, "storage") }

  /** What is wrong with a request whatever the ledger holds. */
  predicate Denied(h: Hashes, req: Request, e: ConfigError)
  {
    match req
    case RecordOne(kind, subject, _, _, approver, _) =>
      e == EMPTY_FIELD && (kind == "" || subject == "" || approver == "")
    case Approve(p, _, _) =>
      e == BAD_FROZEN_HASH && (p.frozenHash == "" || p.frozenHash != h.value(Snapshot(p.settings)))
    case RecordCleanup(policy, _, approver, _) =>
      || (e == BAD_CLEANUP_POLICY && !WellFormedPolicy(policy))
      || (e == EMPTY_FIELD && WellFormedPolicy(policy) && approver == "")
  }

  predicate Granted(h: Hashes, req: Request)
  {
    match req
    case RecordOne(kind, subject, _, _, approver, _) => kind != "" && subject != "" && approver != ""
    case Approve(p, _, _) => p.frozenHash != "" && p.frozenHash == h.value(Snapshot(p.settings))
    case RecordCleanup(policy, _, approver, _) => WellFormedPolicy(policy) && approver != ""
  }

  /** The chain a request is about. */
  predicate On(req: Request, chain: string)
  {
    match req
    case RecordOne(kind, _, _, _, _, _) => chain == kind
    case Approve(_, _, _) => chain == "config"
    case RecordCleanup(policy, _, _, _) =>
      || (PolicyFor(policy, "git") && chain == "cleanup:git")
      || (PolicyFor(policy, "storage") && chain == "cleanup:storage")
  }

  /** An entry says what was asked for, when, by whom, and which content was approved. */
  predicate RecordedAs(h: Hashes, req: Request, b: Body)
  {
    match req
    case RecordOne(kind, subject, value, rationale, approver, at) =>
      && b.kind == kind && b.subject == subject && b.value == value && b.frozenHash == h.value(value)
      && b.rationale == rationale && b.approvedBy == approver && b.createdAt == at
    case Approve(p, approver, at) =>
      && b.kind == "config" && b.subject == "workflow-settings" && b.value == Snapshot(p.settings)
      && b.frozenHash == p.frozenHash && b.rationale == p.rationale && b.approvedBy == approver && b.createdAt == at
    case RecordCleanup(policy, rationale, approver, at) =>
      && (PolicyFor(policy, "git") ==> b.kind == "cleanup:git" && b.subject == "git")
      && (PolicyFor(policy, "storage") ==> b.kind == "cleanup:storage" && b.subject == "storage")
      && b.value == policy && b.frozenHash == h.value(policy)
      && b.rationale == rationale && b.approvedBy == approver && b.createdAt == at
  }

  /** An entry of the chain that no entry supersedes. */
  predicate Tip(entries: seq<Decision>, chain: string, i: nat)
  {
    && i < |entries| && entries[i].body.kind == chain
    && forall j | 0 <= j < |entries| :: entries[j].body.supersedes != Some(entries[i].id)
  }

  ghost predicate Forked(entries: seq<Decision>, chain: string)
  {
    exists i: nat, j: nat :: Tip(entries, chain, i) && Tip(entries, chain, j) && i != j
  }

  /** The entry supersedes the tip of its chain, or starts it. */
  ghost predicate Extends(entries: seq<Decision>, b: Body)
  {
    && !Forked(entries, b.kind)
    && match b.supersedes
       case None => forall i: nat :: !Tip(entries, b.kind, i)
       case Some(id) => exists i: nat :: Tip(entries, b.kind, i) && entries[i].id == id
  }

  predicate Has(entries: seq<Decision>, id: Id) { exists i :: 0 <= i < |entries| && entries[i].id == id }

  /** What a request comes to, on the ledger it finds. */
  ghost predicate Comes(h: Hashes, entries: seq<Decision>, req: Request, r: Result<Decision, ConfigError>)
  {
    match r
    case Ok(d) =>
      && Granted(h, req) && RecordedAs(h, req, d.body) && Extends(entries, d.body)
      && d.id == h.body(d.body) && !Has(entries, d.id)
    case Err(e) =>
      || Denied(h, req, e)
      || (e == SEVERAL_HEADS && Granted(h, req) && exists chain :: On(req, chain) && Forked(entries, chain))
      || (e == DUPLICATE_ENTRY && Granted(h, req)
          && exists b: Body :: RecordedAs(h, req, b) && Extends(entries, b) && Has(entries, h.body(b)))
  }

  lemma PolicyIff(policy: JsonObject)
    ensures CleanupPolicyOk(policy) <==> WellFormedPolicy(policy)
    ensures PolicyFor(policy, "git") ==> CleanupKind(policy) == "git"
    ensures PolicyFor(policy, "storage") ==> CleanupKind(policy) == "storage"
  {
    if WellFormedPolicy(policy) {
      var items := policy["subjects"].items;
      forall j | j in items ensures j.JStr? && j.s != "" {
        var k :| 0 <= k < |items| && items[k] == j;
      }
    }
    if CleanupPolicyOk(policy) {
      var items := policy["subjects"].items;
      assert forall k | 0 <= k < |items| :: items[k] in items;
    }
  }

  lemma ObjectionIff(h: Hashes, req: Request)
    ensures Granted(h, req) <==> Objection(h, req).None?
    ensures forall e :: Denied(h, req, e) <==> Objection(h, req) == Some(e)
  {
    match req
    case RecordOne(_, _, _, _, _, _) =>
    case Approve(p, _, _) => SnapshotIs(p.settings);
    case RecordCleanup(policy, _, _, _) => PolicyIff(policy);
  }

  lemma ChainIff(h: Hashes, req: Request, chain: string)
    requires Granted(h, req)
    ensures On(req, chain) <==> KindOf(req) == chain
  {
    if req.RecordCleanup? {
      PolicyIff(req.policy);
      assert "cleanup:" + "git" == "cleanup:git" && "cleanup:" + "storage" == "cleanup:storage";
    }
  }

  lemma BodyIff(h: Hashes, req: Request, b: Body)
    requires Granted(h, req)
    ensures RecordedAs(h, req, b) <==> b == BodyFor(h, req, b.supersedes)
    ensures RecordedAs(h, req, b) ==> On(req, b.kind)
  {
    match req
    case RecordOne(_, _, _, _, _, _) =>
    case Approve(p, _, _) => SnapshotIs(p.settings);
    case RecordCleanup(policy, _, _, _) =>
      PolicyIff(policy);
      assert "cleanup:" + "git" == "cleanup:git" && "cleanup:" + "storage" == "cleanup:storage";
  }

  lemma TipIff(entries: seq<Decision>, chain: string, i: nat)
    ensures Tip(entries, chain, i) <==> i in Heads(entries, chain)
  {
    if i < |entries| {
      assert entries[i].id in SupersededIds(entries)
        <==> exists j :: 0 <= j < |entries| && entries[j].body.supersedes == Some(entries[i].id);
    }
  }

  /** The chain can be read exactly when it is not forked, and then its tip is what is read. */
  lemma TipOfIff(entries: seq<Decision>, chain: string)
    ensures TipOf(entries, chain) == Err(SEVERAL_HEADS) <==> Forked(entries, chain)
    ensures TipOf(entries, chain) == Ok(None) <==> forall i: nat :: !Tip(entries, chain, i)
    ensures forall d :: TipOf(entries, chain) == Ok(Some(d))
              <==> !Forked(entries, chain) && exists i: nat :: Tip(entries, chain, i) && entries[i] == d
    ensures TipOf(entries, chain).Err? ==> TipOf(entries, chain) == Err(SEVERAL_HEADS)
  {
    var heads := Heads(entries, chain);
    forall i: nat ensures Tip(entries, chain, i) <==> i in heads { TipIff(entries, chain, i); }
    hide Heads, Tip;
    if |heads| > 1 {
      var i :| i in heads;
      if heads <= {i} { SubsetIsSmaller(heads, {i}); }
      var j :| j in heads && j != i;
      assert Forked(entries, chain);
    } else {
      forall i, j | i in heads && j in heads ensures i == j { SingletonOnly(heads, i, j); }
      if heads != {} {
        var i :| i in heads && TipOf(entries, chain) == Ok(Some(entries[i]));
        assert Tip(entries, chain, i);
      }
    }
  }

  /** Reading the tip of one's chain and appending comes to exactly this, on any ledger. */
  lemma PerformIff(h: Hashes, entries: seq<Decision>, req: Request, r: Result<Decision, ConfigError>)
    requires WellFormed(h, entries)
    ensures Perform(h, entries, req) == r <==> Comes(h, entries, req, r)
  {
    ObjectionIff(h, req);
    hide WellFormed, Objection, Denied, TipOf, Refusal, BodyFor;
    if Granted(h, req) {
      GrantedIff(h, entries, req, r);
    } else {
      hide Granted;
      if r.Err? { NeverBoth(h, entries, req, r.error); }
    }
  }

  lemma NeverBoth(h: Hashes, entries: seq<Decision>, req: Request, e: ConfigError)
    requires !Granted(h, req)
    ensures Comes(h, entries, req, Err(e)) <==> Denied(h, req, e)
  {
    hide Granted, Denied, RecordedAs, Extends, Forked, On, Has;
  }

  /** The one entry a granted request can leave on a ledger it can read. */
  function EntryOn(h: Hashes, req: Request, tip: Option<Decision>): Decision
  {
    var body := BodyFor(h, req, IdOf(tip));
    Decision(body, h.body(body))
  }

  lemma ExtendsIff(h: Hashes, entries: seq<Decision>, req: Request, b: Body)
    requires Granted(h, req)
    ensures RecordedAs(h, req, b) && Extends(entries, b)
            <==> TipOf(entries, KindOf(req)).Ok? && b == BodyFor(h, req, IdOf(TipOf(entries, KindOf(req)).value))
  {
    BodyIff(h, req, b);
    ChainIff(h, req, b.kind);
    TipOfIff(entries, KindOf(req));
    hide Granted, RecordedAs, On, Tip, Forked, TipOf, KindOf;
  }

  /** An entry that follows the tip just read is refused only for being there already. */
  lemma RefusalIff(h: Hashes, entries: seq<Decision>, d: Decision, tip: Option<Decision>)
    requires WellFormed(h, entries) && d.id == h.body(d.body)
    requires TipOf(entries, d.body.kind) == Ok(tip) && d.body.supersedes == IdOf(tip)
    ensures Refusal(h, entries, d) == if Has(entries, d.id) then Some(DUPLICATE_ENTRY) else None
  {
    assert Known(entries, d.id) <==> Has(entries, d.id);
    if tip.Some? {
      var t :| t in Heads(entries, d.body.kind) && entries[t] == tip.value;
      assert Known(entries, tip.value.id) && KnownOfKind(entries, |entries|, tip.value.id, d.body.kind);
    }
  }

  lemma GrantedIff(h: Hashes, entries: seq<Decision>, req: Request, r: Result<Decision, ConfigError>)
    requires WellFormed(h, entries) && Granted(h, req)
    ensures Perform(h, entries, req) == r <==> Comes(h, entries, req, r)
  {
    var kind := KindOf(req);
    var tip := TipOf(entries, kind);
    ObjectionIff(h, req);
    TipOfIff(entries, kind);
    forall chain ensures On(req, chain) <==> chain == kind { ChainIff(h, req, chain); }
    forall b
      ensures RecordedAs(h, req, b) && Extends(entries, b) <==> tip.Ok? && b == BodyFor(h, req, IdOf(tip.value))
    {
      ExtendsIff(h, entries, req, b);
    }
    if tip.Ok? {
      var d := EntryOn(h, req, tip.value);
      BodyKind(h, req, IdOf(tip.value));
      RefusalIff(h, entries, d, tip.value);
    }
    hide WellFormed, Objection, Denied, Granted, TipOf, Refusal, BodyFor, RecordedAs, Extends, On, KindOf;
    hide Has, Forked, Tip;
  }

  lemma BodyKind(h: Hashes, req: Request, supersedes: Option<Id>)
    ensures BodyFor(h, req, supersedes).kind == KindOf(req) && BodyFor(h, req, supersedes).supersedes == supersedes
  {
  }

  /** A recorded value reads as allowed settings, and as those that were approved. */
  ghost predicate ReadsBack(h: Hashes, b: Body, r: Result<Settings, ConfigError>)
  {
    match r
    case Ok(s) => Reads(b.value, s) && h.value(Snapshot(s)) == b.frozenHash
    case Err(e) =>
      || (e == BAD_SETTINGS && forall s: Settings :: !Reads(b.value, s))
      || (e == BAD_FROZEN_HASH && exists s: Settings :: Reads(b.value, s) && h.value(Snapshot(s)) != b.frozenHash)
  }

  /** The settings in force: the defaults while nothing is recorded, else what the one tip of the
      chain reads back as. */
  ghost predicate InForce(h: Hashes, entries: seq<Decision>, r: Result<Settings, ConfigError>)
  {
    if Forked(entries, "config") then r == Err(SEVERAL_HEADS)
    else if forall i: nat :: !Tip(entries, "config", i) then
      r == Ok(RawSettings(3, 5, 1, 8, 90, 30, 7, 7, Binary(1, 1)))
    else exists i: nat :: Tip(entries, "config", i) && ReadsBack(h, entries[i].body, r)
  }

  lemma ReadsBackIff(h: Hashes, b: Body, r: Result<Settings, ConfigError>)
    ensures var s := FromDict(b.value);
            r == (if s.Ok? && FrozenHash(h, s.value) != b.frozenHash then Err(BAD_FROZEN_HASH) else s)
            <==> ReadsBack(h, b, r)
  {
    forall s: Settings
      ensures FromDict(b.value) == Ok(s) <==> Reads(b.value, s)
      ensures FrozenHash(h, s) == h.value(Snapshot(s))
    {
      AllowedIff(s);
      FromDictIff(b.value, s);
      SnapshotIs(s);
    }
    assert FromDict(b.value).Err? ==> FromDict(b.value) == Err(BAD_SETTINGS);
    hide FromDict, Reads, Snapshot, FrozenHash, MeetsCeilings;
  }

  lemma InForceIff(h: Hashes, entries: seq<Decision>, r: Result<Settings, ConfigError>)
    ensures SettingsIn(h, entries) == r <==> InForce(h, entries, r)
  {
    TipOfIff(entries, "config");
    DefaultsAre();
    forall i: nat | Tip(entries, "config", i) { ReadsBackIff(h, entries[i].body, r); }
    hide FromDict, ReadsBack, FrozenHash, Tip, Forked, TipOf, MeetsCeilings, DEFAULTS;
  }

  lemma DefaultsAre()
    ensures DEFAULTS == RawSettings(3, 5, 1, 8, 90, 30, 7, 7, Binary(1, 1))
  {
  }

  // ----- Sequential callers -----

  /** The last granted request about the chain. */
  predicate LastOn(h: Hashes, reqs: seq<Request>, chain: string, k: nat)
  {
    && k < |reqs| && Granted(h, reqs[k]) && On(reqs[k], chain)
    && forall j | k < j < |reqs| :: !(Granted(h, reqs[j]) && On(reqs[j], chain))
  }

  /** The chain's one tip records the request. */
  ghost predicate TipRecords(h: Hashes, entries: seq<Decision>, chain: string, req: Request)
  {
    !Forked(entries, chain) && exists i: nat :: Tip(entries, chain, i) && RecordedAs(h, req, entries[i].body)
  }

  lemma GrantedOn(h: Hashes, req: Request, chain: string)
    ensures Granted(h, req) && On(req, chain) <==> KindOf(req) == chain && Objection(h, req).None?
  {
    ObjectionIff(h, req);
    if Granted(h, req) { ChainIff(h, req, chain); }
  }

  lemma {:induction false} LastOnIff(h: Hashes, reqs: seq<Request>, chain: string, k: nat)
    ensures LastOn(h, reqs, chain, k) ==> LastRequest(h, reqs, chain) == Some(reqs[k])
    ensures LastRequest(h, reqs, chain).Some? ==> exists j: nat :: LastOn(h, reqs, chain, j)
  {
    hide Granted, On, Objection, KindOf;
    if reqs != [] {
      var n := |reqs| - 1;
      var before := reqs[..n];
      GrantedOn(h, reqs[n], chain);
      LastOnIff(h, before, chain, k);
      if Granted(h, reqs[n]) && On(reqs[n], chain) {
        assert LastOn(h, reqs, chain, n);
      } else if LastRequest(h, before, chain).Some? {
        var j: nat :| LastOn(h, before, chain, j);
        assert LastOn(h, reqs, chain, j);
      }
    }
  }

  /** Whatever is asked for in sequence, each chain ends in the last granted request about it, and is
      empty when there is none. */
  lemma ChainsRemember(h: Hashes, reqs: seq<Request>, chain: string)
    requires Injective(h)
    ensures var entries := PerformAll(h, reqs);
            && (forall k: nat | LastOn(h, reqs, chain, k) :: TipRecords(h, entries, chain, reqs[k]))
            && ((exists i: nat :: Tip(entries, chain, i)) <==> exists k: nat :: LastOn(h, reqs, chain, k))
  {
    var entries, last := PerformAll(h, reqs), LastRequest(h, reqs, chain);
    SequentialLedgerIsAMap(h, reqs);
    assert Remembers(h, entries, chain, last);
    LastRequestIsOne(h, reqs, chain);
    TipOfIff(entries, chain);
    LastOnIff(h, reqs, chain, 0);
    if last.Some? {
      ObjectionIff(h, last.value);
      var i: nat :| Tip(entries, chain, i);
      BodyIff(h, last.value, entries[i].body);
    }
    forall k: nat | LastOn(h, reqs, chain, k) ensures TipRecords(h, entries, chain, reqs[k]) {
      LastOnIff(h, reqs, chain, k);
    }
  }

  /** A granted request is never turned down by the ledger of sequential callers: it is appended, with
      nothing else changed, and a denied one leaves the ledger alone. */
  lemma SequentialStep(h: Hashes, reqs: seq<Request>, req: Request)
    requires Injective(h)
    ensures var before, after := PerformAll(h, reqs), PerformAll(h, reqs + [req]);
            if Granted(h, req) then
              && |after| == |before| + 1 && before <= after
              && Comes(h, before, req, Ok(after[|before|]))
            else after == before
  {
    assert (reqs + [req])[..|reqs|] == reqs;
    var before := PerformAll(h, reqs);
    SequentialLedgerIsAMap(h, reqs);
    ObjectionIff(h, req);
    PerformIff(h, before, req, Perform(h, before, req));
    if Granted(h, req) { SequentialRequest(h, before, req); }
  }

  /** The last request to record a cleanup policy for the target. */
  predicate LastPolicy(reqs: seq<Request>, target: string, k: nat)
  {
    && k < |reqs| && ForTarget(reqs[k], target)
    && forall j | k < j < |reqs| :: !ForTarget(reqs[j], target)
  }

  predicate ForTarget(req: Request, target: string)
  {
    req.RecordCleanup? && req.approver != "" && PolicyFor(req.policy, target)
  }

  ghost predicate Holds(entries: seq<Decision>, chain: string, policy: JsonObject)
  {
    !Forked(entries, chain) && exists i: nat :: Tip(entries, chain, i) && entries[i].body.value == policy
  }

  /** The git policy in force is the last one approved for git, the storage policy the last one approved
      for storage, whatever comes in between: neither ever supersedes the other. */
  lemma CleanupChainsAreIndependent(h: Hashes, reqs: seq<Request>, git: nat, storage: nat)
    requires Injective(h)
    requires forall k | 0 <= k < |reqs| && reqs[k].RecordOne? :: reqs[k].kind !in {"cleanup:git", "cleanup:storage"}
    ensures LastPolicy(reqs, "git", git) ==> Holds(PerformAll(h, reqs), "cleanup:git", reqs[git].policy)
    ensures LastPolicy(reqs, "storage", storage) ==>
              Holds(PerformAll(h, reqs), "cleanup:storage", reqs[storage].policy)
  {
    assert "config"[1] != "cleanup:git"[1] && "config"[1] != "cleanup:storage"[1];
    assert "cleanup:git"[8] != "cleanup:storage"[8];
    forall k | 0 <= k < |reqs|
      ensures ForTarget(reqs[k], "git") <==> Granted(h, reqs[k]) && On(reqs[k], "cleanup:git")
      ensures ForTarget(reqs[k], "storage") <==> Granted(h, reqs[k]) && On(reqs[k], "cleanup:storage")
    {
      assert "git"[0] != "storage"[0];
    }
    hide ForTarget, Granted, On, PerformAll;
    ChainsRemember(h, reqs, "cleanup:git");
    ChainsRemember(h, reqs, "cleanup:storage");
  }
}
