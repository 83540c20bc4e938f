/**
 The configuration audit ledger of src/saberops/config.py.

 Entries are identified by the digest of their body and linked by `supersedes`.  `TipFor`
 reads without a lock; `Append` checks and writes under one.  A caller that reads a tip and
 then appends is therefore two steps, and other callers may come in between.
 */
module ConfigLedger {
  import opened Wrappers

  type Id = string

  /** A finite floating-point number: mantissa times a power of two, in lowest terms. */
  datatype Binary = Binary(mantissa: int, exponent: int)

  type Float = b: Binary | if b.mantissa == 0 then b.exponent == 0 else b.mantissa % 2 != 0 witness Binary(0, 0)

  function Reduced(mantissa: int, exponent: int): (f: Float)
    ensures (mantissa > 0 <==> f.mantissa > 0) && (mantissa < 0 <==> f.mantissa < 0)
    decreases if mantissa < 0 then -mantissa else mantissa
  {
    if mantissa == 0 then Binary(0, 0)
    else if mantissa % 2 != 0 then Binary(mantissa, exponent)
    else Reduced(mantissa / 2, exponent + 1)
  }

  datatype Json = JNull | JBool(b: bool) | JInt(i: int) | JFloat(f: Float) | JStr(s: string) | JList(items: seq<Json>)

  type JsonObject = map<string, Json>

  datatype Body = Body(createdAt: string, kind: string, subject: string, value: JsonObject, rationale: string,
                       approvedBy: string, supersedes: Option<Id>, frozenHash: Id)

  datatype Decision = Decision(body: Body, id: Id)

  /** The content hashes of an entry body and of a value. */
  datatype Hashes = Hashes(body: Body -> Id, value: JsonObject -> Id)

  ghost predicate Injective(h: Hashes)
  {
    && (forall a: Body, b: Body :: h.body(a) == h.body(b) ==> a == b)
    && (forall a: JsonObject, b: JsonObject :: h.value(a) == h.value(b) ==> a == b)
    && (forall a: JsonObject :: h.value(a) != "")
  }

  datatype ConfigError =
    | HASH_MISMATCH | DUPLICATE_ENTRY | ALREADY_HAS_HEAD | TARGET_MISSING | TARGET_OTHER_KIND | SEVERAL_HEADS
    | EMPTY_FIELD | BAD_FROZEN_HASH | BAD_CLEANUP_POLICY | BAD_SETTINGS

  // ----- Heads -----

  function SupersededIds(entries: seq<Decision>): set<Id>
  {
    set i | 0 <= i < |entries| && entries[i].body.supersedes.Some? :: entries[i].body.supersedes.value
  }

  /** The positions of the entries of `kind` that nothing supersedes. */
  function Heads(entries: seq<Decision>, kind: string): set<nat>
  {
    set i: nat | i < |entries| && entries[i].body.kind == kind && entries[i].id !in SupersededIds(entries)
  }

  /** Some entry at a position in lo..hi is of `kind`. */
  predicate KindWithin(entries: seq<Decision>, lo: nat, hi: nat, kind: string)
  {
    exists i: nat :: lo <= i < hi && i < |entries| && entries[i].body.kind == kind
  }

  predicate HasKind(entries: seq<Decision>, kind: string)
  {
    KindWithin(entries, 0, |entries|, kind)
  }

  /** The entry with this id is in the ledger. */
  predicate Known(entries: seq<Decision>, id: Id)
  {
    exists i :: 0 <= i < |entries| && entries[i].id == id
  }

  /** An entry of `kind` before position n has this id. */
  predicate KnownOfKind(entries: seq<Decision>, n: nat, id: Id, kind: string)
  {
    exists i: nat :: i < n && i < |entries| && entries[i].id == id && entries[i].body.kind == kind
  }

  /** What `Append` refuses, in the order it looks. */
  function Refusal(h: Hashes, entries: seq<Decision>, d: Decision): Option<ConfigError>
  {
    if d.id != h.body(d.body) then Some(HASH_MISMATCH)
    else if Known(entries, d.id) then Some(DUPLICATE_ENTRY)
    else if d.body.supersedes.None? then
      if Heads(entries, d.body.kind) != {} then Some(ALREADY_HAS_HEAD) else None
    else if !Known(entries, d.body.supersedes.value) then Some(TARGET_MISSING)
    else if !KnownOfKind(entries, |entries|, d.body.supersedes.value, d.body.kind) then Some(TARGET_OTHER_KIND)
    else None
  }

  /** The ledger after the append, whether or not it was refused. */
  function Appended(h: Hashes, entries: seq<Decision>, d: Decision): seq<Decision>
  {
    if Refusal(h, entries, d).None? then entries + [d] else entries
  }

  function AppendAll(h: Hashes, entries: seq<Decision>, ds: seq<Decision>): seq<Decision>
    decreases |ds|
  {
    if ds == [] then entries else AppendAll(h, Appended(h, entries, ds[0]), ds[1..])
  }

  // ----- What every append keeps -----

  /** Ids are content hashes and distinct; a link goes to an earlier entry of the same kind;
      only the first entry of a kind has none. */
  ghost predicate WellFormed(h: Hashes, entries: seq<Decision>)
  {
    && (forall i | 0 <= i < |entries| :: entries[i].id == h.body(entries[i].body))
    && (forall i, j | 0 <= i < j < |entries| :: entries[i].id != entries[j].id)
    && (forall i | 0 <= i < |entries| :: LinkOk(entries, i))
  }

  predicate LinkOk(entries: seq<Decision>, i: nat)
    requires i < |entries|
  {
    match entries[i].body.supersedes
    case None => !KindWithin(entries, 0, i, entries[i].body.kind)
    case Some(x) => KnownOfKind(entries, i, x, entries[i].body.kind)
  }

  /** The last entry of a kind is always a head. */
  lemma LastIsHead(h: Hashes, entries: seq<Decision>, kind: string) returns (last: nat)
    requires WellFormed(h, entries) && HasKind(entries, kind)
    ensures last in Heads(entries, kind)
    ensures !KindWithin(entries, last + 1, |entries|, kind)
  {
    last := |entries| - 1;
    while entries[last].body.kind != kind
      invariant 0 <= last < |entries|
      invariant KindWithin(entries, 0, last + 1, kind)
      invariant !KindWithin(entries, last + 1, |entries|, kind)
      decreases last
    {
      last := last - 1;
    }
    forall i | 0 <= i < |entries| ensures entries[i].body.supersedes != Some(entries[last].id) {
      assert LinkOk(entries, i);
    }
  }

  lemma LinksKeptByAppend(entries: seq<Decision>, d: Decision, i: nat)
    requires i < |entries|
    ensures LinkOk(entries + [d], i) <==> LinkOk(entries, i)
  {
    var after := entries + [d];
    assert forall j | 0 <= j < |entries| :: after[j] == entries[j];
  }

  lemma SupersededAfter(entries: seq<Decision>, d: Decision)
    ensures SupersededIds(entries + [d]) ==
            SupersededIds(entries) + if d.body.supersedes.Some? then {d.body.supersedes.value} else {}
  {
    var after := entries + [d];
    forall x | x in SupersededIds(entries) ensures x in SupersededIds(after) {
      var i: nat :| i < |entries| && entries[i].body.supersedes == Some(x);
      assert after[i] == entries[i];
    }
    if d.body.supersedes.Some? { assert after[|entries|] == d; }
  }

  /** The heads of every kind after one more entry. */
  lemma HeadsAfter(h: Hashes, entries: seq<Decision>, d: Decision, kind: string)
    requires WellFormed(h, entries) && Refusal(h, entries, d).None?
    ensures WellFormed(h, entries + [d])
    ensures kind != d.body.kind ==> Heads(entries + [d], kind) == Heads(entries, kind)
    ensures d.body.supersedes.None? ==>
              !HasKind(entries, d.body.kind) && Heads(entries + [d], d.body.kind) == {|entries|}
    ensures forall t: nat | t < |entries| && d.body.supersedes == Some(entries[t].id) ::
              Heads(entries + [d], d.body.kind) == Heads(entries, d.body.kind) - {t} + {|entries|}
  {
    var after := entries + [d];
    assert forall i | 0 <= i < |entries| :: after[i] == entries[i];
    if d.body.supersedes.None? && HasKind(entries, d.body.kind) {
      var last := LastIsHead(h, entries, d.body.kind);
    }
    forall i: nat | i < |after| ensures LinkOk(after, i) {
      if i < |entries| { LinksKeptByAppend(entries, d, i); }
    }
    assert WellFormed(h, after);
    HeadsChange(h, entries, d, kind);
  }

  lemma HeadsChange(h: Hashes, entries: seq<Decision>, d: Decision, kind: string)
    requires WellFormed(h, entries) && Refusal(h, entries, d).None?
    requires d.body.supersedes.None? ==> !HasKind(entries, d.body.kind)
    ensures kind != d.body.kind ==> Heads(entries + [d], kind) == Heads(entries, kind)
    ensures d.body.supersedes.None? ==> Heads(entries + [d], d.body.kind) == {|entries|}
    ensures forall t: nat | t < |entries| && d.body.supersedes == Some(entries[t].id) ::
              Heads(entries + [d], d.body.kind) == Heads(entries, d.body.kind) - {t} + {|entries|}
  {
    SupersededAfter(entries, d);
    NothingSupersedesNew(h, entries, d);
    IdsAreApart(h, entries, d);
    hide WellFormed, Refusal, SupersededIds, HasKind;
    HeadsByPosition(entries, d, kind);
    HeadsByPosition(entries, d, d.body.kind);
    if d.body.supersedes.None? { NoHeadsWithoutKind(entries, d.body.kind); }
  }

  lemma HeadsByPosition(entries: seq<Decision>, d: Decision, kind: string)
    requires d.id !in SupersededIds(entries + [d])
    ensures forall i: nat :: i in Heads(entries + [d], kind)
              <==> if i == |entries| then d.body.kind == kind
                   else i < |entries| && entries[i].body.kind == kind && entries[i].id !in SupersededIds(entries + [d])
    ensures forall i: nat :: i in Heads(entries, kind)
              <==> i < |entries| && entries[i].body.kind == kind && entries[i].id !in SupersededIds(entries)
  {
    hide SupersededIds;
    var after := entries + [d];
    assert forall i | 0 <= i < |entries| :: after[i] == entries[i];
  }

  lemma NoHeadsWithoutKind(entries: seq<Decision>, kind: string)
    requires !HasKind(entries, kind)
    ensures forall i | 0 <= i < |entries| :: entries[i].body.kind != kind
  {
  }

  lemma IdsAreApart(h: Hashes, entries: seq<Decision>, d: Decision)
    requires WellFormed(h, entries) && Refusal(h, entries, d).None?
    ensures forall i, j | 0 <= i < |entries| && 0 <= j < |entries| && i != j :: entries[i].id != entries[j].id
  {
    hide LinkOk, Heads;
  }

  lemma NothingSupersedesNew(h: Hashes, entries: seq<Decision>, d: Decision)
    requires WellFormed(h, entries) && Refusal(h, entries, d).None?
    ensures d.id !in SupersededIds(entries + [d])
  {
    var after := entries + [d];
    forall i | 0 <= i < |after| ensures after[i].body.supersedes != Some(d.id) {
      if i < |entries| { assert LinkOk(entries, i); }
    }
  }

  /** In any ledger built by appends, `supersedes` points strictly backwards within a kind,
      and a kind with entries has exactly one root and at least one head. */
  lemma {:induction false} BuiltLedgers(h: Hashes, entries: seq<Decision>, ds: seq<Decision>, kind: string)
    requires WellFormed(h, entries)
    ensures var built := AppendAll(h, entries, ds);
            && WellFormed(h, built)
            && (HasKind(built, kind) ==>
                  && (exists r :: Root(built, kind, r) && forall q | Root(built, kind, q) :: q == r)
                  && Heads(built, kind) != {})
    decreases |ds|
  {
    if ds == [] {
      if HasKind(entries, kind) {
        var last := LastIsHead(h, entries, kind);
        var r := FirstOfKind(h, entries, kind);
        forall q | Root(entries, kind, q) ensures q == r { assert LinkOk(entries, q); }
      }
    } else {
      if Refusal(h, entries, ds[0]).None? { HeadsAfter(h, entries, ds[0], kind); }
      BuiltLedgers(h, Appended(h, entries, ds[0]), ds[1..], kind);
    }
  }

  predicate Root(entries: seq<Decision>, kind: string, r: nat)
  {
    r < |entries| && entries[r].body.kind == kind && entries[r].body.supersedes.None?
  }

  lemma FirstOfKind(h: Hashes, entries: seq<Decision>, kind: string) returns (r: nat)
    requires WellFormed(h, entries) && HasKind(entries, kind)
    ensures Root(entries, kind, r) && !KindWithin(entries, 0, r, kind)
  {
    r := 0;
    while entries[r].body.kind != kind
      invariant r < |entries| && !KindWithin(entries, 0, r, kind)
      decreases |entries| - r
    {
      assert HasKind(entries, kind);
      r := r + 1;
    }
    assert LinkOk(entries, r);
  }

  /** One append never loses a head, and gains one exactly when it starts a kind or its
      target is no longer a head. */
  lemma HeadCountAfter(h: Hashes, entries: seq<Decision>, d: Decision)
    requires WellFormed(h, entries) && Refusal(h, entries, d).None?
    ensures var before, after := Heads(entries, d.body.kind), Heads(entries + [d], d.body.kind);
            |after| == |before| + if TargetIsHead(entries, d) then 0 else 1
  {
    HeadsAfter(h, entries, d, d.body.kind);
    var before := Heads(entries, d.body.kind);
    assert |entries| !in before;
    if d.body.supersedes.None? {
      assert before == {};
    } else {
      var t: nat :| t < |entries| && entries[t].id == d.body.supersedes.value && entries[t].body.kind == d.body.kind;
      assert TargetIsHead(entries, d) <==> t in before;
      assert |entries| !in before - {t};
    }
  }

  /** The entry d supersedes is a head of d's kind. */
  predicate TargetIsHead(entries: seq<Decision>, d: Decision)
  {
    && d.body.supersedes.Some?
    && exists t: nat :: t in Heads(entries, d.body.kind) && entries[t].id == d.body.supersedes.value
  }

  lemma {:induction false} HeadCountNeverFalls(h: Hashes, entries: seq<Decision>, ds: seq<Decision>, kind: string)
    requires WellFormed(h, entries)
    ensures |Heads(AppendAll(h, entries, ds), kind)| >= |Heads(entries, kind)|
    decreases |ds|
  {
    if ds != [] {
      if Refusal(h, entries, ds[0]).None? {
        HeadsAfter(h, entries, ds[0], kind);
        HeadCountAfter(h, entries, ds[0]);
      }
      HeadCountNeverFalls(h, Appended(h, entries, ds[0]), ds[1..], kind);
    }
  }

  // ----- Racing writers -----

  /** What was in the ledger stays in it, and it stays well formed. */
  lemma {:induction false} AppendAllExtends(h: Hashes, entries: seq<Decision>, ds: seq<Decision>)
    requires WellFormed(h, entries)
    ensures entries <= AppendAll(h, entries, ds) && WellFormed(h, AppendAll(h, entries, ds))
    decreases |ds|
  {
    hide WellFormed, Refusal, Heads;
    if ds != [] {
      if Refusal(h, entries, ds[0]).None? { HeadsAfter(h, entries, ds[0], ds[0].body.kind); }
      AppendAllExtends(h, Appended(h, entries, ds[0]), ds[1..]);
    }
  }

  lemma HasKindHasHead(h: Hashes, entries: seq<Decision>, kind: string)
    requires WellFormed(h, entries) && HasKind(entries, kind)
    ensures |Heads(entries, kind)| >= 1
  {
    var last := LastIsHead(h, entries, kind);
    assert last in Heads(entries, kind);
  }

  /** An entry of d's kind with the id d supersedes: d itself is not refused. */
  lemma TargetAccepted(h: Hashes, entries: seq<Decision>, t: nat, d: Decision)
    requires t < |entries| && entries[t].body.kind == d.body.kind && d.body.supersedes == Some(entries[t].id)
    requires d.id == h.body(d.body) && !Known(entries, d.id)
    ensures Refusal(h, entries, d).None?
  {
    hide Heads;
    assert Known(entries, entries[t].id);
    assert KnownOfKind(entries, |entries|, entries[t].id, d.body.kind);
  }

  /** Once an entry superseding it is in the ledger, a target is no head. */
  lemma SupersededIsNoHead(entries: seq<Decision>, k: nat, d: Decision)
    requires k < |entries| && entries[k].body.supersedes == d.body.supersedes && d.body.supersedes.Some?
    ensures !TargetIsHead(entries, d)
  {
    assert d.body.supersedes.value in SupersededIds(entries);
  }

  /** Two writers that read the same tip at `entries`, each appending at some later time with
      any appends by others before, between and after: both appends go through, and the
      kind has two heads or more in every later state, so that `TipFor` refuses it. */
  lemma RacingWritersForkForever(h: Hashes, entries: seq<Decision>, t: nat, before: seq<Decision>, d1: Decision,
                                 between: seq<Decision>, d2: Decision, later: seq<Decision>)
    requires WellFormed(h, entries) && t in Heads(entries, d1.body.kind)
    requires d1.id == h.body(d1.body) && d2.id == h.body(d2.body)
    requires d1.body.kind == d2.body.kind && d1.body.supersedes == d2.body.supersedes == Some(entries[t].id)
    requires var one := AppendAll(h, entries, before);
             !Known(one, d1.id) && !Known(AppendAll(h, one + [d1], between), d2.id)
    ensures var one := AppendAll(h, entries, before);
            var two := AppendAll(h, one + [d1], between);
            && Refusal(h, one, d1).None? && Refusal(h, two, d2).None?
            && |Heads(AppendAll(h, two + [d2], later), d1.body.kind)| >= 2
  {
    var kind := d1.body.kind;
    var one := AppendAll(h, entries, before);
    AppendAllExtends(h, entries, before);
    assert one[t] == entries[t];
    TargetAccepted(h, one, t, d1);
    HeadsAfter(h, one, d1, kind);
    var two := AppendAll(h, one + [d1], between);
    AppendAllExtends(h, one + [d1], between);
    assert two[t] == entries[t] && two[|one|] == d1;
    hide WellFormed, Refusal, Known, Heads, SupersededIds;
    TargetAccepted(h, two, t, d2);
    HasKindHasHead(h, two, kind);
    SupersededIsNoHead(two, |one|, d2);
    HeadCountAfter(h, two, d2);
    HeadsAfter(h, two, d2, kind);
    HeadCountNeverFalls(h, two + [d2], later, kind);
  }

  lemma {:induction false} SubsetIsSmaller(a: set<nat>, b: set<nat>)
    requires a <= b
    ensures |a| <= |b|
  {
    if a != {} {
      var x :| x in a;
      SubsetIsSmaller(a - {x}, b - {x});
    }
  }

  /** When both read an empty kind, the second append is refused instead, whatever came in
      between. */
  lemma RacingFirstWriters(h: Hashes, entries: seq<Decision>, d1: Decision, between: seq<Decision>, d2: Decision)
    requires WellFormed(h, entries) && Refusal(h, entries, d1).None?
    requires d1.body.kind == d2.body.kind && d2.body.supersedes == None
    requires d2.id == h.body(d2.body) && !Known(AppendAll(h, entries + [d1], between), d2.id)
    ensures Refusal(h, AppendAll(h, entries + [d1], between), d2) == Some(ALREADY_HAS_HEAD)
  {
    HeadsAfter(h, entries, d1, d1.body.kind);
    AppendAllExtends(h, entries + [d1], between);
    var two := AppendAll(h, entries + [d1], between);
    assert two[|entries|] == d1;
    HasKindHasHead(h, two, d1.body.kind);
  }

  // ----- One head means one linear chain -----

  /** Position i supersedes the entry of its kind just before it, if there is one. */
  ghost predicate FollowsItsPredecessor(entries: seq<Decision>, i: nat)
    requires i < |entries|
  {
    var kind := entries[i].body.kind;
    KindWithin(entries, 0, i, kind) ==>
      exists p: nat :: p < i && entries[p].body.kind == kind && !KindWithin(entries, p + 1, i, kind)
                       && entries[i].body.supersedes == Some(entries[p].id)
  }

  ghost predicate LinearChain(entries: seq<Decision>, kind: string)
  {
    forall i: nat | i < |entries| && entries[i].body.kind == kind :: FollowsItsPredecessor(entries, i)
  }

  lemma WellFormedPrefix(h: Hashes, entries: seq<Decision>)
    requires WellFormed(h, entries) && entries != []
    ensures WellFormed(h, entries[..|entries| - 1])
    ensures Refusal(h, entries[..|entries| - 1], entries[|entries| - 1]).None?
  {
    var n := |entries| - 1;
    var before, d := entries[..n], entries[n];
    assert entries == before + [d];
    forall i: nat | i < n ensures LinkOk(before, i) { LinksKeptByAppend(before, d, i); }
    assert LinkOk(entries, n);
  }

  /** A kind keeps a single head exactly when its entries form one linear chain: the audit
      trail the ledger promises is precisely the ledgers `TipFor` can read. */
  lemma {:induction false} OneHeadIffLinear(h: Hashes, entries: seq<Decision>, kind: string)
    requires WellFormed(h, entries)
    ensures |Heads(entries, kind)| <= 1 <==> LinearChain(entries, kind)
  {
    if entries != [] {
      var n := |entries| - 1;
      var before, d := entries[..n], entries[n];
      assert entries == before + [d];
      WellFormedPrefix(h, entries);
      OneHeadIffLinear(h, before, kind);
      HeadsAfter(h, before, d, kind);
      assert LinearChain(entries, kind) <==>
             LinearChain(before, kind) && (d.body.kind == kind ==> FollowsItsPredecessor(entries, n)) by {
        LinearPrefix(before, d, kind);
      }
      if d.body.kind == kind {
        HeadCountAfter(h, before, d);
        if HasKind(before, kind) {
          var last := LastIsHead(h, before, kind);
          LastTarget(h, before, d, last);
        } else {
          assert Heads(before, kind) == {};
        }
      }
    }
  }

  lemma LinearPrefix(before: seq<Decision>, d: Decision, kind: string)
    ensures var entries := before + [d];
            LinearChain(entries, kind) <==>
            LinearChain(before, kind) && (d.body.kind == kind ==> FollowsItsPredecessor(entries, |before|))
  {
    var entries := before + [d];
    forall i: nat | i < |before|
      ensures FollowsItsPredecessor(entries, i) <==> FollowsItsPredecessor(before, i)
    {
      assert forall j | 0 <= j < |before| :: entries[j] == before[j];
    }
  }

  /** With one head, the last entry of the kind is the head, and superseding it is following
      one's predecessor. */
  lemma LastTarget(h: Hashes, before: seq<Decision>, d: Decision, last: nat)
    requires WellFormed(h, before) && Refusal(h, before, d).None?
    requires last in Heads(before, d.body.kind) && !KindWithin(before, last + 1, |before|, d.body.kind)
    ensures FollowsItsPredecessor(before + [d], |before|) <==> d.body.supersedes == Some(before[last].id)
    ensures |Heads(before, d.body.kind)| <= 1 ==>
              (TargetIsHead(before, d) <==> d.body.supersedes == Some(before[last].id))
  {
    var entries, n, kind := before + [d], |before|, d.body.kind;
    assert forall j | 0 <= j < n :: entries[j] == before[j];
    assert forall lo: nat :: KindWithin(entries, lo, n, kind) <==> KindWithin(before, lo, n, kind);
    assert forall p: nat | p < n && entries[p].body.kind == kind && !KindWithin(entries, p + 1, n, kind) :: p == last;
    if |Heads(before, kind)| <= 1 {
      forall i | i in Heads(before, kind) ensures i == last { SingletonOnly(Heads(before, kind), i, last); }
    }
  }

  lemma SingletonOnly(s: set<nat>, a: nat, b: nat)
    requires a in s && b in s && |s| <= 1
    ensures a == b
  {
    if a != b { SubsetIsSmaller({a, b}, s); }
  }
}
