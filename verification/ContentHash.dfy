/**
 A content identification as the ledger needs one: canonical text, from which the content can be
 told.  It stands where the program puts a digest of such text, and shows that hashes that never
 collide can be had.
 */
module ContentHash {
  import opened ConfigLedger
  import opened Decimal
  import opened Wrappers

  function NatText(n: nat): string { Show(n) + ":" }

  function StringText(s: string): string { NatText(|s|) + s }

  function IntText(i: int): string { if i < 0 then "-" + NatText(-i) else "+" + NatText(i) }

  function JsonText(j: Json): string
    decreases j
  {
    match j
    case JNull => "n"
    case JBool(b) => if b then "t" else "f"
    case JInt(i) => "i" + IntText(i)
    case JFloat(f) => "r" + (IntText(f.mantissa) + IntText(f.exponent))
    case JStr(s) => "s" + StringText(s)
    case JList(items) => "l" + (NatText(|items|) + ItemsText(items))
  }

  function ItemsText(items: seq<Json>): string
    decreases items
  {
    if items == [] then "" else JsonText(items[0]) + ItemsText(items[1..])
  }

  lemma NatTextIs(a: nat, x: string, b: nat, y: string)
    requires NatText(a) + x == NatText(b) + y
    ensures a == b && x == y
  {
    assert NatText(a) + x == Show(a) + (":" + x) && NatText(b) + y == Show(b) + (":" + y);
    ReadShow(a);
    ReadShow(b);
    TakeDigitsIs(Show(a), ":" + x);
    TakeDigitsIs(Show(b), ":" + y);
    assert (NatText(a) + x)[|NatText(a)|..] == x && (NatText(b) + y)[|NatText(b)|..] == y;
  }

  lemma StringTextIs(a: string, x: string, b: string, y: string)
    requires StringText(a) + x == StringText(b) + y
    ensures a == b && x == y
  {
    assert NatText(|a|) + (a + x) == StringText(a) + x && NatText(|b|) + (b + y) == StringText(b) + y;
    NatTextIs(|a|, a + x, |b|, b + y);
    assert (a + x)[..|a|] == a && (b + y)[..|b|] == b && (a + x)[|a|..] == x && (b + y)[|b|..] == y;
  }

  lemma TailsAgree(c: char, s: string, x: string, d: char, t: string, y: string)
    requires ([c] + s) + x == ([d] + t) + y
    ensures c == d && s + x == t + y
  {
    assert (([c] + s) + x)[0] == c && (([d] + t) + y)[0] == d;
    assert (([c] + s) + x)[1..] == s + x && (([d] + t) + y)[1..] == t + y;
  }

  lemma IntTextIs(a: int, x: string, b: int, y: string)
    requires IntText(a) + x == IntText(b) + y
    ensures a == b && x == y
  {
    var m, n := if a < 0 then -a else a, if b < 0 then -b else b;
    TailsAgree(if a < 0 then '-' else '+', NatText(m), x, if b < 0 then '-' else '+', NatText(n), y);
    NatTextIs(m, x, n, y);
  }

  function Tag(j: Json): char
  {
    match j
    case JNull => 'n'
    case JBool(b) => if b then 't' else 'f'
    case JInt(_) => 'i'
    case JFloat(_) => 'r'
    case JStr(_) => 's'
    case JList(_) => 'l'
  }

  function Untagged(j: Json): string
  {
    match j
    case JNull => ""
    case JBool(_) => ""
    case JInt(i) => IntText(i)
    case JFloat(f) => IntText(f.mantissa) + IntText(f.exponent)
    case JStr(s) => StringText(s)
    case JList(items) => NatText(|items|) + ItemsText(items)
  }

  lemma TaggedText(j: Json)
    ensures JsonText(j) == [Tag(j)] + Untagged(j)
  {
    hide IntText, StringText, NatText, ItemsText;
  }

  lemma FloatTextIs(a: Float, x: string, b: Float, y: string)
    requires IntText(a.mantissa) + IntText(a.exponent) + x == IntText(b.mantissa) + IntText(b.exponent) + y
    ensures a == b && x == y
  {
    hide IntText;
    var ma, ea, mb, eb := IntText(a.mantissa), IntText(a.exponent), IntText(b.mantissa), IntText(b.exponent);
    assert ma + ea + x == ma + (ea + x) && mb + eb + y == mb + (eb + y);
    IntTextIs(a.mantissa, ea + x, b.mantissa, eb + y);
    IntTextIs(a.exponent, x, b.exponent, y);
  }

  lemma {:induction false} JsonTextIs(a: Json, x: string, b: Json, y: string)
    requires JsonText(a) + x == JsonText(b) + y
    ensures a == b && x == y
    decreases a, 0
  {
    TaggedText(a);
    TaggedText(b);
    hide JsonText, IntText, StringText, NatText, ItemsText;
    TailsAgree(Tag(a), Untagged(a), x, Tag(b), Untagged(b), y);
    match a
    case JNull => assert "" + x == x && "" + y == y;
    case JBool(_) => assert "" + x == x && "" + y == y;
    case JInt(i) => IntTextIs(i, x, b.i, y);
    case JFloat(f) => FloatTextIs(f, x, b.f, y);
    case JStr(s) => StringTextIs(s, x, b.s, y);
    case JList(items) => ListTextIs(items, x, b.items, y);
  }

  lemma {:induction false} ListTextIs(a: seq<Json>, x: string, b: seq<Json>, y: string)
    requires NatText(|a|) + ItemsText(a) + x == NatText(|b|) + ItemsText(b) + y
    ensures a == b && x == y
    decreases a, |a| + 2
  {
    hide NatText, ItemsText;
    assert NatText(|a|) + ItemsText(a) + x == NatText(|a|) + (ItemsText(a) + x);
    assert NatText(|b|) + ItemsText(b) + y == NatText(|b|) + (ItemsText(b) + y);
    NatTextIs(|a|, ItemsText(a) + x, |b|, ItemsText(b) + y);
    ItemsTextIs(a, x, b, y);
  }

  lemma {:induction false} ItemsTextIs(a: seq<Json>, x: string, b: seq<Json>, y: string)
    requires |a| == |b| && ItemsText(a) + x == ItemsText(b) + y
    ensures a == b && x == y
    decreases a, |a| + 1
  {
    hide JsonText;
    if a == [] {
      assert "" + x == x && "" + y == y;
    } else {
      FirstItem(a, x);
      FirstItem(b, y);
      hide ItemsText;
      JsonTextIs(a[0], ItemsText(a[1..]) + x, b[0], ItemsText(b[1..]) + y);
      ItemsTextIs(a[1..], x, b[1..], y);
      assert a == [a[0]] + a[1..] && b == [b[0]] + b[1..];
    }
  }

  lemma FirstItem(items: seq<Json>, x: string)
    requires items != []
    ensures ItemsText(items) + x == JsonText(items[0]) + (ItemsText(items[1..]) + x)
  {
    hide JsonText;
  }

  // ----- Objects and entry bodies -----

  /** The keys in an order that depends on nothing but the set. */
  ghost function KeysOf(s: set<string>): (keys: seq<string>)
    ensures forall k :: k in keys <==> k in s
    decreases |s|
  {
    if s == {} then [] else
      var k :| k in s;
      [k] + KeysOf(s - {k})
  }

  ghost function PairsText(keys: seq<string>, m: JsonObject): string
    requires forall k | k in keys :: k in m
  {
    if keys == [] then "" else StringText(keys[0]) + (JsonText(m[keys[0]]) + PairsText(keys[1..], m))
  }

  ghost function ObjectText(m: JsonObject): (t: string)
    ensures t != ""
  {
    var keys := KeysOf(m.Keys);
    NatText(|keys|) + PairsText(keys, m)
  }

  lemma {:induction false} PairsTextIs(a: seq<string>, m: JsonObject, x: string, b: seq<string>, n: JsonObject, y: string)
    requires |a| == |b| && (forall k | k in a :: k in m) && (forall k | k in b :: k in n)
    requires PairsText(a, m) + x == PairsText(b, n) + y
    ensures a == b && x == y && forall k | k in a :: m[k] == n[k]
  {
    if a == [] {
      assert PairsText(a, m) + x == x && PairsText(b, n) + y == y;
    } else {
      hide StringText, JsonText;
      var ra, rb := PairsText(a[1..], m) + x, PairsText(b[1..], n) + y;
      assert PairsText(a, m) + x == StringText(a[0]) + (JsonText(m[a[0]]) + ra);
      assert PairsText(b, n) + y == StringText(b[0]) + (JsonText(n[b[0]]) + rb);
      StringTextIs(a[0], JsonText(m[a[0]]) + ra, b[0], JsonText(n[b[0]]) + rb);
      JsonTextIs(m[a[0]], ra, n[b[0]], rb);
      PairsTextIs(a[1..], m, x, b[1..], n, y);
      assert a == [a[0]] + a[1..] && b == [b[0]] + b[1..];
    }
  }

  lemma ObjectTextIs(m: JsonObject, x: string, n: JsonObject, y: string)
    requires ObjectText(m) + x == ObjectText(n) + y
    ensures m == n && x == y
  {
    hide NatText, PairsText;
    var a, b := KeysOf(m.Keys), KeysOf(n.Keys);
    assert ObjectText(m) + x == NatText(|a|) + (PairsText(a, m) + x);
    assert ObjectText(n) + y == NatText(|b|) + (PairsText(b, n) + y);
    NatTextIs(|a|, PairsText(a, m) + x, |b|, PairsText(b, n) + y);
    PairsTextIs(a, m, x, b, n, y);
    forall k ensures k in m <==> k in n {
      assert k in m <==> k in a;
    }
  }

  function OptionText(o: Option<string>): string
  {
    match o case None => "-" + "" case Some(s) => "+" + StringText(s)
  }

  ghost function BodyText(b: Body): string
  {
    StringText(b.createdAt)
    + (StringText(b.kind)
       + (StringText(b.subject)
          + (StringText(b.rationale)
             + (StringText(b.approvedBy) + (OptionText(b.supersedes) + (StringText(b.frozenHash) + ObjectText(b.value)))))))
  }

  lemma OptionTextIs(a: Option<string>, x: string, b: Option<string>, y: string)
    requires OptionText(a) + x == OptionText(b) + y
    ensures a == b && x == y
  {
    var s, t := if a.Some? then StringText(a.value) else "", if b.Some? then StringText(b.value) else "";
    TailsAgree(if a.Some? then '+' else '-', s, x, if b.Some? then '+' else '-', t, y);
    if a.Some? { StringTextIs(a.value, x, b.value, y); } else { assert "" + x == x && "" + y == y; }
  }

  lemma BodyTextIs(a: Body, b: Body)
    requires BodyText(a) == BodyText(b)
    ensures a == b
  {
    hide StringText, OptionText, ObjectText;
    var a7, b7 := StringText(a.frozenHash) + ObjectText(a.value), StringText(b.frozenHash) + ObjectText(b.value);
    var a6, b6 := OptionText(a.supersedes) + a7, OptionText(b.supersedes) + b7;
    var a5, b5 := StringText(a.approvedBy) + a6, StringText(b.approvedBy) + b6;
    var a4, b4 := StringText(a.rationale) + a5, StringText(b.rationale) + b5;
    var a3, b3 := StringText(a.subject) + a4, StringText(b.subject) + b4;
    var a2, b2 := StringText(a.kind) + a3, StringText(b.kind) + b3;
    StringTextIs(a.createdAt, a2, b.createdAt, b2);
    StringTextIs(a.kind, a3, b.kind, b3);
    StringTextIs(a.subject, a4, b.subject, b4);
    StringTextIs(a.rationale, a5, b.rationale, b5);
    StringTextIs(a.approvedBy, a6, b.approvedBy, b6);
    OptionTextIs(a.supersedes, a7, b.supersedes, b7);
    StringTextIs(a.frozenHash, ObjectText(a.value), b.frozenHash, ObjectText(b.value));
    assert ObjectText(a.value) + "" == ObjectText(b.value) + "";
    ObjectTextIs(a.value, "", b.value, "");
  }

  /** Hashes that never collide exist: what the ledger's theorems ask of them can be met. */
  lemma InjectiveHashesExist()
    ensures exists h: Hashes :: Injective(h)
  {
    var h := Hashes(b => BodyText(b), m => ObjectText(m));
    forall a: Body, b: Body | h.body(a) == h.body(b) ensures a == b {
      BodyTextIs(a, b);
    }
    forall a: JsonObject, b: JsonObject | h.value(a) == h.value(b) ensures a == b {
      assert ObjectText(a) + "" == ObjectText(b) + "";
      ObjectTextIs(a, "", b, "");
    }
    assert Injective(h);
  }
}
