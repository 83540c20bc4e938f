/** Python's sorted() on a set: its elements in increasing order. */
module Sorting {

  ghost predicate StrictOrder<T(!new)>(less: (T, T) -> bool)
  {
    && (forall a, b :: less(a, b) ==> !less(b, a))
    && (forall a, b, c :: less(a, b) && less(b, c) ==> less(a, c))
    && (forall a, b :: a != b ==> less(a, b) || less(b, a))
  }

  predicate Increasing<T>(q: seq<T>, less: (T, T) -> bool)
  {
    forall i, j | 0 <= i < j < |q| :: less(q[i], q[j])
  }

  method Least<T(==, !new)>(s: set<T>, less: (T, T) -> bool) returns (m: T)
    requires s != {} && StrictOrder(less)
    ensures m in s && forall x | x in s && x != m :: less(m, x)
  {
    m :| m in s;
    var rest := s - {m};
    while rest != {}
      invariant m in s && m !in rest && rest <= s
      invariant forall x | x in s - rest && x != m :: less(m, x)
      decreases |rest|
    {
      var x :| x in rest;
      rest := rest - {x};
      if less(x, m) { m := x; }
    }
  }

  method Sorted<T(==, !new)>(s: set<T>, less: (T, T) -> bool) returns (q: seq<T>)
    requires StrictOrder(less)
    ensures Increasing(q, less)
    ensures forall x :: x in q <==> x in s
  {
    q := [];
    var rest := s;
    while rest != {}
      invariant rest <= s && Increasing(q, less)
      invariant forall x :: x in q <==> x in s - rest
      invariant forall i, x | 0 <= i < |q| && x in rest :: less(q[i], x)
      decreases |rest|
    {
      var m := Least(rest, less);
      rest := rest - {m};
      q := q + [m];
    }
  }

  predicate IntLess(a: int, b: int) { a < b }

  lemma IntOrder()
    ensures StrictOrder(IntLess)
  {
  }

  /** str comparison: by code point, a prefix first. */
  predicate StringLess(a: string, b: string)
  {
    b != "" && (a == "" || a[0] < b[0] || (a[0] == b[0] && StringLess(a[1..], b[1..])))
  }

  lemma {:induction false} StringAsymmetric(a: string, b: string)
    ensures !(StringLess(a, b) && StringLess(b, a))
  {
    if a != "" && b != "" { StringAsymmetric(a[1..], b[1..]); }
  }

  lemma {:induction false} StringTransitive(a: string, b: string, c: string)
    requires StringLess(a, b) && StringLess(b, c)
    ensures StringLess(a, c)
  {
    if a != "" && a[0] == b[0] == c[0] { StringTransitive(a[1..], b[1..], c[1..]); }
  }

  lemma {:induction false} StringTotal(a: string, b: string)
    requires a != b
    ensures StringLess(a, b) || StringLess(b, a)
  {
    if a != "" && b != "" && a[0] == b[0] {
      assert a == [a[0]] + a[1..] && b == [b[0]] + b[1..];
      StringTotal(a[1..], b[1..]);
    }
  }

  lemma StringOrder()
    ensures StrictOrder(StringLess)
  {
    forall a, b | StringLess(a, b) ensures !StringLess(b, a) { StringAsymmetric(a, b); }
    forall a, b, c | StringLess(a, b) && StringLess(b, c) ensures StringLess(a, c) { StringTransitive(a, b, c); }
    forall a, b | a != b ensures StringLess(a, b) || StringLess(b, a) { StringTotal(a, b); }
  }

  /** The strings agree up to n, where a ends or has the smaller character. */
  predicate LessAt(a: string, b: string, n: nat)
  {
    && n <= |a| && n < |b| && a[..n] == b[..n]
    && (n < |a| ==> a[n] < b[n])
  }

  /** The order is by the first character that differs, and a proper prefix comes first. */
  lemma {:induction false} StringLessIff(a: string, b: string)
    ensures StringLess(a, b) <==> exists n: nat :: LessAt(a, b, n)
  {
    if a == "" || b == "" {
      assert a == "" && b != "" ==> LessAt(a, b, 0);
    } else if a[0] != b[0] {
      assert a[0] < b[0] ==> LessAt(a, b, 0);
      forall n: nat | LessAt(a, b, n) ensures a[0] < b[0] {
        if n > 0 { assert a[..n][0] == b[..n][0]; }
      }
    } else {
      StringLessIff(a[1..], b[1..]);
      if n: nat :| LessAt(a[1..], b[1..], n) {
        assert a[..n + 1] == [a[0]] + a[1..][..n] && b[..n + 1] == [b[0]] + b[1..][..n];
        assert LessAt(a, b, n + 1);
      }
      if n: nat :| LessAt(a, b, n) {
        assert n > 0 && a[1..][..n - 1] == a[..n][1..] && b[1..][..n - 1] == b[..n][1..];
        assert LessAt(a[1..], b[1..], n - 1);
      }
    }
  }
}
