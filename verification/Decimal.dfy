/** Decimal numerals as Python prints and reads them, over the ASCII digits. */
module Decimal {

  predicate IsDigit(c: char) { '0' <= c <= '9' }

  predicate AllDigits(s: string)
  {
    forall k | 0 <= k < |s| :: IsDigit(s[k])
  }

  /** str(n). */
  function Show(n: nat): string
  {
    if n < 10 then [('0' as int + n) as char] else Show(n / 10) + Show(n % 10)
  }

  /** int(s), for s all digits. */
  function Read(s: string): nat
    requires AllDigits(s)
  {
    if s == "" then 0 else 10 * Read(s[..|s| - 1]) + (s[|s| - 1] as int - '0' as int)
  }

  lemma {:induction false} ReadShow(n: nat)
    ensures Show(n) != "" && AllDigits(Show(n)) && Read(Show(n)) == n
  {
    if n >= 10 {
      ReadShow(n / 10);
      var last := Show(n % 10);
      assert |last| == 1;
      assert Show(n)[..|Show(n)| - 1] == Show(n / 10);
    } else {
      assert Show(n)[..0] == "";
    }
  }

  /** The longest prefix of digits. */
  function TakeDigits(s: string): (d: string)
    ensures AllDigits(d) && d <= s && (|d| < |s| ==> !IsDigit(s[|d|]))
  {
    if s != "" && IsDigit(s[0]) then [s[0]] + TakeDigits(s[1..]) else ""
  }

  lemma {:induction false} TakeDigitsIs(d: string, rest: string)
    requires AllDigits(d) && (rest == "" || !IsDigit(rest[0]))
    ensures TakeDigits(d + rest) == d
  {
    if d == "" {
      assert d + rest == rest;
    } else {
      TakeDigitsIs(d[1..], rest);
      assert (d + rest)[1..] == d[1..] + rest;
    }
  }
}
