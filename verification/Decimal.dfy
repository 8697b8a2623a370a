/** Decimal numbers as text: `std::to_string` and the padded `%5u`. */
module Decimal {
  import opened Text

  predicate IsDigit(c: char) {
    '0' <= c <= '9'
  }

  lemma {:induction false} DigitsAre(c: char)
    ensures IsDigit(c) <==> c in "0123456789"
  {
  }

  predicate AllDigits(s: string) {
    forall i :: 0 <= i < |s| ==> IsDigit(s[i])
  }

  function Digit(n: nat): (c: char)
    requires n < 10
    ensures IsDigit(c) && c as int - '0' as int == n
  {
    ('0' as int + n) as char
  }

  function Dec(n: nat): (s: string)
    ensures s != "" && AllDigits(s)
  {
    if n < 10 then [Digit(n)] else Dec(n / 10) + [Digit(n % 10)]
  }

  /** The number that digits write. */
  function Value(s: string): nat
    requires AllDigits(s)
  {
    if s == "" then 0 else Value(s[..|s| - 1]) * 10 + (s[|s| - 1] as int - '0' as int)
  }

  lemma {:induction false} DecValue(n: nat)
    ensures Value(Dec(n)) == n
  {
    if n < 10 {
      assert Dec(n)[..0] == "";
    } else {
      assert Dec(n)[..|Dec(n)| - 1] == Dec(n / 10);
      DecValue(n / 10);
    }
  }

  /** Texts cut at a character that neither first part has are equal part by part. */
  lemma {:induction false} CutAt(a: string, b: string, c: char, u: string, v: string)
    requires c !in a && c !in b && a + [c] + u == b + [c] + v
    ensures a == b && u == v
  {
    UpToConcat(a, c, u);
    UpToConcat(b, c, v);
    UpToNone(a, c);
    UpToNone(b, c);
    assert (a + [c] + u)[|a| + 1..] == u && (b + [c] + v)[|b| + 1..] == v;
  }

  lemma {:induction false} DecHasNo(n: nat, c: char)
    requires !IsDigit(c)
    ensures c !in Dec(n)
  {}

  lemma {:induction false} DecInjective(m: nat, n: nat)
    requires Dec(m) == Dec(n)
    ensures m == n
  {
    DecValue(m);
    DecValue(n);
  }
}
