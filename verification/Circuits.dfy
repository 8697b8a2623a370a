/** The TDM circuits of src/call.cpp: which one a call gets, and how it is written. */
module Circuits {
  import opened Decimal

  /** The circuit `i` places after `start`, in a circle of `n`. */
  function Slot(start: nat, i: nat, n: nat): (k: nat)
    requires n > 0
    ensures k < n
  {
    (start + i) % n
  }

  /** The first free circuit at or after `start`, in a circle, by its number from 1, or
      0 if all are busy: `get_tdm_map_number`, `start` being its random number. */
  method FindFree(busy: seq<bool>, start: nat) returns (number: nat)
    requires |busy| > 0 && start < |busy|
    ensures number == 0 <==> forall k :: 0 <= k < |busy| ==> busy[k]
    ensures number != 0 ==> number <= |busy| && !busy[number - 1]
    ensures number != 0 ==>
              exists i :: 0 <= i < |busy| && number - 1 == Slot(start, i, |busy|) &&
                forall j :: 0 <= j < i ==> busy[Slot(start, j, |busy|)]
  {
    var n := |busy|;
    number := 0;
    var i := 0;
    while i < n && number == 0
      invariant 0 <= i <= n
      invariant number == 0 ==> forall j :: 0 <= j < i ==> busy[Slot(start, j, n)]
      invariant number != 0 ==> i > 0 && number - 1 == Slot(start, i - 1, n) && !busy[number - 1] &&
                                forall j :: 0 <= j < i - 1 ==> busy[Slot(start, j, n)]
    {
      if !busy[Slot(start, i, n)] {
        number := Slot(start, i, n) + 1;
      }
      i := i + 1;
    }
    if number == 0 {
      forall k | 0 <= k < n ensures busy[k] {
        var j := if k >= start then k - start else k + n - start;
        RoundOnce(start + j, n, k);
        assert busy[Slot(start, j, n)];
      }
    }
  }

  lemma {:induction false} RoundOnce(m: nat, n: nat, k: nat)
    requires k < n && (m == k || m == k + n)
    ensures m % n == k
  {}

  /** The ranges of the three parts of a circuit's name, and where they start. */
  datatype Map = Map(a: nat, b: nat, c: nat, x: nat, h: nat, y: nat, z: nat)
  {
    function Size(): (n: nat)
      ensures n > 0
    {
      SizeIsPositive();
      (a + 1) * (b + 1) * (c + 1)
    }

    lemma SizeIsPositive()
      ensures (a + 1) * (b + 1) * (c + 1) > 0
    {
      Positive(a + 1, b + 1);
      Positive((a + 1) * (b + 1), c + 1);
    }
  }

  lemma {:induction false} Positive(m: int, n: int)
    requires m > 0 && n > 0
    ensures m * n > 0
  {}

  /** The parts of the name of a circuit, as [tdmmap] writes them around the fixed one. */
  function Parts(m: Map, number: nat): (nat, nat, nat) {
    m.SizeIsPositive();
    Positive(m.b + 1, m.c + 1);
    (m.x + (number / ((m.b + 1) * (m.c + 1))) % (m.a + 1),
     m.y + (number / (m.c + 1)) % (m.b + 1),
     m.z + number % (m.c + 1))
  }

  // The number of a circuit, back from its parts.

  lemma {:induction false} DivMod(n: nat, m: nat)
    requires m > 0
    ensures n == m * (n / m) + n % m && 0 <= n % m < m && n / m >= 0
  {}

  lemma {:induction false} DivDiv(n: nat, p: nat, q: nat)
    requires p > 0 && q > 0
    ensures p * q > 0 && n / (p * q) == (n / q) / p
  {
    DivMod(n, q);
    DivMod(n / q, p);
    Quotients(n, p, q, n / q, n % q, (n / q) / p, (n / q) % p);
  }

  lemma {:induction false} Quotients(n: nat, p: nat, q: nat, d: nat, r: nat, e: nat, f: nat)
    requires p > 0 && q > 0 && n == q * d + r && d == p * e + f && r < q && f < p
    ensures p * q > 0 && n / (p * q) == e
  {
    Positive(p, q);
    Distribute(q, p * e, f);
    Regroup(p, q, e);
    Below(f, p, q, r);
    Unique(n, p * q, e, q * f + r);
  }

  lemma {:induction false} Distribute(q: int, u: int, v: int)
    ensures q * (u + v) == q * u + q * v
  {}

  lemma {:induction false} Regroup(p: int, q: int, e: int)
    ensures q * (p * e) == (p * q) * e
  {}

  /** A digit below `p` and a rest below `q` stay below the product. */
  lemma {:induction false} Below(f: nat, p: nat, q: nat, r: nat)
    requires f < p && r < q
    ensures 0 <= q * f + r < p * q
  {
    assert q * f <= q * (p - 1) by { Monotone(q, f, p - 1); }
    Distribute(q, p, -1);
  }

  lemma {:induction false} Monotone(q: nat, u: int, v: int)
    requires u <= v
    ensures q * u <= q * v
  {}

  lemma {:induction false} Unique(n: nat, m: nat, e: nat, r: nat)
    requires m > 0 && r < m && n == m * e + r
    ensures n / m == e && n % m == r
  {
    var d := n / m;
    assert n == m * d + n % m;
    if d < e {
      Monotone(m, d + 1, e);
      Distribute(m, d, 1);
    } else if e < d {
      Monotone(m, e + 1, d);
      Distribute(m, e, 1);
    }
  }

  /** The three parts are in their ranges and, less where these start, the digits of the number
      modulo the size. */
  lemma {:induction false} PartsAreDigits(m: Map, number: nat)
    ensures var (p, q, r) := Parts(m, number);
      m.x <= p <= m.x + m.a && m.y <= q <= m.y + m.b && m.z <= r <= m.z + m.c &&
      number % m.Size() == ((p - m.x) * (m.b + 1) + (q - m.y)) * (m.c + 1) + (r - m.z)
  {
    var A, B, C := m.a + 1, m.b + 1, m.c + 1;
    var d := number / C;
    var e := d / B;
    DivDiv(number, B, C);
    DivMod(number, C);
    DivMod(d, B);
    DivMod(e, A);
    Digits(number, A, B, C, e / A, e % A, d % B, number % C);
  }

  lemma {:induction false} Digits(n: nat, A: nat, B: nat, C: nat, w: nat, s: nat, q: nat, r: nat)
    requires A > 0 && B > 0 && C > 0 && s < A && q < B && r < C
    requires n == C * (B * (A * w + s) + q) + r
    ensures A * B * C > 0 && n % (A * B * C) == (s * B + q) * C + r
  {
    Positive(A, B);
    Positive(A * B, C);
    var low := (s * B + q) * C + r;
    Distribute(B, A * w, s);
    Regroup(A, B, w);
    assert B * (A * w + s) + q == (A * B) * w + (s * B + q);
    Distribute(C, (A * B) * w, s * B + q);
    Regroup(A * B, C, w);
    assert n == (A * B * C) * w + low;
    Below(s, A, B, q);
    Below(s * B + q, A * B, C, r);
    Unique(n, A * B * C, w, low);
  }

  /** The text that [tdmmap] writes for a circuit. */
  function Name(m: Map, number: nat): string {
    var (p, q, r) := Parts(m, number);
    Dec(p) + ['.'] + (Dec(m.h) + ['.'] + (Dec(q) + ['/'] + Dec(r)))
  }

  lemma {:induction false} NameParts(m: Map, i: nat, j: nat)
    ensures Name(m, i) == Name(m, j) ==> Parts(m, i) == Parts(m, j)
  {
    var (p, q, r) := Parts(m, i);
    var (t, u, v) := Parts(m, j);
    if Name(m, i) == Name(m, j) {
      DecHasNo(p, '.');
      DecHasNo(t, '.');
      DecHasNo(m.h, '.');
      DecHasNo(q, '/');
      DecHasNo(u, '/');
      CutAt(Dec(p), Dec(t), '.', Dec(m.h) + ['.'] + (Dec(q) + ['/'] + Dec(r)),
            Dec(m.h) + ['.'] + (Dec(u) + ['/'] + Dec(v)));
      CutAt(Dec(m.h), Dec(m.h), '.', Dec(q) + ['/'] + Dec(r), Dec(u) + ['/'] + Dec(v));
      CutAt(Dec(q), Dec(u), '/', Dec(r), Dec(v));
      DecInjective(p, t);
      DecInjective(q, u);
      DecInjective(r, v);
    }
  }

  /** No two circuits of a map have the same name. */
  lemma {:induction false} NamesDiffer(m: Map, i: nat, j: nat)
    requires 1 <= i <= m.Size() && 1 <= j <= m.Size() && i != j
    ensures Name(m, i) != Name(m, j)
  {
    PartsAreDigits(m, i);
    PartsAreDigits(m, j);
    RoundTop(i, m.Size());
    RoundTop(j, m.Size());
    NameParts(m, i, j);
  }

  lemma {:induction false} RoundTop(i: nat, n: nat)
    requires 1 <= i <= n
    ensures i % n == if i == n then 0 else i
  {}
}
