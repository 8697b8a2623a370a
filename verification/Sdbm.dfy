/** The hash of src/call.cpp that tells retransmissions apart: the four characters at a time of
    `sdbm_hash` give what one character at a time gives, for texts of every length. */
module Sdbm {
  /** What an `unsigned long` of 64 bits keeps of a number. */
  function U64(x: int): nat {
    x % 0x1_0000_0000_0000_0000
  }

  /** Wrapping early or late is the same. */
  ghost predicate Wraps(w: int -> nat) {
    forall x, y :: Late(w, x, y)
  }

  ghost predicate Late(w: int -> nat, x: int, y: int) {
    w(w(x) + y) == w(x + y) && w(w(x) * y) == w(x * y)
  }

  /** A signed character, which the source extends with its sign. */
  type Signed = c: int | -128 <= c < 128

  const P := 65599

  /** One round of the simple loop: the character, plus the hash shifted by 6, plus the hash
      shifted by 16, minus the hash, each wrapped. */
  function Round(hash: nat, c: Signed, w: int -> nat): nat {
    w(w(w(w(c) + w(hash * 64)) + w(hash * 65536)) - hash)
  }

  /** The simple loop, by characters from the first on. */
  function Simple(s: seq<Signed>, w: int -> nat): nat {
    if s == [] then 0 else Round(Simple(s[..|s| - 1], w), s[|s| - 1], w)
  }

  // 64 bits wrap so.

  lemma {:induction false} Multiple(x: int, q: int, m: nat)
    requires m > 0
    ensures (x + m * q) % m == x % m
  {
    var d, e := x / m, (x + m * q) / m;
    assert x + m * q == m * (d + q) + x % m;
    SameRest(d + q, x % m, e, (x + m * q) % m, m);
  }

  lemma {:induction false} SameRest(d: int, a: int, e: int, b: int, m: nat)
    requires 0 <= a < m && 0 <= b < m && m * d + a == m * e + b
    ensures a == b
  {
    var n := d - e;
    assert m * n == b - a;
    Far(m, n);
  }

  lemma {:induction false} Far(m: nat, n: int)
    ensures n >= 1 ==> m * n >= m
    ensures n <= -1 ==> m * n + m <= 0
  {
  }

  lemma {:induction false} LateSum(x: int, y: int, m: nat)
    requires m > 0
    ensures (x % m + y) % m == (x + y) % m
  {
    Multiple(x % m + y, x / m, m);
    assert x % m + y + m * (x / m) == x + y;
  }

  lemma {:induction false} LateProduct(x: int, y: int, m: nat)
    requires m > 0
    ensures (x % m * y) % m == (x * y) % m
  {
    var a, q := x % m, x / m;
    Multiple(a * y, q * y, m);
    assert x == a + m * q;
    Spread(a, m, q, y);
  }

  lemma {:induction false} Spread(a: int, m: int, q: int, p: int)
    ensures (a + m * q) * p == a * p + m * (q * p)
  {
  }

  lemma {:induction false} LongWraps()
    ensures Wraps(U64)
  {
    forall x, y ensures Late(U64, x, y) {
      LateSum(x, y, 0x1_0000_0000_0000_0000);
      LateProduct(x, y, 0x1_0000_0000_0000_0000);
    }
  }

  // Sums and products of wrapped numbers.

  lemma {:induction false} Sum(w: int -> nat, x: int, y: int)
    requires Wraps(w)
    ensures w(w(x) + w(y)) == w(x + y)
  {
    assert Late(w, x, w(y));
    assert Late(w, y, x);
  }

  lemma {:induction false} Product(w: int -> nat, x: int, y: int)
    requires Wraps(w)
    ensures w(w(x) * w(y)) == w(x * y)
  {
    assert Late(w, x, w(y));
    assert Late(w, y, x);
  }

  /** A round multiplies by 65599 and adds the character. */
  lemma {:induction false} RoundMultiplies(hash: nat, c: Signed, w: int -> nat)
    requires Wraps(w)
    ensures Round(hash, c, w) == w(hash * P + c)
  {
    Sum(w, c, hash * 64);
    Sum(w, c + hash * 64, hash * 65536);
    assert Late(w, c + hash * 64 + hash * 65536, 0 - hash);
  }

  /** A round on a hash wrapped before it. */
  lemma {:induction false} RoundOf(x: int, c: Signed, w: int -> nat)
    requires Wraps(w)
    ensures Round(w(x), c, w) == w(x * P + c)
  {
    RoundMultiplies(w(x), c, w);
    assert Late(w, w(x) * P, c);
    assert Late(w, x, P);
    assert Late(w, x * P, c);
  }

  /** Four rounds, unwrapped. */
  lemma {:induction false} FourRounds(hash: nat, a: Signed, b: Signed, c: Signed, d: Signed, w: int -> nat)
    requires Wraps(w)
    ensures Round(Round(Round(Round(hash, a, w), b, w), c, w), d, w) ==
            w(hash * (P * P * P * P) + a * (P * P * P) + b * (P * P) + c * P + d)
  {
    RoundMultiplies(hash, a, w);
    RoundOf(hash * P + a, b, w);
    RoundOf((hash * P + a) * P + b, c, w);
    RoundOf(((hash * P + a) * P + b) * P + c, d, w);
  }

  /** The wrapped powers of 65599; the fourth is above 2 to the 64th. */
  lemma {:induction false} Powers(w: int -> nat)
    requires Wraps(w)
    ensures w(w(P) * w(P)) == w(P * P) && w(w(P * P) * w(P)) == w(P * P * P)
    ensures w(w(P * P * P) * w(P)) == w(P * P * P * P)
  {
    Product(w, P, P);
    Product(w, P * P, P);
    Product(w, P * P * P, P);
  }

  lemma {:induction false} AddTerm(w: int -> nat, x: int, y: int, p: int)
    requires Wraps(w)
    ensures w(w(x) + w(w(y) * w(p))) == w(x + y * p)
  {
    Product(w, y, p);
    Sum(w, x, y * p);
  }

  /** One step of the loop over four characters. */
  function Four(hash: nat, p1: nat, p2: nat, p3: nat, p4: nat, a: int, b: int, c: int, d: int, w: int -> nat): nat {
    w(w(w(w(w(hash * p4) + w(w(a) * p3)) + w(w(b) * p2)) + w(w(c) * p1)) + w(d))
  }

  lemma {:induction false} FourTerms(hash: nat, a: int, b: int, c: int, d: int, p: int, q: int, r: int, s: int,
      w: int -> nat)
    requires Wraps(w)
    ensures Four(hash, w(p), w(q), w(r), w(s), a, b, c, d, w) == w(hash * s + a * r + b * q + c * p + d)
  {
    assert Late(w, s, hash);
    AddTerm(w, hash * s, a, r);
    AddTerm(w, hash * s + a * r, b, q);
    AddTerm(w, hash * s + a * r + b * q, c, p);
    Sum(w, hash * s + a * r + b * q + c * p, d);
  }

  lemma {:induction false} SimpleOne(s: seq<Signed>, i: nat, w: int -> nat)
    requires i < |s|
    ensures Simple(s[..i + 1], w) == Round(Simple(s[..i], w), s[i], w)
  {
    assert s[..i + 1][..i] == s[..i];
  }

  lemma {:induction false} SimpleFour(s: seq<Signed>, i: nat, w: int -> nat)
    requires i + 4 <= |s| && Wraps(w)
    ensures Simple(s[..i + 4], w) ==
            w(Simple(s[..i], w) * (P * P * P * P) + s[i] * (P * P * P) + s[i + 1] * (P * P) + s[i + 2] * P + s[i + 3])
  {
    SimpleOne(s, i, w);
    SimpleOne(s, i + 1, w);
    SimpleOne(s, i + 2, w);
    SimpleOne(s, i + 3, w);
    FourRounds(Simple(s[..i], w), s[i], s[i + 1], s[i + 2], s[i + 3], w);
  }

  lemma {:induction false} FourStep(s: seq<Signed>, i: nat, w: int -> nat)
    requires i + 4 <= |s| && Wraps(w)
    ensures Four(Simple(s[..i], w), w(P), w(P * P), w(P * P * P), w(P * P * P * P),
                 s[i], s[i + 1], s[i + 2], s[i + 3], w) ==
            Simple(s[..i + 4], w)
  {
    SimpleFour(s, i, w);
    FourTerms(Simple(s[..i], w), s[i], s[i + 1], s[i + 2], s[i + 3], P, P * P, P * P * P, P * P * P * P, w);
  }

  /** One step of the loop over the characters left. */
  function One(hash: nat, p1: nat, c: int, w: int -> nat): nat {
    w(w(hash * p1) + w(c))
  }

  lemma {:induction false} OneStep(s: seq<Signed>, i: nat, w: int -> nat)
    requires i < |s| && Wraps(w)
    ensures One(Simple(s[..i], w), w(P), s[i], w) == Simple(s[..i + 1], w)
  {
    var hash := Simple(s[..i], w);
    SimpleOne(s, i, w);
    RoundMultiplies(hash, s[i], w);
    assert Late(w, P, hash);
    Sum(w, hash * P, s[i]);
  }

  /** The characters that four at a time leave. */
  method HashRest(s: seq<Signed>, from: nat, before: nat, p1: nat, w: int -> nat) returns (hash: nat)
    requires Wraps(w) && p1 == w(P) && from <= |s| && before == Simple(s[..from], w)
    ensures hash == Simple(s, w)
  {
    hash := before;
    var i := from;
    while i < |s|
      invariant 0 <= i <= |s|
      invariant hash == Simple(s[..i], w)
    {
      OneStep(s, i, w);
      hash := One(hash, p1, s[i], w);
      i := i + 1;
    }
    assert s[..i] == s;
  }

  /** `sdbm_hash`, with the wrapping of `unsigned long`. */
  method SdbmHash(s: seq<Signed>, w: int -> nat) returns (hash: nat)
    requires Wraps(w)
    ensures hash == Simple(s, w)
  {
    var p1 := w(P);
    var p2 := w(p1 * p1);
    var p3 := w(p2 * p1);
    var p4 := w(p3 * p1);
    Powers(w);
    hash := 0;
    var i := 0;
    while i + 4 <= |s|
      invariant 0 <= i <= |s|
      invariant hash == Simple(s[..i], w)
    {
      FourStep(s, i, w);
      hash := Four(hash, p1, p2, p3, p4, s[i], s[i + 1], s[i + 2], s[i + 3], w);
      i := i + 4;
    }
    hash := HashRest(s, i, hash, p1, w);
  }

  /** The hash of 64 bits. */
  method Hash(s: seq<Signed>) returns (hash: nat)
    ensures hash == Simple(s, U64)
  {
    LongWraps();
    hash := SdbmHash(s, U64);
  }
}
