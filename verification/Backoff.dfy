/** The delays between the retransmissions of a message (sections 17.1.1.2 and 17.1.2.2
    of RFC 3261), as the timer of src/call.cpp computes them in 32 bits. */
module Backoff {
  import opened Basics

  const U32: nat := 0x1_0000_0000

  function Pow2(k: nat): (p: nat)
    ensures p >= 1
  {
    if k == 0 then 1 else 2 * Pow2(k - 1)
  }

  /** The delay after one more expiry: doubled, and no more than T2 but for an INVITE. */
  function Longer(invite: bool, delay: nat, t2: nat): nat {
    var doubled := (2 * delay) % U32;
    if t2 < doubled && !invite then t2 else doubled
  }

  /** The delay after `k` expiries of a timer set to `d`. */
  function Delay(invite: bool, d: nat, t2: nat, k: nat): nat {
    if k == 0 then d else Longer(invite, Delay(invite, d, t2, k - 1), t2)
  }

  /** For an INVITE the delay doubles, as long as it fits in 32 bits. */
  lemma {:induction false} InviteDelay(d: nat, t2: nat, k: nat)
    requires d * Pow2(k) < U32
    ensures Delay(true, d, t2, k) == d * Pow2(k)
  {
    if k > 0 {
      Doubled(d, k);
      InviteDelay(d, t2, k - 1);
      LongerDoubles(d * Pow2(k - 1), t2);
    } else {
      assert Pow2(0) == 1;
    }
  }

  lemma {:induction false} LongerDoubles(x: nat, t2: nat)
    requires 2 * x < U32
    ensures Longer(true, x, t2) == 2 * x
  {}

  /** For any other request it doubles up to T2, however many retransmissions there are,
      if the first delay and T2 can be doubled in 32 bits. */
  lemma {:induction false} OtherDelay(d: nat, t2: nat, k: nat)
    requires 2 * d < U32 && 2 * t2 < U32 && k >= 1
    ensures Delay(false, d, t2, k) == Min(d * Pow2(k), t2)
  {
    Doubled(d, k);
    if k == 1 {
      assert Pow2(0) == 1 && Delay(false, d, t2, 0) == d;
      LongerMin(d, d, t2);
    } else {
      OtherDelay(d, t2, k - 1);
      LongerMin(Delay(false, d, t2, k - 1), d * Pow2(k - 1), t2);
    }
  }

  lemma {:induction false} Doubled(d: nat, k: nat)
    requires k >= 1
    ensures d * Pow2(k) == 2 * (d * Pow2(k - 1))
  {}

  lemma {:induction false} LongerMin(x: nat, y: nat, t2: nat)
    requires x == y || (t2 <= y && x == t2)
    requires 2 * x < U32
    ensures Longer(false, x, t2) == Min(2 * y, t2)
  {}

  /** And without that, as long as the doubled delay itself fits. */
  lemma {:induction false} OtherDelayBelow(d: nat, t2: nat, k: nat)
    requires d * Pow2(k) < U32 && k >= 1
    ensures Delay(false, d, t2, k) == Min(d * Pow2(k), t2)
  {
    Doubled(d, k);
    if k == 1 {
      assert Pow2(0) == 1 && Delay(false, d, t2, 0) == d;
      LongerMin(d, d, t2);
    } else {
      OtherDelayBelow(d, t2, k - 1);
      LongerMin(Delay(false, d, t2, k - 1), d * Pow2(k - 1), t2);
    }
  }
}
