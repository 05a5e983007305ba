/** Whole numbers by their bits, as shifts and a bitwise or take them. */
module Bits {
  function Shr(n: nat, k: nat): nat { if k == 0 then n else Shr(n / 2, k - 1) }

  function Shl(n: nat, k: nat): nat { if k == 0 then n else 2 * Shl(n, k - 1) }

  function Pow2(k: nat): (r: nat)
    ensures r >= 1
  {
    if k == 0 then 1 else 2 * Pow2(k - 1)
  }

  function Or(a: nat, b: nat): nat
    decreases a + b
  {
    if a == 0 then b
    else if b == 0 then a
    else 2 * Or(a / 2, b / 2) + (if a % 2 == 1 || b % 2 == 1 then 1 else 0)
  }

  function Bit(n: nat, k: nat): nat { Shr(n, k) % 2 }

  lemma {:induction false} ShlIsTimes(n: nat, k: nat)
    ensures Shl(n, k) == n * Pow2(k)
  {
    if k > 0 { ShlIsTimes(n, k - 1); }
  }

  lemma {:induction false} Pow2Adds(a: nat, b: nat)
    ensures Pow2(a + b) == Pow2(a) * Pow2(b)
  {
    if a > 0 {
      Pow2Adds(a - 1, b);
      assert Pow2(a) * Pow2(b) == 2 * (Pow2(a - 1) * Pow2(b));
    }
  }

  lemma {:induction false} ShrTwice(n: nat, h: nat, k: nat)
    ensures Shr(Shr(n, h), k) == Shr(n, h + k)
  {
    if h > 0 { ShrTwice(n / 2, h - 1, k); }
  }

  /** Shifted right to the same number: between that number shifted left and all its low bits set. */
  lemma {:induction false} ShrBetween(x: nat, q: nat, h: nat)
    ensures Shr(x, h) == q <==> Shl(q, h) <= x <= Shl(q, h) + Pow2(h) - 1
  {
    if h > 0 { ShrBetween(x / 2, q, h - 1); }
  }

  lemma {:induction false} ShrBelow(n: nat, h: nat, m: nat)
    requires n < Pow2(h + m)
    ensures Shr(n, h) < Pow2(m)
  {
    if h > 0 { ShrBelow(n / 2, h - 1, m); }
  }

  lemma OrStep(a: nat, b: nat)
    ensures Or(2 * a, 2 * b + 1) == 2 * Or(a, b) + 1
    ensures Or(2 * a, 2 * b) == 2 * Or(a, b)
  {
    assert (2 * a) / 2 == a && (2 * b + 1) / 2 == b && (2 * b) / 2 == b;
  }

  /** Where the low bits are free, a bitwise or adds. */
  lemma {:induction false} OrLow(q: nat, low: nat, h: nat)
    requires low < Pow2(h)
    ensures Or(Shl(q, h), low) == Shl(q, h) + low
  {
    if h > 0 {
      OrLow(q, low / 2, h - 1);
      OrStep(Shl(q, h - 1), low / 2);
      assert low == 2 * (low / 2) || low == 2 * (low / 2) + 1;
    }
  }

  /** Numbers of so many bits are equal when their bits are. */
  lemma {:induction false} SameBits(a: nat, b: nat, m: nat)
    requires a < Pow2(m) && b < Pow2(m)
    ensures a == b <==> forall k: nat :: k < m ==> Bit(a, k) == Bit(b, k)
  {
    if m > 0 {
      SameBits(a / 2, b / 2, m - 1);
      if forall k: nat :: k < m ==> Bit(a, k) == Bit(b, k) {
        assert Bit(a, 0) == Bit(b, 0);
        forall k: nat | k < m - 1 ensures Bit(a / 2, k) == Bit(b / 2, k) {
          assert Bit(a, k + 1) == Bit(b, k + 1);
        }
      }
    }
  }

  function ShrTimes(n: nat, bits: nat, k: nat): nat
    decreases k
  {
    if k == 0 then n else ShrTimes(Shr(n, bits), bits, k - 1)
  }

  lemma {:induction false} ShrTimesIs(n: nat, bits: nat, k: nat)
    ensures ShrTimes(n, bits, k) == Shr(n, bits * k)
    decreases k
  {
    if k > 0 {
      ShrTimesIs(Shr(n, bits), bits, k - 1);
      ShrTwice(n, bits, bits * (k - 1));
      assert bits + bits * (k - 1) == bits * k;
    }
  }

  lemma {:induction false} ShlZero(h: nat)
    ensures Shl(0, h) == 0
  {
    if h > 0 { ShlZero(h - 1); }
  }

  lemma ShrZero(n: nat, h: nat)
    ensures Shr(n, h) == 0 <==> n < Pow2(h)
  {
    ShrBetween(n, 0, h);
    ShlZero(h);
  }
}
