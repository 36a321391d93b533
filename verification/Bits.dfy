/** Unsigned machine words of any width `w`, modelled as naturals below Pow2(w),
    and the C bit operators on them. */
module Bits {

  function Pow2(k: nat): (p: nat)
    ensures p >= 1
  {
    if k == 0 then 1 else 2 * Pow2(k - 1)
  }

  function And(x: nat, y: nat): nat {
    if x == 0 || y == 0 then 0
    else (if x % 2 == 1 && y % 2 == 1 then 1 else 0) + 2 * And(x / 2, y / 2)
  }

  function Or(x: nat, y: nat): nat {
    if x == 0 then y
    else if y == 0 then x
    else (if x % 2 == 1 || y % 2 == 1 then 1 else 0) + 2 * Or(x / 2, y / 2)
  }

  function Xor(x: nat, y: nat): nat {
    if x == 0 then y
    else if y == 0 then x
    else (if x % 2 != y % 2 then 1 else 0) + 2 * Xor(x / 2, y / 2)
  }

  /** `~x` at width w. */
  function Not(w: nat, x: nat): nat
    requires x < Pow2(w)
  {
    Pow2(w) - 1 - x
  }

  /** `x << s` at width w. */
  function ShiftLeft(w: nat, x: nat, s: nat): (r: nat)
    ensures r < Pow2(w)
  {
    (x * Pow2(s)) % Pow2(w)
  }

  /** `x >> s`. */
  function ShiftRight(x: nat, s: nat): nat {
    QuotientNonNegative(x, Pow2(s));
    x / Pow2(s)
  }

  lemma Pow2Monotone(j: nat, k: nat)
    requires j <= k
    ensures Pow2(j) <= Pow2(k)
    decreases k
  {
    if j < k { Pow2Monotone(j, k - 1); }
  }

  lemma {:induction false} Pow2Sum(j: nat, k: nat)
    ensures Pow2(j + k) == Pow2(j) * Pow2(k)
  {
    if j > 0 { Pow2Sum(j - 1, k); }
  }

  lemma Pow2Values()
    ensures Pow2(0) == 1 && Pow2(1) == 2 && Pow2(5) == 32 && Pow2(10) == 1024
    ensures Pow2(16) == 0x1_0000 && Pow2(26) == 0x400_0000 && Pow2(27) == 0x800_0000
    ensures Pow2(32) == 0x1_0000_0000
    ensures Pow2(64) == 0x1_0000_0000_0000_0000
  {
    assert Pow2(5) == 32;
    Pow2Sum(5, 5);
    Pow2Sum(5, 11);
    Pow2Sum(5, 6);
    Pow2Sum(10, 16);
    Pow2Sum(1, 26);
    Pow2Sum(16, 16);
    Pow2Sum(32, 32);
  }

  /** Splitting off the lowest bit of a remainder. */
  lemma HalfRemainder(x: nat, k: nat)
    requires k > 0
    ensures x % Pow2(k) == x % 2 + 2 * ((x / 2) % Pow2(k - 1))
  {
    var p := Pow2(k - 1);
    var q, r := (x / 2) / p, (x / 2) % p;
    assert x / 2 == q * p + r;
    assert x == q * (2 * p) + (2 * r + x % 2);
    QuotientUnique(x, 2 * p, q, 2 * r + x % 2);
  }

  lemma QuotientUnique(x: int, d: int, q: int, r: int)
    requires 0 <= r < d && x == q * d + r
    ensures x / d == q && x % d == r
  {
    var e := x / d - q;
    assert x / d * d + x % d == x;
    assert e * d == r - x % d;
    if e >= 1 { TimesMonotone(1, e, d); }
    if e <= -1 { TimesMonotone(e, -1, d); }
  }

  lemma QuotientNonNegative(x: nat, d: nat)
    requires d > 0
    ensures x / d >= 0
  {
    assert x == x / d * d + x % d;
    if x / d <= -1 { TimesMonotone(x / d, -1, d); }
  }

  lemma TimesMonotone(i: int, j: int, d: int)
    requires i <= j && d >= 0
    ensures i * d <= j * d
  {
  }

  lemma AllOnesHalves(w: nat)
    requires w > 0
    ensures (Pow2(w) - 1) / 2 == Pow2(w - 1) - 1 && (Pow2(w) - 1) % 2 == 1
  {
    assert Pow2(w) == 2 * Pow2(w - 1);
  }

  lemma {:induction false} AndAllOnes(w: nat, x: nat)
    requires x < Pow2(w)
    ensures And(x, Pow2(w) - 1) == x
  {
    if w > 0 && x > 0 {
      AllOnesHalves(w);
      AndAllOnes(w - 1, x / 2);
    }
  }

  /** `x & (2^k - 1)` is the remainder by 2^k. */
  lemma {:induction false} AndLowMask(x: nat, k: nat)
    ensures And(x, Pow2(k) - 1) == x % Pow2(k)
  {
    if k > 0 {
      HalfRemainder(x, k);
      AndLowMask(x / 2, k - 1);
      AllOnesHalves(k);
    }
  }

  lemma HalfBound(w: nat, x: nat)
    requires w > 0 && x < Pow2(w)
    ensures x / 2 < Pow2(w - 1)
  {
    assert Pow2(w) == 2 * Pow2(w - 1);
  }

  lemma NotHalves(w: nat, x: nat)
    requires w > 0 && x < Pow2(w)
    ensures x / 2 < Pow2(w - 1) && Not(w, x) / 2 == Not(w - 1, x / 2)
    ensures Not(w, x) % 2 == 1 - x % 2
  {
    assert Pow2(w) == 2 * Pow2(w - 1);
  }

  lemma AndUnfolds(x: nat, y: nat)
    ensures And(x, y) == (if x % 2 == 1 && y % 2 == 1 then 1 else 0) + 2 * And(x / 2, y / 2)
  {
  }

  lemma AndEven(x: nat, y: nat)
    ensures And(x, 2 * y) == 2 * And(x / 2, y)
  {
    AndUnfolds(x, 2 * y);
    assert (2 * y) / 2 == y;
  }

  /** A mask and its complement split a word in two. */
  lemma {:induction false} AndSplits(w: nat, x: nat, m: nat)
    requires x < Pow2(w) && m < Pow2(w)
    ensures And(x, m) + And(x, Not(w, m)) == x
  {
    if w > 0 {
      HalfBound(w, x);
      NotHalves(w, m);
      AndUnfolds(x, m);
      AndUnfolds(x, Not(w, m));
      AndSplits(w - 1, x / 2, m / 2);
    }
  }

  /** `x & ~(2^k - 1)` clears the remainder by 2^k, at every width. */
  lemma AndHighMask(w: nat, x: nat, k: nat)
    requires k <= w && x < Pow2(w)
    ensures Pow2(k) <= Pow2(w)
    ensures And(x, Not(w, Pow2(k) - 1)) == x - x % Pow2(k)
  {
    Pow2Monotone(k, w);
    AndLowMask(x, k);
    AndSplits(w, x, Pow2(k) - 1);
  }

  lemma {:induction false} XorZeroExactlyOnEqual(x: nat, y: nat)
    ensures Xor(x, y) == 0 <==> x == y
  {
    if x > 0 && y > 0 { XorZeroExactlyOnEqual(x / 2, y / 2); }
  }

  /** Or of two words that share no bit is their sum. */
  lemma {:induction false} OrDisjoint(x: nat, y: nat, k: nat)
    requires x % Pow2(k) == 0 && y < Pow2(k)
    ensures Or(x, y) == x + y
    decreases k
  {
    if k > 0 && x > 0 && y > 0 {
      HalfRemainder(x, k);
      OrDisjoint(x / 2, y / 2, k - 1);
    }
  }
}
