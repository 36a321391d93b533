/** The C bit operators, bit by bit. */
module BitLaws {
  import opened Bits

  /** Bit i of a word. */
  predicate BitAt(w: nat, i: nat) {
    if i == 0 then w % 2 == 1 else BitAt(w / 2, i - 1)
  }

  /** `(w >> i) & 1`. */
  lemma {:induction false} BitAtMeaning(w: nat, i: nat)
    ensures BitAt(w, i) <==> w / Pow2(i) % 2 == 1
  {
    if i == 0 {
      QuotientUnique(w, 1, w, 0);
    } else {
      BitAtMeaning(w / 2, i - 1);
      HalvedQuotient(w, Pow2(i - 1));
    }
  }

  lemma HalvedQuotient(w: nat, p: nat)
    requires p > 0
    ensures w / (2 * p) == (w / 2) / p
  {
    var q, r := (w / 2) / p, (w / 2) % p;
    assert w / 2 == q * p + r;
    assert w == q * (2 * p) + (2 * r + w % 2);
    QuotientUnique(w, 2 * p, q, 2 * r + w % 2);
  }

  lemma AndHalves(x: nat, y: nat)
    ensures And(x, y) / 2 == And(x / 2, y / 2)
    ensures And(x, y) % 2 == 1 <==> x % 2 == 1 && y % 2 == 1
  {
  }

  lemma {:induction false} BitOfAnd(x: nat, y: nat, i: nat)
    ensures BitAt(And(x, y), i) <==> BitAt(x, i) && BitAt(y, i)
  {
    AndHalves(x, y);
    if i > 0 { BitOfAnd(x / 2, y / 2, i - 1); }
  }

  lemma OrHalves(x: nat, y: nat)
    ensures Or(x, y) / 2 == Or(x / 2, y / 2)
    ensures Or(x, y) % 2 == 1 <==> x % 2 == 1 || y % 2 == 1
  {
    if x == 0 || y == 0 {
      assert Or(x / 2, y / 2) == if x == 0 then y / 2 else x / 2;
    }
  }

  lemma {:induction false} BitOfOr(x: nat, y: nat, i: nat)
    ensures BitAt(Or(x, y), i) <==> BitAt(x, i) || BitAt(y, i)
  {
    OrHalves(x, y);
    if i > 0 { BitOfOr(x / 2, y / 2, i - 1); }
  }

  lemma {:induction false} BitOfNot(w: nat, x: nat, i: nat)
    requires x < Pow2(w) && i < w
    ensures BitAt(Not(w, x), i) <==> !BitAt(x, i)
    decreases i
  {
    NotHalves(w, x);
    if i > 0 { BitOfNot(w - 1, x / 2, i - 1); }
  }

  lemma {:induction false} SameBits(w: nat, x: nat, y: nat)
    requires x < Pow2(w) && y < Pow2(w)
    requires forall i: nat :: i < w ==> (BitAt(x, i) <==> BitAt(y, i))
    ensures x == y
  {
    if w > 0 {
      assert BitAt(x, 0) <==> BitAt(y, 0);
      forall i: nat | i < w - 1 ensures BitAt(x / 2, i) <==> BitAt(y / 2, i) {
        assert BitAt(x, i + 1) <==> BitAt(y, i + 1);
      }
      SameBits(w - 1, x / 2, y / 2);
    }
  }

  /** `2^k - 1` has the k lowest bits. */
  lemma {:induction false} BitOfLowMask(k: nat, i: nat)
    ensures BitAt(Pow2(k) - 1, i) <==> i < k
  {
    if k == 0 {
      NoBitOfZero(i);
    } else {
      AllOnesHalves(k);
      if i > 0 { BitOfLowMask(k - 1, i - 1); }
    }
  }

  lemma {:induction false} NoBitOfZero(i: nat)
    ensures !BitAt(0, i)
  {
    if i > 0 { NoBitOfZero(i - 1); }
  }

  lemma BitOfRemainder(x: nat, k: nat, i: nat)
    ensures BitAt(x % Pow2(k), i) <==> i < k && BitAt(x, i)
  {
    AndLowMask(x, k);
    BitOfAnd(x, Pow2(k) - 1, i);
    BitOfLowMask(k, i);
  }

  lemma {:induction false} BitOfMultiple(x: nat, s: nat, i: nat)
    ensures BitAt(x * Pow2(s), i) <==> i >= s && BitAt(x, i - s)
  {
    if s > 0 {
      TwiceMultiple(x, s);
      if i > 0 { BitOfMultiple(x, s - 1, i - 1); }
    }
  }

  lemma TwiceMultiple(x: nat, s: nat)
    requires s > 0
    ensures x * Pow2(s) == 2 * (x * Pow2(s - 1))
    ensures x * Pow2(s) / 2 == x * Pow2(s - 1) && x * Pow2(s) % 2 == 0
  {
    var p := x * Pow2(s - 1);
    assert x * Pow2(s) == 2 * p;
  }

  lemma BitOfShiftLeft(w: nat, x: nat, s: nat, i: nat)
    ensures BitAt(ShiftLeft(w, x, s), i) <==> s <= i < w && BitAt(x, i - s)
  {
    BitOfRemainder(x * Pow2(s), w, i);
    BitOfMultiple(x, s, i);
  }

  lemma {:induction false} BitOfShiftRight(x: nat, s: nat, i: nat)
    ensures BitAt(ShiftRight(x, s), i) <==> BitAt(x, i + s)
  {
    if s == 0 {
      QuotientUnique(x, 1, x, 0);
    } else {
      HalvedQuotient(x, Pow2(s - 1));
      QuotientNonNegative(x, Pow2(s));
      BitOfShiftRight(x / 2, s - 1, i);
    }
  }

  lemma {:induction false} AndBound(x: nat, y: nat)
    ensures And(x, y) <= x && And(x, y) <= y
  {
    if x > 0 && y > 0 { AndBound(x / 2, y / 2); }
  }

  lemma {:induction false} OrBound(w: nat, x: nat, y: nat)
    requires x < Pow2(w) && y < Pow2(w)
    ensures Or(x, y) < Pow2(w)
  {
    if w > 0 && x > 0 && y > 0 {
      HalfBound(w, x);
      HalfBound(w, y);
      OrBound(w - 1, x / 2, y / 2);
    }
  }
}
