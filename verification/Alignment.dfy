/** gcmALIGN and its relatives: bit tricks compared with rounding arithmetic. */
module Alignment {
  import opened Bits

  // ----- The macros, on unsigned operands of width w -----

  function Wrap(w: nat, x: int): (r: nat)
    ensures r < Pow2(w)
  {
    x % Pow2(w)
  }

  function AlignNp2(w: nat, n: nat, align: nat): int
    requires align != 0
  {
    var t := Wrap(w, n + align - 1);
    t - t % align
  }

  function AlignUp(w: nat, n: nat, align: nat): nat {
    And(Wrap(w, n + Wrap(w, align - 1)), Not(w, Wrap(w, align - 1)))
  }

  function AlignBase(w: nat, n: nat, align: nat): nat {
    And(n, Not(w, Wrap(w, align - 1)))
  }

  /** `x & ~0ULL`: the operand widened to 64 bits. */
  function Widen(x: nat): nat {
    And(x, Not(64, 0))
  }

  predicate AlignOverflows(n: nat, align: nat) {
    Xor(AlignUp(64, Widen(n), Widen(align)), AlignUp(32, n, align)) != 0
  }

  function AlignSafe(n: nat, align: nat): nat {
    if AlignOverflows(n, align) then n else AlignUp(32, n, align)
  }

  datatype Status = StatusOk | StatusResultOverflow

  function AlignCheckOverflow(n: nat, align: nat): Status {
    if AlignOverflows(n, align) then StatusResultOverflow else StatusOk
  }

  predicate AlignNp2FallsBack(n: nat, align: nat)
    requires 0 < align < Pow2(32)
  {
    Pow2Values(); AndAllOnes(64, align); Np2NonNegative(64, Widen(n), align); Np2NonNegative(32, n, align);
    Xor(AlignNp2(64, Widen(n), Widen(align)), AlignNp2(32, n, align)) != 0
  }

  function AlignNp2Safe(n: nat, align: nat): int
    requires 0 < align < Pow2(32)
  {
    if AlignNp2FallsBack(n, align) then n else AlignNp2(32, n, align)
  }

  lemma Np2NonNegative(w: nat, n: nat, align: nat)
    requires align != 0
    ensures AlignNp2(w, n, align) >= 0
  {
    var t := Wrap(w, n + align - 1);
    RemainderBound(t, align);
  }

  lemma RemainderBound(t: nat, a: nat)
    requires a != 0
    ensures t % a <= t
  {
    if t < a { QuotientUnique(t, a, 0, t); }
  }

  // ----- What rounding means -----

  ghost predicate IsLeastMultipleFrom(n: int, a: nat, r: int)
    requires a != 0
  {
    r % a == 0 && n <= r && forall m :: n <= m && m % a == 0 ==> r <= m
  }

  ghost predicate IsGreatestMultipleTo(n: int, a: nat, r: int)
    requires a != 0
  {
    r % a == 0 && r <= n && forall m :: m <= n && m % a == 0 ==> m <= r
  }

  /** The true, unbounded, rounded value. */
  function RoundUp(n: nat, a: nat): (r: int)
    requires a != 0
  {
    (n + a - 1) - (n + a - 1) % a
  }

  lemma MultipleForm(m: int, a: nat)
    requires a != 0 && m % a == 0
    ensures m == m / a * a
  {
  }

  lemma ClearedIsMultiple(t: int, a: nat)
    requires a != 0
    ensures (t - t % a) % a == 0 && t - t % a == t / a * a
  {
    QuotientUnique(t - t % a, a, t / a, 0);
  }

  lemma MultiplesOrder(i: int, j: int, a: nat)
    requires a != 0 && i * a < j * a + a
    ensures i * a <= j * a
  {
    if i > j { TimesMonotone(j + 1, i, a); }
  }

  lemma RoundUpIsLeastMultiple(n: nat, a: nat)
    requires a != 0
    ensures IsLeastMultipleFrom(n, a, RoundUp(n, a))
  {
    var t := n + a - 1;
    ClearedIsMultiple(t, a);
    forall m | n <= m && m % a == 0 ensures RoundUp(n, a) <= m {
      MultipleForm(m, a);
      MultiplesOrder(t / a, m / a, a);
    }
  }

  lemma RoundDownIsGreatestMultiple(n: nat, a: nat)
    requires a != 0
    ensures IsGreatestMultipleTo(n, a, n - n % a)
  {
    ClearedIsMultiple(n, a);
    forall m | m <= n && m % a == 0 ensures m <= n - n % a {
      MultipleForm(m, a);
      MultiplesOrder(m / a, n / a, a);
    }
  }

  // ----- Power-of-two alignment at every width -----

  lemma PowerDivides(w: nat, k: nat)
    requires k <= w
    ensures Pow2(w) % Pow2(k) == 0
  {
    Pow2Sum(w - k, k);
    QuotientUnique(Pow2(w), Pow2(k), Pow2(w - k), 0);
  }

  /** gcmALIGN clears the low bits of the wrapped sum. */
  lemma AlignUpClears(w: nat, n: nat, k: nat)
    requires k < w && n < Pow2(w)
    ensures Pow2(k) < Pow2(w)
    ensures var t := Wrap(w, n + Pow2(k) - 1); AlignUp(w, n, Pow2(k)) == t - t % Pow2(k)
  {
    Pow2Monotone(k + 1, w);
    WrapSmall(w, Pow2(k) - 1);
    AndHighMask(w, Wrap(w, n + Pow2(k) - 1), k);
  }

  lemma WrapSmall(w: nat, x: nat)
    requires x < Pow2(w)
    ensures Wrap(w, x) == x
  {
    QuotientUnique(x, Pow2(w), 0, x);
  }

  lemma AlignUpIsNp2(w: nat, n: nat, k: nat)
    requires k < w && n < Pow2(w)
    ensures AlignUp(w, n, Pow2(k)) == AlignNp2(w, n, Pow2(k))
  {
    AlignUpClears(w, n, k);
  }

  lemma AlignNp2Fits(w: nat, n: nat, a: nat)
    requires 0 < a && n + a - 1 < Pow2(w)
    ensures AlignNp2(w, n, a) == RoundUp(n, a) < Pow2(w)
  {
    WrapSmall(w, n + a - 1);
    RoundUpBelowLimit(n, a, Pow2(w));
  }

  lemma AlignUpFits(w: nat, n: nat, k: nat)
    requires k < w && n + Pow2(k) - 1 < Pow2(w)
    ensures AlignUp(w, n, Pow2(k)) == AlignNp2(w, n, Pow2(k)) == RoundUp(n, Pow2(k)) < Pow2(w)
  {
    AlignUpIsNp2(w, n, k);
    AlignNp2Fits(w, n, Pow2(k));
  }

  lemma AlignUpWraps(w: nat, n: nat, k: nat)
    requires k < w && n < Pow2(w) <= n + Pow2(k) - 1
    ensures AlignUp(w, n, Pow2(k)) == AlignNp2(w, n, Pow2(k)) == 0
    ensures RoundUp(n, Pow2(k)) >= Pow2(w)
  {
    AlignUpClears(w, n, k);
    PowerDivides(w, k);
    RoundUpPastLimit(n, Pow2(k), Pow2(w));
  }

  /** gcmALIGN is always gcmALIGN_NP2 on a power of two, and it is the true rounded value exactly
      when that value fits the width; otherwise it is 0. */
  lemma AlignUpMeaning(w: nat, n: nat, k: nat)
    requires k < w && n < Pow2(w)
    ensures AlignUp(w, n, Pow2(k)) == AlignNp2(w, n, Pow2(k))
    ensures RoundUp(n, Pow2(k)) < Pow2(w) <==> n + Pow2(k) - 1 < Pow2(w)
    ensures AlignUp(w, n, Pow2(k)) ==
      if RoundUp(n, Pow2(k)) < Pow2(w) then RoundUp(n, Pow2(k)) else 0
  {
    if n + Pow2(k) - 1 < Pow2(w) {
      AlignUpFits(w, n, k);
    } else {
      AlignUpWraps(w, n, k);
    }
  }

  /** gcmALIGN gives the least multiple not below n whenever the sum does not wrap. */
  lemma AlignUpIsLeastMultiple(w: nat, n: nat, k: nat)
    requires k < w && n + Pow2(k) - 1 < Pow2(w)
    ensures IsLeastMultipleFrom(n, Pow2(k), AlignUp(w, n, Pow2(k)))
  {
    AlignUpFits(w, n, k);
    RoundUpIsLeastMultiple(n, Pow2(k));
  }

  /** So does gcmALIGN_NP2, for every nonzero alignment. */
  lemma AlignNp2IsLeastMultiple(w: nat, n: nat, align: nat)
    requires align != 0 && n + align - 1 < Pow2(w)
    ensures IsLeastMultipleFrom(n, align, AlignNp2(w, n, align))
  {
    WrapSmall(w, n + align - 1);
    RoundUpIsLeastMultiple(n, align);
  }

  lemma RoundUpBelowLimit(n: nat, a: nat, m: nat)
    requires 0 < a && n + a - 1 < m
    ensures 0 <= RoundUp(n, a) < m && (n + a - 1) % m == n + a - 1
  {
    QuotientUnique(n + a - 1, m, 0, n + a - 1);
    RemainderBound(n + a - 1, a);
    RemainderNonNegative(n + a - 1, a);
  }

  /** Rounding past a multiple m of a reaches m, and the wrapped rounding gives 0. */
  lemma RoundUpPastLimit(n: nat, a: nat, m: nat)
    requires 0 < a && n < m <= n + a - 1 && m % a == 0
    ensures RoundUp(n, a) >= m
    ensures var t := (n + a - 1) % m; t - t % a == 0
  {
    var t := n + a - 1;
    ClearedReaches(t, a, m);
    WrapOnce(t, m);
    QuotientUnique(t - m, a, 0, t - m);
  }

  lemma ClearedReaches(t: nat, a: nat, m: nat)
    requires 0 < a && m <= t && m % a == 0
    ensures t - t % a >= m
  {
    MultipleForm(m, a);
    ClearedIsMultiple(t, a);
    MultiplesOrder(m / a, t / a, a);
  }

  lemma WrapOnce(t: nat, m: nat)
    requires m <= t < 2 * m
    ensures t % m == t - m
  {
    QuotientUnique(t, m, 1, t - m);
  }

  lemma RemainderNonNegative(t: int, a: nat)
    requires a != 0
    ensures 0 <= t % a < a
  {
  }

  /** gcmALIGN_BASE is the greatest multiple not above n, for every n of the width. */
  lemma AlignBaseMeaning(w: nat, n: nat, k: nat)
    requires k < w && n < Pow2(w)
    ensures IsGreatestMultipleTo(n, Pow2(k), AlignBase(w, n, Pow2(k)))
  {
    AlignBaseClears(w, n, k);
    RoundDownIsGreatestMultiple(n, Pow2(k));
  }

  lemma AlignBaseClears(w: nat, n: nat, k: nat)
    requires k < w && n < Pow2(w)
    ensures AlignBase(w, n, Pow2(k)) == n - n % Pow2(k)
  {
    Pow2Monotone(k + 1, w);
    WrapSmall(w, Pow2(k) - 1);
    AndHighMask(w, n, k);
  }

  /** Aligned values are fixed points of gcmALIGN, which is monotone and never below n, as long as
      the sum does not wrap. */
  lemma AlignUpIdempotentMonotone(w: nat, n: nat, n': nat, k: nat)
    requires k < w && n <= n' && n' + Pow2(k) - 1 < Pow2(w)
    ensures AlignUp(w, n, Pow2(k)) < Pow2(w)
    ensures AlignUp(w, AlignUp(w, n, Pow2(k)), Pow2(k)) == AlignUp(w, n, Pow2(k))
    ensures n <= AlignUp(w, n, Pow2(k)) <= AlignUp(w, n', Pow2(k))
  {
    AlignUpMeaning(w, n, k);
    AlignUpMeaning(w, n', k);
    RoundUpIsLeastMultiple(n, Pow2(k));
    RoundUpIsLeastMultiple(n', Pow2(k));
    var u := AlignUp(w, n, Pow2(k));
    AlignUpMeaning(w, u, k);
    RoundUpIsLeastMultiple(u, Pow2(k));
  }

  /** So are they for gcmALIGN_BASE, on every value of the width. */
  lemma AlignBaseIdempotentMonotone(w: nat, n: nat, n': nat, k: nat)
    requires k < w && n <= n' < Pow2(w)
    ensures AlignBase(w, AlignBase(w, n, Pow2(k)), Pow2(k)) == AlignBase(w, n, Pow2(k))
    ensures AlignBase(w, n, Pow2(k)) <= AlignBase(w, n', Pow2(k))
    ensures AlignBase(w, n, Pow2(k)) <= n
  {
    AlignBaseMeaning(w, n, k);
    AlignBaseMeaning(w, n', k);
    AlignBaseMeaning(w, AlignBase(w, n, Pow2(k)), k);
  }

  // ----- The overflow-aware forms on 32-bit operands -----

  lemma WidenIsIdentity(x: nat)
    requires x < Pow2(32)
    ensures Widen(x) == x
  {
    Pow2Values();
    AndAllOnes(64, x);
  }

  /** Overflow is reported, and the fallback to n is taken, exactly when the true rounded value
      needs a 33rd bit; otherwise the result is that value. */
  lemma SafeIsExact(n: nat, k: nat)
    requires n < Pow2(32) && k < 32
    ensures AlignCheckOverflow(n, Pow2(k)) == StatusResultOverflow <==> RoundUp(n, Pow2(k)) >= Pow2(32)
    ensures AlignSafe(n, Pow2(k)) == if RoundUp(n, Pow2(k)) >= Pow2(32) then n else RoundUp(n, Pow2(k))
  {
    Pow2Values();
    Pow2Monotone(k + 1, 32);
    WidenIsIdentity(n);
    WidenIsIdentity(Pow2(k));
    AlignUpMeaning(64, n, k);
    AlignUpMeaning(32, n, k);
    RoundUpIsLeastMultiple(n, Pow2(k));
    XorZeroExactlyOnEqual(AlignUp(64, n, Pow2(k)), AlignUp(32, n, Pow2(k)));
  }

  /** The non-power-of-two form falls back exactly when the sum before rounding needs a 33rd bit. */
  lemma Np2SafeIsExact(n: nat, align: nat)
    requires n < Pow2(32) && 0 < align < Pow2(32)
    ensures AlignNp2FallsBack(n, align) <==> n + align - 1 >= Pow2(32)
    ensures AlignNp2Safe(n, align) == if n + align - 1 >= Pow2(32) then n else RoundUp(n, align)
  {
    Pow2Values();
    WidenIsIdentity(n);
    WidenIsIdentity(align);
    Np2NonNegative(64, n, align);
    Np2NonNegative(32, n, align);
    XorZeroExactlyOnEqual(AlignNp2(64, n, align), AlignNp2(32, n, align));
    RoundUpIsLeastMultiple(n, align);
    Np2Wrapped(n, align, Pow2(32), Pow2(64));
  }

  lemma Np2Wrapped(n: nat, a: nat, m: nat, big: nat)
    requires 0 < a < m && n < m && 2 * m <= big
    ensures var t := n + a - 1; var u := t % m;
            && t % big == t
            && (t < m ==> u == t)
            && (t >= m ==> u - u % a < n <= t - t % a)
  {
    var t := n + a - 1;
    QuotientUnique(t, big, 0, t);
    RemainderNonNegative(t, a);
    if t < m {
      QuotientUnique(t, m, 0, t);
    } else {
      WrapOnce(t, m);
      RemainderNonNegative(t - m, a);
    }
  }

  lemma RoundUpFixesMultiples(n: nat, align: nat)
    requires 0 < align
    ensures RoundUp(n, align) == n <==> n % align == 0
  {
    RoundUpIsLeastMultiple(n, align);
    if n % align == 0 {
      MultipleForm(n, align);
      assert IsLeastMultipleFrom(n, align, RoundUp(n, align));
    }
  }

  /** The result is the rounded value exactly when the sum fits 32 bits or n needs no rounding. */
  lemma Np2SafeRounds(n: nat, align: nat)
    requires n < Pow2(32) && 0 < align < Pow2(32)
    ensures AlignNp2Safe(n, align) == RoundUp(n, align) <==> n + align - 1 < Pow2(32) || n % align == 0
  {
    Np2SafeIsExact(n, align);
    RoundUpFixesMultiples(n, align);
  }

  /** So a rounded value that fits can be missed: 2^32 - 1 is the multiple of 3 next to 2^32 - 2. */
  lemma Np2SafeFallsBackNeedlessly()
    ensures 0xFFFF_FFFE < Pow2(32) && RoundUp(0xFFFF_FFFE, 3) == 0xFFFF_FFFF < Pow2(32)
    ensures AlignNp2Safe(0xFFFF_FFFE, 3) == 0xFFFF_FFFE
  {
    Pow2Values();
    Np2SafeIsExact(0xFFFF_FFFE, 3);
  }
}
