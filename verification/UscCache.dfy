/** gcmCONFIGUSC and gcmCONFIGUSC2: how the unified shader cache is split between attributes and L1. */
module UscCache {
  import opened CommandWord
  import opened CommandStream

  /** Reduction to a gctINT; signed overflow, which C leaves undefined, is taken to wrap. */
  function Int32(x: int): int {
    (x + 0x8000_0000) % 0x1_0000_0000 - 0x8000_0000
  }

  const SCALE: int := 100000
  const BIG_DELTA: int := 2147483647

  /** s_uscCacheRatio: fractions of the L1 cache in units of 1 / SCALE. */
  function CodedRatio(i: nat): int
    requires i < 8
  {
    match i
    case 0 => 100000
    case 1 => 50000
    case 2 => 25000
    case 3 => 12500
    case 4 => 62500
    case 5 => 3125
    case 6 => 75000
    case _ => 0
  }

  /** The fractions that the comments of the table give; entry 4 is meant to be 0.0625. */
  function CommentedRatio(i: nat): int
    requires i < 8
  {
    if i == 4 then 6250 else CodedRatio(i)
  }

  /** One round of the search loop: entry i replaces the best so far if it fits more closely. */
  function Round(max: int, cur: int, i: nat, best: (int, int)): (int, int) {
    if max >= cur && Int32(max - cur) < best.1 then (i, Int32(max - cur)) else best
  }

  /** The first k rounds: the best index so far and its distance to the budget. */
  function Scan(feature: Word, l1: Word, k: nat): (int, int)
    requires k <= 8
  {
    if k == 0 then (-1, BIG_DELTA)
    else Round(Int32(l1 * SCALE), Int32(feature * CodedRatio(k - 1)), k - 1, Scan(feature, l1, k - 1))
  }

  method SearchRatio(feature: Word, l1: Word) returns (curIndex: int)
    ensures curIndex == Scan(feature, l1, 8).0
  {
    var max := Int32(l1 * SCALE);
    var delta := BIG_DELTA;
    var i := 0;
    curIndex := -1;
    while i < 8
      invariant 0 <= i <= 8
      invariant (curIndex, delta) == Scan(feature, l1, i)
    {
      var cur := Int32(feature * CodedRatio(i));
      if max >= cur && Int32(max - cur) < delta {
        curIndex := i;
        delta := Int32(max - cur);
      }
      i := i + 1;
    }
  }

  // ----- What the search finds -----

  /** Every product and difference that the search forms keeps its exact value. */
  predicate NoOverflow(feature: Word, l1: Word) {
    && Int32(l1 * SCALE) == l1 * SCALE
    && forall i: nat :: i < 8 ==>
         && Int32(feature * CodedRatio(i)) == feature * CodedRatio(i)
         && Int32(l1 * SCALE - feature * CodedRatio(i)) == l1 * SCALE - feature * CodedRatio(i)
  }

  lemma Int32Exact(x: int)
    ensures Int32(x) == x <==> -0x8000_0000 <= x < 0x8000_0000
  {
  }

  /** 21474 is the exact limit of the 32-bit arithmetic. */
  lemma OverflowLimit(feature: Word, l1: Word)
    requires l1 < feature
    ensures NoOverflow(feature, l1) <==> feature <= 21474
  {
    Int32Exact(l1 * SCALE);
    if feature <= 21474 {
      forall i: nat | i < 8
        ensures Int32(feature * CodedRatio(i)) == feature * CodedRatio(i)
        ensures Int32(l1 * SCALE - feature * CodedRatio(i)) == l1 * SCALE - feature * CodedRatio(i)
      {
        CapacityBound(feature, i);
        Int32Exact(feature * CodedRatio(i));
        Int32Exact(l1 * SCALE - feature * CodedRatio(i));
      }
    } else {
      Int32Exact(feature * CodedRatio(0));
    }
  }

  lemma CapacityBound(feature: Word, i: nat)
    requires i < 8
    ensures 0 <= feature * CodedRatio(i) <= feature * SCALE
  {
    match i
    case 0 => case 1 => case 2 => case 3 => case 4 => case 5 => case 6 => case _ =>
  }

  predicate FitsBudget(feature: Word, l1: Word, i: nat)
    requires i < 8
  {
    feature * CodedRatio(i) <= l1 * SCALE
  }

  /** Index r has the largest coded capacity within the budget, and no other index ties with it. */
  ghost predicate IsBestFit(feature: Word, l1: Word, r: nat) {
    && r < 8 && FitsBudget(feature, l1, r)
    && forall i: nat :: i < 8 && i != r && FitsBudget(feature, l1, i) ==>
         feature * CodedRatio(i) < feature * CodedRatio(r)
  }

  /** The state of the loop after k rounds, in exact arithmetic. */
  ghost predicate BestOfFirst(feature: Word, l1: Word, k: nat, index: int, delta: int)
    requires k <= 8
  {
    && (index == -1 ==> delta == BIG_DELTA && forall i: nat :: i < k ==> !FitsBudget(feature, l1, i))
    && (index != -1 ==>
          && 0 <= index < k && FitsBudget(feature, l1, index)
          && delta == l1 * SCALE - feature * CodedRatio(index)
          && forall i: nat :: i < k && FitsBudget(feature, l1, i) ==>
               feature * CodedRatio(i) <= feature * CodedRatio(index))
  }

  /** One round of the search in exact arithmetic. */
  lemma ScanStep(feature: Word, l1: Word, k: nat)
    requires l1 < feature <= 21474 && k < 8
    ensures var (index, delta) := Scan(feature, l1, k); var gap := l1 * SCALE - feature * CodedRatio(k);
      && Scan(feature, l1, k + 1) == (if gap >= 0 && gap < delta then (k, gap) else (index, delta))
      && gap < BIG_DELTA
  {
    OverflowLimit(feature, l1);
    CapacityBound(feature, k);
    var cap := feature * CodedRatio(k);
    assert Int32(cap) == cap && Int32(l1 * SCALE - cap) == l1 * SCALE - cap;
  }

  lemma {:induction false} ScanFindsBest(feature: Word, l1: Word, k: nat)
    requires l1 < feature <= 21474 && k <= 8
    ensures BestOfFirst(feature, l1, k, Scan(feature, l1, k).0, Scan(feature, l1, k).1)
  {
    if k > 0 {
      ScanFindsBest(feature, l1, k - 1);
      ScanStep(feature, l1, k - 1);
    }
  }

  /** Once the distance has wrapped to a negative number no later entry can beat it. */
  lemma NegativeStays(max: int, cap: int, i: nat, best: (int, int))
    requires 0 <= max < 0x8000_0000 && 0 <= cap < 0x8000_0000 && best.1 < 0
    ensures Round(max, Int32(cap), i, best) == best
  {
    Int32Exact(cap);
    Int32Exact(max - cap);
  }

  lemma RatiosAreSmall(i: nat)
    requires 1 <= i < 8
    ensures 0 <= 21475 * CodedRatio(i) < 0x8000_0000
  {
  }

  lemma FirstRoundWraps()
    ensures Round(100000, Int32(2147500000), 0, (-1, BIG_DELTA)) == (0, -2147400000)
  {
    assert Int32(2147500000) == -2147467296;
    assert Int32(100000 + 2147467296) == -2147400000;
  }

  lemma {:induction false} WrappedScan(k: nat)
    requires 1 <= k <= 8
    ensures Scan(21475, 1, k) == (0, -2147400000)
  {
    Int32Exact(SCALE);
    if k == 1 {
      FirstRoundWraps();
      assert Scan(21475, 1, 0) == (-1, BIG_DELTA);
      assert 21475 * CodedRatio(0) == 2147500000;
    } else {
      WrappedScan(k - 1);
      RatiosAreSmall(k - 1);
      NegativeStays(SCALE, 21475 * CodedRatio(k - 1), k - 1, (0, -2147400000));
    }
  }

  /** Past the limit the products wrap: with a cache of 21475 and a budget of 1 the search takes the
      whole cache. */
  lemma PastTheLimit()
    ensures Scan(21475, 1, 8).0 == 0 && !FitsBudget(21475, 1, 0)
  {
    WrappedScan(8);
  }

  lemma DistinctCapacities(feature: Word, i: nat, j: nat)
    requires 0 < feature && i < 8 && j < 8 && i != j
    ensures feature * CodedRatio(i) != feature * CodedRatio(j)
  {
    var d := CodedRatio(i) - CodedRatio(j);
    assert d != 0;
    assert feature * CodedRatio(i) - feature * CodedRatio(j) == feature * d;
    NonZeroProduct(feature, d);
  }

  lemma NonZeroProduct(x: int, y: int)
    requires x != 0 && y != 0
    ensures x * y != 0
  {
  }

  /** The search ends at an index from 1 to 7, and it is the one best fit. */
  lemma SearchIsBestFit(feature: Word, l1: Word)
    requires 1 <= l1 < feature <= 21474
    ensures var r := Scan(feature, l1, 8).0; 1 <= r <= 7 && IsBestFit(feature, l1, r)
  {
    ScanFindsBest(feature, l1, 8);
    var r := Scan(feature, l1, 8).0;
    assert FitsBudget(feature, l1, 7);
    assert !FitsBudget(feature, l1, 0);
    forall i: nat | i < 8 && i != r && FitsBudget(feature, l1, i)
      ensures feature * CodedRatio(i) < feature * CodedRatio(r)
    {
      DistinctCapacities(feature, i, r);
    }
  }

  lemma BestFitIsUnique(feature: Word, l1: Word, r: nat, q: nat)
    requires IsBestFit(feature, l1, r) && IsBestFit(feature, l1, q)
    ensures r == q
  {
  }

  /** A larger budget never selects a smaller capacity. */
  lemma SearchIsMonotone(feature: Word, l1: Word, l1': Word)
    requires 1 <= l1 <= l1' < feature <= 21474
    ensures 1 <= Scan(feature, l1, 8).0 <= 7 && 1 <= Scan(feature, l1', 8).0 <= 7
    ensures feature * CodedRatio(Scan(feature, l1, 8).0) <= feature * CodedRatio(Scan(feature, l1', 8).0)
  {
    SearchIsBestFit(feature, l1);
    SearchIsBestFit(feature, l1');
    assert FitsBudget(feature, l1', Scan(feature, l1, 8).0);
  }

  /** The entry that a budget, in units of 1 / SCALE, deserves. */
  function EntryForBudget(feature: Word, budget: int): nat {
    if budget < 3125 * feature then 7
    else if budget < 12500 * feature then 5
    else if budget < 25000 * feature then 3
    else if budget < 50000 * feature then 2
    else if budget < 62500 * feature then 1
    else if budget < 75000 * feature then 4
    else 6
  }

  lemma BestFitByBudget(feature: Word, l1: Word)
    requires 1 <= l1 < feature <= 21474
    ensures Scan(feature, l1, 8).0 == EntryForBudget(feature, l1 * SCALE)
  {
    SearchIsBestFit(feature, l1);
    var q := EntryForBudget(feature, l1 * SCALE);
    forall i: nat | i < 8 && i != q && FitsBudget(feature, l1, i)
      ensures feature * CodedRatio(i) < feature * CodedRatio(q)
    {
      match i
      case 0 => case 1 => case 2 => case 3 => case 4 => case 5 => case 6 => case _ =>
    }
    assert IsBestFit(feature, l1, q);
    BestFitIsUnique(feature, l1, q, Scan(feature, l1, 8).0);
  }

  /** More than a quarter of the budget is used exactly when the budget reaches 1/32 of the cache;
      and the fraction that the comment gives for the chosen entry fits the budget too. */
  lemma Utilisation(feature: Word, l1: Word)
    requires 1 <= l1 < feature <= 21474
    ensures var r := Scan(feature, l1, 8).0;
      && 1 <= r <= 7
      && (4 * (feature * CodedRatio(r)) > l1 * SCALE <==> 32 * l1 >= feature)
      && feature * CommentedRatio(r) <= l1 * SCALE
  {
    SearchIsBestFit(feature, l1);
    BestFitByBudget(feature, l1);
    var r: nat := Scan(feature, l1, 8).0;
    match r
    case 1 => case 2 => case 3 => case 4 => case 5 => case 6 => case _ =>
  }

  ghost predicate IsCommentedBestFit(feature: Word, l1: Word, r: nat) {
    && r < 8 && feature * CommentedRatio(r) <= l1 * SCALE
    && forall i: nat :: i < 8 && feature * CommentedRatio(i) <= l1 * SCALE ==>
         feature * CommentedRatio(i) <= feature * CommentedRatio(r)
  }

  /** The mistyped entry: the chosen index is the best fit for the fractions that the comments
      promise exactly when the budget is neither between 1/16 and 1/8 of the cache nor between 5/8 and 3/4. */
  lemma CommentedBestFit(feature: Word, l1: Word)
    requires 1 <= l1 < feature <= 21474
    ensures Scan(feature, l1, 8).0 >= 1
    ensures IsCommentedBestFit(feature, l1, Scan(feature, l1, 8).0) <==>
      && !(6250 * feature <= l1 * SCALE < 12500 * feature)
      && !(62500 * feature <= l1 * SCALE < 75000 * feature)
  {
    SearchIsBestFit(feature, l1);
    BestFitByBudget(feature, l1);
    Utilisation(feature, l1);
    var r: nat := Scan(feature, l1, 8).0;
    var b := l1 * SCALE;
    if 6250 * feature <= b < 12500 * feature {
      assert feature * CommentedRatio(4) > feature * CommentedRatio(r);
    } else if 62500 * feature <= b < 75000 * feature {
      assert feature * CommentedRatio(1) > feature * CommentedRatio(r);
    } else {
      forall i: nat | i < 8 && feature * CommentedRatio(i) <= b
        ensures feature * CommentedRatio(i) <= feature * CommentedRatio(r)
      {
        match i
        case 0 => case 1 => case 2 => case 3 => case 4 => case 5 => case 6 => case _ =>
      }
    }
  }

  /** A budget of 2 in a cache of 32 deserves the fraction 0.0625 and gets 0.03125. */
  lemma CommentMissed()
    ensures Scan(32, 2, 8).0 == 5 && !IsCommentedBestFit(32, 2, 5)
  {
    BestFitByBudget(32, 2);
    CommentedBestFit(32, 2);
  }

  // ----- Past the limit -----

  /** The search ends at an index, and it is the best fit. */
  ghost predicate FindsBestFit(feature: Word, l1: Word) {
    var r := Scan(feature, l1, 8).0; r >= 0 && IsBestFit(feature, l1, r)
  }

  /** Entry i as the loop compares it, in wrapped arithmetic. */
  predicate Eligible(feature: Word, l1: Word, i: nat)
    requires i < 8
  {
    Int32(l1 * SCALE) >= Int32(feature * CodedRatio(i))
  }

  lemma {:induction false} ChosenIsEligible(feature: Word, l1: Word, k: nat)
    requires k <= 8
    ensures var r := Scan(feature, l1, k).0; -1 <= r < k && (r >= 0 ==> Eligible(feature, l1, r))
  {
    if k > 0 { ChosenIsEligible(feature, l1, k - 1); }
  }

  /** The distance never exceeds that of an eligible entry already seen. */
  lemma {:induction false} DistanceShrinks(feature: Word, l1: Word, k: nat, i: nat)
    requires i < k <= 8 && Eligible(feature, l1, i)
    ensures Scan(feature, l1, k).1 <= Int32(Int32(l1 * SCALE) - Int32(feature * CodedRatio(i)))
  {
    if i < k - 1 { DistanceShrinks(feature, l1, k - 1, i); }
  }

  /** The distance of entry i from the budget, in wrapped arithmetic. */
  function Gap(feature: Word, l1: Word, i: nat): int
    requires i < 8
  {
    Int32(Int32(l1 * SCALE) - Int32(feature * CodedRatio(i)))
  }

  /** Entry i can be chosen at all. */
  predicate Candidate(feature: Word, l1: Word, i: nat)
    requires i < 8
  {
    Eligible(feature, l1, i) && Gap(feature, l1, i) < BIG_DELTA
  }

  /** For every cache and budget, wrapped or not: the search ends at the first of the candidates with
      the least distance, and at -1 exactly when there is none. */
  lemma {:induction false} SearchIsFirstMinimum(feature: Word, l1: Word, k: nat)
    requires k <= 8
    ensures var (r, delta) := Scan(feature, l1, k);
      if r == -1 then delta == BIG_DELTA && forall i: nat :: i < k ==> !Candidate(feature, l1, i)
      else
        && 0 <= r < k && Candidate(feature, l1, r) && delta == Gap(feature, l1, r)
        && (forall i: nat :: i < k && Candidate(feature, l1, i) ==> delta <= Gap(feature, l1, i))
        && (forall i: nat :: i < r && Candidate(feature, l1, i) ==> delta < Gap(feature, l1, i))
  {
    if k > 0 { SearchIsFirstMinimum(feature, l1, k - 1); }
  }

  lemma OnlyZeroFits(feature: Word, l1: Word, r: int)
    requires 32 * l1 < feature && 0 <= r < 7
    ensures !FitsBudget(feature, l1, r)
  {
    match r
    case 0 => case 1 => case 2 => case 3 => case 4 => case 5 => case _ =>
  }

  /** A budget too small for every entry but the last, while the wrapped product of another looks
      at least as close. */
  lemma SmallBudgetMisses(feature: Word, l1: Word, i: nat)
    requires 32 * l1 < feature && l1 * SCALE < 0x8000_0000 && i < 7 && Eligible(feature, l1, i)
    requires Int32(l1 * SCALE - Int32(feature * CodedRatio(i))) <= l1 * SCALE
    ensures !FindsBestFit(feature, l1)
  {
    Int32Exact(l1 * SCALE);
    Int32Exact(0);
    DistanceShrinks(feature, l1, 7, i);
    ChosenIsEligible(feature, l1, 7);
    assert feature * CodedRatio(7) == 0;
    assert Scan(feature, l1, 8) == Scan(feature, l1, 7);
    if Scan(feature, l1, 8).0 >= 0 { OnlyZeroFits(feature, l1, Scan(feature, l1, 8).0); }
  }

  /** Some capacity lies where only a wrapped budget of 21475 can reach it. */
  predicate InWindow(feature: Word, i: nat)
    requires i < 8
  {
    0x8000_0000 <= feature * CodedRatio(i) <= 21475 * SCALE
  }

  /** The scaled budget of 21475 wraps below every capacity. */
  lemma WrappedBudgetMisses(feature: Word)
    requires forall i: nat :: i < 8 ==> !InWindow(feature, i)
    ensures !FindsBestFit(feature, 21475)
  {
    ChosenIsEligible(feature, 21475, 8);
    if FindsBestFit(feature, 21475) {
      var r: nat := Scan(feature, 21475, 8).0;
      assert !InWindow(feature, r);
      CapacityBound(feature, r);
      Int32Exact(feature * CodedRatio(r));
    }
  }

  /** The twelve caches with a capacity in that window. */
  predicate Exceptional(feature: Word) {
    feature in [21475, 34360, 42950, 85900, 171799, 171800] || 687195 <= feature <= 687200
  }

  lemma WindowCaches(feature: Word, i: nat)
    requires i < 8 && InWindow(feature, i)
    ensures Exceptional(feature)
  {
    if i == 0 || i == 1 {
    } else if i == 2 || i == 3 {
    } else if i == 4 || i == 5 {
    }
  }

  /** For each of them a budget that the search gets wrong, and the entry that misleads it. */
  function BadBudget(feature: Word): (Word, nat)
    requires Exceptional(feature)
  {
    if feature == 34360 then (1, 4)
    else if feature == 171800 then (2, 0)
    else if feature >= 687195 then (feature - 687194, 0)
    else (1, 0)
  }

  lemma ExceptionalMisses(feature: Word)
    requires Exceptional(feature)
    ensures 1 <= BadBudget(feature).0 < feature && !FindsBestFit(feature, BadBudget(feature).0)
  {
    var (l1, i) := BadBudget(feature);
    Int32Exact(l1 * SCALE);
    SmallBudgetMisses(feature, l1, i);
  }

  /** The exact limit: every budget is served with its best fit exactly by caches of at most 21474. */
  lemma SearchLimit(feature: Word)
    ensures (forall l1: Word :: 1 <= l1 < feature ==> FindsBestFit(feature, l1)) <==> feature <= 21474
  {
    if feature <= 21474 {
      forall l1: Word | 1 <= l1 < feature ensures FindsBestFit(feature, l1) { SearchIsBestFit(feature, l1); }
    } else if Exceptional(feature) {
      ExceptionalMisses(feature);
    } else {
      forall i: nat | i < 8 ensures !InWindow(feature, i) {
        if InWindow(feature, i) { WindowCaches(feature, i); }
      }
      WrappedBudgetMisses(feature);
    }
  }

  lemma Int32Range(x: int)
    ensures -0x8000_0000 <= Int32(x) < 0x8000_0000 && (x - Int32(x)) % 0x1_0000_0000 == 0
  {
    var q := (x + 0x8000_0000) / 0x1_0000_0000;
    assert x - Int32(x) == q * 0x1_0000_0000;
  }

  lemma Int32OfEven(x: int)
    ensures Int32(2 * x) != -1
  {
    var q := (2 * x + 0x8000_0000) / 0x1_0000_0000;
    assert Int32(2 * x) == 2 * (x - 0x8000_0000 * q);
  }

  lemma NegativeGap(max: int, cur: int)
    requires -0x8000_0000 <= cur <= max < -1
    ensures Int32(max - cur) < BIG_DELTA
  {
    Int32Exact(max - cur);
  }

  lemma FirstEligibleTaken(max: int, cur: int, i: nat)
    requires -0x8000_0000 <= max < -1 && -0x8000_0000 <= cur
    ensures Round(max, cur, i, (-1, BIG_DELTA)) == if max >= cur then (i as int, Int32(max - cur)) else (-1, BIG_DELTA)
  {
    if max >= cur { NegativeGap(max, cur); }
  }

  lemma {:induction false} NoneEligible(feature: Word, l1: Word, k: nat)
    requires k <= 8 && Int32(l1 * SCALE) < 0
    ensures Scan(feature, l1, k).0 == -1 ==> Scan(feature, l1, k).1 == BIG_DELTA
    ensures Scan(feature, l1, k).0 == -1 <==> forall i: nat :: i < k ==> !Eligible(feature, l1, i)
  {
    if k > 0 {
      NoneEligible(feature, l1, k - 1);
      NextEligible(feature, l1, k - 1);
    }
  }

  lemma NextEligible(feature: Word, l1: Word, k: nat)
    requires k < 8 && Int32(l1 * SCALE) < 0
    requires Scan(feature, l1, k).0 == -1 ==> Scan(feature, l1, k).1 == BIG_DELTA
    ensures Scan(feature, l1, k + 1).0 == -1 ==> Scan(feature, l1, k + 1).1 == BIG_DELTA
    ensures Scan(feature, l1, k + 1).0 == -1 <==> Scan(feature, l1, k).0 == -1 && !Eligible(feature, l1, k)
  {
    ChosenIsEligible(feature, l1, k);
    var max, cur := Int32(l1 * SCALE), Int32(feature * CodedRatio(k));
    Int32Range(l1 * SCALE);
    Int32Range(feature * CodedRatio(k));
    Int32OfEven(l1 * 50000);
    FirstEligibleTaken(max, cur, k);
    assert Scan(feature, l1, k + 1) == Round(max, cur, k, Scan(feature, l1, k));
  }

  // ----- The two macros -----

  datatype Features = Features(usc: bool, separateLS: bool, computeOnly: bool, ts: bool, gs: bool,
                               fullCacheFix: bool, l1CacheSize: Word, uscMaxPages: Word, is8800: bool)

  /** attribCacheRatio and L1CacheRatio; the second keeps its old value without a USC. */
  datatype Ratios = Ratios(attrib: int, l1: int)

  /** The locals attribBufSizeInKB, 0 where the macros do not declare it, and L1cacheSize. */
  datatype Partition = Partition(attribKB: int, l1KB: Word)

  function InitialAttribKB(f: Features): Word {
    if f.ts then 42 else 8
  }

  function Split(f: Features): Partition {
    if f.computeOnly then Partition(0, f.l1CacheSize)
    else if InitialAttribKB(f) < f.uscMaxPages then
      Partition(InitialAttribKB(f), f.uscMaxPages - InitialAttribKB(f))
    else Partition(InitialAttribKB(f) - 2, 2)
  }

  /** The ratio that both macros compute once l1KB is known to be nonzero. */
  function L1Ratio(f: Features): int {
    if Split(f).l1KB >= f.l1CacheSize then 0 else Scan(f.l1CacheSize, Split(f).l1KB, 8).0
  }

  predicate Searches(f: Features) {
    f.usc && !f.separateLS && 0 < Split(f).l1KB < f.l1CacheSize
  }

  function ConfigUscSpec(asserts: bool, f: Features, before: Ratios): Outcome<Ratios> {
    if !f.usc then Ok(Ratios(2, before.l1))
    else if f.separateLS then Ok(Ratios(2, 0))
    else if asserts && !f.computeOnly && f.ts != f.gs then AssertFailed
    else if asserts && Split(f).l1KB == 0 then AssertFailed
    else if asserts && Split(f).l1KB >= f.l1CacheSize && !f.fullCacheFix then AssertFailed
    else if asserts && L1Ratio(f) == -1 then AssertFailed
    else Ok(Ratios(2, L1Ratio(f)))
  }

  function Attrib2(f: Features): int {
    if f.computeOnly then 7 else if !f.ts then 2 else if f.is8800 then 3 else 4
  }

  function ConfigUsc2Spec(asserts: bool, f: Features, before: Ratios): Outcome<Ratios> {
    if !f.usc then Ok(Ratios(2, before.l1))
    else if f.separateLS then Ok(Ratios(2, 0))
    else if asserts && (Split(f).l1KB == 0 || L1Ratio(f) == -1) then AssertFailed
    else Ok(Ratios(Attrib2(f), L1Ratio(f)))
  }

  method ConfigUsc(asserts: bool, f: Features, before: Ratios)
    returns (r: Outcome<Ratios>, ghost shares: Partition)
    ensures r == ConfigUscSpec(asserts, f, before)
    ensures f.usc && !f.separateLS && r.Ok? ==> shares == Split(f)
  {
    r, shares := AssertFailed, Partition(0, 0);
    var ratios := before.(attrib := 2);
    if f.usc {
      if f.separateLS {
        ratios := ratios.(l1 := 0);
      } else {
        var l1: Word;
        if f.computeOnly {
          l1 := f.l1CacheSize;
          shares := Partition(0, l1);
        } else {
          var attribKB: Word;
          if f.ts {
            if asserts && !f.gs { return; }
            attribKB := 42;
          } else {
            if asserts && f.gs { return; }
            attribKB := 8;
          }
          if attribKB < f.uscMaxPages {
            l1 := f.uscMaxPages - attribKB;
          } else {
            attribKB := attribKB - 2;
            l1 := 2;
          }
          shares := Partition(attribKB, l1);
        }
        if asserts && l1 == 0 { return; }
        if l1 >= f.l1CacheSize {
          ratios := ratios.(l1 := 0);
          if asserts && !f.fullCacheFix { return; }
        } else {
          var curIndex := SearchRatio(f.l1CacheSize, l1);
          if asserts && curIndex == -1 { return; }
          ratios := ratios.(l1 := curIndex);
        }
      }
    }
    r := Ok(ratios);
  }

  method ConfigUsc2(asserts: bool, f: Features, before: Ratios)
    returns (r: Outcome<Ratios>, ghost shares: Partition)
    ensures r == ConfigUsc2Spec(asserts, f, before)
    ensures f.usc && !f.separateLS && r.Ok? ==> shares == Split(f)
  {
    r, shares := AssertFailed, Partition(0, 0);
    var ratios := before.(attrib := 2);
    if f.usc {
      if f.separateLS {
        ratios := ratios.(l1 := 0);
      } else {
        var l1: Word;
        if f.computeOnly {
          l1 := f.l1CacheSize;
          ratios := ratios.(attrib := 7);
          shares := Partition(0, l1);
        } else {
          var attribKB: Word;
          if f.ts {
            attribKB := 42;
            ratios := ratios.(attrib := if f.is8800 then 3 else 4);
          } else {
            attribKB := 8;
          }
          if attribKB < f.uscMaxPages {
            l1 := f.uscMaxPages - attribKB;
          } else {
            attribKB := attribKB - 2;
            l1 := 2;
          }
          shares := Partition(attribKB, l1);
        }
        if asserts && l1 == 0 { return; }
        if l1 >= f.l1CacheSize {
          ratios := ratios.(l1 := 0);
        } else {
          var curIndex := SearchRatio(f.l1CacheSize, l1);
          if asserts && curIndex == -1 { return; }
          ratios := ratios.(l1 := curIndex);
        }
      }
    }
    r := Ok(ratios);
  }

  /** Outside compute-only parts the two shares add up to the larger of the initial attribute size
      and the pages available. */
  lemma SplitConserves(f: Features)
    requires !f.computeOnly
    ensures Split(f).attribKB + Split(f).l1KB
         == if InitialAttribKB(f) < f.uscMaxPages then f.uscMaxPages else InitialAttribKB(f)
    ensures Split(f).attribKB > 0 && Split(f).l1KB > 0
  {
  }

  /** Wherever gcmCONFIGUSC passes its assertions gcmCONFIGUSC2 passes too and leaves the same
      L1CacheRatio; it passes exactly when gcmCONFIGUSC2 does and its two extra assertions hold. */
  lemma MacrosAgree(f: Features, before: Ratios)
    ensures ConfigUscSpec(true, f, before).Ok? <==>
      && ConfigUsc2Spec(true, f, before).Ok?
      && (f.usc && !f.separateLS ==>
            && (!f.computeOnly ==> f.ts == f.gs)
            && (Split(f).l1KB >= f.l1CacheSize ==> f.fullCacheFix))
    ensures ConfigUscSpec(true, f, before).Ok? ==>
      ConfigUscSpec(true, f, before).value.l1 == ConfigUsc2Spec(true, f, before).value.l1
  {
  }

  /** Builds without assertions always finish, both macros with the same L1 ratio; it is what the
      asserting build leaves, wherever that passes. */
  lemma UncheckedMacros(f: Features, before: Ratios)
    ensures ConfigUscSpec(false, f, before).Ok? && ConfigUsc2Spec(false, f, before).Ok?
    ensures ConfigUscSpec(false, f, before).value.l1 == ConfigUsc2Spec(false, f, before).value.l1
    ensures ConfigUscSpec(true, f, before).Ok? ==> ConfigUscSpec(false, f, before) == ConfigUscSpec(true, f, before)
    ensures ConfigUsc2Spec(true, f, before).Ok? ==> ConfigUsc2Spec(false, f, before) == ConfigUsc2Spec(true, f, before)
  {
  }

  /** Within the arithmetic limit such a build never leaves the -1 that the others refuse. */
  lemma UncheckedRatio(f: Features, before: Ratios)
    requires f.usc && !f.separateLS && f.l1CacheSize <= 21474
    ensures var l1 := ConfigUsc2Spec(false, f, before).value.l1;
      && 0 <= l1 <= 7
      && (l1 == 0 <==> Split(f).l1KB >= f.l1CacheSize)
      && (l1 != 0 ==> IsBestFit(f.l1CacheSize, Split(f).l1KB, l1))
  {
    if Searches(f) { SearchIsBestFit(f.l1CacheSize, Split(f).l1KB); }
  }

  /** On caches within the arithmetic limit gcmCONFIGUSC2 fails only for an empty compute-only cache,
      and a ratio of zero always means the whole cache: the search never yields it. */
  lemma ZeroMeansWholeCache(f: Features, before: Ratios)
    requires f.usc && !f.separateLS && f.l1CacheSize <= 21474
    ensures ConfigUsc2Spec(true, f, before).AssertFailed? <==> f.computeOnly && f.l1CacheSize == 0
    ensures ConfigUsc2Spec(true, f, before).Ok? ==>
      (ConfigUsc2Spec(true, f, before).value.l1 == 0 <==> Split(f).l1KB >= f.l1CacheSize)
  {
    if Searches(f) {
      SearchIsBestFit(f.l1CacheSize, Split(f).l1KB);
    }
  }

  /** A budget that wraps to a negative number ends in -1, which trips the assertion of both macros,
      exactly when no wrapped product is as low. */
  lemma WrappedBudgetAsserts(f: Features, before: Ratios)
    requires Searches(f) && Int32(Split(f).l1KB * SCALE) < 0
    ensures Scan(f.l1CacheSize, Split(f).l1KB, 8).0 == -1 <==>
      forall i: nat :: i < 8 ==> !Eligible(f.l1CacheSize, Split(f).l1KB, i)
    ensures ConfigUsc2Spec(true, f, before).AssertFailed? <==> Scan(f.l1CacheSize, Split(f).l1KB, 8).0 == -1
    ensures Scan(f.l1CacheSize, Split(f).l1KB, 8).0 == -1 ==> ConfigUscSpec(true, f, before).AssertFailed?
  {
    NoneEligible(f.l1CacheSize, Split(f).l1KB, 8);
  }

  // ----- The results in numbers -----

  /** gcmCONFIGUSC2's attribCacheRatio: 7 for compute-only parts; with tessellation 3 on the 8800 and 4
      elsewhere; else 2. */
  lemma AttribRatios(asserts: bool, f: Features, before: Ratios)
    requires f.usc && !f.separateLS && ConfigUsc2Spec(asserts, f, before).Ok?
    ensures var attrib := ConfigUsc2Spec(asserts, f, before).value.attrib;
      && (attrib == 7 <==> f.computeOnly)
      && (attrib == 3 <==> !f.computeOnly && f.ts && f.is8800)
      && (attrib == 4 <==> !f.computeOnly && f.ts && !f.is8800)
      && (attrib == 2 <==> !f.computeOnly && !f.ts)
  {
  }

  /** gcmCONFIGUSC always leaves 2; so do both macros without a USC, where the L1 ratio keeps its value,
      and with a separate LS, where it becomes 0. */
  lemma OtherRatios(asserts: bool, f: Features, before: Ratios)
    ensures ConfigUscSpec(asserts, f, before).Ok? ==> ConfigUscSpec(asserts, f, before).value.attrib == 2
    ensures !f.usc || f.separateLS ==>
      && ConfigUscSpec(asserts, f, before) == Ok(Ratios(2, if f.usc then 0 else before.l1))
      && ConfigUsc2Spec(asserts, f, before) == Ok(Ratios(2, if f.usc then 0 else before.l1))
  {
  }

  /** The shares in KB: everything to L1 on compute-only parts; else 42 or 8 to the attributes and the
      rest of the pages to L1, or 40 or 6 and 2 when the pages do not exceed them. */
  lemma SharesInNumbers(f: Features)
    ensures f.computeOnly ==> Split(f) == Partition(0, f.l1CacheSize)
    ensures !f.computeOnly && f.ts && f.uscMaxPages > 42 ==> Split(f) == Partition(42, f.uscMaxPages - 42)
    ensures !f.computeOnly && f.ts && f.uscMaxPages <= 42 ==> Split(f) == Partition(40, 2)
    ensures !f.computeOnly && !f.ts && f.uscMaxPages > 8 ==> Split(f) == Partition(8, f.uscMaxPages - 8)
    ensures !f.computeOnly && !f.ts && f.uscMaxPages <= 8 ==> Split(f) == Partition(6, 2)
  {
  }

  /** Within the limit the L1 ratio of a passing macro is 0 for a share that covers the cache, and
      otherwise the best fit for the share. */
  lemma L1RatioIsBestFit(f: Features, before: Ratios)
    requires f.usc && !f.separateLS && f.l1CacheSize <= 21474 && ConfigUsc2Spec(true, f, before).Ok?
    ensures var l1 := ConfigUsc2Spec(true, f, before).value.l1;
      if Split(f).l1KB >= f.l1CacheSize then l1 == 0
      else 1 <= l1 <= 7 && IsBestFit(f.l1CacheSize, Split(f).l1KB, l1)
  {
    if Searches(f) { SearchIsBestFit(f.l1CacheSize, Split(f).l1KB); }
  }

  /** The best fit in numbers: the entry by the 32nds and eighths of the cache that the budget reaches. */
  lemma L1RatioInNumbers(f: Features, before: Ratios)
    requires f.usc && !f.separateLS && f.l1CacheSize <= 21474 && ConfigUsc2Spec(true, f, before).Ok?
    requires Split(f).l1KB < f.l1CacheSize
    ensures var l1, kb, cache := ConfigUsc2Spec(true, f, before).value.l1, Split(f).l1KB, f.l1CacheSize;
      && (l1 == 7 <==> 32 * kb < cache)
      && (l1 == 5 <==> cache <= 32 * kb && 8 * kb < cache)
      && (l1 == 3 <==> cache <= 8 * kb && 4 * kb < cache)
      && (l1 == 2 <==> cache <= 4 * kb && 2 * kb < cache)
      && (l1 == 1 <==> cache <= 2 * kb && 8 * kb < 5 * cache)
      && (l1 == 4 <==> 5 * cache <= 8 * kb && 4 * kb < 3 * cache)
      && (l1 == 6 <==> 3 * cache <= 4 * kb)
  {
    BestFitByBudget(f.l1CacheSize, Split(f).l1KB);
  }
}
