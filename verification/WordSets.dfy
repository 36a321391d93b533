/** 32-bit words and the sets of their one bits: the C operators are the operators on sets. */
module WordSets {
  import opened Bits
  import opened BitLaws
  import opened CommandWord
  import opened DeltaReplay
  import opened FieldMacros

  /** The one bits of a 32-bit word. */
  function BitsOf(w: nat): WordBits {
    set i: nat | i < 32 && BitAt(w, i)
  }

  /** The C operators on words are the operators on their sets of one bits. */
  lemma OperatorsOnSets(x: Word, y: Word)
    ensures x < Pow2(32)
    ensures BitsOf(And(x, y)) == BitsOf(x) * BitsOf(y)
    ensures BitsOf(Or(x, y)) == BitsOf(x) + BitsOf(y)
    ensures BitsOf(Not(32, x)) == ALL - BitsOf(x)
  {
    Pow2Values();
    forall i: nat | i < 32
      ensures i in BitsOf(And(x, y)) <==> i in BitsOf(x) * BitsOf(y)
      ensures i in BitsOf(Or(x, y)) <==> i in BitsOf(x) + BitsOf(y)
      ensures i in BitsOf(Not(32, x)) <==> i in ALL - BitsOf(x)
    {
      BitOfAnd(x, y, i);
      BitOfOr(x, y, i);
      BitOfNot(32, x, i);
    }
  }

  /** No two words have the same set. */
  lemma BitsDetermineWord(x: Word, y: Word)
    ensures BitsOf(x) == BitsOf(y) <==> x == y
  {
    Pow2Values();
    if BitsOf(x) == BitsOf(y) {
      forall i: nat | i < 32 ensures BitAt(x, i) <==> BitAt(y, i) {
        assert BitAt(x, i) <==> i in BitsOf(x);
        assert BitAt(y, i) <==> i in BitsOf(y);
      }
      SameBits(32, x, y);
    }
  }

  /** The word with the given one bits among the n from bit k on. */
  function WordFrom(bits: WordBits, k: nat, n: nat): (w: nat)
    ensures w < Pow2(n)
    decreases n
  {
    if n == 0 then 0 else (if k in bits then 1 else 0) + 2 * WordFrom(bits, k + 1, n - 1)
  }

  lemma WordFromHalves(bits: WordBits, k: nat, n: nat)
    requires n > 0
    ensures WordFrom(bits, k, n) / 2 == WordFrom(bits, k + 1, n - 1)
    ensures WordFrom(bits, k, n) % 2 == 1 <==> k in bits
  {
  }

  lemma {:induction false} WordFromBits(bits: WordBits, k: nat, n: nat, i: nat)
    requires i < n
    ensures BitAt(WordFrom(bits, k, n), i) <==> k + i in bits
    decreases i
  {
    WordFromHalves(bits, k, n);
    if i > 0 { WordFromBits(bits, k + 1, n - 1, i - 1); }
  }

  lemma InBitsOf(w: nat, i: nat)
    ensures i in BitsOf(w) <==> i < 32 && BitAt(w, i)
  {
  }

  lemma BitsAreSmall(bits: WordBits, i: nat)
    requires i in bits
    ensures i < 32
  {
    assert i in ALL;
  }

  lemma WordOfSet(bits: WordBits, width: nat)
    requires width == 32
    ensures BitsOf(WordFrom(bits, 0, width)) == bits
  {
    var w := WordFrom(bits, 0, width);
    forall i: nat ensures i in BitsOf(w) <==> i in bits {
      InBitsOf(w, i);
      if i < 32 { WordFromBits(bits, 0, width, i); }
      if i in bits { BitsAreSmall(bits, i); }
    }
  }

  lemma WordOfWidth(bits: WordBits, width: nat) returns (w: Word)
    requires width == 32
    ensures BitsOf(w) == bits
  {
    Pow2Values();
    WordOfSet(bits, width);
    w := WordFrom(bits, 0, width);
  }

  /** Every set of bits is the set of some word. */
  lemma EverySetIsAWord(bits: WordBits)
    ensures exists w: Word :: BitsOf(w) == bits
  {
    var _ := WordOfWidth(bits, 32);
  }

  /** `~x`. */
  function Not32(x: Word): Word {
    Pow2Values();
    Not(32, x)
  }

  lemma OrOfAnds(x: Word, y: Word, z: Word, u: Word)
    ensures BitsOf(Or(And(x, y), And(z, u))) == (BitsOf(x) * BitsOf(y)) + (BitsOf(z) * BitsOf(u))
  {
    AndBound(x, y);
    AndBound(z, u);
    OperatorsOnSets(x, y);
    OperatorsOnSets(z, u);
    OperatorsOnSets(And(x, y), And(z, u));
  }

  /** `(~mask & v) | (mask & data)` of gckCONTEXT_Update is Blend, and so is
      `(v & ~mask) | (data & mask)` of _MergeDelta. */
  lemma KernelExpressions(mask: Word, v: Word, data: Word)
    ensures BitsOf(Or(And(Not32(mask), v), And(mask, data))) == Blend(BitsOf(mask), BitsOf(v), BitsOf(data))
    ensures BitsOf(Or(And(v, Not32(mask)), And(data, mask))) == Blend(BitsOf(mask), BitsOf(v), BitsOf(data))
  {
    OrOfAnds(Not32(mask), v, mask, data);
    OrOfAnds(v, Not32(mask), data, mask);
    OperatorsOnSets(mask, mask);
  }

  // ----- The kernel's expressions on words -----

  lemma ClearedField(data: Word, b: nat)
    requires b < 32
    ensures SetField(data, b, b, 0) < 0x1_0000_0000
    ensures BitsOf(SetField(data, b, b, 0)) == BitsOf(data) - {b}
  {
    SetFieldIsAWord(data, b, b, 0);
    forall i: nat | i < 32 ensures i in BitsOf(SetField(data, b, b, 0)) <==> i in BitsOf(data) - {b} {
      SetFieldBits(data, b, b, 0, i);
      if i >= b { NoBitOfZero(i - b); }
    }
  }

  /** gckCONTEXT_Update on a complete record of state 0x0595: fields 5, 4 and 13 set to 0 in turn. */
  function AutoDisabled(data: Word): Word {
    ClearedField(data, 5);
    ClearedField(SetField(data, 5, 5, 0), 4);
    ClearedField(SetField(SetField(data, 5, 5, 0), 4, 4, 0), 13);
    SetField(SetField(SetField(data, 5, 5, 0), 4, 4, 0), 13, 13, 0)
  }

  lemma AutoDisabledBits(data: Word)
    ensures BitsOf(AutoDisabled(data)) == BitsOf(data) - Cleared(0x0595)
  {
    ClearedField(data, 5);
    ClearedField(SetField(data, 5, 5, 0), 4);
    ClearedField(SetField(SetField(data, 5, 5, 0), 4, 4, 0), 13);
  }

  /** What gckCONTEXT_Update stores for one record, as it computes it. */
  function UpdatedWord(address: nat, mask: Word, data: Word, v: Word): nat {
    if mask == 0 || mask == 0xFFFF_FFFF then if address == 0x0595 then AutoDisabled(data) else data
    else Or(And(Not32(mask), v), And(mask, data))
  }

  lemma FullMask(mask: Word)
    ensures BitsOf(mask) == ZERO <==> mask == 0
    ensures BitsOf(mask) == ALL <==> mask == 0xFFFF_FFFF
  {
    Pow2Values();
    NoBits();
    AllBits(0xFFFF_FFFF);
    BitsDetermineWord(mask, 0);
    BitsDetermineWord(mask, 0xFFFF_FFFF);
  }

  lemma NoBits()
    ensures BitsOf(0) == ZERO
  {
    forall i: nat ensures !BitAt(0, i) { NoBitOfZero(i); }
  }

  lemma AllBits(ones: nat)
    requires ones == Pow2(32) - 1
    ensures BitsOf(ones) == ALL
  {
    forall i: nat | i < 32 ensures i in BitsOf(ones) { BitOfOnes(ones, 32, i); }
  }

  /** The effect that the replay theorems speak of is what the kernel computes on words. */
  lemma EffectOnWords(address: nat, mask: Word, data: Word, v: Word)
    ensures BitsOf(UpdatedWord(address, mask, data, v))
         == Effect(Cleared(address), Entry(BitsOf(mask), BitsOf(data)), BitsOf(v))
  {
    FullMask(mask);
    if mask == 0 || mask == 0xFFFF_FFFF {
      AutoDisabledBits(data);
      assert BitsOf(data) - ZERO == BitsOf(data);
    } else {
      KernelExpressions(mask, v, data);
    }
  }

  /** What _MergeDelta leaves in a record that exists, as it computes it. */
  function MergedWords(mask: Word, data: Word, newMask: Word, newData: Word): (nat, nat) {
    if newMask == 0 then (0, newData)
    else (Or(mask, newMask), Or(And(data, Not32(newMask)), And(newData, newMask)))
  }

  /** The merge that the theorems speak of is what the kernel computes on words. */
  lemma MergeOnWords(mask: Word, data: Word, newMask: Word, newData: Word)
    ensures var merged := MergedWords(mask, data, newMask, newData);
      MergeEntry(Entry(BitsOf(mask), BitsOf(data)), Entry(BitsOf(newMask), BitsOf(newData)))
        == Entry(BitsOf(merged.0), BitsOf(merged.1))
  {
    FullMask(newMask);
    NoBits();
    OperatorsOnSets(mask, newMask);
    KernelExpressions(newMask, data, newData);
    assert (BitsOf(data) - BitsOf(newMask)) + (BitsOf(newData) * BitsOf(newMask))
        == Blend(BitsOf(newMask), BitsOf(data), BitsOf(newData));
  }
}
