/** gcmSETFIELD on any word: the field takes the value, all other bits stay. */
module FieldMacros {
  import opened Bits
  import opened BitLaws
  import opened CommandWord

  lemma BitOfOnes(ones: nat, k: nat, i: nat)
    requires ones == Pow2(k) - 1
    ensures BitAt(ones, i) <==> i < k
  {
    BitOfLowMask(k, i);
  }

  lemma BitOfFieldMask(lo: nat, hi: nat, i: nat)
    requires lo <= hi < 32
    ensures BitAt(FieldMask(lo, hi), i) <==> i <= hi - lo
  {
    FieldMaskMeaning(lo, hi);
    BitOfOnes(FieldMask(lo, hi), hi - lo + 1, i);
  }

  lemma BitOfAlignedMask(lo: nat, hi: nat, i: nat)
    requires lo <= hi < 32
    ensures BitAt(AlignField(FieldMask(lo, hi), lo), i) <==> lo <= i <= hi
  {
    BitOfShiftLeft(32, FieldMask(lo, hi), lo, i);
    if i >= lo { BitOfFieldMask(lo, hi, i - lo); }
  }

  lemma BitOfAlignedValue(value: nat, lo: nat, hi: nat, i: nat)
    requires lo <= hi < 32
    ensures BitAt(AlignField(And(value, FieldMask(lo, hi)), lo), i) <==> lo <= i <= hi && BitAt(value, i - lo)
  {
    BitOfShiftLeft(32, And(value, FieldMask(lo, hi)), lo, i);
    if i >= lo {
      BitOfAnd(value, FieldMask(lo, hi), i - lo);
      BitOfFieldMask(lo, hi, i - lo);
    }
  }

  /** Bit by bit: inside the field the bits of the value, outside it those of the word. */
  lemma SetFieldBits(data: Word, lo: nat, hi: nat, value: nat, i: nat)
    requires lo <= hi < 32 && i < 32
    ensures BitAt(SetField(data, lo, hi, value), i) <==> if lo <= i <= hi then BitAt(value, i - lo) else BitAt(data, i)
  {
    var mask := AlignField(FieldMask(lo, hi), lo);
    BitOfOr(And(data, Not(32, mask)), AlignField(And(value, FieldMask(lo, hi)), lo), i);
    BitOfAnd(data, Not(32, mask), i);
    BitOfNot(32, mask, i);
    BitOfAlignedMask(lo, hi, i);
    BitOfAlignedValue(value, lo, hi, i);
  }

  lemma SetFieldIsAWord(data: Word, lo: nat, hi: nat, value: nat)
    requires lo <= hi < 32
    ensures SetField(data, lo, hi, value) < Pow2(32) == 0x1_0000_0000
  {
    Pow2Values();
    AndBound(data, Not(32, AlignField(FieldMask(lo, hi), lo)));
    OrBound(32, And(data, Not(32, AlignField(FieldMask(lo, hi), lo))), AlignField(And(value, FieldMask(lo, hi)), lo));
  }

  lemma GetFieldBits(data: nat, lo: nat, hi: nat, i: nat)
    requires lo <= hi < 32
    ensures BitAt(GetField(data, lo, hi), i) <==> i <= hi - lo && BitAt(data, i + lo)
  {
    BitOfAnd(ShiftRight(data, lo), FieldMask(lo, hi), i);
    BitOfShiftRight(data, lo, i);
    BitOfFieldMask(lo, hi, i);
  }

  lemma SmallEnough(lo: nat, hi: nat, data: nat, value: nat)
    requires lo <= hi < 32
    ensures GetField(data, lo, hi) < Pow2(32) && value % Pow2(hi - lo + 1) < Pow2(32)
  {
    AndBound(ShiftRight(data, lo), FieldMask(lo, hi));
    FieldMaskMeaning(lo, hi);
    Pow2Monotone(hi - lo + 1, 32);
  }

  lemma GotBit(data: Word, lo: nat, hi: nat, value: nat, i: nat)
    requires lo <= hi < 32
    ensures BitAt(GetField(SetField(data, lo, hi, value), lo, hi), i) <==> BitAt(value % Pow2(hi - lo + 1), i)
  {
    GetFieldBits(SetField(data, lo, hi, value), lo, hi, i);
    BitOfRemainder(value, hi - lo + 1, i);
    if i <= hi - lo { SetFieldBits(data, lo, hi, value, i + lo); }
  }

  /** Words of 32 bits are equal if their bits are. */
  lemma SameWords(x: nat, y: nat)
    requires x < Pow2(32) && y < Pow2(32)
    requires forall i: nat :: BitAt(x, i) <==> BitAt(y, i)
    ensures x == y
  {
    SameBits(32, x, y);
  }

  /** What is set is what is got: the value reduced to the width of the field. */
  lemma GetAfterSet(data: Word, lo: nat, hi: nat, value: nat)
    requires lo <= hi < 32
    ensures GetField(SetField(data, lo, hi, value), lo, hi) == value % Pow2(hi - lo + 1)
  {
    SmallEnough(lo, hi, SetField(data, lo, hi, value), value);
    forall i: nat
      ensures BitAt(GetField(SetField(data, lo, hi, value), lo, hi), i) <==> BitAt(value % Pow2(hi - lo + 1), i)
    {
      GotBit(data, lo, hi, value, i);
    }
    SameWords(GetField(SetField(data, lo, hi, value), lo, hi), value % Pow2(hi - lo + 1));
  }

  lemma KeptBit(data: Word, lo: nat, hi: nat, value: nat, lo': nat, hi': nat, i: nat)
    requires lo <= hi < 32 && lo' <= hi' < 32 && (hi < lo' || hi' < lo)
    ensures BitAt(GetField(SetField(data, lo, hi, value), lo', hi'), i) <==> BitAt(GetField(data, lo', hi'), i)
  {
    GetFieldBits(SetField(data, lo, hi, value), lo', hi', i);
    GetFieldBits(data, lo', hi', i);
    if i <= hi' - lo' { SetFieldBits(data, lo, hi, value, i + lo'); }
  }

  /** Fields that do not overlap keep their values. */
  lemma OtherFieldsStay(data: Word, lo: nat, hi: nat, value: nat, lo': nat, hi': nat)
    requires lo <= hi < 32 && lo' <= hi' < 32 && (hi < lo' || hi' < lo)
    ensures GetField(SetField(data, lo, hi, value), lo', hi') == GetField(data, lo', hi')
  {
    SmallEnough(lo', hi', SetField(data, lo, hi, value), 0);
    SmallEnough(lo', hi', data, 0);
    forall i: nat
      ensures BitAt(GetField(SetField(data, lo, hi, value), lo', hi'), i) <==> BitAt(GetField(data, lo', hi'), i)
    {
      KeptBit(data, lo, hi, value, lo', hi', i);
    }
    SameWords(GetField(SetField(data, lo, hi, value), lo', hi'), GetField(data, lo', hi'));
  }
}
