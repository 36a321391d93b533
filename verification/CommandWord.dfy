/** The 32-bit words of the command stream: gcmSETFIELD and the LOAD_STATE, NOP and STALL commands. */
module CommandWord {
  import opened Bits

  type Word = w: nat | w < 0x1_0000_0000

  // ----- Field macros, on 32-bit words -----

  function FieldMask(lo: nat, hi: nat): nat
    requires lo <= hi < 32
  {
    Pow2Values();
    Not(32, ShiftLeft(32, Not(32, 0), hi - lo + 1))
  }

  function AlignField(x: nat, lo: nat): nat {
    ShiftLeft(32, x, lo)
  }

  function SetField(data: nat, lo: nat, hi: nat, value: nat): nat
    requires lo <= hi < 32
  {
    Or(And(data, Not(32, AlignField(FieldMask(lo, hi), lo))),
       AlignField(And(value, FieldMask(lo, hi)), lo))
  }

  function GetField(data: nat, lo: nat, hi: nat): nat
    requires lo <= hi < 32
  {
    And(ShiftRight(data, lo), FieldMask(lo, hi))
  }

  lemma FieldMaskMeaning(lo: nat, hi: nat)
    requires lo <= hi < 32
    ensures FieldMask(lo, hi) == Pow2(hi - lo + 1) - 1
  {
    Pow2Values();
    var p, m := Pow2(hi - lo + 1), Pow2(32);
    Pow2Monotone(hi - lo + 1, 32);
    Pow2Monotone(1, hi - lo + 1);
    assert (m - 1) * p == (p - 1) * m + (m - p);
    QuotientUnique((m - 1) * p, m, p - 1, m - p);
  }

  /** A field set in a zero word holds the value reduced to the width of the field. */
  lemma SetFieldInZero(lo: nat, hi: nat, value: nat)
    requires lo <= hi < 32
    ensures SetField(0, lo, hi, value) == value % Pow2(hi - lo + 1) * Pow2(lo)
    ensures SetField(0, lo, hi, value) < Pow2(hi + 1)
  {
    var size := hi - lo + 1;
    var masked := And(value, FieldMask(lo, hi));
    assert masked == value % Pow2(size) by { FieldMaskMeaning(lo, hi); AndLowMask(value, size); }
    assert Pow2(size) * Pow2(lo) == Pow2(hi + 1) by { Pow2Sum(size, lo); }
    Pow2Monotone(hi + 1, 32);
    ScaledRemainder(value, Pow2(size), Pow2(lo), Pow2(32));
    ZeroIsNeutral(0, AlignField(masked, lo));
  }

  lemma ZeroIsNeutral(zero: nat, x: nat)
    requires zero == 0
    ensures Or(zero, x) == x
    ensures forall y :: And(zero, y) == 0
  {
  }

  lemma ScaledRemainder(value: nat, p: nat, q: nat, m: nat)
    requires 0 < p && 0 < q && p * q <= m
    ensures 0 <= value % p * q < p * q
    ensures value % p * q % m == value % p * q
  {
    var v := value % p;
    TimesMonotone(v + 1, p, q);
    TimesMonotone(0, v, q);
    QuotientUnique(v * q, m, 0, v * q);
  }

  lemma GetFieldMeaning(data: nat, lo: nat, hi: nat)
    requires lo <= hi < 32
    ensures GetField(data, lo, hi) == data / Pow2(lo) % Pow2(hi - lo + 1)
  {
    FieldMaskMeaning(lo, hi);
    AndLowMask(ShiftRight(data, lo), hi - lo + 1);
  }

  // ----- Commands -----

  const OPCODE_LOAD_STATE: nat := 0x01
  const OPCODE_NOP: nat := 0x03
  const OPCODE_STALL: nat := 0x09
  const FILLER: Word := 0x18000000
  const SEMAPHORE_ADDRESS: Word := 0x0E02

  /** The LOAD_STATE header: OPCODE in bits 31:27, FLOAT in 26, COUNT in 25:16, ADDRESS in 15:0.
      `HeaderFromFields` shows it to be what the field macros build. */
  function LoadState(fixedPoint: bool, count: Word, address: Word): (w: Word) {
    0x0800_0000 + (if fixedPoint then 0x0400_0000 else 0) + count % 1024 * 0x1_0000 + address % 0x1_0000
  }

  const STALL: Word := 0x4800_0000

  /** gcmBEGINSTATEBATCH or-s four gcmSETFIELD values together; the fields do not overlap. */
  lemma HeaderFromFields(fixedPoint: bool, count: Word, address: Word)
    ensures Or(Or(Or(SetField(0, 27, 31, OPCODE_LOAD_STATE),
                     SetField(0, 26, 26, if fixedPoint then 1 else 0)),
                  SetField(0, 16, 25, count)),
               SetField(0, 0, 15, address))
         == LoadState(fixedPoint, count, address)
  {
    OpcodeFields();
    OperandFields(fixedPoint, count, address);
    OrOfFields(SetField(0, 27, 31, OPCODE_LOAD_STATE), SetField(0, 26, 26, if fixedPoint then 1 else 0),
               SetField(0, 16, 25, count), SetField(0, 0, 15, address), fixedPoint, count, address);
  }

  lemma OrOfFields(opcode: nat, flag: nat, c: nat, a: nat, fixedPoint: bool, count: Word, address: Word)
    requires opcode == 0x0800_0000 && flag == (if fixedPoint then 0x0400_0000 else 0)
    requires c == count % 1024 * 0x1_0000 && a == address % 0x1_0000
    ensures Or(Or(Or(opcode, flag), c), a) == LoadState(fixedPoint, count, address)
  {
    LayoutSum(opcode, flag, if fixedPoint then 1 else 0, c, count % 1024, a);
  }

  lemma FloatField(fixedPoint: bool)
    ensures SetField(0, 26, 26, if fixedPoint then 1 else 0) == if fixedPoint then 0x0400_0000 else 0
  {
    Pow2Values();
    OperandField(26, 26, 0x0400_0000, 2, if fixedPoint then 1 else 0);
  }

  lemma CountField(count: Word)
    ensures SetField(0, 16, 25, count) == count % 1024 * 0x1_0000
  {
    Pow2Values();
    OperandField(16, 25, 0x1_0000, 1024, count);
  }

  lemma AddressField(address: Word)
    ensures SetField(0, 0, 15, address) == address % 0x1_0000
  {
    Pow2Values();
    OperandField(0, 15, 1, 0x1_0000, address);
  }

  lemma OperandFields(fixedPoint: bool, count: Word, address: Word)
    ensures SetField(0, 26, 26, if fixedPoint then 1 else 0) == if fixedPoint then 0x0400_0000 else 0
    ensures SetField(0, 16, 25, count) == count % 1024 * 0x1_0000
    ensures SetField(0, 0, 15, address) == address % 0x1_0000
  {
    FloatField(fixedPoint);
    CountField(count);
    AddressField(address);
  }

  lemma OpcodeFields()
    ensures SetField(0, 27, 31, OPCODE_LOAD_STATE) == SetField(0, 27, 31, 0x01) == 0x0800_0000
    ensures SetField(0, 27, 31, OPCODE_STALL) == SetField(0, 27, 31, 0x09) == STALL == 0x4800_0000
    ensures SetField(0, 27, 31, OPCODE_NOP) == SetField(0, 27, 31, 0x03) == FILLER == 0x1800_0000
  {
    Pow2Values();
    SetFieldInZero(27, 31, OPCODE_LOAD_STATE);
    SetFieldInZero(27, 31, OPCODE_STALL);
    SetFieldInZero(27, 31, OPCODE_NOP);
  }

  lemma OperandField(lo: nat, hi: nat, p: nat, q: nat, value: nat)
    requires lo <= hi < 32 && p == Pow2(lo) && q == Pow2(hi - lo + 1)
    ensures q != 0 && SetField(0, lo, hi, value) == value % q * p
  {
    SetFieldInZero(lo, hi, value);
  }

  lemma OrSum(x: nat, q: nat, p: nat, y: nat, k: nat)
    requires p == Pow2(k) && y < p && x == q * p
    ensures Or(x, y) == x + y
  {
    QuotientUnique(x, p, q, 0);
    OrDisjoint(x, y, k);
  }

  /** The four fields of a header do not overlap. */
  lemma LayoutSum(opcode: nat, flag: nat, f: nat, count: nat, c: nat, a: nat)
    requires f < 2 && c < 1024 && a < 0x1_0000
    requires opcode == 0x0800_0000 && flag == f * 0x0400_0000 && count == c * 0x1_0000
    ensures Or(Or(Or(opcode, flag), count), a) == opcode + flag + count + a
  {
    Pow2Values();
    OrSum(opcode, 1, 0x0800_0000, flag, 27);
    OrSum(opcode + flag, 2 + f, 0x0400_0000, count, 26);
    OrSum(opcode + flag + count, 0x800 + f * 0x400 + c, 0x1_0000, a, 16);
  }

  lemma LayoutFields(f: nat, c: nat, a: nat)
    requires f < 2 && c < 1024 && a < 0x1_0000
    ensures var w := 0x0800_0000 + f * 0x0400_0000 + c * 0x1_0000 + a;
      && w / 0x0800_0000 == 1
      && w / 0x0400_0000 % 2 == f
      && w / 0x1_0000 % 1024 == c
      && w % 0x1_0000 == a
  {
    var w := 0x0800_0000 + f * 0x0400_0000 + c * 0x1_0000 + a;
    QuotientUnique(w, 0x0800_0000, 1, f * 0x0400_0000 + c * 0x1_0000 + a);
    QuotientUnique(w, 0x0400_0000, 2 + f, c * 0x1_0000 + a);
    QuotientUnique(w, 0x1_0000, 0x800 + f * 0x400 + c, a);
  }

  /** What the front end reads in the first word of a command. */
  datatype Command =
    | CmdLoadState(fixedPoint: bool, count: nat, address: nat)
    | CmdNop
    | CmdStall
    | CmdUnknown

  /** A COUNT field of zero stands for 1024 states. */
  function DecodeCommand(w: Word): Command {
    var opcode := w / 0x0800_0000;
    if opcode == OPCODE_LOAD_STATE then
      var count := w / 0x1_0000 % 1024;
      CmdLoadState(w / 0x0400_0000 % 2 == 1, if count == 0 then 1024 else count, w % 0x1_0000)
    else if opcode == OPCODE_NOP then CmdNop
    else if opcode == OPCODE_STALL then CmdStall
    else CmdUnknown
  }

  /** The decoder reads exactly the fields that gcmGETFIELD extracts. */
  lemma DecodeReadsFields(w: Word, lo: nat, hi: nat)
    requires (lo == 27 && hi == 31) || (lo == hi == 26) || (lo == 16 && hi == 25) || (lo == 0 && hi == 15)
    ensures GetField(w, lo, hi) ==
      if lo == 27 then w / 0x0800_0000
      else if lo == 26 then w / 0x0400_0000 % 2
      else if lo == 16 then w / 0x1_0000 % 1024
      else w % 0x1_0000
  {
    GetFieldMeaning(w, lo, hi);
    FieldArithmetic(w, Pow2(lo), Pow2(hi - lo + 1), lo, hi);
  }

  lemma FieldArithmetic(w: Word, p: nat, q: nat, lo: nat, hi: nat)
    requires (lo == 27 && hi == 31) || (lo == hi == 26) || (lo == 16 && hi == 25) || (lo == 0 && hi == 15)
    requires p == Pow2(lo) && q == Pow2(hi - lo + 1)
    ensures p != 0 && q != 0
    ensures w / p % q ==
      if lo == 27 then w / 0x0800_0000
      else if lo == 26 then w / 0x0400_0000 % 2
      else if lo == 16 then w / 0x1_0000 % 1024
      else w % 0x1_0000
  {
    Pow2Values();
    if lo == 27 {
      assert p == 0x0800_0000 && q == 32;
      QuotientUnique(w / 0x0800_0000, 32, 0, w / 0x0800_0000);
    } else if lo == 26 {
      assert p == 0x0400_0000 && q == 2;
    } else if lo == 16 {
      assert p == 0x1_0000 && q == 1024;
    } else {
      assert p == 1 && q == 0x1_0000;
    }
  }

  /** A header of at most 1024 states reads back as itself exactly when it announces at least one
      state and its address fits the 16-bit field. */
  lemma HeaderRoundTrip(fixedPoint: bool, count: Word, address: Word)
    requires count <= 1024
    ensures DecodeCommand(LoadState(fixedPoint, count, address)) ==
      CmdLoadState(fixedPoint, if count == 0 then 1024 else count, address % 0x1_0000)
    ensures DecodeCommand(LoadState(fixedPoint, count, address)) == CmdLoadState(fixedPoint, count, address)
       <==> 1 <= count && address < 0x1_0000
  {
    assert count % 1024 == if count == 1024 then 0 else count;
    LayoutFields(if fixedPoint then 1 else 0, count % 1024, address % 0x1_0000);
  }
}
