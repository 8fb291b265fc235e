/**
 CRC-32C on machine words: the register is shifted right and the polynomial laid over
 it with `^`.  The register of `Crc32c` is the same, and the check value of the
 Castagnoli polynomial comes out.
 */
module CrcWords {
  import opened Words
  import opened Veils
  import opened WordBits
  import opened Crc32c

  /** One shift of the register. */
  function Shift(c: bv32): bv32 {
    if Odd(c) then Exor(Right1(c), 0x82F6_3B78) else Right1(c)
  }

  function Shifts(c: bv32, n: nat): bv32 {
    if n == 0 then c else Shift(Shifts(c, n - 1))
  }

  /** A whole byte: laid over the register, then eight shifts. */
  function ByteIn(c: bv32, b: bv32): bv32 {
    Shift(Shift(Shift(Shift(Shift(Shift(Shift(Shift(Exor(c, b)))))))))
  }

  lemma PolyValue()
    ensures Value(0x82F6_3B78) == POLY
  {
    ValueBytes(0x82F6_3B78);
  }

  /** The polynomial, its coefficients in reflected order. */
  lemma Polynomial()
    ensures POLY == Pow2(31 - 28) + Pow2(31 - 27) + Pow2(31 - 26) + Pow2(31 - 25) + Pow2(31 - 23) + Pow2(31 - 22)
        + Pow2(31 - 20) + Pow2(31 - 19) + Pow2(31 - 18) + Pow2(31 - 14) + Pow2(31 - 13) + Pow2(31 - 11) + Pow2(31 - 10)
        + Pow2(31 - 9) + Pow2(31 - 8) + Pow2(31 - 6) + Pow2(31 - 0)
  {
    PowersOfTwo();
  }

  lemma ShiftValue(c: bv32)
    ensures Value(Shift(c)) == Step(Value(c))
  {
    HalfValue(c);
    PolyValue();
    if Odd(c) {
      XorValue(Right1(c), 0x82F6_3B78);
    }
  }

  /** `n` steps of the register. */
  function Steps(c: u32, n: nat): u32 {
    if n == 0 then c else Step(Steps(c, n - 1))
  }

  lemma {:induction false} ShiftsValue(c: bv32, n: nat)
    ensures Value(Shifts(c, n)) == Steps(Value(c), n)
  {
    if n > 0 {
      ShiftsValue(c, n - 1);
      ShiftValue(Shifts(c, n - 1));
    }
  }

  lemma AheadAtStart(c: u32, b: byte)
    ensures Ahead(XorWord(c, b), c, b, 0)
  {
    forall i | 0 <= i < 32
      ensures Bit(XorWord(c, b), i) == (Bit(c, i) != (i < 8 && Bit(b, i)))
    {
      XorBit(c, b, i);
      if 8 <= i {
        PowersOfTwo();
        BitOfSmall(b, 8, i);
      }
    }
  }

  lemma {:induction false} AheadSteps(r: u32, c: u32, b: byte, k: nat)
    requires Ahead(r, c, b, 0) && k <= 8
    ensures Ahead(Steps(r, k), BitsIn(c, b, k), b, k)
  {
    if k > 0 {
      AheadSteps(r, c, b, k - 1);
      AheadStep(Steps(r, k - 1), BitsIn(c, b, k - 1), b, k - 1);
    }
  }

  /** Laying a byte over the register and shifting eight times feeds its bits in one by one. */
  lemma ByteAtOnce(c: u32, b: byte)
    ensures Steps(XorWord(c, b), 8) == BitsIn(c, b, 8)
  {
    AheadAtStart(c, b);
    AheadSteps(XorWord(c, b), c, b, 8);
    PowersOfTwo();
    BitsDetermine(Steps(XorWord(c, b), 8), BitsIn(c, b, 8), 32);
  }

  lemma TwoShifts(c: bv32, n: nat)
    ensures Shifts(c, n + 2) == Shift(Shift(Shifts(c, n)))
  {
  }

  lemma EightShifts(c: bv32)
    ensures Shifts(c, 8) == Shift(Shift(Shift(Shift(Shift(Shift(Shift(Shift(c))))))))
  {
    TwoShifts(c, 0);
    TwoShifts(c, 2);
    TwoShifts(c, 4);
    TwoShifts(c, 6);
  }

  lemma ByteValue(c: bv32, b: bv32)
    requires Value(b) < 0x100
    ensures Value(ByteIn(c, b)) == BitsIn(Value(c), Value(b), 8)
  {
    XorValue(c, b);
    ShiftsValue(Exor(c, b), 8);
    ByteAtOnce(Value(c), Value(b));
    EightShifts(Exor(c, b));
  }

  // ---- the check value ----

  /** After `k` bytes the register is `c`. */
  ghost predicate Fed(data: seq<byte>, k: nat, c: bv32) {
    var r: bool :| forall n {:trigger Lifted(Halving, n)} :: Lifted(Halving, n) ==>
      (r <==> k <= |data| && Fold(0xFFFF_FFFF, data[..k]) == Bytes(c));
    r
  }

  lemma OpenFed(data: seq<byte>, k: nat, c: bv32)
    ensures Fed(data, k, c) <==> k <= |data| && Fold(0xFFFF_FFFF, data[..k]) == Bytes(c)
  {
    assert Lifted(Halving, 0);
  }

  lemma OneByte(data: seq<byte>, k: nat, c: bv32, b: bv32, r: bv32)
    requires Fed(data, k, c) && k < |data| && data[k] == Bytes(b) && ByteIn(c, b) == r
    ensures Fed(data, k + 1, r)
  {
    OpenFed(data, k, c);
    OpenFed(data, k + 1, r);
    assert data[..k + 1][..k] == data[..k];
    ValueBytes(c);
    ValueBytes(b);
    ValueBytes(r);
    ByteValue(c, b);
  }

  lemma FirstDigits(data: seq<byte>)
    requires |data| == 9 && data[0] == 0x31 && data[1] == 0x32 && data[2] == 0x33
    requires Fed(data, 0, 0xFFFF_FFFF)
    ensures Fed(data, 3, 0xEF84_D04D)
  {
    assert ByteIn(0xFFFF_FFFF, 0x31) == 0x6F0A_661C && ByteIn(0x6F0A_661C, 0x32) == 0x8CAA_3B9F;
    assert ByteIn(0x8CAA_3B9F, 0x33) == 0xEF84_D04D;
    OneByte(data, 0, 0xFFFF_FFFF, 0x31, 0x6F0A_661C);
    OneByte(data, 1, 0x6F0A_661C, 0x32, 0x8CAA_3B9F);
    OneByte(data, 2, 0x8CAA_3B9F, 0x33, 0xEF84_D04D);
  }

  lemma SecondDigits(data: seq<byte>)
    requires |data| == 9 && data[3] == 0x34 && data[4] == 0x35 && data[5] == 0x36
    requires Fed(data, 3, 0xEF84_D04D)
    ensures Fed(data, 6, 0xBECA_8E79)
  {
    assert ByteIn(0xEF84_D04D, 0x34) == 0x09C5_0B11 && ByteIn(0x09C5_0B11, 0x35) == 0xE72E_DCCA;
    assert ByteIn(0xE72E_DCCA, 0x36) == 0xBECA_8E79;
    OneByte(data, 3, 0xEF84_D04D, 0x34, 0x09C5_0B11);
    OneByte(data, 4, 0x09C5_0B11, 0x35, 0xE72E_DCCA);
    OneByte(data, 5, 0xE72E_DCCA, 0x36, 0xBECA_8E79);
  }

  lemma LastDigits(data: seq<byte>)
    requires |data| == 9 && data[6] == 0x37 && data[7] == 0x38 && data[8] == 0x39
    requires Fed(data, 6, 0xBECA_8E79)
    ensures Fed(data, 9, 0x1CF9_6D7C)
  {
    assert ByteIn(0xBECA_8E79, 0x37) == 0xEDBD_6815 && ByteIn(0xEDBD_6815, 0x38) == 0x9F78_7F65;
    assert ByteIn(0x9F78_7F65, 0x39) == 0x1CF9_6D7C;
    OneByte(data, 6, 0xBECA_8E79, 0x37, 0xEDBD_6815);
    OneByte(data, 7, 0xEDBD_6815, 0x38, 0x9F78_7F65);
    OneByte(data, 8, 0x9F78_7F65, 0x39, 0x1CF9_6D7C);
  }

  /** The check value of CRC-32C. */
  lemma CheckValue(data: seq<byte>)
    requires data == [0x31, 0x32, 0x33, 0x34, 0x35, 0x36, 0x37, 0x38, 0x39]
    ensures Crc(0, data) == 0xE306_9283
  {
    OpenFed(data, 0, 0xFFFF_FFFF);
    FirstDigits(data);
    SecondDigits(data);
    LastDigits(data);
    OpenFed(data, 9, 0x1CF9_6D7C);
    assert data[..9] == data;
  }
}
