/** The checksum as a left fold of one byte step, and the masked form that is stored. */
module Crc32c {
  import opened Coding
  import opened ByteBits

  /** One bit of the reflected Castagnoli polynomial. */
  function Shift(c: bv32): bv32 {
    if c & 1 == 1 then (c >> 1) ^ 0x82f63b78 else c >> 1
  }

  function ShiftByte(c: bv32): bv32 {
    Shift(Shift(Shift(Shift(Shift(Shift(Shift(Shift(c))))))))
  }

  function Step(c: bv32, b: Byte): bv32 {
    ShiftByte(c ^ Bits(b))
  }

  function Fold(c: bv32, data: Bytes): bv32 {
    if data == [] then c else Step(Fold(c, data[..|data| - 1]), data[|data| - 1])
  }

  /** The checksum is kept complemented, so a run of extensions is one fold. */
  function Extend(crc: Word, data: Bytes): Word {
    WORD - 1 - Fold((WORD - 1 - crc) as bv32, data) as int
  }

  function Checksum(data: Bytes): Word {
    Extend(0, data)
  }

  lemma {:induction false} FoldSplits(c: bv32, a: Bytes, b: Bytes)
    ensures Fold(Fold(c, a), b) == Fold(c, a + b)
  {
    hide Step;
    if b == [] {
      assert a + b == a;
    } else {
      FoldSplits(c, a, b[..|b| - 1]);
      assert (a + b)[..|a + b| - 1] == a + b[..|b| - 1];
    }
  }

  /** Extending a checksum of `a` by `b` gives the checksum of both, from any start. */
  lemma ExtendSplits(crc: Word, a: Bytes, b: Bytes)
    ensures Extend(Extend(crc, a), b) == Extend(crc, a + b)
  {
    hide Step, Fold;
    FoldSplits((WORD - 1 - crc) as bv32, a, b);
    BackAndForth(Fold((WORD - 1 - crc) as bv32, a));
  }

  // ---------------------------------------------------------------------------------------------
  // What the checksum notices

  /** The top bit of the polynomial tells what was shifted out. */
  lemma ShiftInjective(c: bv32, d: bv32)
    requires Shift(c) == Shift(d)
    ensures c == d
  {
  }

  lemma ShiftByteInjective(c: bv32, d: bv32)
    requires ShiftByte(c) == ShiftByte(d)
    ensures c == d
  {
    hide Shift;
    var c1, d1 := Shift(c), Shift(d);
    var c2, d2 := Shift(c1), Shift(d1);
    var c3, d3 := Shift(c2), Shift(d2);
    var c4, d4 := Shift(c3), Shift(d3);
    var c5, d5 := Shift(c4), Shift(d4);
    var c6, d6 := Shift(c5), Shift(d5);
    var c7, d7 := Shift(c6), Shift(d6);
    ShiftInjective(c7, d7);
    ShiftInjective(c6, d6);
    ShiftInjective(c5, d5);
    ShiftInjective(c4, d4);
    ShiftInjective(c3, d3);
    ShiftInjective(c2, d2);
    ShiftInjective(c1, d1);
    ShiftInjective(c, d);
  }

  lemma StepInjective(c: bv32, d: bv32, b: Byte)
    requires Step(c, b) == Step(d, b)
    ensures c == d
  {
    hide ShiftByte, Bits;
    ShiftByteInjective(c ^ Bits(b), d ^ Bits(b));
    XorCancels(c, d, Bits(b));
  }

  lemma {:induction false} FoldInjective(c: bv32, d: bv32, data: Bytes)
    requires Fold(c, data) == Fold(d, data)
    ensures c == d
  {
    hide Step;
    if data != [] {
      var init := data[..|data| - 1];
      StepInjective(Fold(c, init), Fold(d, init), data[|data| - 1]);
      FoldInjective(c, d, init);
    }
  }

  /** No change of a single byte goes unnoticed, wherever it is. */
  lemma ByteIsNoticed(before: Bytes, b: Byte, d: Byte, after: Bytes)
    requires b != d
    ensures Checksum(before + [b] + after) != Checksum(before + [d] + after)
  {
    hide Fold;
    var start := (WORD - 1 - 0) as bv32;
    FoldNotices(start, before, b, d, after);
    BackAndForth(Fold(start, before + [b] + after));
    BackAndForth(Fold(start, before + [d] + after));
  }

  lemma FoldNotices(start: bv32, before: Bytes, b: Byte, d: Byte, after: Bytes)
    requires b != d
    ensures Fold(start, before + [b] + after) != Fold(start, before + [d] + after)
  {
    hide Step, Fold;
    var c := Fold(start, before);
    OneByte(start, before, b, after);
    OneByte(start, before, d, after);
    if Fold(Step(c, b), after) == Fold(Step(c, d), after) {
      FoldInjective(Step(c, b), Step(c, d), after);
      StepNotices(c, b, d);
    }
  }

  lemma StepNotices(c: bv32, b: Byte, d: Byte)
    requires Step(c, b) == Step(c, d)
    ensures b == d
  {
    hide ShiftByte, Bits;
    ShiftByteInjective(c ^ Bits(b), c ^ Bits(d));
    XorCancels(Bits(b), Bits(d), c);
    BitsInjective(b, d);
  }

  lemma OneByte(start: bv32, before: Bytes, b: Byte, after: Bytes)
    ensures Fold(start, before + [b] + after) == Fold(Step(Fold(start, before), b), after)
  {
    hide Step;
    FoldSplits(start, before + [b], after);
    assert (before + [b])[..|before|] == before;
  }

  const DIGITS: Bytes := [0x31, 0x32, 0x33, 0x34, 0x35, 0x36, 0x37, 0x38, 0x39]

  /** The check value of the Castagnoli polynomial: the checksum of the digits 1 to 9. */
  lemma CheckValue()
    ensures Checksum(DIGITS) == 0xe306_9283 && Mask(Checksum(DIGITS)) == 0xc78a_b0e5
  {
    hide Fold, Mask;
    FoldDigits();
    Values();
    BackAndForth(0xFFFF_FFFF);
    MaskedValue();
  }

  lemma MaskedValue()
    ensures Mask(0xe306_9283) == 0xc78a_b0e5
  {
    assert 0xe306_9283 / 0x8000 == 0x1c60d && 0xe306_9283 % 0x8000 == 0x1283;
  }

  lemma Values()
    ensures 0xFFFF_FFFF as bv32 as int == WORD - 1 && 0x1cf96d7c as bv32 as int == 0x1cf9_6d7c
  {
    var all: bv32, last: bv32 := 0xFFFF_FFFF, 0x1cf96d7c;
    assert all as int == WORD - 1 && last as int == 0x1cf9_6d7c;
  }

  lemma FoldDigits()
    ensures Fold(0xFFFF_FFFF, DIGITS) == 0x1cf96d7c
  {
    hide Fold, Step;
    var start: bv32 := 0xFFFF_FFFF;
    FoldEmpty(start);
    FirstDigits();
    LastDigits();
    FoldNext(start, 0, 0x6f0a661c);
    FoldNext(start, 1, 0x8caa3b9f);
    FoldNext(start, 2, 0xef84d04d);
    FoldNext(start, 3, 0x09c50b11);
    FoldNext(start, 4, 0xe72edcca);
    FoldNext(start, 5, 0xbeca8e79);
    FoldNext(start, 6, 0xedbd6815);
    FoldNext(start, 7, 0x9f787f65);
    FoldNext(start, 8, 0x1cf96d7c);
    assert DIGITS[..9] == DIGITS;
  }

  lemma FirstDigits()
    ensures Step(0xffffffff, 0x31) == 0x6f0a661c
    ensures Step(0x6f0a661c, 0x32) == 0x8caa3b9f
    ensures Step(0x8caa3b9f, 0x33) == 0xef84d04d
    ensures Step(0xef84d04d, 0x34) == 0x09c50b11
    ensures Step(0x09c50b11, 0x35) == 0xe72edcca
  {
    hide Bits;
    BitsAre(0x31, 3, 1);
    BitsAre(0x32, 3, 2);
    BitsAre(0x33, 3, 3);
    BitsAre(0x34, 3, 4);
    BitsAre(0x35, 3, 5);
  }

  lemma LastDigits()
    ensures Step(0xe72edcca, 0x36) == 0xbeca8e79
    ensures Step(0xbeca8e79, 0x37) == 0xedbd6815
    ensures Step(0xedbd6815, 0x38) == 0x9f787f65
    ensures Step(0x9f787f65, 0x39) == 0x1cf96d7c
  {
    hide Bits;
    BitsAre(0x36, 3, 6);
    BitsAre(0x37, 3, 7);
    BitsAre(0x38, 3, 8);
    BitsAre(0x39, 3, 9);
  }

  lemma FoldEmpty(start: bv32)
    ensures Fold(start, []) == start
  {
  }

  lemma FoldNext(start: bv32, i: nat, r: bv32)
    requires i < |DIGITS| && Step(Fold(start, DIGITS[..i]), DIGITS[i]) == r
    ensures Fold(start, DIGITS[..i + 1]) == r
  {
    hide Step;
    assert DIGITS[..i + 1][..i] == DIGITS[..i];
  }

  const MASK_DELTA := 0xa282ead8

  /** Rotate right by 15 bits and add a constant. */
  function Mask(crc: Word): Word {
    (crc / 0x8000 + crc % 0x8000 * 0x20000 + MASK_DELTA) % WORD
  }

  function Unmask(masked: Word): Word {
    var rot := (masked - MASK_DELTA) % WORD;
    rot / 0x20000 + rot % 0x20000 * 0x8000
  }

  lemma UnmaskMask(crc: Word)
    ensures Unmask(Mask(crc)) == crc
  {
    var rot := crc / 0x8000 + crc % 0x8000 * 0x20000;
    assert (Mask(crc) - MASK_DELTA) % WORD == rot;
    assert rot / 0x20000 == crc % 0x8000 && rot % 0x20000 == crc / 0x8000;
  }

  lemma MaskUnmask(masked: Word)
    ensures Mask(Unmask(masked)) == masked
  {
    var rot := (masked - MASK_DELTA) % WORD;
    var crc := Unmask(masked);
    assert crc / 0x8000 == rot % 0x20000 && crc % 0x8000 == rot / 0x20000;
  }
}
