/** A 32-bit register as a number, and its bytes. */
module Registers {
  import opened Bytes

  /** The low byte of a register. */
  function Low(w: bv32): byte {
    (w & 0xff) as bv8 as int
  }

  /** A register as a number. */
  function Unsigned(w: bv32): int {
    w as int
  }

  /** The lowest bit of a register. */
  function Bit(w: bv32): int {
    if w & 1 == 1 then 1 else 0
  }

  lemma {:induction false} EvenNumber(q: bv32)
    requires q <= 0x7fff_ffff
    ensures (q << 1) as int == 2 * (q as int)
  {
  }

  lemma {:induction false} OddNumber(q: bv32)
    requires q <= 0x7fff_ffff
    ensures ((q << 1) | 1) as int == 2 * (q as int) + 1
  {
  }

  function Half(w: bv32): bv32 {
    w >> 1
  }

  lemma {:induction false} EvenOrOdd(w: bv32, q: bv32)
    requires q <= 0x7fff_ffff && (w & 1 == 1 ==> w == (q << 1) | 1) && (w & 1 != 1 ==> w == q << 1)
    ensures Unsigned(w) == 2 * Unsigned(q) + Bit(w)
  {
    EvenNumber(q);
    OddNumber(q);
  }

  lemma {:induction false} HalfIsSmall(w: bv32)
    ensures Half(w) <= 0x7fff_ffff
  {
  }

  lemma {:induction false} OddFromHalf(w: bv32)
    ensures w & 1 == 1 ==> w == (Half(w) << 1) | 1
  {
  }

  lemma {:induction false} EvenFromHalf(w: bv32)
    ensures w & 1 != 1 ==> w == Half(w) << 1
  {
  }

  lemma {:induction false} Halves(w: bv32)
    ensures Unsigned(w) == 2 * Unsigned(Half(w)) + Bit(w)
  {
    hide Unsigned, Bit, Half;
    HalfIsSmall(w);
    OddFromHalf(w);
    EvenFromHalf(w);
    EvenOrOdd(w, Half(w));
  }

  function Half4(w: bv32): bv32 {
    Half(Half(Half(Half(w))))
  }

  /** The number that the low four bits make. */
  function FourBits(w: bv32): int {
    Bit(w) + 2 * Bit(Half(w)) + 4 * Bit(Half(Half(w))) + 8 * Bit(Half(Half(Half(w))))
  }

  lemma {:induction false} FourHalves(w: bv32)
    ensures Unsigned(w) == FourBits(w) + 16 * Unsigned(Half4(w))
  {
    hide Unsigned, Bit, Half;
    Halves(w);
    Halves(Half(w));
    Halves(Half(Half(w)));
    Halves(Half(Half(Half(w))));
  }

  lemma {:induction false} EightHalves(w: bv32)
    ensures Unsigned(w) == FourBits(w) + 16 * FourBits(Half4(w)) + 256 * Unsigned(Half4(Half4(w)))
  {
    hide Unsigned, FourBits, Half4;
    FourHalves(w);
    FourHalves(Half4(w));
  }

  lemma {:induction false} Half4Is(w: bv32)
    ensures Half4(w) == w >> 4
  {
  }

  lemma {:induction false} EightDown(w: bv32)
    ensures Half4(Half4(w)) == w >> 8
  {
    hide Half4;
    Half4Is(w);
    Half4Is(w >> 4);
  }

  /** A bit of the low byte is that bit of the register. */
  lemma {:induction false} SameBit(w: bv32, r: bv32)
    requires r & 1 == w & 1
    ensures Bit(r) == Bit(w)
  {
  }

  lemma {:induction false} SameFour(w: bv32, r: bv32)
    requires r & 0xf == w & 0xf
    ensures FourBits(r) == FourBits(w)
  {
    hide Bit;
    SameBit(w, r);
    SameBit(Half(w), Half(r));
    SameBit(Half(Half(w)), Half(Half(r)));
    SameBit(Half(Half(Half(w))), Half(Half(Half(r))));
  }

  lemma {:induction false} LowByteSame(w: bv32)
    ensures (w & 0xff) & 0xf == w & 0xf && ((w & 0xff) >> 4) & 0xf == (w >> 4) & 0xf && (w & 0xff) >> 8 == 0
    ensures w & 0xff <= 0xff
  {
  }

  lemma {:induction false} SameEight(w: bv32, r: bv32)
    requires r == w & 0xff
    ensures FourBits(r) == FourBits(w) && FourBits(Half4(r)) == FourBits(Half4(w)) && r >> 8 == 0 && r <= 0xff
  {
    hide FourBits, Half4;
    LowByteSame(w);
    Half4Is(w);
    Half4Is(r);
    SameFour(w, r);
    SameFour(Half4(w), Half4(r));
  }

  lemma {:induction false} ByteIsNumber(r: bv32)
    requires r <= 0xff
    ensures (r as bv8) as int == Unsigned(r)
  {
  }

  lemma {:induction false} LowIsNumber(w: bv32, r: bv32)
    requires r == w & 0xff && r <= 0xff
    ensures Low(w) == Unsigned(r)
  {
    ByteIsNumber(r);
  }

  /** A register is its low byte and what is above. */
  lemma {:induction false} LowSplits(w: bv32)
    ensures Unsigned(w) == 256 * Unsigned(w >> 8) + Low(w)
  {
    hide Unsigned, Low, FourBits, Half4;
    var r := w & 0xff;
    SameEight(w, r);
    LowIsNumber(w, r);
    EightHalves(w);
    EightHalves(r);
    EightDown(w);
    EightDown(r);
    ZeroIsZero(r >> 8);
  }

  function Upper(w: bv32): bv32 {
    w >> 8
  }

  lemma {:induction false} UpperIs(w: bv32)
    ensures Upper(w) == w >> 8 && Upper(Upper(w)) == w >> 16 && Upper(Upper(Upper(w))) == w >> 24
  {
  }

  lemma {:induction false} UpperEnds(w: bv32)
    ensures Upper(Upper(Upper(Upper(w)))) == 0
  {
  }

  lemma {:induction false} UpperSplits(w: bv32)
    ensures Unsigned(w) == 256 * Unsigned(Upper(w)) + Low(w)
  {
    hide Unsigned, Low;
    LowSplits(w);
  }

  lemma {:induction false} ZeroIsZero(w: bv32)
    requires w == 0
    ensures Unsigned(w) == 0
  {
  }

  lemma {:induction false} UppersMake(w: bv32)
    ensures Unsigned(w) == Low(w) + 0x100 * (Low(Upper(w)) as int) + 0x1_0000 * (Low(Upper(Upper(w))) as int)
                         + 0x100_0000 * (Low(Upper(Upper(Upper(w)))) as int)
  {
    hide Unsigned, Low, Upper;
    UpperSplits(w);
    UpperSplits(Upper(w));
    UpperSplits(Upper(Upper(w)));
    UpperSplits(Upper(Upper(Upper(w))));
    UpperEnds(w);
    ZeroIsZero(Upper(Upper(Upper(Upper(w)))));
  }

  /** A register is its four bytes, the lowest counting ones. */
  lemma {:induction false} FourBytes(w: bv32, s: seq<byte>)
    requires s == [Low(w), Low(w >> 8), Low(w >> 16), Low(w >> 24)]
    ensures Unsigned(w) == FromLE(s)
  {
    hide Unsigned, Low, Upper;
    UpperIs(w);
    UppersMake(w);
    FromLEOfFour(s);
  }
}
