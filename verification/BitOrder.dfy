/** Which bits of which bytes a field is made of, in both bit orders. */
module BitOrder {
  import opened Bytes
  import opened PowersOfTwo
  import opened BitFields
  import opened OggPackMathB

  /** The bit of a byte that counts 1, 2, 4 and so on, up to 128. */
  function Bit(b: byte, i: nat): nat
    requires i < 8
  {
    match i
    case 0 => b % 2
    case 1 => b / 2 % 2
    case 2 => b / 4 % 2
    case 3 => b / 8 % 2
    case 4 => b / 16 % 2
    case 5 => b / 32 % 2
    case 6 => b / 64 % 2
    case _ => b / 128
  }

  /** Shifting down is dividing by a power of two, and a mask is the remainder. */
  lemma {:induction false} ShrDivides(w: nat, k: nat)
    ensures Shr(w, k) == w / Pow2(k) && Mask(w, k) == w % Pow2(k)
  {
    hide Shr, Mask, Pow2;
    Splits(w, k);
    ShlIsTimes(Shr(w, k), k);
    Quotient(w, Pow2(k), Shr(w, k), Mask(w, k));
    assert w == Pow2(k) * (w / Pow2(k)) + w % Pow2(k);
  }

  /** The bit of a number that counts the power i of two. */
  function BitAt(v: nat, i: nat): nat {
    v / Pow2(i) % 2
  }

  lemma {:induction false} BitShifted(v: nat, i: nat)
    ensures Mask(Shr(v, i), 1) == BitAt(v, i)
  {
    hide Shr, Mask, Pow2;
    ShrDivides(v, i);
    Shr1(Shr(v, i));
  }

  lemma {:induction false} BitOfByte(b: byte, i: nat)
    requires i < 8
    ensures Mask(Shr(b, i), 1) == Bit(b, i)
  {
    hide Shr, Mask;
    BitShifted(b, i);
    PowersBelow256(i);
  }

  lemma {:induction false} PowersBelow256(i: nat)
    requires i < 8
    ensures Pow2(i) == match i
      case 0 => 1
      case 1 => 2
      case 2 => 4
      case 3 => 8
      case 4 => 16
      case 5 => 32
      case 6 => 64
      case _ => 128
  {
    assert Pow2(0) == 1 && Pow2(1) == 2 && Pow2(2) == 4 && Pow2(3) == 8 && Pow2(4) == 16;
    assert Pow2(5) == 32 && Pow2(6) == 64 && Pow2(7) == 128;
  }

  /** A field of one bit. */
  lemma {:induction false} OneBit(data: seq<byte>, q: nat)
    requires q < 8 * |data|
    ensures Field(data, q, 1) == Bit(data[q / 8], q % 8)
    ensures FieldB(data, q, 1) == Bit(data[q / 8], 7 - q % 8)
  {
    hide Shr, Mask, Field, FieldB;
    var s, e := q / 8, q % 8;
    FieldWindow(data, s, 1, e, 1);
    FieldWindowB(data, s, 1, e, 1);
    assert data[s..s + 1] == [data[s]];
    FromLEOne(data[s]);
    FromBEOne(data[s]);
    BitOfByte(data[s], e);
    BitOfByte(data[s], 7 - e);
  }

  lemma {:induction false} FromBEOne(b: byte)
    ensures FromBE([b]) == b
  {
    assert [b][..0] == [];
  }

  /** Low bits first: bit j of a field from bit p on is bit p + j of the buffer, from the low end of each byte. */
  lemma {:induction false} FieldBits(data: seq<byte>, p: nat, n: nat, j: nat)
    requires j < n && p + n <= 8 * |data|
    ensures BitAt(Field(data, p, n), j) == Bit(data[(p + j) / 8], (p + j) % 8)
  {
    hide Field, Shr, Mask, Bit, BitAt;
    BitShifted(Field(data, p, n), j);
    TakeLow(data, p, j, n - j);
    TakeLow(data, p + j, 1, n - j - 1);
    OneBit(data, p + j);
  }

  /**
   High bits first: bit j of a field, counted from its high end, is bit p + j of the buffer, counted from the
   high end of each byte.
   */
  lemma {:induction false} FieldBBits(data: seq<byte>, p: nat, n: nat, j: nat)
    requires j < n && p + n <= 8 * |data|
    ensures BitAt(FieldB(data, p, n), n - 1 - j) == Bit(data[(p + j) / 8], 7 - (p + j) % 8)
  {
    hide Shr, Mask, Bit, BitAt, FromBE;
    var w, s, a := FromBE(data), 8 * |data| - p - n, n - 1 - j;
    BitShifted(FieldB(data, p, n), a);
    ShrOfMask(Shr(w, s), a, j + 1);
    ShrTwice(w, s, a);
    MaskTwice(Shr(w, s + a), 1, j + 1);
    OneBit(data, p + j);
  }

  /** A number of n bits is what its bits say. */
  lemma {:induction false} BitsDetermine(v: nat, w: nat, n: nat)
    requires v < Pow2(n) && w < Pow2(n) && forall j: nat :: j < n ==> BitAt(v, j) == BitAt(w, j)
    ensures v == w
    decreases n
  {
    if n > 0 {
      assert BitAt(v, 0) == v % 2 && BitAt(w, 0) == w % 2;
      forall j: nat | j < n - 1
        ensures BitAt(v / 2, j) == BitAt(w / 2, j)
      {
        BitAbove(v, j);
        BitAbove(w, j);
      }
      BitsDetermine(v / 2, w / 2, n - 1);
    }
  }

  lemma {:induction false} BitAbove(v: nat, j: nat)
    ensures BitAt(v, j + 1) == BitAt(v / 2, j)
  {
    BitShifted(v, j + 1);
    BitShifted(v / 2, j);
  }
}
