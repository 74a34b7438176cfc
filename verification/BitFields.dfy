/** Fields of a little-endian bit stream, and the shift registers that readers keep of one. */
module BitFields {
  import opened Bytes
  import opened PowersOfTwo

  /** n bits of a buffer, from bit p on. */
  function Field(data: seq<byte>, p: nat, n: nat): (v: nat)
    ensures v < Pow2(n)
  {
    Mask(Shr(FromLE(data), p), n)
  }

  /** A field that lies within some bytes can be taken from those bytes. */
  lemma {:induction false} FieldWindow(data: seq<byte>, start: nat, k: nat, e: nat, n: nat)
    requires start + k <= |data| && e + n <= 8 * k
    ensures Field(data, 8 * start + e, n) == Mask(Shr(FromLE(data[start..start + k]), e), n)
  {
    hide FromLE, Mask, Shr;
    var low, window, high := data[..start], data[start..start + k], data[start + k..];
    assert data == low + (window + high);
    FromLEConcat(low, window + high);
    FromLEBelow(low);
    DropLow(FromLE(low), FromLE(window + high), 8 * start, e);
    FromLEConcat(window, high);
    DropHigh(FromLE(window), FromLE(high), e, n, 8 * k - e - n);
  }

  lemma {:induction false} ShrOfMask(w: nat, a: nat, b: nat)
    ensures Shr(Mask(w, a + b), a) == Mask(Shr(w, a), b)
    decreases a
  {
    if a > 0 {
      ShrOfMask(w / 2, a - 1, b);
    }
  }

  /** Two fields side by side. */
  lemma {:induction false} FieldSplit(data: seq<byte>, p: nat, a: nat, b: nat)
    ensures Field(data, p, a + b) == Field(data, p, a) + Shl(Field(data, p + a, b), a)
  {
    MaskSplit(Shr(FromLE(data), p), a, b);
    ShrTwice(FromLE(data), p, a);
  }

  /** A register of a bits is filled up with the next b. */
  lemma {:induction false} Refill(data: seq<byte>, p: nat, a: nat, b: nat)
    ensures Or(Field(data, p, a), Shl(Field(data, p + a, b), a)) == Field(data, p, a + b)
  {
    FieldSplit(data, p, a, b);
    OrAbove(Field(data, p, a), Field(data, p + a, b), a);
  }

  /** The low a bits of a register are taken off. */
  lemma {:induction false} TakeLow(data: seq<byte>, p: nat, a: nat, b: nat)
    ensures Mask(Field(data, p, a + b), a) == Field(data, p, a)
    ensures Shr(Field(data, p, a + b), a) == Field(data, p + a, b)
  {
    MaskTwice(Shr(FromLE(data), p), a, a + b);
    ShrOfMask(Shr(FromLE(data), p), a, b);
    ShrTwice(FromLE(data), p, a);
  }

  /** Whole bytes as a field. */
  lemma {:induction false} WholeBytes(data: seq<byte>, pos: nat, k: nat)
    requires pos + k <= |data|
    ensures FromLE(data[pos..pos + k]) == Field(data, 8 * pos, 8 * k)
  {
    FieldWindow(data, pos, k, 0, 8 * k);
    FromLEBelow(data[pos..pos + k]);
    ShrSmall(FromLE(data[pos..pos + k]), 8 * k);
  }
}
