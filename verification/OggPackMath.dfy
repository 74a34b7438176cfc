/** The arithmetic of packing words into bytes, low bits first: section 2 of the Vorbis I specification. */
module OggPackMath {
  import opened Bytes
  import opened PowersOfTwo
  import opened BitFields

  // ---------- writing ----------

  /** The byte that a write stores i bytes after the current one, which held p below bit e. */
  function StoredByte(p: byte, v: nat, e: nat, i: nat): byte
    requires e < 8
  {
    if i == 0 then Low8(Or(p, Shl(v, e)))
    else if i == 4 && e == 0 then 0
    else Low8(Shr(v, 8 * i - e))
  }

  lemma {:induction false} FirstStoredByte(p: byte, v: nat, e: nat, k: nat)
    requires p < Pow2(e) && e < 8 && k > 0
    ensures StoredByte(p, v, e, 0) == ToLE(p + Shl(v, e), k)[0]
  {
    hide Or, Pow2, Shr;
    ToLEAt(p + Shl(v, e), k, 0);
    OrAbove(p, v, e);
  }

  lemma {:induction false} LaterStoredByte(p: byte, v: nat, e: nat, k: nat, i: nat)
    requires p < Pow2(e) && e < 8 && 0 < i < k && v < Pow2(32)
    ensures StoredByte(p, v, e, i) == ToLE(p + Shl(v, e), k)[i]
  {
    hide Or, Pow2, Shr, Shl, ToLE;
    ToLEAt(p + Shl(v, e), k, i);
    DropLow(p, v, e, 8 * i - e);
    if i == 4 && e == 0 {
      ShrSmall(v, 32);
    }
  }

  /** The bytes that a write stores are those of the number that the bits make. */
  lemma {:induction false} StoredBytes(p: byte, v: nat, e: nat, k: nat, i: nat)
    requires p < Pow2(e) && e < 8 && i < k && v < Pow2(32)
    ensures StoredByte(p, v, e, i) == ToLE(p + Shl(v, e), k)[i]
  {
    hide *;
    if i == 0 {
      FirstStoredByte(p, v, e, k);
    } else {
      LaterStoredByte(p, v, e, k, i);
    }
  }

  /** What a write leaves in k bytes from the current one on. */
  function StoredRun(p: byte, v: nat, e: nat, k: nat): (run: seq<byte>)
    requires e < 8
    ensures |run| == k
  {
    seq(k, i requires 0 <= i < k => StoredByte(p, v, e, i))
  }

  lemma {:induction false} StoredRunIs(p: byte, v: nat, e: nat, k: nat)
    requires p < Pow2(e) && e < 8 && v < Pow2(32)
    ensures StoredRun(p, v, e, k) == ToLE(p + Shl(v, e), k)
  {
    hide Pow2, StoredByte, ToLE;
    forall i | 0 <= i < k
      ensures StoredRun(p, v, e, k)[i] == ToLE(p + Shl(v, e), k)[i]
    {
      StoredBytes(p, v, e, k, i);
    }
  }

  /** Appending the bits of v above the bits in low and p adds v at their place. */
  lemma {:induction false} AppendedNumber(low: seq<byte>, p: byte, v: nat, e: nat, k: nat)
    requires p + Shl(v, e) < Pow256(k)
    ensures FromLE(low + ToLE(p + Shl(v, e), k)) == FromLE(low + [p]) + Shl(v, 8 * |low| + e)
  {
    hide *;
    var w := p + Shl(v, e);
    FromLEConcat(low, ToLE(w, k));
    FromLEConcat(low, [p]);
    LERoundTrip(w, k);
    FromLEOne(p);
    ShlSum(p, Shl(v, e), 8 * |low|);
    ShlTwice(v, e, 8 * |low|);
  }

  /** The bytes of an appended word: their number, and what is in the last of them. */
  lemma {:induction false} AppendedWord(low: seq<byte>, p: byte, v: nat, e: nat, bits: nat, bytes: seq<byte>)
    requires p < Pow2(e) && v < Pow2(bits) && bytes == low + ToLE(p + Shl(v, e), (bits + e) / 8 + 1)
    ensures FromLE(bytes) == FromLE(low + [p]) + Shl(v, 8 * |low| + e)
    ensures bytes[|bytes| - 1] < Pow2((bits + e) % 8)
  {
    hide *;
    var w, t := p + Shl(v, e), bits + e;
    SumBelow(p, v, e, bits);
    Pow256IsPow2(t / 8 + 1);
    Pow2Monotone(t, 8 * (t / 8 + 1));
    AppendedNumber(low, p, v, e, t / 8 + 1);
    TopByte(w, t);
  }

  lemma {:induction false} TopByte(w: nat, t: nat)
    requires w < Pow2(t)
    ensures ToLE(w, t / 8 + 1)[t / 8] < Pow2(t % 8)
  {
    ToLEAt(w, t / 8 + 1, t / 8);
    ShrBelow(w, 8 * (t / 8), t % 8);
  }

  /** Cutting a buffer off in the middle of a byte keeps the low bits of its number. */
  lemma {:induction false} TruncatedNumber(low: seq<byte>, b: byte, e: nat, high: seq<byte>)
    requires e < 8
    ensures FromLE(low + [Mask(b, e)]) == Mask(FromLE(low + ([b] + high)), 8 * |low| + e)
  {
    hide *;
    FromLEConcat(low, [b] + high);
    FromLEConcat(low, [Mask(b, e)]);
    FromLEOne(Mask(b, e));
    FromLEBelow(low);
    MaskAbove(FromLE(low), FromLE([b] + high), 8 * |low|, e);
    FromLEConcat([b], high);
    FromLEOne(b);
    MaskSum(b, FromLE(high), e, 8 - e);
  }

  /** The buffer cut off after some bits, and what is then left of its first n bytes. */
  function CutOff(buffer: seq<byte>, bits: nat): (cut: seq<byte>)
    requires bits / 8 < |buffer|
    ensures |cut| == bits / 8 + 1
  {
    buffer[..bits / 8] + [Mask(buffer[bits / 8], bits % 8)]
  }

  lemma {:induction false} CutOffNumber(buffer: seq<byte>, bits: nat, n: nat)
    requires bits / 8 < n <= |buffer|
    ensures FromLE(CutOff(buffer, bits)) == Mask(FromLE(buffer[..n]), bits)
  {
    var k := bits / 8;
    var low, high := buffer[..k], buffer[k + 1..n];
    assert buffer[..n] == low + ([buffer[k]] + high);
    TruncatedNumber(low, buffer[k], bits % 8, high);
  }

  // ---------- reading ----------

  /** How many bytes a read takes that ends t bits after the start of the current byte. */
  function Taken(t: nat): (k: nat)
    requires t < 40
    ensures 1 <= k && t <= 8 * k && (t > 0 ==> 8 * k < t + 8)
  {
    if t <= 8 then 1 else if t <= 16 then 2 else if t <= 24 then 3 else if t <= 32 then 4 else 5
  }

  /** A byte shifted up in a register of 32 bits. */
  function ShiftUp(b: byte, k: nat): nat {
    Mask(Shl(b, k), 32)
  }

  /** A register of 32 bits filled from k bytes of a buffer, less the first e bits. */
  function Window(data: seq<byte>, at: nat, k: nat, e: nat): nat
    requires at + k <= |data|
  {
    Mask(Shr(FromLE(data[at..at + k]), e), 32)
  }

  lemma {:induction false} FirstByte(data: seq<byte>, at: nat, e: nat)
    requires at < |data|
    ensures Window(data, at, 1, e) == Shr(data[at], e)
  {
    assert data[at..at + 1] == [data[at]];
    FromLEOne(data[at]);
    Pow2Monotone(8, 32);
    assert Pow2(8) == 256 by {
      Pow2Plus8(0);
    }
    ShrSmall(Shr(data[at], e), 32);
  }

  /** What has been gathered from i bytes, and the next byte. */
  lemma {:induction false} NextByte(data: seq<byte>, at: nat, i: nat, e: nat)
    requires at + i < |data| && e < 8 && 1 <= i && 8 * i - e <= 32
    ensures Or(Window(data, at, i, e), ShiftUp(data[at + i], 8 * i - e)) == Window(data, at, i + 1, e)
  {
    hide Or, Pow2, ShiftUp, Shl, Shr;
    var b, k, w := data[at + i], 8 * i - e, FromLE(data[at..at + i]);
    assert data[at..at + i + 1] == data[at..at + i] + [b];
    FromLEConcat(data[at..at + i], [b]);
    FromLEOne(b);
    FromLEBelow(data[at..at + i]);
    OrNext(w, e, k, b);
  }

  lemma {:induction false} OrNext(w: nat, e: nat, k: nat, b: byte)
    requires k <= 32 && w < Pow2(e + k)
    ensures Or(Mask(Shr(w, e), 32), ShiftUp(b, k)) == Mask(Shr(w + Shl(b, e + k), e), 32)
  {
    hide *;
    ShrSum(w, b, e, k);
    ShrBelow(w, e, k);
    OrShifted(Shr(w, e), k, b);
  }

  lemma {:induction false} OrShifted(g: nat, k: nat, b: byte)
    requires k <= 32 && g < Pow2(k)
    ensures Or(Mask(g, 32), ShiftUp(b, k)) == Mask(g + Shl(b, k), 32)
  {
    hide Pow2, Shl, Shr;
    Pow2Monotone(k, 32);
    ShrSmall(g, 32);
    MaskAbove(g, b, k, 32 - k);
    MaskAbove(0, b, k, 32 - k);
    OrAbove(g, Mask(b, 32 - k), k);
  }

  /** Masking the register gives the field. */
  lemma {:induction false} WindowField(data: seq<byte>, at: nat, k: nat, e: nat, n: nat)
    requires at + k <= |data| && e + n <= 8 * k && n <= 32
    ensures Mask(Window(data, at, k, e), n) == Field(data, 8 * at + e, n)
  {
    FieldWindow(data, at, k, e, n);
    MaskTwice(Shr(FromLE(data[at..at + k]), e), n, 32);
  }
}
