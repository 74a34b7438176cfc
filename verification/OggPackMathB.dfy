/** The arithmetic of packing words into bytes, high bits first. */
module OggPackMathB {
  import opened Bytes
  import opened PowersOfTwo
  import opened BitFields
  import opened OggPackMath

  /** n bits of a buffer, from bit p on, counted from the high end of each byte. */
  function FieldB(data: seq<byte>, p: nat, n: nat): (v: nat)
    requires p + n <= 8 * |data|
    ensures v < Pow2(n)
  {
    Mask(Shr(FromBE(data), 8 * |data| - p - n), n)
  }

  // ---------- writing ----------

  /**
   The byte that a write stores i bytes after the current one, whose e high bits are in p; u is the word
   with its bits moved to the top of 32.
   */
  function StoredByteB(p: byte, u: nat, e: nat, i: nat): byte
    requires e < 8
  {
    if i == 0 then Low8(Or(p, Shr(u, 24 + e)))
    else if i < 4 then Low8(Shr(u, 24 + e - 8 * i))
    else if e != 0 then Low8(Shl(u, 8 - e)) else 0
  }

  function StoredRunB(p: byte, u: nat, e: nat, k: nat): (run: seq<byte>)
    requires e < 8
    ensures |run| == k
  {
    seq(k, i requires 0 <= i < k => StoredByteB(p, u, e, i))
  }

  /** The number that the five bytes from the current one on make. */
  function Five(p: byte, u: nat, e: nat): nat
    requires e < 8
  {
    Shl(p, 32) + Shl(u, 8 - e)
  }

  lemma {:induction false} OrCommutes(a: nat, b: nat)
    ensures Or(a, b) == Or(b, a)
    decreases a + b
  {
    if a != 0 || b != 0 {
      OrCommutes(a / 2, b / 2);
    }
  }

  lemma {:induction false} OrBelow(high: nat, low: nat, s: nat)
    requires low < Pow2(s)
    ensures Or(Shl(high, s), low) == Shl(high, s) + low
  {
    OrAbove(low, high, s);
    OrCommutes(low, Shl(high, s));
  }

  lemma {:induction false} FirstStored(p: byte, u: nat, e: nat)
    requires e < 8 && u < Pow2(32) && Mask(p, 8 - e) == 0
    ensures Or(p, Shr(u, 24 + e)) == Shr(Five(p, u, e), 32)
  {
    hide *;
    ShrBelow(u, 24 + e, 8 - e);
    OrAtTop(p, Shr(u, 24 + e), 8 - e);
    TopFive(p, u, e);
  }

  lemma {:induction false} OrAtTop(p: nat, q: nat, s: nat)
    requires q < Pow2(s) && Mask(p, s) == 0
    ensures Or(p, q) == p + q
  {
    Splits(p, s);
    OrBelow(Shr(p, s), q, s);
  }

  lemma {:induction false} TopFive(p: byte, u: nat, e: nat)
    requires e < 8
    ensures Shr(Five(p, u, e), 32) == p + Shr(u, 24 + e)
  {
    ShrSum(Shl(u, 8 - e), p, 32, 0);
    DropLow(0, u, 8 - e, 24 + e);
  }

  lemma {:induction false} LaterStored(p: byte, u: nat, e: nat, i: nat)
    requires e < 8 && 1 <= i < 4
    ensures Low8(Shr(u, 24 + e - 8 * i)) == Low8(Shr(Five(p, u, e), 32 - 8 * i))
  {
    LaterFive(p, u, 8 - e, 24 + e - 8 * i, 8 * i - 8);
  }

  lemma {:induction false} LaterFive(p: byte, u: nat, a: nat, b: nat, c: nat)
    ensures Low8(Shr(u, b)) == Low8(Shr(Shl(p, (a + b) + (c + 8)) + Shl(u, a), a + b))
  {
    ShrSum(Shl(u, a), p, a + b, c + 8);
    DropLow(0, u, a, b);
    Shl8(p, c);
    Low8OfSum(Shr(u, b), Shl(p, c));
  }

  lemma {:induction false} Low8OfSum(x: nat, y: nat)
    ensures Low8(x + 256 * y) == Low8(x)
  {
  }

  lemma {:induction false} LastStored(p: byte, u: nat, e: nat)
    requires e < 8
    ensures (if e != 0 then Low8(Shl(u, 8 - e)) else 0) == Low8(Five(p, u, e))
  {
    hide Shl;
    Shl8(p, 24);
    if e == 0 {
      Shl8(u, 0);
    }
  }

  lemma {:induction false} StoredBytesB(p: byte, u: nat, e: nat, i: nat)
    requires e < 8 && u < Pow2(32) && Mask(p, 8 - e) == 0 && i <= 4
    ensures StoredByteB(p, u, e, i) == Low8(Shr(Five(p, u, e), 32 - 8 * i))
  {
    if i == 0 {
      FirstStored(p, u, e);
    } else if i < 4 {
      LaterStored(p, u, e, i);
    } else {
      LastStored(p, u, e);
    }
  }

  /** The bytes of x, a number of five bytes, from the top. */
  predicate TopBytes(run: seq<byte>, x: nat) {
    |run| <= 5 && forall i :: 0 <= i < |run| ==> run[i] == Low8(Shr(x, 32 - 8 * i))
  }

  lemma {:induction false} TopBytesNumber(run: seq<byte>, x: nat)
    requires TopBytes(run, x) && Shr(x, 40) == 0
    ensures FromBE(run) == Shr(x, 40 - 8 * |run|)
    decreases |run|
  {
    if run != [] {
      TopBytesNumber(run[..|run| - 1], x);
      ByteBelow(x, 40 - 8 * |run|);
    }
  }

  lemma {:induction false} ByteBelow(x: nat, s: nat)
    ensures Shr(x, s) == 256 * Shr(x, s + 8) + Low8(Shr(x, s))
  {
    ShrTwice(x, s, 8);
    Shr8(Shr(x, s));
  }

  /** The bits of the current byte and of the word, as one number. */
  function Joined(p: byte, v: nat, e: nat, n: nat): nat
    requires e < 8
  {
    Shl(Shr(p, 8 - e), n) + v
  }

  lemma {:induction false} FiveIsJoined(p: byte, v: nat, e: nat, n: nat)
    requires e < 8 && n <= 32 && Mask(p, 8 - e) == 0
    ensures Five(p, Shl(v, 32 - n), e) == Shl(Joined(p, v, e, n), 40 - e - n)
  {
    var h := Shr(p, 8 - e);
    Splits(p, 8 - e);
    ShlTwice(h, 8 - e, 32);
    ShlTwice(h, n, 40 - e - n);
    ShlTwice(v, 32 - n, 8 - e);
    ShlSum(Shl(h, n), v, 40 - e - n);
  }

  lemma {:induction false} JoinedFits(p: byte, v: nat, e: nat, n: nat)
    requires e < 8 && n <= 32 && v < Pow2(n)
    ensures Joined(p, v, e, n) < Pow2(e + n)
  {
    TopBitsFit(p, e);
    SumBelow(v, Shr(p, 8 - e), n, e);
  }

  lemma {:induction false} ShlBelow(w: nat, t: nat, s: nat)
    requires w < Pow2(t)
    ensures Shl(w, s) < Pow2(s + t)
  {
    SumBelow(0, w, s, t);
  }

  /** The top of five bytes that hold t bits: the whole bytes, and the rest at the high end of the next. */
  lemma {:induction false} TopOfFive(run: seq<byte>, x: nat, w: nat, t: nat)
    requires t < 40 && x == Shl(w, 40 - t) && w < Pow2(t) && |run| == t / 8 + 1 && TopBytes(run, x)
    ensures Shr(FromBE(run), 8 - t % 8) == w
    ensures Mask(run[t / 8], 8 - t % 8) == 0
  {
    var s, r := 32 - 8 * (t / 8), 8 - t % 8;
    assert s + r == 40 - t && s == 40 - 8 * |run|;
    ShrTop(w, t, s, r);
    TopBytesNumber(run, x);
    LowEmpty(w, r);
  }

  lemma {:induction false} ShrTop(w: nat, t: nat, s: nat, r: nat)
    requires w < Pow2(t) && s + r + t == 40
    ensures Shr(Shl(w, s + r), 40) == 0
    ensures Shr(Shl(w, s + r), s) == Shl(w, r) && Shr(Shl(w, r), r) == w
  {
    DropLow(0, w, s + r, t);
    ShrSmall(w, t);
    ShlTwice(w, r, s);
    DropLow(0, Shl(w, r), s, 0);
    DropLow(0, w, r, 0);
  }

  lemma {:induction false} LowEmpty(w: nat, r: nat)
    requires r <= 8
    ensures Mask(Low8(Shl(w, r)), r) == 0
  {
    Shr8(Shl(w, r));
    MaskTwice(Shl(w, r), r, 8);
    MaskSum(0, w, r, 0);
    MaskZero(r);
  }

  lemma {:induction false} MaskZero(r: nat)
    ensures Mask(0, r) == 0
  {
  }

  /** The number that some whole bytes and the e high bits of one more make. */
  function NumberOf(low: seq<byte>, p: byte, e: nat): nat
    requires e < 8
  {
    Shl(FromBE(low), e) + Shr(p, 8 - e)
  }

  /** The bytes of an appended word. */
  lemma {:induction false} AppendedWordB(low: seq<byte>, p: byte, v: nat, e: nat, n: nat, run: seq<byte>)
    requires e < 8 && n <= 32 && v < Pow2(n) && Mask(p, 8 - e) == 0
    requires run == StoredRunB(p, Shl(v, 32 - n), e, (e + n) / 8 + 1)
    ensures var k, r := (e + n) / 8, (e + n) % 8;
      && NumberOf(low + run[..k], run[k], r) == Shl(NumberOf(low, p, e), n) + v
      && Mask(run[k], 8 - r) == 0
  {
    hide Pow2, Pow256, Shl, Shr, StoredRunB;
    var k, r := (e + n) / 8, (e + n) % 8;
    StoredRunHolds(p, v, e, n, run);
    RunNumber(low, run, r);
    assert 8 * k + r == e + n;
    AppendedSum(FromBE(low), Shr(p, 8 - e), v, e, n);
  }

  /** The stored run holds exactly the bits of the current byte and of the word, at its top. */
  lemma {:induction false} StoredRunHolds(p: byte, v: nat, e: nat, n: nat, run: seq<byte>)
    requires e < 8 && n <= 32 && v < Pow2(n) && Mask(p, 8 - e) == 0
    requires run == StoredRunB(p, Shl(v, 32 - n), e, (e + n) / 8 + 1)
    ensures Shr(FromBE(run), 8 - (e + n) % 8) == Joined(p, v, e, n)
    ensures Mask(run[(e + n) / 8], 8 - (e + n) % 8) == 0
  {
    hide *;
    var u := Shl(v, 32 - n);
    ShlBelow(v, n, 32 - n);
    FiveIsJoined(p, v, e, n);
    JoinedFits(p, v, e, n);
    StoredRunTop(p, u, e, (e + n) / 8 + 1);
    TopOfFive(run, Five(p, u, e), Joined(p, v, e, n), e + n);
  }

  lemma {:induction false} StoredRunTop(p: byte, u: nat, e: nat, k: nat)
    requires e < 8 && u < Pow2(32) && Mask(p, 8 - e) == 0 && k <= 5
    ensures TopBytes(StoredRunB(p, u, e, k), Five(p, u, e))
  {
    forall i | 0 <= i < k
      ensures StoredRunB(p, u, e, k)[i] == Low8(Shr(Five(p, u, e), 32 - 8 * i))
    {
      StoredBytesB(p, u, e, i);
    }
  }

  lemma {:induction false} AppendedSum(f: nat, h: nat, v: nat, e: nat, n: nat)
    ensures Shl(Shl(f, e) + h, n) + v == Shl(f, e + n) + (Shl(h, n) + v)
  {
    ShlSum(Shl(f, e), h, n);
    ShlTwice(f, e, n);
  }

  /** Some bytes after others, the last of them to its r high bits. */
  lemma {:induction false} RunNumber(low: seq<byte>, run: seq<byte>, r: nat)
    requires run != [] && r < 8
    ensures var k := |run| - 1;
      NumberOf(low + run[..k], run[k], r) == Shl(FromBE(low), 8 * k + r) + Shr(FromBE(run), 8 - r)
  {
    var k := |run| - 1;
    FromBEConcat(low, run[..k]);
    ShlSum(Shl(FromBE(low), 8 * k), FromBE(run[..k]), r);
    ShlTwice(FromBE(low), 8 * k, r);
    ShrPush(FromBE(run[..k]), run[k], r);
  }

  // ---------- reading ----------

  lemma {:induction false} FieldWindowB(data: seq<byte>, start: nat, k: nat, e: nat, n: nat)
    requires start + k <= |data| && e + n <= 8 * k
    ensures FieldB(data, 8 * start + e, n) == Mask(Shr(FromBE(data[start..start + k]), 8 * k - e - n), n)
  {
    hide FromBE, Mask, Shr;
    var low, window, high := data[..start], data[start..start + k], data[start + k..];
    assert data == (low + window) + high;
    FromBEConcat(low + window, high);
    FromBEConcat(low, window);
    FromBEBelow(high);
    DropLow(FromBE(high), FromBE(low + window), 8 * |high|, 8 * k - e - n);
    DropHigh(FromBE(window), FromBE(low), 8 * k - e - n, n, e);
  }

  lemma {:induction false} FromBEBelow(s: seq<byte>)
    ensures FromBE(s) < Pow2(8 * |s|)
  {
    Pow256IsPow2(|s|);
  }

  /** A register of 32 bits filled from the top with k bytes of a buffer, less the first e bits. */
  function WindowB(data: seq<byte>, at: nat, k: nat, e: nat): nat
    requires at + k <= |data| && e < 8 && k <= 5
  {
    var w := FromBE(data[at..at + k]);
    Mask(if k <= 4 then Shl(w, 32 + e - 8 * k) else Shr(w, 8 - e), 32)
  }

  lemma {:induction false} OrMasked(f: nat, low: nat, s: nat)
    requires low < Pow2(s) && s <= 32
    ensures Or(Mask(Shl(f, s), 32), low) == Mask(Shl(f, s) + low, 32)
  {
    hide *;
    MaskAbove(0, f, s, 32 - s);
    MaskAbove(low, f, s, 32 - s);
    OrBelow(Mask(f, 32 - s), low, s);
  }

  lemma {:induction false} FirstByteB(data: seq<byte>, at: nat, e: nat)
    requires at < |data| && e < 8
    ensures WindowB(data, at, 1, e) == ShiftUp(data[at], 24 + e)
  {
    assert data[at..at + 1][..0] == [];
    assert FromBE(data[at..at + 1]) == 256 * FromBE(data[at..at + 1][..0]) + data[at];
  }

  lemma {:induction false} ShiftedByteFits(b: byte, m: nat)
    requires m <= 24
    ensures Shl(b, m) < Pow2(m + 8) && ShiftUp(b, m) == Shl(b, m)
  {
    assert Pow2(8) == 256 by {
      Pow2Plus8(0);
    }
    ShlBelow(b, 8, m);
    Pow2Monotone(m + 8, 32);
    ShrSmall(Shl(b, m), 32);
  }

  lemma {:induction false} WindowGrows(data: seq<byte>, at: nat, j: nat)
    requires at + j < |data|
    ensures FromBE(data[at..at + j + 1]) == 256 * FromBE(data[at..at + j]) + data[at + j]
  {
    assert data[at..at + j + 1][..j] == data[at..at + j];
  }

  lemma {:induction false} NextByteB(data: seq<byte>, at: nat, j: nat, e: nat)
    requires at + j < |data| && e < 8 && 1 <= j < 4
    ensures Or(WindowB(data, at, j, e), ShiftUp(data[at + j], 24 + e - 8 * j)) == WindowB(data, at, j + 1, e)
  {
    hide Pow2, Pow256, ShiftUp;
    WindowGrows(data, at, j);
    OrNextB(FromBE(data[at..at + j]), data[at + j], 24 + e - 8 * j);
  }

  lemma {:induction false} OrNextB(f: nat, b: byte, m: nat)
    requires m <= 24
    ensures Or(Mask(Shl(f, m + 8), 32), ShiftUp(b, m)) == Mask(Shl(256 * f + b, m), 32)
  {
    hide *;
    ShiftedByteFits(b, m);
    OrMasked(f, Shl(b, m), m + 8);
    PushByte(f, b, m);
  }

  lemma {:induction false} PushByte(f: nat, b: byte, m: nat)
    ensures Shl(256 * f + b, m) == Shl(f, m + 8) + Shl(b, m)
  {
    ShlSum(256 * f, b, m);
    Shl8(f, 0);
    ShlTwice(f, 8, m);
  }

  lemma {:induction false} LastByteB(data: seq<byte>, at: nat, e: nat)
    requires at + 4 < |data| && e < 8
    ensures Or(WindowB(data, at, 4, e), Shr(data[at + 4], 8 - e)) == WindowB(data, at, 5, e)
  {
    hide Pow256, Shl, Shr;
    WindowGrows(data, at, 4);
    OrLastB(FromBE(data[at..at + 4]), data[at + 4], e);
  }

  lemma {:induction false} OrLastB(f: nat, b: byte, e: nat)
    requires e < 8
    ensures Or(Mask(Shl(f, e), 32), Shr(b, 8 - e)) == Mask(Shr(256 * f + b, 8 - e), 32)
  {
    hide *;
    TopBitsFit(b, e);
    OrMasked(f, Shr(b, 8 - e), e);
    ShrPush(f, b, e);
  }

  /** The e high bits of a byte. */
  lemma {:induction false} TopBitsFit(b: byte, e: nat)
    requires e <= 8
    ensures Shr(b, 8 - e) < Pow2(e)
  {
    assert Pow2(8) == 256 by {
      Pow2Plus8(0);
    }
    ShrBelow(b, 8 - e, e);
  }

  lemma {:induction false} ShrPush(f: nat, b: byte, e: nat)
    requires e <= 8
    ensures Shr(256 * f + b, 8 - e) == Shl(f, e) + Shr(b, 8 - e)
  {
    ShrSum(b, f, 8 - e, e);
    Shl8(f, 0);
  }

  /** Shifting the register down gives the field. */
  lemma {:induction false} WindowFieldB(data: seq<byte>, at: nat, k: nat, e: nat, n: nat)
    requires at + k <= |data| && e < 8 && 1 <= k <= 5 && e + n <= 8 * k && n <= 32
    ensures Shr(WindowB(data, at, k, e), 32 - n) == FieldB(data, 8 * at + e, n)
  {
    hide Mask, Pow2, Shr;
    var f := FromBE(data[at..at + k]);
    FieldWindowB(data, at, k, e, n);
    if k <= 4 {
      RegisterShl(f, 32 + e - 8 * k, 8 * k - e - n, n);
    } else {
      RegisterShr(f, 8 - e, 32 - n, n);
    }
  }

  lemma {:induction false} RegisterShl(f: nat, s: nat, r: nat, n: nat)
    requires s + r + n == 32
    ensures Shr(Mask(Shl(f, s), 32), s + r) == Mask(Shr(f, r), n)
  {
    ShrOfMask(Shl(f, s), s + r, n);
    DropLow(0, f, s, r);
  }

  lemma {:induction false} RegisterShr(f: nat, s: nat, r: nat, n: nat)
    requires r + n == 32
    ensures Shr(Mask(Shr(f, s), 32), r) == Mask(Shr(f, s + r), n)
  {
    ShrOfMask(Shr(f, s), r, n);
    ShrTwice(f, s, r);
  }
}
