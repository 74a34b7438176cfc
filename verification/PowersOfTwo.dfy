/** Powers of two, and the shifts and bitwise operations of C on natural numbers, bit by bit. */
module PowersOfTwo {
  import opened Bytes

  function Pow2(k: nat): (p: nat)
    ensures p >= 1
  {
    if k == 0 then 1 else 2 * Pow2(k - 1)
  }

  /** v << k. */
  function Shl(v: nat, k: nat): nat
    decreases k, v
  {
    if k == 0 then v else 2 * Shl(v, k - 1)
  }

  /** w >> k. */
  function Shr(w: nat, k: nat): (r: nat)
    ensures r <= w
    decreases k, w
  {
    if k == 0 then w else Shr(w / 2, k - 1)
  }

  /** w and'ed with a mask of k ones. */
  function Mask(w: nat, k: nat): (r: nat)
    ensures r <= w && r < Pow2(k)
    decreases k, w
  {
    if k == 0 then 0 else w % 2 + 2 * Mask(w / 2, k - 1)
  }

  /** Bitwise or. */
  function Or(a: nat, b: nat): nat
    decreases a + b
  {
    if a == 0 && b == 0 then 0
    else (if a % 2 == 1 || b % 2 == 1 then 1 else 0) + 2 * Or(a / 2, b / 2)
  }

  /** A number as an unsigned char. */
  function Low8(w: nat): byte {
    w % 256
  }

  // ---------- shifts and masks are what they are called ----------

  lemma {:induction false} ShlIsTimes(v: nat, k: nat)
    ensures Shl(v, k) == v * Pow2(k)
  {
    if k > 0 {
      ShlIsTimes(v, k - 1);
      assert v * (2 * Pow2(k - 1)) == 2 * (v * Pow2(k - 1));
    }
  }

  /** A number is its low k bits and what is above them. */
  lemma {:induction false} Splits(w: nat, k: nat)
    ensures w == Mask(w, k) + Shl(Shr(w, k), k)
    decreases k
  {
    if k > 0 {
      Splits(w / 2, k - 1);
    }
  }

  // ---------- powers ----------

  lemma {:induction false} Pow2Monotone(a: nat, b: nat)
    requires a <= b
    ensures Pow2(a) <= Pow2(b)
    decreases b - a
  {
    if a < b {
      Pow2Monotone(a, b - 1);
    }
  }

  lemma {:induction false} Pow2Plus8(k: nat)
    ensures Pow2(k + 8) == 256 * Pow2(k)
  {
    assert Pow2(k + 4) == 16 * Pow2(k) by {
      assert Pow2(k + 2) == 4 * Pow2(k);
    }
    assert Pow2(k + 6) == 4 * Pow2(k + 4);
  }

  lemma {:induction false} Pow256IsPow2(k: nat)
    ensures Pow256(k) == Pow2(8 * k)
  {
    if k > 0 {
      Pow256IsPow2(k - 1);
      Pow2Plus8(8 * (k - 1));
    }
  }

  // ---------- shifting ----------

  lemma {:induction false} ShlTwice(v: nat, a: nat, b: nat)
    ensures Shl(v, a + b) == Shl(Shl(v, a), b)
  {
    if b > 0 {
      ShlTwice(v, a, b - 1);
    }
  }

  lemma {:induction false} ShlSum(x: nat, y: nat, k: nat)
    ensures Shl(x + y, k) == Shl(x, k) + Shl(y, k)
  {
    if k > 0 {
      ShlSum(x, y, k - 1);
    }
  }

  lemma {:induction false} ShlZero(k: nat)
    ensures Shl(0, k) == 0
  {
    if k > 0 {
      ShlZero(k - 1);
    }
  }

  lemma {:induction false} ShrOfZero(k: nat)
    ensures Shr(0, k) == 0
  {
  }

  lemma {:induction false} Shl8(v: nat, k: nat)
    ensures Shl(v, k + 8) == 256 * Shl(v, k)
  {
    assert Shl(v, k + 4) == 16 * Shl(v, k) by {
      assert Shl(v, k + 2) == 4 * Shl(v, k);
    }
    assert Shl(v, k + 6) == 4 * Shl(v, k + 4);
  }

  lemma {:induction false} ShrTwice(w: nat, a: nat, b: nat)
    ensures Shr(w, a + b) == Shr(Shr(w, a), b)
    decreases a
  {
    if a > 0 {
      ShrTwice(w / 2, a - 1, b);
    }
  }

  lemma {:induction false} Shr2(w: nat)
    ensures Shr(w, 2) == w / 4 && Mask(w, 2) == w % 4
  {
    Shr1(w / 2);
    assert Shr(w, 2) == Shr(w / 2, 1) && Mask(w, 2) == w % 2 + 2 * Mask(w / 2, 1);
  }

  lemma {:induction false} Shr1(w: nat)
    ensures Shr(w, 1) == w / 2 && Mask(w, 1) == w % 2
  {
    assert Shr(w / 2, 0) == w / 2 && Mask(w / 2, 0) == 0;
  }

  lemma {:induction false} Shr4(w: nat)
    ensures Shr(w, 4) == w / 16 && Mask(w, 4) == w % 16
  {
    Shr2(w);
    Shr2(w / 4);
    ShrTwice(w, 2, 2);
    MaskSplit(w, 2, 2);
  }

  lemma {:induction false} Shr8(w: nat)
    ensures Shr(w, 8) == w / 256 && Mask(w, 8) == w % 256
  {
    var high := w / 16;
    Shr4(w);
    Shr4(high);
    ShrTwice(w, 4, 4);
    MaskSplit(w, 4, 4);
    ShlIs16(high % 16);
  }

  lemma {:induction false} ShlIs16(v: nat)
    ensures Shl(v, 4) == 16 * v
  {
    assert Shl(v, 1) == 2 * v;
    assert Shl(v, 2) == 2 * Shl(v, 1);
    assert Shl(v, 3) == 2 * Shl(v, 2);
  }

  /** The low bits of a number, in two parts. */
  lemma {:induction false} MaskSplit(w: nat, a: nat, b: nat)
    ensures Mask(w, a + b) == Mask(w, a) + Shl(Mask(Shr(w, a), b), a)
    decreases a
  {
    if a > 0 {
      MaskSplit(w / 2, a - 1, b);
    }
  }

  /** v shifted above e bits: the bits from e on are those of v. */
  lemma {:induction false} ShrSum(p: nat, v: nat, e: nat, k: nat)
    ensures Shr(p + Shl(v, e + k), e) == Shr(p, e) + Shl(v, k)
    decreases e
  {
    if e > 0 {
      ShrSum(p / 2, v, e - 1, k);
    }
  }

  lemma {:induction false} MaskSum(p: nat, v: nat, n: nat, k: nat)
    ensures Mask(p + Shl(v, n + k), n) == Mask(p, n)
    decreases n
  {
    hide Pow2;
    if n > 0 {
      var s := Shl(v, n - 1 + k);
      MaskSum(p / 2, v, n - 1, k);
      assert Shl(v, n + k) == 2 * s;
      assert (p + 2 * s) / 2 == p / 2 + s && (p + 2 * s) % 2 == p % 2;
    }
  }

  /** Bits of a number from above its low part. */
  lemma {:induction false} DropLow(p: nat, v: nat, k: nat, e: nat)
    requires p < Pow2(k)
    ensures Shr(p + Shl(v, k), k + e) == Shr(v, e)
  {
    ShrTwice(p + Shl(v, k), k, e);
    ShrSum(p, v, k, 0);
    ShrSmall(p, k);
  }

  /** Bits of a number from below its high part. */
  lemma {:induction false} DropHigh(p: nat, v: nat, e: nat, n: nat, above: nat)
    ensures Mask(Shr(p + Shl(v, e + (n + above)), e), n) == Mask(Shr(p, e), n)
  {
    ShrSum(p, v, e, n + above);
    MaskSum(Shr(p, e), v, n, above);
  }

  lemma {:induction false} ShrSmall(w: nat, k: nat)
    requires w < Pow2(k)
    ensures Shr(w, k) == 0 && Mask(w, k) == w
    decreases k
  {
    if k > 0 {
      ShrSmall(w / 2, k - 1);
    }
  }

  lemma {:induction false} ShrBelow(w: nat, a: nat, b: nat)
    requires w < Pow2(a + b)
    ensures Shr(w, a) < Pow2(b)
    decreases a
  {
    if a > 0 {
      ShrBelow(w / 2, a - 1, b);
    }
  }

  lemma {:induction false} SumBelow(p: nat, v: nat, e: nat, n: nat)
    requires p < Pow2(e) && v < Pow2(n)
    ensures p + Shl(v, e) < Pow2(e + n)
    decreases e
  {
    if e > 0 {
      SumBelow(p / 2, v, e - 1, n);
    }
  }

  /** The low bits of v shifted above p. */
  lemma {:induction false} MaskAbove(p: nat, v: nat, e: nat, n: nat)
    requires p < Pow2(e)
    ensures Mask(p + Shl(v, e), e + n) == p + Shl(Mask(v, n), e)
    decreases e
  {
    if e > 0 {
      MaskAbove(p / 2, v, e - 1, n);
    }
  }

  lemma {:induction false} MaskTwice(w: nat, n: nat, m: nat)
    requires n <= m
    ensures Mask(Mask(w, m), n) == Mask(w, n)
    decreases n
  {
    hide Pow2;
    if n > 0 {
      MaskTwice(w / 2, n - 1, m - 1);
    }
  }

  /** Numbers without a bit in common: or is sum. */
  lemma {:induction false} OrAbove(p: nat, v: nat, e: nat)
    requires p < Pow2(e)
    ensures Or(p, Shl(v, e)) == p + Shl(v, e)
    decreases e, v
  {
    if p != 0 || Shl(v, e) != 0 {
      if e > 0 {
        OrAbove(p / 2, v, e - 1);
      } else {
        OrAbove(0, v / 2, 0);
      }
    }
  }

  // ---------- bytes ----------

  lemma {:induction false} FromLEConcat(a: seq<byte>, b: seq<byte>)
    ensures FromLE(a + b) == FromLE(a) + Shl(FromLE(b), 8 * |a|)
  {
    if a == [] {
      assert a + b == b;
    } else {
      assert (a + b)[1..] == a[1..] + b;
      FromLEConcat(a[1..], b);
      Shl8(FromLE(b), 8 * |a| - 8);
    }
  }

  lemma {:induction false} FromLEOne(b: byte)
    ensures FromLE([b]) == b
  {
    assert [b][1..] == [];
  }

  lemma {:induction false} FromLEBelow(s: seq<byte>)
    ensures FromLE(s) < Pow2(8 * |s|)
  {
    Pow256IsPow2(|s|);
  }

  lemma {:induction false} LERoundTrip(n: nat, k: nat)
    requires n < Pow256(k)
    ensures FromLE(ToLE(n, k)) == n
    decreases k
  {
    if k > 0 {
      LERoundTrip(n / 256, k - 1);
      assert ToLE(n, k)[1..] == ToLE(n / 256, k - 1);
    }
  }

  lemma {:induction false} ToLEAt(n: nat, k: nat, i: nat)
    requires i < k
    ensures ToLE(n, k)[i] == Low8(Shr(n, 8 * i))
    decreases k
  {
    if i > 0 {
      ToLEAt(n / 256, k - 1, i - 1);
      Shr8(n);
      ShrTwice(n, 8, 8 * i - 8);
    }
  }

  /** The unsigned number whose big-endian bytes are s. */
  function FromBE(s: seq<byte>): (n: nat)
    ensures n < Pow256(|s|)
  {
    if s == [] then 0 else 256 * FromBE(s[..|s| - 1]) + s[|s| - 1]
  }

  lemma {:induction false} FromBEConcat(a: seq<byte>, b: seq<byte>)
    ensures FromBE(a + b) == Shl(FromBE(a), 8 * |b|) + FromBE(b)
    decreases |b|
  {
    if b == [] {
      assert a + b == a;
    } else {
      var c := b[..|b| - 1];
      assert (a + b)[..|a + b| - 1] == a + c;
      FromBEConcat(a, c);
      Shl8(FromBE(a), 8 * |c|);
    }
  }
}
