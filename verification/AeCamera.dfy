/** The AE camera image: zero-run coefficients, an integer lifting step, and a quad tree of blocks. */
module AeCamera {

  // ---------- coefficients ----------

  type Word16 = x: int | 0 <= x < 0x1_0000

  /** The number of zeros that a word stands for. */
  function Zeros(o: Word16): nat {
    o / 128
  }

  /** A 32-bit register read as a signed number. */
  function AsInt32(u: int): int {
    var w := u % 0x1_0000_0000;
    if w >= 0x8000_0000 then w - 0x1_0000_0000 else w
  }

  /** The coefficient after the zeros: the word shifted up 25 bits and, as a signed number, down again. */
  function Value(o: Word16): (v: int)
    ensures -64 <= v < 64
  {
    AsInt32((o as int) * 0x200_0000) / 0x200_0000
  }

  /** The word for some zeros and a coefficient. */
  function MakeWord(zeros: nat, v: int): Word16
    requires zeros < 512 && -64 <= v < 64
  {
    zeros * 128 + v % 128
  }

  lemma {:induction false} MakeWordReads(zeros: nat, v: int)
    requires zeros < 512 && -64 <= v < 64
    ensures Zeros(MakeWord(zeros, v)) == zeros && Value(MakeWord(zeros, v)) == v
  {
    var o: int := MakeWord(zeros, v);
    assert o * 0x200_0000 == zeros * 0x1_0000_0000 + (v % 128) * 0x200_0000;
    assert o * 0x200_0000 % 0x1_0000_0000 == (v % 128) * 0x200_0000;
  }

  function Run(zeros: nat, v: int): (s: seq<int>)
    ensures |s| == zeros + 1
  {
    if zeros == 0 then [v] else [0] + Run(zeros - 1, v)
  }

  lemma {:induction false} RunIs(zeros: nat, v: int)
    ensures Run(zeros, v) == seq(zeros, _ => 0) + [v]
  {
    if zeros > 0 {
      RunIs(zeros - 1, v);
      assert seq(zeros, _ => 0) == [0] + seq(zeros - 1, _ => 0);
    }
  }

  /** The coefficients that some words stand for. */
  function Expand(words: seq<Word16>): (s: seq<int>)
    ensures |s| >= |words|
  {
    if words == [] then [] else Run(Zeros(words[0]), Value(words[0])) + Expand(words[1..])
  }

  /** A word is nine bits, the number of zeros, and then a value of seven bits in two's complement. */
  lemma {:induction false} WordIs(o: Word16)
    ensures o as int == 128 * Zeros(o) + (if Value(o) < 0 then Value(o) + 128 else Value(o))
  {
    var zeros, low := o / 128, o % 128;
    var v: int := if low < 64 then low else low - 128;
    SevenBitsBack(low, v);
    MakeWordReads(zeros, v);
    assert MakeWord(zeros, v) == o;
  }

  lemma {:induction false} SevenBitsBack(low: int, v: int)
    requires 0 <= low < 128 && v == if low < 64 then low else low - 128
    ensures v % 128 == low
  {
  }

  /** A word gives as many zeros as it says and then its value; what the words after it give follows. */
  lemma {:induction false} WordGives(zeros: nat, v: int, rest: seq<Word16>)
    requires zeros < 512 && -64 <= v < 64
    ensures Expand([MakeWord(zeros, v)] + rest) == seq(zeros, _ => 0) + [v] + Expand(rest)
  {
    MakeWordReads(zeros, v);
    RunIs(zeros, v);
    assert ([MakeWord(zeros, v)] + rest)[1..] == rest;
  }

  // ---------- lifting ----------

  /** The four values that a lifting step makes of one. */
  datatype Four = Four(p1: int, p2: int, p3: int, p4: int)

  /** One value and three coefficients. */
  datatype Coarse = Coarse(prev: int, b0: int, b1: int, b2: int)

  /** x >> k of a signed number. */
  function SignedShr(x: int, k: nat): int
    decreases k, x
  {
    if k == 0 then x else SignedShr(x / 2, k - 1)
  }

  function Lift(c: Coarse): Four {
    var calc1 := c.b2 - SignedShr(c.b0, 1);
    var calc2 := calc1 + c.b0;
    var calc3 := c.prev - SignedShr(c.b1, 1);
    var param1 := calc3 - SignedShr(calc1, 1);
    var param3 := calc3 - SignedShr(calc2, 1) + c.b1;
    Four(param1, param1 + calc1, param3, param3 + calc2)
  }

  /** The lifting step undone. */
  function Unlift(f: Four): Coarse {
    var calc1 := f.p2 - f.p1;
    var calc2 := f.p4 - f.p3;
    var calc3 := f.p1 + SignedShr(calc1, 1);
    var b0 := calc2 - calc1;
    var b1 := f.p3 - calc3 + SignedShr(calc2, 1);
    Coarse(calc3 + SignedShr(b1, 1), b0, b1, calc1 + SignedShr(b0, 1))
  }

  /** The lifting step is a bijection. */
  lemma {:induction false} LiftUnlift(f: Four)
    ensures Lift(Unlift(f)) == f
  {
    var c := Unlift(f);
    assert c.b2 - SignedShr(c.b0, 1) == f.p2 - f.p1;
    assert c.prev - SignedShr(c.b1, 1) == f.p1 + SignedShr(f.p2 - f.p1, 1);
  }

  lemma {:induction false} UnliftLift(c: Coarse)
    ensures Unlift(Lift(c)) == c
  {
    var f := Lift(c);
    assert f.p2 - f.p1 == c.b2 - SignedShr(c.b0, 1);
    assert f.p4 - f.p3 == c.b2 - SignedShr(c.b0, 1) + c.b0;
  }

  /**
   What the lifting step computes: of the four values it makes, the first coefficient is the difference
   of the two rows' steps, the second that of the two rows' means, the third the mean step, and the
   value before them is the mean of the means; every mean is rounded down.
   */
  lemma {:induction false} LiftIs(c: Coarse, f: Four)
    ensures Lift(c) == f <==> c == Means(f.p1, f.p2, f.p3, f.p4)
  {
    hide *;
    LiftUnlift(f);
    UnliftLift(c);
    UnliftIs(f);
  }

  lemma {:induction false} UnliftIs(f: Four)
    ensures Unlift(f) == Means(f.p1, f.p2, f.p3, f.p4)
  {
    hide SignedShr;
    MeanFromStep(f.p1, f.p2);
    MeanFromStep(f.p3, f.p4);
    MeanFromStep((f.p1 + f.p2) / 2, (f.p3 + f.p4) / 2);
    MeanFromStep(f.p2 - f.p1, f.p4 - f.p3);
  }

  lemma {:induction false} MeanFromStep(a: int, b: int)
    ensures a + SignedShr(b - a, 1) == (a + b) / 2
  {
    assert SignedShr(b - a, 1) == SignedShr((b - a) / 2, 0) == (b - a) / 2;
  }

  /** Mean, difference of the steps, difference of the means and mean step of two rows of two values. */
  function Means(p1: int, p2: int, p3: int, p4: int): Coarse {
    var m1, m2 := (p1 + p2) / 2, (p3 + p4) / 2;
    var d1, d2 := p2 - p1, p4 - p3;
    Coarse((m1 + m2) / 2, d2 - d1, m2 - m1, (d1 + d2) / 2)
  }

  // ---------- the quad tree ----------

  datatype Pixel = Pixel(r: int, g: int, b: int)

  /** A pixel value put at a place. */
  datatype Store = Store(x: int, y: int, pixel: Pixel)

  /** Twice the power k. */
  function Width(k: nat): (w: nat)
    ensures w >= 1
  {
    if k == 0 then 1 else 2 * Width(k - 1)
  }

  /** How many coefficients a block of width 2^k takes after its first value. */
  function Need(k: nat): nat {
    if k == 0 then 0 else 9 + 4 * Need(k - 1)
  }

  lemma {:induction false} NeedIs(k: nat)
    ensures Need(k) == 3 * (Width(k) * Width(k) - 1)
  {
    if k > 0 {
      NeedIs(k - 1);
      var w := Width(k - 1);
      assert (2 * w) * (2 * w) == 4 * (w * w);
    }
  }

  /** One lifting step for each of some values, in order. */
  function Lifts(values: seq<int>, c: seq<int>, at: nat): (f: seq<Four>)
    requires at + 3 * |values| <= |c|
    ensures |f| == |values|
  {
    if values == [] then []
    else if |values| == 1 then [LiftAt(values[0], c, at)]
    else Lifts(values[..1], c, at) + Lifts(values[1..], c, at + 3)
  }

  function LiftAt(value: int, c: seq<int>, at: nat): Four
    requires at + 3 <= |c|
  {
    Lift(Coarse(value, c[at], c[at + 1], c[at + 2]))
  }

  /** The values of the four quarters of a block: a lifting step for each of red, green and blue. */
  function Quarters(root: Pixel, c: seq<int>, at: nat): (q: seq<Pixel>)
    requires at + 9 <= |c|
    ensures |q| == 4
  {
    var f := Lifts([root.r, root.g, root.b], c, at);
    [Pixel(f[0].p1, f[1].p1, f[2].p1), Pixel(f[0].p2, f[1].p2, f[2].p2),
     Pixel(f[0].p3, f[1].p3, f[2].p3), Pixel(f[0].p4, f[1].p4, f[2].p4)]
  }

  lemma {:induction false} ThreeLifts(r: int, g: int, b: int, c: seq<int>, at: nat)
    requires at + 9 <= |c|
    ensures Lifts([r, g, b], c, at) == [LiftAt(r, c, at), LiftAt(g, c, at + 3), LiftAt(b, c, at + 6)]
  {
    assert [r, g, b][..1] == [r] && [r, g, b][1..] == [g, b] && [g, b][..1] == [g] && [g, b][1..] == [b];
    assert Lifts([g, b], c, at + 3) == Lifts([g], c, at + 3) + Lifts([b], c, at + 6);
  }

  /** Where the coefficients of quarter i start, in a block of which each quarter takes n. */
  function PartAt(at: nat, n: nat, i: nat): nat {
    at + 9 + if i == 0 then 0 else if i == 1 then n else if i == 2 then 2 * n else 3 * n
  }

  /** Quarters 1 and 3 are to the right, 2 and 3 further down. */
  function Right(i: nat, h: nat): nat {
    if i == 1 || i == 3 then h else 0
  }

  function Down(i: nat, h: nat): nat {
    if i >= 2 then h else 0
  }

  /** The block of width 2^k at (x, y), by plain four-way recursion; its coefficients start at `at`. */
  function Quad(k: nat, root: Pixel, c: seq<int>, at: nat, x: int, y: int): seq<Store>
    requires at + Need(k) <= |c|
    decreases k, at, 1
  {
    if k == 0 then [Store(x, y, root)]
    else
      Quarter(k, root, c, at, x, y, 0) + (Quarter(k, root, c, at, x, y, 1) +
      (Quarter(k, root, c, at, x, y, 2) + Quarter(k, root, c, at, x, y, 3)))
  }

  function Quarter(k: nat, root: Pixel, c: seq<int>, at: nat, x: int, y: int, i: nat): seq<Store>
    requires k > 0 && at + Need(k) <= |c| && i < 4
    decreases k, at, 0
  {
    var h, n := Width(k - 1), Need(k - 1);
    Quad(k - 1, Quarters(root, c, at)[i], c, PartAt(at, n, i), x + Right(i, h), y + Down(i, h))
  }

  /** How often a place is stored to. */
  function Count(stores: seq<Store>, x: int, y: int): nat {
    if stores == [] then 0
    else (if stores[0].x == x && stores[0].y == y then 1 else 0) + Count(stores[1..], x, y)
  }

  lemma {:induction false} CountConcat(a: seq<Store>, b: seq<Store>, x: int, y: int)
    ensures Count(a + b, x, y) == Count(a, x, y) + Count(b, x, y)
  {
    if a == [] {
      assert a + b == b;
    } else {
      assert (a + b)[1..] == a[1..] + b;
      CountConcat(a[1..], b, x, y);
    }
  }

  predicate Inside(x: int, y: int, w: nat, px: int, py: int) {
    x <= px < x + w && y <= py < y + w
  }

  /** A block stores to every place of its square exactly once, and nowhere else. */
  lemma {:induction false} QuadCovers(k: nat, root: Pixel, c: seq<int>, at: nat, x: int, y: int, px: int, py: int)
    requires at + Need(k) <= |c|
    ensures Count(Quad(k, root, c, at, x, y), px, py) == if Inside(x, y, Width(k), px, py) then 1 else 0
    decreases k, 1
  {
    if k == 0 {
      assert Quad(k, root, c, at, x, y)[1..] == [];
    } else {
      var s0, s1 := Quarter(k, root, c, at, x, y, 0), Quarter(k, root, c, at, x, y, 1);
      var s2, s3 := Quarter(k, root, c, at, x, y, 2), Quarter(k, root, c, at, x, y, 3);
      CountConcat(s2, s3, px, py);
      CountConcat(s1, s2 + s3, px, py);
      CountConcat(s0, s1 + (s2 + s3), px, py);
      QuarterCovers(k, root, c, at, x, y, 0, px, py);
      QuarterCovers(k, root, c, at, x, y, 1, px, py);
      QuarterCovers(k, root, c, at, x, y, 2, px, py);
      QuarterCovers(k, root, c, at, x, y, 3, px, py);
    }
  }

  lemma {:induction false} QuarterCovers(k: nat, root: Pixel, c: seq<int>, at: nat, x: int, y: int, i: nat, px: int,
      py: int)
    requires k > 0 && at + Need(k) <= |c| && i < 4
    ensures var h := Width(k - 1);
      Count(Quarter(k, root, c, at, x, y, i), px, py)
      == if Inside(x + Right(i, h), y + Down(i, h), h, px, py) then 1 else 0
    decreases k, 0
  {
    var h, n := Width(k - 1), Need(k - 1);
    QuadCovers(k - 1, Quarters(root, c, at)[i], c, PartAt(at, n, i), x + Right(i, h), y + Down(i, h), px, py);
  }

  // ---------- the encoder ----------

  /** A picture: a pixel value for every place. */
  type Picture = (int, int) -> Pixel

  /** A block as a first value and coefficients. */
  datatype Block = Block(root: Pixel, c: seq<int>)

  /** The nine coefficients, and the value before them, that give four values. */
  function Merge(q: seq<Pixel>): (m: Block)
    requires |q| == 4
    ensures |m.c| == 9
  {
    var r := Unlift(Four(q[0].r, q[1].r, q[2].r, q[3].r));
    var g := Unlift(Four(q[0].g, q[1].g, q[2].g, q[3].g));
    var b := Unlift(Four(q[0].b, q[1].b, q[2].b, q[3].b));
    Block(Pixel(r.prev, g.prev, b.prev), [r.b0, r.b1, r.b2, g.b0, g.b1, g.b2, b.b0, b.b1, b.b2])
  }

  lemma {:induction false} MergeThenSplit(q: seq<Pixel>, c: seq<int>, at: nat)
    requires |q| == 4 && at + 9 <= |c| && forall i :: 0 <= i < 9 ==> c[at + i] == Merge(q).c[i]
    ensures Quarters(Merge(q).root, c, at) == q
  {
    var m := Merge(q);
    assert c[at + 0] == m.c[0] && c[at + 1] == m.c[1] && c[at + 2] == m.c[2];
    assert c[at + 3] == m.c[3] && c[at + 4] == m.c[4] && c[at + 5] == m.c[5];
    assert c[at + 6] == m.c[6] && c[at + 7] == m.c[7] && c[at + 8] == m.c[8];
    ChannelBack(q[0].r, q[1].r, q[2].r, q[3].r, m.root.r, c[at], c[at + 1], c[at + 2]);
    ChannelBack(q[0].g, q[1].g, q[2].g, q[3].g, m.root.g, c[at + 3], c[at + 4], c[at + 5]);
    ChannelBack(q[0].b, q[1].b, q[2].b, q[3].b, m.root.b, c[at + 6], c[at + 7], c[at + 8]);
    ThreeLifts(m.root.r, m.root.g, m.root.b, c, at);
  }

  lemma {:induction false} ChannelBack(p1: int, p2: int, p3: int, p4: int, prev: int, b0: int, b1: int, b2: int)
    requires Coarse(prev, b0, b1, b2) == Unlift(Four(p1, p2, p3, p4))
    ensures Lift(Coarse(prev, b0, b1, b2)) == Four(p1, p2, p3, p4)
  {
    LiftUnlift(Four(p1, p2, p3, p4));
  }

  /** The encoder for a block of a picture. */
  function Encode(k: nat, picture: Picture, x: int, y: int): (e: Block)
    ensures |e.c| == Need(k)
    decreases k, x, 1
  {
    if k == 0 then Block(picture(x, y), [])
    else
      var e0, e1 := EncodeQuarter(k, picture, x, y, 0), EncodeQuarter(k, picture, x, y, 1);
      var e2, e3 := EncodeQuarter(k, picture, x, y, 2), EncodeQuarter(k, picture, x, y, 3);
      var m := Merge([e0.root, e1.root, e2.root, e3.root]);
      Block(m.root, m.c + (e0.c + (e1.c + (e2.c + e3.c))))
  }

  function EncodeQuarter(k: nat, picture: Picture, x: int, y: int, i: nat): (e: Block)
    requires k > 0 && i < 4
    ensures |e.c| == Need(k - 1)
    decreases k, x, 0
  {
    var h := Width(k - 1);
    Encode(k - 1, picture, x + Right(i, h), y + Down(i, h))
  }

  /** Some coefficients stand in a longer list from `at` on. */
  predicate Holds(all: seq<int>, at: nat, c: seq<int>) {
    at + |c| <= |all| && forall i :: 0 <= i < |c| ==> all[at + i] == c[i]
  }

  lemma {:induction false} HoldsConcat(all: seq<int>, at: nat, a: seq<int>, b: seq<int>)
    requires Holds(all, at, a + b)
    ensures Holds(all, at, a) && Holds(all, at + |a|, b)
  {
    forall i | 0 <= i < |a|
      ensures all[at + i] == a[i]
    {
      assert all[at + i] == (a + b)[i];
    }
    forall i | 0 <= i < |b|
      ensures all[(at + |a|) + i] == b[i]
    {
      assert all[at + (|a| + i)] == (a + b)[|a| + i];
    }
  }

  lemma {:induction false} PartsHold(all: seq<int>, at: nat, m: seq<int>, c0: seq<int>, c1: seq<int>, c2: seq<int>,
      c3: seq<int>, n: nat)
    requires |m| == 9 && |c0| == n && |c1| == n && |c2| == n && |c3| == n
    requires Holds(all, at, m + (c0 + (c1 + (c2 + c3))))
    ensures Holds(all, at, m) && Holds(all, PartAt(at, n, 0), c0) && Holds(all, PartAt(at, n, 1), c1)
    ensures Holds(all, PartAt(at, n, 2), c2) && Holds(all, PartAt(at, n, 3), c3)
  {
    HoldsConcat(all, at, m, c0 + (c1 + (c2 + c3)));
    HoldsConcat(all, at + 9, c0, c1 + (c2 + c3));
    HoldsConcat(all, at + 9 + n, c1, c2 + c3);
    HoldsConcat(all, at + 9 + n + n, c2, c3);
  }

  /** Quarter i of an encoded block is the encoded quarter i. */
  lemma {:induction false} QuarterOfEncoded(k: nat, picture: Picture, x: int, y: int, all: seq<int>, at: nat, i: nat)
    requires k > 0 && i < 4 && Holds(all, at, Encode(k, picture, x, y).c)
    ensures Quarters(Encode(k, picture, x, y).root, all, at)[i] == EncodeQuarter(k, picture, x, y, i).root
    ensures Holds(all, PartAt(at, Need(k - 1), i), EncodeQuarter(k, picture, x, y, i).c)
  {
    var e0, e1 := EncodeQuarter(k, picture, x, y, 0), EncodeQuarter(k, picture, x, y, 1);
    var e2, e3 := EncodeQuarter(k, picture, x, y, 2), EncodeQuarter(k, picture, x, y, 3);
    var q, n := [e0.root, e1.root, e2.root, e3.root], Need(k - 1);
    PartsHold(all, at, Merge(q).c, e0.c, e1.c, e2.c, e3.c, n);
    assert i == 0 || i == 1 || i == 2 || i == 3;
    MergeThenSplit(q, all, at);
  }

  /** Every store is of the picture. */
  predicate Shows(stores: seq<Store>, picture: Picture) {
    forall i :: 0 <= i < |stores| ==> stores[i].pixel == picture(stores[i].x, stores[i].y)
  }

  lemma {:induction false} ShowsConcat(a: seq<Store>, b: seq<Store>, picture: Picture)
    requires Shows(a, picture) && Shows(b, picture)
    ensures Shows(a + b, picture)
  {
  }

  /** Decoding an encoded block gives the picture back, exactly. */
  lemma {:induction false} DecodeEncode(k: nat, picture: Picture, x: int, y: int, all: seq<int>, at: nat)
    requires Holds(all, at, Encode(k, picture, x, y).c)
    ensures Shows(Quad(k, Encode(k, picture, x, y).root, all, at, x, y), picture)
    decreases k, 1
  {
    if k > 0 {
      var root := Encode(k, picture, x, y).root;
      var s0, s1 := Quarter(k, root, all, at, x, y, 0), Quarter(k, root, all, at, x, y, 1);
      var s2, s3 := Quarter(k, root, all, at, x, y, 2), Quarter(k, root, all, at, x, y, 3);
      DecodeEncodeQuarter(k, picture, x, y, all, at, 0);
      DecodeEncodeQuarter(k, picture, x, y, all, at, 1);
      DecodeEncodeQuarter(k, picture, x, y, all, at, 2);
      DecodeEncodeQuarter(k, picture, x, y, all, at, 3);
      ShowsConcat(s2, s3, picture);
      ShowsConcat(s1, s2 + s3, picture);
      ShowsConcat(s0, s1 + (s2 + s3), picture);
    }
  }

  lemma {:induction false} DecodeEncodeQuarter(k: nat, picture: Picture, x: int, y: int, all: seq<int>, at: nat, i: nat)
    requires k > 0 && i < 4 && Holds(all, at, Encode(k, picture, x, y).c)
    ensures Shows(Quarter(k, Encode(k, picture, x, y).root, all, at, x, y, i), picture)
    decreases k, 0
  {
    hide Merge, Need;
    var h, n := Width(k - 1), Need(k - 1);
    QuarterOfEncoded(k, picture, x, y, all, at, i);
    DecodeEncode(k - 1, picture, x + Right(i, h), y + Down(i, h), all, PartAt(at, n, i));
  }
}
