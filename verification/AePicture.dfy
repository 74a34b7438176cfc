/** What the AE camera decoder computes: the picture whose rounded means and differences the coefficients are. */
module AePicture {
  import opened AeCamera
  import opened AeDecoder

  /** The mean of a block of width 2^k: the mean of the means of its two rows of quarters, rounded down. */
  function Mean(k: nat, picture: Picture, x: int, y: int): Pixel
    decreases k, x
  {
    if k == 0 then picture(x, y)
    else
      var h := Width(k - 1);
      MeanOfFour(Mean(k - 1, picture, x, y), Mean(k - 1, picture, x + h, y),
                 Mean(k - 1, picture, x, y + h), Mean(k - 1, picture, x + h, y + h))
  }

  function MeanOfFour(p: Pixel, q: Pixel, s: Pixel, t: Pixel): Pixel {
    Pixel(Means(p.r, q.r, s.r, t.r).prev, Means(p.g, q.g, s.g, t.g).prev, Means(p.b, q.b, s.b, t.b).prev)
  }

  /** The three coefficients at a place are the differences for four values. */
  predicate Differs(p1: int, p2: int, p3: int, p4: int, c: seq<int>, at: nat)
    requires at + 3 <= |c|
  {
    var m := Means(p1, p2, p3, p4);
    c[at] == m.b0 && c[at + 1] == m.b1 && c[at + 2] == m.b2
  }

  /** The nine coefficients at a place are the differences for red, for green and for blue. */
  predicate DiffersInAll(p: Pixel, q: Pixel, s: Pixel, t: Pixel, c: seq<int>, at: nat)
    requires at + 9 <= |c|
  {
    && Differs(p.r, q.r, s.r, t.r, c, at)
    && Differs(p.g, q.g, s.g, t.g, c, at + 3)
    && Differs(p.b, q.b, s.b, t.b, c, at + 6)
  }

  /**
   The coefficients of a block of a picture from `at` on: the differences of the quarters' means, and then
   the coefficients of the quarters, row by row.
   */
  predicate Describes(c: seq<int>, at: nat, k: nat, picture: Picture, x: int, y: int)
    requires at + Need(k) <= |c|
    decreases k, 0
  {
    k == 0 ||
    var h := Width(k - 1);
    && DiffersInAll(Mean(k - 1, picture, x, y), Mean(k - 1, picture, x + h, y),
                    Mean(k - 1, picture, x, y + h), Mean(k - 1, picture, x + h, y + h), c, at)
    && DescribesFour(c, at + 9, k - 1, Need(k - 1), picture, x, y, h)
  }

  /** Four blocks of width h = 2^k, of n coefficients each, row by row. */
  predicate DescribesFour(c: seq<int>, at: nat, k: nat, n: nat, picture: Picture, x: int, y: int, h: nat)
    requires n == Need(k) && at + 4 * n <= |c|
    decreases k, 1
  {
    && Describes(c, at, k, picture, x, y)
    && Describes(c, at + n, k, picture, x + h, y)
    && Describes(c, at + 2 * n, k, picture, x, y + h)
    && Describes(c, at + 3 * n, k, picture, x + h, y + h)
  }

  /** Four means and nine coefficients belong together exactly when the decoder makes the means of them. */
  lemma {:induction false} QuartersIff(root: Pixel, c: seq<int>, at: nat, p: Pixel, q: Pixel, s: Pixel, t: Pixel)
    requires at + 9 <= |c|
    ensures Quarters(root, c, at) == [p, q, s, t] <==>
      root == MeanOfFour(p, q, s, t) && DiffersInAll(p, q, s, t, c, at)
  {
    hide Means, Lift, Lifts;
    ThreeLifts(root.r, root.g, root.b, c, at);
    LiftIs(Coarse(root.r, c[at], c[at + 1], c[at + 2]), Four(p.r, q.r, s.r, t.r));
    LiftIs(Coarse(root.g, c[at + 3], c[at + 4], c[at + 5]), Four(p.g, q.g, s.g, t.g));
    LiftIs(Coarse(root.b, c[at + 6], c[at + 7], c[at + 8]), Four(p.b, q.b, s.b, t.b));
  }

  lemma {:induction false} ShowsNone(picture: Picture)
    ensures Shows([], picture)
  {
  }

  lemma {:induction false} OneStore(pixel: Pixel, c: seq<int>, at: nat, x: int, y: int, picture: Picture)
    requires at + Need(0) <= |c|
    ensures Shows(Quad(0, pixel, c, at, x, y), picture) <==> pixel == picture(x, y)
  {
    var stores := Quad(0, pixel, c, at, x, y);
    assert stores == [Store(x, y, pixel)];
    assert stores[0].pixel == pixel;
  }

  lemma {:induction false} ShowsBoth(a: seq<Store>, b: seq<Store>, picture: Picture)
    ensures Shows(a + b, picture) <==> Shows(a, picture) && Shows(b, picture)
  {
    if Shows(a + b, picture) {
      assert forall i :: 0 <= i < |a| ==> (a + b)[i] == a[i];
      assert forall i :: 0 <= i < |b| ==> (a + b)[|a| + i] == b[i];
    }
  }

  lemma {:induction false} FourShow(k: nat, root: Pixel, c: seq<int>, at: nat, x: int, y: int, picture: Picture)
    requires k > 0 && at + Need(k) <= |c|
    ensures var h, n, v := Width(k - 1), Need(k - 1), Quarters(root, c, at);
      Shows(Quad(k, root, c, at, x, y), picture) <==>
        && Shows(Quad(k - 1, v[0], c, at + 9, x, y), picture)
        && Shows(Quad(k - 1, v[1], c, at + 9 + n, x + h, y), picture)
        && Shows(Quad(k - 1, v[2], c, at + 9 + 2 * n, x, y + h), picture)
        && Shows(Quad(k - 1, v[3], c, at + 9 + 3 * n, x + h, y + h), picture)
  {
    hide Shows, Quarters;
    var s0, s1 := Quarter(k, root, c, at, x, y, 0), Quarter(k, root, c, at, x, y, 1);
    var s2, s3 := Quarter(k, root, c, at, x, y, 2), Quarter(k, root, c, at, x, y, 3);
    ShowsBoth(s2, s3, picture);
    ShowsBoth(s1, s2 + s3, picture);
    ShowsBoth(s0, s1 + (s2 + s3), picture);
  }

  /** A block is decoded to a picture exactly when it starts from the mean and the coefficients describe it. */
  lemma {:induction false} QuadIff(k: nat, root: Pixel, c: seq<int>, at: nat, x: int, y: int, picture: Picture)
    requires at + Need(k) <= |c|
    ensures Shows(Quad(k, root, c, at, x, y), picture)
      <==> root == Mean(k, picture, x, y) && Describes(c, at, k, picture, x, y)
    decreases k
  {
    hide MeanOfFour, DiffersInAll, Quarters, Quarter, Quad, Shows;
    if k == 0 {
      OneStore(root, c, at, x, y, picture);
    } else {
      var h, n, v := Width(k - 1), Need(k - 1), Quarters(root, c, at);
      FourShow(k, root, c, at, x, y, picture);
      QuadIff(k - 1, v[0], c, at + 9, x, y, picture);
      QuadIff(k - 1, v[1], c, at + 9 + n, x + h, y, picture);
      QuadIff(k - 1, v[2], c, at + 9 + 2 * n, x, y + h, picture);
      QuadIff(k - 1, v[3], c, at + 9 + 3 * n, x + h, y + h, picture);
      var p, q := Mean(k - 1, picture, x, y), Mean(k - 1, picture, x + h, y);
      var s, t := Mean(k - 1, picture, x, y + h), Mean(k - 1, picture, x + h, y + h);
      QuartersIff(root, c, at, p, q, s, t);
    }
  }

  /** The coefficients of block i of a strip: its mean, and then what describes it. */
  predicate DescribesBlock(c: seq<int>, i: nat, picture: Picture, x: int)
    requires 768 * i + 768 <= |c|
  {
    BlockNeeds();
    && Mean(4, picture, x, 16 * i) == Pixel(c[768 * i], c[768 * i + 1], c[768 * i + 2])
    && Describes(c, 768 * i + 3, 4, picture, x, 16 * i)
  }

  predicate DescribesStrip(c: seq<int>, n: nat, picture: Picture, x: int)
    requires n * BLOCK <= |c|
  {
    forall i :: 0 <= i < n ==> DescribesBlock(c, i, picture, x)
  }

  /** A strip is decoded to a picture exactly when the coefficients are the means and differences of its blocks. */
  lemma {:induction false} StripIff(c: seq<int>, n: nat, picture: Picture, x: int)
    requires n * BLOCK <= |c|
    ensures Shows(Strip(c, x, n), picture) <==> DescribesStrip(c, n, picture, x)
  {
    hide Shows, Describes, Mean, Need, Quad;
    BlockNeeds();
    if n == 0 {
      ShowsNone(picture);
    } else {
      var at := (n - 1) * BLOCK;
      StripIff(c, n - 1, picture, x);
      assert DescribesStrip(c, n, picture, x)
        <==> DescribesStrip(c, n - 1, picture, x) && DescribesBlock(c, n - 1, picture, x);
      ShowsBoth(Strip(c, x, n - 1), BlockStores(c, at, x, (n - 1) * 16), picture);
      QuadIff(4, Pixel(c[at], c[at + 1], c[at + 2]), c, at + 3, x, (n - 1) * 16, picture);
    }
  }

  /** The coefficients that the encoder gives are those means and differences. */
  lemma {:induction false} EncoderDescribes(picture: Picture, x: int, n: nat)
    ensures DescribesStrip(EncodeStrip(picture, x, n), n, picture, x)
  {
    hide *;
    HoldsItself(EncodeStrip(picture, x, n));
    StripShows(picture, x, n, EncodeStrip(picture, x, n));
    StripIff(EncodeStrip(picture, x, n), n, picture, x);
  }

  lemma {:induction false} HoldsItself(c: seq<int>)
    ensures Holds(c, 0, c)
  {
  }

  /** The frame shows, in the cells of the strip, the picture whose means and differences the coefficients are. */
  lemma {:induction false} FrameShows(c: seq<int>, picture: Picture, xPos: int, log: seq<Store>, x: int, y: int)
    requires STRIP_BLOCKS * BLOCK <= |c| && DescribesStrip(c, STRIP_BLOCKS, picture, xPos)
    ensures After(log + Strip(c, xPos, STRIP_BLOCKS), x, y, Colour(0)) ==
      if xPos <= x < xPos + 16 && 0 <= y < 256 then CellOf(picture(x, y)) else After(log, x, y, Colour(0))
  {
    hide DescribesStrip, Strip, Shows, After, CellOf, Count;
    var strip := Strip(c, xPos, STRIP_BLOCKS);
    StripIff(c, STRIP_BLOCKS, picture, xPos);
    AfterConcat(log, strip, x, y, Colour(0));
    StripCovers(c, xPos, STRIP_BLOCKS, x, y);
    AfterShows(strip, picture, x, y, After(log, x, y, Colour(0)));
  }
}
