/** The AE camera decoder: it takes coefficients from a word buffer and fills the frame in place. */
module AeDecoder {
  import opened Sequences
  import opened AeCamera

  const FRAME_WIDTH := 640
  const FRAME_HEIGHT := 240

  /** A frame cell: a 16-bit colour, or what an index outside the colour tables leaves. */
  datatype Cell = Colour(value: nat) | Wild

  /** The red and blue tables rise to 31 and stay there. */
  function Clamped(i: nat): nat {
    if i < 31 then i else 31
  }

  /** The colour that the tables give; the green table has one more entry, which is zero. */
  function CellOf(p: Pixel): Cell {
    if 0 <= p.r < 64 && 0 <= p.g < 65 && 0 <= p.b < 64 then
      Colour(0x800 * Clamped(p.r) + (if p.g == 64 then 0 else 0x40 * Clamped(p.g)) + Clamped(p.b))
    else Wild
  }

  /**
   A colour's top five bits are red, the six after them green and the last five blue, each of them the
   smaller of the value and 31; green has its low bit clear, and none of its bits at 64.
   */
  lemma {:induction false} CellIs(p: Pixel)
    requires 0 <= p.r < 64 && 0 <= p.g < 65 && 0 <= p.b < 64
    ensures CellOf(p).Colour?
    ensures CellOf(p).value < 0x1_0000
    ensures CellOf(p).value / 2048 == (if p.r > 31 then 31 else p.r)
    ensures CellOf(p).value / 32 % 64 == (if p.g == 64 then 0 else if p.g > 31 then 62 else 2 * p.g)
    ensures CellOf(p).value % 32 == (if p.b > 31 then 31 else p.b)
  {
    var v := CellOf(p).value;
    var r, b := if p.r > 31 then 31 else p.r, if p.b > 31 then 31 else p.b;
    var g := if p.g == 64 then 0 else if p.g > 31 then 62 else 2 * p.g;
    assert v == 2048 * r + 32 * g + b;
    assert v / 32 == 64 * r + g;
  }

  /** What a place holds after some stores. */
  function After(stores: seq<Store>, x: int, y: int, before: Cell): Cell {
    if stores == [] then before
    else
      var last := stores[|stores| - 1];
      if last.x == x && last.y == y then CellOf(last.pixel) else After(stores[..|stores| - 1], x, y, before)
  }

  class Camera {
    var left7: int
    var right25: int
    var words: seq<Word16>
    var next: nat
    const vram: array2<Cell>

    /** Every store so far, clipped ones included. */
    ghost var log: seq<Store>

    /** The frame shows the stores. */
    ghost predicate Valid()
      reads this, vram
    {
      && left7 >= 0 && next <= |words|
      && vram.Length0 == FRAME_HEIGHT && vram.Length1 == FRAME_WIDTH
      && forall y, x :: 0 <= y < FRAME_HEIGHT && 0 <= x < FRAME_WIDTH ==> vram[y, x] == After(log, x, y, Colour(0))
    }

    /** The coefficients still to come, the one that is held back included. */
    ghost function Pending(): seq<int>
      requires left7 >= 0 && next <= |words|
      reads this
    {
      Run(left7, right25) + Expand(words[next..])
    }

    constructor ()
      ensures Valid() && fresh(vram) && log == []
    {
      left7, right25, words, next := 0, 0, [], 0;
      vram := new Cell[FRAME_HEIGHT, FRAME_WIDTH]((y, x) => Colour(0));
      log := [];
    }

    /** next_bits: the next coefficient; the word after it is loaded at the same time. */
    method NextBits() returns (ret: int)
      requires Valid() && |Pending()| > 1
      modifies this`left7, this`right25, this`next
      ensures Valid() && old(Pending()) == [ret] + Pending()
      ensures old(left7) > 0 ==> ret == 0 && left7 == old(left7) - 1 && right25 == old(right25) && next == old(next)
      ensures old(left7) == 0 ==>
          && ret == old(right25) && next == old(next) + 1
          && words[old(next)] as int == 128 * left7 + (if right25 < 0 then right25 + 128 else right25)
    {
      ret := 0;
      if left7 <= 0 {
        ret := right25;
        assert Run(0, right25) == [right25];
        assert words[next..][1..] == words[next + 1..];
        var o := words[next];
        WordIs(o);
        left7 := Zeros(o);
        right25 := Value(o);
        next := next + 1;
      } else {
        assert Run(left7, right25) == [0] + Run(left7 - 1, right25);
        AppendAssociates([0], Run(left7 - 1, right25), Expand(words[next..]));
        left7 := left7 - 1;
      }
    }

    /** What is to come is the list of all coefficients from `at` on. */
    ghost predicate At(all: seq<int>, at: nat)
      requires left7 >= 0 && next <= |words|
      reads this
    {
      at < |all| && Pending() == all[at..]
    }

    method Next(ghost all: seq<int>, ghost at: nat) returns (ret: int)
      requires Valid() && At(all, at) && at + 1 < |all|
      modifies this`left7, this`right25, this`next
      ensures Valid() && At(all, at + 1) && ret == all[at]
    {
      ret := NextBits();
      assert all[at..] == [ret] + Pending();
      assert all[at..][0] == ret && all[at..][1..] == all[at + 1..];
    }

    /** BitsLogic: one lifting step with the next three coefficients. */
    method ReadLogic(prev: int, ghost all: seq<int>, ghost at: nat) returns (f: Four, b0: int, b1: int, b2: int)
      requires Valid() && At(all, at) && at + 3 < |all|
      modifies this`left7, this`right25, this`next
      ensures Valid() && At(all, at + 3) && b0 == all[at] && b1 == all[at + 1] && b2 == all[at + 2]
      ensures f == Lift(Coarse(prev, b0, b1, b2))
    {
      b0 := Next(all, at);
      b1 := Next(all, at + 1);
      b2 := Next(all, at + 2);
      var calc1 := b2 - SignedShr(b0, 1);
      var calc2 := calc1 + b0;
      var calc3 := prev - SignedShr(b1, 1);
      var param1 := calc3 - SignedShr(calc1, 1);
      var param2 := param1 + calc1;
      var param3 := calc3 - SignedShr(calc2, 1) + b1;
      var param4 := param3 + calc2;
      f := Four(param1, param2, param3, param4);
    }

    /** Three lifting steps: the values of the four quarters of a block. */
    method ReadQuarters(r: int, g: int, b: int, ghost all: seq<int>, ghost at: nat)
      returns (fr: Four, fg: Four, fb: Four)
      requires Valid() && At(all, at) && at + 9 < |all|
      modifies this`left7, this`right25, this`next
      ensures Valid() && At(all, at + 9)
      ensures Quarters(Pixel(r, g, b), all, at)
           == [Pixel(fr.p1, fg.p1, fb.p1), Pixel(fr.p2, fg.p2, fb.p2), Pixel(fr.p3, fg.p3, fb.p3),
             Pixel(fr.p4, fg.p4, fb.p4)]
    {
      ThreeLifts(r, g, b, all, at);
      var b0, b1, b2;
      fr, b0, b1, b2 := ReadLogic(r, all, at);
      fg, b0, b1, b2 := ReadLogic(g, all, at + 3);
      fb, b0, b1, b2 := ReadLogic(b, all, at + 6);
    }

    /** One of the stores of write_4_pixel_block, clipped to the frame. */
    method Put(x: nat, y: nat, p: Pixel)
      requires Valid()
      modifies this`log, vram
      ensures Valid() && log == old(log) + [Store(x, y, p)]
    {
      if y < FRAME_HEIGHT && x < FRAME_WIDTH {
        vram[y, x] := CellOf(p);
      }
      ghost var before := log;
      log := log + [Store(x, y, p)];
      assert log[..|log| - 1] == before;
    }

    /** write_4_pixel_block. */
    method WriteFour(fr: Four, fg: Four, fb: Four, x: nat, y: nat)
      requires Valid()
      modifies this`log, vram
      ensures Valid()
      ensures log == old(log) + [
        Store(x, y, Pixel(fr.p1, fg.p1, fb.p1)), Store(x + 1, y, Pixel(fr.p2, fg.p2, fb.p2)),
        Store(x, y + 1, Pixel(fr.p3, fg.p3, fb.p3)), Store(x + 1, y + 1, Pixel(fr.p4, fg.p4, fb.p4))]
    {
      Put(x, y, Pixel(fr.p1, fg.p1, fb.p1));
      Put(x + 1, y, Pixel(fr.p2, fg.p2, fb.p2));
      Put(x, y + 1, Pixel(fr.p3, fg.p3, fb.p3));
      Put(x + 1, y + 1, Pixel(fr.p4, fg.p4, fb.p4));
    }

    /** The body of the loop: three quarters by recursion; the fourth is left to the loop. */
    method ThreeQuarters(r: int, g: int, b: int, half: nat, x: nat, y: nat, ghost k: nat, ghost all: seq<int>,
        ghost at: nat)
      returns (r4: int, g4: int, b4: int)
      requires Valid() && k >= 2 && half == Width(k - 1) && At(all, at) && at + Need(k) < |all|
      modifies this`left7, this`right25, this`next, this`log, vram
      ensures Valid() && At(all, PartAt(at, Need(k - 1), 3))
      ensures log + Quad(k - 1, Pixel(r4, g4, b4), all, PartAt(at, Need(k - 1), 3), x + half, y + half)
           == old(log) + Quad(k, Pixel(r, g, b), all, at, x, y)
      decreases k, 0
    {
      hide Pending;
      ghost var root := Pixel(r, g, b);
      QuadUnfold(log, k, root, all, at, x, y);
      var fr, fg, fb := ReadQuarters(r, g, b, all, at);
      OneQuarter(fr.p1, fg.p1, fb.p1, half, x, y, k, all, at, root, x, y, 0);
      OneQuarter(fr.p2, fg.p2, fb.p2, half, x + half, y, k, all, at, root, x, y, 1);
      OneQuarter(fr.p3, fg.p3, fb.p3, half, x, y + half, k, all, at, root, x, y, 2);
      r4, g4, b4 := fr.p4, fg.p4, fb.p4;
    }

    /** One of the three recursive calls. */
    method OneQuarter(r: int, g: int, b: int, half: nat, qx: nat, qy: nat,
        ghost k: nat, ghost all: seq<int>, ghost at: nat,
        ghost root: Pixel, ghost x: nat, ghost y: nat, ghost i: nat)
      requires Valid() && k >= 2 && half == Width(k - 1) && at + Need(k) < |all| && i < 3
      requires At(all, PartAt(at, Need(k - 1), i)) && Pixel(r, g, b) == Quarters(root, all, at)[i]
      requires qx == x + Right(i, half) && qy == y + Down(i, half)
      modifies this`left7, this`right25, this`next, this`log, vram
      ensures Valid() && At(all, PartAt(at, Need(k - 1), i + 1))
      ensures log == old(log) + Quarter(k, root, all, at, x, y, i)
      decreases k - 1, 2
    {
      Decode(r, g, b, half, qx, qy, k - 1, all, PartAt(at, Need(k - 1), i));
    }

    /** vlc_decoder: it stores what the plain four-way recursion stores, in the same order. */
    method Decode(r: int, g: int, b: int, width: nat, x: nat, y: nat, ghost k: nat, ghost all: seq<int>, ghost at: nat)
      requires Valid() && k >= 1 && width == Width(k) && At(all, at) && at + Need(k) < |all|
      modifies this`left7, this`right25, this`next, this`log, vram
      ensures Valid() && At(all, at + Need(k))
      ensures log == old(log) + Quad(k, Pixel(r, g, b), all, at, x, y)
      decreases k, 1
    {
      var w, vx, vy, vr, vg, vb := width, x, y, r, g, b;
      ghost var j: nat, here: nat := k, at;
      ghost var end, target := at + Need(k), log + Quad(k, Pixel(r, g, b), all, at, x, y);
      while w != 2
        invariant 1 <= j <= k && w == Width(j) && Valid() && At(all, here) && here + Need(j) == end
        invariant log + Quad(j, Pixel(vr, vg, vb), all, here, vx, vy) == target
        decreases j
      {
        WidthHalves(j);
        FourthPart(j, here);
        w := w / 2;
        vr, vg, vb := ThreeQuarters(vr, vg, vb, w, vx, vy, j, all, here);
        here := PartAt(here, Need(j - 1), 3);
        vy := vy + w;
        vx := vx + w;
        j := j - 1;
      }
      WidthHalves(j);
      Smallest(vr, vg, vb, vx, vy, all, here);
    }

    /** What follows the loop: the four pixels of a block of width 2. */
    method Smallest(r: int, g: int, b: int, x: nat, y: nat, ghost all: seq<int>, ghost at: nat)
      requires Valid() && At(all, at) && at + Need(1) < |all|
      modifies this`left7, this`right25, this`next, this`log, vram
      ensures Valid() && At(all, at + Need(1))
      ensures log == old(log) + Quad(1, Pixel(r, g, b), all, at, x, y)
    {
      WidthHalves(1);
      SmallestQuad(Pixel(r, g, b), all, at, x, y);
      var fr, fg, fb := ReadQuarters(r, g, b, all, at);
      WriteFour(fr, fg, fb, x, y);
    }

    /** The three coefficients that a block begins with, and its quad tree. */
    method DecodeBlock(x: nat, y: nat, ghost all: seq<int>, ghost at: nat)
      requires Valid() && At(all, at) && at + BLOCK < |all|
      modifies this`left7, this`right25, this`next, this`log, vram
      ensures Valid() && At(all, at + BLOCK) && log == old(log) + BlockStores(all, at, x, y)
    {
      BlockNeeds();
      var f, b0, b1, b2 := ReadLogic(0, all, at);
      Decode(b0, b1, b2, 16, x, y, 4, all, at + 3);
    }

    /** The start of process_segment: the first call of next_bits loads the first word. */
    method Prime(buffer: seq<Word16>)
      requires Valid() && buffer != []
      modifies this`left7, this`right25, this`next, this`words
      ensures Valid() && At(Expand(buffer), 0)
    {
      words, next := buffer, 0;
      left7 := 0;
      assert words[0..] == buffer && Run(0, right25) == [right25];
      ghost var held := Pending();
      var stale := NextBits();
      assert Pending() == held[1..] == Expand(buffer);
    }

    /** process_segment: a strip of sixteen blocks from a word buffer. */
    method ProcessSegment(buffer: seq<Word16>, x: nat)
      requires Valid() && |Expand(buffer)| > STRIP_BLOCKS * BLOCK
      modifies this, vram
      ensures Valid() && log == old(log) + Strip(Expand(buffer), x, STRIP_BLOCKS)
    {
      hide BlockStores, Run, Value, Zeros;
      ghost var all := Expand(buffer);
      Prime(buffer);
      for block := 0 to STRIP_BLOCKS
        invariant Valid() && At(all, block * BLOCK) && log == old(log) + Strip(all, x, block)
      {
        DecodeBlock(x, block * 16, all, block * BLOCK);
        AppendAssociates(old(log), Strip(all, x, block), BlockStores(all, block * BLOCK, x, block * 16));
      }
    }
  }

  // ---------- strips ----------

  const BLOCK := 768          // coefficients of a block of 16 by 16: three, and 3 * (16 * 16 - 1)
  const STRIP_BLOCKS := 16    // one more than fit the frame; the last is clipped

  lemma {:induction false} BlockNeeds()
    ensures Width(4) == 16 && 3 + Need(4) == BLOCK
  {
    assert Width(0) == 1 && Width(1) == 2 && Width(2) == 4 && Width(3) == 8;
    NeedIs(4);
  }

  /** The stores of the block whose coefficients start at `at`. */
  function BlockStores(c: seq<int>, at: nat, x: int, y: int): seq<Store>
    requires at + BLOCK <= |c|
  {
    BlockNeeds();
    Quad(4, Pixel(c[at], c[at + 1], c[at + 2]), c, at + 3, x, y)
  }

  /** The stores of the first n blocks of a strip. */
  function Strip(c: seq<int>, x: int, n: nat): seq<Store>
    requires n * BLOCK <= |c|
  {
    if n == 0 then [] else Strip(c, x, n - 1) + BlockStores(c, (n - 1) * BLOCK, x, (n - 1) * 16)
  }

  /** The coefficients of the first n blocks of a strip of a picture. */
  function EncodeStrip(picture: Picture, x: int, n: nat): (c: seq<int>)
    ensures |c| == n * BLOCK
  {
    if n == 0 then [] else EncodeStrip(picture, x, n - 1) + EncodeBlock(picture, x, (n - 1) * 16)
  }

  function EncodeBlock(picture: Picture, x: int, y: int): (c: seq<int>)
    ensures |c| == BLOCK
  {
    BlockNeeds();
    var e := Encode(4, picture, x, y);
    [e.root.r, e.root.g, e.root.b] + e.c
  }

  lemma {:induction false} StripCovers(c: seq<int>, x: int, n: nat, px: int, py: int)
    requires n * BLOCK <= |c|
    ensures Count(Strip(c, x, n), px, py) == if x <= px < x + 16 && 0 <= py < 16 * n then 1 else 0
  {
    if n > 0 {
      StripCovers(c, x, n - 1, px, py);
      BlockCovers(c, (n - 1) * BLOCK, x, (n - 1) * 16, px, py);
      CountConcat(Strip(c, x, n - 1), BlockStores(c, (n - 1) * BLOCK, x, (n - 1) * 16), px, py);
    }
  }

  lemma {:induction false} BlockCovers(c: seq<int>, at: nat, x: int, y: int, px: int, py: int)
    requires at + BLOCK <= |c|
    ensures Count(BlockStores(c, at, x, y), px, py) == if Inside(x, y, 16, px, py) then 1 else 0
  {
    BlockNeeds();
    QuadCovers(4, Pixel(c[at], c[at + 1], c[at + 2]), c, at + 3, x, y, px, py);
  }

  /** Decoding an encoded strip stores the picture. */
  lemma {:induction false} StripShows(picture: Picture, x: int, n: nat, c: seq<int>)
    requires Holds(c, 0, EncodeStrip(picture, x, n)) && n * BLOCK <= |c|
    ensures Shows(Strip(c, x, n), picture)
  {
    if n > 0 {
      var at := (n - 1) * BLOCK;
      HoldsConcat(c, 0, EncodeStrip(picture, x, n - 1), EncodeBlock(picture, x, (n - 1) * 16));
      BlockShows(picture, x, (n - 1) * 16, c, at);
      StripShows(picture, x, n - 1, c);
      ShowsConcat(Strip(c, x, n - 1), BlockStores(c, at, x, (n - 1) * 16), picture);
    }
  }

  lemma {:induction false} BlockShows(picture: Picture, x: int, y: int, c: seq<int>, at: nat)
    requires Holds(c, at, EncodeBlock(picture, x, y))
    ensures Shows(BlockStores(c, at, x, y), picture)
  {
    BlockNeeds();
    var e := Encode(4, picture, x, y);
    var first := [e.root.r, e.root.g, e.root.b];
    HoldsConcat(c, at, first, e.c);
    assert c[at + 0] == first[0] && c[at + 1] == first[1] && c[at + 2] == first[2];
    DecodeEncode(4, picture, x, y, c, at + 3);
  }

  lemma {:induction false} AfterShows(stores: seq<Store>, picture: Picture, x: int, y: int, before: Cell)
    requires Shows(stores, picture)
    ensures After(stores, x, y, before) == if Count(stores, x, y) > 0 then CellOf(picture(x, y)) else before
  {
    if stores != [] {
      var n := |stores| - 1;
      assert stores == stores[..n] + [stores[n]] && [stores[n]][1..] == [];
      CountConcat(stores[..n], [stores[n]], x, y);
      AfterShows(stores[..n], picture, x, y, before);
    }
  }

  lemma {:induction false} AfterConcat(a: seq<Store>, b: seq<Store>, x: int, y: int, before: Cell)
    ensures After(a + b, x, y, before) == After(b, x, y, After(a, x, y, before))
    decreases |b|
  {
    if b == [] {
      assert a + b == a;
    } else {
      var n := |b| - 1;
      assert (a + b)[..|a + b| - 1] == a + b[..n];
      AfterConcat(a, b[..n], x, y, before);
    }
  }

  /**
   A strip of any picture, encoded and decoded: every cell of the strip shows the picture, and every
   other cell is as before.
   */
  lemma {:induction false} StripRoundTrip(picture: Picture, xPos: int, words: seq<Word16>, log: seq<Store>, x: int,
      y: int)
    requires |Expand(words)| > STRIP_BLOCKS * BLOCK && Holds(Expand(words), 0, EncodeStrip(picture, xPos, STRIP_BLOCKS))
    ensures After(log + Strip(Expand(words), xPos, STRIP_BLOCKS), x, y, Colour(0)) ==
      if xPos <= x < xPos + 16 && 0 <= y < 256 then CellOf(picture(x, y)) else After(log, x, y, Colour(0))
  {
    var strip := Strip(Expand(words), xPos, STRIP_BLOCKS);
    AfterConcat(log, strip, x, y, Colour(0));
    StripShows(picture, xPos, STRIP_BLOCKS, Expand(words));
    StripCovers(Expand(words), xPos, STRIP_BLOCKS, x, y);
    AfterShows(strip, picture, x, y, After(log, x, y, Colour(0)));
  }

  // ---------- words for coefficients ----------

  predicate SevenBits(c: seq<int>) {
    forall i :: 0 <= i < |c| ==> -64 <= c[i] < 64
  }

  /** The words for some zeros and then the coefficients c: each run of up to 511 zeros is put in one word. */
  function WordsOf(zeros: nat, c: seq<int>): seq<Word16>
    requires SevenBits(c) && zeros < 512
    decreases |c|
  {
    if c == [] then (if zeros == 0 then [] else [MakeWord(zeros - 1, 0)])
    else if c[0] == 0 && zeros < 511 then WordsOf(zeros + 1, c[1..])
    else [MakeWord(zeros, c[0])] + WordsOf(0, c[1..])
  }

  /** Any coefficients of seven bits can be put into words with zero runs, and the words give them back. */
  lemma {:induction false} WordsExpand(zeros: nat, c: seq<int>)
    requires SevenBits(c) && zeros < 512
    ensures Expand(WordsOf(zeros, c)) == seq(zeros, _ => 0) + c
    decreases |c|
  {
    hide MakeWord, Run, Zeros;
    if c == [] {
      if zeros > 0 {
        WordGives(zeros - 1, 0, []);
      }
    } else if c[0] == 0 && zeros < 511 {
      WordsExpand(zeros + 1, c[1..]);
      assert seq(zeros + 1, _ => 0) + c[1..] == seq(zeros, _ => 0) + c;
    } else {
      WordsExpand(0, c[1..]);
      WordGives(zeros, c[0], WordsOf(0, c[1..]));
      assert seq(zeros, _ => 0) + [c[0]] + c[1..] == seq(zeros, _ => 0) + c;
    }
  }

  /** Zeros and the coefficient other than zero that ends them take one word. */
  lemma {:induction false} RunTakesOneWord(zeros: nat, run: nat, v: int)
    requires zeros + run < 512 && -64 <= v < 64 && v != 0
    ensures WordsOf(zeros, seq(run, _ => 0) + [v]) == [MakeWord(zeros + run, v)]
    decreases run
  {
    var c := seq(run, _ => 0) + [v];
    if run > 0 {
      assert c[1..] == seq(run - 1, _ => 0) + [v];
      RunTakesOneWord(zeros + 1, run - 1, v);
    } else {
      assert c[1..] == [];
    }
  }

  lemma {:induction false} RunInRange(zeros: nat, v: int, i: nat)
    requires -64 <= v < 64 && i <= zeros
    ensures -64 <= Run(zeros, v)[i] < 64
    decreases zeros
  {
    if zeros > 0 && i > 0 {
      RunInRange(zeros - 1, v, i - 1);
    }
  }

  /** No words give a coefficient of more than seven bits. */
  lemma {:induction false} ExpandInRange(words: seq<Word16>, i: nat)
    requires i < |Expand(words)|
    ensures -64 <= Expand(words)[i] < 64
    decreases |words|
  {
    var zeros, v := Zeros(words[0]), Value(words[0]);
    if i <= zeros {
      RunInRange(zeros, v, i);
    } else {
      ExpandInRange(words[1..], i - (zeros + 1));
    }
  }

  /** A word buffer that a strip of the picture is decoded from. */
  ghost predicate Stores(words: seq<Word16>, picture: Picture, xPos: int) {
    |Expand(words)| > STRIP_BLOCKS * BLOCK && Holds(Expand(words), 0, EncodeStrip(picture, xPos, STRIP_BLOCKS))
  }

  /** A strip of a picture can be put into words exactly when its coefficients have seven bits. */
  lemma {:induction false} StripCanBeStored(picture: Picture, xPos: int)
    ensures (exists words :: Stores(words, picture, xPos))
      <==> forall c :: c in EncodeStrip(picture, xPos, STRIP_BLOCKS) ==> -64 <= c < 64
  {
    var coefficients := EncodeStrip(picture, xPos, STRIP_BLOCKS);
    if forall c :: c in coefficients ==> -64 <= c < 64 {
      var all := coefficients + [0];
      assert forall i :: 0 <= i < |coefficients| ==> coefficients[i] in coefficients;
      WordsExpand(0, all);
      assert Stores(WordsOf(0, all), picture, xPos);
    }
    forall words | Stores(words, picture, xPos)
      ensures forall c :: c in coefficients ==> -64 <= c < 64
    {
      forall i: nat | i < |coefficients|
        ensures -64 <= coefficients[i] < 64
      {
        ExpandInRange(words, i);
        assert Expand(words)[0 + i] == coefficients[i];
      }
    }
  }

  /** After the strip is decoded, its cells show the picture and the others are as before. */
  ghost predicate StripShown(words: seq<Word16>, picture: Picture, xPos: int, log: seq<Store>, x: int, y: int)
    requires Stores(words, picture, xPos)
  {
    After(log + Strip(Expand(words), xPos, STRIP_BLOCKS), x, y, Colour(0)) ==
      if xPos <= x < xPos + 16 && 0 <= y < 256 then CellOf(picture(x, y)) else After(log, x, y, Colour(0))
  }

  /** A picture whose coefficients have seven bits has words that show it in the frame. */
  lemma {:induction false} PictureRoundTrip(picture: Picture, xPos: int, log: seq<Store>) returns (words: seq<Word16>)
    requires forall c :: c in EncodeStrip(picture, xPos, STRIP_BLOCKS) ==> -64 <= c < 64
    ensures Stores(words, picture, xPos)
    ensures forall x: int, y: int :: StripShown(words, picture, xPos, log, x, y)
  {
    StripCanBeStored(picture, xPos);
    words :| Stores(words, picture, xPos);
    forall x: int, y: int
      ensures StripShown(words, picture, xPos, log, x, y)
    {
      StripRoundTrip(picture, xPos, words, log, x, y);
    }
  }

  /** A buffer with more words than a strip has coefficients is enough for a strip. */
  lemma {:induction false} BufferSuffices(words: seq<Word16>)
    requires |words| > STRIP_BLOCKS * BLOCK
    ensures |Expand(words)| > STRIP_BLOCKS * BLOCK
  {
  }

  lemma {:induction false} QuadUnfold(log: seq<Store>, k: nat, root: Pixel, c: seq<int>, at: nat, x: int, y: int)
    requires k > 0 && at + Need(k) <= |c|
    ensures var h := Width(k - 1);
      log + Quad(k, root, c, at, x, y) ==
        (log + Quarter(k, root, c, at, x, y, 0) + Quarter(k, root, c, at, x, y, 1) + Quarter(k, root, c, at, x, y, 2))
        + Quad(k - 1, Quarters(root, c, at)[3], c, PartAt(at, Need(k - 1), 3), x + h, y + h)
  {
    var s0, s1 := Quarter(k, root, c, at, x, y, 0), Quarter(k, root, c, at, x, y, 1);
    var s2, s3 := Quarter(k, root, c, at, x, y, 2), Quarter(k, root, c, at, x, y, 3);
    FourAppends(log, s0, s1, s2, s3);
  }

  lemma {:induction false} FourAppends(log: seq<Store>, s0: seq<Store>, s1: seq<Store>, s2: seq<Store>, s3: seq<Store>)
    ensures log + (s0 + (s1 + (s2 + s3))) == (log + s0 + s1 + s2) + s3
  {
  }

  lemma {:induction false} FourthPart(k: nat, at: nat)
    requires k >= 1
    ensures PartAt(at, Need(k - 1), 3) + Need(k - 1) == at + Need(k)
  {
  }

  lemma {:induction false} WidthHalves(k: nat)
    requires k >= 1
    ensures (Width(k) == 2) == (k == 1) && Width(k) / 2 == Width(k - 1)
    ensures Need(1) == 9
  {
    assert Width(0) == 1 && Need(0) == 0;
  }

  lemma {:induction false} SmallestQuad(root: Pixel, c: seq<int>, at: nat, x: int, y: int)
    requires at + Need(1) <= |c| && Need(1) == 9
    ensures var q := Quarters(root, c, at);
      Quad(1, root, c, at, x, y)
        == [Store(x, y, q[0]), Store(x + 1, y, q[1]), Store(x, y + 1, q[2]), Store(x + 1, y + 1, q[3])]
  {
    var q := Quarters(root, c, at);
    assert Need(0) == 0 && Width(0) == 1;
    assert Quarter(1, root, c, at, x, y, 0) == [Store(x, y, q[0])];
    assert Quarter(1, root, c, at, x, y, 1) == [Store(x + 1, y, q[1])];
    assert Quarter(1, root, c, at, x, y, 2) == [Store(x, y + 1, q[2])];
    assert Quarter(1, root, c, at, x, y, 3) == [Store(x + 1, y + 1, q[3])];
  }
}
