/** Sprite rows of runs: a run of background, then a run of pixels, until the row is full. */
module SpriteRows {

  datatype Span = Span(black: nat, pixels: seq<nat>)

  function Blank(n: nat): (z: seq<nat>)
    ensures |z| == n && forall i :: 0 <= i < n ==> z[i] == 0
  {
    seq(n, _ => 0)
  }

  function SpanPixels(s: Span): seq<nat> {
    Blank(s.black) + s.pixels
  }

  function RowPixels(row: seq<Span>): seq<nat> {
    if row == [] then [] else RowPixels(row[..|row| - 1]) + SpanPixels(row[|row| - 1])
  }

  /** The row is full after its last run and not before. */
  predicate RowFits(row: seq<Span>, w: nat) {
    |RowPixels(row)| == w && forall i :: 0 <= i < |row| ==> |RowPixels(row[..i])| < w
  }

  /** The fields that a run is written as: the two lengths, and the pixels. */
  function SpanFields(s: Span): seq<nat> {
    [s.black, |s.pixels|] + s.pixels
  }

  function RowFields(row: seq<Span>): seq<nat> {
    if row == [] then [] else SpanFields(row[0]) + RowFields(row[1..])
  }

  function ImageFields(rows: seq<seq<Span>>): seq<nat> {
    if rows == [] then [] else RowFields(rows[0]) + ImageFields(rows[1..])
  }

  // ---------- layout ----------

  /** w rounded up to a multiple of m. */
  function Pad(w: nat, m: nat): (p: nat)
    requires m > 0
    ensures p >= w
  {
    if w % m == 0 then w else w + (m - w % m)
  }

  /** The fixed width that a frame of depth 8 is given. */
  function FixedWidth8(w: nat): nat {
    var half := (w + 3) / 2;
    (half - half % 2) * 2
  }

  /** The fixed width that a frame of depth 4 is given. */
  function FixedWidth4(w: nat): nat {
    var quarter := (w + 7) / 4;
    (quarter - quarter % 2) * 4
  }

  /** The widths that the decoders pad rows to are those that the frames are laid out with. */
  lemma {:induction false} PadsMatchStrides(w: nat)
    ensures Pad(w, 4) == FixedWidth8(w) && Pad(w, 8) == FixedWidth4(w)
  {
    PadOf4(w, w / 4, w % 4);
    PadOf8(w, w / 8, w % 8);
  }

  lemma {:induction false} PadOf4(w: nat, q: nat, r: nat)
    requires w == 4 * q + r && r < 4
    ensures Pad(w, 4) == FixedWidth8(w) == 4 * q + if r == 0 then 0 else 4
  {
    var half := (w + 3) / 2;
    assert half == 2 * q + (r + 3) / 2;
    assert half - half % 2 == 2 * q + if r == 0 then 0 else 2;
    assert w % 4 == r;
  }

  lemma {:induction false} PadOf8(w: nat, q: nat, r: nat)
    requires w == 8 * q + r && r < 8
    ensures Pad(w, 8) == FixedWidth4(w) == 8 * q + if r == 0 then 0 else 8
  {
    var quarter := (w + 7) / 4;
    assert w + 7 == 4 * (2 * q + 1) + (r + 3);
    assert quarter == 2 * q + 1 + (r + 3) / 4;
    assert (r + 3) / 4 == if r == 0 then 0 else if r <= 4 then 1 else 2;
    assert w / 8 == q && w % 8 == r;
  }

  /** A row with its padding. */
  function PaddedRow(row: seq<Span>, stride: nat): seq<nat> {
    RowPixels(row) + Blank(if stride >= |RowPixels(row)| then stride - |RowPixels(row)| else 0)
  }

  /** The rows one below the other. */
  function Layout(rows: seq<seq<Span>>, stride: nat): seq<nat> {
    if rows == [] then [] else Layout(rows[..|rows| - 1], stride) + PaddedRow(rows[|rows| - 1], stride)
  }

  lemma {:induction false} LayoutLength(rows: seq<seq<Span>>, w: nat, stride: nat)
    requires w <= stride && forall r :: 0 <= r < |rows| ==> RowFits(rows[r], w)
    ensures |Layout(rows, stride)| == |rows| * stride
  {
    if rows != [] {
      LayoutLength(rows[..|rows| - 1], w, stride);
      assert (|rows| - 1) * stride + stride == |rows| * stride;
    }
  }

  /** Pixel c of row r is at r * stride + c. */
  lemma {:induction false} LayoutAt(rows: seq<seq<Span>>, w: nat, stride: nat, r: nat, c: nat)
    requires w <= stride && r < |rows| && c < stride && forall i :: 0 <= i < |rows| ==> RowFits(rows[i], w)
    ensures r * stride + c < |Layout(rows, stride)| && |RowPixels(rows[r])| == w
    ensures Layout(rows, stride)[r * stride + c] == if c < w then RowPixels(rows[r])[c] else 0
  {
    var before := rows[..|rows| - 1];
    LayoutLength(before, w, stride);
    LayoutLength(rows, w, stride);
    if r == |rows| - 1 {
      assert PaddedRow(rows[r], stride)[c] == Layout(rows, stride)[r * stride + c];
    } else {
      LayoutAt(before, w, stride, r, c);
    }
  }

  /** The place of pixel c of row r holds that pixel, or zero when it is past the row's width. */
  predicate PixelAt(pixels: seq<nat>, rows: seq<seq<Span>>, w: nat, stride: nat, r: nat, c: nat)
    requires r < |rows|
  {
    && |RowPixels(rows[r])| == w && 0 <= r * stride + c < |pixels|
    && pixels[r * stride + c] == if c < w then RowPixels(rows[r])[c] else 0
  }

  /** Pixels that begin with the laid-out rows have every pixel in its place. */
  lemma {:induction false} PixelsInPlace(pixels: seq<nat>, rows: seq<seq<Span>>, w: nat, stride: nat)
    requires w <= stride && forall i :: 0 <= i < |rows| ==> RowFits(rows[i], w)
    requires Layout(rows, stride) <= pixels
    ensures forall r: nat, c: nat :: r < |rows| && c < stride ==> PixelAt(pixels, rows, w, stride, r, c)
  {
    forall r: nat, c: nat | r < |rows| && c < stride
      ensures PixelAt(pixels, rows, w, stride, r, c)
    {
      PixelInPlace(pixels, rows, w, stride, r, c);
    }
  }

  lemma {:induction false} PixelInPlace(pixels: seq<nat>, rows: seq<seq<Span>>, w: nat, stride: nat, r: nat, c: nat)
    requires w <= stride && forall i :: 0 <= i < |rows| ==> RowFits(rows[i], w)
    requires Layout(rows, stride) <= pixels && r < |rows| && c < stride
    ensures PixelAt(pixels, rows, w, stride, r, c)
  {
    hide RowPixels;
    var layout := Layout(rows, stride);
    LayoutAt(rows, w, stride, r, c);
    assert pixels[..|layout|] == layout;
    assert layout[r * stride + c] == pixels[r * stride + c];
  }

  // ---------- stepping through a row ----------

  lemma {:induction false} NextSpan(row: seq<Span>, i: nat)
    requires i < |row|
    ensures RowFields(row[i..]) == SpanFields(row[i]) + RowFields(row[i + 1..])
    ensures RowPixels(row[..i + 1]) == RowPixels(row[..i]) + SpanPixels(row[i])
    ensures |RowPixels(row[..i + 1])| <= |RowPixels(row)|
  {
    assert row[i..][1..] == row[i + 1..];
    assert row[..i + 1][..i] == row[..i];
    PrefixShorter(row, i + 1);
  }

  lemma {:induction false} PrefixShorter(row: seq<Span>, i: nat)
    requires i <= |row|
    ensures |RowPixels(row[..i])| <= |RowPixels(row)|
    decreases |row|
  {
    if i < |row| {
      PrefixShorter(row[..|row| - 1], i);
      assert row[..|row| - 1][..i] == row[..i];
    } else {
      assert row[..i] == row;
    }
  }

  /** A row that is not full has another run. */
  lemma {:induction false} RowGoesOn(row: seq<Span>, i: nat, w: nat)
    requires RowFits(row, w) && i <= |row| && |RowPixels(row[..i])| < w
    ensures i < |row|
  {
    assert row[..|row|] == row;
  }

  /** A row that is full has no more runs. */
  lemma {:induction false} RowEnds(row: seq<Span>, i: nat, w: nat)
    requires RowFits(row, w) && i <= |row| && |RowPixels(row[..i])| >= w
    ensures i == |row| && row[..i] == row && row[i..] == []
  {
  }

  lemma {:induction false} RowFitsIn(stride: nat, r: nat, h: nat)
    requires r < h
    ensures r * stride + stride <= stride * h && r * stride + stride == (r + 1) * stride
  {
    assert (h - r - 1) * stride >= 0;
    assert stride * h == (h - r - 1) * stride + (r + 1) * stride;
  }
}
