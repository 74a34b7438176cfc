/** The AE sprite decoder for depth 4: fields of four bits, two pixels to a byte. */
module CompressionType6Ae {
  import opened Bytes
  import opened Buffers
  import opened Sequences
  import opened PowersOfTwo
  import opened BitWindows
  import opened FieldStreams
  import opened SpriteRows

  /** Pixel j of a buffer: the low half of a byte, then the high half. */
  function NibbleAt(buffer: seq<byte>, j: nat): nat
    requires j < 2 * |buffer|
  {
    if j % 2 == 0 then buffer[j / 2] % 16 else buffer[j / 2] / 16
  }

  /** All pixels of a buffer. */
  function Nibbles(buffer: seq<byte>): (pixels: seq<nat>)
    ensures |pixels| == 2 * |buffer| && forall j :: 0 <= j < |pixels| ==> pixels[j] == NibbleAt(buffer, j)
  {
    seq(2 * |buffer|, j requires 0 <= j < 2 * |buffer| => NibbleAt(buffer, j))
  }

  /** The buffer holds these pixels, and zeros after them. */
  predicate Shows(buffer: seq<byte>, pixels: seq<nat>) {
    && |pixels| <= 2 * |buffer|
    && forall j: nat :: j < 2 * |buffer| ==> NibbleAt(buffer, j) == if j < |pixels| then pixels[j] else 0
  }

  /** A place in the buffer as the decoder keeps it. */
  function Place(dstPos: nat, skip: bool): nat {
    2 * dstPos + if skip then 1 else 0
  }

  lemma {:induction false} ByteOfNibbles(buffer: seq<byte>, d: nat)
    requires d < |buffer|
    ensures buffer[d] == NibbleAt(buffer, 2 * d) + 16 * NibbleAt(buffer, 2 * d + 1)
  {
  }

  /** A pixel put at the end of those shown. */
  lemma {:induction false} ShowsNext(before: seq<byte>, pixels: seq<nat>, d: nat, skip: bool, v: nat, b: byte)
    requires Shows(before, pixels) && Place(d, skip) == |pixels| && d < |before| && v < 16
    requires b == if skip then before[d] + 16 * v else v
    ensures Shows(before[d := b], pixels + [v])
  {
    var after := before[d := b];
    ByteOfNibbles(before, d);
    assert NibbleAt(before, 2 * d + 1) == 0;
    assert !skip ==> NibbleAt(before, 2 * d) == 0;
    forall j: nat | j < 2 * |after|
      ensures NibbleAt(after, j) == if j < |pixels + [v]| then (pixels + [v])[j] else 0
    {
      if j / 2 != d {
        assert NibbleAt(after, j) == NibbleAt(before, j);
      } else if j % 2 == 0 {
        assert j == 2 * d;
        assert NibbleAt(before, j) == before[d] % 16;
      } else {
        assert j == 2 * d + 1;
      }
    }
  }

  /** A pixel is stored: the high half is or'ed in. */
  method PutPixel(buffer: array<byte>, dstPos: nat, skip: bool, data: nat, ghost placed: seq<nat>)
      returns (d: nat, s: bool)
    requires Shows(buffer[..], placed) && Place(dstPos, skip) == |placed| && dstPos < buffer.Length && data < 16
    modifies buffer
    ensures Shows(buffer[..], placed + [data]) && Place(d, s) == |placed| + 1
  {
    ghost var before := buffer[..];
    d, s := dstPos, skip;
    if s {
      HighHalf(before, placed, d, data);
      buffer[d] := Or(buffer[d], Shl(data, 4));
      ShowsNext(before, placed, d, true, data, buffer[d]);
      assert buffer[..] == before[d := buffer[d]];
      d := d + 1;
      s := false;
    } else {
      buffer[d] := data;
      ShowsNext(before, placed, d, false, data, data);
      assert buffer[..] == before[d := buffer[d]];
      s := true;
    }
  }

  lemma {:induction false} HighHalf(buffer: seq<byte>, placed: seq<nat>, d: nat, data: nat)
    requires Shows(buffer, placed) && Place(d, true) == |placed| && d < |buffer| && data < 16
    ensures Or(buffer[d], Shl(data, 4)) == buffer[d] + 16 * data < 256
  {
    ByteOfNibbles(buffer, d);
    assert NibbleAt(buffer, 2 * d + 1) == 0;
    assert Pow2(4) == 16 && Shl(data, 1) == 2 * data && Shl(data, 2) == 4 * data && Shl(data, 3) == 8 * data;
    OrAbove(buffer[d], data, 4);
  }

  /** A background pixel: the place is cleared, or passed over. */
  method PutBlank(buffer: array<byte>, dstPos: nat, skip: bool, ghost placed: seq<nat>) returns (d: nat, s: bool)
    requires Shows(buffer[..], placed) && Place(dstPos, skip) == |placed| && dstPos < buffer.Length
    modifies buffer
    ensures Shows(buffer[..], placed + [0]) && Place(d, s) == |placed| + 1
  {
    ghost var before := buffer[..];
    d := dstPos;
    ShowsNext(before, placed, d, skip, 0, if skip then before[d] else 0);
    if skip {
      assert before[d := before[d]] == before;
      d := d + 1;
    } else {
      buffer[d] := 0;
      assert buffer[..] == before[d := 0];
    }
    s := !skip;
  }

  /** A run of background. */
  method PutBlanks(buffer: array<byte>, dstPos: nat, skip: bool, count: nat, ghost placed: seq<nat>)
      returns (d: nat, s: bool)
    requires Shows(buffer[..], placed) && Place(dstPos, skip) == |placed| && |placed| + count <= 2 * buffer.Length
    modifies buffer
    ensures Shows(buffer[..], placed + Blank(count)) && Place(d, s) == |placed| + count
  {
    d, s := dstPos, skip;
    assert placed + Blank(0) == placed;
    for i := 0 to count
      invariant Shows(buffer[..], placed + Blank(i)) && Place(d, s) == |placed| + i
    {
      d, s := PutBlank(buffer, d, s, placed + Blank(i));
      assert (placed + Blank(i)) + [0] == placed + Blank(i + 1);
    }
  }

  /** The next field of a stream that holds them. */
  method NextField(reader: NibbleReader, ghost fields: seq<nat>) returns (v: nat)
    requires reader.Valid() && reader.k < |fields| && Stored(reader.data, reader.start, 4, fields)
    requires reader.start + (|fields| + 1) / 2 <= |reader.data|
    modifies reader
    ensures reader.Valid() && reader.k == old(reader.k) + 1 && v == fields[old(reader.k)] && v < 16
  {
    StoredAt(reader.data, reader.start, 4, fields, reader.k);
    v := reader.Next();
    assert Pow2(4) == 16;
  }

  /** The pixels of a run. */
  method DecodePixels(reader: NibbleReader, buffer: array<byte>, dstPos: nat, skip: bool, count: nat,
      ghost fields: seq<nat>, ghost pixels: seq<nat>, ghost placed: seq<nat>) returns (d: nat, s: bool)
    requires reader.Valid() && Stored(reader.data, reader.start, 4, fields)
    requires reader.start + (|fields| + 1) / 2 <= |reader.data|
    requires Ahead(fields, reader.k, pixels) && count == |pixels|
    requires Shows(buffer[..], placed) && Place(dstPos, skip) == |placed| && |placed| + count <= 2 * buffer.Length
    modifies reader, buffer
    ensures reader.Valid() && reader.k == old(reader.k) + count
    ensures Shows(buffer[..], placed + pixels) && Place(d, s) == |placed| + count
  {
    d, s := dstPos, skip;
    var nibble := count;
    ghost var k, i: nat, done := reader.k, 0, placed;
    while nibble > 0
      invariant i + nibble == count && reader.Valid() && reader.k == k + i
      invariant Place(d, s) == |done| == |placed| + i && done == placed + pixels[..i] && Shows(buffer[..], done)
    {
      AheadAt(fields, k, pixels, i);
      var data := NextField(reader, fields);
      d, s := PutPixel(buffer, d, s, data, done);
      assert pixels[..i + 1] == pixels[..i] + [pixels[i]];
      AppendAssociates(placed, pixels[..i], [pixels[i]]);
      done, i := done + [pixels[i]], i + 1;
      nibble := nibble - 1;
    }
    assert pixels[..count] == pixels;
  }

  /** One run of background and one of pixels. */
  method DecodeSpan(reader: NibbleReader, buffer: array<byte>, dstPos: nat, skip: bool,
      ghost fields: seq<nat>, ghost span: Span, ghost placed: seq<nat>) returns (d: nat, s: bool, columns: nat)
    requires reader.Valid() && Stored(reader.data, reader.start, 4, fields)
    requires reader.start + (|fields| + 1) / 2 <= |reader.data|
    requires Ahead(fields, reader.k, SpanFields(span))
    requires Shows(buffer[..], placed) && Place(dstPos, skip) == |placed|
    requires |placed| + |SpanPixels(span)| <= 2 * buffer.Length
    modifies reader, buffer
    ensures reader.Valid() && reader.k == old(reader.k) + |SpanFields(span)|
    ensures Shows(buffer[..], placed + SpanPixels(span)) && columns == |SpanPixels(span)|
    ensures Place(d, s) == |placed| + columns
  {
    AheadAt(fields, reader.k, SpanFields(span), 0);
    AheadAt(fields, reader.k, SpanFields(span), 1);
    AheadSplits(fields, reader.k, [span.black, |span.pixels|], span.pixels);
    var black := NextField(reader, fields);
    d, s := PutBlanks(buffer, dstPos, skip, black, placed);
    var count := NextField(reader, fields);
    AppendAssociates(placed, Blank(span.black), span.pixels);
    d, s := DecodePixels(reader, buffer, d, s, count, fields, span.pixels, placed + Blank(span.black));
    columns := black + count;
  }

  /** Run i of a row. */
  method DecodeNextSpan(reader: NibbleReader, buffer: array<byte>, dstPos: nat, skip: bool,
      ghost fields: seq<nat>, ghost row: seq<Span>, ghost i: nat, ghost placed: seq<nat>)
      returns (d: nat, s: bool, columns: nat)
    requires reader.Valid() && Stored(reader.data, reader.start, 4, fields)
    requires reader.start + (|fields| + 1) / 2 <= |reader.data|
    requires i < |row| && Ahead(fields, reader.k, RowFields(row[i..]))
    requires Shows(buffer[..], placed) && Place(dstPos, skip) == |placed|
    requires |placed| + |SpanPixels(row[i])| <= 2 * buffer.Length
    modifies reader, buffer
    ensures reader.Valid() && Ahead(fields, reader.k, RowFields(row[i + 1..]))
    ensures reader.k + |RowFields(row[i + 1..])| == old(reader.k) + |RowFields(row[i..])|
    ensures Shows(buffer[..], placed + SpanPixels(row[i])) && columns == |SpanPixels(row[i])|
    ensures Place(d, s) == |placed| + columns
  {
    NextSpan(row, i);
    AheadSplits(fields, reader.k, SpanFields(row[i]), RowFields(row[i + 1..]));
    d, s, columns := DecodeSpan(reader, buffer, dstPos, skip, fields, row[i], placed);
  }

  /** The runs of one row. */
  method DecodeRuns(reader: NibbleReader, buffer: array<byte>, dstPos: nat, skip: bool, w: nat,
      ghost fields: seq<nat>, ghost row: seq<Span>, ghost placed: seq<nat>) returns (d: nat, s: bool)
    requires reader.Valid() && Stored(reader.data, reader.start, 4, fields)
    requires reader.start + (|fields| + 1) / 2 <= |reader.data|
    requires Ahead(fields, reader.k, RowFields(row)) && RowFits(row, w)
    requires Shows(buffer[..], placed) && Place(dstPos, skip) == |placed| && |placed| + w <= 2 * buffer.Length
    modifies reader, buffer
    ensures reader.Valid() && reader.k == old(reader.k) + |RowFields(row)|
    ensures Shows(buffer[..], placed + RowPixels(row)) && Place(d, s) == |placed| + w
  {
    d, s := dstPos, skip;
    var widthCounter := 0;
    ghost var i, done, last := 0, placed, reader.k + |RowFields(row)|;
    assert row[0..] == row && row[..0] == [];
    while widthCounter < w
      invariant i <= |row| && reader.Valid() && Ahead(fields, reader.k, RowFields(row[i..]))
      invariant reader.k + |RowFields(row[i..])| == last
      invariant widthCounter == |RowPixels(row[..i])| <= w && Place(d, s) == |placed| + widthCounter
      invariant done == placed + RowPixels(row[..i]) && Shows(buffer[..], done)
      decreases |row| - i
    {
      RowGoesOn(row, i, w);
      NextSpan(row, i);
      var columns;
      d, s, columns := DecodeNextSpan(reader, buffer, d, s, fields, row, i, done);
      AppendAssociates(placed, RowPixels(row[..i]), SpanPixels(row[i]));
      done := done + SpanPixels(row[i]);
      widthCounter := widthCounter + columns;
      i := i + 1;
    }
    RowEnds(row, i, w);
  }

  /** The places up to a multiple of eight are background. */
  method PadRow(buffer: array<byte>, dstPos: nat, skip: bool, w: nat, ghost placed: seq<nat>) returns (d: nat, s: bool)
    requires Shows(buffer[..], placed) && Place(dstPos, skip) == |placed|
    requires |placed| + (Pad(w, 8) - w) <= 2 * buffer.Length
    modifies buffer
    ensures Shows(buffer[..], placed + Blank(Pad(w, 8) - w)) && Place(d, s) == |placed| + (Pad(w, 8) - w)
  {
    d, s := dstPos, skip;
    var widthCounter := w;
    assert placed + Blank(0) == placed;
    while widthCounter % 8 != 0
      invariant w <= widthCounter <= Pad(w, 8)
      invariant Shows(buffer[..], placed + Blank(widthCounter - w)) && Place(d, s) == |placed| + (widthCounter - w)
      decreases Pad(w, 8) - widthCounter
    {
      d, s := PutBlank(buffer, d, s, placed + Blank(widthCounter - w));
      assert (placed + Blank(widthCounter - w)) + [0] == placed + Blank(widthCounter + 1 - w);
      widthCounter := widthCounter + 1;
    }
  }

  /** One row of an image. */
  method DecodeNextRow(reader: NibbleReader, buffer: array<byte>, dstPos: nat, skip: bool, w: nat,
      ghost fields: seq<nat>, ghost rows: seq<seq<Span>>, ghost r: nat, ghost placed: seq<nat>)
      returns (d: nat, s: bool)
    requires reader.Valid() && Stored(reader.data, reader.start, 4, fields)
    requires reader.start + (|fields| + 1) / 2 <= |reader.data|
    requires r < |rows| && RowFits(rows[r], w) && Ahead(fields, reader.k, ImageFields(rows[r..]))
    requires Shows(buffer[..], placed) && Place(dstPos, skip) == |placed| && |placed| + Pad(w, 8) <= 2 * buffer.Length
    modifies reader, buffer
    ensures reader.Valid() && Ahead(fields, reader.k, ImageFields(rows[r + 1..]))
    ensures Shows(buffer[..], placed + PaddedRow(rows[r], Pad(w, 8))) && Place(d, s) == |placed| + Pad(w, 8)
  {
    assert rows[r..][1..] == rows[r + 1..];
    AheadSplits(fields, reader.k, RowFields(rows[r]), ImageFields(rows[r + 1..]));
    d, s := DecodeRuns(reader, buffer, dstPos, skip, w, fields, rows[r], placed);
    d, s := PadRow(buffer, d, s, w, placed + RowPixels(rows[r]));
    AppendAssociates(placed, RowPixels(rows[r]), Blank(Pad(w, 8) - w));
  }

  /** The loop over the rows. */
  method DecodeRows(reader: NibbleReader, buffer: array<byte>, finalW: nat, w: nat, h: nat,
      ghost fields: seq<nat>, ghost rows: seq<seq<Span>>)
    requires reader.Valid() && Stored(reader.data, reader.start, 4, fields)
    requires reader.start + (|fields| + 1) / 2 <= |reader.data|
    requires |rows| == h && finalW == Pad(w, 8) && forall r :: 0 <= r < h ==> RowFits(rows[r], w)
    requires Ahead(fields, reader.k, ImageFields(rows)) && Shows(buffer[..], []) && buffer.Length == finalW * h
    modifies reader, buffer
    ensures Shows(buffer[..], Layout(rows, finalW))
  {
    var dstPos, skip := 0, false;
    assert rows[0..] == rows && rows[..0] == [];
    for r := 0 to h
      invariant reader.Valid() && Ahead(fields, reader.k, ImageFields(rows[r..]))
      invariant Place(dstPos, skip) == |Layout(rows[..r], finalW)| == r * finalW
      invariant Shows(buffer[..], Layout(rows[..r], finalW))
    {
      RowFitsIn(finalW, r, h);
      assert rows[..r + 1][..r] == rows[..r];
      dstPos, skip := DecodeNextRow(reader, buffer, dstPos, skip, w, fields, rows, r, Layout(rows[..r], finalW));
    }
    assert rows[..h] == rows;
  }

  /**
   Decompress: for a stream that holds rows which end exactly at the frame's width, the half bytes of the output
   are the rows one below the other, so that pixel c of row r is half byte r * finalW + c, and then zeros.
   */
  method Decompress(data: seq<byte>, start: nat, finalW: nat, w: nat, h: nat, ghost rows: seq<seq<Span>>)
      returns (image: seq<byte>)
    requires start <= |data| && |rows| == h && finalW == FixedWidth4(w)
    requires forall r :: 0 <= r < h ==> RowFits(rows[r], w)
    requires Stored(data, start, 4, ImageFields(rows)) && start + (|ImageFields(rows)| + 1) / 2 <= |data|
    ensures |image| == finalW * h && Shows(image, Layout(rows, finalW))
    ensures forall r: nat, c: nat :: r < h && c < finalW ==> PixelAt(Nibbles(image), rows, w, finalW, r, c)
  {
    hide Pad, RowFields, RowPixels, Stored;
    PadsMatchStrides(w);
    var size: nat := finalW * h;
    var buffer := NewZeros(size);
    var reader := new NibbleReader(data, start);
    DecodeRows(reader, buffer, finalW, w, h, ImageFields(rows), rows);
    image := buffer[..];
    ShownFirst(image, Layout(rows, finalW));
    PixelsInPlace(Nibbles(image), rows, w, finalW);
  }

  lemma {:induction false} ShownFirst(buffer: seq<byte>, pixels: seq<nat>)
    requires Shows(buffer, pixels)
    ensures pixels <= Nibbles(buffer)
  {
  }
}
