/** The AE sprite decoder for depth 8: fields of six bits. */
module CompressionType3Ae {
  import opened Bytes
  import opened Buffers
  import opened PowersOfTwo
  import opened BitWindows
  import opened FieldStreams
  import opened Sequences
  import opened SpriteRows

  /** The buffer holds these pixels, and zeros after them. */
  predicate Shows(buffer: seq<byte>, pixels: seq<nat>) {
    |pixels| <= |buffer| && forall i :: 0 <= i < |buffer| ==> buffer[i] == if i < |pixels| then pixels[i] else 0
  }

  /** The next pixel is stored behind those shown. */
  lemma {:induction false} StoredShows(buffer: seq<byte>, pixels: seq<nat>, pixel: byte)
    requires Shows(buffer, pixels) && |pixels| < |buffer|
    ensures Shows(buffer[|pixels| := pixel], pixels + [pixel as nat])
  {
  }

  /** The rest of the stream is long enough for the fields. */
  predicate LongEnough(data: seq<byte>, start: nat, count: nat) {
    start + SixBitsRead(count) <= |data|
  }

  lemma {:induction false} ReadMonotone(a: nat, b: nat)
    requires a <= b
    ensures SixBitsRead(a) <= SixBitsRead(b)
    decreases b - a
  {
    hide SixBitsLeft;
    if a < b {
      ReadMonotone(a, b - 1);
    }
  }

  /** The next field of a stream that holds them. */
  method NextField(reader: SixBitReader, ghost fields: seq<nat>) returns (v: nat)
    requires reader.Valid() && reader.k < |fields| && Stored(reader.data, reader.start, 6, fields)
    requires LongEnough(reader.data, reader.start, |fields|)
    modifies reader
    ensures reader.Valid() && reader.k == old(reader.k) + 1 && v == fields[old(reader.k)] && v < 64
  {
    hide FromLE, Mask, Shr, SixBitsLeft, SixBitsRead, Stored;
    ReadMonotone(reader.k + 1, |fields|);
    StoredAt(reader.data, reader.start, 6, fields, reader.k);
    v := reader.Next();
    assert Pow2(6) == 64;
  }

  /** One run of background and one of pixels. */
  method DecodeSpan(reader: SixBitReader, buffer: array<byte>, dstPos: nat,
      ghost fields: seq<nat>, ghost span: Span, ghost placed: seq<nat>) returns (end: nat, columns: nat)
    requires reader.Valid() && Stored(reader.data, reader.start, 6, fields)
    requires LongEnough(reader.data, reader.start, |fields|)
    requires Ahead(fields, reader.k, SpanFields(span))
    requires Shows(buffer[..], placed) && dstPos == |placed| && dstPos + |SpanPixels(span)| <= buffer.Length
    modifies reader, buffer
    ensures reader.Valid() && reader.k == old(reader.k) + |SpanFields(span)|
    ensures Shows(buffer[..], placed + SpanPixels(span)) && end == dstPos + columns && columns == |SpanPixels(span)|
  {
    hide Ahead, LongEnough, SixBitsLeft, SixBitsRead, Stored;
    AheadAt(fields, reader.k, SpanFields(span), 0);
    AheadAt(fields, reader.k, SpanFields(span), 1);
    AheadSplits(fields, reader.k, [span.black, |span.pixels|], span.pixels);
    var blackBytes := NextField(reader, fields);
    var bytes := NextField(reader, fields);
    columns := bytes + blackBytes;
    end := dstPos + blackBytes;
    ShowsBlank(buffer[..], placed, blackBytes);
    AppendAssociates(placed, Blank(span.black), span.pixels);
    DecodePixels(reader, buffer, end, bytes, fields, span.pixels, placed + Blank(span.black));
    end := end + bytes;
  }

  /** The pixels of a run. */
  method DecodePixels(reader: SixBitReader, buffer: array<byte>, dstPos: nat, bytes: nat,
      ghost fields: seq<nat>, ghost pixels: seq<nat>, ghost placed: seq<nat>)
    requires reader.Valid() && Stored(reader.data, reader.start, 6, fields)
    requires LongEnough(reader.data, reader.start, |fields|)
    requires Ahead(fields, reader.k, pixels) && bytes == |pixels|
    requires Shows(buffer[..], placed) && dstPos == |placed| && dstPos + bytes <= buffer.Length
    modifies reader, buffer
    ensures reader.Valid() && reader.k == old(reader.k) + bytes
    ensures Shows(buffer[..], placed + pixels)
  {
    hide *;
    var end, byteCount := dstPos, bytes;
    ghost var k, i: nat, done := reader.k, 0, placed;
    while byteCount > 0
      invariant i + byteCount == bytes && reader.Valid() && reader.k == k + i
      invariant end == |done| == dstPos + i && done == placed + pixels[..i] && Shows(buffer[..], done)
    {
      AheadAt(fields, k, pixels, i);
      var dstByte := NextField(reader, fields);
      StoredShows(buffer[..], done, dstByte);
      buffer[end] := dstByte;
      assert pixels[..i + 1] == pixels[..i] + [pixels[i]];
      AppendAssociates(placed, pixels[..i], [pixels[i]]);
      done, i := done + [pixels[i]], i + 1;
      end := end + 1;
      byteCount := byteCount - 1;
    }
    assert pixels[..bytes] == pixels;
  }

  /** One row, with its padding to a multiple of four. */
  method DecodeRow(reader: SixBitReader, buffer: array<byte>, dstPos: nat, width: nat,
      ghost fields: seq<nat>, ghost row: seq<Span>, ghost placed: seq<nat>) returns (end: nat)
    requires reader.Valid() && Stored(reader.data, reader.start, 6, fields)
    requires LongEnough(reader.data, reader.start, |fields|)
    requires Ahead(fields, reader.k, RowFields(row)) && RowFits(row, width)
    requires Shows(buffer[..], placed) && dstPos == |placed| && dstPos + Pad(width, 4) <= buffer.Length
    modifies reader, buffer
    ensures reader.Valid() && reader.k == old(reader.k) + |RowFields(row)|
    ensures Shows(buffer[..], placed + PaddedRow(row, Pad(width, 4))) && end == dstPos + Pad(width, 4)
  {
    hide SixBitsRead, SpanFields, SpanPixels, Stored;
    var columnNumber := 0;
    end := dstPos;
    ghost var i, done, last := 0, placed, reader.k + |RowFields(row)|;
    assert row[0..] == row && row[..0] == [];
    while columnNumber < width
      invariant i <= |row| && reader.Valid() && Ahead(fields, reader.k, RowFields(row[i..]))
      invariant reader.k + |RowFields(row[i..])| == last
      invariant columnNumber == |RowPixels(row[..i])| <= width && end == dstPos + columnNumber
      invariant done == placed + RowPixels(row[..i]) && Shows(buffer[..], done)
      decreases |row| - i
    {
      RowGoesOn(row, i, width);
      NextSpan(row, i);
      var columns;
      end, columns := DecodeNextSpan(reader, buffer, end, fields, row, i, done);
      AppendAssociates(placed, RowPixels(row[..i]), SpanPixels(row[i]));
      done := done + SpanPixels(row[i]);
      columnNumber := columnNumber + columns;
      i := i + 1;
    }
    RowEnds(row, i, width);
    end := PadRow(columnNumber, end);
    ShowsBlank(buffer[..], done, Pad(width, 4) - width);
    AppendAssociates(placed, RowPixels(row), Blank(Pad(width, 4) - width));
  }

  /** Run i of a row. */
  method DecodeNextSpan(reader: SixBitReader, buffer: array<byte>, dstPos: nat,
      ghost fields: seq<nat>, ghost row: seq<Span>, ghost i: nat, ghost placed: seq<nat>)
      returns (end: nat, columns: nat)
    requires reader.Valid() && Stored(reader.data, reader.start, 6, fields)
    requires LongEnough(reader.data, reader.start, |fields|)
    requires i < |row| && Ahead(fields, reader.k, RowFields(row[i..]))
    requires Shows(buffer[..], placed) && dstPos == |placed| && dstPos + |SpanPixels(row[i])| <= buffer.Length
    modifies reader, buffer
    ensures reader.Valid() && Ahead(fields, reader.k, RowFields(row[i + 1..]))
    ensures reader.k + |RowFields(row[i + 1..])| == old(reader.k) + |RowFields(row[i..])|
    ensures Shows(buffer[..], placed + SpanPixels(row[i])) && end == dstPos + columns && columns == |SpanPixels(row[i])|
  {
    NextSpan(row, i);
    AheadSplits(fields, reader.k, SpanFields(row[i]), RowFields(row[i + 1..]));
    end, columns := DecodeSpan(reader, buffer, dstPos, fields, row[i], placed);
  }

  /** The places up to a multiple of four are passed over. */
  method PadRow(columns: nat, dstPos: nat) returns (end: nat)
    ensures end == dstPos + (Pad(columns, 4) - columns)
  {
    end := dstPos;
    var columnNumber := columns;
    while columnNumber % 4 != 0
      invariant columns <= columnNumber <= Pad(columns, 4) && end == dstPos + (columnNumber - columns)
      decreases Pad(columns, 4) - columnNumber
    {
      end := end + 1;
      columnNumber := columnNumber + 1;
    }
  }

  /** Zeros that were passed over are part of the picture. */
  lemma {:induction false} ShowsBlank(buffer: seq<byte>, placed: seq<nat>, n: nat)
    requires Shows(buffer, placed) && |placed| + n <= |buffer|
    ensures Shows(buffer, placed + Blank(n))
  {
  }

  /** One row of an image. */
  method DecodeNextRow(reader: SixBitReader, buffer: array<byte>, dstPos: nat, width: nat,
      ghost fields: seq<nat>, ghost rows: seq<seq<Span>>, ghost r: nat, ghost placed: seq<nat>) returns (end: nat)
    requires reader.Valid() && Stored(reader.data, reader.start, 6, fields)
    requires LongEnough(reader.data, reader.start, |fields|)
    requires r < |rows| && RowFits(rows[r], width) && Ahead(fields, reader.k, ImageFields(rows[r..]))
    requires Shows(buffer[..], placed) && dstPos == |placed| && dstPos + Pad(width, 4) <= buffer.Length
    modifies reader, buffer
    ensures reader.Valid() && Ahead(fields, reader.k, ImageFields(rows[r + 1..]))
    ensures Shows(buffer[..], placed + PaddedRow(rows[r], Pad(width, 4))) && end == dstPos + Pad(width, 4)
  {
    assert rows[r..][1..] == rows[r + 1..];
    AheadSplits(fields, reader.k, RowFields(rows[r]), ImageFields(rows[r + 1..]));
    end := DecodeRow(reader, buffer, dstPos, width, fields, rows[r], placed);
  }

  /** The loop over the rows. */
  method DecodeRows(reader: SixBitReader, buffer: array<byte>, finalW: nat, w: nat, h: nat,
      ghost fields: seq<nat>, ghost rows: seq<seq<Span>>)
    requires reader.Valid() && Stored(reader.data, reader.start, 6, fields)
    requires LongEnough(reader.data, reader.start, |fields|)
    requires |rows| == h && finalW == Pad(w, 4) && forall r :: 0 <= r < h ==> RowFits(rows[r], w)
    requires Ahead(fields, reader.k, ImageFields(rows)) && Shows(buffer[..], []) && buffer.Length == finalW * h
    modifies reader, buffer
    ensures Shows(buffer[..], Layout(rows, finalW))
  {
    var dstPos := 0;
    assert rows[0..] == rows && rows[..0] == [];
    for r := 0 to h
      invariant reader.Valid() && Ahead(fields, reader.k, ImageFields(rows[r..]))
      invariant dstPos == |Layout(rows[..r], finalW)| == r * finalW && Shows(buffer[..], Layout(rows[..r], finalW))
    {
      RowFitsIn(finalW, r, h);
      assert rows[..r + 1][..r] == rows[..r];
      dstPos := DecodeNextRow(reader, buffer, dstPos, w, fields, rows, r, Layout(rows[..r], finalW));
    }
    assert rows[..h] == rows;
  }

  /**
   Decompress: for a stream that holds rows which end exactly at the frame's width, the output is the rows one
   below the other, so that pixel c of row r is at r * finalW + c.
   */
  method Decompress(data: seq<byte>, start: nat, finalW: nat, w: nat, h: nat, ghost rows: seq<seq<Span>>)
      returns (image: seq<byte>)
    requires start <= |data| && |rows| == h && finalW == FixedWidth8(w)
    requires forall r :: 0 <= r < h ==> RowFits(rows[r], w)
    requires Stored(data, start, 6, ImageFields(rows)) && LongEnough(data, start, |ImageFields(rows)|)
    ensures |image| == finalW * h && Shows(image, Layout(rows, finalW))
    ensures forall r: nat, c: nat :: r < h && c < finalW ==> PixelAt(image, rows, w, finalW, r, c)
  {
    hide *;
    PadsMatchStrides(w);
    var size: nat := finalW * h;
    var buffer := NewZeros(size);
    var reader := new SixBitReader(data, start);
    DecodeRows(reader, buffer, finalW, w, h, ImageFields(rows), rows);
    image := buffer[..];
    PixelsInPlace(image, rows, w, finalW);
  }
}
