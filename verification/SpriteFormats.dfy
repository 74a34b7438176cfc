/** The sprite formats in plain numbers: which field stands where, and which pixels or bytes it gives. */
module SpriteFormats {
  import opened Bytes
  import opened Sequences
  import opened SpriteRows
  import opened BytePairGrammar
  import AE = CompressionType6Ae
  import AO = CompressionType3
  import PSX = CompressionType6or7AePsx

  // ---------- AE, rows of runs ----------

  /** The fields of the first i runs of a row: for each run two, and one for each of its pixels. */
  function FieldsBefore(row: seq<Span>, i: nat): nat
    requires i <= |row|
  {
    if i == 0 then 0 else FieldsBefore(row, i - 1) + 2 + |row[i - 1].pixels|
  }

  /** The columns of the first i runs of a row. */
  function ColumnsBefore(row: seq<Span>, i: nat): nat
    requires i <= |row|
  {
    if i == 0 then 0 else ColumnsBefore(row, i - 1) + row[i - 1].black + |row[i - 1].pixels|
  }

  lemma {:induction false} RowFieldsAppend(a: seq<Span>, b: seq<Span>)
    ensures RowFields(a + b) == RowFields(a) + RowFields(b)
  {
    if a == [] {
      assert a + b == b;
    } else {
      assert (a + b)[1..] == a[1..] + b;
      RowFieldsAppend(a[1..], b);
    }
  }

  /** The fields and the pixels of a row up to run i. */
  lemma {:induction false} RowCut(row: seq<Span>, i: nat)
    requires i <= |row|
    ensures |RowFields(row[..i])| == FieldsBefore(row, i) && |RowPixels(row[..i])| == ColumnsBefore(row, i)
    ensures RowFields(row) == RowFields(row[..i]) + RowFields(row[i..])
    ensures RowPixels(row[..i]) <= RowPixels(row)
  {
    assert row == row[..i] + row[i..];
    RowFieldsAppend(row[..i], row[i..]);
    RowLengths(row, i);
    PixelsPrefix(row, i);
  }

  lemma {:induction false} RowLengths(row: seq<Span>, i: nat)
    requires i <= |row|
    ensures |RowFields(row[..i])| == FieldsBefore(row, i) && |RowPixels(row[..i])| == ColumnsBefore(row, i)
  {
    if i > 0 {
      RowLengths(row, i - 1);
      assert row[..i] == row[..i - 1] + [row[i - 1]] && row[..i][..i - 1] == row[..i - 1];
      RowFieldsAppend(row[..i - 1], [row[i - 1]]);
      assert [row[i - 1]][1..] == [];
    }
  }

  lemma {:induction false} PixelsPrefix(row: seq<Span>, i: nat)
    requires i <= |row|
    ensures RowPixels(row[..i]) <= RowPixels(row)
    decreases |row|
  {
    if i < |row| {
      PixelsPrefix(row[..|row| - 1], i);
      assert row[..|row| - 1][..i] == row[..i];
    } else {
      assert row[..i] == row;
    }
  }

  /**
   Run i of a row: first the number of background pixels, then the number of pixels, then the pixels; they are
   shown in this order from the column on at which the runs before it end.
   */
  lemma {:induction false} SpanAt(row: seq<Span>, i: nat)
    requires i < |row|
    ensures var f, c, n := FieldsBefore(row, i), ColumnsBefore(row, i), |row[i].pixels|;
      && f + 2 + n <= |RowFields(row)| && c + row[i].black + n <= |RowPixels(row)|
      && RowFields(row)[f] == row[i].black && RowFields(row)[f + 1] == n
      && RowFields(row)[f + 2..f + 2 + n] == row[i].pixels
      && (forall j :: c <= j < c + row[i].black ==> RowPixels(row)[j] == 0)
      && RowPixels(row)[c + row[i].black..c + row[i].black + n] == row[i].pixels
  {
    hide FieldsBefore, ColumnsBefore, RowFields, RowPixels, SpanFields, SpanPixels;
    var f, c, n := FieldsBefore(row, i), ColumnsBefore(row, i), |row[i].pixels|;
    RowCut(row, i);
    RowCut(row, i + 1);
    NextSpan(row, i);
    var rest := RowFields(row[i + 1..]);
    assert RowFields(row) == RowFields(row[..i]) + (SpanFields(row[i]) + rest);
    SliceOfThree(RowFields(row[..i]), SpanFields(row[i]), rest);
    var before, span := RowPixels(row[..i]), SpanPixels(row[i]);
    assert RowPixels(row)[..c + |span|] == before + span;
    assert RowPixels(row) == before + span + RowPixels(row)[c + |span|..];
    SliceOfThree(before, span, RowPixels(row)[c + |span|..]);
    SpanParts(RowFields(row), RowPixels(row), f, c, row[i]);
  }

  lemma {:induction false} SliceOfThree(a: seq<nat>, b: seq<nat>, c: seq<nat>)
    ensures (a + (b + c))[|a|..|a| + |b|] == b && (a + b + c)[|a|..|a| + |b|] == b
  {
  }

  lemma {:induction false} SpanParts(fields: seq<nat>, pixels: seq<nat>, f: nat, c: nat, span: Span)
    requires f + |SpanFields(span)| <= |fields| && fields[f..f + |SpanFields(span)|] == SpanFields(span)
    requires c + |SpanPixels(span)| <= |pixels| && pixels[c..c + |SpanPixels(span)|] == SpanPixels(span)
    ensures var n := |span.pixels|;
      && f + 2 + n <= |fields| && c + span.black + n <= |pixels|
      && fields[f] == span.black && fields[f + 1] == n && fields[f + 2..f + 2 + n] == span.pixels
      && (forall j :: c <= j < c + span.black ==> pixels[j] == 0)
      && pixels[c + span.black..c + span.black + n] == span.pixels
  {
    var s, t := fields[f..f + |SpanFields(span)|], pixels[c..c + |SpanPixels(span)|];
    assert s[0] == span.black && s[1] == |span.pixels| && s[2..] == span.pixels;
    assert forall j :: c <= j < c + span.black ==> pixels[j] == t[j - c];
    assert t[span.black..] == span.pixels;
  }

  /** Depth 4: two pixels to a byte, the left one in the low half. */
  lemma {:induction false} TwoPixels(image: seq<byte>, rows: seq<seq<Span>>, w: nat, stride: nat, r: nat, b: nat)
    requires stride % 2 == 0 && r < |rows| && 2 * b + 1 < stride && |RowPixels(rows[r])| == w
    requires PixelAt(AE.Nibbles(image), rows, w, stride, r, 2 * b)
    requires PixelAt(AE.Nibbles(image), rows, w, stride, r, 2 * b + 1)
    ensures 0 <= r * (stride / 2) + b < |image|
    ensures image[r * (stride / 2) + b] ==
      (if 2 * b < w then RowPixels(rows[r])[2 * b] else 0)
      + 16 * (if 2 * b + 1 < w then RowPixels(rows[r])[2 * b + 1] else 0)
  {
    var half, at := stride / 2, r * (stride / 2) + b;
    Twice(r, half);
    assert r * stride + 2 * b == 2 * at;
    AE.ByteOfNibbles(image, at);
  }

  lemma {:induction false} Twice(r: nat, half: nat)
    ensures r * (2 * half) == 2 * (r * half) && r * half >= 0
  {
  }

  // ---------- AO ----------

  /** A field below 32 is one less than a run of background. */
  lemma {:induction false} BackgroundField(f: seq<nat>)
    requires f != [] && f[0] < 32
    ensures AO.Pixels(f) == seq(f[0] + 1, _ => 0) + AO.Pixels(f[1..])
  {
    assert Blank(f[0] + 1) == seq(f[0] + 1, _ => 0);
  }

  /** A field from 32 on says how many of the fields after it are pixels, one for 32; missing ones are background. */
  lemma {:induction false} PixelField(f: seq<nat>)
    requires f != [] && f[0] >= 32
    ensures var n := f[0] - 31;
      AO.Pixels(f) ==
        if 1 + n <= |f| then f[1..1 + n] + AO.Pixels(f[1 + n..]) else f[1..] + seq(1 + n - |f|, _ => 0)
  {
    hide AO.Pixels;
    var n := f[0] - 31;
    AO.PixelsUnfold(f);
    if 1 + n <= |f| {
      assert AO.RunOf(f[1..], n) == f[1..1 + n];
    } else {
      assert AO.RunOf(f[1..], n) == f[1..] + seq(1 + n - |f|, _ => 0);
      assert f[1 + AO.Taken(n, |f| - 1)..] == [];
      NoFields();
    }
  }

  lemma {:induction false} NoFields()
    ensures AO.Pixels([]) == []
  {
  }

  // ---------- PSX ----------

  /** A symbol that stands for itself gives itself; a pair gives what its first field gives, then its second. */
  lemma {:induction false} PairGives(block: PSX.Block, size: nat, s: nat)
    requires block.Fits(size) && s in block.g.used
    ensures s < size && match PSX.Entries(block.pieces)[s]
      case Own => block.g.Yield(s) == [s as byte]
      case Pair(l, r) =>
        l in block.g.used && r in block.g.used && block.g.Yield(s) == block.g.Yield(l) + block.g.Yield(r)
  {
    var e := PSX.Entries(block.pieces)[s];
    if e.Pair? {
      PairIsNotOwn(block.pieces, 0, size, s);
    }
  }

  /** The left half of a pair is not the symbol itself. */
  lemma {:induction false} PairIsNotOwn(pieces: seq<PSX.Piece>, p: nat, size: nat, i: nat)
    requires PSX.PiecesFit(p, pieces, size) && i < |PSX.Entries(pieces)| && PSX.Entries(pieces)[i].Pair?
    ensures PSX.Entries(pieces)[i].l != p + i
    decreases |pieces|
  {
    var first := PSX.PieceEntries(pieces[0]);
    if i >= |first| {
      PairIsNotOwn(pieces[1..], p + |first|, size, i - |first|);
    }
  }

  /** A block begins with its first piece, whose entries are the symbol itself, or the two halves of a pair. */
  lemma {:induction false} EntryIs(p: nat, entries: seq<PSX.Entry>)
    requires entries != []
    ensures PSX.EntriesFields(p, entries)
         == (match entries[0] case Own => [p] case Pair(l, r) => [l, r]) + PSX.EntriesFields(p + 1, entries[1..])
  {
  }

  /**
   A piece of a table: a field below half the size is one less than the number of entries that follow; another is
   the number of symbols that stand for themselves, more than half the size less one, and one entry follows unless
   the table is full.
   */
  lemma {:induction false} PieceIs(p: nat, piece: PSX.Piece, size: nat)
    requires size >= 2 && size % 2 == 0 && PSX.PieceFits(p, piece, size)
    ensures var f := PSX.PieceFields(p, piece, size / 2);
      && f != []
      && (f[0] <= size / 2 - 1 ==> piece.skip == 0 && |piece.entries| == f[0] + 1)
      && (f[0] > size / 2 - 1 ==>
        && piece.skip == f[0] - (size / 2 - 1)
        && |piece.entries| == if p + piece.skip == size then 0 else 1)
      && f[1..] == PSX.EntriesFields(p + piece.skip, piece.entries)
  {
  }

  /** After its table a block has the number of its symbols, high part first, and the symbols. */
  lemma {:induction false} BlockIs(block: PSX.Block, size: nat)
    requires size >= 2
    ensures var t, f := |PSX.TableFields(0, block.pieces, size / 2)|, block.Fields(size);
      && |f| == t + 2 + |block.symbols| && f[..t] == PSX.TableFields(0, block.pieces, size / 2)
      && f[t] * size + f[t + 1] == |block.symbols| && f[t + 1] < size
      && f[t + 2..] == block.symbols
  {
    var n := |block.symbols|;
    assert n == n / size * size + n % size && 0 <= n % size < size;
  }
}
