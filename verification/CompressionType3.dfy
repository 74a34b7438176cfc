/** The AO sprite decoder: fields of six bits, each a run of background or the length of a run of pixels. */
module CompressionType3 {
  import opened Bytes
  import opened Buffers
  import opened Sequences
  import opened BitWindows
  import opened FieldStreams
  import opened SpriteRows
  import opened CompressionType3Ae

  const LITERAL := 32

  /** How many pixels of a run are in the fields that follow; the fields may end first. */
  function Taken(n: nat, left: nat): (t: nat)
    ensures t <= n && t <= left
  {
    if n <= left then n else left
  }

  /** A run of n pixels: fields as far as there are any, then background. */
  function RunOf(f: seq<nat>, n: nat): (run: seq<nat>)
    ensures |run| == n
  {
    seq(n, i requires 0 <= i < n => if i < |f| then f[i] else 0)
  }

  /** The pixels that some fields stand for; a run that the fields cut short is filled with background. */
  function Pixels(f: seq<nat>): seq<nat>
    decreases |f|
  {
    if f == [] then []
    else if f[0] < LITERAL then Blank(f[0] + 1) + Pixels(f[1..])
    else
      var n := f[0] - LITERAL + 1;
      RunOf(f[1..], n) + Pixels(f[1 + Taken(n, |f| - 1)..])
  }

  /** What of the pixels is in a buffer of n places. */
  function Clip(pixels: seq<nat>, n: nat): seq<nat> {
    if |pixels| <= n then pixels else pixels[..n]
  }

  lemma {:induction false} ClipWhole(pixels: seq<nat>, n: nat)
    requires |pixels| <= n
    ensures Clip(pixels, n) == pixels
  {
  }

  /**
   Every run of pixels ends in a buffer of this size, when the fields begin at a place. Background may go on past the
   end: nothing is stored for it.
   */
  predicate Inside(f: seq<nat>, place: nat, size: nat)
    decreases |f|
  {
    if f == [] then true
    else if f[0] < LITERAL then Inside(f[1..], place + f[0] + 1, size)
    else
      var n := f[0] - LITERAL + 1;
      place + n <= size && Inside(f[1 + Taken(n, |f| - 1)..], place + n, size)
  }

  /** Fields whose pixels all fit into the buffer. */
  lemma {:induction false} FittingIsInside(f: seq<nat>, place: nat, size: nat)
    requires place + |Pixels(f)| <= size
    ensures Inside(f, place, size)
    decreases |f|
  {
    if f != [] {
      if f[0] < LITERAL {
        FittingIsInside(f[1..], place + f[0] + 1, size);
      } else {
        var n := f[0] - LITERAL + 1;
        FittingIsInside(f[1 + Taken(n, |f| - 1)..], place + n, size);
      }
    }
  }

  /** Background is there already, as far as the buffer goes. */
  lemma {:induction false} ClippedBlank(buffer: seq<byte>, placed: seq<nat>, n: nat)
    requires Shows(buffer, Clip(placed, |buffer|))
    ensures Shows(buffer, Clip(placed + Blank(n), |buffer|))
  {
  }

  /** A run of background or of pixels. */
  datatype Run = Background(n: nat) | Literal(pixels: seq<nat>) {
    predicate Fits() {
      match this
      case Background(n) => 1 <= n <= LITERAL
      case Literal(pixels) => 1 <= |pixels| <= LITERAL
    }

    function Meaning(): seq<nat> {
      match this
      case Background(n) => Blank(n)
      case Literal(pixels) => pixels
    }

    function Fields(): seq<nat>
      requires Fits()
    {
      match this
      case Background(n) => [n - 1]
      case Literal(pixels) => [LITERAL + |pixels| - 1] + pixels
    }
  }

  predicate RunsFit(runs: seq<Run>) {
    forall i :: 0 <= i < |runs| ==> runs[i].Fits()
  }

  function Encode(runs: seq<Run>): seq<nat>
    requires RunsFit(runs)
  {
    if runs == [] then [] else runs[0].Fields() + Encode(runs[1..])
  }

  function Meaning(runs: seq<Run>): seq<nat> {
    if runs == [] then [] else runs[0].Meaning() + Meaning(runs[1..])
  }

  lemma {:induction false} PixelsUnfold(f: seq<nat>)
    requires f != []
    ensures f[0] < LITERAL ==> Pixels(f) == Blank(f[0] + 1) + Pixels(f[1..])
    ensures f[0] >= LITERAL ==> var n := f[0] - LITERAL + 1;
      Pixels(f) == RunOf(f[1..], n) + Pixels(f[1 + Taken(n, |f| - 1)..])
  {
  }

  lemma {:induction false} LiteralComesBack(pixels: seq<nat>, rest: seq<nat>, f: seq<nat>)
    requires 1 <= |pixels| <= LITERAL && f == [LITERAL + |pixels| - 1] + pixels + rest
    ensures Pixels(f) == pixels + Pixels(rest)
  {
    hide Pixels;
    PixelsUnfold(f);
    assert f[1..] == pixels + rest && f[1 + |pixels|..] == rest;
    assert RunOf(pixels + rest, |pixels|) == pixels;
  }

  lemma {:induction false} RunComesBack(run: Run, rest: seq<nat>)
    requires run.Fits()
    ensures Pixels(run.Fields() + rest) == run.Meaning() + Pixels(rest)
  {
    hide Pixels, Blank, RunOf;
    var f := run.Fields() + rest;
    match run
    case Background(n) =>
      PixelsUnfold(f);
      assert f[0] == n - 1 && f[1..] == rest;
    case Literal(pixels) => LiteralComesBack(pixels, rest, f);
  }

  /** Any runs of up to 32 come back from their fields. */
  lemma {:induction false} RoundTrip(runs: seq<Run>)
    requires RunsFit(runs)
    ensures Pixels(Encode(runs)) == Meaning(runs)
  {
    if runs != [] {
      RoundTrip(runs[1..]);
      RunComesBack(runs[0], Encode(runs[1..]));
    }
  }

  /** A pixel of a run: the next field, or background when there are no more. */
  method StorePixel(reader: SixBitReader, buffer: array<byte>, dstPos: nat, count: nat,
      ghost fields: seq<nat>, ghost done: seq<nat>) returns (left: nat)
    requires reader.Valid() && Stored(reader.data, reader.start, 6, fields)
    requires LongEnough(reader.data, reader.start, |fields|)
    requires reader.k + count == |fields| && Shows(buffer[..], done) && dstPos == |done| < buffer.Length
    modifies reader, buffer
    ensures reader.Valid() && left == count - Taken(1, count) && reader.k + left == |fields|
    ensures Shows(buffer[..], done + [if count != 0 then fields[old(reader.k)] else 0])
  {
    left := count;
    var bits := 0;
    if left != 0 && dstPos < buffer.Length {
      bits := NextField(reader, fields);
      left := left - 1;
    }
    buffer[dstPos] := bits;
  }

  /** A run of pixels, one after the other. */
  method DecodeRun(reader: SixBitReader, buffer: array<byte>, start: nat, length: nat, fieldsLeft: nat,
      ghost fields: seq<nat>, ghost placed: seq<nat>) returns (dstPos: nat, left: nat)
    requires reader.Valid() && Stored(reader.data, reader.start, 6, fields)
    requires LongEnough(reader.data, reader.start, |fields|)
    requires reader.k + fieldsLeft == |fields|
    requires Shows(buffer[..], placed) && start == |placed| && start + length <= buffer.Length
    modifies reader, buffer
    ensures reader.Valid() && left == fieldsLeft - Taken(length, fieldsLeft) && reader.k + left == |fields|
    ensures dstPos == start + length && Shows(buffer[..], placed + RunOf(fields[old(reader.k)..], length))
  {
    hide LongEnough, SixBitsLeft, Stored;
    ghost var k, run, i: nat, done := reader.k, RunOf(fields[reader.k..], length), 0, placed;
    var numberOfBytes := length;
    dstPos, left := start, fieldsLeft;
    while numberOfBytes != 0
      invariant i + numberOfBytes == length && reader.Valid()
      invariant left == fieldsLeft - Taken(i, fieldsLeft) && reader.k == k + Taken(i, fieldsLeft)
      invariant dstPos == |done| == start + i && done == placed + run[..i] && Shows(buffer[..], done)
    {
      assert run[i] == if left != 0 then fields[reader.k] else 0;
      left := StorePixel(reader, buffer, dstPos, left, fields, done);
      dstPos := dstPos + 1;
      NextOfRun(placed, run, i);
      done, i := done + [run[i]], i + 1;
      numberOfBytes := numberOfBytes - 1;
    }
    assert run[..length] == run;
  }

  lemma {:induction false} NextOfRun(placed: seq<nat>, run: seq<nat>, i: nat)
    requires i < |run|
    ensures placed + run[..i + 1] == (placed + run[..i]) + [run[i]]
  {
    assert run[..i + 1] == run[..i] + [run[i]];
  }

  /**
   Decompress: `count` fields, four to each whole four bytes of data, become the pixels they stand for, as far as the
   frame goes.
   */
  method Decompress(data: seq<byte>, start: nat, finalW: nat, h: nat, dataSize: nat, ghost fields: seq<nat>)
      returns (image: seq<byte>)
    requires start <= |data| && |fields| == dataSize / 4 * 4 && Inside(fields, 0, finalW * h)
    requires Stored(data, start, 6, fields) && LongEnough(data, start, |fields|)
    ensures |image| == finalW * h && Shows(image, Clip(Pixels(fields), finalW * h))
  {
    var size: nat := finalW * h;
    var buffer := NewZeros(size);
    var reader := new SixBitReader(data, start);
    DecodeAll(reader, buffer, dataSize / 4 * 4, fields);
    image := buffer[..];
  }

  method DecodeAll(reader: SixBitReader, buffer: array<byte>, count: nat, ghost fields: seq<nat>)
    requires reader.Valid() && reader.k == 0 && Stored(reader.data, reader.start, 6, fields)
    requires LongEnough(reader.data, reader.start, |fields|) && count == |fields|
    requires Shows(buffer[..], []) && Inside(fields, 0, buffer.Length)
    modifies reader, buffer
    ensures Shows(buffer[..], Clip(Pixels(fields), buffer.Length))
  {
    hide Clip, Inside, LongEnough, Pixels, Shows, Stored, ToCome, TokenLength, TokenPixels;
    var dstPos, left := 0, count;
    ghost var done, total := [], Pixels(fields);
    AllToCome(fields, buffer.Length);
    ClipWhole([], buffer.Length);
    while left != 0
      invariant reader.Valid() && reader.k + left == |fields| && dstPos == |done|
      invariant Shows(buffer[..], Clip(done, buffer.Length)) && ToCome(fields, reader.k, done, buffer.Length, total)
    {
      TokenComes(fields, reader.k, done, buffer.Length, total);
      dstPos, left, done := DecodeToken(reader, buffer, dstPos, left, fields, done);
    }
    AllCame(fields, done, buffer.Length, total);
  }

  /** The body of the loop: one field, and the pixels of its run. */
  method DecodeToken(reader: SixBitReader, buffer: array<byte>, start: nat, count: nat,
      ghost fields: seq<nat>, ghost placed: seq<nat>) returns (dstPos: nat, left: nat, ghost done: seq<nat>)
    requires reader.Valid() && Stored(reader.data, reader.start, 6, fields)
    requires LongEnough(reader.data, reader.start, |fields|) && reader.k + count == |fields| && count > 0
    requires Shows(buffer[..], Clip(placed, buffer.Length)) && start == |placed|
    requires fields[reader.k] >= LITERAL ==> start + |TokenPixels(fields, reader.k)| <= buffer.Length
    modifies reader, buffer
    ensures reader.Valid() && reader.k + left == |fields| && left < count && dstPos == |done|
    ensures Shows(buffer[..], Clip(done, buffer.Length))
    ensures done == placed + TokenPixels(fields, old(reader.k))
    ensures reader.k == old(reader.k) + TokenLength(fields, old(reader.k))
  {
    hide Clip, RunOf, Shows, SixBitsLeft, SixBitsRead, Stored;
    ghost var next := reader.k + TokenLength(fields, reader.k);
    var bits := NextField(reader, fields);
    left := count - 1;
    if bits >= LITERAL {
      var numberOfBytes := bits - LITERAL + 1;
      done := placed + RunOf(fields[reader.k..], numberOfBytes);
      ClipWhole(placed, buffer.Length);
      ClipWhole(done, buffer.Length);
      dstPos, left := DecodeRun(reader, buffer, start, numberOfBytes, left, fields, placed);
      assert reader.k == next;
    } else {
      ClippedBlank(buffer[..], placed, bits + 1);
      dstPos := start + bits + 1;
      done := placed + Blank(bits + 1);
      assert reader.k == next;
    }
  }

  /** The pixels that the token at field k stands for, and the number of its fields. */
  function TokenPixels(fields: seq<nat>, k: nat): seq<nat>
    requires k < |fields|
  {
    if fields[k] < LITERAL then Blank(fields[k] + 1) else RunOf(fields[k + 1..], fields[k] - LITERAL + 1)
  }

  function TokenLength(fields: seq<nat>, k: nat): (n: nat)
    requires k < |fields|
    ensures k + n <= |fields|
  {
    if fields[k] < LITERAL then 1 else 1 + Taken(fields[k] - LITERAL + 1, |fields| - k - 1)
  }

  lemma {:induction false} TokenUnfold(fields: seq<nat>, k: nat, placed: seq<nat>)
    requires k < |fields|
    ensures placed + Pixels(fields[k..])
         == (placed + TokenPixels(fields, k)) + Pixels(fields[k + TokenLength(fields, k)..])
  {
    hide RunOf, Blank;
    var f := fields[k..];
    assert f[0] == fields[k] && f[1..] == fields[k + 1..];
    assert f[TokenLength(fields, k)..] == fields[k + TokenLength(fields, k)..];
    AppendAssociates(placed, TokenPixels(fields, k), Pixels(fields[k + TokenLength(fields, k)..]));
  }

  /** Some pixels are done, and the fields from place k on give the others. */
  ghost predicate ToCome(fields: seq<nat>, k: nat, done: seq<nat>, size: nat, total: seq<nat>) {
    k <= |fields| && Inside(fields[k..], |done|, size) && done + Pixels(fields[k..]) == total
  }

  lemma {:induction false} AllToCome(fields: seq<nat>, size: nat)
    requires Inside(fields, 0, size)
    ensures ToCome(fields, 0, [], size, Pixels(fields))
  {
    assert fields[0..] == fields && [] + Pixels(fields) == Pixels(fields);
  }

  lemma {:induction false} TokenInside(fields: seq<nat>, k: nat, place: nat, size: nat)
    requires k < |fields| && Inside(fields[k..], place, size)
    ensures fields[k] >= LITERAL ==> place + |TokenPixels(fields, k)| <= size
    ensures Inside(fields[k + TokenLength(fields, k)..], place + |TokenPixels(fields, k)|, size)
  {
    hide Blank, RunOf;
    var f := fields[k..];
    assert f[0] == fields[k] && f[1..] == fields[k + 1..];
    assert f[TokenLength(fields, k)..] == fields[k + TokenLength(fields, k)..];
  }

  lemma {:induction false} TokenComes(fields: seq<nat>, k: nat, done: seq<nat>, size: nat, total: seq<nat>)
    requires k < |fields| && ToCome(fields, k, done, size, total)
    ensures fields[k] >= LITERAL ==> |done| + |TokenPixels(fields, k)| <= size
    ensures ToCome(fields, k + TokenLength(fields, k), done + TokenPixels(fields, k), size, total)
  {
    hide Inside, Pixels, TokenLength, TokenPixels;
    TokenInside(fields, k, |done|, size);
    TokenUnfold(fields, k, done);
  }

  lemma {:induction false} AllCame(fields: seq<nat>, done: seq<nat>, size: nat, total: seq<nat>)
    requires ToCome(fields, |fields|, done, size, total)
    ensures done == total
  {
    assert fields[|fields|..] == [] && done + [] == done;
  }
}
