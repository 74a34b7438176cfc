/** The stream state of the framing code as it is kept in memory. */
module OggStream {
  import opened Options
  import opened Bytes
  import opened Buffers
  import opened Sequences
  import opened OggSegments
  import opened OggPage
  import opened OggState
  import OggDecoder

  /** A lacing value: the size in the low byte, and the flag bits 0x100, 0x200 and 0x400. */
  datatype Lacing = Lacing(size: byte, first: bool, last: bool, hole: bool)

  /** The bytes that a list of lacing values accounts for. */
  function Total(lacing: seq<Lacing>): nat {
    if lacing == [] then 0 else lacing[0].size + Total(lacing[1..])
  }

  /** The three parallel FIFOs as one list of segments. */
  function Zip(lacing: seq<Lacing>, granules: seq<int>, body: seq<byte>): (segs: seq<Seg>)
    requires |lacing| == |granules| && Total(lacing) == |body|
    ensures |segs| == |lacing|
  {
    if lacing == [] then []
    else [Entry(lacing[0], granules[0], body[..lacing[0].size])]
         + Zip(lacing[1..], granules[1..], body[lacing[0].size..])
  }

  function Entry(v: Lacing, granule: int, data: seq<byte>): Seg
    requires |data| == v.size
  {
    Seg(data, v.first, v.last, v.hole, if v.hole then 0 else granule)
  }

  predicate NoHoles(lacing: seq<Lacing>) {
    forall i :: 0 <= i < |lacing| ==> !lacing[i].hole
  }

  lemma {:induction false} TotalConcat(a: seq<Lacing>, b: seq<Lacing>)
    ensures Total(a + b) == Total(a) + Total(b)
  {
    if a == [] {
      assert a + b == b;
    } else {
      assert (a + b)[1..] == a[1..] + b;
      TotalConcat(a[1..], b);
    }
  }

  lemma {:induction false} ZipUnfold(l: seq<Lacing>, g: seq<int>, b: seq<byte>, rl: seq<Lacing>, rg: seq<int>,
      head: seq<byte>, rb: seq<byte>)
    requires |l| == |g| && Total(l) == |b| && l != []
    requires rl == l[1..] && rg == g[1..] && head == b[..l[0].size] && rb == b[l[0].size..]
    ensures Zip(l, g, b) == [Entry(l[0], g[0], head)] + Zip(rl, rg, rb)
  {
  }

  lemma {:induction false} ZipConcat(l: seq<Lacing>, g: seq<int>, b: seq<byte>, l': seq<Lacing>, g': seq<int>,
      b': seq<byte>)
    requires |l| == |g| && Total(l) == |b| && |l'| == |g'| && Total(l') == |b'|
    ensures Total(l + l') == |b + b'|
    ensures Zip(l + l', g + g', b + b') == Zip(l, g, b) + Zip(l', g', b')
  {
    TotalConcat(l, l');
    if l == [] {
      assert l + l' == l' && g + g' == g' && b + b' == b';
    } else {
      var n := l[0].size;
      var rl, rg, head, rb := l[1..], g[1..], b[..n], b[n..];
      assert (l + l')[1..] == rl + l' && (g + g')[1..] == rg + g';
      assert (b + b')[..n] == head && (b + b')[n..] == rb + b';
      ZipUnfold(l, g, b, rl, rg, head, rb);
      ZipUnfold(l + l', g + g', b + b', rl + l', rg + g', head, rb + b');
      ZipConcat(rl, rg, rb, l', g', b');
      AppendAssociates([Entry(l[0], g[0], head)], Zip(rl, rg, rb), Zip(l', g', b'));
    }
  }

  lemma {:induction false} ZipAt(l: seq<Lacing>, g: seq<int>, b: seq<byte>, i: nat)
    requires |l| == |g| && Total(l) == |b| && i < |l|
    ensures Total(l[..i]) + l[i].size <= |b|
    ensures Zip(l, g, b)[i] == Entry(l[i], g[i], b[Total(l[..i])..Total(l[..i]) + l[i].size])
  {
    var n := l[0].size;
    var rl, rg, head, rb := l[1..], g[1..], b[..n], b[n..];
    ZipUnfold(l, g, b, rl, rg, head, rb);
    TotalUnfold(l, i);
    if i > 0 {
      ZipAt(rl, rg, rb, i - 1);
      var t := Total(rl[..i - 1]);
      DropSlice(b, n, t, t + l[i].size);
      assert Zip(l, g, b)[i] == Zip(rl, rg, rb)[i - 1];
    }
  }

  lemma {:induction false} TotalUnfold(l: seq<Lacing>, i: nat)
    requires i < |l|
    ensures Total(l[..i]) == if i == 0 then 0 else l[0].size + Total(l[1..][..i - 1])
  {
    if i > 0 {
      assert l[..i][1..] == l[1..][..i - 1];
    }
  }

  lemma {:induction false} DropSlice(b: seq<byte>, n: nat, i: nat, j: nat)
    requires n <= |b| && i <= j <= |b| - n
    ensures b[n..][i..j] == b[n + i..n + j]
  {
    var x, y := b[n..][i..j], b[n + i..n + j];
    assert forall k :: 0 <= k < j - i ==> x[k] == y[k];
  }

  lemma {:induction false} ZipJoin(l: seq<Lacing>, g: seq<int>, b: seq<byte>)
    requires |l| == |g| && Total(l) == |b|
    ensures Join(Zip(l, g, b)) == b
  {
    if l != [] {
      ZipJoin(l[1..], g[1..], b[l[0].size..]);
    }
  }

  /** Taking n entries off the front of the FIFOs. */
  lemma {:induction false} ZipSplit(l: seq<Lacing>, g: seq<int>, b: seq<byte>, n: nat)
    requires |l| == |g| && Total(l) == |b| && n <= |l|
    ensures var t := Total(l[..n]);
      && t <= |b| && Total(l[n..]) == |b| - t
      && Zip(l[..n], g[..n], b[..t]) == Zip(l, g, b)[..n]
      && Zip(l[n..], g[n..], b[t..]) == Zip(l, g, b)[n..]
  {
    assert l == l[..n] + l[n..] && g == g[..n] + g[n..];
    TotalConcat(l[..n], l[n..]);
    var t := Total(l[..n]);
    assert b == b[..t] + b[t..];
    ZipConcat(l[..n], g[..n], b[..t], l[n..], g[n..], b[t..]);
  }

  lemma {:induction false} ZipTake(l: seq<Lacing>, g: seq<int>, b: seq<byte>, n: nat, bytes: nat)
    requires |l| == |g| && Total(l) == |b| && n <= |l| && bytes == Total(l[..n])
    ensures bytes <= |b| && Total(l[n..]) == |b[bytes..]|
    ensures b[..bytes] == Join(Zip(l, g, b)[..n])
    ensures Zip(l[n..], g[n..], b[bytes..]) == Zip(l, g, b)[n..]
  {
    ZipSplit(l, g, b, n);
    ZipJoin(l[..n], g[..n], b[..bytes]);
  }

  // ---- what a page adds to the FIFOs ----

  function TableVals(table: seq<byte>, bos: bool): (l: seq<Lacing>)
    ensures |l| == |table|
  {
    seq(|table|, i requires 0 <= i < |table| => Lacing(table[i], bos && i == 0, false, false))
  }

  function TableGranules(table: seq<byte>, granulepos: int): (g: seq<int>)
    ensures |g| == |table|
  {
    seq(|table|, i requires 0 <= i < |table| => if i == LastEndOf(table) then granulepos else -1)
  }

  /** The index of the last segment table entry that ends a packet, -1 when none does. */
  function LastEndOf(table: seq<byte>): (i: int)
    ensures -1 <= i < |table|
  {
    if table == [] then -1
    else if table[|table| - 1] < 255 then |table| - 1
    else LastEndOf(table[..|table| - 1])
  }

  function NoGranules(n: nat): (g: seq<int>)
    ensures |g| == n
  {
    seq(n, _ => -1)
  }

  /** The loop over the segment table begins with nothing stored. */
  lemma {:induction false} NoneStored(table: seq<byte>, l: seq<Lacing>, g: seq<int>, vals: seq<Lacing>)
    ensures LastEndOf(table[..0]) == -1 && l + vals[..0] == l && g + NoGranules(0) == g
  {
  }

  /** One turn of the loop over the segment table. */
  lemma {:induction false} TableStep(table: seq<byte>, bos: bool, i: nat, l: seq<Lacing>, g: seq<int>)
    requires i < |table|
    ensures l + TableVals(table, bos)[..i + 1] == (l + TableVals(table, bos)[..i])
      + [Lacing(table[i], bos && i == 0, false, false)]
    ensures g + NoGranules(i + 1) == (g + NoGranules(i)) + [-1]
    ensures LastEndOf(table[..i + 1]) == if table[i] < 255 then i else LastEndOf(table[..i])
  {
    assert table[..i + 1][..i] == table[..i];
    var vals, last := TableVals(table, bos), [Lacing(table[i], bos && i == 0, false, false)];
    assert vals[..i + 1] == vals[..i] + last;
  }

  /** After the loop, the granule position is put on the last entry that ends a packet. */
  lemma {:induction false} WholeTable(table: seq<byte>, vals: seq<Lacing>, g: seq<int>, granulepos: int)
    requires |vals| == |table|
    ensures table[..|table|] == table && vals[..|table|] == vals
    ensures g + TableGranules(table, granulepos) ==
      var none := g + NoGranules(|table|);
      if LastEndOf(table) == -1 then none else none[|g| + LastEndOf(table) := granulepos]
  {
  }

  lemma {:induction false} LastEndOfChunks(table: seq<byte>, chunks: seq<Chunk>)
    requires |table| == |chunks| && forall i :: 0 <= i < |table| ==> |chunks[i]| == table[i]
    ensures LastEndOf(table) == LastEnd(chunks)
  {
    if table != [] {
      LastEndOfChunks(table[..|table| - 1], chunks[..|table| - 1]);
    }
  }

  lemma {:induction false} TotalOfTable(table: seq<byte>, bos: bool)
    ensures Total(TableVals(table, bos)) == Sum(table)
  {
    if table != [] {
      TotalOfTable(table[1..], false);
      assert TableVals(table, bos)[1..] == TableVals(table[1..], false);
    }
  }

  lemma {:induction false} ZipCuts(l: seq<Lacing>, g: seq<int>, b: seq<byte>, table: seq<byte>)
    requires |l| == |g| == |table| && Total(l) == |b|
    requires forall i :: 0 <= i < |l| ==> l[i].size == table[i]
    ensures Sum(table) == |b| && Chunks(Zip(l, g, b)) == Cut(table, b)
  {
    if l != [] {
      var n := l[0].size;
      ZipCuts(l[1..], g[1..], b[n..], table[1..]);
      var segs := Zip(l, g, b);
      assert segs[1..] == Zip(l[1..], g[1..], b[n..]);
      assert Chunks(segs) == [segs[0].data] + Chunks(segs[1..]);
    }
  }

  /** The lacing values, granule values and bytes of a page make the entries of its chunks. */
  lemma {:induction false} ZipEntries(table: seq<byte>, body: seq<byte>, bos: bool, granulepos: int)
    requires Sum(table) == |body|
    ensures Total(TableVals(table, bos)) == |body|
    ensures Zip(TableVals(table, bos), TableGranules(table, granulepos), body)
      == Entries(Cut(table, body), bos, granulepos)
  {
    hide LastEnd, Sum, Total, Zip;
    TotalOfTable(table, bos);
    var l, g := TableVals(table, bos), TableGranules(table, granulepos);
    var segs, chunks := Zip(l, g, body), Cut(table, body);
    ZipCuts(l, g, body, table);
    LastEndOfChunks(table, chunks);
    forall i | 0 <= i < |table|
      ensures segs[i] == Entries(chunks, bos, granulepos)[i]
    {
      ZipAt(l, g, body, i);
      assert Chunks(segs)[i] == segs[i].data;
    }
  }

  lemma {:induction false} CutSuffix(table: seq<byte>, body: seq<byte>, k: nat)
    requires Sum(table) == |body| && k <= |table|
    ensures Sum(table[..k]) + Sum(table[k..]) == |body|
    ensures Cut(table[k..], body[Sum(table[..k])..]) == Cut(table, body)[k..]
  {
    assert table == table[..k] + table[k..];
    SumConcat(table[..k], table[k..]);
    if k > 0 {
      CutSuffix(table[1..], body[table[0]..], k - 1);
      assert table[..k][1..] == table[1..][..k - 1];
      assert body[table[0]..][Sum(table[1..][..k - 1])..] == body[Sum(table[..k])..];
    }
  }

  lemma {:induction false} ZipMarkLast(l: seq<Lacing>, g: seq<int>, b: seq<byte>)
    requires |l| == |g| && Total(l) == |b| && l != []
    ensures var l' := l[|l| - 1 := l[|l| - 1].(last := true)];
      Total(l') == |b| && Zip(l', g, b) == MarkLast(Zip(l, g, b))
  {
    var l' := l[|l| - 1 := l[|l| - 1].(last := true)];
    if |l| == 1 {
      assert l'[1..] == l[1..] == [];
    } else {
      ZipMarkLast(l[1..], g[1..], b[l[0].size..]);
      assert l'[1..] == l[1..][|l| - 2 := l[|l| - 1].(last := true)];
    }
  }

  /** The FIFOs cut back to the first n entries. */
  lemma {:induction false} ZipDrop(l: seq<Lacing>, g: seq<int>, b: seq<byte>, n: nat)
    requires |l| == |g| && Total(l) == |b| && n <= |l|
    ensures Total(l[..n]) + Total(l[n..]) == |b|
    ensures Zip(l[..n], g[..n], b[..Total(l[..n])]) == Zip(l, g, b)[..n]
  {
    ZipSplit(l, g, b, n);
  }

  lemma {:induction false} ZipHole(l: seq<Lacing>, g: seq<int>, b: seq<byte>, stale: int)
    requires |l| == |g| && Total(l) == |b|
    ensures Total(l + [Lacing(0, false, false, true)]) == |b|
    ensures Zip(l + [Lacing(0, false, false, true)], g + [stale], b) == Zip(l, g, b) + [HOLE]
  {
    var hole := Lacing(0, false, false, true);
    assert [hole][1..] == [];
    ZipConcat(l, g, b, [hole], [stale], []);
    assert b + [] == b;
    assert Zip([hole], [stale], []) == [HOLE];
  }

  /** The segments that a continued page gives up when there is nothing to continue, and their bytes. */
  method SkipContinued(table: seq<byte>, body: seq<byte>) returns (segptr: nat, skipped: nat)
    requires Sum(table) == |body|
    ensures segptr == SkipLength(Cut(table, body)) && skipped == Sum(table[..segptr])
  {
    ghost var chunks := Cut(table, body);
    segptr, skipped := 0, 0;
    while segptr < |table|
      invariant segptr <= |table| && skipped == Sum(table[..segptr])
      invariant SkipLength(chunks) == segptr + SkipLength(chunks[segptr..])
    {
      var val := table[segptr];
      assert table[..segptr + 1] == table[..segptr] + [val];
      SumConcat(table[..segptr], [val]);
      assert [val][1..] == [];
      skipped := skipped + val;
      segptr := segptr + 1;
      if val < 255 {
        return;
      }
    }
  }

  predicate AnyLast(lacing: seq<Lacing>) {
    exists v :: v in lacing && v.last
  }

  lemma {:induction false} RunGrows(l: seq<Lacing>, start: nat, ptr: nat)
    requires start <= ptr < |l|
    ensures l[start..ptr + 1] == l[start..ptr] + [l[ptr]]
  {
    SliceCut(l, start, ptr + 1, ptr - start);
  }

  /**
   The lacing values from `start` up to the first that ends a packet: their bytes, and whether one has the end flag.
   */
  method ScanRun(l: seq<Lacing>, start: nat, limit: nat) returns (ptr: nat, bytes: nat, last: bool)
    requires start < limit <= |l| && l[limit - 1].size < 255
    ensures start <= ptr < limit && l[ptr].size < 255
    ensures forall i :: start <= i < ptr ==> l[i].size == 255
    ensures bytes == Total(l[start..ptr + 1]) && last == AnyLast(l[start..ptr + 1])
  {
    ptr := start;
    var size := l[ptr].size;
    bytes := size;
    last := l[ptr].last;
    assert l[ptr..ptr + 1] == [l[ptr]] && [l[ptr]][1..] == [];
    while size == 255
      invariant start <= ptr < limit && size == l[ptr].size
      invariant forall i :: start <= i < ptr ==> l[i].size == 255
      invariant bytes == Total(l[start..ptr + 1]) && last == AnyLast(l[start..ptr + 1])
      decreases limit - ptr
    {
      ptr := ptr + 1;
      var val := l[ptr];
      size := val.size;
      if val.last {
        last := true;
      }
      RunGrows(l, start, ptr);
      TotalConcat(l[start..ptr], [val]);
      assert [val][1..] == [];
      bytes := bytes + size;
    }
  }

  /** The lacing values of a packet of n bytes. */
  function LaceVals(n: nat, first: bool): (l: seq<Lacing>)
    ensures |l| == n / 255 + 1
    decreases n
  {
    if n < 255 then [Lacing(n, first, false, false)] else [Lacing(255, first, false, false)] + LaceVals(n - 255, false)
  }

  lemma {:induction false} LaceValsNoHoles(n: nat, first: bool)
    ensures NoHoles(LaceVals(n, first))
    decreases n
  {
    if n >= 255 {
      LaceValsNoHoles(n - 255, false);
    }
  }

  /** The granule values stored beside them. */
  function LaceGranules(n: nat, before: int, granule: int): (g: seq<int>)
    ensures |g| == n / 255 + 1
    decreases n
  {
    if n < 255 then [granule] else [before] + LaceGranules(n - 255, before, granule)
  }

  lemma {:induction false} LaceValsAt(n: nat, first: bool, before: int, granule: int, i: nat)
    requires i <= n / 255
    ensures LaceVals(n, first)[i] == Lacing(if i < n / 255 then 255 else n % 255, first && i == 0, false, false)
    ensures LaceGranules(n, before, granule)[i] == if i < n / 255 then before else granule
    decreases n
  {
    if n >= 255 && i > 0 {
      LaceValsAt(n - 255, false, before, granule, i - 1);
    }
  }

  lemma {:induction false} LaceValsAre(l: seq<Lacing>, g: seq<int>, n: nat, before: int, granule: int)
    requires |l| == |g| == n / 255 + 1
    requires forall k :: 0 <= k < n / 255 ==> l[k] == Lacing(255, k == 0, false, false) && g[k] == before
    requires l[n / 255] == Lacing(n % 255, n < 255, false, false) && g[n / 255] == granule
    ensures l == LaceVals(n, true) && g == LaceGranules(n, before, granule)
  {
    forall k | 0 <= k < |l|
      ensures l[k] == LaceVals(n, true)[k] && g[k] == LaceGranules(n, before, granule)[k]
    {
      LaceValsAt(n, true, before, granule, k);
    }
  }

  /** Lacing a packet onto the FIFOs laces it onto the list of segments. */
  lemma {:induction false} ZipPacketIn(l: seq<Lacing>, g: seq<int>, b: seq<byte>,
      l': seq<Lacing>, g': seq<int>, b': seq<byte>,
                    data: seq<byte>, before: int, granule: int)
    requires |l| == |g| && Total(l) == |b|
    requires l' == l + LaceVals(|data|, true) && g' == g + LaceGranules(|data|, before, granule) && b' == b + data
    ensures |l'| == |g'| && Total(l') == |b'|
    ensures Zip(l', g', b') == Zip(l, g, b) + Lace(data, granule, before, true)
  {
    ZipLace(data, granule, before, true);
    ZipConcat(l, g, b, LaceVals(|data|, true), LaceGranules(|data|, before, granule), data);
  }

  lemma {:induction false} ZipLace(data: seq<byte>, granule: int, before: int, first: bool)
    ensures Total(LaceVals(|data|, first)) == |data|
    ensures Zip(LaceVals(|data|, first), LaceGranules(|data|, before, granule), data)
      == Lace(data, granule, before, first)
    decreases |data|
  {
    var l, g := LaceVals(|data|, first), LaceGranules(|data|, before, granule);
    if |data| < 255 {
      assert l[1..] == [];
      assert data[..|data|] == data;
    } else {
      ZipLace(data[255..], granule, before, false);
      assert l[1..] == LaceVals(|data| - 255, false) && g[1..] == LaceGranules(|data| - 255, before, granule);
    }
  }

  lemma {:induction false} PiecesSplit(iov: seq<seq<byte>>, i: nat)
    requires i < |iov|
    ensures Flatten(iov[..i + 1]) == Flatten(iov[..i]) + iov[i]
    ensures |Flatten(iov[..i + 1])| <= |Flatten(iov)|
  {
    assert iov[..i + 1] == iov[..i] + [iov[i]];
    assert iov == iov[..i + 1] + iov[i + 1..];
    FlattenAppend(iov[..i], iov[i]);
    FlattenConcat(iov[..i + 1], iov[i + 1..]);
  }

  /** The lacing values of a packet of the given size, with their granule values, from `fill` on. */
  method FillLacing(l0: seq<Lacing>, g0: seq<int>, fill: nat, bytes: nat, before: int, granule: int)
    returns (l: seq<Lacing>, g: seq<int>)
    requires fill + bytes / 255 + 1 <= |l0| == |g0|
    ensures |l| == |g| == |l0|
    ensures l[..fill + bytes / 255 + 1] == l0[..fill] + LaceVals(bytes, true)
    ensures g[..fill + bytes / 255 + 1] == g0[..fill] + LaceGranules(bytes, before, granule)
  {
    hide *;
    var vals := bytes / 255 + 1;
    l, g := l0, g0;
    for i := 0 to vals - 1
      invariant |l| == |g| == |l0|
      invariant l[..fill] == l0[..fill] && g[..fill] == g0[..fill]
      invariant forall k :: fill <= k < fill + i ==> l[k] == Lacing(255, false, false, false) && g[k] == before
    {
      l := l[fill + i := Lacing(255, false, false, false)];
      g := g[fill + i := before];
    }
    l := l[fill + vals - 1 := Lacing(bytes % 255, false, false, false)];
    g := g[fill + vals - 1 := granule];
    l := l[fill := l[fill].(first := true)];
    LaceValsAre(l[fill..fill + vals], g[fill..fill + vals], bytes, before, granule);
    assert l[..fill + vals] == l[..fill] + l[fill..fill + vals];
    assert g[..fill + vals] == g[..fill] + g[fill..fill + vals];
  }

  method TotalLength(iov: seq<seq<byte>>) returns (bytes: nat)
    ensures bytes == |Flatten(iov)|
  {
    bytes := 0;
    for i := 0 to |iov|
      invariant bytes == |Flatten(iov[..i])|
    {
      PiecesSplit(iov, i);
      bytes := bytes + |iov[i]|;
    }
    assert iov[..|iov|] == iov;
  }

  /**
   ogg_stream_state: growing buffers, whose lengths are the storage allocated, with fill and
   returned marks; and the header work space.
   */
  class StreamState {
    var bodyData: seq<byte>
    var bodyFill: nat
    var bodyReturned: nat

    var lacingVals: seq<Lacing>
    var granuleVals: seq<int>
    var lacingFill: nat
    var lacingPacket: nat
    var lacingReturned: nat

    const header: array<byte>
    var headerFill: nat

    var eos: bool
    var bos: bool
    var serialno: int
    var pageno: int
    var packetno: int
    var granulepos: int

    /** The marks are in order and below the storage. */
    ghost predicate Marks()
      reads this
    {
      && bodyReturned <= bodyFill < |bodyData|
      && lacingReturned <= lacingPacket <= lacingFill < |lacingVals| == |granuleVals|
      && header.Length == FIXED + MAX_SEGMENTS
    }

    ghost function Body(): seq<byte>
      requires Marks()
      reads this
    {
      bodyData[bodyReturned..bodyFill]
    }

    ghost function Lacings(): seq<Lacing>
      requires Marks()
      reads this
    {
      lacingVals[lacingReturned..lacingFill]
    }

    ghost function Granules(): seq<int>
      requires Marks()
      reads this
    {
      granuleVals[lacingReturned..lacingFill]
    }

    /** The lacing FIFO accounts for the bytes of the body FIFO. */
    ghost predicate Valid()
      reads this
    {
      Marks() && Total(Lacings()) == |Body()|
    }

    /** The entries of the FIFOs that have not been returned. */
    ghost function Contents(): seq<Seg>
      requires Valid()
      reads this
    {
      Zip(Lacings(), Granules(), Body())
    }

    /** The abstract contents of the state. */
    ghost function Abs(): Stream
      requires Valid()
      reads this
    {
      Stream(Contents(), lacingPacket - lacingReturned,
             eos, bos, serialno, pageno, packetno, granulepos)
    }

    /** An encoder never returns single lacing values, pages take them off the front; and it has no holes. */
    ghost predicate Encoding()
      reads this
    {
      && lacingReturned == 0 && lacingPacket == 0
      && lacingFill <= |lacingVals|
      && NoHoles(lacingVals[..lacingFill])
    }

    constructor (serial: int)
      ensures Valid() && fresh(header) && Abs() == Fresh(serial) && Encoding()
    {
      var data := Grow([], 16 * 1024);
      var vals := Grow([], 1024);
      var granules := Grow([], 1024);
      bodyData, lacingVals, granuleVals := data, vals, granules;
      bodyFill, bodyReturned := 0, 0;
      lacingFill, lacingPacket, lacingReturned := 0, 0, 0;
      header := new byte[FIXED + MAX_SEGMENTS];
      headerFill := 0;
      eos, bos, serialno, pageno, packetno, granulepos := false, false, serial, 0, 0, 0;
    }

    /** The bytes of returned packets or pages are dropped from the body buffer. */
    method CompactBody()
      requires Marks()
      modifies this`bodyFill, this`bodyReturned, this`bodyData
      ensures Marks() && bodyReturned == 0 && Body() == old(Body())
    {
      if bodyReturned > 0 {
        bodyFill := bodyFill - bodyReturned;
        if bodyFill > 0 {
          bodyData := MoveDown(bodyData, bodyReturned, bodyFill);
        }
        bodyReturned := 0;
      }
    }

    /** _os_body_expand. */
    method ExpandBody(needed: nat)
      requires Marks()
      modifies this`bodyData
      ensures Marks() && bodyFill + needed < |bodyData| && bodyData[..bodyFill] == old(bodyData[..bodyFill])
    {
      if |bodyData| <= bodyFill + needed {
        ghost var n := |bodyData|;
        bodyData := Grow(bodyData, |bodyData| + needed + 1024);
        assert bodyData[..bodyFill] == bodyData[..n][..bodyFill];
      }
    }

    /** _os_lacing_expand. */
    method ExpandLacing(needed: nat)
      requires Marks()
      modifies this`lacingVals, this`granuleVals
      ensures Marks() && lacingFill + needed < |lacingVals|
      ensures lacingVals[..lacingFill] == old(lacingVals[..lacingFill])
      ensures granuleVals[..lacingFill] == old(granuleVals[..lacingFill])
    {
      if |lacingVals| <= lacingFill + needed {
        ghost var n := |lacingVals|;
        var size := |lacingVals| + needed + 32;
        lacingVals := Grow(lacingVals, size);
        granuleVals := Grow(granuleVals, size);
        assert lacingVals[..lacingFill] == lacingVals[..n][..lacingFill];
        assert granuleVals[..lacingFill] == granuleVals[..n][..lacingFill];
      }
    }

    /** The lacing values of a packet of the given size go to the end of the lacing FIFO. */
    method StoreLacing(bytes: nat, granule: int)
      requires Marks() && lacingFill + bytes / 255 + 1 < |lacingVals|
      modifies this`lacingFill, this`granulepos, this`lacingVals, this`granuleVals
      ensures Marks() && granulepos == granule
      ensures Lacings() == old(Lacings()) + LaceVals(bytes, true)
      ensures Granules() == old(Granules()) + LaceGranules(bytes, old(granulepos), granule)
    {
      lacingVals, granuleVals := FillLacing(lacingVals, granuleVals, lacingFill, bytes, granulepos, granule);
      granulepos := granule;
      lacingFill := lacingFill + bytes / 255 + 1;
      assert Lacings() == lacingVals[..lacingFill][lacingReturned..];
      assert Granules() == granuleVals[..lacingFill][lacingReturned..];
    }

    /** The pieces of a packet go to the end of the body FIFO. */
    method StoreBody(iov: seq<seq<byte>>)
      requires Marks() && bodyFill + |Flatten(iov)| < |bodyData|
      modifies this`bodyFill, this`bodyData
      ensures Marks() && Body() == old(Body()) + Flatten(iov)
    {
      for i := 0 to |iov|
        modifies this`bodyFill, this`bodyData
        invariant bodyFill == old(bodyFill) + |Flatten(iov[..i])|
        invariant |bodyData| == old(|bodyData|)
        invariant bodyFill <= |bodyData| && bodyData[..bodyFill] == old(bodyData[..bodyFill]) + Flatten(iov[..i])
      {
        PiecesSplit(iov, i);
        bodyData := CopyIn(bodyData, bodyFill, iov[i]);
        bodyFill := bodyFill + |iov[i]|;
        AppendAssociates(old(bodyData[..bodyFill]), Flatten(iov[..i]), iov[i]);
      }
      assert iov[..|iov|] == iov;
      assert Body() == bodyData[..bodyFill][bodyReturned..];
    }

    /** The buffer work of submitting a packet. */
    method StoreBuffers(iov: seq<seq<byte>>, bytes: nat, granule: int)
      requires Marks() && bytes == |Flatten(iov)|
      modifies this`bodyData, this`bodyFill, this`bodyReturned
      modifies this`lacingVals, this`granuleVals, this`lacingFill, this`granulepos
      ensures Marks() && granulepos == granule
      ensures Body() == old(Body()) + Flatten(iov)
      ensures Lacings() == old(Lacings()) + LaceVals(bytes, true)
      ensures Granules() == old(Granules()) + LaceGranules(bytes, old(granulepos), granule)
    {
      CompactBody();
      ExpandBody(bytes);
      ExpandLacing(bytes / 255 + 1);
      assert Body() == bodyData[..bodyFill][bodyReturned..];
      assert Lacings() == lacingVals[..lacingFill][lacingReturned..];
      assert Granules() == granuleVals[..lacingFill][lacingReturned..];
      StoreBody(iov);
      StoreLacing(bytes, granule);
    }

    /** The packet's segments go to the end of the FIFOs. */
    method StorePacket(iov: seq<seq<byte>>, bytes: nat, granule: int)
      requires Valid() && bytes == |Flatten(iov)|
      modifies this`bodyData, this`bodyFill, this`bodyReturned
      modifies this`lacingVals, this`granuleVals, this`lacingFill, this`granulepos
      ensures Valid() && granulepos == granule
      ensures Contents() == old(Contents()) + Lace(Flatten(iov), granule, old(granulepos), true)
      ensures NoHoles(old(Lacings())) ==> NoHoles(Lacings())
    {
      StoreBuffers(iov, bytes, granule);
      LaceValsNoHoles(bytes, true);
      ZipPacketIn(old(Lacings()), old(Granules()), old(Body()), Lacings(), Granules(), Body(),
                  Flatten(iov), old(granulepos), granule);
    }

    /** ogg_stream_iovecin: a packet given in pieces is laced into the FIFOs. */
    method IovecIn(iov: seq<seq<byte>>, last: bool, granule: int)
      requires Valid() && Encoding()
      modifies this
      ensures Valid() && Encoding()
      ensures Abs() == PacketIn(old(Abs()), Submission(Flatten(iov), last, granule))
    {
      hide Flatten, Total, Zip;
      var bytes := TotalLength(iov);
      StorePacket(iov, bytes, granule);
      ghost var l, g, b := Lacings(), Granules(), Body();
      packetno := packetno + 1;
      if last {
        eos := true;
      }
      assert Lacings() == l && Granules() == g && Body() == b;
    }

    /** ogg_stream_packetin. */
    method SubmitPacket(p: Submission)
      requires Valid() && Encoding()
      modifies this
      ensures Valid() && Encoding()
      ensures Abs() == PacketIn(old(Abs()), p)
    {
      assert Flatten([p.data]) == p.data + Flatten([p.data][1..]);
      assert Flatten([p.data]) == p.data;
      IovecIn([p.data], p.eos, p.granulepos);
    }

    /** What an entry of an encoder's FIFO says about the segment. */
    lemma {:induction false} EntryAt(i: nat)
      requires Valid() && Encoding() && i < lacingFill
      ensures |Contents()[i].data| == lacingVals[i].size
      ensures Contents()[i].first == lacingVals[i].first
      ensures Contents()[i].granule == granuleVals[i]
    {
      ZipAt(Lacings(), Granules(), Body(), i);
      assert Lacings()[i] == lacingVals[i] && !lacingVals[..lacingFill][i].hole;
    }

    /** The segments of the initial header page. */
    method ChooseHeader(maxvals: nat) returns (vals: nat)
      requires Valid() && Encoding() && maxvals <= lacingFill
      ensures vals == HeaderCut(Contents(), 0, maxvals)
    {
      vals := 0;
      while vals < maxvals
        invariant vals <= maxvals && HeaderCut(Contents(), vals, maxvals) == HeaderCut(Contents(), 0, maxvals)
      {
        EntryAt(vals);
        if lacingVals[vals].size < 255 {
          vals := vals + 1;
          return;
        }
        vals := vals + 1;
      }
    }

    /** The segments of a later page, with the granule position they give it. */
    method ChooseNominal(maxvals: nat, nfill: int) returns (vals: nat, granule: int, full: bool)
      requires Valid() && Encoding() && maxvals <= lacingFill
      ensures vals == NominalCut(Contents(), 0, maxvals, nfill)
      ensures granule == LastDone(Contents()[..vals])
      ensures full == (vals < maxvals || vals == MAX_SEGMENTS)
    {
      ghost var segs := Contents();
      var acc, packetsDone, packetJustDone := 0, 0, 0;
      full, vals, granule := false, 0, -1;
      while vals < maxvals
        invariant vals <= maxvals && !full
        invariant NominalCut(segs, vals, maxvals, nfill) == NominalCut(segs, 0, maxvals, nfill)
        invariant acc == Sum(Sizes(segs[..vals])) && granule == LastDone(segs[..vals])
        invariant packetsDone == PacketsDone(segs[..vals])
        invariant packetJustDone == if vals > 0 && segs[vals - 1].Ends() then packetsDone else 0
      {
        EntryAt(vals);
        if acc > nfill && packetJustDone >= 4 {
          full := true;
          break;
        }
        PrefixGrows(segs, vals);
        acc := acc + lacingVals[vals].size;
        if lacingVals[vals].size < 255 {
          granule := granuleVals[vals];
          packetsDone := packetsDone + 1;
          packetJustDone := packetsDone;
        } else {
          packetJustDone := 0;
        }
        vals := vals + 1;
      }
      if vals == 255 {
        full := true;
      }
    }

    /** The segment table of a page of the first vals segments, in the work space. */
    method WriteTable(vals: nat)
      requires Valid() && Encoding() && vals <= lacingFill && vals <= MAX_SEGMENTS
      modifies header
      ensures header[..FIXED] == old(header[..FIXED])
      ensures header[FIXED..FIXED + vals] == Sizes(Contents()[..vals])
    {
      ghost var table := Sizes(Contents()[..vals]);
      for i := 0 to vals
        invariant header[..FIXED] == old(header[..FIXED])
        invariant forall k :: 0 <= k < i ==> header[FIXED + k] == table[k]
      {
        EntryAt(i);
        header[FIXED + i] := lacingVals[i].size;
      }
    }

    /** The header of a page of the first vals segments, checksum zero, in the work space. */
    method WriteHeader(vals: nat, granule: int)
      requires Valid() && Encoding() && 0 < vals <= lacingFill && vals <= MAX_SEGMENTS
      requires granule == if bos then LastDone(Contents()[..vals]) else 0
      modifies this`bos, this`pageno, header
      ensures Marks() && bos && pageno == old(NextPageno(Abs())) + 1
      ensures header[..FIXED + vals] == WriteHead(old(PageHead(Abs(), vals)), NO_CHECKSUM)
    {
      hide FixedBytes, NoHoles, Total, WriteHead, Zip;
      ghost var head := PageHead(Abs(), vals);
      EntryAt(0);
      var flags := if lacingVals[0].first then 0 else 1;
      if !bos {
        flags := flags + 2;
      }
      if eos && lacingFill == vals {
        flags := flags + 4;
      }
      bos := true;
      if pageno == -1 {
        pageno := 0;
      }
      StoreFixed(header, flags, granule, serialno, pageno, vals, head);
      pageno := pageno + 1;
      WriteTable(vals);
      WriteHeadIs(head);
      assert header[..FIXED + vals] == header[..FIXED] + header[FIXED..FIXED + vals];
    }

    /** The bytes of the first vals segments. */
    method CountBytes(vals: nat) returns (bytes: nat)
      requires Valid() && Encoding() && vals <= lacingFill
      ensures bytes == Total(lacingVals[..vals])
    {
      bytes := 0;
      for i := 0 to vals
        invariant bytes == Total(lacingVals[..i])
      {
        assert lacingVals[..i + 1] == lacingVals[..i] + [lacingVals[i]];
        TotalConcat(lacingVals[..i], [lacingVals[i]]);
        assert [lacingVals[i]][1..] == [];
        bytes := bytes + lacingVals[i].size;
      }
    }

    /** The marks after the first vals segments are taken: memmove of the lacing FIFO, body bytes returned. */
    method DropSegments(vals: nat, bytes: nat)
      requires Marks() && lacingReturned == 0 == lacingPacket && vals <= lacingFill && bytes <= bodyFill - bodyReturned
      modifies this`lacingFill, this`lacingVals, this`granuleVals, this`bodyReturned
      ensures Marks()
      ensures Lacings() == old(Lacings()[vals..])
      ensures Granules() == old(Granules()[vals..])
      ensures Body() == old(Body()[bytes..])
    {
      lacingFill := lacingFill - vals;
      lacingVals := MoveDown(lacingVals, vals, lacingFill);
      granuleVals := MoveDown(granuleVals, vals, lacingFill);
      bodyReturned := bodyReturned + bytes;
    }

    /** The first vals segments leave the FIFOs; their bytes are returned. */
    method TakeSegments(vals: nat) returns (body: seq<byte>)
      requires Valid() && Encoding() && vals <= lacingFill
      modifies this`lacingFill, this`lacingVals, this`granuleVals, this`bodyReturned
      ensures Valid() && Encoding()
      ensures body == Join(old(Contents()[..vals])) && Contents() == old(Contents()[vals..])
    {
      var bytes := CountBytes(vals);
      assert Lacings()[..vals] == lacingVals[..vals];
      ZipTake(Lacings(), Granules(), Body(), vals, bytes);
      body := bodyData[bodyReturned..bodyReturned + bytes];
      assert body == Body()[..bytes];
      DropSegments(vals, bytes);
    }

    /** How many segments the next page takes, its granule position, and whether it is written now. */
    method ChooseSegments(force: bool, nfill: int) returns (vals: nat, granule: int, write: bool)
      requires Valid() && Encoding() && lacingFill > 0
      ensures vals == PageCut(Abs(), nfill)
      ensures granule == if bos then LastDone(Contents()[..vals]) else 0
      ensures write == Writes(Abs(), force, nfill)
    {
      var maxvals := if lacingFill > 255 then 255 else lacingFill;
      if !bos {
        granule := 0;
        vals := ChooseHeader(maxvals);
        write := force;
      } else {
        var full;
        vals, granule, full := ChooseNominal(maxvals, nfill);
        write := force || full;
      }
    }

    /** A page of the first vals segments, checksum included; the segments leave the FIFOs. */
    method WritePage(vals: nat, granule: int) returns (page: Page)
      requires Valid() && Encoding() && 0 < vals <= lacingFill && vals <= MAX_SEGMENTS
      requires granule == if bos then LastDone(Contents()[..vals]) else 0
      modifies this`bos, this`pageno, this`headerFill, header
      modifies this`lacingFill, this`lacingVals, this`granuleVals, this`bodyReturned
      ensures Valid() && Encoding() && bos && pageno == old(NextPageno(Abs())) + 1
      ensures page == MakePage(old(PageHead(Abs(), vals)), Join(old(Contents()[..vals])))
      ensures Contents() == old(Contents()[vals..])
    {
      hide Join, NextPageno, PageHead, WriteHead, Zip;
      WriteHeader(vals, granule);
      headerFill := FIXED + vals;
      var body := TakeSegments(vals);
      ChecksumSet(header, headerFill, body);
      page := Page(header[..headerFill], body);
    }

    /** ogg_stream_flush_i. */
    method FlushI(force: bool, nfill: int) returns (page: Option<Page>)
      requires Valid() && Encoding()
      modifies this, header
      ensures Valid() && Encoding()
      ensures page == FlushPage(old(Abs()), force, nfill)
      ensures Abs() == Flushed(old(Abs()), force, nfill)
    {
      hide MakePage, PageCut, Sizes, Total, Zip;
      if lacingFill == 0 {
        return None;
      }
      var vals, granule, write := ChooseSegments(force, nfill);
      if !write {
        return None;
      }
      var p := WritePage(vals, granule);
      page := Some(p);
    }

    /** ogg_stream_flush_fill; ogg_stream_flush is nfill == 4096. */
    method Flush(nfill: int) returns (page: Option<Page>)
      requires Valid() && Encoding()
      modifies this, header
      ensures Valid() && Encoding()
      ensures page == FlushPage(old(Abs()), true, nfill)
      ensures Abs() == Flushed(old(Abs()), true, nfill)
    {
      page := FlushI(true, nfill);
    }

    /** ogg_stream_pageout_fill; ogg_stream_pageout is nfill == 4096. */
    method PageOut(nfill: int) returns (page: Option<Page>)
      requires Valid() && Encoding()
      modifies this, header
      ensures Valid() && Encoding()
      ensures page == FlushPage(old(Abs()), PageOutForces(old(Abs())), nfill)
      ensures Abs() == Flushed(old(Abs()), PageOutForces(old(Abs())), nfill)
    {
      var force := false;
      if (eos && lacingFill > 0) || (lacingFill > 0 && !bos) {
        force := true;
      }
      page := FlushI(force, nfill);
    }

    // ---- decoding ----

    /** The returned entries are dropped from the lacing FIFO. */
    method CompactLacing()
      requires Marks()
      modifies this`lacingVals, this`granuleVals, this`lacingFill, this`lacingPacket, this`lacingReturned
      ensures Marks() && lacingReturned == 0
      ensures Lacings() == old(Lacings()) && Granules() == old(Granules())
      ensures lacingPacket == old(lacingPacket - lacingReturned)
    {
      var lr := lacingReturned;
      if lr > 0 {
        if lacingFill - lr > 0 {
          lacingVals := MoveDown(lacingVals, lr, lacingFill - lr);
          granuleVals := MoveDown(granuleVals, lr, lacingFill - lr);
        }
        lacingFill := lacingFill - lr;
        lacingPacket := lacingPacket - lr;
        lacingReturned := 0;
      }
    }

    /** The bytes of the entries past the last whole packet. */
    method PartialBytes() returns (bytes: nat)
      requires Marks()
      ensures bytes == Total(lacingVals[lacingPacket..lacingFill])
    {
      bytes := 0;
      for i := lacingPacket to lacingFill
        invariant bytes == Total(lacingVals[lacingPacket..i])
      {
        assert lacingVals[lacingPacket..i + 1] == lacingVals[lacingPacket..i] + [lacingVals[i]];
        TotalConcat(lacingVals[lacingPacket..i], [lacingVals[i]]);
        assert [lacingVals[i]][1..] == [];
        bytes := bytes + lacingVals[i].size;
      }
    }

    /** The entries past the last whole packet are taken back, with their bytes. */
    method Unroll()
      requires Valid() && lacingReturned == 0
      modifies this`bodyFill, this`lacingFill
      ensures Valid() && lacingFill == lacingPacket
      ensures Contents() == old(Contents()[..lacingPacket])
    {
      hide Entry, Total, Zip;
      ghost var l, g, b := Lacings(), Granules(), Body();
      ZipDrop(l, g, b, lacingPacket);
      var bytes := PartialBytes();
      SliceCut(lacingVals, 0, lacingFill, lacingPacket);
      SliceCut(granuleVals, 0, lacingFill, lacingPacket);
      SliceCut(bodyData, bodyReturned, bodyFill, Total(l[..lacingPacket]));
      bodyFill := bodyFill - bytes;
      lacingFill := lacingPacket;
      assert Lacings() == l[..lacingPacket] && Granules() == g[..lacingPacket];
      assert Body() == b[..Total(l[..lacingPacket])];
    }

    /** A note of dropped data goes to the end of the lacing FIFO. */
    method NoteHole()
      requires Valid() && lacingReturned == 0 && lacingFill == lacingPacket && lacingFill + 1 < |lacingVals|
      modifies this`lacingVals, this`lacingFill, this`lacingPacket
      ensures Valid() && lacingPacket == old(lacingPacket) + 1
      ensures Contents() == old(Contents()) + [HOLE]
    {
      ghost var l, g, b := Lacings(), Granules(), Body();
      ghost var stale := granuleVals[lacingFill];
      ZipHole(l, g, b, stale);
      lacingVals := lacingVals[lacingFill := Lacing(0, false, false, true)];
      lacingFill := lacingFill + 1;
      lacingPacket := lacingPacket + 1;
      assert Lacings() == l + [Lacing(0, false, false, true)] && Granules() == g + [stale];
    }

    /** The body and table of a page, less the first `from` segments, go to the end of the FIFOs. */
    method AppendPage(table: seq<byte>, body: seq<byte>, bos: bool, granulepos: int)
      requires Valid() && lacingReturned == 0 && Sum(table) == |body|
      requires lacingFill + |table| < |lacingVals|
      modifies this`bodyData, this`bodyFill, this`lacingVals, this`granuleVals, this`lacingFill, this`lacingPacket
      ensures Valid() && Abs() == Append(old(Abs()), Cut(table, body), bos, granulepos)
    {
      hide Cut, LastEndOf, Sum, TableVals, Total, Zip;
      ghost var l, g, b := Lacings(), Granules(), Body();
      ZipEntries(table, body, bos, granulepos);
      ZipConcat(l, g, b, TableVals(table, bos), TableGranules(table, granulepos), body);
      LastEndOfChunks(table, Cut(table, body));
      AppendBody(body);
      AppendLacing(table, bos, granulepos);
    }

    method AppendBody(body: seq<byte>)
      requires Marks()
      modifies this`bodyData, this`bodyFill
      ensures Marks() && Body() == old(Body()) + body
    {
      if |body| > 0 {
        ExpandBody(|body|);
        bodyData := CopyIn(bodyData, bodyFill, body);
        bodyFill := bodyFill + |body|;
        assert Body() == bodyData[..bodyFill][bodyReturned..];
      }
    }

    /** The entry at the fill mark is set; the mark is moved by the caller. */
    method StoreEntry(val: byte, first: bool)
      requires lacingFill < |lacingVals| == |granuleVals|
      modifies this`lacingVals, this`granuleVals
      ensures |lacingVals| == |granuleVals| == old(|lacingVals|)
      ensures lacingVals[..lacingFill + 1] == old(lacingVals[..lacingFill]) + [Lacing(val, first, false, false)]
      ensures granuleVals[..lacingFill + 1] == old(granuleVals[..lacingFill]) + [-1]
    {
      lacingVals := lacingVals[lacingFill := Lacing(val, first, false, false)];
      granuleVals := granuleVals[lacingFill := -1];
    }

    method AppendLacing(table: seq<byte>, bos: bool, granulepos: int)
      requires Marks() && lacingReturned == 0 && lacingFill + |table| < |lacingVals|
      modifies this`lacingVals, this`granuleVals, this`lacingFill, this`lacingPacket
      ensures Marks()
      ensures Lacings() == old(Lacings()) + TableVals(table, bos)
      ensures Granules() == old(Granules()) + TableGranules(table, granulepos)
      ensures lacingPacket ==
        if LastEndOf(table) == -1 then old(lacingPacket) else old(lacingFill) + LastEndOf(table) + 1
    {
      hide LastEndOf, TableVals, TableGranules, NoGranules;
      ghost var fill, l, g, vals := lacingFill, Lacings(), Granules(), TableVals(table, bos);
      NoneStored(table, l, g, vals);
      var saved := -1;
      var first := bos;
      for segptr := 0 to |table|
        modifies this`lacingVals, this`granuleVals, this`lacingFill, this`lacingPacket
        invariant |lacingVals| == |granuleVals| == old(|lacingVals|)
        invariant lacingFill == fill + segptr && lacingPacket <= lacingFill
        invariant lacingVals[..lacingFill] == l + vals[..segptr]
        invariant granuleVals[..lacingFill] == g + NoGranules(segptr)
        invariant first == (bos && segptr == 0)
        invariant saved == if LastEndOf(table[..segptr]) == -1 then -1 else fill + LastEndOf(table[..segptr])
        invariant lacingPacket ==
          if LastEndOf(table[..segptr]) == -1 then old(lacingPacket) else fill + LastEndOf(table[..segptr]) + 1
      {
        var val := table[segptr];
        TableStep(table, bos, segptr, l, g);
        StoreEntry(val, first);
        first := false;
        if val < 255 {
          saved := lacingFill;
        }
        lacingFill := lacingFill + 1;
        if val < 255 {
          lacingPacket := lacingFill;
        }
      }
      WholeTable(table, vals, g, granulepos);
      if saved != -1 {
        assert granuleVals[saved := granulepos][..lacingFill] == granuleVals[..lacingFill][saved := granulepos];
        granuleVals := granuleVals[saved := granulepos];
      }
    }

    /** The last entry, if any, gets the end flag. */
    method FlagLast()
      requires Valid() && lacingReturned == 0
      modifies this`lacingVals
      ensures Valid() && Contents() == MarkLast(old(Contents()))
    {
      if lacingFill > 0 {
        ghost var l, g, b := Lacings(), Granules(), Body();
        ZipMarkLast(l, g, b);
        lacingVals := lacingVals[lacingFill - 1 := lacingVals[lacingFill - 1].(last := true)];
        assert Lacings() == l[|l| - 1 := l[|l| - 1].(last := true)];
      }
    }

    /** The entries and bytes of the FIFOs start at the front of their buffers again. */
    method Compact()
      requires Valid()
      modifies this`bodyData, this`bodyFill, this`bodyReturned
      modifies this`lacingVals, this`granuleVals, this`lacingFill, this`lacingPacket, this`lacingReturned
      ensures Valid() && lacingReturned == 0 && Abs() == old(Abs())
    {
      CompactBody();
      CompactLacing();
    }

    /** The page number is checked; when it is not the next one, an unfinished packet is lost. */
    method CheckSequence(head: Head)
      requires Valid() && lacingReturned == 0 && lacingFill + 1 < |lacingVals|
      modifies this`bodyFill, this`lacingFill, this`lacingVals, this`lacingPacket
      ensures Valid() && Abs() == InSequence(old(Abs()), head)
      ensures |lacingVals| == old(|lacingVals|) && lacingFill <= old(lacingFill) + 1
    {
      hide Granules, Total, Zip;
      if head.pageno != pageno {
        Unroll();
        if pageno != -1 {
          NoteHole();
        }
      }
    }

    /** True when the last entry, if any, is exactly the note of dropped data. */
    method NothingToContinue() returns (r: bool)
      requires Valid() && lacingReturned == 0
      ensures r == Orphaned(Abs())
    {
      if lacingFill < 1 {
        r := true;
      } else {
        ZipAt(Lacings(), Granules(), Body(), lacingFill - 1);
        r := lacingVals[lacingFill - 1] == Lacing(0, false, false, true);
      }
    }

    /** The segments of a continued page past those that continue something lost. */
    method AppendTail(table: seq<byte>, body: seq<byte>, granulepos: int)
      requires Valid() && lacingReturned == 0 && Sum(table) == |body|
      requires lacingFill + |table| < |lacingVals|
      modifies this`bodyData, this`bodyFill, this`lacingVals, this`granuleVals, this`lacingFill, this`lacingPacket
      ensures Valid()
      ensures Abs() == Append(old(Abs()), Cut(table, body)[SkipLength(Cut(table, body))..], false, granulepos)
    {
      var segptr, skipped := SkipContinued(table, body);
      CutSuffix(table, body, segptr);
      AppendPage(table[segptr..], body[skipped..], false, granulepos);
    }

    /** The part of ogg_stream_pagein that adds the segments. */
    method AddSegments(head: Head, body: seq<byte>)
      requires Valid() && lacingReturned == 0 && Sum(head.table) == |body| && lacingFill + |head.table| < |lacingVals|
      modifies this`bodyData, this`bodyFill, this`lacingVals, this`granuleVals, this`lacingFill, this`lacingPacket
      ensures Valid() && Abs() == Placed(old(Abs()), head, Cut(head.table, body))
    {
      var orphaned := head.continued;
      if head.continued {
        orphaned := NothingToContinue();
      }
      if orphaned {
        AppendTail(head.table, body, head.granulepos);
      } else {
        AppendPage(head.table, body, head.bos, head.granulepos);
      }
    }

    method ReserveLacing(needed: nat)
      requires Valid() && lacingReturned == 0
      modifies this`lacingVals, this`granuleVals
      ensures Valid() && lacingFill + needed < |lacingVals| && Abs() == old(Abs())
    {
      hide Total;
      ghost var l, g, b := Lacings(), Granules(), Body();
      assert l == lacingVals[..lacingFill] && g == granuleVals[..lacingFill];
      ExpandLacing(needed);
      assert Lacings() == l && Granules() == g && Body() == b;
    }

    /** The last entry is flagged when the page ends the stream. */
    method EndPage(head: Head)
      requires Valid() && lacingReturned == 0
      modifies this`eos, this`lacingVals, this`pageno
      ensures Valid() && Abs() == Ended(old(Abs()), head)
    {
      hide MarkLast, Total, Zip;
      if head.eos {
        FlagLast();
        eos := true;
      }
      pageno := head.pageno + 1;
    }

    /** A page of this stream is taken apart into the FIFOs. */
    method PlacePage(head: Head, body: seq<byte>)
      requires Valid() && lacingReturned == 0 && Sum(head.table) == |body|
      modifies this
      ensures Valid() && Abs() == TakePage(old(Abs()), head, Cut(head.table, body))
    {
      ReserveLacing(|head.table| + 1);
      CheckSequence(head);
      AddSegments(head, body);
      EndPage(head);
    }

    /** ogg_stream_pagein. */
    method ReceivePage(page: Page) returns (r: int)
      requires Valid() && WellFormed(page)
      modifies this
      ensures Valid() && Abs() == PageIn(old(Abs()), page)
      ensures r == if Accepts(old(Abs()), page) then 0 else -1
      ensures r == -1 ==> Abs() == old(Abs())
    {
      var head := ReadHead(page.header);
      Compact();
      if head.serialno != serialno {
        return -1;
      }
      if Version(page.header) > 0 {
        return -1;
      }
      PlacePage(head, page.body);
      return 0;
    }

    /** What an entry says about the segment. */
    lemma {:induction false} SizeAt(i: nat)
      requires Valid() && lacingReturned <= i < lacingFill
      ensures var seg, val := Contents()[i - lacingReturned], lacingVals[i];
        |seg.data| == val.size && seg.first == val.first && seg.last == val.last && seg.hole == val.hole
        && (!seg.hole ==> seg.granule == granuleVals[i])
    {
      ZipAt(Lacings(), Granules(), Body(), i - lacingReturned);
    }

    /** The run of lacing values of the packet at the head: its end, size and end-of-stream flag. */
    method GatherPacket() returns (ptr: nat, bytes: nat, last: bool)
      requires Valid() && Decoding(Abs()) && lacingReturned < lacingPacket && !lacingVals[lacingReturned].hole
      ensures lacingReturned <= ptr < lacingPacket && !lacingVals[ptr].hole
      ensures ptr + 1 - lacingReturned == FirstLength(Contents())
      ensures bytes == Total(lacingVals[lacingReturned..ptr + 1])
      ensures last == AnyLast(lacingVals[lacingReturned..ptr + 1])
    {
      hide Body, Contents, RunLength, Total;
      SizeAt(lacingPacket - 1);
      assert Contents()[..lacingPacket - lacingReturned][lacingPacket - 1 - lacingReturned].Ends();
      ptr, bytes, last := ScanRun(lacingVals, lacingReturned, lacingPacket);
      ghost var segs, n := Contents(), ptr + 1 - lacingReturned;
      forall k | 0 <= k < n
        ensures segs[k].Ends() == (k == n - 1)
      {
        SizeAt(lacingReturned + k);
      }
      SizeAt(lacingReturned);
      SizeAt(ptr);
      assert n > 1 ==> !segs[n - 2].Ends();
      RunLengthIs(segs, n);
    }

    /** The packet at the head, which ends at entry ptr and has the given number of bytes. */
    lemma {:induction false} HeadRun(ptr: nat, bytes: nat)
      requires Valid() && lacingReturned <= ptr < lacingPacket && !lacingVals[lacingReturned].hole
      requires !lacingVals[ptr].hole
      requires ptr + 1 - lacingReturned == FirstLength(Contents())
      requires bytes == Total(lacingVals[lacingReturned..ptr + 1])
      ensures bytes <= |Body()|
      ensures FirstEvent(Contents()) == Packet(Body()[..bytes], lacingVals[lacingReturned].first,
                                               AnyLast(lacingVals[lacingReturned..ptr + 1]), granuleVals[ptr])
    {
      hide AnyLast, Body, FirstLength, Join, Total, Zip;
      var segs, n := Contents(), ptr + 1 - lacingReturned;
      assert Lacings()[..n] == lacingVals[lacingReturned..ptr + 1];
      ZipTake(Lacings(), Granules(), Body(), n, bytes);
      forall k | 0 <= k < n
        ensures segs[..n][k].last == lacingVals[lacingReturned..ptr + 1][k].last
      {
        SizeAt(lacingReturned + k);
      }
      RunFlags(segs[..n], lacingVals[lacingReturned..ptr + 1]);
      SizeAt(lacingReturned);
      SizeAt(ptr);
    }

    method ResetMarks()
      requires Marks()
      modifies this`bodyFill, this`bodyReturned, this`lacingFill, this`lacingPacket, this`lacingReturned
      ensures Valid() && Encoding() && Contents() == []
    {
      hide Zip;
      lacingReturned := 0;
      lacingPacket := 0;
      lacingFill := 0;
      bodyReturned := 0;
      bodyFill := 0;
      assert Lacings() == [] && Granules() == [] && Body() == [];
    }

    method ResetCounters()
      modifies this`headerFill, this`eos, this`bos, this`pageno, this`packetno, this`granulepos
      ensures !eos && !bos && pageno == -1 && packetno == 0 && granulepos == 0
    {
      headerFill := 0;
      eos, bos := false, false;
      pageno, packetno, granulepos := -1, 0, 0;
    }

    /** ogg_stream_reset. */
    method Reset()
      requires Valid()
      modifies this
      ensures Valid() && Encoding() && serialno == old(serialno)
      ensures Abs() == Fresh(serialno).(pageno := -1)
    {
      ResetMarks();
      ResetCounters();
    }

    /** The first n entries and their bytes are returned. */
    method Advance(n: nat, bytes: nat)
      requires Valid() && n <= lacingPacket - lacingReturned && bytes == Total(Lacings()[..n])
      modifies this`lacingReturned, this`bodyReturned, this`packetno
      ensures Valid() && packetno == old(packetno) + 1 && lacingReturned == old(lacingReturned) + n
      ensures Contents() == old(Contents()[n..])
    {
      hide Pow256, Total, Zip;
      ghost var l, g, b := Lacings(), Granules(), Body();
      ZipTake(l, g, b, n, bytes);
      bodyReturned := bodyReturned + bytes;
      lacingReturned := lacingReturned + n;
      packetno := packetno + 1;
      assert Lacings() == l[n..];
      assert Granules() == g[n..];
      assert Body() == b[bytes..];
    }

    /**
     _packetout. `wanted` is a non-null packet pointer, `adv` the difference between packetout and
     packetpeek. A gap is reported once, by either.
     */
    method NextPacket(wanted: bool, adv: bool) returns (r: int, packet: Option<OggPacket>)
      requires Valid() && Decoding(Abs())
      modifies this
      ensures Valid() && r == PacketCode(old(Abs()))
      ensures r == 0 ==> Abs() == old(Abs())
      ensures r == -1 ==> Abs() == Popped(old(Abs()))
      ensures r == 1 ==> Abs() == if adv then Popped(old(Abs())) else old(Abs())
      ensures packet == if r == 1 && wanted then Some(HeadPacket(old(Abs()))) else None
      ensures r == if old(Pending(Abs())) == [] then 0 else if old(Pending(Abs()))[0] == Missing then -1 else 1
      ensures Pending(Abs()) == if r == -1 || (r == 1 && adv) then old(Pending(Abs()))[1..] else old(Pending(Abs()))
      ensures r == 1 && wanted ==> packet == Some(OggPacket(old(Pending(Abs()))[0], old(packetno)))
    {
      hide Closed, Contents, HeadPacket, Pending, Events, FirstEvent;
      OggDecoder.AnswerIs(Abs());
      var ptr := lacingReturned;
      if lacingPacket <= ptr {
        return 0, None;
      }
      SizeAt(ptr);
      if lacingVals[ptr].hole {
        assert Lacings()[..1] == [lacingVals[ptr]] && [lacingVals[ptr]][1..] == [];
        Advance(1, 0);
        return -1, None;
      }
      if !wanted && !adv {
        return 1, None;
      }
      r, packet := TakePacket(wanted, adv);
    }

    /** The part of _packetout that gathers a whole packet. */
    method TakePacket(wanted: bool, adv: bool) returns (r: int, packet: Option<OggPacket>)
      requires Valid() && Decoding(Abs()) && lacingReturned < lacingPacket && !lacingVals[lacingReturned].hole
      modifies this`lacingReturned, this`bodyReturned, this`packetno
      ensures Valid() && r == 1
      ensures Abs() == if adv then Popped(old(Abs())) else old(Abs())
      ensures packet == if wanted then Some(HeadPacket(old(Abs()))) else None
    {
      hide AnyLast, Decoding, FirstLength, Granules, RunPacket, Total, Zip;
      packet := None;
      var ptr, bytes, last := GatherPacket();
      HeadRun(ptr, bytes);
      if wanted {
        var data := bodyData[bodyReturned..bodyReturned + bytes];
        assert data == Body()[..bytes];
        packet := Some(OggPacket(Packet(data, lacingVals[lacingReturned].first, last, granuleVals[ptr]), packetno));
      }
      if adv {
        assert Lacings()[..ptr + 1 - lacingReturned] == lacingVals[lacingReturned..ptr + 1];
        Advance(ptr + 1 - lacingReturned, bytes);
      }
      r := 1;
    }
  }

  lemma {:induction false} RunFlags(run: seq<Seg>, l: seq<Lacing>)
    requires |run| == |l| && forall k :: 0 <= k < |l| ==> run[k].last == l[k].last
    ensures (exists i :: 0 <= i < |run| && run[i].last) == AnyLast(l)
  {
    if i :| 0 <= i < |run| && run[i].last {
      assert l[i] in l;
    }
  }
}
