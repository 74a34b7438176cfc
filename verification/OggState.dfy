/** The logical stream state that encoding and decoding share: the lacing FIFO and its counters. */
module OggState {
  import opened Bytes
  import opened Options
  import opened OggSegments
  import opened OggPage

  /**
   The contents of a stream state. `segs` are the entries not yet returned; on decode the first
   `packet` of them belong to whole packets.
   */
  datatype Stream = Stream(
    segs: seq<Seg>, packet: nat,
    eos: bool, bos: bool, serialno: int, pageno: int, packetno: int, granulepos: int)

  /** A stream state after initialisation. */
  function Fresh(serialno: int): Stream {
    Stream([], 0, false, false, serialno, 0, 0, 0)
  }

  // ---------- encoding ----------

  /** A packet as it is submitted to the encoder. */
  datatype Submission = Submission(data: seq<byte>, eos: bool, granulepos: int)

  function PacketIn(s: Stream, p: Submission): Stream {
    s.(segs := s.segs + Lace(p.data, p.granulepos, s.granulepos, true),
    granulepos := p.granulepos, packetno := s.packetno + 1, eos := s.eos || p.eos)
  }

  /** The number of packets that end in a list of segments. */
  function PacketsDone(segs: seq<Seg>): nat {
    if segs == [] then 0
    else PacketsDone(segs[..|segs| - 1]) + if segs[|segs| - 1].Ends() then 1 else 0
  }

  /** The granule value of the last packet that ends in a list of segments, -1 when none does. */
  function LastDone(segs: seq<Seg>): int {
    if segs == [] then -1
    else if segs[|segs| - 1].Ends() then segs[|segs| - 1].granule
    else LastDone(segs[..|segs| - 1])
  }

  lemma {:induction false} PrefixGrows(segs: seq<Seg>, i: nat)
    requires i < |segs|
    ensures Sum(Sizes(segs[..i + 1])) == Sum(Sizes(segs[..i])) + |segs[i].data|
    ensures PacketsDone(segs[..i + 1]) == PacketsDone(segs[..i]) + if segs[i].Ends() then 1 else 0
    ensures LastDone(segs[..i + 1]) == if segs[i].Ends() then segs[i].granule else LastDone(segs[..i])
  {
    assert segs[..i + 1][..i] == segs[..i] && segs[..i + 1] == segs[..i] + [segs[i]];
    assert Sizes(segs[..i + 1]) == Sizes(segs[..i]) + [|segs[i].data| as byte];
    SumConcat(Sizes(segs[..i]), [|segs[i].data| as byte]);
    assert Sum([|segs[i].data| as byte]) == |segs[i].data| + Sum([|segs[i].data| as byte][1..]);
  }

  /** A page of the first i segments is over the nominal size and has just ended a fourth or later packet. */
  predicate Nominal(segs: seq<Seg>, i: nat, nfill: int)
    requires i <= |segs|
  {
    && Sum(Sizes(segs[..i])) > nfill
    && i > 0 && segs[i - 1].Ends() && PacketsDone(segs[..i]) >= 4
  }

  /** The first place from i on, below max, where a page is nominal; max when there is none. */
  function NominalCut(segs: seq<Seg>, i: nat, max: nat, nfill: int): (cut: nat)
    requires i <= max <= |segs|
    ensures i <= cut <= max
    ensures cut < max ==> Nominal(segs, cut, nfill)
    ensures forall k :: i <= k < cut ==> !Nominal(segs, k, nfill)
    decreases max - i
  {
    if i == max || Nominal(segs, i, nfill) then i else NominalCut(segs, i + 1, max, nfill)
  }

  /** The segments of the first packet, from i on and within max. */
  function HeaderCut(segs: seq<Seg>, i: nat, max: nat): (cut: nat)
    requires i <= max <= |segs|
    ensures i <= cut <= max
    ensures i < max ==> i < cut
    ensures forall k :: i <= k < cut - 1 ==> !segs[k].Ends()
    ensures i < max && cut < max ==> segs[cut - 1].Ends()
    decreases max - i
  {
    if i == max then max else if segs[i].Ends() then i + 1 else HeaderCut(segs, i + 1, max)
  }

  function MaxSegments(s: Stream): nat {
    if |s.segs| > MAX_SEGMENTS then MAX_SEGMENTS else |s.segs|
  }

  /** How many segments the next page takes. */
  function PageCut(s: Stream, nfill: int): (cut: nat)
    ensures cut <= |s.segs| && cut <= MAX_SEGMENTS
    ensures s.segs != [] ==> cut > 0
  {
    if !s.bos then HeaderCut(s.segs, 0, MaxSegments(s)) else NominalCut(s.segs, 0, MaxSegments(s), nfill)
  }

  /** Whether a page is written now. */
  predicate Writes(s: Stream, force: bool, nfill: int) {
    && s.segs != []
    && (force || (s.bos && (PageCut(s, nfill) < MaxSegments(s) || PageCut(s, nfill) == MAX_SEGMENTS)))
  }

  function NextPageno(s: Stream): int {
    if s.pageno == -1 then 0 else s.pageno
  }

  /** The header of a page of the first cut segments. */
  function PageHead(s: Stream, cut: nat): Head
    requires 0 < cut <= |s.segs|
  {
    Head(
      !s.segs[0].first, !s.bos, s.eos && cut == |s.segs|,
      if s.bos then LastDone(s.segs[..cut]) else 0,
      s.serialno, NextPageno(s), Sizes(s.segs[..cut]))
  }

  /** A page of the first segments, when it is time to write one. */
  function FlushPage(s: Stream, force: bool, nfill: int): Option<Page> {
    if !Writes(s, force, nfill) then None
    else
      var cut := PageCut(s, nfill);
      Some(MakePage(PageHead(s, cut), Join(s.segs[..cut])))
  }

  /** The state after FlushPage. */
  function Flushed(s: Stream, force: bool, nfill: int): Stream {
    if !Writes(s, force, nfill) then s
    else s.(segs := s.segs[PageCut(s, nfill)..], bos := true, pageno := NextPageno(s) + 1)
  }

  /** A call of pageout forces a page at the end of the stream and for the initial header. */
  predicate PageOutForces(s: Stream) {
    s.segs != [] && (s.eos || !s.bos)
  }

  // ---------- decoding ----------

  /** The index of the last chunk that ends a packet, -1 when none does. */
  function LastEnd(chunks: seq<Chunk>): (i: int)
    ensures -1 <= i < |chunks|
  {
    if chunks == [] then -1
    else if |chunks[|chunks| - 1]| < 255 then |chunks| - 1
    else LastEnd(chunks[..|chunks| - 1])
  }

  /** The chunks up to and including the first that ends a packet. */
  function SkipLength(chunks: seq<Chunk>): (n: nat)
    ensures n <= |chunks|
  {
    if chunks == [] then 0 else if |chunks[0]| < 255 then 1 else 1 + SkipLength(chunks[1..])
  }

  /** The entries that a page adds: the start flag on the first, the granule position on the last full packet. */
  function Entries(chunks: seq<Chunk>, bos: bool, granulepos: int): (segs: seq<Seg>)
    ensures |segs| == |chunks|
  {
    seq(|chunks|, i requires 0 <= i < |chunks| =>
      Seg(chunks[i], bos && i == 0, false, false, if i == LastEnd(chunks) then granulepos else -1))
  }

  /** The exact entry that a dropped page leaves behind. */
  predicate IsHole(seg: Seg) {
    seg.hole && !seg.first && !seg.last && seg.data == []
  }

  /** A page is out of sequence: drop the unfinished packet and note the loss. */
  function Resync(s: Stream): Stream
    requires s.packet <= |s.segs|
  {
    if s.pageno == -1 then
      s.(segs := s.segs[..s.packet])
    else
      s.(segs := s.segs[..s.packet] + [HOLE], packet := s.packet + 1)
  }

  /** There is nothing that a continued page could continue. */
  predicate Orphaned(s: Stream) {
    s.segs == [] || IsHole(s.segs[|s.segs| - 1])
  }

  /** The page's segments go to the end of the FIFO. */
  function Append(s: Stream, chunks: seq<Chunk>, bos: bool, granulepos: int): Stream {
    s.(segs := s.segs + Entries(chunks, bos, granulepos),
    packet := if LastEnd(chunks) == -1 then s.packet else |s.segs| + LastEnd(chunks) + 1)
  }

  /** The last entry gets the end flag. */
  function MarkLast(segs: seq<Seg>): (r: seq<Seg>)
    ensures |r| == |segs|
  {
    if segs == [] then [] else segs[|segs| - 1 := segs[|segs| - 1].(last := true)]
  }

  /** The page number is checked. */
  function InSequence(s: Stream, head: Head): (r: Stream)
    requires s.packet <= |s.segs|
    ensures r.packet <= |r.segs|
  {
    if head.pageno != s.pageno then Resync(s) else s
  }

  /** The page's chunks are added, less those that continue something lost. */
  function Placed(s: Stream, head: Head, chunks: seq<Chunk>): Stream {
    if head.continued && Orphaned(s)
    then Append(s, chunks[SkipLength(chunks)..], false, head.granulepos)
    else Append(s, chunks, head.bos, head.granulepos)
  }

  /** The end of the stream is flagged, and the next page number expected. */
  function Ended(s: Stream, head: Head): Stream {
    s.(segs := if head.eos then MarkLast(s.segs) else s.segs, eos := s.eos || head.eos, pageno := head.pageno + 1)
  }

  /** A page of this stream is taken apart into the FIFO. */
  function TakePage(s: Stream, head: Head, chunks: seq<Chunk>): Stream
    requires s.packet <= |s.segs|
  {
    Ended(Placed(InSequence(s, head), head, chunks), head)
  }

  predicate Accepts(s: Stream, page: Page)
    requires |page.header| >= FIXED
  {
    ReadHead(page.header).serialno == s.serialno && Version(page.header) == 0
  }

  function PageIn(s: Stream, page: Page): Stream
    requires WellFormed(page) && s.packet <= |s.segs|
  {
    if Accepts(s, page) then
      var head := ReadHead(page.header);
      TakePage(s, head, Cut(head.table, page.body))
    else s
  }

  /** What a decoder keeps: whole packets and holes first, then only full segments. */
  predicate Decoding(s: Stream) {
    && s.packet <= |s.segs|
    && Closed(s.segs[..s.packet])
    && (forall i :: s.packet <= i < |s.segs| ==> !s.segs[i].Ends())
    && HolesApart(s.segs)
  }

  /** The pending events of a decoder. */
  function Pending(s: Stream): seq<Event>
    requires s.packet <= |s.segs|
  {
    Events(s.segs[..s.packet])
  }

  /** The state after the head event is taken. */
  function Popped(s: Stream): Stream
    requires 0 < s.packet <= |s.segs|
  {
    var n := FirstLength(s.segs);
    s.(segs := s.segs[n..], packet := if n <= s.packet then s.packet - n else 0, packetno := s.packetno + 1)
  }

  /** A packet as the decoder returns it. */
  datatype OggPacket = OggPacket(event: Event, packetno: int)

  /** The answer of a packetout or packetpeek call: 1 with a packet, -1 for a gap, 0 when nothing is ready. */
  function PacketCode(s: Stream): int
    requires s.packet <= |s.segs|
  {
    if s.packet == 0 then 0 else if s.segs[0].hole then -1 else 1
  }

  function HeadPacket(s: Stream): OggPacket
    requires 0 < s.packet <= |s.segs|
  {
    OggPacket(FirstEvent(s.segs), s.packetno)
  }
}
