/**
 Segments: the pieces of at most 255 bytes into which a packet is laced (section 5 of RFC 3533),
 each with the flags and the granule position that the stream state keeps beside it.
 */
module OggSegments {
  import opened Bytes
  import opened Sequences

  type Chunk = c: seq<byte> | |c| <= 255 witness []

  /** One entry of the lacing FIFO: its bytes, the flag bits 0x100, 0x200 and 0x400, and its granule value. */
  datatype Seg = Seg(data: Chunk, first: bool, last: bool, hole: bool, granule: int) {
    /** A segment shorter than 255 bytes ends its packet. */
    predicate Ends() {
      |data| < 255
    }
  }

  /** The entry that notes lost data: no bytes, and only the 0x400 bit. */
  const HOLE := Seg([], false, false, true, 0)

  /** The bytes of a list of segments. */
  function Join(segs: seq<Seg>): seq<byte> {
    if segs == [] then [] else segs[0].data + Join(segs[1..])
  }

  /** The segment table entries of a list of segments. */
  function Sizes(segs: seq<Seg>): (t: seq<byte>)
    ensures |t| == |segs|
  {
    seq(|segs|, i requires 0 <= i < |segs| => |segs[i].data| as byte)
  }

  lemma {:induction false} JoinConcat(a: seq<Seg>, b: seq<Seg>)
    ensures Join(a + b) == Join(a) + Join(b)
  {
    if a == [] {
      assert a + b == b;
    } else {
      assert (a + b)[1..] == a[1..] + b;
      JoinConcat(a[1..], b);
    }
  }

  lemma {:induction false} JoinLength(segs: seq<Seg>)
    ensures |Join(segs)| == Sum(Sizes(segs))
  {
    if segs != [] {
      assert Sizes(segs)[1..] == Sizes(segs[1..]);
      JoinLength(segs[1..]);
    }
  }

  /** Cuts a body at the sizes of a segment table. */
  function Cut(table: seq<byte>, body: seq<byte>): (chunks: seq<Chunk>)
    requires Sum(table) == |body|
    ensures |chunks| == |table|
    ensures forall i :: 0 <= i < |table| ==> |chunks[i]| == table[i]
  {
    if table == [] then [] else [body[..table[0]]] + Cut(table[1..], body[table[0]..])
  }

  /** The chunks of a list of segments. */
  function Chunks(segs: seq<Seg>): (c: seq<Chunk>)
    ensures |c| == |segs|
  {
    seq(|segs|, i requires 0 <= i < |segs| => segs[i].data)
  }

  /** A page holding the sizes and the bytes of some segments gives their chunks back. */
  lemma {:induction false} CutJoin(segs: seq<Seg>)
    ensures Sum(Sizes(segs)) == |Join(segs)|
    ensures Cut(Sizes(segs), Join(segs)) == Chunks(segs)
  {
    JoinLength(segs);
    if segs != [] {
      CutJoin(segs[1..]);
      assert Sizes(segs)[1..] == Sizes(segs[1..]);
      assert Join(segs)[|segs[0].data|..] == Join(segs[1..]);
    }
  }

  /** The lacing of a packet: full segments, then one of fewer than 255 bytes, possibly none. */
  function Lace(data: seq<byte>, granule: int, before: int, first: bool): (segs: seq<Seg>)
    ensures |segs| == |data| / 255 + 1
    decreases |data|
  {
    if |data| < 255 then
      [Seg(data, first, false, false, granule)]
    else
      [Seg(data[..255], first, false, false, before)] + Lace(data[255..], granule, before, false)
  }

  lemma {:induction false} LaceJoin(data: seq<byte>, granule: int, before: int, first: bool)
    ensures Join(Lace(data, granule, before, first)) == data
    decreases |data|
  {
    var segs := Lace(data, granule, before, first);
    if |data| < 255 {
      assert segs[1..] == [];
    } else {
      LaceJoin(data[255..], granule, before, false);
      assert segs[1..] == Lace(data[255..], granule, before, false);
    }
  }

  /** Every segment of a laced packet but the last is full; only the first carries the start flag. */
  lemma {:induction false} LaceShape(data: seq<byte>, granule: int, before: int, first: bool, i: nat)
    requires i <= |data| / 255
    ensures var seg := Lace(data, granule, before, first)[i];
      && |seg.data| == (if i < |data| / 255 then 255 else |data| % 255)
      && seg == Seg(seg.data, first && i == 0, false, false, if i < |data| / 255 then before else granule)
    decreases i
  {
    if |data| >= 255 && i > 0 {
      LaceShape(data[255..], granule, before, false, i - 1);
    }
  }

  /** The number of segments up to and including the first that ends a packet. */
  function RunLength(segs: seq<Seg>): (n: nat)
    ensures n <= |segs|
  {
    if segs == [] then 0 else if segs[0].Ends() then 1 else 1 + RunLength(segs[1..])
  }

  lemma {:induction false} RunLengthIs(segs: seq<Seg>, n: nat)
    requires 1 <= n <= |segs| && segs[n - 1].Ends()
    requires forall i :: 0 <= i < n - 1 ==> !segs[i].Ends()
    ensures RunLength(segs) == n
  {
    if n > 1 {
      assert !segs[0].Ends();
      assert segs[1..][n - 2] == segs[n - 1];
      RunLengthIs(segs[1..], n - 1);
    }
  }

  lemma {:induction false} RunEnds(segs: seq<Seg>)
    requires segs != [] && Closed(segs)
    ensures 1 <= RunLength(segs) && segs[RunLength(segs) - 1].Ends()
    ensures forall i :: 0 <= i < RunLength(segs) - 1 ==> !segs[i].Ends()
  {
    if !segs[0].Ends() {
      RunEnds(segs[1..]);
      assert forall i :: 1 <= i < RunLength(segs) - 1 ==> segs[i] == segs[1..][i - 1];
    }
  }

  /** What the decoder hands to the codec: a packet, or the report that data is missing. */
  datatype Event =
    | Packet(data: seq<byte>, bos: bool, eos: bool, granule: int)
    | Missing

  /** A list of segments that is a whole number of packets and holes. */
  predicate Closed(segs: seq<Seg>) {
    segs == [] || segs[|segs| - 1].Ends()
  }

  /** Holes have no bytes and stand at a packet boundary. */
  predicate HolesApart(segs: seq<Seg>) {
    forall i :: 0 <= i < |segs| && segs[i].hole ==> segs[i].data == [] && (i == 0 || segs[i - 1].Ends())
  }

  /** The packet made of a run of segments. */
  function RunPacket(run: seq<Seg>): Event
    requires run != []
  {
    Packet(Join(run), run[0].first, exists i :: 0 <= i < |run| && run[i].last, run[|run| - 1].granule)
  }

  /** The number of entries that the first event takes. */
  function FirstLength(segs: seq<Seg>): (n: nat)
    requires segs != []
    ensures 1 <= n <= |segs|
  {
    if segs[0].hole then 1 else RunLength(segs)
  }

  /** The event at the head of a list of segments. */
  function FirstEvent(segs: seq<Seg>): Event
    requires segs != []
  {
    if segs[0].hole then Missing else RunPacket(segs[..FirstLength(segs)])
  }

  /** The events that a closed list of segments stands for, in order. */
  function Events(segs: seq<Seg>): seq<Event>
    decreases |segs|
  {
    if segs == [] then [] else [FirstEvent(segs)] + Events(segs[FirstLength(segs)..])
  }

  lemma {:induction false} RunLengthConcat(a: seq<Seg>, b: seq<Seg>)
    requires a != [] && Closed(a)
    ensures RunLength(a + b) == RunLength(a)
  {
    if !a[0].Ends() {
      assert (a + b)[1..] == a[1..] + b;
      RunLengthConcat(a[1..], b);
    }
  }

  lemma {:induction false} ClosedConcat(a: seq<Seg>, b: seq<Seg>)
    requires Closed(a) && Closed(b)
    ensures Closed(a + b)
  {
    if b == [] {
      assert a + b == a;
    }
  }

  lemma {:induction false} FirstConcat(a: seq<Seg>, b: seq<Seg>)
    requires a != [] && Closed(a)
    ensures FirstLength(a + b) == FirstLength(a)
    ensures (a + b)[FirstLength(a)..] == a[FirstLength(a)..] + b
    ensures FirstEvent(a + b) == FirstEvent(a)
  {
    RunLengthConcat(a, b);
    assert (a + b)[..FirstLength(a)] == a[..FirstLength(a)];
  }

  lemma {:induction false} EventsUnfold(segs: seq<Seg>, event: Event, rest: seq<Seg>)
    requires segs != [] && event == FirstEvent(segs) && rest == segs[FirstLength(segs)..]
    ensures Events(segs) == [event] + Events(rest)
  {
  }

  /** Events come from each side of a packet boundary separately. */
  lemma {:induction false} EventsConcat(a: seq<Seg>, b: seq<Seg>)
    requires Closed(a)
    ensures Events(a + b) == Events(a) + Events(b)
    decreases |a|
  {
    if a == [] {
      assert a + b == b;
    } else {
      var event, rest := FirstEvent(a), a[FirstLength(a)..];
      EventsUnfold(a, event, rest);
      FirstConcat(a, b);
      EventsUnfold(a + b, event, rest + b);
      EventsConcat(rest, b);
      AppendAssociates([event], Events(rest), Events(b));
    }
  }
}
