/** Whole runs of the decoder, for any interleaving of calls and any pages that go missing. */
module OggReceiver {
  import opened Sequences
  import opened OggSegments
  import opened OggPage
  import opened OggState
  import opened OggEncoder
  import opened OggDecoder
  import opened OggTransport
  import opened OggDelivery

  /** A call on a decoding stream state. */
  datatype DecoderOp = Arrive(page: Page) | Out | Peek

  /** A run so far: the state, and what was taken out of it, gap reports included. */
  datatype Decoded = Decoded(stream: Stream, returned: seq<OggPacket>)

  /** A call takes the head event out: packetout does, and packetpeek when the event is a gap. */
  predicate Takes(s: Stream, op: DecoderOp)
    requires s.packet <= |s.segs|
  {
    (op.Out? && PacketCode(s) != 0) || (op.Peek? && PacketCode(s) == -1)
  }

  function DecoderStep(d: Decoded, op: DecoderOp): Decoded
    requires Decoding(d.stream) && (op.Arrive? ==> WellFormed(op.page))
  {
    if op.Arrive? then d.(stream := PageIn(d.stream, op.page))
    else if Takes(d.stream, op) then Decoded(Popped(d.stream), d.returned + [HeadPacket(d.stream)])
    else d
  }

  lemma {:induction false} StepKeepsDecoding(d: Decoded, op: DecoderOp)
    requires Decoding(d.stream) && (op.Arrive? ==> WellFormed(op.page))
    ensures Decoding(DecoderStep(d, op).stream)
  {
    if op.Arrive? {
      PageInKeeps(d.stream, op.page);
    } else if Takes(d.stream, op) {
      PopKeeps(d.stream);
    }
  }

  predicate PagesWellFormed(ops: seq<DecoderOp>) {
    forall i :: 0 <= i < |ops| && ops[i].Arrive? ==> WellFormed(ops[i].page)
  }

  function Decode(d: Decoded, ops: seq<DecoderOp>): (r: Decoded)
    requires Decoding(d.stream) && PagesWellFormed(ops)
    ensures Decoding(r.stream)
    decreases |ops|
  {
    StepKeepsDecodingAll(d, ops);
    if ops == [] then d else Decode(DecoderStep(d, ops[0]), ops[1..])
  }

  lemma {:induction false} StepKeepsDecodingAll(d: Decoded, ops: seq<DecoderOp>)
    requires Decoding(d.stream) && PagesWellFormed(ops)
    ensures ops != [] ==> Decoding(DecoderStep(d, ops[0]).stream) && PagesWellFormed(ops[1..])
  {
    if ops != [] {
      StepKeepsDecoding(d, ops[0]);
    }
  }

  /** The pages that arrive in a run. */
  function Arrivals(ops: seq<DecoderOp>): seq<Page> {
    if ops == [] then []
    else (if ops[0].Arrive? then [ops[0].page] else []) + Arrivals(ops[1..])
  }

  /** What was returned so far, and what is ready to be. */
  function Heard(d: Decoded): seq<Event>
    requires d.stream.packet <= |d.stream.segs|
  {
    EventsOf(d.returned) + Pending(d.stream)
  }

  function EventsOf(packets: seq<OggPacket>): (events: seq<Event>)
    ensures |events| == |packets|
    ensures forall i :: 0 <= i < |packets| ==> events[i] == packets[i].event
  {
    seq(|packets|, i requires 0 <= i < |packets| => packets[i].event)
  }

  /** The packets are numbered from 0 in the order they are returned; gap reports count. */
  predicate Numbered(d: Decoded) {
    && d.stream.packetno == |d.returned|
    && forall i :: 0 <= i < |d.returned| ==> d.returned[i].packetno == i
  }

  // ---------- what has to be heard ----------

  /** The pages ks, in increasing order, are those delivered from `next` on. */
  predicate Arrives(t: Trip, delivered: set<nat>, next: int, ks: seq<nat>)
    decreases |ks|
  {
    if ks == [] then forall l: nat :: next <= l < |t.groups| ==> l !in delivered
    else
      && next <= ks[0] < |t.groups| && ks[0] in delivered
      && (forall l: nat :: next <= l < ks[0] ==> l !in delivered)
      && Arrives(t, delivered, ks[0] + 1, ks[1..])
  }

  /** What the pages ks give, delivered after those before `next`. */
  ghost function Expected(t: Trip, delivered: set<nat>, next: int, ks: seq<nat>): seq<Event>
    requires Arrives(t, delivered, next, ks)
    decreases |ks|
  {
    if ks == [] then []
    else PageEvents(t, delivered, next, ks[0]) + Expected(t, delivered, ks[0] + 1, ks[1..])
  }

  /** Page k in bytes. */
  function PageBytes(t: Trip, k: nat, serialno: int): Page
    requires k < |t.groups| && 0 < |t.groups[k]| <= MAX_SEGMENTS
  {
    MakePage(HeadOf(t, k, serialno), Join(t.groups[k]))
  }

  /** The numbers of the stream fit their places in the page headers. */
  predicate TripFits(t: Trip, serialno: int) {
    && (forall k :: 0 <= k < |t.groups| ==> 0 < |t.groups[k]| <= MAX_SEGMENTS)
    && |t.groups| <= 0x8000_0000 && -0x8000_0000 <= serialno < 0x8000_0000
    && forall i :: 0 <= i < |t.ps| ==> -0x8000_0000_0000_0000 <= t.ps[i].granulepos < 0x8000_0000_0000_0000
  }

  /** The pages ks in bytes. */
  predicate PagesAt(t: Trip, serialno: int, ks: seq<nat>, pages: seq<Page>)
    requires TripFits(t, serialno)
  {
    && |pages| == |ks|
    && forall j :: 0 <= j < |ks| ==> ks[j] < |t.groups| && pages[j] == PageBytes(t, ks[j], serialno)
  }

  lemma {:induction false} LastDoneFits(t: Trip, segs: seq<Seg>, at: nat)
    requires forall i :: 0 <= i < |t.ps| ==> -0x8000_0000_0000_0000 <= t.ps[i].granulepos < 0x8000_0000_0000_0000
    requires at + |segs| <= |AllSegs(t.ps)| && forall z :: 0 <= z < |segs| ==> segs[z] == AllSegs(t.ps)[at + z]
    ensures -0x8000_0000_0000_0000 <= LastDone(segs) < 0x8000_0000_0000_0000
  {
    if segs != [] {
      var z := |segs| - 1;
      Lengths(t);
      var i := PacketOf(t, at + z);
      SegmentAt(t, i, at + z);
      LastDoneFits(t, segs[..z], at);
    }
  }

  /** The header fields of page k fit their places. */
  lemma {:induction false} HeadFits(t: Trip, k: nat, serialno: int)
    requires WellCut(t) && TripFits(t, serialno) && k < |t.groups|
    ensures HeadOf(t, k, serialno).Fits()
  {
    var group := t.groups[k];
    forall z | 0 <= z < |group|
      ensures Cum(t, k) + |group| <= |AllSegs(t.ps)| && group[z] == AllSegs(t.ps)[Cum(t, k) + z]
    {
      GroupAt(t, k, z);
    }
    GroupAt(t, k, 0);
    LastDoneFits(t, group, Cum(t, k));
  }

  /** Taking in page k of the stream is placing its segments. */
  lemma {:induction false} ArrivalTakesPage(t: Trip, s: Stream, k: nat, serialno: int)
    requires WellCut(t) && TripFits(t, serialno) && k < |t.groups| && s.serialno == serialno && s.packet <= |s.segs|
    ensures var page := PageBytes(t, k, serialno);
      WellFormed(page) && PageIn(s, page) == TakePage(s, HeadOf(t, k, serialno), Chunks(t.groups[k]))
  {
    HeadFits(t, k, serialno);
    CutJoin(t.groups[k]);
    MakePageReads(HeadOf(t, k, serialno), Join(t.groups[k]));
  }

  // ---------- a step ----------

  /** The decoder has dealt with the delivered pages before `next`, and numbered what it returned. */
  ghost predicate OnCourse(t: Trip, delivered: set<nat>, d: Decoded, next: int, serialno: int) {
    && TripFits(t, serialno) && InStep(t, delivered, d.stream, next)
    && d.stream.serialno == serialno && Numbered(d)
  }

  lemma {:induction false} PopTail(s: Stream)
    requires Decoding(s) && s.packet > 0
    ensures var r := Popped(s);
      Decoding(r) && r.segs[r.packet..] == s.segs[s.packet..] && (Orphaned(s) ==> Orphaned(r))
  {
    PopEvent(s);
    var n := FirstLength(s.segs);
    assert s.segs[n..][s.packet - n..] == s.segs[s.packet..];
  }

  lemma {:induction false} PopHears(d: Decoded)
    requires Decoding(d.stream) && d.stream.packet > 0
    ensures Decoding(Popped(d.stream))
    ensures Heard(Decoded(Popped(d.stream), d.returned + [HeadPacket(d.stream)])) == Heard(d)
  {
    var event := FirstEvent(d.stream.segs);
    PopEvent(d.stream);
    AppendAssociates(EventsOf(d.returned), [event], Pending(Popped(d.stream)));
    assert EventsOf(d.returned + [HeadPacket(d.stream)]) == EventsOf(d.returned) + [event];
  }

  /** Asking for packets moves events from ready to returned, and changes nothing else. */
  lemma {:induction false} TakeHears(t: Trip, delivered: set<nat>, d: Decoded, next: int, op: DecoderOp, serialno: int)
    requires OnCourse(t, delivered, d, next, serialno) && !op.Arrive?
    ensures OnCourse(t, delivered, DecoderStep(d, op), next, serialno)
    ensures Heard(DecoderStep(d, op)) == Heard(d)
  {
    if Takes(d.stream, op) {
      PopTail(d.stream);
      PopHears(d);
    }
  }

  /** An arriving page adds what it must give. */
  lemma {:induction false} ArriveHears(t: Trip, delivered: set<nat>, d: Decoded, next: int, k: nat, serialno: int)
    requires OnCourse(t, delivered, d, next, serialno)
    requires next <= k < |t.groups| && k in delivered && forall l: nat :: next <= l < k ==> l !in delivered
    ensures WellFormed(PageBytes(t, k, serialno))
    ensures var r := DecoderStep(d, Arrive(PageBytes(t, k, serialno)));
      OnCourse(t, delivered, r, k + 1, serialno) && Heard(r) == Heard(d) + PageEvents(t, delivered, next, k)
  {
    hide Carry, HeadOf, PageEvents, PageIn, TripFits, WellCut;
    ArrivalTakesPage(t, d.stream, k, serialno);
    DeliverStep(t, delivered, d.stream, next, k, serialno);
    AppendAssociates(EventsOf(d.returned), Pending(d.stream), PageEvents(t, delivered, next, k));
  }

  /** What a run adds to what is heard. */
  ghost predicate Hears(d: Decoded, ops: seq<DecoderOp>, events: seq<Event>)
    requires Decoding(d.stream)
  {
    PagesWellFormed(ops) && Numbered(Decode(d, ops)) && Heard(Decode(d, ops)) == Heard(d) + events
  }

  lemma {:induction false} HearsUnfold(d: Decoded, ops: seq<DecoderOp>, now: seq<Event>, later: seq<Event>)
    requires Decoding(d.stream) && ops != [] && (ops[0].Arrive? ==> WellFormed(ops[0].page))
    requires Decoding(DecoderStep(d, ops[0]).stream) && Heard(DecoderStep(d, ops[0])) == Heard(d) + now
    requires Hears(DecoderStep(d, ops[0]), ops[1..], later)
    ensures Hears(d, ops, now + later)
  {
    assert forall i :: 0 < i < |ops| ==> ops[i] == ops[1..][i - 1];
    AppendAssociates(Heard(d), now, later);
  }

  lemma {:induction false} ArrivalsSplit(t: Trip, ks: seq<nat>, ops: seq<DecoderOp>, serialno: int)
    requires TripFits(t, serialno) && ops != [] && ops[0].Arrive? && PagesAt(t, serialno, ks, Arrivals(ops))
    ensures ks != [] && ks[0] < |t.groups| && ops[0].page == PageBytes(t, ks[0], serialno)
    ensures PagesAt(t, serialno, ks[1..], Arrivals(ops[1..]))
  {
    TailPagesAt(t, ks, Arrivals(ops), ops[0].page, Arrivals(ops[1..]), serialno);
  }

  lemma {:induction false} TailPagesAt(t: Trip, ks: seq<nat>, pages: seq<Page>, first: Page, later: seq<Page>,
      serialno: int)
    requires TripFits(t, serialno) && pages == [first] + later && PagesAt(t, serialno, ks, pages)
    ensures ks != [] && ks[0] < |t.groups| && first == PageBytes(t, ks[0], serialno)
    ensures PagesAt(t, serialno, ks[1..], later)
  {
    assert first == pages[0];
    forall j | 0 <= j < |later|
      ensures ks[1..][j] < |t.groups| && later[j] == PageBytes(t, ks[1..][j], serialno)
    {
      assert later[j] == pages[j + 1];
    }
  }

  /**
   Any run that receives the pages ks, in order: what is heard is exactly what those pages must
   give, however the calls are interleaved, and packets are numbered in the order returned.
   */
  lemma {:induction false} DecoderRun(t: Trip, delivered: set<nat>, d: Decoded, next: int, ks: seq<nat>,
      ops: seq<DecoderOp>, serialno: int)
    requires OnCourse(t, delivered, d, next, serialno)
    requires Arrives(t, delivered, next, ks) && PagesAt(t, serialno, ks, Arrivals(ops))
    ensures Hears(d, ops, Expected(t, delivered, next, ks))
    decreases |ops|, 1
  {
    if ops == [] {
      assert Heard(d) + [] == Heard(d);
    } else if ops[0].Arrive? {
      RunArrives(t, delivered, d, next, ks, ops, serialno);
    } else {
      RunTakes(t, delivered, d, next, ks, ops, serialno);
    }
  }

  lemma {:induction false} ExpectedUnfold(t: Trip, delivered: set<nat>, next: int, ks: seq<nat>)
    requires Arrives(t, delivered, next, ks) && ks != []
    ensures next <= ks[0] < |t.groups| && ks[0] in delivered && forall l: nat :: next <= l < ks[0] ==> l !in delivered
    ensures Arrives(t, delivered, ks[0] + 1, ks[1..])
    ensures Expected(t, delivered, next, ks)
         == PageEvents(t, delivered, next, ks[0]) + Expected(t, delivered, ks[0] + 1, ks[1..])
  {
  }

  /** The run begins with a page. */
  lemma {:induction false} RunArrives(t: Trip, delivered: set<nat>, d: Decoded, next: int, ks: seq<nat>,
      ops: seq<DecoderOp>, serialno: int)
    requires OnCourse(t, delivered, d, next, serialno) && ops != [] && ops[0].Arrive?
    requires Arrives(t, delivered, next, ks) && PagesAt(t, serialno, ks, Arrivals(ops))
    ensures Hears(d, ops, Expected(t, delivered, next, ks))
    decreases |ops|, 0
  {
    hide Done, Expected, HeadPacket, Heard, Hears, HolesApart, Numbered, PageBytes, PageEvents, PageIn, TripFits;
    ArrivalsSplit(t, ks, ops, serialno);
    ExpectedUnfold(t, delivered, next, ks);
    ArriveHears(t, delivered, d, next, ks[0], serialno);
    DecoderRun(t, delivered, DecoderStep(d, ops[0]), ks[0] + 1, ks[1..], ops[1..], serialno);
    HearsUnfold(d, ops, PageEvents(t, delivered, next, ks[0]), Expected(t, delivered, ks[0] + 1, ks[1..]));
  }

  /** The run begins with a packetout or a peek. */
  lemma {:induction false} RunTakes(t: Trip, delivered: set<nat>, d: Decoded, next: int, ks: seq<nat>,
      ops: seq<DecoderOp>, serialno: int)
    requires OnCourse(t, delivered, d, next, serialno) && ops != [] && !ops[0].Arrive?
    requires Arrives(t, delivered, next, ks) && PagesAt(t, serialno, ks, Arrivals(ops))
    ensures Hears(d, ops, Expected(t, delivered, next, ks))
    decreases |ops|, 0
  {
    hide Expected, HeadPacket, Heard, Hears;
    var expected := Expected(t, delivered, next, ks);
    TakeHears(t, delivered, d, next, ops[0], serialno);
    assert Arrivals(ops) == Arrivals(ops[1..]);
    DecoderRun(t, delivered, DecoderStep(d, ops[0]), next, ks, ops[1..], serialno);
    assert Heard(d) + [] == Heard(d) && [] + expected == expected;
    HearsUnfold(d, ops, [], expected);
  }
}
