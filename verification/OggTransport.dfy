/**
 A stream on its way: the packets submitted, the pages they were cut into, and what a decoder that
 receives some of the pages, in order, has to return.
 */
module OggTransport {
  import opened Sequences
  import opened OggSegments
  import opened OggState
  import opened OggEncoder
  import opened OggDecoder

  /** Packets, the segments in each page, and whether the last page is flagged as the end. */
  datatype Trip = Trip(ps: seq<Submission>, groups: seq<seq<Seg>>, ended: bool)

  /** The pages hold the packets' segments in order, one or more each; an ended stream holds them all. */
  ghost predicate WellCut(t: Trip) {
    && (forall k :: 0 <= k < |t.groups| ==> t.groups[k] != [])
    && Flatten(t.groups) <= AllSegs(t.ps)
    && (t.ended ==> Flatten(t.groups) == AllSegs(t.ps))
  }

  /** The number of segments before packet i: a packet of n bytes takes n/255 + 1. */
  function Off(t: Trip, i: nat): nat
    requires i <= |t.ps|
  {
    if i == 0 then 0 else Off(t, i - 1) + |t.ps[i - 1].data| / 255 + 1
  }

  /** The number of segments before page k. */
  function Cum(t: Trip, k: nat): nat
    requires k <= |t.groups|
  {
    if k == 0 then 0 else Cum(t, k - 1) + |t.groups[k - 1]|
  }

  /** The number of segments in the pages. */
  function Total(t: Trip): nat {
    Cum(t, |t.groups|)
  }

  /** Page k carries a segment of packet i. */
  predicate Carries(t: Trip, k: nat, i: nat)
    requires k < |t.groups| && i < |t.ps|
  {
    Cum(t, k) < Off(t, i + 1) && Off(t, i) < Cum(t, k + 1)
  }

  /** Page k carries the last segment of packet i. */
  predicate Completes(t: Trip, k: nat, i: nat)
    requires k < |t.groups| && i < |t.ps|
  {
    Cum(t, k) < Off(t, i + 1) <= Cum(t, k + 1)
  }

  /** Every page that carries a segment of packet i is delivered. */
  predicate Intact(t: Trip, delivered: set<nat>, i: nat)
    requires i < |t.ps|
  {
    forall k: nat :: k < |t.groups| && Carries(t, k, i) ==> k in delivered
  }

  /** Packet i is the last that page k completes. */
  predicate LastOn(t: Trip, k: nat, i: nat)
    requires k < |t.groups| && i < |t.ps|
  {
    Completes(t, k, i) && (i + 1 < |t.ps| ==> !Completes(t, k, i + 1))
  }

  /**
   The granule position that a packet is returned with: its own when it is the last that its page
   completes, but 0 on the first page; -1 for the other packets.
   */
  ghost function ReturnedGranule(t: Trip, i: nat): int
    requires i < |t.ps|
  {
    if k: nat :| k < |t.groups| && LastOn(t, k, i) then (if k == 0 then 0 else t.ps[i].granulepos) else -1
  }

  lemma {:induction false} OffIsLength(t: Trip, i: nat)
    requires i <= |t.ps|
    ensures |AllSegs(t.ps[..i])| == Off(t, i)
  {
    if i > 0 {
      OffIsLength(t, i - 1);
      assert t.ps[..i][..i - 1] == t.ps[..i - 1];
    }
  }

  lemma {:induction false} CumIsStart(t: Trip, k: nat)
    requires k <= |t.groups|
    ensures Start(t.groups, k) == Cum(t, k)
  {
    if k > 0 {
      CumIsStart(t, k - 1);
      FlattenSlice(t.groups, k - 1);
    }
  }

  lemma {:induction false} Lengths(t: Trip)
    ensures |AllSegs(t.ps)| == Off(t, |t.ps|) && |Flatten(t.groups)| == Total(t)
    ensures WellCut(t) ==> Total(t) <= Off(t, |t.ps|) && (t.ended ==> Total(t) == Off(t, |t.ps|))
  {
    OffIsLength(t, |t.ps|);
    CumIsStart(t, |t.groups|);
    assert t.ps[..|t.ps|] == t.ps && t.groups[..|t.groups|] == t.groups;
  }

  lemma {:induction false} AllSegsPrefix(ps: seq<Submission>, i: nat)
    requires i <= |ps|
    ensures |AllSegs(ps[..i])| <= |AllSegs(ps)| && AllSegs(ps)[..|AllSegs(ps[..i])|] == AllSegs(ps[..i])
    decreases |ps|
  {
    if i < |ps| {
      AllSegsPrefix(ps[..|ps| - 1], i);
      assert ps[..|ps| - 1][..i] == ps[..i];
    } else {
      assert ps[..i] == ps;
    }
  }

  lemma {:induction false} OffMonotone(t: Trip, i: nat, j: nat)
    requires i <= j <= |t.ps|
    ensures Off(t, i) + (j - i) <= Off(t, j)
    decreases j - i
  {
    if i < j {
      OffMonotone(t, i, j - 1);
    }
  }

  lemma {:induction false} CumMonotone(t: Trip, k: nat, l: nat)
    requires WellCut(t) && k <= l <= |t.groups|
    ensures Cum(t, k) + (l - k) <= Cum(t, l)
    decreases l - k
  {
    if k < l {
      CumMonotone(t, k, l - 1);
    }
  }

  /** The segments of packet i in the whole list. */
  lemma {:induction false} PacketSlice(t: Trip, i: nat)
    requires i < |t.ps|
    ensures Off(t, i) < Off(t, i + 1) <= |AllSegs(t.ps)|
    ensures AllSegs(t.ps)[Off(t, i)..Off(t, i + 1)]
         == Lace(t.ps[i].data, t.ps[i].granulepos, LastGranule(t.ps[..i]), true)
  {
    assert t.ps[..i + 1][..i] == t.ps[..i];
    OffIsLength(t, i);
    OffIsLength(t, i + 1);
    AllSegsPrefix(t.ps, i + 1);
    assert AllSegs(t.ps)[..Off(t, i + 1)][Off(t, i)..] == AllSegs(t.ps)[Off(t, i)..Off(t, i + 1)];
  }

  /** The number of packets that the first c segments complete, counted from packet i on. */
  function DoneFrom(t: Trip, i: nat, c: nat): (j: nat)
    requires i <= |t.ps|
    ensures i <= j <= |t.ps|
    ensures j > i ==> Off(t, j) <= c
    ensures j < |t.ps| ==> c < Off(t, j + 1)
    decreases |t.ps| - i
  {
    if i < |t.ps| && Off(t, i + 1) <= c then DoneFrom(t, i + 1, c) else i
  }

  /** The number of packets complete before page k. */
  function Done(t: Trip, k: nat): (j: nat)
    requires k <= |t.groups|
    ensures j <= |t.ps|
    ensures j < |t.ps| ==> Cum(t, k) < Off(t, j + 1)
  {
    DoneFrom(t, 0, Cum(t, k))
  }

  lemma {:induction false} DoneIs(t: Trip, k: nat)
    requires WellCut(t) && k <= |t.groups|
    ensures Off(t, Done(t, k)) <= Cum(t, k) <= Total(t)
    ensures Done(t, k) == |t.ps| ==> Cum(t, k) == Off(t, |t.ps|)
  {
    Lengths(t);
    CumMonotone(t, k, |t.groups|);
  }

  lemma {:induction false} DoneUnique(t: Trip, k: nat, j: nat)
    requires WellCut(t) && k <= |t.groups| && j <= |t.ps|
    requires Off(t, j) <= Cum(t, k) && (j < |t.ps| ==> Cum(t, k) < Off(t, j + 1))
    ensures Done(t, k) == j
  {
    var d := Done(t, k);
    DoneIs(t, k);
    if d < j {
      OffMonotone(t, d + 1, j);
    } else if j < d {
      OffMonotone(t, j + 1, d);
    }
  }

  lemma {:induction false} DoneCompare(t: Trip, k: nat, i: nat)
    requires WellCut(t) && k <= |t.groups| && i < |t.ps|
    ensures i < Done(t, k) <==> Off(t, i + 1) <= Cum(t, k)
  {
    DoneIs(t, k);
    var d := Done(t, k);
    if i < d {
      OffMonotone(t, i + 1, d);
    } else {
      OffMonotone(t, d + 1, i + 1);
    }
  }

  /** Packets complete on the page between the counts before and after it. */
  lemma {:induction false} CompletesIffDone(t: Trip, k: nat, i: nat)
    requires WellCut(t) && k < |t.groups| && i < |t.ps|
    ensures Completes(t, k, i) <==> Done(t, k) <= i < Done(t, k + 1)
  {
    DoneCompare(t, k, i);
    DoneCompare(t, k + 1, i);
  }

  lemma {:induction false} DoneMonotone(t: Trip, k: nat)
    requires WellCut(t) && k < |t.groups|
    ensures Done(t, k) <= Done(t, k + 1)
  {
    DoneIs(t, k);
    DoneIs(t, k + 1);
    CumMonotone(t, k, k + 1);
    var d, d' := Done(t, k), Done(t, k + 1);
    if d' < d {
      OffMonotone(t, d' + 1, d);
    }
  }

  // ---------- the segments as the decoder stores them ----------

  /** The granule position of page k. */
  function PageGranule(t: Trip, k: nat): int
    requires k < |t.groups|
  {
    if k == 0 then 0 else LastDone(t.groups[k])
  }

  /** The entries that page k stands for when none of them is skipped. */
  function PageEntries(t: Trip, k: nat): (segs: seq<Seg>)
    requires k < |t.groups|
    ensures |segs| == |t.groups[k]|
  {
    var segs := Entries(Chunks(t.groups[k]), k == 0, PageGranule(t, k));
    if t.ended && k == |t.groups| - 1 then MarkLast(segs) else segs
  }

  /** The entries of all pages, in order. */
  function Sent(t: Trip): seq<Seg> {
    Flatten(SentGroups(t))
  }

  function SentGroups(t: Trip): (r: seq<seq<Seg>>)
    ensures |r| == |t.groups|
    ensures forall k :: 0 <= k < |r| ==> r[k] == PageEntries(t, k)
  {
    seq(|t.groups|, k requires 0 <= k < |t.groups| => PageEntries(t, k))
  }

  lemma {:induction false} SentStart(t: Trip, k: nat)
    requires k <= |t.groups|
    ensures Start(SentGroups(t), k) == Cum(t, k)
  {
    hide PageEntries, SentGroups;
    if k > 0 {
      SentStart(t, k - 1);
      FlattenSlice(SentGroups(t), k - 1);
    }
  }

  /** Page k's stretch of the entries. */
  lemma {:induction false} SentSlice(t: Trip, k: nat)
    requires k < |t.groups|
    ensures Cum(t, k) <= Cum(t, k + 1) <= |Sent(t)|
    ensures Sent(t)[Cum(t, k)..Cum(t, k + 1)] == PageEntries(t, k)
  {
    SentStart(t, k);
    SentStart(t, k + 1);
    FlattenSlice(SentGroups(t), k);
  }

  lemma {:induction false} SentLength(t: Trip)
    ensures |Sent(t)| == Total(t)
  {
    SentStart(t, |t.groups|);
    assert SentGroups(t)[..|t.groups|] == SentGroups(t);
  }

  /** The page that segment x is on. */
  lemma {:induction false} PageOf(t: Trip, x: nat) returns (k: nat)
    requires x < Total(t)
    ensures k < |t.groups| && Cum(t, k) <= x < Cum(t, k + 1)
  {
    k := 0;
    while Cum(t, k + 1) <= x
      invariant k < |t.groups| && Cum(t, k) <= x
      decreases |t.groups| - k
    {
      k := k + 1;
    }
  }

  /** The packet that segment x belongs to. */
  lemma {:induction false} PacketOf(t: Trip, x: nat) returns (i: nat)
    requires x < Off(t, |t.ps|)
    ensures i < |t.ps| && Off(t, i) <= x < Off(t, i + 1)
  {
    i := 0;
    while Off(t, i + 1) <= x
      invariant i < |t.ps| && Off(t, i) <= x
      decreases |t.ps| - i
    {
      i := i + 1;
    }
  }

  /** The flags and size of a segment follow from its place in its packet. */
  lemma {:induction false} SegmentAt(t: Trip, i: nat, x: nat)
    requires i < |t.ps| && Off(t, i) <= x < Off(t, i + 1)
    ensures x < |AllSegs(t.ps)|
    ensures var seg := AllSegs(t.ps)[x];
      && seg.Ends() == (x == Off(t, i + 1) - 1) && seg.first == (x == Off(t, i)) && !seg.hole
      && (seg.Ends() ==> seg.granule == t.ps[i].granulepos)
  {
    PacketSlice(t, i);
    var p := t.ps[i];
    LaceShape(p.data, p.granulepos, LastGranule(t.ps[..i]), true, x - Off(t, i));
    assert AllSegs(t.ps)[x] == AllSegs(t.ps)[Off(t, i)..Off(t, i + 1)][x - Off(t, i)];
  }

  lemma {:induction false} GroupAt(t: Trip, k: nat, z: nat)
    requires WellCut(t) && k < |t.groups| && z < |t.groups[k]|
    ensures Cum(t, k) + z < Cum(t, k + 1) <= Total(t) <= |AllSegs(t.ps)|
    ensures t.groups[k][z] == AllSegs(t.ps)[Cum(t, k) + z]
  {
    Lengths(t);
    CumIsStart(t, k);
    CumIsStart(t, k + 1);
    FlattenSlice(t.groups, k);
    CumMonotone(t, k + 1, |t.groups|);
    assert Flatten(t.groups)[Cum(t, k)..Cum(t, k + 1)][z] == Flatten(t.groups)[Cum(t, k) + z];
  }

  lemma {:induction false} SentIsEntry(t: Trip, k: nat, y: nat)
    requires k < |t.groups| && y < |t.groups[k]|
    ensures Cum(t, k) + y < |Sent(t)| == Total(t)
    ensures Sent(t)[Cum(t, k) + y] == PageEntries(t, k)[y]
  {
    SentSlice(t, k);
    SentLength(t);
    assert Sent(t)[Cum(t, k) + y] == Sent(t)[Cum(t, k)..Cum(t, k + 1)][y];
  }

  lemma {:induction false} EntryAt(t: Trip, k: nat, y: nat)
    requires k < |t.groups| && y < |t.groups[k]|
    ensures PageEntries(t, k)[y] == Seg(
      t.groups[k][y].data, k == 0 && y == 0, t.ended && k == |t.groups| - 1 && y == |t.groups[k]| - 1, false,
      if y == LastEnd(Chunks(t.groups[k])) then PageGranule(t, k) else -1)
  {
  }

  lemma {:induction false} FirstAndLast(t: Trip, k: nat, y: nat)
    requires WellCut(t) && k < |t.groups| && y < |t.groups[k]|
    ensures (Cum(t, k) + y == 0) == (k == 0 && y == 0)
    ensures (Cum(t, k) + y == Total(t) - 1) == (k == |t.groups| - 1 && y == |t.groups[k]| - 1)
  {
    CumMonotone(t, 0, k);
    CumMonotone(t, k + 1, |t.groups|);
  }

  /** An entry of the decoder has the bytes of its segment; only the very first is flagged as a start. */
  lemma {:induction false} SentAt(t: Trip, k: nat, x: nat)
    requires WellCut(t) && k < |t.groups| && Cum(t, k) <= x < Cum(t, k + 1)
    ensures x < |Sent(t)| == Total(t) <= |AllSegs(t.ps)|
    ensures Sent(t)[x] == Seg(
      AllSegs(t.ps)[x].data, x == 0, t.ended && x == Total(t) - 1, false,
      if x - Cum(t, k) == LastEnd(Chunks(t.groups[k])) then PageGranule(t, k) else -1)
  {
    hide LastEnd, PageGranule, Sent, WellCut;
    var y := x - Cum(t, k);
    SentIsEntry(t, k, y);
    GroupAt(t, k, y);
    EntryAt(t, k, y);
    FirstAndLast(t, k, y);
  }

  lemma {:induction false} JoinOfData(a: seq<Seg>, b: seq<Seg>)
    requires |a| == |b| && forall i :: 0 <= i < |a| ==> a[i].data == b[i].data
    ensures Join(a) == Join(b)
  {
    if a != [] {
      JoinOfData(a[1..], b[1..]);
    }
  }

  lemma {:induction false} LastEndIs(chunks: seq<Chunk>, y: nat)
    requires y < |chunks| && |chunks[y]| < 255
    requires forall z :: y < z < |chunks| ==> |chunks[z]| == 255
    ensures LastEnd(chunks) == y
  {
    LastEndSplits(chunks);
  }

  lemma {:induction false} LastDoneIs(segs: seq<Seg>, y: nat)
    requires y < |segs| && segs[y].Ends()
    requires forall z :: y < z < |segs| ==> !segs[z].Ends()
    ensures LastDone(segs) == segs[y].granule
  {
    if y < |segs| - 1 {
      LastDoneIs(segs[..|segs| - 1], y);
    }
  }

  /** What the decoder returns for packet i. */
  ghost function PacketEvent(t: Trip, i: nat): Event
    requires i < |t.ps|
  {
    Packet(t.ps[i].data, i == 0, t.ended && i == |t.ps| - 1, ReturnedGranule(t, i))
  }

  lemma {:induction false} LastEndOn(t: Trip, k: nat, i: nat)
    requires WellCut(t) && k < |t.groups| && i < |t.ps| && LastOn(t, k, i)
    ensures LastEnd(Chunks(t.groups[k])) == Off(t, i + 1) - 1 - Cum(t, k)
    ensures LastDone(t.groups[k]) == t.ps[i].granulepos
  {
    hide AllSegs, Total, WellCut;
    var group, y := t.groups[k], Off(t, i + 1) - 1 - Cum(t, k);
    GroupAt(t, k, y);
    SegmentAt(t, i, Off(t, i + 1) - 1);
    forall z | y < z < |group|
      ensures !group[z].Ends()
    {
      GroupAt(t, k, z);
      NoEndAfter(t, k, i, Cum(t, k) + z);
    }
    LastEndIs(Chunks(group), y);
    LastDoneIs(group, y);
  }

  lemma {:induction false} NotLastEndOn(t: Trip, k: nat, i: nat)
    requires WellCut(t) && k < |t.groups| && i + 1 < |t.ps| && Completes(t, k, i) && Completes(t, k, i + 1)
    ensures LastEnd(Chunks(t.groups[k])) != Off(t, i + 1) - 1 - Cum(t, k)
  {
    var z := Off(t, i + 2) - 1 - Cum(t, k);
    GroupAt(t, k, z);
    SegmentAt(t, i + 1, Off(t, i + 2) - 1);
    LastEndSplits(Chunks(t.groups[k]));
    assert |Chunks(t.groups[k])[z]| < 255;
  }

  /** The last segment of packet i has the granule position that the packet is returned with. */
  lemma {:induction false} GranuleOfEnd(t: Trip, i: nat)
    requires WellCut(t) && i < |t.ps| && Off(t, i + 1) <= Total(t)
    ensures Off(t, i + 1) > 0 && |Sent(t)| == Total(t)
    ensures Sent(t)[Off(t, i + 1) - 1].granule == ReturnedGranule(t, i)
  {
    OffMonotone(t, i, i + 1);
    SentLength(t);
    var x := Off(t, i + 1) - 1;
    var k := PageOf(t, x);
    SentAt(t, k, x);
    OnePageCompletes(t, k, i);
    if LastOn(t, k, i) {
      LastEndOn(t, k, i);
    } else {
      NotLastEndOn(t, k, i);
    }
  }

  lemma {:induction false} OnePageCompletes(t: Trip, k: nat, i: nat)
    requires WellCut(t) && k < |t.groups| && i < |t.ps| && Cum(t, k) <= Off(t, i + 1) - 1 < Cum(t, k + 1)
    ensures Completes(t, k, i)
    ensures ReturnedGranule(t, i) == if LastOn(t, k, i) then (if k == 0 then 0 else t.ps[i].granulepos) else -1
  {
    forall l: nat | l < |t.groups| && Completes(t, l, i)
      ensures l == k
    {
      if l < k {
        CumMonotone(t, l + 1, k);
      } else {
        CumMonotone(t, k + 1, l + 1);
        if k < l {
          CumMonotone(t, k + 1, l);
        }
      }
    }
  }

  lemma {:induction false} NoEndAfter(t: Trip, k: nat, i: nat, x: nat)
    requires WellCut(t) && k < |t.groups| && i < |t.ps| && LastOn(t, k, i)
    requires Off(t, i + 1) <= x < Cum(t, k + 1) && x < |AllSegs(t.ps)|
    ensures !AllSegs(t.ps)[x].Ends()
  {
    Lengths(t);
    assert i + 1 < |t.ps|;
    OffMonotone(t, i + 1, i + 2);
    SegmentAt(t, i + 1, x);
  }

  /** Segment x of packet i as the decoder stores it. */
  lemma {:induction false} SentOfPacket(t: Trip, i: nat, x: nat)
    requires WellCut(t) && i < |t.ps| && Off(t, i) <= x < Off(t, i + 1) && x < Total(t)
    ensures |Sent(t)| == Total(t) <= |AllSegs(t.ps)|
    ensures var seg := Sent(t)[x];
      && seg.data == AllSegs(t.ps)[x].data && seg.first == (x == 0) && !seg.hole
      && seg.last == (t.ended && x == Total(t) - 1) && seg.Ends() == (x == Off(t, i + 1) - 1)
  {
    var k := PageOf(t, x);
    SentAt(t, k, x);
    SegmentAt(t, i, x);
  }

  /** The entries of a whole packet. */
  ghost function PacketRun(t: Trip, i: nat): (run: seq<Seg>)
    requires WellCut(t) && i < |t.ps| && Off(t, i + 1) <= Total(t)
    ensures |run| == Off(t, i + 1) - Off(t, i) > 0
  {
    OffMonotone(t, i, i + 1);
    SentLength(t);
    Sent(t)[Off(t, i)..Off(t, i + 1)]
  }

  lemma {:induction false} PacketRunAt(t: Trip, i: nat, y: nat)
    requires WellCut(t) && i < |t.ps| && Off(t, i + 1) <= Total(t) && y < Off(t, i + 1) - Off(t, i)
    ensures Off(t, i) + y < |Sent(t)| == Total(t) <= |AllSegs(t.ps)|
    ensures PacketRun(t, i)[y] == Sent(t)[Off(t, i) + y]
    ensures var seg, x := PacketRun(t, i)[y], Off(t, i) + y;
      && seg.data == AllSegs(t.ps)[x].data && seg.first == (x == 0) && !seg.hole
      && seg.last == (t.ended && x == Total(t) - 1) && seg.Ends() == (x == Off(t, i + 1) - 1)
  {
    hide WellCut, Lace;
    SentOfPacket(t, i, Off(t, i) + y);
  }

  lemma {:induction false} PacketRunJoins(t: Trip, i: nat)
    requires WellCut(t) && i < |t.ps| && Off(t, i + 1) <= Total(t)
    ensures Join(PacketRun(t, i)) == t.ps[i].data
  {
    hide *;
    var p, run := t.ps[i], PacketRun(t, i);
    var laced := Lace(p.data, p.granulepos, LastGranule(t.ps[..i]), true);
    PacketSlice(t, i);
    forall y | 0 <= y < |run|
      ensures run[y].data == laced[y].data
    {
      PacketRunAt(t, i, y);
      assert laced[y] == AllSegs(t.ps)[Off(t, i)..Off(t, i + 1)][y];
    }
    JoinOfData(run, laced);
    LaceJoin(p.data, p.granulepos, LastGranule(t.ps[..i]), true);
  }

  lemma {:induction false} PacketRunShape(t: Trip, i: nat)
    requires WellCut(t) && i < |t.ps| && Off(t, i + 1) <= Total(t)
    ensures Closed(PacketRun(t, i)) && RunLength(PacketRun(t, i)) == |PacketRun(t, i)|
    ensures !PacketRun(t, i)[0].hole
  {
    var run := PacketRun(t, i);
    forall y | 0 <= y < |run|
      ensures run[y].Ends() == (y == |run| - 1) && !run[y].hole
    {
      PacketRunAt(t, i, y);
    }
    RunLengthIs(run, |run|);
  }

  lemma {:induction false} PacketRunFlags(t: Trip, i: nat)
    requires WellCut(t) && i < |t.ps| && Off(t, i + 1) <= Total(t)
    ensures var run := PacketRun(t, i);
      run[0].first == (i == 0) && run[|run| - 1].granule == ReturnedGranule(t, i)
  {
    hide PacketRun, Sent, WellCut;
    OffMonotone(t, 0, i);
    PacketRunAt(t, i, 0);
    PacketRunAt(t, i, |PacketRun(t, i)| - 1);
    GranuleOfEnd(t, i);
  }

  lemma {:induction false} PacketRunEnds(t: Trip, i: nat)
    requires WellCut(t) && i < |t.ps| && Off(t, i + 1) <= Total(t)
    ensures var run := PacketRun(t, i);
      (exists y :: 0 <= y < |run| && run[y].last) == (t.ended && i == |t.ps| - 1)
  {
    var run := PacketRun(t, i);
    Lengths(t);
    OffMonotone(t, i + 1, |t.ps|);
    if y :| 0 <= y < |run| && run[y].last {
      PacketRunAt(t, i, y);
    }
    if t.ended && i == |t.ps| - 1 {
      PacketRunAt(t, i, |run| - 1);
      assert run[|run| - 1].last;
    }
  }

  /** The entries of a whole packet are returned as that packet. */
  lemma {:induction false} PacketRunEvent(t: Trip, i: nat)
    requires WellCut(t) && i < |t.ps| && Off(t, i + 1) <= Total(t)
    ensures Closed(PacketRun(t, i)) && Events(PacketRun(t, i)) == [PacketEvent(t, i)]
  {
    PacketRunShape(t, i);
    PacketRunFlags(t, i);
    PacketRunJoins(t, i);
    PacketRunEnds(t, i);
    OneRun(PacketRun(t, i), PacketEvent(t, i));
  }

  lemma {:induction false} OneRun(run: seq<Seg>, event: Event)
    requires run != [] && !run[0].hole && RunLength(run) == |run| && event == RunPacket(run)
    ensures Events(run) == [event]
  {
    assert run[..|run|] == run && run[|run|..] == [];
    EventsUnfold(run, event, []);
  }

  /** What the decoder returns for packets a up to b. */
  ghost function PacketEvents(t: Trip, a: nat, b: nat): seq<Event>
    requires b <= |t.ps|
    decreases b - a
  {
    if a >= b then [] else [PacketEvent(t, a)] + PacketEvents(t, a + 1, b)
  }

  lemma {:induction false} OffsetsFit(t: Trip, a: nat, b: nat)
    requires WellCut(t) && a <= b <= |t.ps| && Off(t, b) <= Total(t)
    ensures Off(t, a) <= Off(t, b) <= |Sent(t)| == Total(t)
  {
    SentLength(t);
    OffMonotone(t, a, b);
  }

  /** The entries of packets a up to b. */
  ghost function PacketRuns(t: Trip, a: nat, b: nat): seq<Seg>
    requires WellCut(t) && a <= b <= |t.ps| && Off(t, b) <= Total(t)
  {
    OffsetsFit(t, a, b);
    Sent(t)[Off(t, a)..Off(t, b)]
  }

  lemma {:induction false} PacketRunsSplit(t: Trip, a: nat, b: nat)
    requires WellCut(t) && a < b <= |t.ps| && Off(t, b) <= Total(t)
    ensures Off(t, a + 1) <= Total(t)
    ensures PacketRuns(t, a, b) == PacketRun(t, a) + PacketRuns(t, a + 1, b)
  {
    hide Sent, Total, WellCut;
    OffsetsFit(t, a + 1, b);
    OffsetsFit(t, a, a + 1);
  }

  lemma {:induction false} SentEvents(t: Trip, a: nat, b: nat)
    requires WellCut(t) && a <= b <= |t.ps| && Off(t, b) <= Total(t)
    ensures Closed(PacketRuns(t, a, b)) && Events(PacketRuns(t, a, b)) == PacketEvents(t, a, b)
    decreases b - a
  {
    hide FirstLength, SentGroups, WellCut;
    if a < b {
      PacketRunsSplit(t, a, b);
      PacketRunEvent(t, a);
      SentEvents(t, a + 1, b);
      ClosedConcat(PacketRun(t, a), PacketRuns(t, a + 1, b));
      EventsConcat(PacketRun(t, a), PacketRuns(t, a + 1, b));
    } else {
      OffsetsFit(t, a, b);
    }
  }
}
