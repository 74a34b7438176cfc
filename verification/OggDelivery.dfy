/**
 The decoder against a channel that may drop pages: for any subsequence of an encoder's pages, what
 is returned is exactly the packets that arrived whole, with one report for each gap.
 */
module OggDelivery {
  import opened Sequences
  import opened OggSegments
  import opened OggPage
  import opened OggState
  import opened OggEncoder
  import opened OggDecoder
  import opened OggTransport

  /** Every page before k that carries the packet unfinished there is delivered. */
  ghost predicate Tracking(t: Trip, delivered: set<nat>, k: nat)
    requires k <= |t.groups|
  {
    Done(t, k) < |t.ps| ==> forall l: nat :: l < k && Carries(t, l, Done(t, k)) ==> l in delivered
  }

  /** The entries of the packet unfinished before page k. */
  ghost function Unfinished(t: Trip, k: nat): (u: seq<Seg>)
    requires WellCut(t) && k <= |t.groups|
    ensures |u| == Cum(t, k) - Off(t, Done(t, k))
  {
    DoneIs(t, k);
    SentLength(t);
    Sent(t)[Off(t, Done(t, k))..Cum(t, k)]
  }

  /** The start of an unfinished packet that the decoder holds before page k. */
  ghost function Carry(t: Trip, delivered: set<nat>, k: nat): seq<Seg>
    requires WellCut(t) && k <= |t.groups|
  {
    if Tracking(t, delivered, k) then Unfinished(t, k) else []
  }

  /** Page k starts inside a packet. */
  predicate Continues(t: Trip, k: nat)
    requires k <= |t.groups|
  {
    Cum(t, k) > Off(t, Done(t, k))
  }

  /** The decoder after the delivered pages before `next`; -1 stands for a decoder that was just reset. */
  ghost predicate InStep(t: Trip, delivered: set<nat>, s: Stream, next: int) {
    && WellCut(t) && Decoding(s) && -1 <= next <= |t.groups| && s.pageno == next
    && (next == -1 ==> s.segs == [])
    && (next >= 0 ==> s.segs[s.packet..] == Carry(t, delivered, next))
    && (0 <= next < |t.groups| && !Tracking(t, delivered, next) ==> Orphaned(s))
  }

  /** No page is missed before page k. */
  predicate NoGap(next: int, k: nat) {
    k == next || next == -1
  }

  /** The packets from a up to b that arrive whole, as events. */
  ghost function Kept(t: Trip, delivered: set<nat>, a: nat, b: nat): seq<Event>
    requires b <= |t.ps|
    decreases b - a
  {
    if a >= b then []
    else (if Intact(t, delivered, a) then [PacketEvent(t, a)] else []) + Kept(t, delivered, a + 1, b)
  }

  /** What page k gives when it is delivered after the pages before `next`. */
  ghost function PageEvents(t: Trip, delivered: set<nat>, next: int, k: nat): seq<Event>
    requires k < |t.groups|
  {
    (if NoGap(next, k) then [] else [Missing]) + Kept(t, delivered, Done(t, k), Done(t, k + 1))
  }

  // ---- which pages carry what ----

  lemma {:induction false} NotContinuing(t: Trip, delivered: set<nat>, k: nat)
    requires WellCut(t) && k <= |t.groups| && !Continues(t, k)
    ensures Tracking(t, delivered, k)
  {
    DoneIs(t, k);
    forall l: nat | l < k
      ensures Done(t, k) < |t.ps| ==> !Carries(t, l, Done(t, k))
    {
      CumMonotone(t, l + 1, k);
    }
  }

  /** After a dropped page there is nothing to continue. */
  lemma {:induction false} GapBreaks(t: Trip, delivered: set<nat>, k: nat)
    requires WellCut(t) && 0 < k <= |t.groups| && k - 1 !in delivered && Continues(t, k)
    ensures !Tracking(t, delivered, k)
  {
    DoneIs(t, k);
    CumMonotone(t, k - 1, k);
    assert Carries(t, k - 1, Done(t, k));
  }

  lemma {:induction false} TrackingAfter(t: Trip, delivered: set<nat>, k: nat)
    requires WellCut(t) && k < |t.groups| && k in delivered
    ensures Done(t, k) <= Done(t, k + 1)
    ensures Tracking(t, delivered, k + 1) == (Done(t, k) < Done(t, k + 1) || Tracking(t, delivered, k))
  {
    hide DoneFrom, Off, WellCut;
    DoneMonotone(t, k);
    var i, i' := Done(t, k), Done(t, k + 1);
    if i < i' {
      OffMonotone(t, i + 1, i');
      forall l: nat | l < k + 1 && i' < |t.ps| && Carries(t, l, i')
        ensures l in delivered
      {
        CumMonotone(t, l + 1, k + 1);
        if l < k {
          CumMonotone(t, l + 1, k);
        }
      }
    }
  }

  lemma {:induction false} LaterPacketsIntact(t: Trip, delivered: set<nat>, k: nat, j: nat)
    requires WellCut(t) && k < |t.groups| && k in delivered && Done(t, k) < j < Done(t, k + 1)
    ensures Intact(t, delivered, j)
  {
    hide Cum, Done, Off, WellCut;
    DoneIs(t, k + 1);
    OffMonotone(t, Done(t, k) + 1, j);
    OffMonotone(t, j + 1, Done(t, k + 1));
    forall l: nat | l < |t.groups| && Carries(t, l, j)
      ensures l in delivered
    {
      if l < k {
        CumMonotone(t, l + 1, k);
      } else {
        CumMonotone(t, k, l);
        if l > k {
          CumMonotone(t, k + 1, l);
        }
      }
    }
  }

  lemma {:induction false} FirstPacketIntact(t: Trip, delivered: set<nat>, k: nat)
    requires WellCut(t) && k < |t.groups| && k in delivered && Done(t, k) < Done(t, k + 1)
    ensures Intact(t, delivered, Done(t, k)) == Tracking(t, delivered, k)
  {
    var i := Done(t, k);
    DoneCompare(t, k + 1, i);
    if Tracking(t, delivered, k) {
      forall l: nat | l < |t.groups| && Carries(t, l, i)
        ensures l in delivered
      {
        if l > k {
          CumMonotone(t, k + 1, l);
        }
      }
    }
  }

  lemma {:induction false} AllKept(t: Trip, delivered: set<nat>, a: nat, b: nat)
    requires b <= |t.ps| && forall j :: a <= j < b ==> Intact(t, delivered, j)
    ensures Kept(t, delivered, a, b) == PacketEvents(t, a, b)
    decreases b - a
  {
    if a < b {
      AllKept(t, delivered, a + 1, b);
    }
  }

  /** The packets that complete on a delivered page: all of them, but for a first one that lost a page. */
  lemma {:induction false} KeptOnPage(t: Trip, delivered: set<nat>, k: nat)
    requires WellCut(t) && k < |t.groups| && k in delivered
    ensures var i, i' := Done(t, k), Done(t, k + 1);
      Kept(t, delivered, i, i') ==
        if Tracking(t, delivered, k) then PacketEvents(t, i, i')
        else if i < i' then PacketEvents(t, i + 1, i') else []
  {
    hide Off, PacketEvent, Tracking, WellCut;
    var i, i' := Done(t, k), Done(t, k + 1);
    if i < i' {
      FirstPacketIntact(t, delivered, k);
      forall j | i < j < i'
        ensures Intact(t, delivered, j)
      {
        LaterPacketsIntact(t, delivered, k, j);
      }
      AllKept(t, delivered, i + 1, i');
    }
  }

  // ---- the page number check ----

  /** The header of page k. */
  function HeadOf(t: Trip, k: nat, serialno: int): Head
    requires k < |t.groups| && t.groups[k] != []
  {
    GroupHead(t.groups, k, serialno, t.ended && k == |t.groups| - 1)
  }

  /** Before page k is placed: what is unfinished, and whether there is anything to continue. */
  ghost predicate Synced(t: Trip, delivered: set<nat>, s: Stream, k: nat) {
    && WellCut(t) && Decoding(s) && k < |t.groups|
    && s.segs[s.packet..] == Carry(t, delivered, k)
    && (!Tracking(t, delivered, k) ==> Orphaned(s))
  }

  lemma {:induction false} GapSyncs(t: Trip, delivered: set<nat>, s: Stream, next: nat, k: nat)
    requires InStep(t, delivered, s, next) && next < k < |t.groups| && k - 1 !in delivered
    ensures Synced(t, delivered, Resync(s), k) && Pending(Resync(s)) == Pending(s) + [Missing]
  {
    hide Closed, Cum, Done, FirstLength, HolesApart, WellCut;
    ResyncKeeps(s);
    var r, whole := Resync(s), s.segs[..s.packet];
    DoneIs(t, k);
    SentLength(t);
    if Continues(t, k) {
      GapBreaks(t, delivered, k);
    }
    assert Carry(t, delivered, k) == [];
    assert r.segs[..r.packet] == whole + [HOLE];
    EventsConcat(whole, [HOLE]);
    EventsUnfold([HOLE], Missing, []);
  }

  /** A decoder that was reset takes the first page it gets without a report. */
  lemma {:induction false} StartSyncs(t: Trip, delivered: set<nat>, s: Stream, k: nat)
    requires InStep(t, delivered, s, -1) && k < |t.groups| && forall l: nat :: l < k ==> l !in delivered
    ensures Synced(t, delivered, Resync(s), k) && Pending(Resync(s)) == Pending(s)
  {
    ResyncKeeps(s);
    if Continues(t, k) {
      DoneIs(t, k);
      GapBreaks(t, delivered, k);
    }
    assert Carry(t, delivered, k) == [];
  }

  lemma {:induction false} Syncs(t: Trip, delivered: set<nat>, s: Stream, next: int, k: nat, head: Head)
    requires InStep(t, delivered, s, next) && next <= k < |t.groups| && head.pageno == k
    requires forall l: nat :: next <= l < k ==> l !in delivered
    ensures Synced(t, delivered, InSequence(s, head), k)
    ensures Pending(InSequence(s, head)) == Pending(s) + if NoGap(next, k) then [] else [Missing]
  {
    assert Pending(s) + [] == Pending(s);
    if next == -1 {
      StartSyncs(t, delivered, s, k);
    } else if k != next {
      GapSyncs(t, delivered, s, next, k);
    } else {
      assert InSequence(s, head) == s;
    }
  }

  // ---- placing the segments ----

  /** The page says that it continues a packet exactly when it starts inside one. */
  lemma {:induction false} ContinuedFlag(t: Trip, k: nat, serialno: int)
    requires WellCut(t) && k < |t.groups|
    ensures HeadOf(t, k, serialno).continued == Continues(t, k)
  {
    hide Cum, Off, Total;
    DoneIs(t, k);
    Lengths(t);
    CumMonotone(t, k, k + 1);
    CumMonotone(t, k + 1, |t.groups|);
    GroupAt(t, k, 0);
    SegmentAt(t, Done(t, k), Cum(t, k));
  }

  lemma {:induction false} CarryIsNoHole(t: Trip, delivered: set<nat>, s: Stream, k: nat)
    requires Synced(t, delivered, s, k) && Tracking(t, delivered, k) && Continues(t, k)
    ensures !Orphaned(s)
  {
    hide Flatten, Lace, LastGranule, Off, Sent, Tracking, WellCut;
    DoneIs(t, k);
    Lengths(t);
    SentLength(t);
    CumMonotone(t, k, k + 1);
    CumMonotone(t, k + 1, |t.groups|);
    SentOfPacket(t, Done(t, k), Cum(t, k) - 1);
    var carry := Carry(t, delivered, k);
    assert s.segs[|s.segs| - 1] == carry[|carry| - 1] == Sent(t)[Cum(t, k) - 1];
  }

  /** How many segments of page k are skipped. */
  ghost function Skips(t: Trip, delivered: set<nat>, k: nat): (n: nat)
    requires k < |t.groups|
    ensures n <= |t.groups[k]|
  {
    if Tracking(t, delivered, k) then 0 else SkipLength(Chunks(t.groups[k]))
  }

  /** The page's entries before the end flag. */
  function RawEntries(t: Trip, k: nat): (segs: seq<Seg>)
    requires k < |t.groups|
    ensures |segs| == |t.groups[k]|
  {
    Entries(Chunks(t.groups[k]), k == 0, PageGranule(t, k))
  }

  lemma {:induction false} LastEndOfTail(chunks: seq<Chunk>, n: nat)
    requires n <= |chunks|
    ensures LastEnd(chunks[n..]) == if LastEnd(chunks) >= n then LastEnd(chunks) - n else -1
  {
    LastEndSplits(chunks);
    LastEndSplits(chunks[n..]);
    var tail := chunks[n..];
    assert forall i :: 0 <= i < |tail| ==> tail[i] == chunks[i + n];
    if LastEnd(chunks) >= n {
      assert |tail[LastEnd(chunks) - n]| < 255;
    }
  }

  lemma {:induction false} EntriesTail(chunks: seq<Chunk>, n: nat, granule: int)
    requires n <= |chunks|
    ensures Entries(chunks[n..], false, granule) == Entries(chunks, false, granule)[n..]
  {
    LastEndOfTail(chunks, n);
    LastEndSplits(chunks);
    var a, b := Entries(chunks[n..], false, granule), Entries(chunks, false, granule)[n..];
    forall i | 0 <= i < |a|
      ensures a[i] == b[i]
    {
      assert chunks[n..][i] == chunks[i + n];
    }
  }

  /** Placing page k adds its entries, less those that continue something lost. */
  lemma {:induction false} PlacesEntries(t: Trip, delivered: set<nat>, s: Stream, k: nat, serialno: int)
    requires Synced(t, delivered, s, k)
    ensures Placed(s, HeadOf(t, k, serialno), Chunks(t.groups[k])).segs
         == s.segs + RawEntries(t, k)[Skips(t, delivered, k)..]
  {
    var head, chunks := HeadOf(t, k, serialno), Chunks(t.groups[k]);
    ContinuedFlag(t, k, serialno);
    if Tracking(t, delivered, k) {
      if Continues(t, k) {
        CarryIsNoHole(t, delivered, s, k);
      }
    } else {
      if !Continues(t, k) {
        NotContinuing(t, delivered, k);
      }
      FirstPageStarts(t);
      EntriesTail(chunks, SkipLength(chunks), PageGranule(t, k));
    }
  }

  lemma {:induction false} FirstPageStarts(t: Trip)
    requires WellCut(t) && t.groups != []
    ensures !Continues(t, 0)
  {
    DoneIs(t, 0);
  }

  // ---- the state after a page ----

  lemma {:induction false} MarkLastOfConcat(a: seq<Seg>, b: seq<Seg>, n: nat)
    requires n < |b|
    ensures MarkLast(a + b[n..]) == a + MarkLast(b)[n..]
  {
  }

  /** The entries of page k, end flag included, are added unless all of them are skipped. */
  lemma {:induction false} EndsEntries(t: Trip, k: nat, a: seq<Seg>, n: nat, s: Stream, serialno: int)
    requires WellCut(t) && k < |t.groups| && n <= |t.groups[k]| && s.segs == a + RawEntries(t, k)[n..]
    ensures var head := HeadOf(t, k, serialno);
      Ended(s, head).segs == if head.eos && n == |t.groups[k]| then MarkLast(a) else a + PageEntries(t, k)[n..]
  {
    if n < |t.groups[k]| {
      MarkLastOfConcat(a, RawEntries(t, k), n);
    } else {
      assert s.segs == a;
      assert PageEntries(t, k)[n..] == [];
    }
  }

  /** A page that starts inside a packet skips to the end of it. */
  lemma {:induction false} SkipsToEnd(t: Trip, k: nat)
    requires WellCut(t) && k < |t.groups|
    ensures var i := Done(t, k);
      && i < |t.ps|
      && SkipLength(Chunks(t.groups[k])) ==
           if i < Done(t, k + 1) then Off(t, i + 1) - Cum(t, k) else |t.groups[k]|
  {
    hide AllSegs, DoneFrom, Flatten, Off;
    DoneIs(t, k);
    Lengths(t);
    CumMonotone(t, k + 1, |t.groups|);
    var i, chunks := Done(t, k), Chunks(t.groups[k]);
    DoneCompare(t, k + 1, i);
    var end := Off(t, i + 1) - Cum(t, k);
    forall y | 0 <= y < |chunks| && y < end
      ensures (|chunks[y]| < 255) == (y == end - 1)
    {
      GroupAt(t, k, y);
      SegmentAt(t, i, Cum(t, k) + y);
    }
    SkipLengthIs(chunks, end);
  }

  lemma {:induction false} SkipLengthIs(chunks: seq<Chunk>, end: int)
    requires end > 0 && forall y :: 0 <= y < |chunks| && y < end ==> ((|chunks[y]| < 255) == (y == end - 1))
    ensures SkipLength(chunks) == if end <= |chunks| then end else |chunks|
  {
    if chunks != [] && end > 1 {
      assert !(|chunks[0]| < 255);
      assert forall y :: 0 <= y < |chunks| - 1 ==> chunks[1..][y] == chunks[y + 1];
      SkipLengthIs(chunks[1..], end - 1);
    }
  }

  /** Whole packets and holes first, then only full segments: that fixes where they meet. */
  lemma {:induction false} PacketMark(s: Stream, a: seq<Seg>, b: seq<Seg>)
    requires Decoding(s) && s.segs == a + b && Closed(a)
    requires forall i :: 0 <= i < |b| ==> !b[i].Ends()
    ensures s.packet == |a| && s.segs[..s.packet] == a && s.segs[s.packet..] == b
  {
    assert a != [] ==> s.segs[|a| - 1].Ends();
    assert s.packet > 0 ==> s.segs[..s.packet][s.packet - 1] == s.segs[s.packet - 1];
    assert forall i :: |a| <= i < |s.segs| ==> s.segs[i] == b[i - |a|];
    assert s.packet == |a|;
  }

  lemma {:induction false} UnfinishedHasNoEnd(t: Trip, k: nat)
    requires WellCut(t) && k <= |t.groups|
    ensures forall y :: 0 <= y < |Unfinished(t, k)| ==> !Unfinished(t, k)[y].Ends()
  {
    hide Sent, WellCut;
    DoneIs(t, k);
    SentLength(t);
    Lengths(t);
    var i, u := Done(t, k), Unfinished(t, k);
    forall y | 0 <= y < |u|
      ensures !u[y].Ends()
    {
      assert i < |t.ps| && Off(t, i) + y < Cum(t, k) < Off(t, i + 1);
      assert u[y] == Sent(t)[Off(t, i) + y];
      SentOfPacket(t, i, Off(t, i) + y);
    }
  }

  /** Packets a on up to those that page k completes, and then the unfinished one. */
  lemma {:induction false} EntriesThrough(t: Trip, k: nat, a: nat)
    requires WellCut(t) && k < |t.groups| && Done(t, k) <= a <= Done(t, k + 1)
    ensures Off(t, a) <= Cum(t, k + 1) <= |Sent(t)| && Off(t, Done(t, k + 1)) <= Total(t)
    ensures Sent(t)[Off(t, a)..Cum(t, k + 1)] == PacketRuns(t, a, Done(t, k + 1)) + Unfinished(t, k + 1)
  {
    hide DoneFrom, Off, Sent, WellCut;
    var b := Done(t, k + 1);
    DoneIs(t, k + 1);
    SentLength(t);
    OffsetsFit(t, a, b);
  }

  /** An entry list that ends in a hole gives the same events when the hole gets the end flag. */
  lemma {:induction false} MarkedHole(a: seq<Seg>)
    requires Closed(a) && HolesApart(a) && (a == [] || IsHole(a[|a| - 1]))
    ensures Closed(MarkLast(a)) && Events(MarkLast(a)) == Events(a)
  {
    if a != [] {
      var before, hole := a[..|a| - 1], a[|a| - 1];
      var marked := hole.(last := true);
      assert a == before + [hole] && MarkLast(a) == before + [marked];
      assert Closed(before) by {
        assert a[|a| - 1].hole;
      }
      EventsConcat(before, [hole]);
      EventsConcat(before, [marked]);
      EventsUnfold([hole], Missing, []);
      EventsUnfold([marked], Missing, []);
    }
  }

  /** A page that the decoder follows: its packets are returned, and the unfinished one is held. */
  lemma {:induction false} TrackedPage(t: Trip, delivered: set<nat>, s: Stream, k: nat, serialno: int)
    requires Synced(t, delivered, s, k) && k in delivered && Tracking(t, delivered, k)
    ensures var r := Ended(Placed(s, HeadOf(t, k, serialno), Chunks(t.groups[k])), HeadOf(t, k, serialno));
      && Decoding(r) && r.segs[r.packet..] == Carry(t, delivered, k + 1)
      && Pending(r) == Pending(s) + PacketEvents(t, Done(t, k), Done(t, k + 1))
  {
    var head, chunks := HeadOf(t, k, serialno), Chunks(t.groups[k]);
    PlacedKeeps(s, head, chunks);
    EndedKeeps(Placed(s, head, chunks), head);
    TrackedEntries(t, delivered, s, k, serialno);
    TrackingAfter(t, delivered, k);
    JoinsCarry(t, k);
    PageResult(t, s.segs[..s.packet], Ended(Placed(s, head, chunks), head), k, Done(t, k));
  }

  /** A page that the decoder follows adds all its entries. */
  lemma {:induction false} TrackedEntries(t: Trip, delivered: set<nat>, s: Stream, k: nat, serialno: int)
    requires Synced(t, delivered, s, k) && Tracking(t, delivered, k)
    ensures var r := Ended(Placed(s, HeadOf(t, k, serialno), Chunks(t.groups[k])), HeadOf(t, k, serialno));
      r.segs == s.segs[..s.packet] + (Unfinished(t, k) + PageEntries(t, k))
  {
    hide Off, PageEntries, RawEntries, Tracking, Unfinished;
    var head, chunks := HeadOf(t, k, serialno), Chunks(t.groups[k]);
    var raw, whole := RawEntries(t, k), s.segs[..s.packet];
    PlacesEntries(t, delivered, s, k, serialno);
    assert raw[0..] == raw;
    EndsEntries(t, k, s.segs, 0, Placed(s, head, chunks), serialno);
    assert PageEntries(t, k)[0..] == PageEntries(t, k);
    assert s.segs == whole + Unfinished(t, k);
    AppendAssociates(whole, Unfinished(t, k), PageEntries(t, k));
  }

  /** What was unfinished before page k and the page itself are one stretch of the entries. */
  lemma {:induction false} JoinsCarry(t: Trip, k: nat)
    requires WellCut(t) && k < |t.groups|
    ensures Done(t, k) <= Done(t, k + 1)
    ensures Off(t, Done(t, k)) <= Cum(t, k + 1) <= |Sent(t)|
    ensures Unfinished(t, k) + PageEntries(t, k) == Sent(t)[Off(t, Done(t, k))..Cum(t, k + 1)]
  {
    DoneIs(t, k);
    DoneMonotone(t, k);
    SentSlice(t, k);
  }

  /** The state when packets a on, up to the end of page k, follow the whole packets kept before. */
  lemma {:induction false} PageResult(t: Trip, whole: seq<Seg>, r: Stream, k: nat, a: nat)
    requires WellCut(t) && k < |t.groups| && Decoding(r) && Closed(whole)
    requires Done(t, k) <= a <= Done(t, k + 1) && Off(t, a) <= Cum(t, k + 1) <= |Sent(t)|
    requires r.segs == whole + Sent(t)[Off(t, a)..Cum(t, k + 1)]
    ensures r.segs[r.packet..] == Unfinished(t, k + 1)
    ensures Pending(r) == Events(whole) + PacketEvents(t, a, Done(t, k + 1))
  {
    hide *;
    var b := Done(t, k + 1);
    EntriesThrough(t, k, a);
    SentEvents(t, a, b);
    UnfinishedHasNoEnd(t, k + 1);
    MarkAfter(whole, PacketRuns(t, a, b), Unfinished(t, k + 1), r);
  }

  /** Whole packets, more of them, and an unfinished one. */
  lemma {:induction false} MarkAfter(whole: seq<Seg>, runs: seq<Seg>, rest: seq<Seg>, r: Stream)
    requires Decoding(r) && Closed(whole) && Closed(runs) && r.segs == whole + (runs + rest)
    requires forall i :: 0 <= i < |rest| ==> !rest[i].Ends()
    ensures r.segs[r.packet..] == rest && Pending(r) == Events(whole) + Events(runs)
  {
    ClosedConcat(whole, runs);
    EventsConcat(whole, runs);
    AppendAssociates(whole, runs, rest);
    PacketMark(r, whole + runs, rest);
  }

  /** The page that ends the stream completes the last packet. */
  lemma {:induction false} LastPageCompletes(t: Trip, k: nat)
    requires WellCut(t) && k < |t.groups| && t.ended && k == |t.groups| - 1
    ensures Done(t, k) < Done(t, k + 1) == |t.ps|
  {
    Lengths(t);
    DoneIs(t, k);
    DoneUnique(t, k + 1, |t.ps|);
    CumMonotone(t, k, k + 1);
  }

  /** A page that starts inside a lost packet adds what follows that packet, if anything does. */
  lemma {:induction false} UntrackedEntries(t: Trip, delivered: set<nat>, s: Stream, k: nat, serialno: int)
    requires Synced(t, delivered, s, k) && !Tracking(t, delivered, k)
    ensures var head := HeadOf(t, k, serialno);
      var n := Skips(t, delivered, k);
      Ended(Placed(s, head, Chunks(t.groups[k])), head).segs ==
        if head.eos && n == |t.groups[k]| then MarkLast(s.segs) else s.segs + PageEntries(t, k)[n..]
  {
    PlacesEntries(t, delivered, s, k, serialno);
    EndsEntries(t, k, s.segs, Skips(t, delivered, k), Placed(s, HeadOf(t, k, serialno), Chunks(t.groups[k])), serialno);
  }

  /** Skipping to the end of a packet on a page leaves the entries of the packets after it. */
  lemma {:induction false} SkippedTo(t: Trip, k: nat)
    requires WellCut(t) && k < |t.groups| && Done(t, k) < Done(t, k + 1)
    ensures Cum(t, k) <= Off(t, Done(t, k) + 1) <= Cum(t, k + 1) <= |Sent(t)|
    ensures PageEntries(t, k)[Off(t, Done(t, k) + 1) - Cum(t, k)..] == Sent(t)[Off(t, Done(t, k) + 1)..Cum(t, k + 1)]
  {
    hide *;
    DoneCompare(t, k + 1, Done(t, k));
    SentSlice(t, k);
  }

  /** A state whose entries are all whole packets. */
  lemma {:induction false} AllWhole(r: Stream, a: seq<Seg>)
    requires Decoding(r) && r.segs == a && Closed(a)
    ensures r.segs[r.packet..] == [] && Pending(r) == Events(a)
  {
    assert r.segs == a + [];
    PacketMark(r, a, []);
  }

  /** A page inside a lost packet: nothing of that packet is returned, everything after it is. */
  lemma {:induction false} UntrackedPage(t: Trip, delivered: set<nat>, s: Stream, k: nat, serialno: int)
    requires Synced(t, delivered, s, k) && k in delivered && !Tracking(t, delivered, k)
    ensures var r := Ended(Placed(s, HeadOf(t, k, serialno), Chunks(t.groups[k])), HeadOf(t, k, serialno));
      && Decoding(r) && r.segs[r.packet..] == Carry(t, delivered, k + 1)
      && (!Tracking(t, delivered, k + 1) ==> Orphaned(r))
      && Pending(r) == Pending(s) +
           if Done(t, k) < Done(t, k + 1) then PacketEvents(t, Done(t, k) + 1, Done(t, k + 1)) else []
  {
    var head, chunks, i := HeadOf(t, k, serialno), Chunks(t.groups[k]), Done(t, k);
    PlacedKeeps(s, head, chunks);
    EndedKeeps(Placed(s, head, chunks), head);
    UntrackedEntries(t, delivered, s, k, serialno);
    UntrackedResult(t, delivered, s, Ended(Placed(s, head, chunks), head), k);
  }

  lemma {:induction false} UntrackedResult(t: Trip, delivered: set<nat>, s: Stream, r: Stream, k: nat)
    requires Synced(t, delivered, s, k) && k in delivered && !Tracking(t, delivered, k) && Decoding(r)
    requires r.segs ==
      if t.ended && k == |t.groups| - 1 && Skips(t, delivered, k) == |t.groups[k]| then MarkLast(s.segs)
      else s.segs + PageEntries(t, k)[Skips(t, delivered, k)..]
    ensures r.segs[r.packet..] == Carry(t, delivered, k + 1)
    ensures !Tracking(t, delivered, k + 1) ==> Orphaned(r)
    ensures Pending(r) == Pending(s) +
      if Done(t, k) < Done(t, k + 1) then PacketEvents(t, Done(t, k) + 1, Done(t, k + 1)) else []
  {
    hide Done, Events, Off, PageEntries, SkipLength, Tracking, Unfinished, WellCut;
    var i, whole := Done(t, k), s.segs;
    assert whole == s.segs[..s.packet] && Closed(whole);
    SkipsToEnd(t, k);
    TrackingAfter(t, delivered, k);
    if i == Done(t, k + 1) {
      NotLastPage(t, k);
      assert PageEntries(t, k)[|t.groups[k]|..] == [];
      assert r.segs == whole;
      AllWhole(r, whole);
    } else {
      if t.ended && k == |t.groups| - 1 && Skips(t, delivered, k) == |t.groups[k]| {
        MarkedHole(whole);
        AllWhole(r, MarkLast(whole));
        LastPageCompletes(t, k);
        AllSkipped(t, k);
      } else {
        SkippedResult(t, whole, r, k, Skips(t, delivered, k));
      }
    }
  }

  /** The state when the first n entries of page k, the rest of a lost packet, are left out. */
  lemma {:induction false} SkippedResult(t: Trip, whole: seq<Seg>, r: Stream, k: nat, n: nat)
    requires WellCut(t) && k < |t.groups| && Done(t, k) < Done(t, k + 1) && Decoding(r) && Closed(whole)
    requires n == Off(t, Done(t, k) + 1) - Cum(t, k) <= |t.groups[k]|
    requires r.segs == whole + PageEntries(t, k)[n..]
    ensures r.segs[r.packet..] == Unfinished(t, k + 1)
    ensures Pending(r) == Events(whole) + PacketEvents(t, Done(t, k) + 1, Done(t, k + 1))
  {
    hide *;
    SkippedTo(t, k);
    PageResult(t, whole, r, k, Done(t, k) + 1);
  }

  /** Any delivered page, once its number is checked: the packets that are whole on it become pending. */
  lemma {:induction false} SyncedPage(t: Trip, delivered: set<nat>, s: Stream, k: nat, serialno: int)
    requires Synced(t, delivered, s, k) && k in delivered
    ensures var r := Ended(Placed(s, HeadOf(t, k, serialno), Chunks(t.groups[k])), HeadOf(t, k, serialno));
      && Decoding(r) && r.segs[r.packet..] == Carry(t, delivered, k + 1)
      && (!Tracking(t, delivered, k + 1) ==> Orphaned(r))
      && Pending(r) == Pending(s) + Kept(t, delivered, Done(t, k), Done(t, k + 1))
  {
    KeptOnPage(t, delivered, k);
    if Tracking(t, delivered, k) {
      TrackingAfter(t, delivered, k);
      TrackedPage(t, delivered, s, k, serialno);
    } else {
      UntrackedPage(t, delivered, s, k, serialno);
    }
  }

  lemma {:induction false} GapThenPackets(t: Trip, delivered: set<nat>, next: int, k: nat,
      before: seq<Event>, synced: seq<Event>, after: seq<Event>)
    requires k < |t.groups| && synced == before + if NoGap(next, k) then [] else [Missing]
    requires after == synced + Kept(t, delivered, Done(t, k), Done(t, k + 1))
    ensures after == before + PageEvents(t, delivered, next, k)
  {
    var gap: seq<Event> := if NoGap(next, k) then [] else [Missing];
    AppendAssociates(before, gap, Kept(t, delivered, Done(t, k), Done(t, k + 1)));
  }

  lemma {:induction false} SyncedDelivers(t: Trip, delivered: set<nat>, s: Stream, k: nat, serialno: int)
    requires Synced(t, delivered, s, k) && k in delivered
    ensures var r := Ended(Placed(s, HeadOf(t, k, serialno), Chunks(t.groups[k])), HeadOf(t, k, serialno));
      InStep(t, delivered, r, k + 1) && Pending(r) == Pending(s) + Kept(t, delivered, Done(t, k), Done(t, k + 1))
  {
    SyncedPage(t, delivered, s, k, serialno);
    StepResult(t, delivered, Ended(Placed(s, HeadOf(t, k, serialno), Chunks(t.groups[k])), HeadOf(t, k, serialno)), k);
  }

  /** One delivered page: the packets that are whole on it become pending, after a report of any gap before it. */
  lemma {:induction false} DeliverStep(t: Trip, delivered: set<nat>, s: Stream, next: int, k: nat, serialno: int)
    requires InStep(t, delivered, s, next) && next <= k < |t.groups| && k in delivered
    requires forall l: nat :: next <= l < k ==> l !in delivered
    ensures var r := TakePage(s, HeadOf(t, k, serialno), Chunks(t.groups[k]));
      InStep(t, delivered, r, k + 1) && Pending(r) == Pending(s) + PageEvents(t, delivered, next, k)
  {
    var head := HeadOf(t, k, serialno);
    var synced := InSequence(s, head);
    Syncs(t, delivered, s, next, k, head);
    SyncedDelivers(t, delivered, synced, k, serialno);
    var r := TakePage(s, head, Chunks(t.groups[k]));
    assert r == Ended(Placed(synced, head, Chunks(t.groups[k])), head);
    GapThenPackets(t, delivered, next, k, Pending(s), Pending(synced), Pending(r));
  }

  lemma {:induction false} StepResult(t: Trip, delivered: set<nat>, r: Stream, k: nat)
    requires WellCut(t) && k < |t.groups| && Decoding(r) && r.pageno == k + 1
    requires r.segs[r.packet..] == Carry(t, delivered, k + 1) && (!Tracking(t, delivered, k + 1) ==> Orphaned(r))
    ensures InStep(t, delivered, r, k + 1)
  {
  }

  lemma {:induction false} NotLastPage(t: Trip, k: nat)
    requires WellCut(t) && k < |t.groups| && Done(t, k) == Done(t, k + 1)
    ensures !(t.ended && k == |t.groups| - 1)
  {
    if t.ended && k == |t.groups| - 1 {
      LastPageCompletes(t, k);
    }
  }

  /** When the first packet that a page completes ends the page, that packet is the only one. */
  lemma {:induction false} AllSkipped(t: Trip, k: nat)
    requires WellCut(t) && k < |t.groups| && Done(t, k) < Done(t, k + 1)
    requires Off(t, Done(t, k) + 1) == Cum(t, k + 1)
    ensures Done(t, k + 1) == Done(t, k) + 1 && Unfinished(t, k + 1) == []
  {
    DoneUnique(t, k + 1, Done(t, k) + 1);
  }
}
