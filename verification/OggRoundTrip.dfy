/** Encoder and decoder together: the framing round trip, and what is left of it when pages are lost. */
module OggRoundTrip {
  import opened Sequences
  import opened OggSegments
  import opened OggPage
  import opened OggState
  import opened OggEncoder
  import opened OggDecoder
  import opened OggTransport
  import opened OggDelivery
  import opened OggReceiver
  import OggPageOut
  import OggParse

  /** The trip of an encoder run. */
  function TripOf(serialno: int, ops: seq<EncoderOp>): Trip {
    var e := Encode(serialno, ops);
    Trip(Submissions(ops), e.groups, Finished(e))
  }

  /** The numbers of an encoder run fit the fields of a page header. */
  predicate NumbersFit(serialno: int, ops: seq<EncoderOp>) {
    && -0x8000_0000 <= serialno < 0x8000_0000 && |Encode(serialno, ops).pages| <= 0x8000_0000
    && forall i :: 0 <= i < |Submissions(ops)| ==>
         -0x8000_0000_0000_0000 <= Submissions(ops)[i].granulepos < 0x8000_0000_0000_0000
  }

  /** The packets of an encoder run can be framed: only the last ends the stream, and the numbers fit. */
  predicate Frameable(serialno: int, ops: seq<EncoderOp>) {
    OnlyLastEnds(Submissions(ops)) && NumbersFit(serialno, ops)
  }

  lemma {:induction false} RunIsTrip(serialno: int, ops: seq<EncoderOp>)
    requires Frameable(serialno, ops)
    ensures var t := TripOf(serialno, ops);
      && WellCut(t) && TripFits(t, serialno) && |Encode(serialno, ops).pages| == |t.groups|
      && forall k :: 0 <= k < |t.groups| ==> Encode(serialno, ops).pages[k] == PageBytes(t, k, serialno)
  {
    hide EncoderStep, Flatten, Join, Lace, LastGranule, MakePage, Submissions;
    var ps, e := Submissions(ops), Encode(serialno, ops);
    EndingRun(serialno, ops);
    assert Flatten(e.groups) + e.stream.segs == AllSegs(ps);
    if Finished(e) {
      assert Flatten(e.groups) + [] == Flatten(e.groups);
    }
  }

  // ---------- the order of delivery ----------

  predicate Increasing(ks: seq<nat>, n: nat) {
    && (forall j :: 0 <= j < |ks| ==> ks[j] < n)
    && forall i, j :: 0 <= i < j < |ks| ==> ks[i] < ks[j]
  }

  function Members(ks: seq<nat>): set<nat> {
    set j | 0 <= j < |ks| :: ks[j]
  }

  lemma {:induction false} IncreasingArrives(t: Trip, delivered: set<nat>, next: int, ks: seq<nat>)
    requires Increasing(ks, |t.groups|) && (ks != [] ==> next <= ks[0])
    requires forall l: nat :: next <= l ==> (l in delivered <==> l in ks)
    ensures Arrives(t, delivered, next, ks)
    decreases |ks|
  {
    if ks != [] {
      var later := ks[1..];
      forall l: nat | ks[0] + 1 <= l
        ensures l in delivered <==> l in later
      {
        assert l in ks <==> l in later by {
          if l in ks {
            var j :| 0 <= j < |ks| && ks[j] == l;
            assert later[j - 1] == l;
          }
        }
      }
      assert forall j :: 0 <= j < |ks| ==> ks[0] <= ks[j];
      IncreasingArrives(t, delivered, ks[0] + 1, later);
    }
  }

  // ---------- what is expected, packet by packet ----------

  /** The packets among some events. */
  function PacketsOf(events: seq<Event>): seq<Event> {
    if events == [] then []
    else (if events[0].Packet? then [events[0]] else []) + PacketsOf(events[1..])
  }

  /** The number of gap reports among some events. */
  function MissingIn(events: seq<Event>): nat {
    if events == [] then 0
    else (if events[0].Packet? then 0 else 1) + MissingIn(events[1..])
  }

  lemma {:induction false} PacketsOfConcat(a: seq<Event>, b: seq<Event>)
    ensures PacketsOf(a + b) == PacketsOf(a) + PacketsOf(b)
  {
    if a == [] {
      assert a + b == b;
    } else {
      var now: seq<Event> := if a[0].Packet? then [a[0]] else [];
      assert (a + b)[1..] == a[1..] + b;
      PacketsOfConcat(a[1..], b);
      AppendAssociates(now, PacketsOf(a[1..]), PacketsOf(b));
    }
  }

  lemma {:induction false} MissingInConcat(a: seq<Event>, b: seq<Event>)
    ensures MissingIn(a + b) == MissingIn(a) + MissingIn(b)
  {
    if a == [] {
      assert a + b == b;
    } else {
      assert (a + b)[1..] == a[1..] + b;
      MissingInConcat(a[1..], b);
    }
  }

  lemma {:induction false} EventsSplit(a: seq<Event>, b: seq<Event>)
    ensures PacketsOf(a + b) == PacketsOf(a) + PacketsOf(b)
    ensures MissingIn(a + b) == MissingIn(a) + MissingIn(b)
  {
    PacketsOfConcat(a, b);
    MissingInConcat(a, b);
  }

  lemma {:induction false} KeptArePackets(t: Trip, delivered: set<nat>, a: nat, b: nat)
    requires b <= |t.ps|
    ensures PacketsOf(Kept(t, delivered, a, b)) == Kept(t, delivered, a, b)
    ensures MissingIn(Kept(t, delivered, a, b)) == 0
    decreases b - a
  {
    if a < b {
      var now: seq<Event> := if Intact(t, delivered, a) then [PacketEvent(t, a)] else [];
      KeptArePackets(t, delivered, a + 1, b);
      EventsSplit(now, Kept(t, delivered, a + 1, b));
      assert now != [] ==> now[1..] == [];
    }
  }

  lemma {:induction false} KeptSplit(t: Trip, delivered: set<nat>, a: nat, m: nat, b: nat)
    requires a <= m <= b <= |t.ps|
    ensures Kept(t, delivered, a, b) == Kept(t, delivered, a, m) + Kept(t, delivered, m, b)
    decreases m - a
  {
    if a < m {
      KeptSplit(t, delivered, a + 1, m, b);
      var now: seq<Event> := if Intact(t, delivered, a) then [PacketEvent(t, a)] else [];
      AppendAssociates(now, Kept(t, delivered, a + 1, m), Kept(t, delivered, m, b));
    }
  }

  /** No packet that completes on a page that was lost is intact. */
  lemma {:induction false} NoneKept(t: Trip, delivered: set<nat>, k: nat, a: nat, b: nat)
    requires WellCut(t) && k < |t.groups| && k !in delivered
    requires Done(t, k) <= a && b <= Done(t, k + 1)
    ensures Kept(t, delivered, a, b) == []
    decreases b - a
  {
    hide Off, Total, WellCut;
    if a < b {
      CompletesIffDone(t, k, a);
      DoneIs(t, k + 1);
      OffMonotone(t, a, a + 1);
      assert Carries(t, k, a) by {
        DoneIs(t, k);
        OffMonotone(t, Done(t, k), a);
        CumMonotone(t, k, k + 1);
        LastSegmentCarried(t, k, a);
      }
      NoneKept(t, delivered, k, a + 1, b);
    }
  }

  lemma {:induction false} LastSegmentCarried(t: Trip, k: nat, i: nat)
    requires k < |t.groups| && i < |t.ps| && Completes(t, k, i)
    ensures Carries(t, k, i)
  {
    OffMonotone(t, i, i + 1);
  }

  lemma {:induction false} DoneOrder(t: Trip, k: nat, l: nat)
    requires WellCut(t) && k <= l <= |t.groups|
    ensures Done(t, k) <= Done(t, l)
    decreases l - k
  {
    if k < l {
      DoneMonotone(t, l - 1);
      DoneOrder(t, k, l - 1);
    }
  }

  /** Between pages that are delivered nothing is kept. */
  lemma {:induction false} NoneKeptBetween(t: Trip, delivered: set<nat>, k: nat, l: nat)
    requires WellCut(t) && k <= l <= |t.groups| && forall m: nat :: k <= m < l ==> m !in delivered
    ensures Done(t, k) <= Done(t, l) && Kept(t, delivered, Done(t, k), Done(t, l)) == []
    decreases l - k
  {
    hide Done, WellCut;
    DoneOrder(t, k, l);
    if k < l {
      DoneOrder(t, k, l - 1);
      DoneMonotone(t, l - 1);
      NoneKeptBetween(t, delivered, k, l - 1);
      NoneKept(t, delivered, l - 1, Done(t, l - 1), Done(t, l));
      KeptSplit(t, delivered, Done(t, k), Done(t, l - 1), Done(t, l));
    }
  }

  /** The number of breaks in the order of delivery. */
  function Gaps(next: int, ks: seq<nat>): nat
    decreases |ks|
  {
    if ks == [] then 0 else (if NoGap(next, ks[0]) then 0 else 1) + Gaps(ks[0] + 1, ks[1..])
  }

  /** The next page, and the pages after it. */
  lemma {:induction false} ExpectedSplit(t: Trip, delivered: set<nat>, next: int, ks: seq<nat>)
    requires Arrives(t, delivered, next, ks) && ks != []
    ensures var k := ks[0];
      && next <= k < |t.groups| && Arrives(t, delivered, k + 1, ks[1..])
      && (forall l: nat :: next <= l < k ==> l !in delivered)
      && PacketsOf(Expected(t, delivered, next, ks))
         == Kept(t, delivered, Done(t, k), Done(t, k + 1)) + PacketsOf(Expected(t, delivered, k + 1, ks[1..]))
      && MissingIn(Expected(t, delivered, next, ks))
         == (if NoGap(next, k) then 0 else 1) + MissingIn(Expected(t, delivered, k + 1, ks[1..]))
  {
    ExpectedUnfold(t, delivered, next, ks);
    EventsSplit(PageEvents(t, delivered, next, ks[0]), Expected(t, delivered, ks[0] + 1, ks[1..]));
    PageEventsAre(t, delivered, next, ks[0]);
  }

  /** Packet by packet: what is expected is every packet that arrives whole, and one report for each gap. */
  lemma {:induction false} ExpectedIs(t: Trip, delivered: set<nat>, next: int, from: nat, ks: seq<nat>)
    requires WellCut(t) && Arrives(t, delivered, next, ks)
    requires from == (if next == -1 then 0 else next) <= |t.groups|
    ensures PacketsOf(Expected(t, delivered, next, ks)) == Kept(t, delivered, Done(t, from), Done(t, |t.groups|))
    ensures MissingIn(Expected(t, delivered, next, ks)) == Gaps(next, ks)
    decreases |ks|
  {
    hide Expected, Kept, Done, PacketsOf, MissingIn, WellCut, Intact;
    if ks == [] {
      NoneExpected(t, delivered, next, from);
    } else {
      var k := ks[0];
      ExpectedSplit(t, delivered, next, ks);
      ExpectedIs(t, delivered, k + 1, k + 1, ks[1..]);
      KeptFrom(t, delivered, from, k, |t.groups|);
    }
  }

  lemma {:induction false} NoneExpected(t: Trip, delivered: set<nat>, next: int, from: nat)
    requires WellCut(t) && Arrives(t, delivered, next, []) && next <= from <= |t.groups|
    ensures PacketsOf(Expected(t, delivered, next, [])) == Kept(t, delivered, Done(t, from), Done(t, |t.groups|))
    ensures MissingIn(Expected(t, delivered, next, [])) == 0
  {
    NoneKeptBetween(t, delivered, from, |t.groups|);
  }

  /** Page k is the next delivered one: of what is complete before page m, what it completes comes first. */
  lemma {:induction false} KeptFrom(t: Trip, delivered: set<nat>, from: nat, k: nat, m: nat)
    requires WellCut(t) && from <= k < m <= |t.groups| && forall l: nat :: from <= l < k ==> l !in delivered
    ensures Kept(t, delivered, Done(t, from), Done(t, m))
         == Kept(t, delivered, Done(t, k), Done(t, k + 1)) + Kept(t, delivered, Done(t, k + 1), Done(t, m))
         == Kept(t, delivered, Done(t, k), Done(t, m))
  {
    NoneKeptBetween(t, delivered, from, k);
    DoneMonotone(t, k);
    DoneOrder(t, k + 1, m);
    KeptSplit(t, delivered, Done(t, k), Done(t, k + 1), Done(t, m));
    KeptSplit(t, delivered, Done(t, from), Done(t, k), Done(t, m));
    var later := Kept(t, delivered, Done(t, k), Done(t, m));
    assert [] + later == later;
  }

  // ---------- where the reports stand ----------

  /** Some pages are missed before page j of those delivered. */
  predicate GapBefore(next: int, ks: seq<nat>, j: nat)
    requires j < |ks|
  {
    !NoGap(if j == 0 then next else ks[j - 1] + 1, ks[j])
  }

  /**
   The report of the gap before page ks[j]: it comes after the packets complete before that page and the reports
   of earlier gaps, and before the packets complete from that page on.
   */
  ghost predicate ReportAt(t: Trip, delivered: set<nat>, heard: seq<Event>, at: nat, next: int, from: nat,
      ks: seq<nat>, j: nat)
    requires from <= |t.groups| && j < |ks| && ks[j] < |t.groups|
  {
    && at < |heard| && heard[at] == Missing
    && MissingIn(heard[..at]) == Gaps(next, ks[..j])
    && PacketsOf(heard[..at]) == Kept(t, delivered, Done(t, from), Done(t, ks[j]))
    && PacketsOf(heard[at + 1..]) == Kept(t, delivered, Done(t, ks[j]), Done(t, |t.groups|))
  }

  ghost predicate ReportStands(t: Trip, delivered: set<nat>, heard: seq<Event>, next: int, from: nat, ks: seq<nat>,
      j: nat)
    requires from <= |t.groups| && j < |ks| && ks[j] < |t.groups|
  {
    exists at: nat :: ReportAt(t, delivered, heard, at, next, from, ks, j)
  }

  lemma {:induction false} ArrivesWithin(t: Trip, delivered: set<nat>, next: int, ks: seq<nat>, j: nat)
    requires Arrives(t, delivered, next, ks) && j < |ks|
    ensures next <= ks[j] < |t.groups|
    decreases |ks|
  {
    if j > 0 {
      ArrivesWithin(t, delivered, ks[0] + 1, ks[1..], j - 1);
    }
  }

  /** A gap before the first page is reported first. */
  lemma {:induction false} FirstReport(t: Trip, delivered: set<nat>, next: int, from: nat, ks: seq<nat>)
    requires WellCut(t) && Arrives(t, delivered, next, ks) && ks != [] && GapBefore(next, ks, 0)
    requires from == if next == -1 then 0 else next
    ensures from <= |t.groups| && ks[0] < |t.groups|
    ensures ReportAt(t, delivered, Expected(t, delivered, next, ks), 0, next, from, ks, 0)
  {
    hide Kept, Done, WellCut, Expected, Intact;
    var k, n := ks[0], |t.groups|;
    ExpectedUnfold(t, delivered, next, ks);
    NoneKeptBetween(t, delivered, from, k);
    var later := Expected(t, delivered, k + 1, ks[1..]);
    var kept := Kept(t, delivered, Done(t, k), Done(t, k + 1));
    FirstIsMissing(kept, later, PageEvents(t, delivered, next, k), Expected(t, delivered, next, ks));
    EventsSplit(kept, later);
    KeptArePackets(t, delivered, Done(t, k), Done(t, k + 1));
    ExpectedIs(t, delivered, k + 1, k + 1, ks[1..]);
    KeptFrom(t, delivered, k, k, n);
    assert ks[..0] == [];
  }

  lemma {:induction false} FirstIsMissing(kept: seq<Event>, later: seq<Event>, now: seq<Event>, all: seq<Event>)
    requires now == [Missing] + kept && all == now + later
    ensures all[0] == Missing && all[..0] == [] && all[0 + 1..] == kept + later
  {
  }

  /** A later report stands among the events of the later pages. */
  lemma {:induction false} LaterReport(t: Trip, delivered: set<nat>, next: int, from: nat, ks: seq<nat>, j: nat,
      at: nat)
    requires WellCut(t) && Arrives(t, delivered, next, ks) && 0 < j < |ks|
    requires from == if next == -1 then 0 else next
    requires ks[0] < ks[j] < |t.groups| && Arrives(t, delivered, ks[0] + 1, ks[1..]) && from <= |t.groups|
    requires var after := ks[0] + 1;
      ReportAt(t, delivered, Expected(t, delivered, after, ks[1..]), at, after, after, ks[1..], j - 1)
    ensures var before := |PageEvents(t, delivered, next, ks[0])|;
      ReportAt(t, delivered, Expected(t, delivered, next, ks), before + at, next, from, ks, j)
  {
    hide Kept, PageEvents, Done, Arrives, PacketsOf, WellCut;
    var k := ks[0];
    var now, later := PageEvents(t, delivered, next, k), Expected(t, delivered, k + 1, ks[1..]);
    ExpectedUnfold(t, delivered, next, ks);
    SliceOfSum(now, later, at);
    EventsSplit(now, later[..at]);
    PageEventsAre(t, delivered, next, k);
    KeptFrom(t, delivered, from, k, ks[j]);
    assert ks[..j][0] == k && ks[..j][1..] == ks[1..][..j - 1];
  }

  lemma {:induction false} SliceOfSum(now: seq<Event>, later: seq<Event>, at: nat)
    requires at < |later|
    ensures (now + later)[..|now| + at] == now + later[..at]
    ensures (now + later)[|now| + at] == later[at]
    ensures (now + later)[|now| + at + 1..] == later[at + 1..]
  {
  }

  /** Each gap is reported between the packets complete before it and those complete after it. */
  lemma {:induction false} ReportsInPlace(t: Trip, delivered: set<nat>, next: int, from: nat, ks: seq<nat>, j: nat)
    requires WellCut(t) && Arrives(t, delivered, next, ks) && j < |ks| && GapBefore(next, ks, j)
    requires from == if next == -1 then 0 else next
    ensures from <= |t.groups| && ks[j] < |t.groups|
    ensures ReportStands(t, delivered, Expected(t, delivered, next, ks), next, from, ks, j)
    decreases j
  {
    hide NoGap, PageEvents, ReportAt, WellCut;
    ArrivesWithin(t, delivered, next, ks, j);
    if j == 0 {
      FirstReport(t, delivered, next, from, ks);
    } else {
      ExpectedUnfold(t, delivered, next, ks);
      ArrivesWithin(t, delivered, ks[0] + 1, ks[1..], j - 1);
      ReportsInPlace(t, delivered, ks[0] + 1, ks[0] + 1, ks[1..], j - 1);
      var later := Expected(t, delivered, ks[0] + 1, ks[1..]);
      var at: nat :| ReportAt(t, delivered, later, at, ks[0] + 1, ks[0] + 1, ks[1..], j - 1);
      LaterReport(t, delivered, next, from, ks, j, at);
    }
  }

  lemma {:induction false} PageEventsAre(t: Trip, delivered: set<nat>, next: int, k: nat)
    requires k < |t.groups|
    ensures PacketsOf(PageEvents(t, delivered, next, k)) == Kept(t, delivered, Done(t, k), Done(t, k + 1))
    ensures MissingIn(PageEvents(t, delivered, next, k)) == if NoGap(next, k) then 0 else 1
  {
    var gap: seq<Event> := if NoGap(next, k) then [] else [Missing];
    var kept := Kept(t, delivered, Done(t, k), Done(t, k + 1));
    KeptArePackets(t, delivered, Done(t, k), Done(t, k + 1));
    EventsSplit(gap, kept);
    assert gap != [] ==> gap[1..] == [];
  }

  // ---------- main results ----------

  /** A decoder that has received nothing: as initialised, or after a reset. */
  function NewDecoder(serialno: int, reset: bool): Decoded {
    Decoded(if reset then Fresh(serialno).(pageno := -1) else Fresh(serialno), [])
  }

  lemma {:induction false} NewIsOnCourse(t: Trip, delivered: set<nat>, serialno: int, reset: bool)
    requires WellCut(t) && TripFits(t, serialno)
    ensures OnCourse(t, delivered, NewDecoder(serialno, reset), if reset then -1 else 0, serialno)
    ensures Heard(NewDecoder(serialno, reset)) == []
  {
    DoneIs(t, 0);
    if t.groups != [] {
      FirstPageStarts(t);
      NotContinuing(t, delivered, 0);
    }
  }

  /** The pages of an encoder run that get through. */
  predicate Through(serialno: int, ops: seq<EncoderOp>, ks: seq<nat>, pages: seq<Page>) {
    var sent := Encode(serialno, ops).pages;
    Increasing(ks, |sent|) && |pages| == |ks| && forall j :: 0 <= j < |ks| ==> pages[j] == sent[ks[j]]
  }

  /** What a decoder hears of the pages that get through is what they have to give. */
  lemma {:induction false} HeardIsExpected(serialno: int, ops: seq<EncoderOp>, ks: seq<nat>, dops: seq<DecoderOp>,
      reset: bool)
    requires Frameable(serialno, ops) && Through(serialno, ops, ks, Arrivals(dops))
    ensures var t, next := TripOf(serialno, ops), if reset then -1 else 0;
      && WellCut(t) && Arrives(t, Members(ks), next, ks)
      && Hears(NewDecoder(serialno, reset), dops, Expected(t, Members(ks), next, ks))
  {
    hide Decode, EncoderStep, Expected, Heard, InStep;
    var t, d, next := TripOf(serialno, ops), NewDecoder(serialno, reset), if reset then -1 else 0;
    RunIsTrip(serialno, ops);
    NewIsOnCourse(t, Members(ks), serialno, reset);
    IncreasingArrives(t, Members(ks), next, ks);
    DecoderRun(t, Members(ks), d, next, ks, dops, serialno);
  }

  /** Before the first page no packet is complete. */
  lemma {:induction false} NothingDone(t: Trip)
    requires WellCut(t)
    ensures Done(t, 0) == 0
  {
    DoneIs(t, 0);
    DoneUnique(t, 0, 0);
  }

  /**
   Loss safety. Any encoder run, any of its pages delivered in order, any decoder run: the packets
   heard are exactly those of which every page was delivered, in order and unaltered, and there is
   one gap report for each break in the order of delivery, between the packets complete before the break and
   those complete after it.
   */
  lemma {:induction false} LossSafety(serialno: int, ops: seq<EncoderOp>, ks: seq<nat>, dops: seq<DecoderOp>,
      reset: bool)
    requires Frameable(serialno, ops) && Through(serialno, ops, ks, Arrivals(dops))
    ensures PagesWellFormed(dops)
    ensures var t, r := TripOf(serialno, ops), Decode(NewDecoder(serialno, reset), dops);
      && Numbered(r) && WellCut(t)
      && PacketsOf(Heard(r)) == Kept(t, Members(ks), 0, Done(t, |t.groups|))
      && MissingIn(Heard(r)) == Gaps(if reset then -1 else 0, ks)
      && forall j :: 0 <= j < |ks| && GapBefore(if reset then -1 else 0, ks, j) ==>
        ks[j] < |t.groups| && ReportStands(t, Members(ks), Heard(r), if reset then -1 else 0, 0, ks, j)
  {
    hide Kept, Expected, PacketsOf, ReportStands, Done, Frameable, WellCut, Gaps;
    var t, next := TripOf(serialno, ops), if reset then -1 else 0;
    HeardIsExpected(serialno, ops, ks, dops, reset);
    ExpectedIs(t, Members(ks), next, 0, ks);
    NothingDone(t);
    var expected := Expected(t, Members(ks), next, ks);
    assert Heard(NewDecoder(serialno, reset)) == [] && [] + expected == expected;
    AllReportsInPlace(t, Members(ks), next, ks, Heard(Decode(NewDecoder(serialno, reset), dops)));
  }

  lemma {:induction false} AllReportsInPlace(t: Trip, delivered: set<nat>, next: int, ks: seq<nat>, heard: seq<Event>)
    requires WellCut(t) && Arrives(t, delivered, next, ks) && -1 <= next <= 0
    requires heard == Expected(t, delivered, next, ks)
    ensures forall j :: 0 <= j < |ks| && GapBefore(next, ks, j) ==>
      ks[j] < |t.groups| && ReportStands(t, delivered, heard, next, 0, ks, j)
  {
    forall j | 0 <= j < |ks| && GapBefore(next, ks, j)
      ensures ks[j] < |t.groups| && ReportStands(t, delivered, heard, next, 0, ks, j)
    {
      ReportsInPlace(t, delivered, next, 0, ks, j);
    }
  }

  lemma {:induction false} NothingMissing(events: seq<Event>)
    requires MissingIn(events) == 0
    ensures PacketsOf(events) == events
  {
    if events != [] {
      NothingMissing(events[1..]);
      assert events == [events[0]] + events[1..];
    }
  }

  function Range(a: nat, n: nat): (ks: seq<nat>)
    ensures |ks| == n && forall j :: 0 <= j < n ==> ks[j] == a + j
  {
    seq(n, j requires 0 <= j < n => a + j)
  }

  lemma {:induction false} RangeHasNoGap(a: nat, n: nat)
    ensures Gaps(a, Range(a, n)) == 0
    decreases n
  {
    if n > 0 {
      assert Range(a, n)[1..] == Range(a + 1, n - 1);
      RangeHasNoGap(a + 1, n - 1);
    }
  }

  lemma {:induction false} PacketEventsAt(t: Trip, a: nat, b: nat, i: nat)
    requires a <= i <= b <= |t.ps|
    ensures |PacketEvents(t, a, b)| == b - a
    ensures i < b ==> PacketEvents(t, a, b)[i - a] == PacketEvent(t, i)
    decreases b - a
  {
    if a < b {
      PacketEventsAt(t, a + 1, b, if i == a then a + 1 else i);
    }
  }

  /** No gap, and every page delivered: what is heard are all the packets. */
  lemma {:induction false} HeardAll(t: Trip, heard: seq<Event>)
    requires WellCut(t) && MissingIn(heard) == Gaps(0, Range(0, |t.groups|))
    requires PacketsOf(heard) == Kept(t, Members(Range(0, |t.groups|)), 0, Done(t, |t.groups|))
    ensures heard == PacketEvents(t, 0, Done(t, |t.groups|))
  {
    RangeHasNoGap(0, |t.groups|);
    NothingMissing(heard);
    AllIntact(t, Range(0, |t.groups|));
  }

  lemma {:induction false} AllThrough(serialno: int, ops: seq<EncoderOp>, ks: seq<nat>)
    requires ks == Range(0, |Encode(serialno, ops).pages|)
    ensures Through(serialno, ops, ks, Encode(serialno, ops).pages)
  {
  }

  /** When all pages of a run arrive, so do all packets that they complete. */
  lemma {:induction false} AllDelivered(serialno: int, ops: seq<EncoderOp>, dops: seq<DecoderOp>)
    requires Frameable(serialno, ops) && Arrivals(dops) == Encode(serialno, ops).pages
    ensures PagesWellFormed(dops)
    ensures var t, r := TripOf(serialno, ops), Decode(NewDecoder(serialno, false), dops);
      Numbered(r) && WellCut(t) && Heard(r) == PacketEvents(t, 0, Done(t, |t.groups|))
  {
    hide Kept, PacketsOf, ReportStands, Done, WellCut, Gaps, GapBefore, MissingIn, Members, Through, PacketEvents;
    hide Encode;
    var t := TripOf(serialno, ops);
    var ks := Range(0, |t.groups|);
    RunIsTrip(serialno, ops);
    AllThrough(serialno, ops, ks);
    LossSafety(serialno, ops, ks, dops, false);
    HeardAll(t, Heard(Decode(NewDecoder(serialno, false), dops)));
  }

  lemma {:induction false} AllIntact(t: Trip, ks: seq<nat>)
    requires WellCut(t) && ks == Range(0, |t.groups|)
    ensures Kept(t, Members(ks), 0, Done(t, |t.groups|)) == PacketEvents(t, 0, Done(t, |t.groups|))
  {
    forall k: nat | k < |ks|
      ensures k in Members(ks)
    {
      assert ks[k] == k;
    }
    AllKept(t, Members(ks), 0, Done(t, |t.groups|));
  }

  /** A decoder run heard exactly the packets of a trip, in order, whole, and with their flags and numbers. */
  ghost predicate Restored(t: Trip, d: Decoded)
    requires d.stream.packet <= |d.stream.segs|
  {
    && Numbered(d) && |Heard(d)| == |t.ps|
    && forall i :: 0 <= i < |t.ps| ==>
         Heard(d)[i] == Packet(t.ps[i].data, i == 0, i == |t.ps| - 1, ReturnedGranule(t, i))
  }

  /**
   The framing round trip. Any packets of which exactly the last ends the stream, any interleaving
   of submissions, pageouts and flushes that ends with nothing left, any interleaving of page
   arrivals with packetouts and peeks: the decoder gives exactly the packets submitted.
   */
  lemma {:induction false} RoundTrip(serialno: int, ops: seq<EncoderOp>, dops: seq<DecoderOp>)
    requires Frameable(serialno, ops) && Finished(Encode(serialno, ops))
    requires Arrivals(dops) == Encode(serialno, ops).pages
    ensures PagesWellFormed(dops)
    ensures Restored(TripOf(serialno, ops), Decode(NewDecoder(serialno, false), dops))
  {
    var t := TripOf(serialno, ops);
    RunIsTrip(serialno, ops);
    AllDelivered(serialno, ops, dops);
    EndedCompletesAll(t);
    AllPacketEvents(t);
  }

  lemma {:induction false} EndLeavesFinished(serialno: int, ops: seq<EncoderOp>)
    requires EndSubmitted(Submissions(ops)) && SegmentsLeft(serialno, ops) == 0
    ensures Finished(Encode(serialno, ops))
  {
    EncoderRun(serialno, ops);
  }

  /**
   The round trip of a loop that submits packets and takes pages until pageout has none: no flush is needed, and
   nothing need be supposed of what is left in the encoder.
   */
  lemma {:induction false} PageOutRoundTrip(serialno: int, ops: seq<EncoderOp>, nfill: int, dops: seq<DecoderOp>)
    requires Frameable(serialno, ops) && EndSubmitted(Submissions(ops))
    requires Encode(serialno, ops + [EncoderOp.PageOut(nfill)]).pages == Encode(serialno, ops).pages
    requires Arrivals(dops) == Encode(serialno, ops).pages
    ensures PagesWellFormed(dops)
    ensures Restored(TripOf(serialno, ops), Decode(NewDecoder(serialno, false), dops))
  {
    OggPageOut.NoPageNothingLeft(serialno, ops, nfill);
    EndLeavesFinished(serialno, ops);
    RoundTrip(serialno, ops, dops);
  }

  lemma {:induction false} AllPacketEvents(t: Trip)
    ensures |PacketEvents(t, 0, |t.ps|)| == |t.ps|
    ensures forall i :: 0 <= i < |t.ps| ==> PacketEvents(t, 0, |t.ps|)[i] == PacketEvent(t, i)
  {
    PacketEventsAt(t, 0, |t.ps|, |t.ps|);
    forall i | 0 <= i < |t.ps|
      ensures PacketEvents(t, 0, |t.ps|)[i] == PacketEvent(t, i)
    {
      PacketEventsAt(t, 0, |t.ps|, i);
    }
  }

  lemma {:induction false} EndedCompletesAll(t: Trip)
    requires WellCut(t) && t.ended
    ensures Done(t, |t.groups|) == |t.ps|
  {
    Lengths(t);
    DoneUnique(t, |t.groups|, |t.ps|);
  }

  /** The granule positions: that of the page on the last packet completed there, -1 on the others. */
  lemma {:induction false} GranuleRule(t: Trip, k: nat, i: nat)
    requires WellCut(t) && k < |t.groups| && i < |t.ps| && Completes(t, k, i)
    ensures ReturnedGranule(t, i) ==
      if i + 1 < |t.ps| && Completes(t, k, i + 1) then -1
      else if k == 0 then 0 else t.ps[i].granulepos
  {
    OnePageCompletes(t, k, i);
  }

  function Outs(n: nat): seq<DecoderOp> {
    seq(n, _ => Out)
  }

  lemma {:induction false} PendingShrinks(d: Decoded)
    requires Decoding(d.stream)
    ensures Pending(d.stream) == [] ==> DecoderStep(d, Out) == d
    ensures Decoding(DecoderStep(d, Out).stream) && Heard(DecoderStep(d, Out)) == Heard(d)
    ensures Pending(d.stream) != [] ==> |Pending(DecoderStep(d, Out).stream)| == |Pending(d.stream)| - 1
  {
    NoEvent(d.stream);
    if d.stream.packet > 0 {
      PopEvent(d.stream);
      PopHears(d);
    }
  }

  lemma {:induction false} OutsUnfold(d: Decoded, n: nat)
    requires n > 0 && Decoding(d.stream) && PagesWellFormed(Outs(n - 1))
    ensures PagesWellFormed(Outs(n)) && Decode(d, Outs(n)) == Decode(DecoderStep(d, Out), Outs(n - 1))
  {
    assert Outs(n)[0] == Out && Outs(n)[1..] == Outs(n - 1);
  }

  lemma {:induction false} NoOuts(d: Decoded)
    requires Decoding(d.stream)
    ensures PagesWellFormed(Outs(0)) && Decode(d, Outs(0)) == d
    ensures Pending(d.stream) == [] ==> EventsOf(d.returned) == Heard(d)
  {
    assert EventsOf(d.returned) + [] == EventsOf(d.returned);
  }

  /** As many packetouts as there are events ready, or more, return everything that was heard. */
  lemma {:induction false} OutsReturn(d: Decoded, n: nat)
    requires Decoding(d.stream) && |Pending(d.stream)| <= n
    ensures PagesWellFormed(Outs(n))
    ensures Pending(Decode(d, Outs(n)).stream) == [] && EventsOf(Decode(d, Outs(n)).returned) == Heard(d)
    decreases n
  {
    hide Outs, Decode, DecoderStep, Pending, Heard;
    PendingShrinks(d);
    if n > 0 {
      OutsReturn(DecoderStep(d, Out), n - 1);
      OutsUnfold(d, n);
    } else {
      NoOuts(d);
    }
  }

  // ---------- over the wire ----------

  /** Every page that an encoder run leaves is sound: capture pattern, lengths and checksum are right. */
  lemma {:induction false} PagesAreSound(serialno: int, ops: seq<EncoderOp>)
    requires NumbersFit(serialno, ops)
    ensures forall k :: 0 <= k < |Encode(serialno, ops).pages| ==> OggParse.Sound(Encode(serialno, ops).pages[k])
  {
    var ps, e := Submissions(ops), Encode(serialno, ops);
    EncoderRun(serialno, ops);
    RunFits(serialno, ops);
    forall k | 0 <= k < |e.pages|
      ensures OggParse.Sound(e.pages[k])
    {
      PageIsSound(ps, e, k, serialno);
    }
  }

  lemma {:induction false} RunFits(serialno: int, ops: seq<EncoderOp>)
    requires NumbersFit(serialno, ops) && AnyInvariant(serialno, Submissions(ops), Encode(serialno, ops))
    ensures TripFits(Trip(Submissions(ops), Encode(serialno, ops).groups, false), serialno)
  {
    var e := Encode(serialno, ops);
    forall k | 0 <= k < |e.groups|
      ensures 0 < |e.groups[k]| <= MAX_SEGMENTS
    {
      assert HoldsGroup(e.pages[k], e.groups, k, serialno, EndSubmitted(Submissions(ops)));
    }
  }

  lemma {:induction false} PageIsSound(ps: seq<Submission>, e: Encoded, k: nat, serialno: int)
    requires AnyInvariant(serialno, ps, e) && TripFits(Trip(ps, e.groups, false), serialno) && k < |e.pages|
    ensures OggParse.Sound(e.pages[k])
  {
    hide OggParse.Sound;
    var t := Trip(ps, e.groups, false);
    assert Flatten(e.groups) == AllSegs(ps)[..|Flatten(e.groups)|];
    assert HoldsGroup(e.pages[k], e.groups, k, serialno, EndSubmitted(ps));
    HeadFits(t, k, serialno);
    GroupIsSound(e.groups, k, serialno, false);
    GroupIsSound(e.groups, k, serialno, true);
  }

  lemma {:induction false} GroupIsSound(groups: seq<seq<Seg>>, k: nat, serialno: int, eos: bool)
    requires k < |groups| && groups[k] != [] && GroupHead(groups, k, serialno, eos).Fits()
    ensures OggParse.Sound(MakePage(GroupHead(groups, k, serialno, eos), Join(groups[k])))
  {
    CutJoin(groups[k]);
    MakePageReads(GroupHead(groups, k, serialno, eos), Join(groups[k]));
  }

  /** The pages of the bytes of an encoder run, in whatever chunks they arrive, are the pages of the run. */
  lemma {:induction false} WireDelivers(serialno: int, ops: seq<EncoderOp>, sops: seq<OggParse.SyncOp>)
    requires NumbersFit(serialno, ops) && OggParse.Fed(sops) == OggParse.Wire(Encode(serialno, ops).pages)
    requires OggParse.Seek(OggParse.Sync(OggParse.UNFED, sops).buffer).NeedMore?
    ensures OggParse.Sync(OggParse.UNFED, sops).pages == Encode(serialno, ops).pages
  {
    PagesAreSound(serialno, ops);
    OggParse.WirePages(Encode(serialno, ops).pages);
    OggParse.SyncReturnsPages(sops);
  }

  /**
   From packets to bytes and back: any encoder run that ends the stream, its bytes in any chunks, the
   pages found in them in any interleaving with packetouts and peeks.
   */
  lemma {:induction false} EndToEnd(serialno: int, ops: seq<EncoderOp>, sops: seq<OggParse.SyncOp>,
      dops: seq<DecoderOp>)
    requires Frameable(serialno, ops) && Finished(Encode(serialno, ops))
    requires OggParse.Fed(sops) == OggParse.Wire(Encode(serialno, ops).pages)
    requires OggParse.Seek(OggParse.Sync(OggParse.UNFED, sops).buffer).NeedMore?
    requires Arrivals(dops) == OggParse.Sync(OggParse.UNFED, sops).pages
    ensures PagesWellFormed(dops)
    ensures Restored(TripOf(serialno, ops), Decode(NewDecoder(serialno, false), dops))
  {
    WireDelivers(serialno, ops, sops);
    RoundTrip(serialno, ops, dops);
  }
}
