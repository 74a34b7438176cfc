/** Whole runs of the encoder: what the emitted pages hold, for any interleaving of calls. */
module OggEncoder {
  import opened Sequences
  import opened OggSegments
  import opened OggPage
  import opened OggState

  /** A call on an encoding stream state. */
  datatype EncoderOp = Submit(p: Submission) | PageOut(nfill: int) | Flush(nfill: int)

  /** A run so far: the state, the pages returned, and the segments that went into each of them. */
  datatype Encoded = Encoded(stream: Stream, pages: seq<Page>, groups: seq<seq<Seg>>)

  function Emit(e: Encoded, force: bool, nfill: int): Encoded {
    if Writes(e.stream, force, nfill) then
      Encoded(
        Flushed(e.stream, force, nfill),
        e.pages + [FlushPage(e.stream, force, nfill).value],
        e.groups + [e.stream.segs[..PageCut(e.stream, nfill)]])
    else e
  }

  function EncoderStep(e: Encoded, op: EncoderOp): Encoded {
    match op
    case Submit(p) => e.(stream := PacketIn(e.stream, p))
    case PageOut(nfill) => Emit(e, PageOutForces(e.stream), nfill)
    case Flush(nfill) => Emit(e, true, nfill)
  }

  function Encode(serialno: int, ops: seq<EncoderOp>): Encoded {
    if ops == [] then Encoded(Fresh(serialno), [], [])
    else EncoderStep(Encode(serialno, ops[..|ops| - 1]), ops[|ops| - 1])
  }

  /** The packets submitted in a run. */
  function Submissions(ops: seq<EncoderOp>): seq<Submission> {
    if ops == [] then []
    else Submissions(ops[..|ops| - 1]) + Submitted(ops[|ops| - 1])
  }

  /** The packets that one call submits. */
  function Submitted(op: EncoderOp): seq<Submission> {
    match op case Submit(p) => [p] case _ => []
  }

  /** The granule position of the last packet of a list; 0 before the first. */
  function LastGranule(ps: seq<Submission>): int {
    if ps == [] then 0 else ps[|ps| - 1].granulepos
  }

  /** The segments of all packets, in order. */
  function AllSegs(ps: seq<Submission>): seq<Seg> {
    if ps == [] then []
    else
      var before, p := ps[..|ps| - 1], ps[|ps| - 1];
      AllSegs(before) + Lace(p.data, p.granulepos, LastGranule(before), true)
  }

  /** No packet but the last is marked as the end of the stream. */
  predicate OnlyLastEnds(ps: seq<Submission>) {
    forall i :: 0 <= i < |ps| - 1 ==> !ps[i].eos
  }

  /** The header of page k of a stream that was cut into these groups. */
  function GroupHead(groups: seq<seq<Seg>>, k: nat, serialno: int, eos: bool): Head
    requires k < |groups| && groups[k] != []
  {
    Head(
      !groups[k][0].first, k == 0, eos,
      if k == 0 then 0 else LastDone(groups[k]),
      serialno, k, Sizes(groups[k]))
  }

  /** The pages hold the groups: one to 255 segments each, numbered from 0, headed as the format requires. */
  ghost predicate PagesOf(pages: seq<Page>, groups: seq<seq<Seg>>, serialno: int, ended: bool) {
    && |pages| == |groups|
    && (forall k :: 0 <= k < |groups| ==> 0 < |groups[k]| <= MAX_SEGMENTS)
    && (forall k :: 0 <= k < |groups| ==>
          pages[k] == MakePage(GroupHead(groups, k, serialno, ended && k == |groups| - 1), Join(groups[k])))
  }

  /** The last packet is marked as the end, and every segment is in a page. */
  predicate Finished(e: Encoded) {
    e.stream.eos && e.stream.segs == []
  }

  /** Pages and state together hold exactly the segments submitted, in order. */
  predicate Conserved(ps: seq<Submission>, e: Encoded) {
    Flatten(e.groups) + e.stream.segs == AllSegs(ps)
  }

  /** The first page holds segments of the first packet only. */
  predicate HeaderAlone(groups: seq<seq<Seg>>) {
    groups != [] ==> forall i :: 0 <= i < |groups[0]| - 1 ==> !groups[0][i].Ends()
  }

  predicate Counters(serialno: int, ps: seq<Submission>, e: Encoded) {
    && e.stream.bos == (e.groups != [])
    && e.stream.eos == (ps != [] && ps[|ps| - 1].eos)
    && e.stream.serialno == serialno && e.stream.pageno == |e.groups|
    && e.stream.packetno == |ps| && e.stream.granulepos == LastGranule(ps)
  }

  /** What every run keeps. */
  ghost predicate EncoderInvariant(serialno: int, ps: seq<Submission>, e: Encoded) {
    && Conserved(ps, e)
    && PagesOf(e.pages, e.groups, serialno, Finished(e))
    && HeaderAlone(e.groups)
    && Counters(serialno, ps, e)
  }

  lemma {:induction false} SubmitConserves(ps: seq<Submission>, e: Encoded, p: Submission)
    requires Conserved(ps, e) && e.stream.granulepos == LastGranule(ps)
    ensures Conserved(ps + [p], EncoderStep(e, Submit(p)))
  {
    var ps' := ps + [p];
    assert ps'[..|ps|] == ps;
    AppendAssociates(Flatten(e.groups), e.stream.segs, Lace(p.data, p.granulepos, LastGranule(ps), true));
  }

  lemma {:induction false} SubmitKeeps(serialno: int, ps: seq<Submission>, e: Encoded, p: Submission)
    requires EncoderInvariant(serialno, ps, e) && OnlyLastEnds(ps + [p])
    ensures EncoderInvariant(serialno, ps + [p], EncoderStep(e, Submit(p)))
  {
    SubmitConserves(ps, e, p);
    if ps != [] {
      assert !(ps + [p])[|ps| - 1].eos;
    }
    var e' := EncoderStep(e, Submit(p));
    assert |e'.stream.segs| > |e.stream.segs|;
    assert !Finished(e) && !Finished(e');
  }

  lemma {:induction false} EmitConserves(ps: seq<Submission>, e: Encoded, force: bool, nfill: int)
    requires Conserved(ps, e)
    ensures Conserved(ps, Emit(e, force, nfill))
  {
    var segs, cut := e.stream.segs, PageCut(e.stream, nfill);
    FlattenAppend(e.groups, segs[..cut]);
    AppendAssociates(Flatten(e.groups), segs[..cut], segs[cut..]);
    assert segs == segs[..cut] + segs[cut..];
  }

  lemma {:induction false} PagesOfAppend(pages: seq<Page>, groups: seq<seq<Seg>>, serialno: int, page: Page,
      group: seq<Seg>, ended: bool)
    requires PagesOf(pages, groups, serialno, false) && 0 < |group| <= MAX_SEGMENTS
    requires page == MakePage(GroupHead(groups + [group], |groups|, serialno, ended), Join(group))
    ensures PagesOf(pages + [page], groups + [group], serialno, ended)
  {
    hide LastDone, MakePage, WriteHead;
    var groups', pages' := groups + [group], pages + [page];
    forall k | 0 <= k < |groups'|
      ensures pages'[k] == MakePage(GroupHead(groups', k, serialno, ended && k == |groups'| - 1), Join(groups'[k]))
    {
      if k < |groups| {
        assert groups'[k] == groups[k] && pages'[k] == pages[k];
        assert GroupHead(groups', k, serialno, false) == GroupHead(groups, k, serialno, false);
      }
    }
  }

  lemma {:induction false} EmitKeeps(serialno: int, ps: seq<Submission>, e: Encoded, force: bool, nfill: int)
    requires EncoderInvariant(serialno, ps, e)
    ensures EncoderInvariant(serialno, ps, Emit(e, force, nfill))
  {
    hide Conserved, Join, MakePage;
    if Writes(e.stream, force, nfill) {
      var s, cut := e.stream, PageCut(e.stream, nfill);
      EmitConserves(ps, e, force, nfill);
      var group := s.segs[..cut];
      assert PageHead(s, cut) == GroupHead(e.groups + [group], |e.groups|, serialno, s.eos && cut == |s.segs|);
      PagesOfAppend(e.pages, e.groups, serialno, FlushPage(s, force, nfill).value, group, s.eos && cut == |s.segs|);
    }
  }

  lemma {:induction false} StepKeeps(serialno: int, ps: seq<Submission>, e: Encoded, op: EncoderOp)
    requires EncoderInvariant(serialno, ps, e) && OnlyLastEnds(ps + Submitted(op))
    ensures EncoderInvariant(serialno, ps + Submitted(op), EncoderStep(e, op))
  {
    match op
    case Submit(p) => SubmitKeeps(serialno, ps, e, p);
    case PageOut(nfill) =>
      assert ps + [] == ps;
      EmitKeeps(serialno, ps, e, PageOutForces(e.stream), nfill);
    case Flush(nfill) =>
      assert ps + [] == ps;
      EmitKeeps(serialno, ps, e, true, nfill);
  }

  /** In every run of which only the last packet ends the stream, the page that ends it is the last. */
  lemma {:induction false} EndingRun(serialno: int, ops: seq<EncoderOp>)
    requires OnlyLastEnds(Submissions(ops))
    ensures EncoderInvariant(serialno, Submissions(ops), Encode(serialno, ops))
  {
    if ops != [] {
      var before, op := ops[..|ops| - 1], ops[|ops| - 1];
      var ps := Submissions(before);
      assert forall i :: 0 <= i < |ps| ==> ps[i] == (ps + Submitted(op))[i];
      EndingRun(serialno, before);
      StepKeeps(serialno, ps, Encode(serialno, before), op);
    }
  }

  // ---------- runs in which packets may follow the end of the stream ----------

  predicate EndSubmitted(ps: seq<Submission>) {
    exists i :: 0 <= i < |ps| && ps[i].eos
  }

  /** A page holds its group; only when an end was submitted may it be flagged as the end. */
  ghost predicate HoldsGroup(page: Page, groups: seq<seq<Seg>>, k: nat, serialno: int, ended: bool)
    requires k < |groups|
  {
    && 0 < |groups[k]| <= MAX_SEGMENTS
    && (|| page == MakePage(GroupHead(groups, k, serialno, false), Join(groups[k]))
        || (ended && page == MakePage(GroupHead(groups, k, serialno, true), Join(groups[k]))))
  }

  /** What every run keeps, whichever packets end the stream. */
  ghost predicate AnyInvariant(serialno: int, ps: seq<Submission>, e: Encoded) {
    && Conserved(ps, e)
    && |e.pages| == |e.groups|
    && (forall k :: 0 <= k < |e.groups| ==> HoldsGroup(e.pages[k], e.groups, k, serialno, EndSubmitted(ps)))
    && HeaderAlone(e.groups)
    && e.stream.bos == (e.groups != []) && e.stream.eos == EndSubmitted(ps)
    && e.stream.serialno == serialno && e.stream.pageno == |e.groups|
    && e.stream.packetno == |ps| && e.stream.granulepos == LastGranule(ps)
  }

  lemma {:induction false} EndOfMore(ps: seq<Submission>, p: Submission)
    ensures EndSubmitted(ps + [p]) <==> EndSubmitted(ps) || p.eos
  {
    if EndSubmitted(ps) {
      var i :| 0 <= i < |ps| && ps[i].eos;
      assert (ps + [p])[i].eos;
    }
    assert (ps + [p])[|ps|] == p;
  }

  lemma {:induction false} AnySubmit(serialno: int, ps: seq<Submission>, e: Encoded, p: Submission)
    requires AnyInvariant(serialno, ps, e)
    ensures AnyInvariant(serialno, ps + [p], EncoderStep(e, Submit(p)))
  {
    hide Conserved, EndSubmitted, MakePage, Join;
    SubmitConserves(ps, e, p);
    EndOfMore(ps, p);
  }

  lemma {:induction false} GroupStays(page: Page, groups: seq<seq<Seg>>, group: seq<Seg>, k: nat, serialno: int,
      ended: bool)
    requires k < |groups| && HoldsGroup(page, groups, k, serialno, ended)
    ensures HoldsGroup(page, groups + [group], k, serialno, ended)
  {
    hide MakePage, Join;
    assert (groups + [group])[k] == groups[k];
  }

  lemma {:induction false} NewGroup(e: Encoded, cut: nat, serialno: int)
    requires 0 < cut <= |e.stream.segs| && cut <= MAX_SEGMENTS
    requires e.stream.bos == (e.groups != []) && e.stream.serialno == serialno && e.stream.pageno == |e.groups|
    ensures var s, group := e.stream, e.stream.segs[..cut];
      HoldsGroup(MakePage(PageHead(s, cut), Join(group)), e.groups + [group], |e.groups|, serialno, s.eos)
  {
    hide MakePage, Join;
    var s, group := e.stream, e.stream.segs[..cut];
    assert PageHead(s, cut) == GroupHead(e.groups + [group], |e.groups|, serialno, s.eos && cut == |s.segs|);
  }

  lemma {:induction false} AnyEmit(serialno: int, ps: seq<Submission>, e: Encoded, force: bool, nfill: int)
    requires AnyInvariant(serialno, ps, e)
    ensures AnyInvariant(serialno, ps, Emit(e, force, nfill))
  {
    hide Conserved, EndSubmitted, HoldsGroup, Join, MakePage, PageHead;
    if Writes(e.stream, force, nfill) {
      var s, cut := e.stream, PageCut(e.stream, nfill);
      var group, t := s.segs[..cut], Emit(e, force, nfill);
      EmitConserves(ps, e, force, nfill);
      NewGroup(e, cut, serialno);
      forall k | 0 <= k < |t.groups|
        ensures HoldsGroup(t.pages[k], t.groups, k, serialno, EndSubmitted(ps))
      {
        if k < |e.groups| {
          GroupStays(e.pages[k], e.groups, group, k, serialno, EndSubmitted(ps));
        }
      }
    }
  }

  /** Every run of submissions, pageouts and flushes keeps the invariant. */
  lemma {:induction false} EncoderRun(serialno: int, ops: seq<EncoderOp>)
    ensures AnyInvariant(serialno, Submissions(ops), Encode(serialno, ops))
  {
    if ops != [] {
      var before, op := ops[..|ops| - 1], ops[|ops| - 1];
      var ps, e := Submissions(before), Encode(serialno, before);
      EncoderRun(serialno, before);
      assert ps + [] == ps;
      match op
      case Submit(p) => AnySubmit(serialno, ps, e, p);
      case PageOut(nfill) => AnyEmit(serialno, ps, e, PageOutForces(e.stream), nfill);
      case Flush(nfill) => AnyEmit(serialno, ps, e, true, nfill);
    }
  }

  /** A flush always takes at least one segment, so flushing drains the encoder. */
  lemma {:induction false} FlushShrinks(s: Stream, nfill: int)
    requires s.segs != []
    ensures FlushPage(s, true, nfill).Some? && |Flushed(s, true, nfill).segs| < |s.segs|
  {
  }

  function Flushes(n: nat, nfill: int): seq<EncoderOp> {
    seq(n, _ => Flush(nfill))
  }

  lemma {:induction false} OneMore(serialno: int, ops: seq<EncoderOp>, op: EncoderOp)
    ensures Encode(serialno, ops + [op]) == EncoderStep(Encode(serialno, ops), op)
    ensures Submissions(ops + [op]) == Submissions(ops) + Submitted(op)
  {
    assert (ops + [op])[..|ops|] == ops;
  }

  lemma {:induction false} OneFlushMore(serialno: int, ops: seq<EncoderOp>, n: nat, nfill: int)
    requires n > 0
    ensures Encode(serialno, ops + Flushes(n, nfill))
         == EncoderStep(Encode(serialno, ops + Flushes(n - 1, nfill)), Flush(nfill))
    ensures Submissions(ops + Flushes(n, nfill)) == Submissions(ops + Flushes(n - 1, nfill))
  {
    var before := ops + Flushes(n - 1, nfill);
    assert ops + Flushes(n, nfill) == before + [Flush(nfill)];
    OneMore(serialno, before, Flush(nfill));
  }

  /** The segments that a run leaves in the encoder. */
  function SegmentsLeft(serialno: int, ops: seq<EncoderOp>): nat {
    |Encode(serialno, ops).stream.segs|
  }

  lemma {:induction false} FlushLeavesFewer(serialno: int, ops: seq<EncoderOp>, n: nat, nfill: int)
    requires n > 0
    ensures var left := SegmentsLeft(serialno, ops + Flushes(n - 1, nfill));
      SegmentsLeft(serialno, ops + Flushes(n, nfill)) <= if left == 0 then 0 else left - 1
  {
    OneFlushMore(serialno, ops, n, nfill);
    FlushTakesOne(Encode(serialno, ops + Flushes(n - 1, nfill)), nfill);
  }

  /** As many flushes as there are segments, or more, leave nothing in the encoder. */
  lemma {:induction false} FlushesDrain(serialno: int, ops: seq<EncoderOp>, n: nat, nfill: int)
    ensures var left := SegmentsLeft(serialno, ops);
      SegmentsLeft(serialno, ops + Flushes(n, nfill)) <= if left > n then left - n else 0
  {
    if n == 0 {
      assert ops + Flushes(n, nfill) == ops;
    } else {
      FlushesDrain(serialno, ops, n - 1, nfill);
      FlushLeavesFewer(serialno, ops, n, nfill);
    }
  }

  lemma {:induction false} FlushesSubmitNothing(ops: seq<EncoderOp>, n: nat, nfill: int)
    ensures Submissions(ops + Flushes(n, nfill)) == Submissions(ops)
  {
    if n == 0 {
      assert ops + Flushes(n, nfill) == ops;
    } else {
      OneFlushMore(0, ops, n, nfill);
      FlushesSubmitNothing(ops, n - 1, nfill);
    }
  }

  lemma {:induction false} FlushTakesOne(e: Encoded, nfill: int)
    ensures |EncoderStep(e, Flush(nfill)).stream.segs| <= if e.stream.segs == [] then 0 else |e.stream.segs| - 1
  {
    if e.stream.segs != [] {
      FlushShrinks(e.stream, nfill);
    }
  }
}
