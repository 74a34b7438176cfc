/** When the encoder writes a page, and how much goes on it, in terms of the segments that wait. */
module OggPageOut {
  import opened OggSegments
  import opened OggPage
  import opened OggState
  import opened OggEncoder

  // ---------- how much goes on a page ----------

  /** The segments that end a packet, among the first i. */
  function Enders(segs: seq<Seg>, i: nat): set<nat>
    requires i <= |segs|
  {
    set j: nat | j < i && |segs[j].data| < 255
  }

  /** The first i segments hold more than nfill bytes, end a packet, and end at least four of them. */
  predicate OverFull(segs: seq<Seg>, i: nat, nfill: int) {
    && 0 < i <= |segs| && |segs[i - 1].data| < 255
    && |Join(segs[..i])| > nfill && |Enders(segs, i)| >= 4
  }

  lemma {:induction false} DoneIsEnders(segs: seq<Seg>, i: nat)
    requires i <= |segs|
    ensures PacketsDone(segs[..i]) == |Enders(segs, i)|
  {
    if i > 0 {
      DoneIsEnders(segs, i - 1);
      assert segs[..i][..i - 1] == segs[..i - 1];
      var before := Enders(segs, i - 1);
      assert Enders(segs, i) == before + if |segs[i - 1].data| < 255 then {i - 1} else {};
      assert i - 1 !in before;
    } else {
      assert Enders(segs, 0) == {};
    }
  }

  lemma {:induction false} NominalIsOverFull(segs: seq<Seg>, i: nat, nfill: int)
    requires i <= |segs|
    ensures Nominal(segs, i, nfill) <==> OverFull(segs, i, nfill)
  {
    DoneIsEnders(segs, i);
    JoinLength(segs[..i]);
  }

  /**
   What a page takes of the segments that wait: the first page the first packet, as far as 255 segments go; a later
   one as little as is over full, or all that wait, or 255.
   */
  predicate PageTakes(segs: seq<Seg>, c: nat, first: bool, nfill: int) {
    && 0 < c <= |segs| && c <= 255
    && if first then
         && (forall j :: 0 <= j < c - 1 ==> |segs[j].data| == 255)
         && (|segs[c - 1].data| < 255 || c == 255 || c == |segs|)
       else
         && (forall i :: 0 <= i < c ==> !OverFull(segs, i, nfill))
         && (OverFull(segs, c, nfill) || c == 255 || c == |segs|)
  }

  lemma {:induction false} CutTakes(s: Stream, nfill: int)
    requires s.segs != []
    ensures PageTakes(s.segs, PageCut(s, nfill), !s.bos, nfill)
  {
    var c := PageCut(s, nfill);
    if s.bos {
      forall i | 0 <= i <= c
        ensures Nominal(s.segs, i, nfill) <==> OverFull(s.segs, i, nfill)
      {
        NominalIsOverFull(s.segs, i, nfill);
      }
    }
  }

  // ---------- when a page is written ----------

  /** A call writes a page. */
  predicate WritesPage(e: Encoded, op: EncoderOp) {
    |EncoderStep(e, op).pages| == |e.pages| + 1
  }

  /** A pageout or a flush writes one page or none; what a page holds leaves the front of what waits. */
  lemma {:induction false} OnePageOrNone(serialno: int, ps: seq<Submission>, e: Encoded, op: EncoderOp, nfill: int)
    requires AnyInvariant(serialno, ps, e) && (op == PageOut(nfill) || op == Flush(nfill))
    ensures var t := EncoderStep(e, op);
      if WritesPage(e, op) then
        && |t.groups| == |e.groups| + 1 && t.groups[..|e.groups|] == e.groups
        && t.pages[..|e.pages|] == e.pages
        && e.stream.segs == t.groups[|e.groups|] + t.stream.segs
        && PageTakes(e.stream.segs, |t.groups[|e.groups|]|, e.groups == [], nfill)
      else t == e
  {
    hide PageTakes, MakePage, Join, PageHead, HoldsGroup, Conserved, MaxSegments, NominalCut, HeaderCut;
    hide EndSubmitted, HeaderAlone;
    if e.stream.segs != [] {
      CutTakes(e.stream, nfill);
    }
  }

  /** A flush writes a page whenever anything waits. */
  lemma {:induction false} FlushWrites(serialno: int, ps: seq<Submission>, e: Encoded, nfill: int)
    requires AnyInvariant(serialno, ps, e)
    ensures WritesPage(e, Flush(nfill)) <==> e.stream.segs != []
  {
  }

  /** A pageout writes the first page as soon as anything waits. */
  lemma {:induction false} FirstPageOutWrites(serialno: int, ps: seq<Submission>, e: Encoded, nfill: int)
    requires AnyInvariant(serialno, ps, e) && e.pages == []
    ensures WritesPage(e, PageOut(nfill)) <==> e.stream.segs != []
  {
  }

  /** After the end was submitted, a pageout writes a page whenever anything waits. */
  lemma {:induction false} LastPageOutWrites(serialno: int, ps: seq<Submission>, e: Encoded, nfill: int)
    requires AnyInvariant(serialno, ps, e) && EndSubmitted(ps)
    ensures WritesPage(e, PageOut(nfill)) <==> e.stream.segs != []
  {
  }

  /** In between, a pageout writes a page when 255 segments wait, or fewer are over full and more follow them. */
  lemma {:induction false} PageOutWrites(serialno: int, ps: seq<Submission>, e: Encoded, nfill: int)
    requires AnyInvariant(serialno, ps, e) && !EndSubmitted(ps) && e.pages != []
    ensures WritesPage(e, PageOut(nfill))
       <==> |e.stream.segs| >= 255 || exists i :: 0 <= i < |e.stream.segs| && OverFull(e.stream.segs, i, nfill)
  {
    var segs, c := e.stream.segs, PageCut(e.stream, nfill);
    forall i | 0 <= i <= |segs|
      ensures Nominal(segs, i, nfill) <==> OverFull(segs, i, nfill)
    {
      NominalIsOverFull(segs, i, nfill);
    }
    if c < |segs| && c < 255 {
      assert OverFull(segs, c, nfill);
    }
  }

  // ---------- paging out the rest ----------

  function PageOuts(n: nat, nfill: int): seq<EncoderOp> {
    seq(n, _ => PageOut(nfill))
  }

  lemma {:induction false} OnePageOutMore(serialno: int, ops: seq<EncoderOp>, n: nat, nfill: int)
    requires n > 0
    ensures var before := ops + PageOuts(n - 1, nfill);
      && Encode(serialno, ops + PageOuts(n, nfill)) == EncoderStep(Encode(serialno, before), PageOut(nfill))
      && Submissions(ops + PageOuts(n, nfill)) == Submissions(before)
  {
    var before := ops + PageOuts(n - 1, nfill);
    assert ops + PageOuts(n, nfill) == before + [PageOut(nfill)];
    OneMore(serialno, before, PageOut(nfill));
    assert Submissions(before) + [] == Submissions(before);
  }

  lemma {:induction false} PageOutsSubmitNothing(ops: seq<EncoderOp>, n: nat, nfill: int)
    ensures Submissions(ops + PageOuts(n, nfill)) == Submissions(ops)
  {
    if n == 0 {
      assert ops + PageOuts(n, nfill) == ops;
    } else {
      OnePageOutMore(0, ops, n, nfill);
      PageOutsSubmitNothing(ops, n - 1, nfill);
    }
  }

  /** After the end was submitted, as many pageouts as segments wait, or more, leave none. */
  lemma {:induction false} PageOutsDrain(serialno: int, ops: seq<EncoderOp>, n: nat, nfill: int)
    requires EndSubmitted(Submissions(ops))
    ensures var left := SegmentsLeft(serialno, ops);
      SegmentsLeft(serialno, ops + PageOuts(n, nfill)) <= if left > n then left - n else 0
  {
    hide EndSubmitted, AnyInvariant, WritesPage, PageTakes;
    if n == 0 {
      assert ops + PageOuts(n, nfill) == ops;
    } else {
      PageOutsDrain(serialno, ops, n - 1, nfill);
      var before := ops + PageOuts(n - 1, nfill);
      var ps, e := Submissions(before), Encode(serialno, before);
      PageOutsSubmitNothing(ops, n - 1, nfill);
      OnePageOutMore(serialno, ops, n, nfill);
      EncoderRun(serialno, before);
      LastPageOutWrites(serialno, ps, e, nfill);
      OnePageOrNone(serialno, ps, e, PageOut(nfill), nfill);
    }
  }

  /** A pageout that writes nothing after the end was submitted has nothing left to write. */
  lemma {:induction false} NoPageNothingLeft(serialno: int, ops: seq<EncoderOp>, nfill: int)
    requires EndSubmitted(Submissions(ops))
    requires Encode(serialno, ops + [PageOut(nfill)]).pages == Encode(serialno, ops).pages
    ensures SegmentsLeft(serialno, ops) == 0
  {
    OneMore(serialno, ops, PageOut(nfill));
    EncoderRun(serialno, ops);
    LastPageOutWrites(serialno, Submissions(ops), Encode(serialno, ops), nfill);
  }
}
