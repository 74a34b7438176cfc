/** The bytes of the pages that an encoder writes, one by one: section 6 of RFC 3533. */
module OggFormat {
  import opened Bytes
  import opened OggSegments
  import opened OggPage
  import opened OggState
  import opened OggEncoder
  import opened OggPageOut
  import opened Sequences

  /** The k bytes at a place are those of a number, lowest first; a negative number is stored in two's complement. */
  predicate NumberAt(b: seq<byte>, at: nat, k: nat, n: int) {
    at + k <= |b| && forall i :: 0 <= i < k ==> b[at + i] == n / Pow256(i) % 256
  }

  lemma {:induction false} NumberStored(b: seq<byte>, at: nat, k: nat, n: int)
    requires at + k <= |b| && b[at..at + k] == ToLE(n, k)
    ensures NumberAt(b, at, k, n)
  {
    forall i | 0 <= i < k
      ensures b[at + i] == n / Pow256(i) % 256
    {
      ToLEByte(n, k, i);
      assert b[at + i] == b[at..at + k][i];
    }
  }

  lemma {:induction false} NumberIsStored(b: seq<byte>, at: nat, k: nat, n: int)
    requires NumberAt(b, at, k, n)
    ensures b[at..at + k] == ToLE(n, k)
  {
    forall i | 0 <= i < k
      ensures b[at..at + k][i] == ToLE(n, k)[i]
    {
      ToLEByte(n, k, i);
    }
  }

  /** Four bytes read as a signed number give the number that they hold. */
  lemma {:induction false} SignedReadIff(b: seq<byte>, at: nat, n: int)
    requires at + 4 <= |b| && -0x8000_0000 <= n < 0x8000_0000
    ensures Signed(FromLE(b[at..at + 4]), 4) == n <==> NumberAt(b, at, 4, n)
  {
    hide NumberAt, ToLE;
    Pow256Values();
    SignedLERoundTrip(n, 4);
    if NumberAt(b, at, 4, n) {
      NumberIsStored(b, at, 4, n);
    }
    if Signed(FromLE(b[at..at + 4]), 4) == n {
      FourBytesUnique(b[at..at + 4], ToLE(n, 4));
      NumberStored(b, at, 4, n);
    }
  }

  /**
   A page is taken exactly when its version byte is zero and the serial number in its header is the
   stream's; every other page is refused, and the stream stays as it is.
   */
  lemma {:induction false} AcceptsIff(s: Stream, page: Page)
    requires WellFormed(page) && s.packet <= |s.segs| && -0x8000_0000 <= s.serialno < 0x8000_0000
    ensures Accepts(s, page) <==> page.header[4] == 0 && NumberAt(page.header, 14, 4, s.serialno)
    ensures page.header[4] != 0 || !NumberAt(page.header, 14, 4, s.serialno) ==> PageIn(s, page) == s
  {
    SignedReadIff(page.header, 14, s.serialno);
  }

  /** Every byte of a header: pattern, version, flags, granule position, serial and page number, checksum, table. */
  lemma {:induction false} HeaderBytes(h: Head, body: seq<byte>)
    requires |h.table| <= 255
    ensures MakePage(h, body).body == body
    ensures var b := MakePage(h, body).header;
      && |b| == 27 + |h.table| && b[0..4] == [0x4f, 0x67, 0x67, 0x53] && b[4] == 0
      && b[5] == (if h.continued then 1 else 0) + (if h.bos then 2 else 0) + (if h.eos then 4 else 0)
      && NumberAt(b, 6, 8, h.granulepos) && NumberAt(b, 14, 4, h.serialno) && NumberAt(b, 18, 4, h.pageno)
      && CarriesCrc(b, body) && b[26] == |h.table| && b[27..] == h.table
  {
    hide Checksum, FromLE, Pow256, SetChecksum, ToLE, WriteHead;
    var blank := WriteHead(h, NO_CHECKSUM);
    var sum := Checksum(blank, body);
    SetChecksumOfWriteHead(h, NO_CHECKSUM, sum);
    WriteHeadFields(h, sum);
    SetIsOk(blank, body);
    var b := WriteHead(h, sum);
    OkIffCarries(Page(b, body));
    NumberStored(b, 6, 8, h.granulepos);
    NumberStored(b, 14, 4, h.serialno);
    NumberStored(b, 18, 4, h.pageno);
  }

  /** The granule position of a group: that of the last packet that ends in it, -1 when none does. */
  predicate GranuleOf(group: seq<Seg>, granule: int) {
    if forall i :: 0 <= i < |group| ==> |group[i].data| == 255 then granule == -1
    else exists i :: 0 <= i < |group| && EndsLast(group, i) && granule == group[i].granule
  }

  /** Segment i ends a packet, and no later one does. */
  predicate EndsLast(group: seq<Seg>, i: nat)
    requires i < |group|
  {
    |group[i].data| < 255 && forall j :: i < j < |group| ==> |group[j].data| == 255
  }

  lemma {:induction false} LastDoneIsGranule(group: seq<Seg>)
    ensures GranuleOf(group, LastDone(group))
  {
    var n := |group| - 1;
    if group != [] && |group[n].data| == 255 {
      var before := group[..n];
      LastDoneIsGranule(before);
      if forall i :: 0 <= i < n ==> |before[i].data| == 255 {
        assert forall i :: 0 <= i < |group| ==> |group[i].data| == 255;
      } else {
        var i :| 0 <= i < n && EndsLast(before, i) && LastDone(before) == before[i].granule;
        assert EndsLast(group, i);
      }
    } else if group != [] {
      assert EndsLast(group, n);
    }
  }

  /** The bytes of a page for a group of segments. */
  ghost predicate PageHolds(page: Page, group: seq<Seg>, k: nat, serialno: int, ended: bool) {
    && |page.header| == 27 + |group| && page.header[0..4] == [0x4f, 0x67, 0x67, 0x53] && page.header[4] == 0
    && page.header[5] < 8 && group != []
    && (page.header[5] % 2 == 1 <==> !group[0].first)
    && (page.header[5] / 2 % 2 == 1 <==> k == 0)
    && (page.header[5] / 4 == 1 ==> ended)
    && (exists granule :: NumberAt(page.header, 6, 8, granule)
                          && if k == 0 then granule == 0 else GranuleOf(group, granule))
    && NumberAt(page.header, 14, 4, serialno) && NumberAt(page.header, 18, 4, k)
    && CarriesCrc(page.header, page.body)
    && page.header[26] == |group| && (forall i :: 0 <= i < |group| ==> page.header[27 + i] == |group[i].data|)
    && page.body == Join(group)
  }

  lemma {:induction false} GroupPageHolds(groups: seq<seq<Seg>>, k: nat, serialno: int, eos: bool, ended: bool)
    requires k < |groups| && 0 < |groups[k]| <= 255 && (eos ==> ended)
    ensures PageHolds(MakePage(GroupHead(groups, k, serialno, eos), Join(groups[k])), groups[k], k, serialno, ended)
  {
    hide CarriesCrc, NumberAt, ChecksumBytes, GranuleOf, LastDone, MakePage;
    var head := GroupHead(groups, k, serialno, eos);
    HeaderBytes(head, Join(groups[k]));
    LastDoneIsGranule(groups[k]);
    var b := MakePage(head, Join(groups[k])).header;
    assert NumberAt(b, 6, 8, head.granulepos);
    assert b[5] == (if head.continued then 1 else 0) + (if head.bos then 2 else 0) + (if head.eos then 4 else 0);
    assert NumberAt(b, 18, 4, k);
    forall i | 0 <= i < |groups[k]|
      ensures b[27 + i] == |groups[k][i].data|
    {
      assert b[27..][i] == b[27 + i];
    }
  }

  /** Every byte of every page of every encoder run. */
  lemma {:induction false} RunPageBytes(serialno: int, ops: seq<EncoderOp>, k: nat)
    requires k < |Encode(serialno, ops).pages|
    ensures k < |Encode(serialno, ops).groups|
    ensures var e := Encode(serialno, ops);
      PageHolds(e.pages[k], e.groups[k], k, serialno, EndSubmitted(Submissions(ops)))
  {
    hide PageHolds, EndSubmitted, MakePage, GroupHead;
    var e, ended := Encode(serialno, ops), EndSubmitted(Submissions(ops));
    EncoderRun(serialno, ops);
    assert HoldsGroup(e.pages[k], e.groups, k, serialno, ended);
    GroupPageHolds(e.groups, k, serialno, false, ended);
    if ended {
      GroupPageHolds(e.groups, k, serialno, true, ended);
    }
  }

  // ---------- the end of the stream ----------

  predicate EndFlagged(page: Page) {
    |page.header| > 5 && page.header[5] / 4 % 2 == 1
  }

  lemma {:induction false} GroupEndFlag(groups: seq<seq<Seg>>, k: nat, serialno: int, eos: bool)
    requires k < |groups| && 0 < |groups[k]| <= 255
    ensures EndFlagged(MakePage(GroupHead(groups, k, serialno, eos), Join(groups[k]))) <==> eos
  {
    hide MakePage, CarriesCrc, NumberAt;
    HeaderBytes(GroupHead(groups, k, serialno, eos), Join(groups[k]));
  }

  /** The last packet was submitted and nothing is left: the last page is flagged as the end, and no other. */
  lemma {:induction false} EndFlagIsLast(serialno: int, ops: seq<EncoderOp>, k: nat)
    requires OnlyLastEnds(Submissions(ops)) && EndSubmitted(Submissions(ops)) && SegmentsLeft(serialno, ops) == 0
    requires k < |Encode(serialno, ops).pages|
    ensures EndFlagged(Encode(serialno, ops).pages[k]) <==> k == |Encode(serialno, ops).pages| - 1
  {
    var e := Encode(serialno, ops);
    EncoderRun(serialno, ops);
    EndingRun(serialno, ops);
    assert e.pages[k] == MakePage(GroupHead(e.groups, k, serialno, k == |e.groups| - 1), Join(e.groups[k]));
    GroupEndFlag(e.groups, k, serialno, k == |e.groups| - 1);
  }

  lemma {:induction false} SomePage(serialno: int, ops: seq<EncoderOp>)
    requires Submissions(ops) != [] && SegmentsLeft(serialno, ops) == 0
    ensures Encode(serialno, ops).pages != []
  {
    var ps, e := Submissions(ops), Encode(serialno, ops);
    EncoderRun(serialno, ops);
    var last := ps[|ps| - 1];
    assert |Lace(last.data, last.granulepos, LastGranule(ps[..|ps| - 1]), true)| >= 1;
    assert Flatten(e.groups) + [] == Flatten(e.groups);
  }

  /**
   Once the packet that ends the stream was submitted, pageouts alone write everything: as many as segments wait leave
   nothing, and the last page, and no other, is flagged as the end.
   */
  lemma {:induction false} EndIsPagedOut(serialno: int, ops: seq<EncoderOp>, n: nat, nfill: int)
    requires OnlyLastEnds(Submissions(ops)) && EndSubmitted(Submissions(ops)) && n >= SegmentsLeft(serialno, ops)
    ensures var e := Encode(serialno, ops + PageOuts(n, nfill));
      && e.stream.segs == [] && e.pages != []
      && forall k :: 0 <= k < |e.pages| ==> (EndFlagged(e.pages[k]) <==> k == |e.pages| - 1)
  {
    var all := ops + PageOuts(n, nfill);
    PageOutsDrain(serialno, ops, n, nfill);
    PageOutsSubmitNothing(ops, n, nfill);
    SomePage(serialno, all);
    forall k | 0 <= k < |Encode(serialno, all).pages|
      ensures EndFlagged(Encode(serialno, all).pages[k]) <==> k == |Encode(serialno, all).pages| - 1
    {
      EndFlagIsLast(serialno, all, k);
    }
  }
}
