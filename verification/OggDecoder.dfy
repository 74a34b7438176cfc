/** What every call keeps in a decoding stream state, and what it does to the pending events. */
module OggDecoder {
  import opened OggSegments
  import opened OggPage
  import opened OggState

  lemma {:induction false} ResyncKeeps(s: Stream)
    requires Decoding(s)
    ensures Decoding(Resync(s)) && Resync(s).packet == |Resync(s).segs|
  {
    var r := Resync(s);
    var kept := s.segs[..s.packet];
    assert HolesApart(kept);
    if s.pageno != -1 {
      assert r.segs[..r.packet] == kept + [HOLE];
      forall i | 0 <= i < |r.segs| && r.segs[i].hole
        ensures r.segs[i].data == [] && (i == 0 || r.segs[i - 1].Ends())
      {
        if i < s.packet {
          assert kept[i].hole;
        }
      }
    } else {
      assert r.segs[..r.packet] == kept;
    }
  }

  lemma {:induction false} LastEndSplits(chunks: seq<Chunk>)
    ensures var k := LastEnd(chunks);
      && (k >= 0 ==> |chunks[k]| < 255)
      && (forall i :: k < i < |chunks| ==> |chunks[i]| == 255)
  {
    if chunks != [] {
      LastEndSplits(chunks[..|chunks| - 1]);
    }
  }

  lemma {:induction false} AppendKeeps(s: Stream, chunks: seq<Chunk>, bos: bool, granulepos: int)
    requires Decoding(s)
    ensures Decoding(Append(s, chunks, bos, granulepos))
  {
    LastEndSplits(chunks);
    var r, k := Append(s, chunks, bos, granulepos), LastEnd(chunks);
    if k == -1 {
      assert r.segs[..r.packet] == s.segs[..s.packet];
    } else {
      assert r.segs[..r.packet][r.packet - 1] == Entries(chunks, bos, granulepos)[k];
    }
  }

  lemma {:induction false} EndedKeeps(s: Stream, head: Head)
    requires Decoding(s)
    ensures Decoding(Ended(s, head))
  {
    var r := Ended(s, head);
    assert forall i :: 0 <= i < |s.segs| ==> r.segs[i].data == s.segs[i].data && r.segs[i].hole == s.segs[i].hole;
    if s.packet > 0 {
      assert r.segs[..s.packet][s.packet - 1] == r.segs[s.packet - 1];
      assert s.segs[..s.packet][s.packet - 1] == s.segs[s.packet - 1];
    }
  }

  lemma {:induction false} PlacedKeeps(s: Stream, head: Head, chunks: seq<Chunk>)
    requires Decoding(s)
    ensures Decoding(Placed(s, head, chunks))
  {
    AppendKeeps(s, chunks, head.bos, head.granulepos);
    AppendKeeps(s, chunks[SkipLength(chunks)..], false, head.granulepos);
  }

  lemma {:induction false} TakePageKeeps(s: Stream, head: Head, chunks: seq<Chunk>)
    requires Decoding(s)
    ensures Decoding(TakePage(s, head, chunks))
  {
    ResyncKeeps(s);
    var s1 := InSequence(s, head);
    PlacedKeeps(s1, head, chunks);
    EndedKeeps(Placed(s1, head, chunks), head);
  }

  /** Any well-formed page leaves whole packets and holes first, then only full segments. */
  lemma {:induction false} PageInKeeps(s: Stream, page: Page)
    requires Decoding(s) && WellFormed(page)
    ensures Decoding(PageIn(s, page))
  {
    if Accepts(s, page) {
      var head := ReadHead(page.header);
      TakePageKeeps(s, head, Cut(head.table, page.body));
    }
  }

  lemma {:induction false} HeadWithinPackets(s: Stream)
    requires Decoding(s) && s.packet > 0
    ensures FirstLength(s.segs) == FirstLength(s.segs[..s.packet]) <= s.packet
    ensures FirstEvent(s.segs) == FirstEvent(s.segs[..s.packet])
    ensures s.segs[FirstLength(s.segs) - 1].Ends()
  {
    var whole, partial := s.segs[..s.packet], s.segs[s.packet..];
    assert s.segs == whole + partial;
    FirstConcat(whole, partial);
    RunEnds(whole);
  }

  lemma {:induction false} PopKeeps(s: Stream)
    requires Decoding(s) && s.packet > 0
    ensures Decoding(Popped(s))
  {
    hide FirstEvent, FirstLength, RunPacket;
    HeadWithinPackets(s);
    var n, r := FirstLength(s.segs), Popped(s);
    assert forall i :: 0 <= i < |r.segs| ==> r.segs[i] == s.segs[i + n];
    if r.packet > 0 {
      assert r.segs[..r.packet][r.packet - 1] == s.segs[..s.packet][s.packet - 1];
    }
  }

  /** The head event is the head of the pending events, and taking it leaves the others. */
  lemma {:induction false} PopEvent(s: Stream)
    requires Decoding(s) && s.packet > 0
    ensures FirstLength(s.segs) <= s.packet && Decoding(Popped(s))
    ensures Pending(s) == [FirstEvent(s.segs)] + Pending(Popped(s))
    ensures (FirstEvent(s.segs) == Missing) == s.segs[0].hole
  {
    HeadWithinPackets(s);
    PopKeeps(s);
    var whole, n, r := s.segs[..s.packet], FirstLength(s.segs), Popped(s);
    EventsUnfold(whole, FirstEvent(s.segs), whole[n..]);
    assert r.segs[..r.packet] == whole[n..];
  }

  /** Nothing is ready exactly when no event is pending. */
  lemma {:induction false} NoEvent(s: Stream)
    requires Decoding(s)
    ensures (s.packet == 0) == (Pending(s) == [])
  {
    if s.packet > 0 {
      PopEvent(s);
    }
  }

  // ---------- the answers of a call ----------

  /** The answer says what is ready: nothing, a gap, or a packet. */
  lemma {:induction false} AnswerIs(s: Stream)
    requires Decoding(s)
    ensures PacketCode(s) == if Pending(s) == [] then 0 else if Pending(s)[0] == Missing then -1 else 1
    ensures s.packet > 0 ==> HeadPacket(s) == OggPacket(Pending(s)[0], s.packetno)
    ensures s.packet > 0 ==> Pending(Popped(s)) == Pending(s)[1..]
    ensures s.packet > 0 ==> Popped(s).packetno == s.packetno + 1
  {
    hide FirstEvent, FirstLength;
    NoEvent(s);
    if s.packet > 0 {
      PopEvent(s);
    }
  }

  // ---------- what a page adds ----------

  /** The number of segments of a page that are left out: those of a packet of which the start is missing. */
  predicate LeftOut(s: Stream, head: Head, chunks: seq<Chunk>, n: nat) {
    && n <= |chunks|
    && if head.continued && (s.segs == [] || IsHole(s.segs[|s.segs| - 1])) then
         && (forall i :: 0 <= i < n - 1 ==> |chunks[i]| == 255)
         && (n == |chunks| || (n > 0 && |chunks[n - 1]| < 255))
       else n == 0
  }

  lemma {:induction false} SkipLeavesOut(chunks: seq<Chunk>)
    ensures var n := SkipLength(chunks);
      && (forall i :: 0 <= i < n - 1 ==> |chunks[i]| == 255)
      && (n == |chunks| || (n > 0 && |chunks[n - 1]| < 255))
  {
    if chunks != [] && |chunks[0]| == 255 {
      SkipLeavesOut(chunks[1..]);
      var n := SkipLength(chunks);
      assert forall i :: 1 <= i < n ==> chunks[i] == chunks[1..][i - 1];
    }
  }

  lemma {:induction false} AppendAdds(s: Stream, chunks: seq<Chunk>, bos: bool, granulepos: int)
    ensures var r := Append(s, chunks, bos, granulepos);
      && |r.segs| == |s.segs| + |chunks| && r.eos == s.eos
      && (forall i :: 0 <= i < |s.segs| ==> r.segs[i] == s.segs[i])
      && (forall i :: |s.segs| <= i < |r.segs| ==> r.segs[i].data == chunks[i - |s.segs|])
  {
  }

  lemma {:induction false} EndedAdds(s: Stream, head: Head)
    ensures var r := Ended(s, head);
      && |r.segs| == |s.segs| && r.pageno == head.pageno + 1 && r.eos == (s.eos || head.eos)
      && (head.eos && s.segs != [] ==> r.segs[|s.segs| - 1].last)
      && forall i :: 0 <= i < |s.segs| ==> r.segs[i].data == s.segs[i].data
  {
  }

  /** The page stands on what was there: its segments follow, in order, but for those left out. */
  lemma {:induction false} PageAdds(s: Stream, head: Head, chunks: seq<Chunk>) returns (n: nat)
    requires s.packet <= |s.segs| && head.pageno == s.pageno
    ensures LeftOut(s, head, chunks, n)
    ensures var r := TakePage(s, head, chunks);
      && |r.segs| == |s.segs| + |chunks| - n
      && r.pageno == head.pageno + 1 && r.eos == (s.eos || head.eos)
      && (head.eos && r.segs != [] ==> r.segs[|r.segs| - 1].last)
      && (forall i :: 0 <= i < |s.segs| ==> r.segs[i].data == s.segs[i].data)
      && (forall i :: |s.segs| <= i < |r.segs| ==> r.segs[i].data == chunks[i - |s.segs| + n])
  {
    hide Append, Ended;
    SkipLeavesOut(chunks);
    n := if head.continued && Orphaned(s) then SkipLength(chunks) else 0;
    var bos := if n > 0 || (head.continued && Orphaned(s)) then false else head.bos;
    AppendAdds(s, chunks[n..], bos, head.granulepos);
    assert chunks[0..] == chunks;
    EndedAdds(Append(s, chunks[n..], bos, head.granulepos), head);
  }
}
