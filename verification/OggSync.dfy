/** The sync state: a buffer that bytes are added to and pages are taken from. */
module OggSync {
  import opened Options
  import opened Bytes
  import opened Buffers
  import opened Sequences
  import opened OggCrc
  import opened OggPage
  import opened OggState
  import opened OggParse

  /** A buffer with the bytes from lo up to hi replaced. */
  function Replaced(buffer: seq<byte>, lo: nat, hi: nat, bytes: seq<byte>): (r: seq<byte>)
    requires lo <= hi <= |buffer| && |bytes| == hi - lo
    ensures |r| == |buffer| && r[lo..hi] == bytes
  {
    buffer[..lo] + bytes + buffer[hi..]
  }

  lemma {:induction false} ReplacedTwice(buffer: seq<byte>, lo: nat, hi: nat, a: seq<byte>, b: seq<byte>)
    requires lo <= hi <= |buffer| && |a| == |b| == hi - lo
    ensures Replaced(Replaced(buffer, lo, hi, a), lo, hi, b) == Replaced(buffer, lo, hi, b)
  {
  }

  lemma {:induction false} ReplacedSame(buffer: seq<byte>, lo: nat, hi: nat)
    requires lo <= hi <= |buffer|
    ensures Replaced(buffer, lo, hi, buffer[lo..hi]) == buffer
  {
  }

  lemma {:induction false} SliceOfSlice(buffer: seq<byte>, lo: nat, hi: nat, i: nat, j: nat)
    requires lo <= hi <= |buffer| && i <= j <= hi - lo
    ensures buffer[lo..hi][i..j] == buffer[lo + i..lo + j]
  {
    var a, b := buffer[lo..hi][i..j], buffer[lo + i..lo + j];
    assert forall k :: 0 <= k < j - i ==> a[k] == b[k];
  }

  /** Bytes put in the checksum field of a page in the buffer. */
  lemma {:induction false} SpliceChecksum(buffer: seq<byte>, lo: nat, hi: nat, sum: seq<byte>)
    requires lo + FIXED <= hi <= |buffer| && |sum| == 4
    ensures buffer[..lo + 22] + sum + buffer[lo + 26..] == Replaced(buffer, lo, hi, SetChecksum(buffer[lo..hi], sum))
  {
    var s := buffer[lo..hi];
    var a, b := buffer[..lo + 22] + sum + buffer[lo + 26..], Replaced(buffer, lo, hi, SetChecksum(s, sum));
    forall i | 0 <= i < |buffer|
      ensures a[i] == b[i]
    {
      if lo <= i < hi {
        assert b[i] == SetChecksum(s, sum)[i - lo];
        assert s[i - lo] == buffer[i];
      }
    }
  }

  lemma {:induction false} PrefixKeepsSum(s: seq<byte>, h: nat)
    requires FIXED <= h <= |s|
    ensures s[..h][22..26] == s[22..26]
  {
  }

  /** Putting the stored checksum back gives the bytes as they were. */
  lemma {:induction false} SetChecksumBack(s: seq<byte>, sum: seq<byte>)
    requires |s| >= FIXED && |sum| == 4
    ensures SetChecksum(SetChecksum(s, sum), s[22..26]) == s && SetChecksum(s, s[22..26]) == s
  {
  }

  /** The checksum field is in the header, wherever the header and the body end. */
  lemma {:induction false} ChecksumInHeader(s: seq<byte>, sum: seq<byte>, h: nat, e: nat)
    requires FIXED <= h <= e <= |s| && |sum| == 4
    ensures SetChecksum(s, sum)[0..h] == SetChecksum(s[..h], sum)
    ensures SetChecksum(s, sum)[h..e] == s[h..e]
  {
    forall i | 0 <= i < h
      ensures SetChecksum(s, sum)[0..h][i] == SetChecksum(s[..h], sum)[i]
    {
    }
    forall i | 0 <= i < e - h
      ensures SetChecksum(s, sum)[h..e][i] == s[h..e][i]
    {
    }
  }

  /** What a longer stretch of bytes starts with. */
  lemma {:induction false} GrownStarts(s: seq<byte>, more: seq<byte>, h: nat)
    requires |s| >= FIXED && h == HeaderLength(s) <= |s|
    ensures (s + more)[..4] == s[..4]
    ensures HeaderLength(s + more) == HeaderLength(s) && BodyLength(s + more) == BodyLength(s)
  {
    assert (s + more)[FIXED..h] == s[FIXED..h];
  }

  class SyncState {
    var data: seq<byte>
    var fill: nat
    var returned: nat
    var unsynced: bool
    var headerBytes: nat
    var bodyBytes: nat

    /** The lengths of the page that is being waited for are kept once its header is whole. */
    ghost predicate Valid()
      reads this
    {
      && returned <= fill <= |data|
      && (headerBytes == 0 ==> bodyBytes == 0)
      && (headerBytes != 0 ==>
            var s := Unreturned();
            && |s| >= FIXED && s[..4] == CAPTURE && headerBytes == HeaderLength(s) <= |s| && bodyBytes == BodyLength(s))
    }

    /** The bytes in the buffer that were not returned or skipped. */
    ghost function Unreturned(): seq<byte>
      requires returned <= fill <= |data|
      reads this
    {
      data[returned..fill]
    }

    constructor ()
      ensures Valid() && Unreturned() == [] && !unsynced
    {
      data := [];
      fill, returned, unsynced, headerBytes, bodyBytes := 0, 0, false, 0, 0;
    }

    /** ogg_sync_buffer: drop what was returned and expose room for `size` more bytes at `fill`. */
    method Buffer(size: nat)
      requires Valid()
      modifies this`data, this`fill, this`returned
      ensures Valid() && Unreturned() == old(Unreturned()) && returned == 0 && fill + size <= |data|
    {
      hide BodyLength, HeaderLength, MoveDown;
      ghost var s := Unreturned();
      if returned != 0 {
        data := MoveDown(data, returned, fill - returned);
        fill := fill - returned;
        returned := 0;
      }
      assert data[..fill] == s;
      if size > |data| - fill {
        data := Grow(data, size + fill + 4096);
      }
      assert Unreturned() == s;
    }

    /** The application copies bytes into the exposed room. */
    method Expose(bytes: seq<byte>)
      requires Valid() && fill + |bytes| <= |data|
      modifies this`data
      ensures Valid() && Unreturned() == old(Unreturned()) && |data| == old(|data|)
      ensures data[fill..fill + |bytes|] == bytes
    {
      ghost var s := Unreturned();
      data := CopyIn(data, fill, bytes);
      assert data[..fill] == old(data[..fill]);
      assert Unreturned() == s;
      assert data[..fill + |bytes|][fill..] == bytes;
    }

    /** ogg_sync_wrote: count n more bytes, when there is room for them. */
    method Wrote(n: nat) returns (r: int)
      requires Valid()
      modifies this`fill
      ensures r == if old(fill) + n > |data| then -1 else 0
      ensures r == -1 ==> fill == old(fill)
      ensures r == 0 ==> fill == old(fill) + n && Unreturned() == old(Unreturned()) + data[old(fill)..old(fill) + n]
      ensures Valid()
    {
      hide BodyLength, HeaderLength, Sum;
      if fill + n > |data| {
        return -1;
      }
      ghost var s := Unreturned();
      SliceCut(data, returned, fill + n, fill - returned);
      fill := fill + n;
      assert Unreturned() == s + data[fill - n..fill];
      if headerBytes != 0 {
        GrownStarts(s, data[fill - n..fill], headerBytes);
      }
      return 0;
    }

    /** Bytes arrive: buffer, copy, wrote. */
    method Receive(bytes: seq<byte>)
      requires Valid()
      modifies this
      ensures Valid() && Unreturned() == old(Unreturned()) + bytes && unsynced == old(unsynced)
    {
      Buffer(|bytes|);
      Expose(bytes);
      var r := Wrote(|bytes|);
    }

    /** The total of the segment table of the page at `returned`. */
    method CountBody(header: nat) returns (bytes: nat)
      requires FIXED <= header && returned + header <= |data|
      ensures bytes == Sum(data[returned + FIXED..returned + header])
    {
      bytes := 0;
      ghost var table := data[returned + FIXED..returned + header];
      for i := 0 to header - FIXED
        invariant bytes == Sum(table[..i])
      {
        assert table[..i + 1] == table[..i] + [table[i]];
        SumConcat(table[..i], [table[i]]);
        assert Sum([table[i]]) == table[i] + Sum([table[i]][1..]);
        bytes := bytes + data[returned + FIXED + i];
      }
      assert table[..header - FIXED] == table;
    }

    /** Looks at the header of the page, when its length is not known yet. `fail` means no page starts here. */
    method ReadHeader() returns (wait: bool, fail: bool)
      requires Valid() && headerBytes == 0
      modifies this`headerBytes, this`bodyBytes
      ensures Valid() && !(wait && fail)
      ensures var s := Unreturned();
        && (wait ==> !Fails(s) && !Holds(s))
        && (fail ==> Fails(s))
        && (!wait && !fail ==> headerBytes != 0)
    {
      var bytes := fill - returned;
      if bytes < FIXED {
        return true, false;
      }
      SliceOfSlice(data, returned, fill, 0, 4);
      if data[returned..returned + 4] != CAPTURE {
        return false, true;
      }
      var length := data[returned + 26] + FIXED;
      if bytes < length {
        return true, false;
      }
      SliceOfSlice(data, returned, fill, FIXED, length);
      bodyBytes := CountBody(length);
      headerBytes := length;
      return false, false;
    }

    /** Puts some bytes in the checksum field of the page at `returned`. */
    method PutChecksum(sum: seq<byte>)
      requires returned + FIXED <= fill <= |data| && |sum| == 4
      modifies this`data
      ensures |data| == old(|data|) && data == Replaced(old(data), returned, fill, SetChecksum(old(Unreturned()), sum))
      ensures Unreturned() == SetChecksum(old(Unreturned()), sum)
    {
      SpliceChecksum(data, returned, fill, sum);
      data := data[..returned + 22] + sum + data[returned + 26..];
    }

    /** The checksum of the page, computed in place: the field is zeroed and then holds the result. */
    method ComputeChecksum()
      requires Valid() && headerBytes != 0 && headerBytes + bodyBytes <= fill - returned
      modifies this`data
      ensures |data| == old(|data|)
      ensures var s, page := old(Unreturned()), old(Candidate(Unreturned()));
        var summed := SetChecksum(s, Checksum(page.header, page.body));
        data == Replaced(old(data), returned, fill, summed) && Unreturned() == summed
    {
      hide BodyLength, Replaced, SerialCrc, SetChecksum;
      ghost var s, page := Unreturned(), Candidate(Unreturned());
      PutChecksum(NO_CHECKSUM);
      var header, body := data[returned..returned + headerBytes],
        data[returned + headerBytes..returned + headerBytes + bodyBytes];
      SliceOfSlice(data, returned, fill, 0, headerBytes);
      SliceOfSlice(data, returned, fill, headerBytes, headerBytes + bodyBytes);
      ChecksumInHeader(s, NO_CHECKSUM, headerBytes, headerBytes + bodyBytes);
      assert header == SetChecksum(page.header, NO_CHECKSUM) && body == page.body;
      var crc := TableCrc(0, header);
      crc := TableCrc(crc, body);
      SerialCrcConcat(0, header, body);
      PutChecksum(ChecksumBytes(crc));
      SetChecksumTwice(s, NO_CHECKSUM, ChecksumBytes(crc));
      ReplacedTwice(old(data), returned, fill, SetChecksum(s, NO_CHECKSUM), Unreturned());
    }

    /** Checks the page at `returned` against its checksum; the buffer is as before in either case. */
    method Verify() returns (ok: bool)
      requires Valid() && headerBytes != 0 && headerBytes + bodyBytes <= fill - returned
      modifies this`data
      ensures data == old(data) && ok == ChecksumOk(Candidate(Unreturned()))
      ensures ok <==> CarriesCrc(Candidate(Unreturned()).header, Candidate(Unreturned()).body)
    {
      hide CarriesCrc, Crc, HeaderLength, Replaced;
      OkIffCarries(Candidate(Unreturned()));
      ghost var s, sum := Unreturned(), Checksum(Candidate(Unreturned()).header, Candidate(Unreturned()).body);
      var stored := data[returned + 22..returned + 26];
      SliceOfSlice(data, returned, fill, 22, 26);
      PrefixKeepsSum(s, HeaderLength(s));
      ComputeChecksum();
      SliceOfSlice(data, returned, fill, 22, 26);
      assert Unreturned()[22..26] == sum;
      ok := data[returned + 22..returned + 26] == stored;
      SetChecksumBack(s, sum);
      if !ok {
        ReplacedTwice(old(data), returned, fill, Unreturned(), s);
        PutChecksum(stored);
      }
      ReplacedSame(old(data), returned, fill);
    }

    /** No page starts here: move on to the next place that may start one. */
    method LoseSync() returns (r: int)
      requires Valid() && returned < fill
      modifies this`headerBytes, this`bodyBytes, this`returned
      ensures Valid() && r == 0 - NextCapture(old(Unreturned()))
      ensures Unreturned() == old(Unreturned())[NextCapture(old(Unreturned()))..]
    {
      headerBytes, bodyBytes := 0, 0;
      var next := returned + 1;
      ghost var s := Unreturned();
      while next < fill && data[next] != CAPTURE_START
        invariant returned < next <= fill
        invariant forall i :: 1 <= i < next - returned ==> s[i] != CAPTURE_START
      {
        next := next + 1;
      }
      assert next < fill ==> s[next - returned] == CAPTURE_START;
      r := returned - next;
      returned := next;
    }

    /** The page at `returned`, which is whole and sound, is returned. */
    method TakePage() returns (r: int, page: Page)
      requires Valid() && headerBytes != 0 && headerBytes + bodyBytes <= fill - returned
      modifies this`headerBytes, this`bodyBytes, this`returned, this`unsynced
      ensures Valid() && !unsynced && page == Candidate(old(Unreturned())) && r == Extent(page) > 0
      ensures Unreturned() == old(Unreturned())[Extent(page)..]
    {
      hide BodyLength, HeaderLength, WellFormed;
      page := Page(
        data[returned..returned + headerBytes],
        data[returned + headerBytes..returned + headerBytes + bodyBytes]);
      SliceOfSlice(data, returned, fill, 0, headerBytes);
      SliceOfSlice(data, returned, fill, headerBytes, headerBytes + bodyBytes);
      assert page == Candidate(Unreturned());
      assert Unreturned()[headerBytes + bodyBytes..] == data[returned + headerBytes + bodyBytes..fill];
      unsynced := false;
      r := headerBytes + bodyBytes;
      returned := returned + r;
      headerBytes, bodyBytes := 0, 0;
    }

    /**
     ogg_sync_pageseek: one look at the head of the buffer. It leaves every byte of the buffer as it
     was, whether a page is found, is not whole yet, or turns out not to start there.
     */
    method PageSeek() returns (r: int, page: Option<Page>)
      requires Valid()
      modifies this
      ensures Valid() && data == old(data) && fill == old(fill)
      ensures var scan := Seek(old(Unreturned()));
        match scan
        case NeedMore => r == 0 && page == None && Unreturned() == old(Unreturned()) && unsynced == old(unsynced)
        case PageAt(p) => r == Extent(p) && page == Some(p) && Unreturned() == old(Unreturned())[r..] && !unsynced
        case Skip(n) =>
          r == 0 - n && page == None && Unreturned() == old(Unreturned())[n..] && unsynced == old(unsynced)
    {
      hide Complete, Fails, HeaderLength, Valid;
      page := None;
      if headerBytes == 0 {
        var wait, fail := ReadHeader();
        if wait {
          return 0, None;
        }
        if fail {
          r := LoseSync();
          return r, None;
        }
      }
      r, page := SeekBody();
    }

    /** The part of pageseek after the header is known. */
    method SeekBody() returns (r: int, page: Option<Page>)
      requires Valid() && headerBytes != 0
      modifies this
      ensures Valid() && data == old(data) && fill == old(fill)
      ensures var scan := Seek(old(Unreturned()));
        match scan
        case NeedMore => r == 0 && page == None && Unreturned() == old(Unreturned()) && unsynced == old(unsynced)
        case PageAt(p) => r == Extent(p) && page == Some(p) && Unreturned() == old(Unreturned())[r..] && !unsynced
        case Skip(n) =>
          r == 0 - n && page == None && Unreturned() == old(Unreturned())[n..] && unsynced == old(unsynced)
    {
      hide Candidate, ChecksumOk, HeaderLength, NextCapture, WellFormed;
      if headerBytes + bodyBytes > fill - returned {
        return 0, None;
      }
      var ok := Verify();
      if !ok {
        r := LoseSync();
        return r, None;
      }
      var found;
      r, found := TakePage();
      page := Some(found);
    }

    /** ogg_sync_pageout: look until there is a page, more bytes are needed, or the first skip is reported. */
    method TakeNextPage() returns (r: int, page: Option<Page>)
      requires Valid()
      modifies this
      ensures Valid() && data == old(data)
      ensures Outcome(r, page, Unreturned(), unsynced) == PageOut(old(Unreturned()), old(unsynced))
    {
      while true
        invariant Valid() && data == old(data)
        invariant PageOut(Unreturned(), unsynced) == PageOut(old(Unreturned()), old(unsynced))
        decreases |Unreturned()|
      {
        var ret;
        ret, page := PageSeek();
        if ret > 0 {
          return 1, page;
        }
        if ret == 0 {
          return 0, None;
        }
        if !unsynced {
          unsynced := true;
          return -1, None;
        }
      }
    }

    /** ogg_sync_reset. */
    method Reset()
      requires Valid()
      modifies this
      ensures Valid() && Unreturned() == [] && !unsynced
    {
      fill, returned, unsynced, headerBytes, bodyBytes := 0, 0, false, 0, 0;
    }
  }
}
