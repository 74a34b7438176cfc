/** A file on a CD image, presented as if its sectors were one flat run of bytes. */
module CdFileStream {
  import opened Bytes

  /** A raw sector: sync, header and subheader, then the data, then the error correction. */
  const RAW_SECTOR := 2352
  const HEADER := 24
  const DATA := 2048

  /** Where byte q of the file that starts at a sector lies in the image. */
  function Place(location: nat, q: nat): nat {
    (location + q / DATA) * RAW_SECTOR + HEADER + q % DATA
  }

  predicate Holds(image: seq<byte>, location: nat, p: nat, n: nat) {
    n == 0 || Place(location, p + n - 1) < |image|
  }

  lemma {:induction false} PlaceGrows(location: nat, p: nat, q: nat)
    ensures p < q ==> Place(location, p) < Place(location, q)
    ensures p == q <==> Place(location, p) == Place(location, q)
    ensures Place(location, p) / RAW_SECTOR == location + p / DATA
    ensures HEADER <= Place(location, p) % RAW_SECTOR < HEADER + DATA
  {
  }

  /** The bytes p .. p + n of the file. */
  function FileBytes(image: seq<byte>, location: nat, p: nat, n: nat): (s: seq<byte>)
    requires Holds(image, location, p, n)
    ensures |s| == n
  {
    seq(n, i requires 0 <= i < n => (PlaceGrows(location, p + i, p + n - 1); image[Place(location, p + i)]))
  }

  lemma {:induction false} FileBytesAt(image: seq<byte>, location: nat, p: nat, n: nat, i: nat)
    requires Holds(image, location, p, n) && i < n
    ensures Place(location, p + i) < |image|
    ensures FileBytes(image, location, p, n)[i] == image[Place(location, p + i)]
  {
    PlaceGrows(location, p + i, p + n - 1);
  }

  lemma {:induction false} HoldsParts(image: seq<byte>, location: nat, p: nat, n: nat, m: nat)
    ensures Holds(image, location, p, n + m) ==> Holds(image, location, p, n)
    ensures m > 0 ==> (Holds(image, location, p, n + m) <==> Holds(image, location, p + n, m))
    ensures Holds(image, location, p, n) && Holds(image, location, p + n, m) ==> Holds(image, location, p, n + m)
  {
    if n > 0 && m > 0 {
      PlaceGrows(location, p + n - 1, p + n + m - 1);
    }
  }

  lemma {:induction false} FileBytesAppend(image: seq<byte>, location: nat, p: nat, n: nat, m: nat)
    requires Holds(image, location, p, n) && Holds(image, location, p + n, m)
    ensures Holds(image, location, p, n + m)
    ensures FileBytes(image, location, p, n + m)
         == FileBytes(image, location, p, n) + FileBytes(image, location, p + n, m)
  {
    hide *;
    HoldsParts(image, location, p, n, m);
    var whole := FileBytes(image, location, p, n + m);
    var a, b := FileBytes(image, location, p, n), FileBytes(image, location, p + n, m);
    forall i | 0 <= i < n + m
      ensures whole[i] == (a + b)[i]
    {
      FileBytesAt(image, location, p, n + m, i);
      if i < n {
        FileBytesAt(image, location, p, n, i);
      } else {
        FileBytesAt(image, location, p + n, m, i - n);
      }
    }
  }

  /** Within one sector the file is a stretch of the image. */
  lemma {:induction false} InOneSector(image: seq<byte>, location: nat, s: nat, w: nat, n: nat)
    requires w + n <= DATA
    ensures var raw := (location + s) * RAW_SECTOR + HEADER + w;
      && (n > 0 ==> (Holds(image, location, s * DATA + w, n) <==> raw + n <= |image|))
      && (raw + n <= |image| ==> FileBytes(image, location, s * DATA + w, n) == image[raw..raw + n])
  {
    var raw, p := (location + s) * RAW_SECTOR + HEADER + w, s * DATA + w;
    if n > 0 {
      assert Place(location, p + (n - 1)) == raw + (n - 1);
    }
    if raw + n <= |image| {
      forall i: nat | i < n
        ensures FileBytes(image, location, p, n)[i] == image[raw..raw + n][i]
      {
        FileBytesAt(image, location, p, n, i);
        assert (p + i) / DATA == s;
      }
    }
  }

  lemma {:induction false} Split(raw: nat, sector: nat, r: nat)
    requires raw == sector * RAW_SECTOR + r && r < RAW_SECTOR
    ensures raw / RAW_SECTOR == sector && raw % RAW_SECTOR == r
  {
  }

  // ---------- the file, sector by sector ----------

  /** Mode 2 form 1 sectors: sync, header and subheader of 12, 4 and 8 bytes, 2048 bytes of data, and 280 more. */
  datatype Sector = Sector(header: seq<byte>, data: seq<byte>, correction: seq<byte>) {
    predicate Valid() {
      |header| == 12 + 4 + 8 && |data| == 2048 && |correction| == 280
    }
  }

  predicate AllValid(sectors: seq<Sector>) {
    forall i :: 0 <= i < |sectors| ==> sectors[i].Valid()
  }

  function Image(sectors: seq<Sector>): seq<byte> {
    if sectors == [] then [] else sectors[0].header + sectors[0].data + sectors[0].correction + Image(sectors[1..])
  }

  function Data(sectors: seq<Sector>): seq<byte> {
    if sectors == [] then [] else sectors[0].data + Data(sectors[1..])
  }

  lemma {:induction false} ImageLengths(sectors: seq<Sector>)
    requires AllValid(sectors)
    ensures |Image(sectors)| == |sectors| * RAW_SECTOR && |Data(sectors)| == |sectors| * DATA
  {
    if sectors != [] {
      assert forall i :: 0 <= i < |sectors[1..]| ==> sectors[1..][i] == sectors[i + 1];
      ImageLengths(sectors[1..]);
    }
  }

  lemma {:induction false} ImageAt(sectors: seq<Sector>, s: nat, w: nat)
    requires AllValid(sectors) && s < |sectors| && w < DATA
    ensures |Image(sectors)| == |sectors| * RAW_SECTOR && |Data(sectors)| == |sectors| * DATA
    ensures Image(sectors)[s * RAW_SECTOR + HEADER + w] == sectors[s].data[w] == Data(sectors)[s * DATA + w]
    decreases |sectors|
  {
    ImageLengths(sectors);
    var first, rest := sectors[0], sectors[1..];
    assert first.Valid();
    if s > 0 {
      assert forall i :: 0 <= i < |rest| ==> rest[i] == sectors[i + 1];
      ImageAt(rest, s - 1, w);
      BehindFirst(first.header + first.data + first.correction, Image(rest), (s - 1) * RAW_SECTOR + HEADER + w);
      BehindFirst(first.data, Data(rest), (s - 1) * DATA + w);
    }
  }

  lemma {:induction false} BehindFirst(first: seq<byte>, rest: seq<byte>, i: nat)
    requires i < |rest|
    ensures (first + rest)[|first| + i] == rest[i]
  {
  }

  /** The bytes of a file are the data of its sectors, one after the other, with no header or correction between. */
  lemma {:induction false} FileIsFlat(sectors: seq<Sector>, location: nat, p: nat, n: nat)
    requires AllValid(sectors) && location <= |sectors| && p + n <= (|sectors| - location) * DATA
    ensures Holds(Image(sectors), location, p, n)
    ensures |Data(sectors[location..])| == (|sectors| - location) * DATA
    ensures FileBytes(Image(sectors), location, p, n) == Data(sectors[location..])[p..p + n]
  {
    hide Data, FileBytes, Image, Place;
    var tail := sectors[location..];
    var image := Image(sectors);
    DataLength(tail);
    if n > 0 {
      ByteIsFlat(sectors, location, p + n - 1);
    }
    forall i: nat | i < n
      ensures FileBytes(image, location, p, n)[i] == Data(tail)[p..p + n][i]
    {
      FileBytesAt(image, location, p, n, i);
      ByteIsFlat(sectors, location, p + i);
    }
  }

  lemma {:induction false} ByteIsFlat(sectors: seq<Sector>, location: nat, q: nat)
    requires AllValid(sectors) && location <= |sectors| && q < (|sectors| - location) * DATA
    ensures |Data(sectors[location..])| == (|sectors| - location) * DATA
    ensures Place(location, q) < |Image(sectors)|
    ensures Image(sectors)[Place(location, q)] == Data(sectors[location..])[q]
  {
    hide Data, Image;
    var s, w := q / DATA, q % DATA;
    assert q == s * DATA + w;
    ImageAt(sectors, location + s, w);
    ImageAt(sectors[location..], s, w);
  }

  lemma {:induction false} DataLength(sectors: seq<Sector>)
    requires AllValid(sectors)
    ensures |Data(sectors)| == |sectors| * DATA
  {
    if sectors != [] {
      ImageAt(sectors, 0, 0);
    }
  }

  // ---------- the stream ----------

  class Stream {
    const image: seq<byte>
    const location: nat
    /** The position in the image. */
    var raw: nat
    var sector: nat
    var pos: nat

    /** The stream is at byte w of the data of a sector of the file, or in front of the header when w is 0. */
    ghost predicate At(s: nat, w: nat)
      reads `raw
    {
      && w <= DATA
      && (raw == (location + s) * RAW_SECTOR + HEADER + w || (w == 0 && raw == (location + s) * RAW_SECTOR))
    }

    /** A place in the data of a sector; at the end of the data the next sector has not been entered yet. */
    ghost predicate Valid()
      reads this
    {
      && sector * DATA <= pos <= sector * DATA + DATA
      && raw == (location + sector) * RAW_SECTOR + HEADER + pos - sector * DATA
    }

    /** In front of the header of a sector. */
    ghost predicate AtSector()
      reads this
    {
      raw == (location + sector) * RAW_SECTOR && pos == sector * DATA
    }

    /** Not sought yet: the sector is counted from the start of the image. */
    ghost predicate Unsought()
      reads this
    {
      sector == location && pos == 0 && At(0, 0)
    }

    constructor (image: seq<byte>, location: nat)
      ensures this.image == image && this.location == location && Unsought()
    {
      this.image, this.location := image, location;
      sector := location;
      raw := location * RAW_SECTOR;
      pos := 0;
    }

    method RawRead(n: nat) returns (ok: bool, bytes: seq<byte>)
      modifies `raw
      ensures ok <==> n == 0 || old(raw) + n <= |image|
      ensures ok ==> raw == old(raw) + n && bytes == if n == 0 then [] else image[old(raw)..raw]
    {
      if n == 0 {
        return true, [];
      }
      if raw + n > |image| {
        return false, [];
      }
      ok, bytes := true, image[raw..raw + n];
      raw := raw + n;
    }

    method Seek(p: nat)
      modifies `raw, `sector, `pos
      ensures Valid() && pos == p && raw == Place(location, p)
    {
      sector := p / DATA;
      raw := (sector + location) * RAW_SECTOR + HEADER;
      var subSeek := p % DATA;
      raw := raw + subSeek;
      pos := p;
    }

    method Pos() returns (p: nat)
      ensures p == pos
    {
      p := pos;
    }

    /** Skips the header when the stream is in front of it. */
    method SkipHeader(ghost s: nat, ghost w: nat) returns (ok: bool, posWithin: nat)
      requires At(s, w)
      modifies `raw
      ensures ok ==> raw == (location + s) * RAW_SECTOR + HEADER + w
      ensures !ok ==> (location + s) * RAW_SECTOR + HEADER > |image| && old(raw) == (location + s) * RAW_SECTOR
      ensures posWithin == w
    {
      Split(raw, location + s, raw - (location + s) * RAW_SECTOR);
      posWithin := raw % RAW_SECTOR;
      ok := true;
      if posWithin == 0 {
        var subHeader;
        ok, subHeader := RawRead(HEADER);
      } else if posWithin >= HEADER {
        posWithin := posWithin - HEADER;
      }
    }

    /** One turn of the loop of a read: the part that the sector has, and on to the next sector if more is left. */
    method ReadPart(left: nat, ghost s: nat, ghost w: nat) returns (ok: bool, part: seq<byte>)
      requires At(s, w)
      modifies `raw, `sector, `pos
      ensures var at, k := (location + s) * RAW_SECTOR + HEADER + w, if w + left > DATA then DATA - w else left;
        && (ok && k > 0 ==> at + k <= |image| && part == image[at..at + k])
        && (ok && k == 0 ==> part == [])
        && (!ok ==> at + k > |image| && (k > 0 || old(raw) == (location + s) * RAW_SECTOR))
        && (ok && w + left > DATA ==> sector == old(sector) + 1 && AtSector())
        && (ok && 0 < left <= DATA - w ==> sector == s && raw == at + left && pos == old(pos) + left)
        && (ok && left == 0 ==> sector == old(sector) && raw == at && pos == old(pos))
    {
      var posWithin;
      ok, posWithin := SkipHeader(s, w);
      if !ok {
        return false, [];
      }
      if posWithin + left > DATA {
        var spaceLeft := DATA - posWithin;
        pos := pos + spaceLeft;
        ok, part := RawRead(spaceLeft);
        if ok {
          sector := sector + 1;
          raw := (sector + location) * RAW_SECTOR;
          pos := sector * DATA;
        }
      } else if left != 0 {
        pos := pos + left;
        Split(raw, location + s, HEADER + w);
        sector := raw / RAW_SECTOR - location;
        ok, part := RawRead(left);
      } else {
        part := [];
      }
    }

    /** The turns of the loop after the first. */
    method ReadRest(n: nat) returns (ok: bool, dest: seq<byte>)
      requires AtSector() && n > 0
      modifies `raw, `sector, `pos
      ensures ok <==> Holds(image, location, old(pos), n)
      ensures ok ==> Valid() && pos == old(pos) + n && dest == FileBytes(image, location, old(pos), n)
    {
      hide Place;
      var left := n;
      dest := [];
      ghost var start := pos;
      while true
        invariant left > 0 && |dest| + left == n
        invariant AtSector() && pos == start + |dest|
        invariant Holds(image, location, start, |dest|)
        invariant dest == FileBytes(image, location, start, |dest|)
        decreases left
      {
        ghost var k := if left > DATA then DATA else left;
        InOneSector(image, location, sector, 0, k);
        HoldsParts(image, location, start, |dest|, k);
        HoldsParts(image, location, start, |dest| + k, left - k);
        var part;
        ok, part := ReadPart(left, sector, 0);
        if !ok {
          return false, [];
        }
        FileBytesAppend(image, location, start, |dest|, k);
        dest := dest + part;
        if |part| == left {
          return;
        }
        left := left - |part|;
      }
    }

    /** All turns of the loop: what the sector has, and then the sectors after the one that was counted last. */
    method ReadTurns(n: nat, ghost s: nat, ghost w: nat) returns (ok: bool, dest: seq<byte>)
      requires At(s, w) && (n > 0 || raw == (location + s) * RAW_SECTOR + HEADER + w)
      modifies `raw, `sector, `pos
      ensures var p, k, next := s * DATA + w, if w + n > DATA then DATA - w else n, (old(sector) + 1) * DATA;
        && (ok <==> Holds(image, location, p, k) && (n > k ==> Holds(image, location, next, n - k)))
        && (ok && n > k ==> Valid() && pos == next + n - k)
        && (ok && n > k ==> dest == FileBytes(image, location, p, k) + FileBytes(image, location, next, n - k))
        && (ok && n == k ==> pos == old(pos) + n && dest == FileBytes(image, location, p, k))
        && (ok && n == k ==> raw == (location + s) * RAW_SECTOR + HEADER + w + n)
        && (ok && n == k ==> sector == if n > 0 then s else old(sector))
    {
      hide AtSector, FileBytes, Place, Valid;
      InOneSector(image, location, s, w, if w + n > DATA then DATA - w else n);
      ok, dest := ReadPart(n, s, w);
      if ok && |dest| < n {
        var rest;
        ok, rest := ReadRest(n - |dest|);
        dest := dest + rest;
      }
    }

    /** Reads the next n bytes of the file. */
    method ReadBytes(n: nat) returns (ok: bool, dest: seq<byte>)
      requires Valid()
      modifies `raw, `sector, `pos
      ensures ok <==> Holds(image, location, old(pos), n)
      ensures ok ==> Valid() && pos == old(pos) + n && dest == FileBytes(image, location, old(pos), n)
    {
      hide FileBytes, Holds, Place;
      ghost var p, w := pos, pos - sector * DATA;
      ghost var k := if w + n > DATA then DATA - w else n;
      HoldsParts(image, location, p, k, n - k);
      ok, dest := ReadTurns(n, sector, w);
      if ok && n > k {
        FileBytesAppend(image, location, p, k, n - k);
      }
    }

    /**
     A read before any Seek gives the first bytes of the file exactly when it stays in one sector or the file
     starts the image; otherwise it goes on `location` sectors too far.
     */
    method ReadUnsought(n: nat) returns (ok: bool, dest: seq<byte>)
      requires Unsought() && n > 0
      modifies `raw, `sector, `pos
      ensures ok ==> Valid()
      ensures ok ==> (pos == n <==> n <= DATA || location == 0)
      ensures n <= DATA || location == 0 ==> (ok <==> Holds(image, location, 0, n))
      ensures n > DATA ==>
        (ok <==> Holds(image, location, 0, DATA) && Holds(image, location, (location + 1) * DATA, n - DATA))
      ensures ok && (n <= DATA || location == 0) ==> dest == FileBytes(image, location, 0, n)
      ensures ok && n > DATA ==>
        var next := (location + 1) * DATA;
        && pos == next + n - DATA
        && Holds(image, location, 0, DATA) && Holds(image, location, next, n - DATA)
        && dest == FileBytes(image, location, 0, DATA) + FileBytes(image, location, next, n - DATA)
    {
      hide FileBytes, Holds, Place;
      ghost var k := if n > DATA then DATA else n;
      HoldsParts(image, location, 0, k, n - k);
      ok, dest := ReadTurns(n, 0, 0);
      if ok && n > k && location == 0 {
        FileBytesAppend(image, location, 0, k, n - k);
      }
    }
  }

  // ---------- a read before any Seek that goes astray ----------

  function Same(n: nat, b: byte): (s: seq<byte>)
    ensures |s| == n && forall i :: 0 <= i < n ==> s[i] == b
  {
    seq(n, _ => b)
  }

  function SectorOf(b: byte): (s: Sector)
    ensures s.Valid() && s.data[0] == b
  {
    Sector(Same(HEADER, 0), Same(DATA, b), Same(RAW_SECTOR - HEADER - DATA, 0))
  }

  /** An image in which one sector holds ones and all others zeros. */
  function OneMarked(count: nat, mark: nat): (sectors: seq<Sector>)
    ensures |sectors| == count
    ensures forall i :: 0 <= i < count ==> sectors[i] == SectorOf(if i == mark then 1 else 0)
  {
    seq(count, i requires 0 <= i < count => SectorOf(if i == mark then 1 else 0))
  }

  lemma {:induction false} FirstOfSector(sectors: seq<Sector>, location: nat, s: nat)
    requires AllValid(sectors) && location + s < |sectors|
    ensures Holds(Image(sectors), location, s * DATA, 1)
    ensures FileBytes(Image(sectors), location, s * DATA, 1) == [sectors[location + s].data[0]]
  {
    hide Image, Data;
    assert Place(location, s * DATA) == (location + s) * RAW_SECTOR + HEADER;
    ImageLengths(sectors);
    ImageAt(sectors, location + s, 0);
    FileBytesAt(Image(sectors), location, s * DATA, 1, 0);
  }

  /**
   For a file that does not start its image there is an image of whole sectors that has all the bytes of a read across
   the first sector, before any Seek, and from which that read gives others: see ReadUnsought.
   */
  lemma {:induction false} UnsoughtGoesAstray(location: nat) returns (sectors: seq<Sector>)
    requires location > 0
    ensures AllValid(sectors)
    ensures var image, next := Image(sectors), (location + 1) * DATA;
      && Holds(image, location, 0, DATA + 1) && Holds(image, location, 0, DATA) && Holds(image, location, next, 1)
      && FileBytes(image, location, 0, DATA) + FileBytes(image, location, next, 1)
         != FileBytes(image, location, 0, DATA + 1)
  {
    hide Image, Holds, FileBytes;
    sectors := OneMarked(2 * location + 2, 2 * location + 1);
    var image := Image(sectors);
    FirstOfSector(sectors, location, 1);
    FirstOfSector(sectors, location, location + 1);
    HoldsParts(image, location, 0, DATA, 1);
    FileBytesAppend(image, location, 0, DATA, 1);
    var start := FileBytes(image, location, 0, DATA);
    assert (start + [1])[DATA] != (start + [0])[DATA];
  }
}
