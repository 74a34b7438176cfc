/** The page of the Ogg container as bytes: section 6 of RFC 3533. */
module OggPage {
  import opened Bytes
  import opened OggCrc
  import opened Registers

  /** A page as the framing code passes it around: a header with the segment table, and a body. */
  datatype Page = Page(header: seq<byte>, body: seq<byte>)

  const FIXED := 27           // header bytes before the segment table
  const MAX_SEGMENTS := 255
  const CAPTURE: seq<byte> := [79, 103, 103, 83]   // "OggS"
  const NO_CHECKSUM: seq<byte> := [0, 0, 0, 0]

  /** The fields of a page header. */
  datatype Head = Head(
    continued: bool, bos: bool, eos: bool,
    granulepos: int, serialno: int, pageno: int, table: seq<byte>)
  {
    /** The fields fit their places in the header; page numbers stay in the range a reader can return. */
    predicate Fits() {
      && -0x8000_0000_0000_0000 <= granulepos < 0x8000_0000_0000_0000
      && -0x8000_0000 <= serialno < 0x8000_0000
      && 0 <= pageno < 0x8000_0000
      && |table| <= MAX_SEGMENTS
    }
  }

  /** The header and the body have the lengths that the segment table says. */
  predicate WellFormed(page: Page) {
    && |page.header| >= FIXED
    && |page.header| == FIXED + page.header[26]
    && |page.body| == Sum(page.header[FIXED..])
  }

  function Version(header: seq<byte>): byte
    requires |header| >= FIXED
  {
    header[4]
  }

  /** The header fields as a reader takes them out of the bytes. */
  function ReadHead(header: seq<byte>): Head
    requires |header| >= FIXED
  {
    Head(
      header[5] % 2 == 1,
      header[5] / 2 % 2 == 1,
      header[5] / 4 % 2 == 1,
      Signed(FromLE(header[6..14]), 8),
      Signed(FromLE(header[14..18]), 4),
      Signed(FromLE(header[18..22]), 4),
      header[FIXED..])
  }

  function Flags(h: Head): byte {
    (if h.continued then 1 else 0) + (if h.bos then 2 else 0) + (if h.eos then 4 else 0)
  }

  /** The header up to the checksum, in the order the parts are stored. */
  function Front(flags: seq<byte>, g: seq<byte>, s: seq<byte>, p: seq<byte>): (h: seq<byte>)
    ensures |h| == 4 + |flags| + |g| + |s| + |p|
  {
    CAPTURE + (flags + (g + (s + p)))
  }

  /** The header bytes for some fields, with the given checksum bytes. */
  function WriteHead(h: Head, checksum: seq<byte>): (header: seq<byte>)
    requires |h.table| <= MAX_SEGMENTS && |checksum| == 4
    ensures |header| == FIXED + |h.table|
  {
    Front([0, Flags(h)], ToLE(h.granulepos, 8), ToLE(h.serialno, 4), ToLE(h.pageno, 4))
      + (checksum + ([|h.table|] + h.table))
  }

  /** The checksum register as the four bytes stored in the header. */
  function ChecksumBytes(crc: bv32): (s: seq<byte>)
    ensures |s| == 4
  {
    [Low(crc), Low(crc >> 8), Low(crc >> 16), Low(crc >> 24)]
  }

  // ---------- the checksum in the header ----------

  /** The four bytes are those of the register, lowest first. */
  lemma {:induction false} ChecksumBytesNumber(crc: bv32)
    ensures FromLE(ChecksumBytes(crc)) == Unsigned(crc)
  {
    hide Low, Unsigned;
    FourBytes(crc, ChecksumBytes(crc));
  }

  /** Four bytes are told apart by the number that they make. */
  lemma {:induction false} FourBytesUnique(s: seq<byte>, t: seq<byte>)
    requires |s| == |t| == 4 && FromLE(s) == FromLE(t)
    ensures s == t
  {
    FromLEOfFour(s);
    FromLEOfFour(t);
    assert s[0] == t[0] && s[1] == t[1] && s[2] == t[2] && s[3] == t[3];
  }

  /**
   The page carries its checksum: bytes 22 to 25 of the header, lowest first, are the register that the bit-serial
   form leaves after the header, with zeros in their place, and the body.
   */
  predicate CarriesCrc(header: seq<byte>, body: seq<byte>)
    requires |header| >= FIXED
  {
    FromLE(header[22..26]) == Unsigned(SerialCrc(0, header[..22] + [0, 0, 0, 0] + header[26..] + body))
  }

  /** The checksum of a page is right exactly when the page carries it. */
  lemma {:induction false} OkIffCarries(page: Page)
    requires |page.header| >= FIXED
    ensures ChecksumOk(page) <==> CarriesCrc(page.header, page.body)
  {
    hide Unsigned, ChecksumBytes;
    var crc := SerialCrc(0, page.header[..22] + [0, 0, 0, 0] + page.header[26..] + page.body);
    ChecksumBytesNumber(crc);
    if CarriesCrc(page.header, page.body) {
      FourBytesUnique(page.header[22..26], ChecksumBytes(crc));
    }
  }

  /** A header with its checksum field replaced. */
  function SetChecksum(header: seq<byte>, checksum: seq<byte>): (h: seq<byte>)
    requires |header| >= FIXED && |checksum| == 4
    ensures |h| == |header|
  {
    header[..22] + checksum + header[26..]
  }

  /** The checksum of a page: over header and body, with the checksum field zero. */
  function Checksum(header: seq<byte>, body: seq<byte>): (s: seq<byte>)
    requires |header| >= FIXED
    ensures |s| == 4
  {
    ChecksumBytes(Crc(SetChecksum(header, NO_CHECKSUM) + body))
  }

  /** The header bytes the encoder finishes with, checksum included. */
  function MakePage(h: Head, body: seq<byte>): (page: Page)
    requires |h.table| <= MAX_SEGMENTS
  {
    var blank := WriteHead(h, NO_CHECKSUM);
    Page(SetChecksum(blank, Checksum(blank, body)), body)
  }

  /** The stored checksum is the checksum of the page. */
  predicate ChecksumOk(page: Page)
    requires |page.header| >= FIXED
  {
    page.header[22..26] == Checksum(page.header, page.body)
  }

  lemma {:induction false} WriteHeadFields(h: Head, checksum: seq<byte>)
    requires |h.table| <= MAX_SEGMENTS && |checksum| == 4
    ensures var b := WriteHead(h, checksum);
      && b[..4] == CAPTURE && b[4] == 0 && b[5] == Flags(h)
      && b[6..14] == ToLE(h.granulepos, 8) && b[14..18] == ToLE(h.serialno, 4)
      && b[18..22] == ToLE(h.pageno, 4) && b[22..26] == checksum
      && b[26] == |h.table| && b[FIXED..] == h.table
  {
    var b := WriteHead(h, checksum);
    var front := Front([0, Flags(h)], ToLE(h.granulepos, 8), ToLE(h.serialno, 4), ToLE(h.pageno, 4));
    var t := [|h.table|] + h.table;
    FrontFields([0, Flags(h)], ToLE(h.granulepos, 8), ToLE(h.serialno, 4), ToLE(h.pageno, 4));
    Peel(b, 0, front, checksum + t);
    Peel(b, 22, checksum, t);
    Peel(b, 26, [|h.table|], h.table);
    PrefixSlices(b, front);
    assert b[4..6][0] == b[4] && b[4..6][1] == b[5] && b[26..27][0] == b[26];
  }

  lemma {:induction false} FrontFields(flags: seq<byte>, g: seq<byte>, s: seq<byte>, p: seq<byte>)
    requires |flags| == 2 && |g| == 8 && |s| == |p| == 4
    ensures var b := Front(flags, g, s, p);
      b[..4] == CAPTURE && b[4..6] == flags && b[6..14] == g && b[14..18] == s && b[18..22] == p
  {
    var b := Front(flags, g, s, p);
    Peel(b, 0, CAPTURE, flags + (g + (s + p)));
    Peel(b, 4, flags, g + (s + p));
    Peel(b, 6, g, s + p);
    Peel(b, 14, s, p);
  }

  lemma {:induction false} Peel(b: seq<byte>, at: nat, x: seq<byte>, rest: seq<byte>)
    requires at <= |b| && b[at..] == x + rest
    ensures b[at..at + |x|] == x && b[at + |x|..] == rest
  {
    assert b[at..][..|x|] == b[at..at + |x|];
    assert b[at..][|x|..] == b[at + |x|..];
  }

  lemma {:induction false} PrefixSlices(b: seq<byte>, front: seq<byte>)
    requires |front| == 22 && 22 <= |b| && b[0..22] == front
    ensures b[..22] == front && b[..4] == front[..4] && b[4..6] == front[4..6]
    ensures b[6..14] == front[6..14] && b[14..18] == front[14..18] && b[18..22] == front[18..22]
  {
  }

  lemma {:induction false} SetChecksumOfWriteHead(h: Head, before: seq<byte>, checksum: seq<byte>)
    requires |h.table| <= MAX_SEGMENTS && |before| == 4 && |checksum| == 4
    ensures SetChecksum(WriteHead(h, before), checksum) == WriteHead(h, checksum)
  {
    var front := Front([0, Flags(h)], ToLE(h.granulepos, 8), ToLE(h.serialno, 4), ToLE(h.pageno, 4));
    Resum(front, before, checksum, [|h.table|] + h.table);
  }

  lemma {:induction false} Resum(front: seq<byte>, c: seq<byte>, d: seq<byte>, t: seq<byte>)
    requires |front| == 22 && |c| == |d| == 4 && |t| >= 1
    ensures SetChecksum(front + (c + t), d) == front + (d + t)
  {
    var b := front + (c + t);
    assert b[..22] == front;
    assert b[26..] == t;
  }

  /** Reading the header of a made page gives the fields back, and the checksum verifies. */
  lemma {:induction false} MakePageReads(h: Head, body: seq<byte>)
    requires h.Fits() && Sum(h.table) == |body|
    ensures var page := MakePage(h, body);
      WellFormed(page) && ReadHead(page.header) == h && Version(page.header) == 0
      && page.header[..4] == CAPTURE && page.body == body && ChecksumOk(page) && CarriesCrc(page.header, page.body)
  {
    hide CarriesCrc;
    OkIffCarries(MakePage(h, body));
    var blank := WriteHead(h, NO_CHECKSUM);
    var sum := Checksum(blank, body);
    var header := WriteHead(h, sum);
    SetChecksumOfWriteHead(h, NO_CHECKSUM, sum);
    SetChecksumOfWriteHead(h, sum, NO_CHECKSUM);
    SetChecksumOfWriteHead(h, NO_CHECKSUM, NO_CHECKSUM);
    WriteHeadFields(h, sum);
    WriteHeadReads(h, sum);
  }

  lemma {:induction false} WriteHeadReads(h: Head, checksum: seq<byte>)
    requires h.Fits() && |checksum| == 4
    ensures ReadHead(WriteHead(h, checksum)) == h
  {
    WriteHeadFields(h, checksum);
    NumbersRead(h);
  }

  lemma {:induction false} NumbersRead(h: Head)
    requires h.Fits()
    ensures Signed(FromLE(ToLE(h.granulepos, 8)), 8) == h.granulepos
    ensures Signed(FromLE(ToLE(h.serialno, 4)), 4) == h.serialno
    ensures Signed(FromLE(ToLE(h.pageno, 4)), 4) == h.pageno
  {
    Pow256Values();
    SignedLERoundTrip(h.granulepos, 8);
    SignedLERoundTrip(h.serialno, 4);
    SignedLERoundTrip(h.pageno, 4);
  }

  lemma {:induction false} Pow256Values()
    ensures Pow256(3) == 0x100_0000 && Pow256(7) == 0x100_0000_0000_0000
  {
    assert Pow256(1) == 256 && Pow256(2) == 0x1_0000;
    assert Pow256(4) == 0x1_0000_0000 && Pow256(5) == 0x100_0000_0000 && Pow256(6) == 0x1_0000_0000_0000;
  }

  /** The low k bytes of n go to place `at` of the buffer, low byte first. */
  method StoreLE(buffer: array<byte>, at: nat, n: int, k: nat)
    requires at + k <= buffer.Length
    modifies buffer
    ensures buffer[at..at + k] == ToLE(n, k)
    ensures forall i :: 0 <= i < buffer.Length && !(at <= i < at + k) ==> buffer[i] == old(buffer[i])
  {
    var rest := n;
    for i := 0 to k
      invariant rest == HighPart(n, i)
      invariant buffer[at..at + i] == ToLE(n, i)
      invariant forall j :: 0 <= j < buffer.Length && !(at <= j < at + i) ==> buffer[j] == old(buffer[j])
    {
      ToLEAppend(n, i);
      buffer[at + i] := rest % 256;
      rest := rest / 256;
      assert buffer[at..at + i + 1] == buffer[at..at + i] + [buffer[at + i]];
    }
  }

  /** The header up to the segment table, checksum zero. */
  function FixedBytes(h: Head): (b: seq<byte>)
    requires |h.table| <= MAX_SEGMENTS
    ensures |b| == FIXED
  {
    Front([0, Flags(h)], ToLE(h.granulepos, 8), ToLE(h.serialno, 4), ToLE(h.pageno, 4))
      + (NO_CHECKSUM + [|h.table| as byte])
  }

  lemma {:induction false} WriteHeadIs(h: Head)
    requires |h.table| <= MAX_SEGMENTS
    ensures WriteHead(h, NO_CHECKSUM) == FixedBytes(h) + h.table
  {
    var front := Front([0, Flags(h)], ToLE(h.granulepos, 8), ToLE(h.serialno, 4), ToLE(h.pageno, 4));
    assert front + (NO_CHECKSUM + ([|h.table| as byte] + h.table))
        == front + (NO_CHECKSUM + [|h.table| as byte]) + h.table;
  }

  method StoreFixed(header: array<byte>, flags: byte, granule: int, serialno: int, pageno: int, segments: byte,
      ghost h: Head)
    requires header.Length >= FIXED
    requires |h.table| == segments && flags == Flags(h)
    requires granule == h.granulepos && serialno == h.serialno && pageno == h.pageno
    modifies header
    ensures header[..FIXED] == FixedBytes(h)
  {
    StoreNumbers(header, granule, serialno, pageno);
    StoreEnds(header, flags, segments);
    FixedParts(header[..FIXED], h);
  }

  lemma {:induction false} FixedParts(b: seq<byte>, h: Head)
    requires |h.table| <= MAX_SEGMENTS && |b| == FIXED
    requires b[..6] == CAPTURE + [0, Flags(h)] && b[22..] == NO_CHECKSUM + [|h.table| as byte]
    requires b[6..14] == ToLE(h.granulepos, 8) && b[14..18] == ToLE(h.serialno, 4) && b[18..22] == ToLE(h.pageno, 4)
    ensures b == FixedBytes(h)
  {
    hide Flags, ToLE;
    var g, s, p := b[6..14], b[14..18], b[18..22];
    assert b[14..22] == s + p;
    assert b[6..22] == g + (s + p);
    assert b[..22] == CAPTURE + ([0, Flags(h)] + (g + (s + p)));
    assert b == b[..22] + b[22..];
  }

  method StoreNumbers(header: array<byte>, granule: int, serialno: int, pageno: int)
    requires header.Length >= FIXED
    modifies header
    ensures header[6..14] == ToLE(granule, 8) && header[14..18] == ToLE(serialno, 4)
    ensures header[18..22] == ToLE(pageno, 4)
  {
    StoreLE(header, 6, granule, 8);
    StoreLE(header, 14, serialno, 4);
    StoreLE(header, 18, pageno, 4);
  }

  method StoreEnds(header: array<byte>, flags: byte, segments: byte)
    requires header.Length >= FIXED
    modifies header
    ensures header[..6] == CAPTURE + [0, flags] && header[22..FIXED] == NO_CHECKSUM + [segments]
    ensures header[6..14] == old(header[6..14]) && header[14..18] == old(header[14..18])
    ensures header[18..22] == old(header[18..22])
  {
    hide Word;
    header[0], header[1], header[2], header[3] := CAPTURE[0], CAPTURE[1], CAPTURE[2], CAPTURE[3];
    header[4] := 0;
    header[5] := flags;
    header[22], header[23], header[24], header[25] := 0, 0, 0, 0;
    header[26] := segments;
  }

  method StoreChecksum(header: array<byte>, length: nat, sum: seq<byte>)
    requires FIXED <= length <= header.Length && |sum| == 4
    modifies header
    ensures header[..length] == SetChecksum(old(header[..length]), sum)
    ensures header[..22] == old(header[..22]) && header[26..] == old(header[26..])
  {
    header[22], header[23], header[24], header[25] := sum[0], sum[1], sum[2], sum[3];
  }

  /** ogg_page_checksum_set, for a header kept in the first `length` bytes of a buffer. */
  method ChecksumSet(header: array<byte>, length: nat, body: seq<byte>)
    requires FIXED <= length <= header.Length
    modifies header
    ensures header[..length] == SetChecksum(old(header[..length]), Checksum(old(header[..length]), body))
    ensures CarriesCrc(header[..length], body)
    ensures header[..22] == old(header[..22]) && header[26..] == old(header[26..])
  {
    hide CarriesCrc, ChecksumBytes, ChecksumOk, SerialCrc, Unsigned;
    StoreChecksum(header, length, NO_CHECKSUM);
    var crc := TableCrc(0, header[..length]);
    crc := TableCrc(crc, body);
    SerialCrcConcat(0, header[..length], body);
    StoreChecksum(header, length, ChecksumBytes(crc));
    SetChecksumTwice(old(header[..length]), NO_CHECKSUM, ChecksumBytes(crc));
    SetIsOk(old(header[..length]), body);
    OkIffCarries(Page(header[..length], body));
  }

  /** A header whose checksum was set verifies. */
  lemma {:induction false} SetIsOk(header: seq<byte>, body: seq<byte>)
    requires |header| >= FIXED
    ensures ChecksumOk(Page(SetChecksum(header, Checksum(header, body)), body))
  {
    var sum := Checksum(header, body);
    SetChecksumTwice(header, sum, NO_CHECKSUM);
    assert SetChecksum(header, sum)[22..26] == sum;
  }

  lemma {:induction false} SetChecksumTwice(header: seq<byte>, c: seq<byte>, d: seq<byte>)
    requires |header| >= FIXED && |c| == |d| == 4
    ensures SetChecksum(SetChecksum(header, c), d) == SetChecksum(header, d)
  {
  }
}
