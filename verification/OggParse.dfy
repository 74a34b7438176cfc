/** Finding pages in a stream of bytes: what a scan of the buffer decides, and that chunking does not matter. */
module OggParse {
  import opened Options
  import opened Bytes
  import opened Sequences
  import opened OggPage

  /** What a scan at the head of the buffer finds. */
  datatype Scan = NeedMore | Skip(n: nat) | PageAt(page: Page)

  const CAPTURE_START: byte := 79   // 'O'

  function HeaderLength(s: seq<byte>): (n: int)
    requires |s| >= FIXED
    ensures n >= FIXED
  {
    FIXED + s[26]
  }

  function BodyLength(s: seq<byte>): nat
    requires |s| >= FIXED && |s| >= HeaderLength(s)
  {
    Sum(s[FIXED..HeaderLength(s)])
  }

  /** The whole page that the head of the buffer seems to be. */
  function Candidate(s: seq<byte>): (page: Page)
    requires |s| >= FIXED && |s| >= HeaderLength(s) && |s| >= HeaderLength(s) + BodyLength(s)
    ensures WellFormed(page)
  {
    Page(s[..HeaderLength(s)], s[HeaderLength(s)..HeaderLength(s) + BodyLength(s)])
  }

  /** The length of the bytes of a page. */
  function Extent(page: Page): nat {
    |page.header| + |page.body|
  }

  /** The head of the buffer begins with a capture pattern and holds the header and the whole body. */
  predicate Complete(s: seq<byte>) {
    |s| >= FIXED && |s| >= HeaderLength(s) && |s| >= HeaderLength(s) + BodyLength(s)
  }

  /** No bytes that follow can make a page start here. */
  predicate Fails(s: seq<byte>) {
    |s| >= FIXED && (s[..4] != CAPTURE || (Complete(s) && !ChecksumOk(Candidate(s))))
  }

  /** A page starts here. */
  predicate Holds(s: seq<byte>) {
    |s| >= FIXED && s[..4] == CAPTURE && Complete(s) && ChecksumOk(Candidate(s))
  }

  /** The next place after the first that may start a capture pattern; the end when there is none. */
  function NextCapture(s: seq<byte>): (n: nat)
    requires s != []
    ensures 1 <= n <= |s|
    ensures forall i :: 1 <= i < n ==> s[i] != CAPTURE_START
    ensures n < |s| ==> s[n] == CAPTURE_START
    decreases |s|
  {
    if |s| == 1 || s[1] == CAPTURE_START then 1 else 1 + NextCapture(s[1..])
  }

  /** One look at the head of the buffer. */
  function Seek(s: seq<byte>): (r: Scan)
    ensures r.PageAt? ==> WellFormed(r.page) && Extent(r.page) <= |s| && Extent(r.page) > 0
    ensures r.Skip? ==> 1 <= r.n <= |s|
  {
    if Fails(s) then Skip(NextCapture(s))
    else if Holds(s) then PageAt(Candidate(s))
    else NeedMore
  }

  /**
   The pages of a stream of bytes, found from left to right one byte at a time: take a page where one
   starts, stop where that is not decided yet, and otherwise move on by one byte.
   */
  function Pages(s: seq<byte>): seq<Page>
    decreases |s|
  {
    if Fails(s) then Pages(s[1..])
    else if Holds(s) then [Candidate(s)] + Pages(s[Extent(Candidate(s))..])
    else []
  }

  // ---------- more bytes change nothing that was decided ----------

  lemma {:induction false} CandidateExtends(s: seq<byte>, x: seq<byte>)
    requires Complete(s)
    ensures Complete(s + x) && Candidate(s + x) == Candidate(s)
  {
    assert (s + x)[FIXED..HeaderLength(s)] == s[FIXED..HeaderLength(s)];
    assert (s + x)[..HeaderLength(s)] == s[..HeaderLength(s)];
    var body := Candidate(s).body;
    assert (s + x)[HeaderLength(s)..HeaderLength(s) + BodyLength(s)] == body;
  }

  lemma {:induction false} DecisionStands(s: seq<byte>, x: seq<byte>)
    ensures Fails(s) ==> Fails(s + x)
    ensures Holds(s) ==> Holds(s + x) && Candidate(s + x) == Candidate(s)
  {
    if |s| >= FIXED {
      assert (s + x)[..4] == s[..4];
      if Complete(s) {
        CandidateExtends(s, x);
      }
    }
  }

  /** A byte that cannot start a capture pattern can be passed over. */
  lemma {:induction false} PassOver(s: seq<byte>)
    requires s != [] && s[0] != CAPTURE_START
    ensures Pages(s) == Pages(s[1..])
  {
    if |s| >= FIXED {
      assert s[..4][0] != CAPTURE[0];
    }
  }

  lemma {:induction false} PassOverMany(s: seq<byte>, n: nat)
    requires n <= |s| && forall i :: 0 <= i < n ==> s[i] != CAPTURE_START
    ensures Pages(s) == Pages(s[n..])
    decreases n
  {
    if n > 0 {
      PassOver(s);
      assert forall i :: 0 <= i < n - 1 ==> s[1..][i] == s[i + 1];
      PassOverMany(s[1..], n - 1);
      assert s[1..][n - 1..] == s[n..];
    } else {
      assert s[0..] == s;
    }
  }

  /** Skipping to the next place in the buffer that may start a page loses no page, whatever bytes follow. */
  lemma {:induction false} SkipLosesNothing(s: seq<byte>, x: seq<byte>)
    requires Seek(s).Skip?
    ensures Pages(s + x) == Pages(s[Seek(s).n..] + x)
  {
    hide Candidate, Complete, Fails, Holds;
    var n, all := Seek(s).n, s + x;
    DecisionStands(s, x);
    assert Pages(all) == Pages(all[1..]);
    assert forall i :: 0 <= i < n - 1 ==> all[1..][i] == s[i + 1];
    PassOverMany(all[1..], n - 1);
    assert all[1..][n - 1..] == s[n..] + x;
  }

  /** A page that is found is the first page, whatever bytes follow. */
  lemma {:induction false} PageIsFirst(s: seq<byte>, x: seq<byte>)
    requires Seek(s).PageAt?
    ensures Pages(s + x) == [Seek(s).page] + Pages(s[Extent(Seek(s).page)..] + x)
  {
    var n := Extent(Seek(s).page);
    DecisionStands(s, x);
    assert (s + x)[n..] == s[n..] + x;
  }

  // ---------- runs ----------

  /** The result of a pageout call: 1 with a page, -1 when sync was lost, 0 when more bytes are needed. */
  datatype Outcome = Outcome(code: int, page: Option<Page>, rest: seq<byte>, unsynced: bool)

  /** Look for a page until one is found, more bytes are needed, or the first skip has to be reported. */
  function PageOut(s: seq<byte>, unsynced: bool): Outcome
    decreases |s|
  {
    match Seek(s)
    case NeedMore => Outcome(0, None, s, unsynced)
    case PageAt(page) => Outcome(1, Some(page), s[Extent(page)..], false)
    case Skip(n) => if unsynced then PageOut(s[n..], true) else Outcome(-1, None, s[n..], true)
  }

  /** A call on the sync state: bytes arrive, or a page is asked for. */
  datatype SyncOp = Feed(bytes: seq<byte>) | Ask

  /** A run so far: the bytes not returned, the pages returned, and the reports of lost sync. */
  datatype Synced = Synced(buffer: seq<byte>, unsynced: bool, pages: seq<Page>, reports: nat)

  function SyncStep(y: Synced, op: SyncOp): Synced {
    match op
    case Feed(bytes) => y.(buffer := y.buffer + bytes)
    case Ask =>
      var o := PageOut(y.buffer, y.unsynced);
      Synced(o.rest, o.unsynced, y.pages + (if o.page.Some? then [o.page.value] else []),
             y.reports + if o.code == -1 then 1 else 0)
  }

  function Sync(y: Synced, ops: seq<SyncOp>): Synced
    decreases |ops|
  {
    if ops == [] then y else Sync(SyncStep(y, ops[0]), ops[1..])
  }

  /** All bytes that arrive in a run. */
  function Fed(ops: seq<SyncOp>): seq<byte> {
    if ops == [] then [] else (if ops[0].Feed? then ops[0].bytes else []) + Fed(ops[1..])
  }

  /** A pageout call takes the first page of the stream, or none. */
  lemma {:induction false} PageOutFinds(s: seq<byte>, unsynced: bool, x: seq<byte>)
    ensures var o := PageOut(s, unsynced);
      && Pages(s + x) == (if o.page.Some? then [o.page.value] else []) + Pages(o.rest + x)
      && (o.code == 0 ==> Seek(o.rest).NeedMore? && Pages(o.rest) == [])
      && (o.code != 0 ==> |o.rest| < |s|)
    decreases |s|
  {
    var o := PageOut(s, unsynced);
    match Seek(s)
    case NeedMore =>
      assert [] + Pages(s + x) == Pages(s + x);
    case PageAt(page) =>
      PageIsFirst(s, x);
    case Skip(n) =>
      SkipLosesNothing(s, x);
      if unsynced {
        PageOutFinds(s[n..], true, x);
      } else {
        assert [] + Pages(o.rest + x) == Pages(o.rest + x);
      }
  }

  /**
   Chunking does not matter: the pages returned so far, and those still in the buffer with the bytes to
   come, are the pages of all the bytes.
   */
  lemma {:induction false} SyncRun(y: Synced, ops: seq<SyncOp>, x: seq<byte>)
    ensures Sync(y, ops).pages + Pages(Sync(y, ops).buffer + x) == y.pages + Pages(y.buffer + (Fed(ops) + x))
    decreases |ops|
  {
    if ops == [] {
      assert [] + x == x;
    } else {
      var y1, rest := SyncStep(y, ops[0]), ops[1..];
      SyncRun(y1, rest, x);
      match ops[0]
      case Feed(bytes) =>
        AppendAssociates(y.buffer, bytes, Fed(rest) + x);
        AppendAssociates(bytes, Fed(rest), x);
      case Ask =>
        var o := PageOut(y.buffer, y.unsynced);
        var found := if o.page.Some? then [o.page.value] else [];
        assert [] + Fed(rest) == Fed(rest);
        PageOutFinds(y.buffer, y.unsynced, Fed(rest) + x);
        AppendAssociates(y.pages, found, Pages(o.rest + (Fed(rest) + x)));
    }
  }

  /** A sync state that has received nothing. */
  const UNFED := Synced([], false, [], 0)

  /** When a call has answered that more bytes are needed, exactly the pages of all the bytes were returned. */
  lemma {:induction false} SyncReturnsPages(ops: seq<SyncOp>)
    requires Seek(Sync(UNFED, ops).buffer).NeedMore?
    ensures Sync(UNFED, ops).pages == Pages(Fed(ops))
  {
    var y := Sync(UNFED, ops);
    SyncRun(UNFED, ops, []);
    assert y.buffer + [] == y.buffer && [] + (Fed(ops) + []) == Fed(ops);
    assert y.pages + [] == y.pages && [] + Pages(Fed(ops)) == Pages(Fed(ops));
  }

  /** Lost sync is reported at most once for each page returned, and once more. */
  lemma {:induction false} ReportsAreRare(y: Synced, ops: seq<SyncOp>)
    requires y.reports <= |y.pages| + if y.unsynced then 1 else 0
    ensures Sync(y, ops).reports <= |Sync(y, ops).pages| + if Sync(y, ops).unsynced then 1 else 0
    decreases |ops|
  {
    if ops != [] {
      if ops[0].Ask? {
        PageOutFlags(y.buffer, y.unsynced);
      }
      ReportsAreRare(SyncStep(y, ops[0]), ops[1..]);
    }
  }

  lemma {:induction false} PageOutFlags(s: seq<byte>, unsynced: bool)
    ensures var o := PageOut(s, unsynced);
      && -1 <= o.code <= 1 && (o.code == -1 <==> !unsynced && Seek(s).Skip?) && (o.code == 1 <==> o.page.Some?)
      && (o.code == -1 ==> o.unsynced) && (o.code == 0 ==> o.unsynced == unsynced) && (o.code == 1 ==> !o.unsynced)
    decreases |s|
  {
    if Seek(s).Skip? && unsynced {
      PageOutFlags(s[Seek(s).n..], true);
    }
  }

  function Asks(n: nat): seq<SyncOp> {
    seq(n, _ => Ask)
  }

  lemma {:induction false} AsksUnfold(y: Synced, n: nat)
    requires n > 0
    ensures Sync(y, Asks(n)) == Sync(SyncStep(y, Ask), Asks(n - 1))
  {
    assert Asks(n)[0] == Ask && Asks(n)[1..] == Asks(n - 1);
  }

  /** A pageout uses up some bytes, or more are needed. */
  lemma {:induction false} AskUses(y: Synced)
    ensures var t := SyncStep(y, Ask); Seek(t.buffer).NeedMore? || |t.buffer| < |y.buffer|
  {
    PageOutFinds(y.buffer, y.unsynced, []);
  }

  /** As many pageouts as there are bytes, or more, get to where more bytes are needed. */
  lemma {:induction false} AsksDrain(y: Synced, n: nat)
    requires |y.buffer| <= n
    ensures Seek(Sync(y, Asks(n)).buffer).NeedMore?
    decreases n
  {
    if n > 0 {
      var t := SyncStep(y, Ask);
      AsksUnfold(y, n);
      AskUses(y);
      if Seek(t.buffer).NeedMore? {
        StaysDry(t, n - 1);
      } else {
        AsksDrain(t, n - 1);
      }
    }
  }

  lemma {:induction false} StaysDry(y: Synced, n: nat)
    requires Seek(y.buffer).NeedMore?
    ensures Seek(Sync(y, Asks(n)).buffer).NeedMore?
    decreases n
  {
    if n > 0 {
      AsksUnfold(y, n);
      StaysDry(SyncStep(y, Ask), n - 1);
    }
  }

  // ---------- pages back to back ----------

  /** The bytes of a list of pages. */
  function Wire(pages: seq<Page>): seq<byte> {
    if pages == [] then [] else (pages[0].header + pages[0].body) + Wire(pages[1..])
  }

  /** A page as an encoder leaves it. */
  predicate Sound(page: Page) {
    WellFormed(page) && page.header[..4] == CAPTURE && ChecksumOk(page)
  }

  lemma {:induction false} SoundHolds(page: Page, x: seq<byte>)
    requires Sound(page)
    ensures Holds(page.header + page.body + x) && Candidate(page.header + page.body + x) == page
  {
    var s := page.header + page.body;
    assert s[..4] == CAPTURE && s[26] == page.header[26];
    assert s[FIXED..HeaderLength(s)] == page.header[FIXED..];
    assert s[..HeaderLength(s)] == page.header;
    assert s[HeaderLength(s)..HeaderLength(s) + BodyLength(s)] == page.body;
    assert Candidate(s) == page;
    DecisionStands(s, x);
  }

  /** The pages of the bytes of sound pages are those pages. */
  lemma {:induction false} WirePages(pages: seq<Page>)
    requires forall i :: 0 <= i < |pages| ==> Sound(pages[i])
    ensures Pages(Wire(pages)) == pages
  {
    if pages != [] {
      var s := Wire(pages);
      SoundHolds(pages[0], Wire(pages[1..]));
      assert s[Extent(pages[0])..] == Wire(pages[1..]);
      WirePages(pages[1..]);
    }
  }

  /** Bytes in front of the stream that hold no start of a capture pattern cost no page. */
  lemma {:induction false} JunkCostsNothing(junk: seq<byte>, s: seq<byte>)
    requires forall i :: 0 <= i < |junk| ==> junk[i] != CAPTURE_START
    ensures Pages(junk + s) == Pages(s)
  {
    PassOverMany(junk + s, |junk|);
    assert (junk + s)[|junk|..] == s;
  }

  // ---------- what a page in a stream of bytes is ----------

  /** The bytes of a page stand at place i: capture pattern, lengths from the segment table, and its checksum. */
  ghost predicate GenuineAt(s: seq<byte>, i: nat, page: Page) {
    && i + 27 <= |s| && s[i..i + 4] == [0x4f, 0x67, 0x67, 0x53]
    && |page.header| == 27 + (s[i + 26] as int) && |page.body| == Sum(page.header[27..])
    && i + |page.header| + |page.body| <= |s| && s[i..i + |page.header| + |page.body|] == page.header + page.body
    && CarriesCrc(page.header, page.body)
  }

  /** Whether a page stands at place i is not decided: the bytes end in the header, or in the page that it begins. */
  predicate UndecidedAt(s: seq<byte>, i: nat) {
    && i <= |s|
    && (|| i + 27 > |s|
        || (&& s[i..i + 4] == [0x4f, 0x67, 0x67, 0x53]
            && (|| i + 27 + s[i + 26] > |s|
                || i + 27 + s[i + 26] + Sum(s[i + 27..i + 27 + s[i + 26]]) > |s|)))
  }

  lemma {:induction false} HoldsIsGenuine(s: seq<byte>)
    requires Holds(s)
    ensures GenuineAt(s, 0, Candidate(s))
  {
    hide CarriesCrc;
    OkIffCarries(Candidate(s));
    var page := Candidate(s);
    assert s[0..|page.header| + |page.body|] == page.header + page.body;
  }

  lemma {:induction false} GenuineIsCandidate(s: seq<byte>, page: Page)
    requires GenuineAt(s, 0, page)
    ensures Holds(s) && page == Candidate(s)
  {
    hide CarriesCrc, ChecksumOk;
    var all := s[0..|page.header| + |page.body|];
    assert all[..|page.header|] == page.header && all[|page.header|..] == page.body;
    assert s[..HeaderLength(s)] == page.header;
    assert s[27..HeaderLength(s)] == page.header[27..];
    assert s[HeaderLength(s)..HeaderLength(s) + BodyLength(s)] == page.body;
    OkIffCarries(page);
  }

  lemma {:induction false} GenuineShift(s: seq<byte>, i: nat, page: Page)
    requires s != []
    ensures GenuineAt(s, i + 1, page) <==> GenuineAt(s[1..], i, page)
  {
    hide CarriesCrc;
    if i + 28 <= |s| {
      assert s[1..][i..i + 4] == s[i + 1..i + 5] && s[1..][i + 26] == s[i + 27];
      var n := |page.header| + |page.body|;
      if i + 1 + n <= |s| {
        assert s[1..][i..i + n] == s[i + 1..i + 1 + n];
      }
    }
  }

  lemma {:induction false} UndecidedShift(s: seq<byte>, i: nat)
    requires s != [] && UndecidedAt(s[1..], i)
    ensures UndecidedAt(s, i + 1)
  {
    if i + 28 <= |s| {
      assert s[1..][i..i + 4] == s[i + 1..i + 5] && s[1..][i + 26] == s[i + 27];
      if i + 28 + s[i + 27] <= |s| {
        assert s[1..][i + 27..i + 27 + s[i + 27]] == s[i + 28..i + 28 + s[i + 27]];
      }
    }
  }

  /** No page stands at any of the first i places. */
  ghost predicate NoneBefore(s: seq<byte>, i: nat) {
    forall j: nat, page: Page :: j < i ==> !GenuineAt(s, j, page)
  }

  lemma {:induction false} NoneShift(s: seq<byte>, i: nat)
    requires s != [] && NoneBefore(s[1..], i) && forall page: Page :: !GenuineAt(s, 0, page)
    ensures NoneBefore(s, i + 1)
  {
    hide GenuineAt;
    forall j: nat, page: Page | j < i + 1
      ensures !GenuineAt(s, j, page)
    {
      if j > 0 {
        GenuineShift(s, j - 1, page);
      }
    }
  }

  /** The first page found is the first that stands in the bytes. */
  ghost predicate FirstAt(s: seq<byte>, i: nat) {
    && Pages(s) != [] && GenuineAt(s, i, Pages(s)[0]) && NoneBefore(s, i)
    && Pages(s)[1..] == Pages(s[i + Extent(Pages(s)[0])..])
  }

  /** No page is found: none stands in the bytes up to the place where it is not decided. */
  ghost predicate StopsAt(s: seq<byte>, i: nat) {
    Pages(s) == [] && UndecidedAt(s, i) && NoneBefore(s, i)
  }

  /**
   The pages found are, from left to right, those that stand in the bytes: the first that stands there is found first,
   and the search goes on behind it; it ends where it is not decided whether a page stands.
   */
  lemma {:induction false} FoundStand(s: seq<byte>)
    ensures exists i: nat :: FirstAt(s, i) || StopsAt(s, i)
    decreases |s|
  {
    if Fails(s) {
      FoundStand(s[1..]);
      FailedFound(s);
    } else if Holds(s) {
      HoldsIsGenuine(s);
      assert FirstAt(s, 0);
    } else {
      assert StopsAt(s, 0);
    }
  }

  lemma {:induction false} FailedFound(s: seq<byte>)
    requires Fails(s) && exists i: nat :: FirstAt(s[1..], i) || StopsAt(s[1..], i)
    ensures exists i: nat :: FirstAt(s, i) || StopsAt(s, i)
  {
    hide Complete, Extent, GenuineAt, HeaderLength, Sum, WellFormed;
    var t := s[1..];
    assert Pages(s) == Pages(t);
    var i: nat :| FirstAt(t, i) || StopsAt(t, i);
    forall page: Page
      ensures !GenuineAt(s, 0, page)
    {
      if GenuineAt(s, 0, page) {
        GenuineIsCandidate(s, page);
      }
    }
    NoneShift(s, i);
    if FirstAt(t, i) {
      GenuineShift(s, i, Pages(s)[0]);
      GenuineFits(t, i, Pages(s)[0]);
      var n := Extent(Pages(s)[0]);
      assert t[i + n..] == s[i + 1 + n..];
      assert FirstAt(s, i + 1);
    } else {
      UndecidedShift(s, i);
      assert StopsAt(s, i + 1);
    }
  }

  lemma {:induction false} GenuineFits(s: seq<byte>, i: nat, page: Page)
    requires GenuineAt(s, i, page)
    ensures i + Extent(page) <= |s|
  {
  }
}
