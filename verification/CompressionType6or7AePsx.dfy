/** The PSX sprite decoder: blocks of a pair table and the symbols that it expands. */
module CompressionType6or7AePsx {
  import opened Bytes
  import opened Sequences
  import opened PowersOfTwo
  import opened BitWindows
  import opened FieldStreams
  import opened BytePairGrammar

  // ---------- the table as fields ----------

  /** A table entry: the symbol itself, or a pair. */
  datatype Entry = Own | Pair(l: nat, r: nat)

  function LeftOf(p: nat, e: Entry): nat {
    if e.Own? then p else e.l
  }

  /** Some symbols that stand for themselves, and some entries. */
  datatype Piece = Piece(skip: nat, entries: seq<Entry>)

  function Owns(n: nat): (e: seq<Entry>)
    ensures |e| == n && forall i :: 0 <= i < n ==> e[i] == Own
  {
    seq(n, _ => Own)
  }

  function PieceEntries(piece: Piece): seq<Entry> {
    Owns(piece.skip) + piece.entries
  }

  function Entries(pieces: seq<Piece>): seq<Entry> {
    if pieces == [] then [] else PieceEntries(pieces[0]) + Entries(pieces[1..])
  }

  /** An entry at place p. A pair whose left symbol is p itself could not be told from no pair. */
  function EntryFields(p: nat, e: Entry): seq<nat> {
    if e.Own? then [p] else [e.l, e.r]
  }

  function EntriesFields(p: nat, entries: seq<Entry>): seq<nat>
    decreases |entries|
  {
    if entries == [] then [] else EntryFields(p, entries[0]) + EntriesFields(p + 1, entries[1..])
  }

  function PieceFields(p: nat, piece: Piece, half: nat): seq<nat>
    requires half > 0
  {
    (if piece.skip > 0 then [half - 1 + piece.skip] else if piece.entries == [] then [] else [|piece.entries| - 1])
    + EntriesFields(p + piece.skip, piece.entries)
  }

  /** What a piece may be, in a table of `size` symbols of which p are done. */
  predicate PieceFits(p: nat, piece: Piece, size: nat) {
    && p + piece.skip + |piece.entries| <= size
    && (if piece.skip == 0 then 1 <= |piece.entries| <= size / 2
        else piece.skip <= size / 2 && |piece.entries| == if p + piece.skip == size then 0 else 1)
    && forall i :: 0 <= i < |piece.entries| && piece.entries[i].Pair? ==> piece.entries[i].l != p + piece.skip + i
  }

  predicate PiecesFit(p: nat, pieces: seq<Piece>, size: nat)
    decreases |pieces|
  {
    if pieces == [] then p == size
    else p < size && PieceFits(p, pieces[0], size) && PiecesFit(p + |PieceEntries(pieces[0])|, pieces[1..], size)
  }

  function TableFields(p: nat, pieces: seq<Piece>, half: nat): seq<nat>
    requires half > 0
    decreases |pieces|
  {
    if pieces == [] then []
    else PieceFields(p, pieces[0], half) + TableFields(p + |PieceEntries(pieces[0])|, pieces[1..], half)
  }

  // ---------- loading a table ----------

  /** The reader is on a stream that holds these fields. */
  ghost predicate Feeds(reader: WordReader, fields: seq<nat>)
    reads reader
  {
    && reader.Valid() && Stored(reader.data, reader.start, reader.n, fields)
    && LongEnough(reader.n, reader.data, reader.start, |fields|)
  }

  /** The next field of a stream that holds them. */
  method NextField(reader: WordReader, ghost fields: seq<nat>) returns (v: nat)
    requires Feeds(reader, fields) && reader.k < |fields|
    modifies reader
    ensures Feeds(reader, fields) && reader.k == old(reader.k) + 1 && v == fields[old(reader.k)] && v < Pow2(reader.n)
  {
    hide Shr, Stored, WordBitsLeft, WordBytesRead;
    BytesMonotone(reader.n, reader.k + 1, |fields|);
    StoredAt(reader.data, reader.start, reader.n, fields, reader.k);
    v := reader.Next();
  }

  predicate LongEnough(n: nat, data: seq<byte>, start: nat, count: nat)
    requires n <= 8
  {
    start + WordBytesRead(n, count) <= |data|
  }

  lemma {:induction false} BytesMonotone(n: nat, a: nat, b: nat)
    requires n <= 8 && a <= b
    ensures WordBytesRead(n, a) <= WordBytesRead(n, b)
    decreases b - a
  {
    if a < b {
      BytesMonotone(n, a, b - 1);
      assert n * b == n * (b - 1) + n;
    }
  }

  /** The tables hold these entries; the right table only where there is a pair. */
  predicate Loaded(tmp1: seq<byte>, tmp2: seq<byte>, entries: seq<Entry>) {
    && |entries| <= |tmp1| && |entries| <= |tmp2|
    && forall p :: 0 <= p < |entries| ==>
         tmp2[p] == LeftOf(p, entries[p]) && (entries[p].Pair? ==> tmp1[p] == entries[p].r)
  }

  /** Symbols that stand for themselves. */
  method LoadOwns(tmp1: array<byte>, tmp2: array<byte>, start: nat, n: nat, ghost done: seq<Entry>) returns (count: nat)
    requires tmp1 != tmp2 && start == |done| && start + n <= tmp1.Length == tmp2.Length == 256
    requires Loaded(tmp1[..], tmp2[..], done)
    modifies tmp2
    ensures count == start + n && Loaded(tmp1[..], tmp2[..], done + Owns(n))
  {
    count := start;
    var remainder := n;
    ghost var i: nat := 0;
    while remainder != 0
      invariant i + remainder == n && count == start + i && Loaded(tmp1[..], tmp2[..], done + Owns(i))
    {
      tmp2[count] := count;
      count := count + 1;
      remainder := remainder - 1;
      i := i + 1;
    }
  }

  /** One entry. */
  method LoadEntry(reader: WordReader, tmp1: array<byte>, tmp2: array<byte>, count: nat,
      ghost fields: seq<nat>, ghost e: Entry, ghost done: seq<Entry>)
    requires Feeds(reader, fields)
    requires tmp1 != tmp2 && count == |done| < tmp1.Length == tmp2.Length == 256
    requires Loaded(tmp1[..], tmp2[..], done)
    requires Ahead(fields, reader.k, EntryFields(count, e)) && (e.Pair? ==> e.l != count)
    modifies reader, tmp1, tmp2
    ensures Feeds(reader, fields) && reader.k == old(reader.k) + |EntryFields(count, e)|
    ensures Loaded(tmp1[..], tmp2[..], done + [e])
  {
    AheadAt(fields, reader.k, EntryFields(count, e), 0);
    if e.Pair? {
      AheadAt(fields, reader.k, EntryFields(count, e), 1);
    }
    var bits := NextField(reader, fields);
    BitsAreBytes(reader.n);
    tmp2[count] := bits;
    if count != bits {
      var second := NextField(reader, fields);
      tmp1[count] := second;
    }
  }

  lemma {:induction false} BitsAreBytes(n: nat)
    requires n <= 8
    ensures Pow2(n) <= 256
  {
    Pow2Monotone(n, 8);
    Pow2Plus8(0);
  }

  /** Some entries. */
  method LoadEntries(reader: WordReader, tmp1: array<byte>, tmp2: array<byte>, start: nat, n: nat,
      ghost fields: seq<nat>, ghost entries: seq<Entry>, ghost done: seq<Entry>) returns (count: nat)
    requires Feeds(reader, fields) && n == |entries|
    requires tmp1 != tmp2 && start == |done| && start + n <= tmp1.Length == tmp2.Length == 256
    requires Loaded(tmp1[..], tmp2[..], done)
    requires Ahead(fields, reader.k, EntriesFields(start, entries))
    requires forall i :: 0 <= i < |entries| && entries[i].Pair? ==> entries[i].l != start + i
    modifies reader, tmp1, tmp2
    ensures Feeds(reader, fields) && reader.k == old(reader.k) + |EntriesFields(start, entries)|
    ensures count == start + n && Loaded(tmp1[..], tmp2[..], done + entries)
  {
    hide EntryFields, Feeds, LongEnough;
    count := start;
    var count2 := n;
    ghost var i: nat, now, last := 0, done, reader.k + |EntriesFields(start, entries)|;
    assert entries[0..] == entries && done + entries[..0] == done;
    while count2 != 0
      invariant i + count2 == n && count == start + i == |now| && Feeds(reader, fields)
      invariant Ahead(fields, reader.k, EntriesFields(count, entries[i..]))
      invariant reader.k + |EntriesFields(count, entries[i..])| == last
      invariant now == done + entries[..i] && Loaded(tmp1[..], tmp2[..], now)
    {
      assert entries[i..][1..] == entries[i + 1..] && entries[..i + 1] == entries[..i] + [entries[i]];
      AheadSplits(fields, reader.k, EntryFields(count, entries[i]), EntriesFields(count + 1, entries[i + 1..]));
      AppendAssociates(done, entries[..i], [entries[i]]);
      LoadEntry(reader, tmp1, tmp2, count, fields, entries[i], now);
      now := now + [entries[i]];
      count := count + 1;
      count2 := count2 - 1;
      i := i + 1;
    }
    assert entries[..n] == entries && entries[n..] == [];
  }

  /** The body of the loop: one piece of the table. */
  method LoadPiece(reader: WordReader, tmp1: array<byte>, tmp2: array<byte>, start: nat, size: nat,
      ghost fields: seq<nat>, ghost piece: Piece, ghost done: seq<Entry>) returns (count: nat)
    requires Feeds(reader, fields) && 2 <= size <= 256
    requires tmp1 != tmp2 && start == |done| < size && tmp1.Length == tmp2.Length == 256
    requires Loaded(tmp1[..], tmp2[..], done) && PieceFits(start, piece, size)
    requires Ahead(fields, reader.k, PieceFields(start, piece, size / 2))
    modifies reader, tmp1, tmp2
    ensures Feeds(reader, fields) && reader.k == old(reader.k) + |PieceFields(start, piece, size / 2)|
    ensures count == start + |PieceEntries(piece)| && Loaded(tmp1[..], tmp2[..], done + PieceEntries(piece))
  {
    hide Ahead, EntryFields, Feeds, Loaded;
    var kInvertedFixedMask := size / 2 - 1;
    ghost var first := [if piece.skip > 0 then kInvertedFixedMask + piece.skip else |piece.entries| - 1];
    AheadAt(fields, reader.k, PieceFields(start, piece, size / 2), 0);
    AheadSplits(fields, reader.k, first, EntriesFields(start + piece.skip, piece.entries));
    AppendAssociates(done, Owns(piece.skip), piece.entries);
    assert done + Owns(0) == done;
    var maskedSrcBits1 := NextField(reader, fields);
    count := start;
    if maskedSrcBits1 > kInvertedFixedMask {
      count := LoadOwns(tmp1, tmp2, count, maskedSrcBits1 - kInvertedFixedMask, done);
      maskedSrcBits1 := 0;
    }
    if count == size {
      assert piece.entries == [];
      assert (done + Owns(piece.skip)) + [] == done + Owns(piece.skip);
      return;
    }
    count := LoadEntries(reader, tmp1, tmp2, count, maskedSrcBits1 + 1, fields, piece.entries, done + Owns(piece.skip));
  }

  /** A whole table. */
  method LoadTable(reader: WordReader, tmp1: array<byte>, tmp2: array<byte>, size: nat,
      ghost fields: seq<nat>, ghost pieces: seq<Piece>)
    requires Feeds(reader, fields) && 2 <= size <= 256
    requires tmp1 != tmp2 && tmp1.Length == tmp2.Length == 256
    requires PiecesFit(0, pieces, size) && Ahead(fields, reader.k, TableFields(0, pieces, size / 2))
    modifies reader, tmp1, tmp2
    ensures Feeds(reader, fields) && reader.k == old(reader.k) + |TableFields(0, pieces, size / 2)|
    ensures |Entries(pieces)| == size && Loaded(tmp1[..], tmp2[..], Entries(pieces))
  {
    hide PieceFields, PieceFits, Stored;
    var count := 0;
    ghost var half := size / 2;
    ghost var left, now, last := pieces, [], reader.k + |TableFields(0, pieces, half)|;
    assert [] + Entries(pieces) == Entries(pieces);
    while count != size
      invariant count == |now| <= size && Feeds(reader, fields) && PiecesFit(count, left, size)
      invariant Ahead(fields, reader.k, TableFields(count, left, half))
      invariant reader.k + |TableFields(count, left, half)| == last
      invariant now + Entries(left) == Entries(pieces) && Loaded(tmp1[..], tmp2[..], now)
      decreases |left|
    {
      count, left, now := LoadNextPiece(reader, tmp1, tmp2, count, size, fields, left, now);
    }
    assert left == [] && now + [] == now;
  }

  /** The next piece of a table. */
  method LoadNextPiece(reader: WordReader, tmp1: array<byte>, tmp2: array<byte>, start: nat, size: nat,
      ghost fields: seq<nat>, ghost left: seq<Piece>, ghost done: seq<Entry>)
      returns (count: nat, ghost rest: seq<Piece>, ghost now: seq<Entry>)
    requires Feeds(reader, fields) && 2 <= size <= 256
    requires tmp1 != tmp2 && start == |done| < size && tmp1.Length == tmp2.Length == 256
    requires Loaded(tmp1[..], tmp2[..], done) && PiecesFit(start, left, size)
    requires Ahead(fields, reader.k, TableFields(start, left, size / 2))
    modifies reader, tmp1, tmp2
    ensures Feeds(reader, fields) && |rest| < |left| && PiecesFit(count, rest, size) && count == |now| <= size
    ensures Ahead(fields, reader.k, TableFields(count, rest, size / 2))
    ensures reader.k + |TableFields(count, rest, size / 2)| == old(reader.k) + |TableFields(start, left, size / 2)|
    ensures now + Entries(rest) == done + Entries(left) && Loaded(tmp1[..], tmp2[..], now)
  {
    hide Feeds, PieceEntries, PieceFields, PieceFits;
    ghost var piece := left[0];
    rest := left[1..];
    now := done + PieceEntries(piece);
    AheadSplits(fields, reader.k, PieceFields(start, piece, size / 2),
      TableFields(start + |PieceEntries(piece)|, rest, size / 2));
    AppendAssociates(done, PieceEntries(piece), Entries(rest));
    count := LoadPiece(reader, tmp1, tmp2, start, size, fields, piece, done);
  }

  // ---------- expanding symbols ----------

  /** The tables hold a grammar. */
  predicate Tables(tmp1: seq<byte>, tmp2: seq<byte>, g: Grammar) {
    && g.Acyclic() && |g.left| <= |tmp1| && |g.left| <= |tmp2|
    && forall s :: 0 <= s < |g.left| ==> tmp2[s] == g.left[s] && (!g.Terminal(s) ==> tmp1[s] == g.right[s])
  }

  /** The symbols may be expanded. */
  predicate Symbols(g: Grammar, symbols: seq<nat>) {
    forall j :: 0 <= j < |symbols| ==> symbols[j] in g.used
  }

  /** Every symbol on the stack is the right half of a pair whose left half is being expanded above it. */
  predicate OnStack(g: Grammar, stack: seq<byte>, owners: seq<nat>)
    requires g.Acyclic()
  {
    && |stack| == |owners| && g.Falling(owners)
    && forall j :: 0 <= j < |stack| ==> owners[j] in g.used && !g.Terminal(owners[j]) && stack[j] == g.right[owners[j]]
  }

  /** A symbol that is being expanded above these owners. */
  predicate AboveOwners(g: Grammar, symbol: nat, owners: seq<nat>)
    requires g.Acyclic() && g.Falling(owners)
  {
    symbol in g.used && (owners != [] ==> g.rank[symbol] < g.rank[owners[|owners| - 1]])
  }

  /** A pair is opened: its right half goes on the stack, which has room, and its left half is next. */
  lemma {:induction false} OpenPair(g: Grammar, stack: seq<byte>, owners: seq<nat>, symbol: nat)
    requires g.Acyclic() && OnStack(g, stack, owners) && AboveOwners(g, symbol, owners) && !g.Terminal(symbol)
    ensures |stack| < 256
    ensures OnStack(g, stack + [g.right[symbol]], owners + [symbol])
    ensures AboveOwners(g, g.left[symbol], owners + [symbol])
    ensures g.Yield(symbol) + g.StackYield(stack) == g.Yield(g.left[symbol]) + g.StackYield(stack + [g.right[symbol]])
  {
    g.FallingIsShort(owners + [symbol]);
    var pushed := stack + [g.right[symbol]];
    assert pushed[..|stack|] == stack;
    AppendAssociates(g.Yield(g.left[symbol]), g.Yield(g.right[symbol]), g.StackYield(stack));
  }

  method Push(tmp3: array<byte>, size: nat, b: byte) returns (top: nat)
    requires size < tmp3.Length
    modifies tmp3
    ensures top == size + 1 && tmp3[..top] == old(tmp3[..size]) + [b]
  {
    tmp3[size] := b;
    top := size + 1;
  }

  /** The inner loop: open pairs until a terminal is reached. */
  method ExpandSymbol(tmp1: array<byte>, tmp2: array<byte>, tmp3: array<byte>, symbol: nat, size: nat,
      ghost g: Grammar, ghost owners: seq<nat>) returns (terminal: byte, top: nat, ghost above: seq<nat>)
    requires tmp3 != tmp1 && tmp3 != tmp2 && tmp3.Length == 256 && Tables(tmp1[..], tmp2[..], g)
    requires size <= 256 && OnStack(g, tmp3[..size], owners) && AboveOwners(g, symbol, owners)
    modifies tmp3
    ensures top <= 256 && OnStack(g, tmp3[..top], above)
    ensures g.Yield(symbol) + old(g.StackYield(tmp3[..size])) == [terminal] + g.StackYield(tmp3[..top])
  {
    var tmp1Idx: nat := symbol;
    top, above := size, owners;
    ghost var total := g.Yield(symbol) + g.StackYield(tmp3[..size]);
    var i := tmp2[tmp1Idx];
    while tmp1Idx != i
      invariant top <= 256 && OnStack(g, tmp3[..top], above) && AboveOwners(g, tmp1Idx, above) && i == g.left[tmp1Idx]
      invariant g.Yield(tmp1Idx) + g.StackYield(tmp3[..top]) == total
      decreases g.rank[tmp1Idx]
    {
      OpenPair(g, tmp3[..top], above, tmp1Idx);
      top := Push(tmp3, top, tmp1[tmp1Idx]);
      above := above + [tmp1Idx];
      tmp1Idx := i;
      i := tmp2[i];
    }
    terminal := tmp1Idx;
    assert g.Yield(tmp1Idx) == [terminal];
  }

  /** The symbol on top of the stack is taken off. */
  lemma {:induction false} Pop(g: Grammar, stack: seq<byte>, owners: seq<nat>)
    requires g.Acyclic() && OnStack(g, stack, owners) && stack != []
    ensures var n := |stack| - 1;
      && OnStack(g, stack[..n], owners[..n]) && AboveOwners(g, stack[n], owners[..n])
      && g.StackYield(stack) == g.Yield(stack[n]) + g.StackYield(stack[..n])
  {
  }

  lemma {:induction false} YieldsUnfold(g: Grammar, symbols: seq<nat>, i: nat)
    requires g.Acyclic() && i < |symbols| && Symbols(g, symbols)
    ensures g.Yields(symbols[i..]) == g.Yield(symbols[i]) + g.Yields(symbols[i + 1..])
  {
    assert symbols[i..][1..] == symbols[i + 1..];
  }

  /** The next counted symbol of the stream. */
  method ReadSymbol(reader: WordReader, counter: nat, ghost fields: seq<nat>, ghost g: Grammar, ghost symbols: seq<nat>)
      returns (symbol: nat)
    requires Feeds(reader, fields) && 0 < counter <= |symbols| && g.Acyclic()
    requires Symbols(g, symbols)
    requires Ahead(fields, reader.k, symbols[|symbols| - counter..])
    modifies reader
    ensures Feeds(reader, fields) && reader.k == old(reader.k) + 1 && symbol in g.used
    ensures Ahead(fields, reader.k, symbols[|symbols| - (counter - 1)..])
    ensures g.Yields(symbols[|symbols| - counter..]) == g.Yield(symbol) + g.Yields(symbols[|symbols| - (counter - 1)..])
  {
    ghost var i := |symbols| - counter;
    AheadAt(fields, reader.k, symbols[i..], 0);
    assert symbols[i..] == [symbols[i]] + symbols[i + 1..];
    AheadSplits(fields, reader.k, [symbols[i]], symbols[i + 1..]);
    YieldsUnfold(g, symbols, i);
    symbol := NextField(reader, fields);
  }

  /** The symbol to expand next: from the stack, or from the stream when the stack is empty. */
  method NextSymbol(reader: WordReader, tmp3: array<byte>, size: nat, counter: nat,
      ghost fields: seq<nat>, ghost g: Grammar, ghost symbols: seq<nat>, ghost owners: seq<nat>)
      returns (symbol: nat, top: nat, left: nat, ghost above: seq<nat>)
    requires Feeds(reader, fields) && tmp3.Length == 256 && g.Acyclic() && size <= 256
    requires OnStack(g, tmp3[..size], owners)
    requires counter <= |symbols| && (size > 0 || counter > 0)
    requires Symbols(g, symbols)
    requires Ahead(fields, reader.k, symbols[|symbols| - counter..])
    modifies reader
    ensures Feeds(reader, fields) && top <= 256 && OnStack(g, tmp3[..top], above) && AboveOwners(g, symbol, above)
    ensures left <= counter && Ahead(fields, reader.k, symbols[|symbols| - left..])
    ensures reader.k + left == old(reader.k) + counter
    ensures g.StackYield(tmp3[..size]) + g.Yields(symbols[|symbols| - counter..])
         == g.Yield(symbol) + (g.StackYield(tmp3[..top]) + g.Yields(symbols[|symbols| - left..]))
  {
    hide Ahead, Feeds, AboveOwners;
    left, top, above := counter, size, owners;
    if top > 0 {
      symbol, top, above := PopSymbol(tmp3, size, g, owners);
      AppendAssociates(g.Yield(symbol), g.StackYield(tmp3[..top]), g.Yields(symbols[|symbols| - counter..]));
    } else {
      left := left - 1;
      symbol := ReadSymbol(reader, counter, fields, g, symbols);
      EmptyStack(g, tmp3[..0], owners, symbol, g.Yields(symbols[|symbols| - left..]));
    }
  }

  method PopSymbol(tmp3: array<byte>, size: nat, ghost g: Grammar, ghost owners: seq<nat>)
      returns (symbol: nat, top: nat, ghost above: seq<nat>)
    requires 0 < size <= tmp3.Length && g.Acyclic() && OnStack(g, tmp3[..size], owners)
    ensures top == size - 1 && OnStack(g, tmp3[..top], above) && AboveOwners(g, symbol, above)
    ensures g.StackYield(tmp3[..size]) == g.Yield(symbol) + g.StackYield(tmp3[..top])
  {
    Pop(g, tmp3[..size], owners);
    top := size - 1;
    assert tmp3[..size][..top] == tmp3[..top];
    symbol := tmp3[top];
    above := owners[..top];
  }

  lemma {:induction false} EmptyStack(g: Grammar, stack: seq<byte>, owners: seq<nat>, symbol: nat, rest: seq<byte>)
    requires g.Acyclic() && stack == [] && OnStack(g, stack, owners) && symbol in g.used
    ensures AboveOwners(g, symbol, owners)
    ensures g.StackYield(stack) + (g.Yield(symbol) + rest) == g.Yield(symbol) + (g.StackYield(stack) + rest)
  {
  }

  /** One byte of output: the next terminal of what is pending. */
  method NextByte(reader: WordReader, tmp1: array<byte>, tmp2: array<byte>, tmp3: array<byte>, size: nat, counter: nat,
      ghost fields: seq<nat>, ghost g: Grammar, ghost symbols: seq<nat>, ghost owners: seq<nat>)
      returns (b: byte, top: nat, left: nat, ghost above: seq<nat>)
    requires Feeds(reader, fields) && tmp3 != tmp1 && tmp3 != tmp2 && tmp3.Length == 256
    requires Tables(tmp1[..], tmp2[..], g)
    requires size <= 256 && OnStack(g, tmp3[..size], owners) && counter <= |symbols| && (size > 0 || counter > 0)
    requires Symbols(g, symbols)
    requires Ahead(fields, reader.k, symbols[|symbols| - counter..])
    modifies reader, tmp3
    ensures Feeds(reader, fields) && top <= 256 && OnStack(g, tmp3[..top], above) && left <= counter
    ensures Ahead(fields, reader.k, symbols[|symbols| - left..]) && reader.k + left == old(reader.k) + counter
    ensures old(g.StackYield(tmp3[..size])) + g.Yields(symbols[|symbols| - counter..])
         == [b] + (g.StackYield(tmp3[..top]) + g.Yields(symbols[|symbols| - left..]))
  {
    hide Ahead, Feeds, Stored;
    var symbol;
    symbol, top, left, above := NextSymbol(reader, tmp3, size, counter, fields, g, symbols, owners);
    ghost var rest := g.Yields(symbols[|symbols| - left..]);
    AppendAssociates(g.Yield(symbol), g.StackYield(tmp3[..top]), rest);
    b, top, above := ExpandSymbol(tmp1, tmp2, tmp3, symbol, top, g, above);
    AppendAssociates([b], g.StackYield(tmp3[..top]), rest);
  }

  // ---------- blocks ----------

  /** The output holds these bytes, and zeros after them. */
  predicate Written(out: seq<byte>, bytes: seq<byte>) {
    |bytes| <= |out| && forall i :: 0 <= i < |out| ==> out[i] == if i < |bytes| then bytes[i] else 0
  }

  method WriteByte(out: array<byte>, pos: nat, b: byte, ghost done: seq<byte>)
    requires Written(out[..], done) && pos == |done| < out.Length
    modifies out
    ensures Written(out[..], done + [b])
  {
    out[pos] := b;
  }

  /** The loop that expands the counted symbols. */
  method ExpandSymbols(reader: WordReader, tmp1: array<byte>, tmp2: array<byte>, tmp3: array<byte>, out: array<byte>,
      start: nat, count: nat, ghost fields: seq<nat>, ghost g: Grammar, ghost symbols: seq<nat>,
      ghost before: seq<byte>)
      returns (outputPos: nat)
    requires Feeds(reader, fields) && tmp3 != tmp1 && tmp3 != tmp2 && tmp3.Length == 256
    requires Tables(tmp1[..], tmp2[..], g)
    requires out != tmp1 && out != tmp2 && out != tmp3
    requires count == |symbols| && Symbols(g, symbols) && Ahead(fields, reader.k, symbols)
    requires Written(out[..], before) && start == |before| && start + |g.Yields(symbols)| <= out.Length
    modifies reader, tmp3, out
    ensures Feeds(reader, fields) && reader.k == old(reader.k) + count
    ensures Written(out[..], before + g.Yields(symbols)) && outputPos == start + |g.Yields(symbols)|
  {
    hide Ahead, Feeds;
    outputPos := start;
    var counter: nat, tmp2Idx: nat := count, 0;
    ghost var above, done, pending, total := [], before, g.Yields(symbols), before + g.Yields(symbols);
    StartAndEnd(g, tmp3[..0], symbols);
    while tmp2Idx != 0 || counter != 0
      invariant Feeds(reader, fields) && tmp2Idx <= 256 && OnStack(g, tmp3[..tmp2Idx], above) && counter <= count
      invariant Ahead(fields, reader.k, symbols[|symbols| - counter..]) && reader.k + counter == old(reader.k) + count
      invariant pending == g.StackYield(tmp3[..tmp2Idx]) + g.Yields(symbols[|symbols| - counter..])
      invariant done + pending == total && Written(out[..], done) && outputPos == |done|
      decreases |pending|
    {
      tmp2Idx, counter, above, pending :=
        ExpandNext(reader, tmp1, tmp2, tmp3, out, tmp2Idx, counter, outputPos, fields, g, symbols, above, done);
      done := done + [out[outputPos]];
      outputPos := outputPos + 1;
    }
    assert done + [] == done;
  }

  /** Nothing is on the stack: pending are the counted symbols, and nothing when none is left. */
  lemma {:induction false} StartAndEnd(g: Grammar, stack: seq<byte>, symbols: seq<nat>)
    requires g.Acyclic() && stack == [] && Symbols(g, symbols)
    ensures OnStack(g, stack, []) && symbols[0..] == symbols
    ensures g.Yields(symbols) == g.StackYield(stack) + g.Yields(symbols[0..])
    ensures g.StackYield(stack) + g.Yields(symbols[|symbols|..]) == []
  {
    assert [] + g.Yields(symbols) == g.Yields(symbols);
  }

  /** The body of the loop: one byte of what is pending is written. */
  method ExpandNext(reader: WordReader, tmp1: array<byte>, tmp2: array<byte>, tmp3: array<byte>, out: array<byte>,
      size: nat, counter: nat, outputPos: nat, ghost fields: seq<nat>, ghost g: Grammar, ghost symbols: seq<nat>,
      ghost owners: seq<nat>, ghost done: seq<byte>)
      returns (top: nat, left: nat, ghost above: seq<nat>, ghost pending: seq<byte>)
    requires Feeds(reader, fields) && tmp3 != tmp1 && tmp3 != tmp2 && tmp3.Length == 256
    requires Tables(tmp1[..], tmp2[..], g)
    requires out != tmp1 && out != tmp2 && out != tmp3 && Symbols(g, symbols)
    requires size <= 256 && OnStack(g, tmp3[..size], owners) && counter <= |symbols| && (size > 0 || counter > 0)
    requires Ahead(fields, reader.k, symbols[|symbols| - counter..])
    requires Written(out[..], done) && outputPos == |done| < out.Length
    modifies reader, tmp3, out
    ensures Feeds(reader, fields) && top <= 256 && OnStack(g, tmp3[..top], above) && left <= counter
    ensures Ahead(fields, reader.k, symbols[|symbols| - left..]) && reader.k + left == old(reader.k) + counter
    ensures pending == g.StackYield(tmp3[..top]) + g.Yields(symbols[|symbols| - left..])
    ensures Written(out[..], done + [out[outputPos]])
    ensures done + (old(g.StackYield(tmp3[..size])) + g.Yields(symbols[|symbols| - counter..]))
         == (done + [out[outputPos]]) + pending
    ensures |pending| < |old(g.StackYield(tmp3[..size])) + g.Yields(symbols[|symbols| - counter..])|
  {
    var b;
    b, top, left, above := NextByte(reader, tmp1, tmp2, tmp3, size, counter, fields, g, symbols, owners);
    pending := g.StackYield(tmp3[..top]) + g.Yields(symbols[|symbols| - left..]);
    WriteByte(out, outputPos, b, done);
    assert out[outputPos] == (done + [b])[outputPos] == b;
    AppendAssociates(done, [b], pending);
  }

  /** A block: the pieces of its table, the grammar that the table is, and its symbols. */
  datatype Block = Block(pieces: seq<Piece>, g: Grammar, symbols: seq<nat>) {
    /** The table is the grammar's, and the counts fit their fields. */
    predicate Fits(size: nat) {
      && PiecesFit(0, pieces, size) && g.Acyclic() && |g.left| == |Entries(pieces)| == size
      && (forall p :: 0 <= p < size ==>
            var e := Entries(pieces)[p];
            g.left[p] == LeftOf(p, e) && (e.Pair? ==> g.right[p] == e.r))
      && Symbols(g, symbols) && |symbols| < size * size
    }

    function Fields(size: nat): seq<nat>
      requires size >= 2
    {
      TableFields(0, pieces, size / 2) + ([|symbols| / size, |symbols| % size] + symbols)
    }
  }

  lemma {:induction false} LoadedIsGrammar(tmp1: seq<byte>, tmp2: seq<byte>, block: Block, size: nat)
    requires block.Fits(size) && Loaded(tmp1, tmp2, Entries(block.pieces))
    ensures Tables(tmp1, tmp2, block.g)
  {
  }

  /** The count of a block's symbols: the high part, then the low part. */
  method ReadCount(reader: WordReader, size: nat, ghost fields: seq<nat>, ghost high: nat, ghost low: nat)
      returns (counter: nat)
    requires Feeds(reader, fields) && Ahead(fields, reader.k, [high, low])
    modifies reader
    ensures Feeds(reader, fields) && reader.k == old(reader.k) + 2 && counter == Count(high, low, size)
  {
    AheadAt(fields, reader.k, [high, low], 0);
    AheadAt(fields, reader.k, [high, low], 1);
    var first := NextField(reader, fields);
    var second := NextField(reader, fields);
    counter := Count(first, second, size);
  }

  /** The count that its two parts stand for. */
  function Count(high: nat, low: nat, size: nat): nat {
    high * size + low
  }

  lemma {:induction false} CountOfParts(n: nat, size: nat)
    requires size > 0
    ensures n / size >= 0 && Count(n / size, n % size, size) == n
  {
  }

  /** A whole block: its table, and the yields of its symbols. */
  method DecodeBlock(reader: WordReader, tmp1: array<byte>, tmp2: array<byte>, tmp3: array<byte>, out: array<byte>,
      start: nat, size: nat, ghost fields: seq<nat>, ghost block: Block, ghost before: seq<byte>)
      returns (outputPos: nat)
    requires Feeds(reader, fields) && 2 <= size <= 256 && block.Fits(size)
    requires tmp1 != tmp2 && tmp3 != tmp1 && tmp3 != tmp2 && tmp1.Length == tmp2.Length == tmp3.Length == 256
    requires out != tmp1 && out != tmp2 && out != tmp3 && Ahead(fields, reader.k, block.Fields(size))
    requires Written(out[..], before) && start == |before| && start + |block.g.Yields(block.symbols)| <= out.Length
    modifies reader, tmp1, tmp2, tmp3, out
    ensures Feeds(reader, fields) && reader.k == old(reader.k) + |block.Fields(size)|
    ensures Written(out[..], before + block.g.Yields(block.symbols))
    ensures outputPos == start + |block.g.Yields(block.symbols)|
  {
    hide Feeds, PieceFits, Symbols, TableFields;
    ghost var high, low := |block.symbols| / size, |block.symbols| % size;
    CountOfParts(|block.symbols|, size);
    AheadSplits(fields, reader.k, TableFields(0, block.pieces, size / 2), [high, low] + block.symbols);
    AheadSplits(fields, reader.k + |TableFields(0, block.pieces, size / 2)|, [high, low], block.symbols);
    LoadTable(reader, tmp1, tmp2, size, fields, block.pieces);
    LoadedIsGrammar(tmp1[..], tmp2[..], block, size);
    var counter := ReadCount(reader, size, fields, high, low);
    outputPos := ExpandSymbols(reader, tmp1, tmp2, tmp3, out, start, counter, fields, block.g, block.symbols, before);
  }

  predicate BlocksFit(blocks: seq<Block>, size: nat) {
    forall i :: 0 <= i < |blocks| ==> blocks[i].Fits(size)
  }

  function BlocksFields(blocks: seq<Block>, size: nat): seq<nat>
    requires size >= 2
  {
    if blocks == [] then [] else blocks[0].Fields(size) + BlocksFields(blocks[1..], size)
  }

  /** What some blocks stand for: the yields of all their symbols. */
  function Output(blocks: seq<Block>, size: nat): seq<byte>
    requires BlocksFit(blocks, size)
  {
    if blocks == [] then [] else blocks[0].g.Yields(blocks[0].symbols) + Output(blocks[1..], size)
  }

  /** The input ends after the last block and not before, as far as the decoder has read ahead by then. */
  predicate Placed(blocks: seq<Block>, k: nat, n: nat, size: nat, inputSize: nat)
    requires n <= 8 && size >= 2
    decreases |blocks|
  {
    if blocks == [] then WordBytesRead(n, k) >= inputSize
    else
      && WordBytesRead(n, k) < inputSize
      && Placed(blocks[1..], k + |blocks[0].Fields(size)|, n, size, inputSize)
  }

  lemma {:induction false} PlacedNext(blocks: seq<Block>, k: nat, n: nat, size: nat, inputSize: nat)
    requires n <= 8 && size >= 2 && Placed(blocks, k, n, size, inputSize) && WordBytesRead(n, k) < inputSize
    ensures blocks != [] && Placed(blocks[1..], k + |blocks[0].Fields(size)|, n, size, inputSize)
  {
  }

  lemma {:induction false} PosIs(reader: WordReader)
    requires reader.Valid()
    ensures reader.pos == reader.start + WordBytesRead(reader.n, reader.k)
  {
  }

  /** The next of some blocks. */
  method DecodeNextBlock(reader: WordReader, tmp1: array<byte>, tmp2: array<byte>, tmp3: array<byte>, out: array<byte>,
      start: nat, size: nat, ghost fields: seq<nat>, ghost left: seq<Block>, ghost before: seq<byte>)
      returns (outputPos: nat, ghost done: seq<byte>)
    requires Feeds(reader, fields) && 2 <= size <= 256 && left != [] && BlocksFit(left, size)
    requires tmp1 != tmp2 && tmp3 != tmp1 && tmp3 != tmp2 && tmp1.Length == tmp2.Length == tmp3.Length == 256
    requires out != tmp1 && out != tmp2 && out != tmp3 && Ahead(fields, reader.k, BlocksFields(left, size))
    requires Written(out[..], before) && start == |before| && |before + Output(left, size)| <= out.Length
    modifies reader, tmp1, tmp2, tmp3, out
    ensures Feeds(reader, fields) && reader.k == old(reader.k) + |left[0].Fields(size)|
    ensures Ahead(fields, reader.k, BlocksFields(left[1..], size))
    ensures done + Output(left[1..], size) == before + Output(left, size) && Written(out[..], done)
    ensures outputPos == |done|
  {
    ghost var block, rest := left[0], left[1..];
    done := before + block.g.Yields(block.symbols);
    AheadSplits(fields, reader.k, block.Fields(size), BlocksFields(rest, size));
    AppendAssociates(before, block.g.Yields(block.symbols), Output(rest, size));
    outputPos := DecodeBlock(reader, tmp1, tmp2, tmp3, out, start, size, fields, block, before);
  }

  /** One turn of the loop over the blocks. */
  method DecodeTurn(reader: WordReader, tmp1: array<byte>, tmp2: array<byte>, tmp3: array<byte>, out: array<byte>,
      start: nat, size: nat, inputSize: nat, ghost fields: seq<nat>, ghost left: seq<Block>, ghost before: seq<byte>)
      returns (outputPos: nat, ghost done: seq<byte>, ghost rest: seq<Block>)
    requires Feeds(reader, fields) && 2 <= size <= 256 && BlocksFit(left, size)
    requires Placed(left, reader.k, reader.n, size, inputSize) && reader.pos < reader.start + inputSize
    requires tmp1 != tmp2 && tmp3 != tmp1 && tmp3 != tmp2 && tmp1.Length == tmp2.Length == tmp3.Length == 256
    requires out != tmp1 && out != tmp2 && out != tmp3 && Ahead(fields, reader.k, BlocksFields(left, size))
    requires Written(out[..], before) && start == |before| && |before + Output(left, size)| <= out.Length
    modifies reader, tmp1, tmp2, tmp3, out
    ensures Feeds(reader, fields) && |rest| < |left| && BlocksFit(rest, size)
    ensures Placed(rest, reader.k, reader.n, size, inputSize)
    ensures Ahead(fields, reader.k, BlocksFields(rest, size))
    ensures done + Output(rest, size) == before + Output(left, size) && Written(out[..], done) && outputPos == |done|
  {
    hide Output, Placed, Stored, TableFields, WordBitsLeft, WordBytesRead;
    PosIs(reader);
    PlacedNext(left, reader.k, reader.n, size, inputSize);
    rest := left[1..];
    ghost var next := reader.k + |left[0].Fields(size)|;
    outputPos, done := DecodeNextBlock(reader, tmp1, tmp2, tmp3, out, start, size, fields, left, before);
    assert reader.k == next;
  }

  /** The loop over the blocks. */
  method DecodeBlocks(reader: WordReader, out: array<byte>, size: nat, inputSize: nat, ghost fields: seq<nat>,
      ghost blocks: seq<Block>)
    requires Feeds(reader, fields) && reader.k == 0 && 2 <= size <= 256 && BlocksFit(blocks, size)
    requires fields == BlocksFields(blocks, size) && Placed(blocks, 0, reader.n, size, inputSize)
    requires Written(out[..], []) && |Output(blocks, size)| <= out.Length
    modifies reader, out
    ensures Written(out[..], Output(blocks, size))
  {
    hide BlocksFit, WordBytesRead, Written;
    var tmp1, tmp2, tmp3 := new byte[256](_ => 0), new byte[256](_ => 0), new byte[256](_ => 0);
    var outputPos := 0;
    ghost var left, done, total := blocks, [], Output(blocks, size);
    assert Ahead(fields, 0, fields) && [] + total == total;
    while reader.pos < reader.start + inputSize
      invariant Feeds(reader, fields) && BlocksFit(left, size)
      invariant Placed(left, reader.k, reader.n, size, inputSize)
      invariant Ahead(fields, reader.k, BlocksFields(left, size))
      invariant done + Output(left, size) == total && Written(out[..], done) && outputPos == |done|
      decreases |left|
    {
      outputPos, done, left :=
        DecodeTurn(reader, tmp1, tmp2, tmp3, out, outputPos, size, inputSize, fields, left, done);
    }
    PosIs(reader);
    assert left == [] && done + [] == done;
  }

  /**
   Decompress, with symbols of n bits: for any blocks whose tables have no cycles, the output is the
   concatenated yields of their symbols, and zeros after it.
   */
  method Decompress(n: nat, data: seq<byte>, start: nat, finalW: nat, h: nat, dataSize: nat, ghost blocks: seq<Block>)
      returns (image: seq<byte>)
    requires n == 6 || n == 8
    requires var size := Pow2(n);
      && 2 <= size <= 256 && start <= |data| && BlocksFit(blocks, size)
      && Stored(data, start, n, BlocksFields(blocks, size)) && LongEnough(n, data, start, |BlocksFields(blocks, size)|)
      && Placed(blocks, 0, n, size, n * dataSize / 8) && |Output(blocks, size)| <= finalW * h * 2
    ensures |image| == finalW * h * 2 && Written(image, Output(blocks, Pow2(n)))
  {
    hide Output, BlocksFields;
    var length: nat := finalW * h * 2;
    var out := new byte[length](_ => 0);
    var reader := new WordReader(n, data, start);
    DecodeBlocks(reader, out, Pow2(n), n * dataSize / 8, BlocksFields(blocks, Pow2(n)), blocks);
    image := out[..];
  }

  // ---------- every table can be written ----------

  /** Entries that can be told apart: no pair begins with its own place. */
  predicate Plain(entries: seq<Entry>) {
    forall i :: 0 <= i < |entries| && entries[i].Pair? ==> entries[i].l != i
  }

  /** Any table of an even size can be written, as two pieces. */
  lemma {:induction false} EveryTableHasPieces(entries: seq<Entry>)
    requires Plain(entries) && |entries| % 2 == 0 && |entries| > 0
    ensures var h := |entries| / 2;
      var pieces := [Piece(0, entries[..h]), Piece(0, entries[h..])];
      PiecesFit(0, pieces, |entries|) && Entries(pieces) == entries
  {
    var h := |entries| / 2;
    var a, b := Piece(0, entries[..h]), Piece(0, entries[h..]);
    TwoPieces(a, b);
    assert entries == a.entries + b.entries;
  }

  lemma {:induction false} TwoPieces(a: Piece, b: Piece)
    requires a.skip == b.skip == 0
    ensures Entries([a, b]) == a.entries + b.entries
  {
    var pieces := [a, b];
    assert Owns(0) + a.entries == a.entries && Owns(0) + b.entries == b.entries;
    assert pieces[1..] == [b] && [b][1..] == [];
    assert Entries([b]) == b.entries + [] == b.entries;
  }

  /** Pairs of symbols of the table that can be told apart from single symbols. */
  predicate InTable(entries: seq<Entry>) {
    && |entries| <= 256 && Plain(entries)
    && forall i :: 0 <= i < |entries| && entries[i].Pair? ==> entries[i].l < |entries| && entries[i].r < |entries|
  }

  function TableOf(entries: seq<Entry>): (t: Table)
    requires InTable(entries)
    ensures t.Closed() && |t.left| == |entries|
  {
    Table(seq(|entries|, p requires 0 <= p < |entries| => LeftOf(p, entries[p]) as byte),
          seq(|entries|, p requires 0 <= p < |entries| => (if entries[p].Pair? then entries[p].r else 0) as byte))
  }

  /**
   A table and counted symbols make a block, as the decoder is proved for, exactly when expanding the counted
   symbols meets no cycle; the rest of the table may have cycles.
   */
  lemma {:induction false} BlockIffNoCycle(pieces: seq<Piece>, symbols: seq<nat>, size: nat)
    requires PiecesFit(0, pieces, size) && |Entries(pieces)| == size && InTable(Entries(pieces))
    requires |symbols| < size * size && forall i :: 0 <= i < |symbols| ==> symbols[i] < size
    ensures TableOf(Entries(pieces)).NoCycle(set s | s in symbols)
      <==> exists g: Grammar :: Block(pieces, g, symbols).Fits(size)
  {
    var entries := Entries(pieces);
    var table, starts := TableOf(entries), set s | s in symbols;
    table.RankedIffNoCycle(starts);
    forall g: Grammar | table.IsOf(g) && starts <= g.used && g.Acyclic()
      ensures Block(pieces, g, symbols).Fits(size)
    {
      assert forall i :: 0 <= i < |symbols| ==> symbols[i] in starts;
    }
    forall g: Grammar | Block(pieces, g, symbols).Fits(size)
      ensures table.IsOf(g) && starts <= g.used
    {
      forall p | 0 <= p < size
        ensures g.left[p] == table.left[p] && (table.left[p] != p ==> g.right[p] == table.right[p])
      {
      }
    }
  }
}
