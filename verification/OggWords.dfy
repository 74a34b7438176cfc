/** Whole runs of the bit packer: what is written is read back, at every alignment and in either bit order. */
module OggWords {
  import opened Bytes
  import opened Sequences
  import opened PowersOfTwo
  import opened BitFields
  import opened OggPackMathB
  import opened OggPack

  /** A value, and how many of its low bits are written. */
  datatype Word = Word(value: nat, bits: nat) {
    function Kept(): (v: nat)
      ensures v < Pow2(bits)
    {
      Mask(value, bits)
    }
  }

  /** The number of bits that some words take. */
  function Length(words: seq<Word>): nat {
    if words == [] then 0 else Length(words[..|words| - 1]) + words[|words| - 1].bits
  }

  /** Some words as one number, the first in the low bits. */
  function Packed(words: seq<Word>): nat {
    if words == [] then 0
    else Packed(words[..|words| - 1]) + Shl(words[|words| - 1].Kept(), Length(words[..|words| - 1]))
  }

  /** Some words as one number, the first in the high bits. */
  function PackedB(words: seq<Word>): nat {
    if words == [] then 0
    else Shl(PackedB(words[..|words| - 1]), words[|words| - 1].bits) + words[|words| - 1].Kept()
  }

  lemma {:induction false} PackedBelow(words: seq<Word>)
    ensures Packed(words) < Pow2(Length(words))
  {
    if words != [] {
      var before, w := words[..|words| - 1], words[|words| - 1];
      PackedBelow(before);
      SumBelow(Packed(before), w.Kept(), Length(before), w.bits);
    }
  }

  lemma {:induction false} LengthSplits(words: seq<Word>, i: nat)
    requires i < |words|
    ensures Length(words[..i + 1]) == Length(words[..i]) + words[i].bits <= Length(words)
    decreases |words|
  {
    assert words[..i + 1][..i] == words[..i];
    if i < |words| - 1 {
      var before := words[..|words| - 1];
      LengthSplits(before, i);
      assert before[..i + 1] == words[..i + 1];
    } else {
      assert words[..i + 1] == words;
    }
  }

  /** Each word is in its place in the number. */
  lemma {:induction false} WordInPacked(words: seq<Word>, i: nat)
    requires i < |words|
    ensures Mask(Shr(Packed(words), Length(words[..i])), words[i].bits) == words[i].Kept()
    decreases |words|
  {
    hide Length, Pow2, Shl;
    var before, w := words[..|words| - 1], words[|words| - 1];
    var p, at := Packed(before), Length(words[..i]);
    if i == |words| - 1 {
      PackedBelow(before);
      DropLow(p, w.Kept(), at, 0);
      ShrSmall(w.Kept(), w.bits);
    } else {
      assert before[..i] == words[..i];
      LengthSplits(before, i);
      DropHigh(p, w.Kept(), at, words[i].bits, Length(before) - at - words[i].bits);
      WordInPacked(before, i);
    }
  }

  lemma {:induction false} WordInPackedB(words: seq<Word>, i: nat)
    requires i < |words|
    ensures Length(words[..i + 1]) <= Length(words)
    ensures Mask(Shr(PackedB(words), Length(words) - Length(words[..i + 1])), words[i].bits) == words[i].Kept()
    decreases |words|
  {
    hide Mask, Pow2, Shl;
    var before, w := words[..|words| - 1], words[|words| - 1];
    LengthSplits(words, i);
    if i == |words| - 1 {
      assert words[..i + 1] == words;
      MaskSum(w.Kept(), PackedB(before), w.bits, 0);
      ShrSmall(w.Kept(), w.bits);
    } else {
      assert before[..i + 1] == words[..i + 1];
      LengthSplits(before, i);
      DropLow(w.Kept(), PackedB(before), w.bits, Length(before) - Length(words[..i + 1]));
      WordInPackedB(before, i);
    }
  }

  // ---------- reading ----------

  /** What a run of reads of given widths returns, from bit p on. */
  function Reads(data: seq<byte>, p: nat, widths: seq<nat>, msb: bool): (values: seq<int>)
    ensures |values| == |widths|
    decreases |widths|
  {
    if widths == [] then []
    else if widths[0] > 32 || p + widths[0] > 8 * |data| then [-1] + Reads(data, 8 * |data| + 1, widths[1..], msb)
    else
      [if msb then FieldB(data, p, widths[0]) else Field(data, p, widths[0])]
      + Reads(data, p + widths[0], widths[1..], msb)
  }

  /** Past the end of the buffer every read returns -1. */
  lemma {:induction false} NothingPastTheEnd(data: seq<byte>, p: nat, widths: seq<nat>, msb: bool, j: nat)
    requires p > 8 * |data| && j < |widths|
    ensures Reads(data, p, widths, msb)[j] == -1
    decreases |widths|
  {
    if j > 0 {
      NothingPastTheEnd(data, 8 * |data| + 1, widths[1..], msb, j - 1);
    }
  }

  /** Once a read has returned -1, every later read does. */
  lemma {:induction false} OverflowIsSticky(data: seq<byte>, p: nat, widths: seq<nat>, msb: bool, i: nat, j: nat)
    requires i <= j < |widths| && Reads(data, p, widths, msb)[i] == -1
    ensures Reads(data, p, widths, msb)[j] == -1
    decreases |widths|
  {
    if widths[0] > 32 || p + widths[0] > 8 * |data| {
      if j > 0 {
        NothingPastTheEnd(data, 8 * |data| + 1, widths[1..], msb, j - 1);
      }
    } else {
      OverflowIsSticky(data, p + widths[0], widths[1..], msb, i - 1, j - 1);
    }
  }

  /** A buffer holds the words, in low-bits-first or high-bits-first order. */
  predicate HoldsWords(data: seq<byte>, words: seq<Word>, msb: bool) {
    && Length(words) <= 8 * |data|
    && if msb then FromBE(data) == Shl(PackedB(words), 8 * |data| - Length(words)) else FromLE(data) == Packed(words)
  }

  lemma {:induction false} WordIsField(data: seq<byte>, words: seq<Word>, msb: bool, i: nat)
    requires HoldsWords(data, words, msb) && i < |words|
    ensures Length(words[..i]) + words[i].bits <= 8 * |data|
    ensures words[i].Kept() == if msb then FieldB(data, Length(words[..i]), words[i].bits)
                               else Field(data, Length(words[..i]), words[i].bits)
  {
    hide Pow2, Shl, Shr;
    LengthSplits(words, i);
    if msb {
      WordInPackedB(words, i);
      DropLow(0, PackedB(words), 8 * |data| - Length(words), Length(words) - Length(words[..i + 1]));
    } else {
      WordInPacked(words, i);
    }
  }

  function Widths(words: seq<Word>): (w: seq<nat>)
    ensures |w| == |words| && forall i :: 0 <= i < |words| ==> w[i] == words[i].bits
  {
    seq(|words|, i requires 0 <= i < |words| => words[i].bits)
  }

  /** Reading the words that a buffer holds, with the widths they were written with. */
  lemma {:induction false} ReadsGiveWords(data: seq<byte>, words: seq<Word>, msb: bool, k: nat, i: nat)
    requires HoldsWords(data, words, msb) && k <= i < |words| && forall j :: 0 <= j < |words| ==> words[j].bits <= 32
    ensures Reads(data, Length(words[..k]), Widths(words)[k..], msb)[i - k] == words[i].Kept()
    decreases |words| - k
  {
    hide Field, HoldsWords, Length;
    WordIsField(data, words, msb, k);
    if k < i {
      LengthSplits(words, k);
      assert Widths(words)[k..][1..] == Widths(words)[k + 1..];
      ReadsGiveWords(data, words, msb, k + 1, i);
    }
  }

  // ---------- runs of the packer ----------

  predicate Writable(words: seq<Word>) {
    forall i :: 0 <= i < |words| ==> words[i].bits <= 32
  }

  method WriteAll(b: PackBuffer, words: seq<Word>)
    requires b.Writing() && b.Position() == 0 && b.Number() == 0 && Writable(words)
    modifies b
    ensures b.Writing() && b.Position() == Length(words) && b.Number() == Packed(words)
  {
    for i := 0 to |words|
      invariant b.Writing() && b.Position() == Length(words[..i]) && b.Number() == Packed(words[..i])
    {
      assert words[..i + 1][..i] == words[..i];
      b.Write(words[i].value, words[i].bits);
    }
    assert words[..|words|] == words;
  }

  method WriteAllB(b: PackBuffer, words: seq<Word>)
    requires b.WritingB() && b.Position() == 0 && b.NumberB() == 0 && Writable(words)
    modifies b
    ensures b.WritingB() && b.Position() == Length(words) && b.NumberB() == PackedB(words)
  {
    for i := 0 to |words|
      invariant b.WritingB() && b.Position() == Length(words[..i]) && b.NumberB() == PackedB(words[..i])
    {
      assert words[..i + 1][..i] == words[..i];
      b.WriteB(words[i].value, words[i].bits);
    }
    assert words[..|words|] == words;
  }

  method ReadAll(data: seq<byte>, widths: seq<nat>, msb: bool) returns (values: seq<int>)
    ensures values == Reads(data, 0, widths, msb)
  {
    var r := new PackBuffer.ReadInit(data);
    values := [];
    ghost var rest, total := Reads(data, 0, widths, msb), Reads(data, 0, widths, msb);
    assert widths[0..] == widths;
    for i := 0 to |widths|
      invariant r.Reading() && r.buffer == data && |values| == i
      invariant rest == Reads(data, r.Position(), widths[i..], msb) && values + rest == total
    {
      var v := ReadOne(r, widths[i..], msb);
      rest := Reads(data, r.Position(), widths[i..][1..], msb);
      AppendAssociates(values, [v], rest);
      values := values + [v];
      assert widths[i..][1..] == widths[i + 1..];
    }
  }

  /** One read, in either bit order. */
  method ReadOne(r: PackBuffer, widths: seq<nat>, msb: bool) returns (v: int)
    requires r.Reading() && widths != []
    modifies r
    ensures r.Reading() && r.buffer == old(r.buffer)
    ensures Reads(r.buffer, old(r.Position()), widths, msb) == [v] + Reads(r.buffer, r.Position(), widths[1..], msb)
  {
    ghost var p := r.Position();
    if msb {
      v := r.ReadB(widths[0]);
    } else {
      v := r.Read(widths[0]);
    }
    ReadsFrom(r.buffer, p, widths, msb, v, r.Position());
  }

  lemma {:induction false} ReadsFrom(data: seq<byte>, p: nat, widths: seq<nat>, msb: bool, v: int, p': nat)
    requires widths != []
    requires if widths[0] > 32 || p + widths[0] > 8 * |data| then v == -1 && p' == 8 * |data| + 1
             else p' == p + widths[0] && v == if msb then FieldB(data, p, widths[0]) else Field(data, p, widths[0])
    ensures Reads(data, p, widths, msb) == [v] + Reads(data, p', widths[1..], msb)
  {
  }

  /** The bytes that a writer hands over hold the words written. */
  lemma {:induction false} FinishedBytes(buffer: seq<byte>, endbyte: nat, endbit: nat, words: seq<Word>)
    requires endbit < 8 && endbyte < |buffer| && buffer[endbyte] < Pow2(endbit) && 8 * endbyte + endbit == Length(words)
    requires FromLE(buffer[..endbyte + 1]) == Packed(words)
    ensures HoldsWords(buffer[..endbyte + (endbit + 7) / 8], words, false)
  {
    if endbit == 0 {
      assert buffer[..endbyte + 1] == buffer[..endbyte] + [0];
      FromLEConcat(buffer[..endbyte], [0]);
      FromLEOne(0);
      ShlZero(8 * endbyte);
    }
  }

  lemma {:induction false} FinishedBytesB(buffer: seq<byte>, endbyte: nat, endbit: nat, words: seq<Word>)
    requires endbit < 8 && endbyte < |buffer| && Mask(buffer[endbyte], 8 - endbit) == 0
    requires 8 * endbyte + endbit == Length(words)
    requires NumberOf(buffer[..endbyte], buffer[endbyte], endbit) == PackedB(words)
    ensures HoldsWords(buffer[..endbyte + (endbit + 7) / 8], words, true)
  {
    hide PackedB, Pow256, Shr;
    var low, p := buffer[..endbyte], buffer[endbyte];
    if endbit == 0 {
      TopBitsFit(p, 0);
    } else {
      assert buffer[..endbyte + 1] == low + [p];
      assert (low + [p])[..endbyte] == low;
      Splits(p, 8 - endbit);
      ShlTwice(FromBE(low), endbit, 8 - endbit);
      ShlSum(Shl(FromBE(low), endbit), Shr(p, 8 - endbit), 8 - endbit);
      Shl8(FromBE(low), 0);
    }
  }

  /**
   The packing round trip: any words of up to 32 bits, written and then read with the same widths,
   come back in order, each modulo two to its width.
   */
  method PackAndUnpack(words: seq<Word>, msb: bool) returns (values: seq<int>)
    requires Writable(words)
    ensures |values| == |words| && forall i :: 0 <= i < |words| ==> values[i] == words[i].Kept()
  {
    hide FromLE, Mask, NumberOf, Pow2, Pow256, Reads, Shl, Widths;
    var b := new PackBuffer.WriteInit();
    if msb {
      WriteAllB(b, words);
      FinishedBytesB(b.buffer, b.endbyte, b.endbit, words);
    } else {
      WriteAll(b, words);
      FinishedBytes(b.buffer, b.endbyte, b.endbit, words);
    }
    var data := b.buffer[..b.ByteCount()];
    values := ReadAll(data, Widths(words), msb);
    forall i | 0 <= i < |words|
      ensures values[i] == words[i].Kept()
    {
      ReadsGiveWords(data, words, msb, 0, i);
      assert Widths(words)[0..] == Widths(words) && words[..0] == [];
    }
  }

  /** Looking and then moving on is reading. */
  method LookThenAdvance(b: PackBuffer, bits: nat) returns (looked: int)
    requires b.Reading() && bits <= 32
    modifies b
    ensures b.buffer == old(b.buffer) && b.Reading()
    ensures if old(b.Position()) + bits > 8 * |b.buffer| then looked == -1 && b.Overflowed()
            else
              && looked == Field(b.buffer, old(b.Position()), bits)
              && b.ptr && b.Position() == old(b.Position()) + bits
  {
    looked := b.Look(bits);
    b.Adv(bits);
  }

  /** The same, high bits first. */
  method LookThenAdvanceB(b: PackBuffer, bits: nat) returns (looked: int)
    requires b.Reading() && bits <= 32
    modifies b
    ensures b.buffer == old(b.buffer) && b.Reading()
    ensures if old(b.Position()) + bits > 8 * |b.buffer| then looked == -1 && b.Overflowed()
            else
              && looked == FieldB(b.buffer, old(b.Position()), bits)
              && b.ptr && b.Position() == old(b.Position()) + bits
  {
    looked := b.LookB(bits);
    b.Adv(bits);
  }
}
