/** The bit windows of the sprite decoders: each returns consecutive fields of the little-endian bit stream. */
module BitWindows {
  import opened Bytes
  import opened PowersOfTwo
  import opened BitFields

  // ---------- six bits at a time, from 32-bit and 16-bit words in turn ----------

  /** The bits left in the register after k fields. */
  function SixBitsLeft(k: nat): (c: nat)
    ensures c == 0 || c == 6 || c == 12 || c == 14 || c == 18 || c == 20 || c == 24 || c == 26
  {
    if k == 0 then 0
    else
      var c := SixBitsLeft(k - 1);
      (if c == 0 then 32 else if c == 14 then 30 else c) - 6
  }

  /** The bytes read for k fields. */
  function SixBitsRead(k: nat): (n: nat)
    ensures 8 * n == 6 * k + SixBitsLeft(k)
  {
    if k == 0 then 0
    else
      var c := SixBitsLeft(k - 1);
      SixBitsRead(k - 1) + if c == 0 then 4 else if c == 14 then 2 else 0
  }

  class SixBitReader {
    const data: seq<byte>
    const start: nat
    var pos: nat
    var counter: nat
    var register: nat
    ghost var k: nat

    /** The register holds the bits that were read and not returned. */
    ghost predicate Valid()
      reads this
    {
      && counter == SixBitsLeft(k) && pos == start + SixBitsRead(k) <= |data|
      && register == Field(data, 8 * start + 6 * k, counter)
    }

    constructor (data: seq<byte>, start: nat)
      requires start <= |data|
      ensures Valid() && k == 0 && this.data == data && this.start == start
    {
      this.data, this.start := data, start;
      pos, counter, register, k := start, 0, 0, 0;
    }

    /** ReadNextSource and NextBits: fill up the register when it is empty or down to 14 bits. */
    method ReadNextSource()
      requires Valid() && start + SixBitsRead(k + 1) <= |data|
      modifies this`pos, this`counter, this`register
      ensures counter == SixBitsLeft(k + 1) && pos == start + SixBitsRead(k + 1)
      ensures register == Field(data, 8 * start + 6 * k, 6 + counter)
    {
      hide FromLE, Mask, Pow2, Shr, SixBitsLeft;
      if counter != 0 {
        if counter == 14 {
          AddShort(8 * start + 6 * k);
        }
      } else {
        ReadLong();
      }
      counter := counter - 6;
    }

    method AddShort(ghost p: nat)
      requires counter == 14 && 8 * pos == p + counter && register == Field(data, p, counter) && pos + 2 <= |data|
      modifies this`pos, this`counter, this`register
      ensures pos == old(pos) + 2 && counter == 30 && register == Field(data, p, counter)
    {
      hide *;
      RefilledRegister(data, pos, p, counter, register, 2);
      register := Or(register, Shl(FromLE(data[pos..pos + 2]), counter));
      counter := 30;
      pos := pos + 2;
    }

    method ReadLong()
      requires pos + 4 <= |data|
      modifies this`pos, this`counter, this`register
      ensures pos == old(pos) + 4 && counter == 32 && register == Field(data, 8 * old(pos), counter)
    {
      WholeBytes(data, pos, 4);
      register := FromLE(data[pos..pos + 4]);
      counter := 32;
      pos := pos + 4;
    }

    /** The next field. */
    method Next() returns (v: nat)
      requires Valid() && start + SixBitsRead(k + 1) <= |data|
      modifies this
      ensures Valid() && k == old(k) + 1 && v == Field(data, 8 * start + 6 * old(k), 6)
    {
      hide Mask, Pow2, Shr, SixBitsLeft, SixBitsRead;
      ReadNextSource();
      TakeLow(data, 8 * start + 6 * k, 6, counter);
      v := Mask(register, 6);
      register := Shr(register, 6);
      k := k + 1;
    }
  }

  // ---------- six or eight bits at a time, from 16-bit words ----------

  /** The bits left in the register after k fields of n bits. */
  function WordBitsLeft(n: nat, k: nat): (c: nat)
    requires n <= 8
    ensures c <= 31 - n
  {
    if k == 0 then 0
    else
      var c := WordBitsLeft(n, k - 1);
      (if c < 16 then c + 16 else c) - n
  }

  /** The bytes read for k fields of n bits. */
  function WordBytesRead(n: nat, k: nat): nat
    requires n <= 8
  {
    (n * k + WordBitsLeft(n, k)) / 8
  }

  class WordReader {
    const n: nat
    const data: seq<byte>
    const start: nat
    var pos: nat
    var bitCounter: nat
    var workBits: nat
    ghost var k: nat

    ghost predicate Valid()
      reads this
    {
      && 0 < n <= 8 && bitCounter == WordBitsLeft(n, k) && start <= pos <= |data|
      && 8 * (pos - start) == n * k + bitCounter
      && workBits == Field(data, 8 * start + n * k, bitCounter)
    }

    constructor (n: nat, data: seq<byte>, start: nat)
      requires 0 < n <= 8 && start <= |data|
      ensures Valid() && k == 0 && this.data == data && this.start == start && this.n == n
    {
      this.n, this.data, this.start := n, data, start;
      pos, bitCounter, workBits, k := start, 0, 0, 0;
    }

    /** NextBits. */
    method Next() returns (v: nat)
      requires Valid() && start + WordBytesRead(n, k + 1) <= |data|
      modifies this
      ensures Valid() && k == old(k) + 1 && v == Field(data, 8 * start + n * old(k), n)
    {
      hide Field, Mask, Pow2, Shr;
      ghost var p := 8 * start + n * k;
      assert n * (k + 1) == n * k + n;
      FillUp(p);
      bitCounter := bitCounter - n;
      TakeLow(data, p, n, bitCounter);
      v := Mask(workBits, n);
      workBits := Shr(workBits, n);
      k := k + 1;
    }

    /** The part of NextBits that reads a word when fewer than 16 bits are left. */
    method FillUp(ghost p: nat)
      requires 8 * pos == p + bitCounter && workBits == Field(data, p, bitCounter)
      requires bitCounter < 16 ==> pos + 2 <= |data|
      modifies this`pos, this`bitCounter, this`workBits
      ensures bitCounter == (if old(bitCounter) < 16 then old(bitCounter) + 16 else old(bitCounter))
      ensures 8 * pos == p + bitCounter && workBits == Field(data, p, bitCounter)
      ensures pos == old(pos) + if old(bitCounter) < 16 then 2 else 0
    {
      if bitCounter < 16 {
        RefilledRegister(data, pos, p, bitCounter, workBits, 2);
        workBits := Or(workBits, Shl(FromLE(data[pos..pos + 2]), bitCounter));
        pos := pos + 2;
        bitCounter := bitCounter + 16;
      }
    }
  }

  /** A register of c bits is filled up with m bytes. */
  lemma {:induction false} RefilledRegister(data: seq<byte>, pos: nat, p: nat, c: nat, register: nat, m: nat)
    requires pos + m <= |data| && 8 * pos == p + c && register == Field(data, p, c)
    ensures Or(register, Shl(FromLE(data[pos..pos + m]), c)) == Field(data, p, c + 8 * m)
  {
    WholeBytes(data, pos, m);
    Refill(data, p, c, 8 * m);
  }

  // ---------- nibbles ----------

  class NibbleReader {
    const data: seq<byte>
    const start: nat
    var pos: nat
    var readHigh: bool
    var srcByte: byte
    ghost var k: nat

    ghost predicate Valid()
      reads this
    {
      && pos == start + (k + 1) / 2 <= |data| && readHigh == (k % 2 == 1)
      && (readHigh ==> srcByte == data[pos - 1])
    }

    constructor (data: seq<byte>, start: nat)
      requires start <= |data|
      ensures Valid() && k == 0 && this.data == data && this.start == start
    {
      this.data, this.start := data, start;
      pos, readHigh, srcByte, k := start, false, 0, 0;
    }

    /** NextNibble: the low half of a byte, then the high half. */
    method Next() returns (v: nat)
      requires Valid() && start + (k + 2) / 2 <= |data|
      modifies this
      ensures Valid() && k == old(k) + 1 && v == Field(data, 8 * start + 4 * old(k), 4)
    {
      if readHigh {
        readHigh := !readHigh;
        NibblesOf(data, pos - 1);
        v := Shr(srcByte, 4);
      } else {
        srcByte := data[pos];
        NibblesOf(data, pos);
        pos := pos + 1;
        readHigh := !readHigh;
        v := Mask(srcByte, 4);
      }
      k := k + 1;
    }
  }

  lemma {:induction false} NibblesOf(data: seq<byte>, at: nat)
    requires at < |data|
    ensures Mask(data[at], 4) == Field(data, 8 * at, 4) && Shr(data[at], 4) == Field(data, 8 * at + 4, 4)
  {
    WholeBytes(data, at, 1);
    assert data[at..at + 1] == [data[at]];
    FromLEOne(data[at]);
    TakeLow(data, 8 * at, 4, 4);
  }
}
