/**
 The bit packer: words of up to 32 bits written to and read from a buffer of bytes, low bits first; the
 methods whose names end in B work high bits first.
 */
module OggPack {
  import opened Bytes
  import opened Buffers
  import opened PowersOfTwo
  import opened BitFields
  import opened OggPackMath
  import opened OggPackMathB

  const INCREMENT := 256

  class PackBuffer {
    var buffer: seq<byte>
    var endbyte: nat
    var endbit: nat
    var ptr: bool          // whether the read or write pointer is set

    /** An open writer; nothing is left above the bits written in the last byte. */
    ghost predicate Writing()
      reads this
    {
      ptr && endbit < 8 && endbyte < |buffer| && buffer[endbyte] < Pow2(endbit)
    }

    /** An open high-bits-first writer; nothing is left below the bits written in the last byte. */
    ghost predicate WritingB()
      reads this
    {
      ptr && endbit < 8 && endbyte < |buffer| && Mask(buffer[endbyte], 8 - endbit) == 0
    }

    /** A writer after an error: nothing is left of it. */
    ghost predicate Cleared()
      reads this
    {
      !ptr && endbyte == 0 && endbit == 0 && buffer == []
    }

    /** A reader inside its buffer, or past an overflow. */
    ghost predicate Reading()
      reads this
    {
      if ptr then endbit < 8 && Position() <= 8 * |buffer| else Overflowed()
    }

    ghost predicate Overflowed()
      reads this
    {
      !ptr && endbyte == |buffer| && endbit == 1
    }

    /** oggpack_bits. */
    function Position(): nat
      reads this
    {
      8 * endbyte + endbit
    }

    /** The bits written so far, as a number. */
    ghost function Number(): nat
      requires Writing()
      reads this
    {
      FromLE(buffer[..endbyte + 1])
    }

    ghost function NumberB(): nat
      requires WritingB()
      reads this
    {
      NumberOf(buffer[..endbyte], buffer[endbyte], endbit)
    }

    // ---------- writing ----------

    /** oggpack_writeinit. */
    constructor WriteInit()
      ensures Writing() && WritingB() && Position() == 0 && Number() == 0 && NumberB() == 0
    {
      var room := Grow([], INCREMENT);
      buffer := room[0 := 0];
      endbyte, endbit, ptr := 0, 0, true;
      new;
      assert buffer[..1] == [0];
      FromLEOne(0);
      MaskZero(8);
      ShrOfZero(8);
    }

    /** oggpack_writeclear. */
    method WriteClear()
      modifies this
      ensures Cleared()
    {
      buffer, endbyte, endbit, ptr := [], 0, 0, false;
    }

    /** oggpack_reset. */
    method Reset()
      requires Writing() || Cleared()
      modifies this
      ensures if old(ptr) then Writing() && Position() == 0 && Number() == 0 else Cleared()
    {
      if ptr {
        buffer := buffer[0 := 0];
        endbyte, endbit := 0, 0;
        assert buffer[..1] == [0];
        FromLEOne(0);
      }
    }

    /** Grows the buffer when fewer than five bytes are left at the write position. */
    method MakeRoom()
      requires Writing()
      modifies this`buffer
      ensures Writing() && endbyte + 4 < |buffer| && Number() == old(Number())
    {
      if endbyte >= |buffer| - 4 {
        ghost var before := buffer;
        buffer := Grow(buffer, |buffer| + INCREMENT);
        assert buffer[..endbyte + 1] == buffer[..|before|][..endbyte + 1] == before[..endbyte + 1];
        assert buffer[endbyte] == buffer[..|before|][endbyte];
      }
    }

    /** The stores of a write: the bits go above those in the current byte, and over the bytes after it. */
    method StoreEach(v: nat, t: nat)
      requires endbyte + 4 < |buffer| && endbit < 8 && endbit <= t < 40
      modifies this`buffer
      ensures |buffer| == old(|buffer|) && forall j :: 0 <= j < endbyte ==> buffer[j] == old(buffer)[j]
      ensures forall i :: 0 <= i < t / 8 + 1 ==> buffer[endbyte + i] == StoredByte(old(buffer[endbyte]), v, endbit, i)
    {
      hide Low8, Or, Shl, Shr;
      buffer := buffer[endbyte := Low8(Or(buffer[endbyte], Shl(v, endbit)))];
      if t >= 8 {
        buffer := buffer[endbyte + 1 := Low8(Shr(v, 8 - endbit))];
        if t >= 16 {
          buffer := buffer[endbyte + 2 := Low8(Shr(v, 16 - endbit))];
          if t >= 24 {
            buffer := buffer[endbyte + 3 := Low8(Shr(v, 24 - endbit))];
            if t >= 32 {
              if endbit != 0 {
                buffer := buffer[endbyte + 4 := Low8(Shr(v, 32 - endbit))];
              } else {
                buffer := buffer[endbyte + 4 := 0];
              }
            }
          }
        }
      }
    }

    /** The same stores, as one run of bytes. */
    method StoreBytes(v: nat, t: nat)
      requires Writing() && endbyte + 4 < |buffer| && endbit <= t < 40
      modifies this`buffer
      ensures |buffer| == old(|buffer|) && buffer[..endbyte] == old(buffer[..endbyte])
      ensures buffer[endbyte..endbyte + t / 8 + 1] == StoredRun(old(buffer[endbyte]), v, endbit, t / 8 + 1)
    {
      hide StoredByte;
      StoreEach(v, t);
    }

    /** What the stores leave: the bytes of the number that the current byte and the new bits make. */
    method StoreBits(v: nat, t: nat)
      requires Writing() && endbyte + 4 < |buffer| && endbit <= t <= endbit + 32 && v < Pow2(t - endbit)
      modifies this`buffer
      ensures |buffer| == old(|buffer|)
      ensures buffer[..endbyte + t / 8 + 1]
           == old(buffer[..endbyte]) + ToLE(old(buffer[endbyte]) + Shl(v, endbit), t / 8 + 1)
    {
      hide Pow2, StoredRun, ToLE;
      ghost var p, k := buffer[endbyte], t / 8 + 1;
      Pow2Monotone(t - endbit, 32);
      StoredRunIs(p, v, endbit, k);
      StoreBytes(v, t);
      assert buffer[..endbyte + k] == buffer[..endbyte] + buffer[endbyte..endbyte + k];
    }

    /** Moves the write position to t bits after the start of the current byte. */
    method Advance(t: nat, ghost bytes: seq<byte>)
      requires endbyte + t / 8 < |buffer| && ptr && buffer[..endbyte + t / 8 + 1] == bytes
      requires bytes[|bytes| - 1] < Pow2(t % 8)
      modifies this`endbyte, this`endbit
      ensures Writing() && Position() == 8 * old(endbyte) + t && Number() == FromLE(bytes)
    {
      endbyte := endbyte + t / 8;
      endbit := t % 8;
    }

    /** The part of a write after the buffer has room. */
    method StoreWord(v: nat, bits: nat)
      requires Writing() && endbyte + 4 < |buffer| && bits <= 32 && v < Pow2(bits)
      modifies this
      ensures Writing() && Position() == old(Position()) + bits
      ensures Number() == old(Number()) + Shl(v, old(Position()))
    {
      hide FromLE, Pow2, Shl, ToLE;
      var t := bits + endbit;
      ghost var low, p := buffer[..endbyte], buffer[endbyte];
      ghost var bytes := low + ToLE(p + Shl(v, endbit), t / 8 + 1);
      assert buffer[..endbyte + 1] == low + [p];
      AppendedWord(low, p, v, endbit, bits, bytes);
      StoreBits(v, t);
      Advance(t, bytes);
    }

    /** oggpack_write: the low `bits` bits of value are appended above the bits written so far. */
    method Write(value: nat, bits: int)
      requires Writing() || Cleared()
      modifies this
      ensures if old(!ptr) || bits < 0 || bits > 32 then Cleared()
              else
                && Writing() && Position() == old(Position()) + bits
                && Number() == old(Number()) + Shl(Mask(value, bits), old(Position()))
    {
      if bits < 0 || bits > 32 {
        WriteClear();
        return;
      }
      if !ptr {
        return;
      }
      MakeRoom();
      StoreWord(Mask(value, bits), bits);
    }

    /** oggpack_writetrunc. */
    method WriteTrunc(bits: nat)
      requires (Writing() && bits / 8 < |buffer|) || Cleared()
      modifies this
      ensures old(!ptr) ==> Cleared()
      ensures old(ptr) ==> Writing() && Position() == bits && Number() == Mask(FromLE(old(buffer)), bits)
      ensures old(ptr && bits <= Position()) ==> Number() == Mask(old(Number()), bits)
    {
      hide FromLE, Mask, Pow2, Pow256;
      var bytes := bits / 8;
      if ptr {
        ghost var cut := CutOff(buffer, bits);
        assert buffer[..|buffer|] == buffer;
        CutOffNumber(buffer, bits, |buffer|);
        if bits <= Position() {
          CutOffNumber(buffer, bits, endbyte + 1);
        }
        endbit := bits % 8;
        endbyte := bytes;
        buffer := buffer[endbyte := Mask(buffer[endbyte], endbit)];
        assert buffer[..endbyte + 1] == cut;
      }
    }

    /** oggpack_writealign. */
    method WriteAlign()
      requires Writing() || Cleared()
      modifies this
      ensures if old(!ptr) then Cleared()
              else Writing() && Position() == (old(Position()) + 7) / 8 * 8 && Number() == old(Number())
    {
      var bits := 8 - endbit;
      if bits < 8 {
        ShlZero(Position());
        Write(0, bits);
      }
    }

    /** oggpack_bytes. */
    function ByteCount(): nat
      reads this
    {
      endbyte + (endbit + 7) / 8
    }

    // ---------- writing, high bits first ----------

    method MakeRoomB()
      requires WritingB()
      modifies this`buffer
      ensures WritingB() && endbyte + 4 < |buffer| && NumberB() == old(NumberB())
    {
      if endbyte >= |buffer| - 4 {
        ghost var before := buffer;
        buffer := Grow(buffer, |buffer| + INCREMENT);
        assert buffer[..endbyte] == buffer[..|before|][..endbyte] == before[..endbyte];
        assert buffer[endbyte] == buffer[..|before|][endbyte];
      }
    }

    method StoreEachB(u: nat, t: nat)
      requires endbyte + 4 < |buffer| && endbit < 8 && endbit <= t < 40
      modifies this`buffer
      ensures |buffer| == old(|buffer|) && forall j :: 0 <= j < endbyte ==> buffer[j] == old(buffer)[j]
      ensures forall i :: 0 <= i < t / 8 + 1 ==> buffer[endbyte + i] == StoredByteB(old(buffer[endbyte]), u, endbit, i)
    {
      hide Low8, Or, Shl, Shr;
      buffer := buffer[endbyte := Low8(Or(buffer[endbyte], Shr(u, 24 + endbit)))];
      if t >= 8 {
        buffer := buffer[endbyte + 1 := Low8(Shr(u, 16 + endbit))];
        if t >= 16 {
          buffer := buffer[endbyte + 2 := Low8(Shr(u, 8 + endbit))];
          if t >= 24 {
            buffer := buffer[endbyte + 3 := Low8(Shr(u, endbit))];
            if t >= 32 {
              if endbit != 0 {
                buffer := buffer[endbyte + 4 := Low8(Shl(u, 8 - endbit))];
              } else {
                buffer := buffer[endbyte + 4 := 0];
              }
            }
          }
        }
      }
    }

    /** The same stores, as one run of bytes. */
    method StoreBytesB(u: nat, t: nat)
      requires WritingB() && endbyte + 4 < |buffer| && endbit <= t < 40
      modifies this`buffer
      ensures |buffer| == old(|buffer|) && buffer[..endbyte] == old(buffer[..endbyte])
      ensures buffer[endbyte..endbyte + t / 8 + 1] == StoredRunB(old(buffer[endbyte]), u, endbit, t / 8 + 1)
    {
      hide StoredByteB;
      StoreEachB(u, t);
    }

    method AdvanceB(t: nat, ghost low: seq<byte>, ghost last: byte)
      requires endbyte + t / 8 < |buffer| && ptr && buffer[..endbyte + t / 8] == low && buffer[endbyte + t / 8] == last
      requires Mask(last, 8 - t % 8) == 0
      modifies this`endbyte, this`endbit
      ensures WritingB() && Position() == 8 * old(endbyte) + t
      ensures NumberB() == NumberOf(low, last, t % 8)
    {
      endbyte := endbyte + t / 8;
      endbit := t % 8;
    }

    method StoreWordB(v: nat, bits: nat)
      requires WritingB() && endbyte + 4 < |buffer| && bits <= 32 && v < Pow2(bits)
      modifies this
      ensures WritingB() && Position() == old(Position()) + bits
      ensures NumberB() == Shl(old(NumberB()), bits) + v
    {
      hide NumberOf, Pow2, Shl;
      var u, t := Shl(v, 32 - bits), endbit + bits;
      ghost var run, low := StoredRunB(buffer[endbyte], u, endbit, t / 8 + 1), buffer[..endbyte];
      AppendedWordB(low, buffer[endbyte], v, endbit, bits, run);
      StoreBitsB(u, t, run);
      AdvanceB(t, low + run[..t / 8], run[t / 8]);
    }

    method StoreBitsB(u: nat, t: nat, ghost run: seq<byte>)
      requires WritingB() && endbyte + 4 < |buffer| && endbit <= t < 40
      requires run == StoredRunB(buffer[endbyte], u, endbit, t / 8 + 1)
      modifies this`buffer
      ensures |buffer| == old(|buffer|)
      ensures buffer[..endbyte + t / 8] == old(buffer[..endbyte]) + run[..t / 8]
      ensures buffer[endbyte + t / 8] == run[t / 8]
    {
      StoreBytesB(u, t);
      ghost var k := t / 8;
      assert buffer[..endbyte + k] == buffer[..endbyte] + buffer[endbyte..endbyte + k + 1][..k];
      assert buffer[endbyte + k] == buffer[endbyte..endbyte + k + 1][k];
    }

    /** oggpackB_write: the low `bits` bits of value are appended below the bits written so far. */
    method WriteB(value: nat, bits: int)
      requires WritingB() || Cleared()
      modifies this
      ensures if old(!ptr) || bits < 0 || bits > 32 then Cleared()
              else
                && WritingB() && Position() == old(Position()) + bits
                && NumberB() == Shl(old(NumberB()), bits) + Mask(value, bits)
    {
      if bits < 0 || bits > 32 {
        WriteClear();
        return;
      }
      if !ptr {
        return;
      }
      MakeRoomB();
      StoreWordB(Mask(value, bits), bits);
    }

    // ---------- reading ----------

    /** oggpack_readinit. */
    constructor ReadInit(data: seq<byte>)
      ensures Reading() && ptr && buffer == data && Position() == 0
    {
      buffer, endbyte, endbit, ptr := data, 0, 0, true;
    }

    /** The bytes that a read of t bits past the start of the current byte takes, put together. */
    method Gather(t: nat) returns (ret: nat)
      requires endbit <= t <= endbit + 32 && endbit < 8 && endbyte + Taken(t) <= |buffer|
      ensures ret == Window(buffer, endbyte, Taken(t), endbit)
    {
      ret := Shr(buffer[endbyte], endbit);
      FirstByte(buffer, endbyte, endbit);
      if t > 8 {
        NextByte(buffer, endbyte, 1, endbit);
        ret := Or(ret, ShiftUp(buffer[endbyte + 1], 8 - endbit));
        if t > 16 {
          ret := GatherUpper(t, ret);
        }
      }
    }

    /** The third byte on. */
    method GatherUpper(t: nat, low: nat) returns (ret: nat)
      requires 16 < t <= endbit + 32 && endbit < 8 && endbyte + Taken(t) <= |buffer|
      requires low == Window(buffer, endbyte, 2, endbit)
      ensures ret == Window(buffer, endbyte, Taken(t), endbit)
    {
      hide *;
      NextByte(buffer, endbyte, 2, endbit);
      ret := Or(low, ShiftUp(buffer[endbyte + 2], 16 - endbit));
      if t > 24 {
        NextByte(buffer, endbyte, 3, endbit);
        ret := Or(ret, ShiftUp(buffer[endbyte + 3], 24 - endbit));
        if t > 32 && endbit != 0 {
          NextByte(buffer, endbyte, 4, endbit);
          ret := Or(ret, ShiftUp(buffer[endbyte + 4], 32 - endbit));
        }
      }
    }

    /** The test for the end of the buffer that look and read begin with. */
    method Available(bits: nat) returns (overflow: bool, empty: bool)
      requires Reading() && bits <= 32
      ensures overflow == (Position() + bits > 8 * |buffer|)
      ensures empty ==> !overflow && bits + endbit == 0
      ensures !overflow && !empty ==> ptr && endbyte + Taken(bits + endbit) <= |buffer|
    {
      var t := bits + endbit;
      overflow, empty := false, false;
      if endbyte >= |buffer| - 4 {
        if endbyte > |buffer| - (t + 7) / 8 {
          overflow := true;
        } else if t == 0 {
          empty := true;
        }
      }
    }

    /** oggpack_look: the next bits, without moving on; -1 when there are not enough. */
    method Look(bits: int) returns (ret: int)
      requires Reading()
      ensures ret == if bits < 0 || bits > 32 || Position() + bits > 8 * |buffer| then -1
                     else Field(buffer, Position(), bits)
    {
      if bits < 0 || bits > 32 {
        return -1;
      }
      var overflow, empty := Available(bits);
      if overflow {
        return -1;
      }
      if empty {
        return 0;
      }
      var gathered := Gather(bits + endbit);
      ret := Mask(gathered, bits);
      WindowField(buffer, endbyte, Taken(bits + endbit), endbit, bits);
    }

    /** oggpack_adv: move on; past the end of the buffer the reader overflows. */
    method Adv(bits: nat)
      requires Reading()
      modifies this
      ensures buffer == old(buffer) && Reading()
      ensures if old(Position()) + bits > 8 * |buffer| then Overflowed()
              else ptr == old(ptr) && Position() == old(Position()) + bits
    {
      var t := bits + endbit;
      if endbyte > |buffer| - (t + 7) / 8 {
        Overflow();
        return;
      }
      endbyte := endbyte + t / 8;
      endbit := t % 8;
    }

    method Overflow()
      modifies this
      ensures buffer == old(buffer) && Overflowed()
    {
      ptr := false;
      endbyte := |buffer|;
      endbit := 1;
    }

    /** oggpack_read: the next bits; -1 and an overflow when there are not enough. */
    method Read(bits: int) returns (ret: int)
      requires Reading()
      modifies this
      ensures buffer == old(buffer) && Reading()
      ensures if bits < 0 || bits > 32 || old(Position()) + bits > 8 * |buffer| then ret == -1 && Overflowed()
              else
                && ret == Field(buffer, old(Position()), bits)
                && ptr && Position() == old(Position()) + bits
    {
      hide Mask, Shr, Window;
      if bits < 0 || bits > 32 {
        Overflow();
        return -1;
      }
      var overflow, empty := Available(bits);
      if overflow {
        Overflow();
        return -1;
      }
      if empty {
        return 0;
      }
      var gathered := Gather(bits + endbit);
      ret := Mask(gathered, bits);
      WindowField(buffer, endbyte, Taken(bits + endbit), endbit, bits);
      var t := bits + endbit;
      endbyte := endbyte + t / 8;
      endbit := t % 8;
    }

    method GatherB(t: nat) returns (ret: nat)
      requires endbit <= t <= endbit + 32 && endbit < 8 && endbyte + Taken(t) <= |buffer|
      ensures ret == WindowB(buffer, endbyte, Taken(t), endbit)
    {
      hide ShiftUp, Shr, WindowB;
      ret := ShiftUp(buffer[endbyte], 24 + endbit);
      FirstByteB(buffer, endbyte, endbit);
      if t > 8 {
        NextByteB(buffer, endbyte, 1, endbit);
        ret := Or(ret, ShiftUp(buffer[endbyte + 1], 16 + endbit));
        if t > 16 {
          ret := GatherUpperB(t, ret);
        }
      }
    }

    /** The third byte on. */
    method GatherUpperB(t: nat, high: nat) returns (ret: nat)
      requires 16 < t <= endbit + 32 && endbit < 8 && endbyte + Taken(t) <= |buffer|
      requires high == WindowB(buffer, endbyte, 2, endbit)
      ensures ret == WindowB(buffer, endbyte, Taken(t), endbit)
    {
      hide *;
      NextByteB(buffer, endbyte, 2, endbit);
      ret := Or(high, ShiftUp(buffer[endbyte + 2], 8 + endbit));
      if t > 24 {
        NextByteB(buffer, endbyte, 3, endbit);
        ret := Or(ret, ShiftUp(buffer[endbyte + 3], endbit));
        if t > 32 && endbit != 0 {
          LastByteB(buffer, endbyte, endbit);
          ret := Or(ret, Shr(buffer[endbyte + 4], 8 - endbit));
        }
      }
    }

    /** The last step of a high-bits-first look or read: the register goes down in two shifts. */
    method ShiftDown(gathered: nat, bits: nat) returns (ret: nat)
      requires bits <= 32
      ensures ret == Shr(gathered, 32 - bits)
    {
      var m := 32 - bits;
      ret := Shr(Shr(gathered, m / 2), (m + 1) / 2);
      ShrTwice(gathered, m / 2, (m + 1) / 2);
    }

    /** oggpackB_look. */
    method LookB(bits: int) returns (ret: int)
      requires Reading()
      ensures ret == if bits < 0 || bits > 32 || Position() + bits > 8 * |buffer| then -1
                     else FieldB(buffer, Position(), bits)
    {
      if bits < 0 || bits > 32 {
        return -1;
      }
      var overflow, empty := Available(bits);
      if overflow {
        return -1;
      }
      if empty {
        return 0;
      }
      var gathered := GatherB(bits + endbit);
      ret := ShiftDown(gathered, bits);
      WindowFieldB(buffer, endbyte, Taken(bits + endbit), endbit, bits);
    }

    /** oggpackB_read. */
    method ReadB(bits: int) returns (ret: int)
      requires Reading()
      modifies this
      ensures buffer == old(buffer) && Reading()
      ensures if bits < 0 || bits > 32 || old(Position()) + bits > 8 * |buffer| then ret == -1 && Overflowed()
              else
                && ret == FieldB(buffer, old(Position()), bits)
                && ptr && Position() == old(Position()) + bits
    {
      hide FromBE, Mask, Shr, WindowB;
      if bits < 0 || bits > 32 {
        Overflow();
        return -1;
      }
      var overflow, empty := Available(bits);
      if overflow {
        Overflow();
        return -1;
      }
      if empty {
        return 0;
      }
      var gathered := GatherB(bits + endbit);
      ret := ShiftDown(gathered, bits);
      WindowFieldB(buffer, endbyte, Taken(bits + endbit), endbit, bits);
      var t := bits + endbit;
      endbyte := endbyte + t / 8;
      endbit := t % 8;
    }

    /** oggpack_read1. */
    method Read1() returns (ret: int)
      requires Reading()
      modifies this
      ensures buffer == old(buffer) && Reading()
      ensures if old(Position()) + 1 > 8 * |buffer| then ret == -1 && Overflowed()
              else
                && ret == Field(buffer, old(Position()), 1)
                && ptr && Position() == old(Position()) + 1
    {
      if endbyte >= |buffer| {
        Overflow();
        return -1;
      }
      ret := Mask(Shr(buffer[endbyte], endbit), 1);
      FirstByte(buffer, endbyte, endbit);
      WindowField(buffer, endbyte, 1, endbit, 1);
      endbit := endbit + 1;
      if endbit > 7 {
        endbit := 0;
        endbyte := endbyte + 1;
      }
    }
  }
}
