/** The C buffer primitives that the framing code is built on, for buffers held as sequences. */
module Buffers {
  import opened Bytes

  /** memmove of n elements from `from` down to the start of the buffer. */
  function MoveDown<T>(buffer: seq<T>, from: nat, n: nat): (r: seq<T>)
    requires from + n <= |buffer|
    ensures |r| == |buffer| && r[..n] == buffer[from..from + n]
  {
    buffer[from..from + n] + buffer[n..]
  }

  /** memcpy of some elements to place `at` of the buffer. */
  function CopyIn<T>(buffer: seq<T>, at: nat, data: seq<T>): (r: seq<T>)
    requires at + |data| <= |buffer|
    ensures |r| == |buffer| && r[..at + |data|] == buffer[..at] + data
    ensures r[at + |data|..] == buffer[at + |data|..]
  {
    buffer[..at] + data + buffer[at + |data|..]
  }

  /** realloc to n elements; what the new ones hold is not specified. */
  method Grow<T(0)>(buffer: seq<T>, n: nat) returns (r: seq<T>)
    requires |buffer| <= n
    ensures |r| == n && r[..|buffer|] == buffer
  {
    var spare := new T[n - |buffer|];
    r := buffer + spare[..];
  }

  /** A new buffer of zeros. */
  method NewZeros(size: nat) returns (buffer: array<byte>)
    ensures fresh(buffer) && buffer.Length == size && forall i :: 0 <= i < size ==> buffer[i] == 0
  {
    buffer := new byte[size](_ => 0);
  }
}
