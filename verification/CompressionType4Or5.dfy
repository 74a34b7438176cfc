/** The LZ sprite decoder: literals, and copies from the output so far that may overlap what they write. */
module CompressionType4Or5 {
  import opened Bytes

  datatype Token = Literals(bytes: seq<byte>) | Copy(length: nat, distance: nat) {
    /** What the format can say, `produced` bytes into the output. */
    predicate Fits(produced: nat) {
      match this
      case Literals(bytes) => 1 <= |bytes| <= 128
      case Copy(length, distance) => 3 <= length <= 34 && 1 <= distance <= 1024 && distance <= produced
    }

    function Length(): nat {
      match this
      case Literals(bytes) => |bytes|
      case Copy(length, distance) => length
    }
  }

  /** n bytes, one at a time, each from `distance` places back. */
  function CopyBack(out: seq<byte>, distance: nat, n: nat): (r: seq<byte>)
    requires 1 <= distance <= |out|
    ensures |r| == |out| + n
    decreases n
  {
    if n == 0 then out else
      var before := CopyBack(out, distance, n - 1);
      before + [before[|before| - distance]]
  }

  /** i reduced by the distance until it is below it. */
  function Wrapped(i: nat, distance: nat): (r: nat)
    requires distance >= 1
    ensures r < distance
  {
    if i < distance then i else Wrapped(i - distance, distance)
  }

  lemma {:induction false} WrappedQuotient(i: nat, distance: nat) returns (q: nat)
    requires distance >= 1
    ensures i == distance * q + Wrapped(i, distance)
  {
    if i < distance {
      q := 0;
    } else {
      var p := WrappedQuotient(i - distance, distance);
      q := p + 1;
      assert distance * (p + 1) == distance * p + distance;
    }
  }

  lemma {:induction false} WrappedIsRemainder(i: nat, distance: nat)
    requires distance >= 1
    ensures Wrapped(i, distance) == i % distance
  {
    var q := WrappedQuotient(i, distance);
    var m, s, r := i / distance, i % distance, Wrapped(i, distance);
    assert i == distance * m + s;
    Step(distance, m, q);
    Step(distance, q, m);
  }

  lemma {:induction false} Step(d: nat, a: int, b: int)
    ensures a < b ==> d * a + d <= d * b
  {
    if a < b {
      var more := b - a - 1;
      assert d * more >= 0;
      assert b == a + 1 + more;
      Expand(d, a, more);
    }
  }

  lemma {:induction false} Expand(d: int, a: int, more: int)
    ensures d * (a + 1 + more) == d * a + d + d * more
  {
  }

  lemma {:induction false} CopyWraps(out: seq<byte>, distance: nat, n: nat, i: nat)
    requires 1 <= distance <= |out| && i < |out| + n
    ensures CopyBack(out, distance, n)[i]
         == if i < |out| then out[i] else out[|out| - distance + Wrapped(i - |out|, distance)]
    decreases n
  {
    if n > 0 {
      var before := CopyBack(out, distance, n - 1);
      if i < |out| + n - 1 {
        CopyWraps(out, distance, n - 1, i);
      } else {
        CopyWraps(out, distance, n - 1, |before| - distance);
      }
    }
  }

  /** A copy extends the output periodically, also where it overlaps itself. */
  lemma {:induction false} CopyIsPeriodic(out: seq<byte>, distance: nat, n: nat, i: nat)
    requires 1 <= distance <= |out| && i < |out| + n
    ensures i < |out| ==> CopyBack(out, distance, n)[i] == out[i]
    ensures i >= |out| ==> 0 <= (i - |out|) % distance < distance
    ensures i >= |out| ==> CopyBack(out, distance, n)[i] == out[|out| - distance + (i - |out|) % distance]
  {
    CopyWraps(out, distance, n, i);
    if i >= |out| {
      WrappedIsRemainder(i - |out|, distance);
    }
  }

  /** The output after a token. */
  function Extend(out: seq<byte>, token: Token): (r: seq<byte>)
    requires token.Fits(|out|)
    ensures |r| == |out| + token.Length() && |r| > |out|
  {
    match token
    case Literals(bytes) => out + bytes
    case Copy(length, distance) => CopyBack(out, distance, length)
  }

  predicate TokensFit(out: seq<byte>, tokens: seq<Token>)
    decreases |tokens|
  {
    tokens == [] || (tokens[0].Fits(|out|) && TokensFit(Extend(out, tokens[0]), tokens[1..]))
  }

  /** What a list of tokens stands for, after some output. */
  function Meaning(out: seq<byte>, tokens: seq<Token>): (r: seq<byte>)
    requires TokensFit(out, tokens)
    ensures |r| >= |out| && (tokens != [] ==> |r| > |out|)
    decreases |tokens|
  {
    if tokens == [] then out else Meaning(Extend(out, tokens[0]), tokens[1..])
  }

  /** 0xxx xxxx and the bytes, or 1xxx xxyy yyyy yyyy. */
  function EncodeToken(token: Token): (s: seq<byte>)
    requires exists produced: nat :: token.Fits(produced)
    ensures |s| >= 1
  {
    match token
    case Literals(bytes) => [|bytes| - 1] + bytes
    case Copy(length, distance) => [0x80 + (length - 3) * 4 + (distance - 1) / 256, (distance - 1) % 256]
  }

  function Encode(out: seq<byte>, tokens: seq<Token>): seq<byte>
    requires TokensFit(out, tokens)
    decreases |tokens|
  {
    if tokens == [] then []
    else
      assert tokens[0].Fits(|out|);
      EncodeToken(tokens[0]) + Encode(Extend(out, tokens[0]), tokens[1..])
  }

  /** Some bytes stand in a stream from `at` on. */
  predicate Stands(stream: seq<byte>, at: nat, bytes: seq<byte>) {
    at + |bytes| <= |stream| && stream[at..at + |bytes|] == bytes
  }

  lemma {:induction false} StandsSplit(stream: seq<byte>, at: nat, a: seq<byte>, b: seq<byte>)
    requires Stands(stream, at, a + b)
    ensures Stands(stream, at, a) && Stands(stream, at + |a|, b)
  {
    var s := stream[at..at + |a + b|];
    assert s[..|a|] == a && s[|a|..] == b;
    assert stream[at..at + |a|] == s[..|a|];
    assert stream[at + |a|..at + |a| + |b|] == s[|a|..];
  }

  /** The two bytes of a copy give its length and distance back. */
  lemma {:induction false} CopyBytes(length: nat, distance: nat, c: int, c1: int)
    requires 3 <= length <= 34 && 1 <= distance <= 1024
    requires c == 0x80 + (length - 3) * 4 + (distance - 1) / 256 && c1 == (distance - 1) % 256
    ensures 0x80 <= c < 0x100 && c / 4 % 32 + 3 == length && c % 4 * 256 + c1 + 1 == distance
  {
  }

  /** The copy loop: byte by byte, so that it may read what it has just written. */
  method CopyLoop(buffer: array<byte>, start: nat, position: nat, length: nat) returns (dstPos: nat)
    requires 1 <= position <= start && start + length <= buffer.Length
    modifies buffer
    ensures dstPos == start + length && buffer[..dstPos] == CopyBack(old(buffer[..start]), position, length)
  {
    ghost var out := buffer[..start];
    dstPos := start;
    var startIndex := dstPos - position;
    for i := 0 to length
      invariant dstPos == start + i && buffer[..dstPos] == CopyBack(out, position, i)
    {
      ghost var before := buffer[..dstPos];
      buffer[dstPos] := buffer[startIndex + i];
      dstPos := dstPos + 1;
      assert buffer[..dstPos] == before + [before[|before| - position]];
    }
  }

  /** The literal loop. */
  method LiteralLoop(buffer: array<byte>, start: nat, stream: seq<byte>, at: nat, n: nat)
      returns (dstPos: nat, pos: nat)
    requires start + n <= buffer.Length && at + n <= |stream|
    modifies buffer
    ensures dstPos == start + n && pos == at + n && buffer[..dstPos] == old(buffer[..start]) + stream[at..at + n]
  {
    ghost var out := buffer[..start];
    dstPos, pos := start, at;
    for i := 0 to n
      invariant dstPos == start + i && pos == at + i && buffer[..dstPos] == out + stream[at..at + i]
    {
      buffer[dstPos] := stream[pos];
      dstPos := dstPos + 1;
      pos := pos + 1;
      assert buffer[..dstPos] == buffer[..dstPos - 1] + [stream[at + i]];
      assert stream[at..at + i + 1] == stream[at..at + i] + [stream[at + i]];
    }
  }

  /** What the bytes of a token say: the top bit its kind, and for a copy the length and the distance. */
  lemma {:induction false} TokenBytes(stream: seq<byte>, at: nat, token: Token, produced: nat)
    requires token.Fits(produced) && Stands(stream, at, EncodeToken(token))
    ensures at + |EncodeToken(token)| <= |stream| && (token.Copy? <==> stream[at] >= 0x80)
    ensures token.Literals? ==>
      && |EncodeToken(token)| == 1 + |token.bytes| == 2 + stream[at]
      && stream[at + 1..at + 1 + |token.bytes|] == token.bytes
    ensures token.Copy? ==>
      && |EncodeToken(token)| == 2 && (stream[at] as int) / 4 % 32 + 3 == token.length
      && (stream[at] as int) % 4 * 256 + stream[at + 1] + 1 == token.distance
  {
    var code := EncodeToken(token);
    assert stream[at] == code[0];
    match token
    case Literals(bytes) => assert stream[at + 1..at + 1 + |bytes|] == code[1..];
    case Copy(length, distance) =>
      assert stream[at + 1] == code[1];
      CopyBytes(length, distance, stream[at], stream[at + 1]);
  }

  /** The body of the loop: one token. */
  method DecodeToken(buffer: array<byte>, start: nat, stream: seq<byte>, at: nat, ghost token: Token)
      returns (dstPos: nat, pos: nat)
    requires token.Fits(start) && Stands(stream, at, EncodeToken(token)) && start + token.Length() <= buffer.Length
    modifies buffer
    ensures dstPos == start + token.Length() && pos == at + |EncodeToken(token)|
    ensures buffer[..dstPos] == Extend(old(buffer[..start]), token)
  {
    hide CopyBack, Stands, EncodeToken;
    TokenBytes(stream, at, token, start);
    var c := stream[at];
    pos := at + 1;
    if c >= 0x80 {
      var nCopyLength := c / 4 % 32 + 3;
      var c1 := stream[pos];
      pos := pos + 1;
      var nPosition := (c as int) % 4 * 256 + c1 + 1;
      dstPos := CopyLoop(buffer, start, nPosition, nCopyLength);
    } else {
      dstPos, pos := LiteralLoop(buffer, start, stream, pos, c + 1);
    }
  }

  /** The declared length: the four bytes before the stream's position. */
  function DeclaredLength(stream: seq<byte>, at: nat): nat
    requires 4 <= at <= |stream|
  {
    FromLE(stream[at - 4..at])
  }

  /** Decompress: for any well-formed tokens of the declared length, the output is what they stand for. */
  method Decompress(stream: seq<byte>, at: nat, ghost tokens: seq<Token>) returns (image: seq<byte>, end: nat)
    requires 4 <= at <= |stream| && TokensFit([], tokens) && Stands(stream, at, Encode([], tokens))
    requires |Meaning([], tokens)| == DeclaredLength(stream, at)
    ensures image == Meaning([], tokens) && |image| == DeclaredLength(stream, at)
    ensures end == at + |Encode([], tokens)|
  {
    hide EncodeToken, Extend, Pow256, Stands;
    var nDestinationLength := FromLE(stream[at - 4..at]);
    var decompressedData := new byte[nDestinationLength](_ => 0);
    var dstPos := 0;
    end := at;
    ghost var left := tokens;
    while dstPos < nDestinationLength
      invariant dstPos <= nDestinationLength && TokensFit(decompressedData[..dstPos], left)
      invariant Meaning(decompressedData[..dstPos], left) == Meaning([], tokens)
      invariant Stands(stream, end, Encode(decompressedData[..dstPos], left))
      invariant end + |Encode(decompressedData[..dstPos], left)| == at + |Encode([], tokens)|
    {
      ghost var out := decompressedData[..dstPos];
      assert left != [];
      StandsSplit(stream, end, EncodeToken(left[0]), Encode(Extend(out, left[0]), left[1..]));
      dstPos, end := DecodeToken(decompressedData, dstPos, stream, end, left[0]);
      left := left[1..];
    }
    assert left == [];
    image := decompressedData[..];
    assert decompressedData[..dstPos] == decompressedData[..];
  }
}
