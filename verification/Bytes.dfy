/** Bytes, and the little-endian integers that the file formats store in them. */
module Bytes {

  type byte = x: int | 0 <= x < 256

  /** 256 to the power k. */
  function Pow256(k: nat): (p: int)
    ensures p >= 1
  {
    if k == 0 then 1 else 256 * Pow256(k - 1)
  }

  /** The k low bytes of n, least significant first; n may be negative (two's complement). */
  function ToLE(n: int, k: nat): (s: seq<byte>)
    ensures |s| == k
    decreases k
  {
    if k == 0 then [] else [n % 256] + ToLE(n / 256, k - 1)
  }

  /** The unsigned number whose little-endian bytes are s. */
  function FromLE(s: seq<byte>): (n: int)
    ensures 0 <= n < Pow256(|s|)
  {
    if s == [] then 0 else s[0] + 256 * FromLE(s[1..])
  }

  /** The part of n above its k low bytes. */
  function HighPart(n: int, k: nat): int
    decreases k
  {
    if k == 0 then n else HighPart(n / 256, k - 1)
  }

  lemma {:induction false} LowAndRest(n: int, f: int, p: int, h: int)
    requires n / 256 == f + p * h
    ensures n == (n % 256 + 256 * f) + (256 * p) * h
  {
    assert 256 * (p * h) == (256 * p) * h;
  }

  lemma {:induction false} LESplits(n: int, k: nat)
    ensures n == FromLE(ToLE(n, k)) + Pow256(k) * HighPart(n, k)
    decreases k
  {
    if k > 0 {
      var rest := ToLE(n / 256, k - 1);
      LESplits(n / 256, k - 1);
      LowAndRest(n, FromLE(rest), Pow256(k - 1), HighPart(n / 256, k - 1));
      assert ToLE(n, k)[0] == n % 256 && ToLE(n, k)[1..] == rest;
    }
  }

  lemma {:induction false} ToLEAppend(n: int, k: nat)
    ensures ToLE(n, k + 1) == ToLE(n, k) + [HighPart(n, k) % 256]
    ensures HighPart(n, k + 1) == HighPart(n, k) / 256
    decreases k
  {
    if k > 0 {
      ToLEAppend(n / 256, k - 1);
    }
  }

  /** The first byte counts ones, the second 256s, and so on. */
  lemma {:induction false} FromLEOfFour(s: seq<byte>)
    requires |s| == 4
    ensures FromLE(s) ==
      (s[0] as int) + 0x100 * (s[1] as int) + 0x1_0000 * (s[2] as int) + 0x100_0000 * (s[3] as int)
  {
    var a, b, c := s[1..], s[2..], s[3..];
    assert a[0] == s[1] && a[1..] == b && b[0] == s[2] && b[1..] == c && c[0] == s[3] && c[1..] == [];
    assert FromLE(c) == s[3] && FromLE(b) == s[2] + 256 * FromLE(c) && FromLE(a) == s[1] + 256 * FromLE(b);
  }

  /** Byte i of a number, from the lowest. */
  lemma {:induction false} ToLEByte(n: int, k: nat, i: nat)
    requires i < k
    ensures ToLE(n, k)[i] == n / Pow256(i) % 0x100
    decreases k
  {
    if i > 0 {
      ToLEByte(n / 0x100, k - 1, i - 1);
      DivideTwice(n, Pow256(i - 1));
    }
  }

  lemma {:induction false} DivideTwice(n: int, p: int)
    requires p >= 1
    ensures n / 0x100 / p == n / (0x100 * p)
  {
    var q, r := n / 0x100 / p, n / 0x100 % p;
    assert n / 0x100 == p * q + r && 0 <= r < p;
    assert n == 0x100 * (p * q + r) + n % 0x100;
    var t := 0x100 * r + n % 0x100;
    assert 0x100 * (p * q) == (0x100 * p) * q;
    assert 0 <= t < 0x100 * p && n == (0x100 * p) * q + t;
    Quotient(n, 0x100 * p, q, t);
  }

  lemma {:induction false} Quotient(n: int, m: int, q: int, t: int)
    requires m > 0 && 0 <= t < m && n == m * q + t
    ensures n / m == q
  {
    var d := n / m - q;
    assert n == m * (n / m) + n % m;
    assert m * d == t - n % m;
    NoMultipleBetween(m, d);
  }

  lemma {:induction false} NoMultipleBetween(m: int, d: int)
    requires -m < m * d < m
    ensures d == 0
  {
    assert d >= 1 ==> m * d >= m;
    assert d <= -1 ==> m * d <= -m;
  }

  /** u read as a two's complement number of k bytes. */
  function Signed(u: int, k: nat): int
    requires k > 0
  {
    if u >= 128 * Pow256(k - 1) then u - Pow256(k) else u
  }

  /** Storing a signed number and reading it back gives the number. */
  lemma {:induction false} SignedLERoundTrip(n: int, k: nat)
    requires k > 0
    requires -128 * Pow256(k - 1) <= n < 128 * Pow256(k - 1)
    ensures Signed(FromLE(ToLE(n, k)), k) == n
  {
    LESplits(n, k);
    HighPartIsSign(n, FromLE(ToLE(n, k)), Pow256(k - 1), HighPart(n, k));
  }

  lemma {:induction false} HighPartIsSign(n: int, u: int, half: int, h: int)
    requires half > 0 && 0 <= u < 256 * half && -128 * half <= n < 128 * half
    requires n == u + (256 * half) * h
    ensures h == if n < 0 then -1 else 0
  {
    ScaleMonotone(256 * half, 1, h);
    ScaleMonotone(256 * half, h, -2);
  }

  lemma {:induction false} ScaleMonotone(p: int, a: int, b: int)
    requires p > 0
    ensures a <= b ==> p * a <= p * b
  {
  }

  /** The total of a segment table. */
  function Sum(s: seq<byte>): nat {
    if s == [] then 0 else s[0] + Sum(s[1..])
  }

  lemma {:induction false} SumConcat(a: seq<byte>, b: seq<byte>)
    ensures Sum(a + b) == Sum(a) + Sum(b)
  {
    if a == [] {
      assert a + b == b;
    } else {
      SumConcat(a[1..], b);
      assert (a + b)[1..] == a[1..] + b;
    }
  }
}
