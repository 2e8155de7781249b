/** Octets, big-endian numbers and single bits of a number. */
module Bytes {

  newtype Byte = x: int | 0 <= x < 256

  type Octets = seq<Byte>

  datatype Option<+T> = None | Some(value: T)

  function Zeros(n: nat): (r: Octets)
    ensures |r| == n && forall i | 0 <= i < n :: r[i] == 0
  {
    seq(n, _ => 0 as Byte)
  }

  function Pow2(n: nat): (r: nat)
    ensures r > 0
  {
    if n == 0 then 1 else 2 * Pow2(n - 1)
  }

  /** Bit n of the binary expansion of x. */
  predicate BitOf(x: nat, n: nat) {
    x / Pow2(n) % 2 == 1
  }

  /** The number a byte string denotes, most significant byte first. */
  function BigEndian(s: Octets): nat {
    if s == [] then 0 else 256 * BigEndian(s[..|s| - 1]) + s[|s| - 1] as nat
  }

  /** The two bytes of a uint16_t, high byte first. */
  function Word(n: nat): (r: Octets)
    requires n < 0x1_0000
    ensures |r| == 2 && r[0] as nat * 256 + r[1] as nat == n
  {
    [(n / 256) as Byte, (n % 256) as Byte]
  }

  lemma Pow2Values()
    ensures Pow2(0) == 1 && Pow2(1) == 2 && Pow2(2) == 4 && Pow2(3) == 8 && Pow2(4) == 16
    ensures Pow2(5) == 32 && Pow2(6) == 64 && Pow2(7) == 128 && Pow2(8) == 256
  {
    assert Pow2(3) == 8;
    assert Pow2(6) == 64;
  }

  lemma Pow2Plus8(n: nat)
    ensures Pow2(n + 8) == 256 * Pow2(n)
  {
    assert Pow2(n + 4) == 16 * Pow2(n) by {
      assert Pow2(n + 2) == 4 * Pow2(n);
    }
    assert Pow2(n + 6) == 4 * Pow2(n + 4);
  }

  lemma DropLowByte(x: nat, b: nat, y: nat)
    requires b < 256 && y > 0
    ensures (256 * x + b) / (256 * y) == x / y
  {
    var q, r := x / y, x % y;
    assert x == q * y + r;
    assert 256 * x + b == q * (256 * y) + (256 * r + b);
    assert 0 <= 256 * r + b < 256 * y;
    QuotientUnique(256 * x + b, 256 * y, q, 256 * r + b);
  }

  lemma MulSign(e: int, d: nat)
    ensures e >= 1 ==> e * d >= d
    ensures e <= -1 ==> e * d + d <= 0
  {
    assert (e - 1) * d == e * d - d;
    assert (e + 1) * d == e * d + d;
  }

  lemma QuotientUnique(n: nat, d: nat, q: nat, r: nat)
    requires d > 0 && r < d && n == q * d + r
    ensures n / d == q
  {
    var e := n / d - q;
    assert e * d == r - n % d;
    MulSign(e, d);
  }

  lemma LowestBit(n: nat)
    ensures BitOf(n, 0) == (n % 2 == 1)
  {
    assert Pow2(0) == 1;
  }

  lemma HalveBit(n: nat, j: nat)
    requires j > 0
    ensures BitOf(n, j) == BitOf(n / 2, j - 1)
  {
    HalfQuotient(n, Pow2(j - 1));
  }

  lemma HalfQuotient(n: nat, p: nat)
    requires p > 0
    ensures n / (2 * p) == n / 2 / p
  {
    var h := n / 2;
    var q, r := h / p, h % p;
    assert n == q * (2 * p) + (2 * r + n % 2);
    QuotientUnique(n, 2 * p, q, 2 * r + n % 2);
  }

  /** Low bits of 256 * x + b come from b alone. */
  lemma LowBits(x: nat, b: nat, n: nat)
    requires b < 256 && n < 8
    ensures BitOf(256 * x + b, n) == BitOf(b, n)
  {
    Pow2Values();
    if
    case n == 0 => LowBitsAt(x, b, 1, 128);
    case n == 1 => LowBitsAt(x, b, 2, 64);
    case n == 2 => LowBitsAt(x, b, 4, 32);
    case n == 3 => LowBitsAt(x, b, 8, 16);
    case n == 4 => LowBitsAt(x, b, 16, 8);
    case n == 5 => LowBitsAt(x, b, 32, 4);
    case n == 6 => LowBitsAt(x, b, 64, 2);
    case n == 7 => LowBitsAt(x, b, 128, 1);
  }

  lemma LowBitsAt(x: nat, b: nat, p: nat, half: nat)
    requires p > 0 && 2 * p * half == 256
    ensures (256 * x + b) / p % 2 == b / p % 2
  {
    var q, r, y := b / p, b % p, half * x;
    assert 256 * x == 2 * y * p;
    assert (2 * y + q) * p == 2 * y * p + q * p;
    QuotientUnique(256 * x + b, p, 2 * y + q, r);
  }

  /** Bit n of a big-endian number sits in byte n / 8 from the end, at place n % 8. */
  lemma {:induction false} BigEndianBit(s: Octets, n: nat)
    requires n < 8 * |s|
    ensures BitOf(BigEndian(s), n) == BitOf(s[|s| - 1 - n / 8] as nat, n % 8)
  {
    var front, low := s[..|s| - 1], s[|s| - 1] as nat;
    if n < 8 {
      LowBits(BigEndian(front), low, n);
    } else {
      Pow2Plus8(n - 8);
      DropLowByte(BigEndian(front), low, Pow2(n - 8));
      BigEndianBit(front, n - 8);
      EightLess(n);
    }
  }

  lemma EightLess(n: nat)
    requires n >= 8
    ensures (n - 8) / 8 == n / 8 - 1 && (n - 8) % 8 == n % 8
  {
  }

  // Writing into a buffer.

  /** b with x written over it from offset at. */
  function Splice(b: Octets, at: nat, x: Octets): (r: Octets)
    requires at + |x| <= |b|
    ensures |r| == |b|
  {
    b[..at] + x + b[at + |x|..]
  }

  lemma SpliceTwice(b: Octets, at: nat, x: Octets, y: Octets)
    requires at + |x| + |y| <= |b|
    ensures Splice(Splice(b, at, x), at + |x|, y) == Splice(b, at, x + y)
  {
  }

  lemma SpliceStep(b: Octets, at: nat, x: Octets, i: nat)
    requires i < |x| && at + |x| <= |b|
    ensures Splice(b, at, x[..i])[at + i := x[i]] == Splice(b, at, x[..i + 1])
  {
  }

  /** memcpy. */
  method Copy(buf: array<Byte>, at: nat, x: Octets)
    requires at + |x| <= buf.Length
    modifies buf
    ensures buf[..] == Splice(old(buf[..]), at, x)
  {
    ghost var before := buf[..];
    for i := 0 to |x|
      invariant buf[..] == Splice(before, at, x[..i])
    {
      buf[at + i] := x[i];
      SpliceStep(before, at, x, i);
    }
    assert x[..|x|] == x;
  }
}
