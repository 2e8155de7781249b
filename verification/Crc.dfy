/** The bit-serial CRC-16 and its algebra over GF(2). */
module Crc {
  import opened Bytes
  import opened GF2
  import opened Register

  const CCITT: bv16 := 0x1021
  const ANSI: bv16 := 0x8005

  /** One turn of the shift register. */
  function Shift(p: bv16, s: bv16): bv16 {
    if s & 0x8000 != 0 then (s << 1) ^ p else s << 1
  }

  function Shifts(p: bv16, k: nat, s: bv16): bv16
    decreases k, p, s
  {
    if k == 0 then s else Shifts(p, k - 1, Shift(p, s))
  }

  function Weigh(b: bool, weight: bv16): bv16 {
    if b then weight else 0
  }

  function HighWord(c: Poly): bv16
    requires |c| == 8
  {
    Weigh(c[0], 0x8000) | Weigh(c[1], 0x4000) | Weigh(c[2], 0x2000) | Weigh(c[3], 0x1000)
    | Weigh(c[4], 0x0800) | Weigh(c[5], 0x0400) | Weigh(c[6], 0x0200) | Weigh(c[7], 0x0100)
  }

  /** The low k bits of a number, highest first. */
  function NatBits(n: nat, k: nat): (r: Poly)
    ensures |r| == k
    decreases k, n
  {
    if k == 0 then [] else NatBits(n / 2, k - 1) + [n % 2 == 1]
  }

  function ByteBits(b: Byte): (r: Poly)
    ensures |r| == 8
  {
    NatBits(b as nat, 8)
  }

  /** A byte widened to 16 bits and shifted left by 8. */
  function HighHalf(b: Byte): bv16 {
    HighWord(ByteBits(b))
  }

  /** One message bit xored into the top of the register, then one turn. */
  function FeedBit(p: bv16, s: bv16, b: bool): bv16 {
    Shift(p, s ^ Weigh(b, 0x8000))
  }

  function FeedSerial(p: bv16, s: bv16, bits: Poly): bv16
    decreases |bits|, p, s
  {
    if bits == [] then s else FeedSerial(p, FeedBit(p, s, bits[0]), bits[1..])
  }

  /** The register after a whole message, bit by bit. */
  function Fold(p: bv16, s: bv16, msg: Octets): bv16 {
    if msg == [] then s else FeedSerial(p, Fold(p, s, msg[..|msg| - 1]), ByteBits(msg[|msg| - 1]))
  }

  lemma FoldLast(p: bv16, s: bv16, front: Octets, b: Byte)
    ensures Fold(p, s, front + [b]) == FeedSerial(p, Fold(p, s, front), ByteBits(b))
  {
    assert (front + [b])[..|front|] == front;
  }

  class Crc16 {
    const mPolynomial: bv16
    var mCrc: bv16

    constructor (aPolynomial: bv16)
      ensures mPolynomial == aPolynomial && mCrc == 0
    {
      mPolynomial := aPolynomial;
      mCrc := 0;
    }

    method Init()
      modifies this
      ensures mCrc == 0
    {
      mCrc := 0;
    }

    method Update(aByte: Byte)
      modifies this
      ensures mCrc == FeedSerial(mPolynomial, old(mCrc), ByteBits(aByte))
    {
      mCrc := mCrc ^ HighHalf(aByte);
      ghost var start := mCrc;
      var i := 8;
      while i != 0
        invariant 0 <= i <= 8
        invariant Shifts(mPolynomial, i, mCrc) == Shifts(mPolynomial, 8, start)
      {
        if mCrc & 0x8000 != 0 {
          mCrc := (mCrc << 1) ^ mPolynomial;
        } else {
          mCrc := mCrc << 1;
        }
        i := i - 1;
      }
      ByteAtOnce(mPolynomial, old(mCrc), aByte);
    }

    function Get(): bv16
      reads this
    {
      mCrc
    }
  }

  // The message as a bit string, and the register fed one bit at a time.

  function MessageBits(msg: Octets): (r: Poly)
    ensures |r| == 8 * |msg|
  {
    if msg == [] then [] else MessageBits(msg[..|msg| - 1]) + ByteBits(msg[|msg| - 1])
  }

  /** The first n bits of a word, highest first. */
  function TopBits(s: bv16, n: nat): (r: Poly)
    ensures |r| == n
    decreases n, s
  {
    if n == 0 then [] else [s & 0x8000 != 0] + TopBits(s << 1, n - 1)
  }

  /** The 16 coefficients a register holds, highest power first. */
  function WordBits(s: bv16): (r: Poly)
    ensures |r| == 16
  {
    TopBits(s, 16)
  }

  function Left(k: nat, w: bv16): bv16
    decreases k
  {
    if k == 0 then w else Left(k - 1, w << 1)
  }

  /** x^16 plus the polynomial constant. */
  function Generator(p: bv16): (r: Poly)
    ensures |r| == 17 && r[0]
  {
    [true] + WordBits(p)
  }

  lemma {:induction false} LeftAdd(j: nat, k: nat, w: bv16)
    ensures Left(j + k, w) == Left(k, Left(j, w))
    decreases j
  {
    if j > 0 {
      LeftAdd(j - 1, k, w << 1);
    }
  }

  lemma Left2(w: bv16)
    ensures Left(2, w) == w << 2
  {
    assert Left(2, w) == Left(1, w << 1) == (w << 1) << 1;
    assert (w << 1) << 1 == w << 2;
  }

  lemma Left4(w: bv16)
    ensures Left(4, w) == w << 4
  {
    Left2(w);
    Left2(w << 2);
    LeftAdd(2, 2, w);
    assert (w << 2) << 2 == w << 4;
  }

  lemma Left8(w: bv16)
    ensures Left(8, w) == w << 8
  {
    Left4(w);
    Left4(w << 4);
    LeftAdd(4, 4, w);
    assert (w << 4) << 4 == w << 8;
  }

  lemma Left16(w: bv16)
    ensures Left(16, w) == 0
  {
    Left8(w);
    Left8(w << 8);
    LeftAdd(8, 8, w);
    assert (w << 8) << 8 == 0;
  }

  lemma {:induction false} TopBitsAdd(w: bv16, m: nat, n: nat)
    ensures TopBits(w, m + n) == TopBits(w, m) + TopBits(Left(m, w), n)
    decreases m
  {
    if m > 0 {
      TopBitsAdd(w << 1, m - 1, n);
    }
  }

  lemma {:induction false} TopBitsZero(n: nat)
    ensures TopBits(0, n) == Zero(n)
    decreases n
  {
    if n > 0 {
      assert (0 as bv16) << 1 == 0;
      TopBitsZero(n - 1);
    }
  }

  lemma WordBitsZero()
    ensures WordBits(0) == Zero(16)
  {
    TopBitsZero(16);
  }

  lemma WordBitsShift(w: bv16)
    ensures WordBits(w << 1) == WordBits(w)[1..] + [false]
  {
    Left16(w);
    TopBitsAdd(w << 1, 15, 1);
    assert Left(16, w) == Left(15, w << 1);
    TopBitsZero(1);
  }

  lemma XorShifted(a: bv16, b: bv16, x: bv16)
    requires x == a ^ b
    ensures x << 1 == (a << 1) ^ (b << 1)
    ensures (x & 0x8000 != 0) == ((a & 0x8000 != 0) != (b & 0x8000 != 0))
  {
  }

  lemma ConsXor(p: bool, q: bool, a: Poly, b: Poly)
    requires |a| == |b|
    ensures Xor([p] + a, [q] + b) == [p != q] + Xor(a, b)
  {
  }

  lemma TopBitsXorStep(a: bv16, b: bv16, x: bv16, n: nat)
    requires n > 0
    requires (x & 0x8000 != 0) == ((a & 0x8000 != 0) != (b & 0x8000 != 0))
    requires TopBits(x << 1, n - 1) == Xor(TopBits(a << 1, n - 1), TopBits(b << 1, n - 1))
    ensures TopBits(x, n) == Xor(TopBits(a, n), TopBits(b, n))
  {
    ConsXor(a & 0x8000 != 0, b & 0x8000 != 0, TopBits(a << 1, n - 1), TopBits(b << 1, n - 1));
  }

  lemma {:induction false} TopBitsXor(a: bv16, b: bv16, x: bv16, n: nat)
    requires x == a ^ b
    ensures TopBits(x, n) == Xor(TopBits(a, n), TopBits(b, n))
    decreases n
  {
    if n > 0 {
      XorShifted(a, b, x);
      TopBitsXor(a << 1, b << 1, x << 1, n - 1);
      TopBitsXorStep(a, b, x, n);
    }
  }

  lemma WordBitsXor(a: bv16, b: bv16)
    ensures WordBits(a ^ b) == Xor(WordBits(a), WordBits(b))
  {
    TopBitsXor(a, b, a ^ b, 16);
  }

  lemma ZeroIffShifted(a: bv16)
    requires a & 0x8000 == 0 && a << 1 == 0
    ensures a == 0
  {
  }

  lemma {:induction false} AllBitsZero(a: bv16, n: nat)
    requires TopBits(a, n) == Zero(n) && Left(n, a) == 0
    ensures a == 0
    decreases n
  {
    if n > 0 {
      assert !TopBits(a, n)[0];
      assert TopBits(a << 1, n - 1) == TopBits(a, n)[1..] == Zero(n - 1);
      AllBitsZero(a << 1, n - 1);
      ZeroIffShifted(a);
    }
  }

  lemma XorZeroWord(a: bv16, b: bv16)
    requires a ^ b == 0
    ensures a == b
  {
  }

  lemma WordBitsInjective(a: bv16, b: bv16)
    requires WordBits(a) == WordBits(b)
    ensures a == b
  {
    WordBitsXor(a, b);
    XorZeroIff(WordBits(a), WordBits(b));
    Left16(a ^ b);
    AllBitsZero(a ^ b, 16);
    XorZeroWord(a, b);
  }

  lemma ShiftIsTurn(p: bv16, s: bv16)
    ensures WordBits(Shift(p, s)) == Turn(WordBits(p), WordBits(s))
  {
    WordBitsShift(s);
    WordBitsXor(s << 1, p);
  }

  lemma {:induction false} ShiftsAreTurns(p: bv16, k: nat, s: bv16)
    ensures WordBits(Shifts(p, k, s)) == Turns(WordBits(p), k, WordBits(s))
    decreases k
  {
    if k > 0 {
      ShiftIsTurn(p, s);
      ShiftsAreTurns(p, k - 1, Shift(p, s));
    }
  }

  lemma HighWordShifts(c: Poly)
    requires |c| == 8
    ensures var w := HighWord(c);
      && w << 8 == 0
      && (w & 0x8000 != 0) == c[0] && (w & 0x4000 != 0) == c[1] && (w & 0x2000 != 0) == c[2]
      && (w & 0x1000 != 0) == c[3] && (w & 0x0800 != 0) == c[4] && (w & 0x0400 != 0) == c[5]
      && (w & 0x0200 != 0) == c[6] && (w & 0x0100 != 0) == c[7]
  {
  }

  lemma MaskShifts(w: bv16)
    ensures ((w << 1) & 0x8000 != 0) == (w & 0x4000 != 0)
    ensures ((w << 1) & 0x4000 != 0) == (w & 0x2000 != 0)
    ensures ((w << 1) & 0x2000 != 0) == (w & 0x1000 != 0)
    ensures ((w << 1) & 0x1000 != 0) == (w & 0x0800 != 0)
    ensures ((w << 1) & 0x0800 != 0) == (w & 0x0400 != 0)
    ensures ((w << 1) & 0x0400 != 0) == (w & 0x0200 != 0)
    ensures ((w << 1) & 0x0200 != 0) == (w & 0x0100 != 0)
  {
  }

  lemma TopFour(w: bv16)
    ensures TopBits(w, 4) == [w & 0x8000 != 0, w & 0x4000 != 0, w & 0x2000 != 0, w & 0x1000 != 0]
  {
    TopTwo(w);
    TopTwo(w << 2);
    TopBitsAdd(w, 2, 2);
    Left2(w);
    assert ((w << 2) & 0x8000 != 0) == (w & 0x2000 != 0);
    assert ((w << 2) & 0x4000 != 0) == (w & 0x1000 != 0);
  }

  lemma TopTwo(w: bv16)
    ensures TopBits(w, 2) == [w & 0x8000 != 0, w & 0x4000 != 0]
  {
    MaskShifts(w);
    assert TopBits(w << 1, 1) == [(w << 1) & 0x8000 != 0];
  }

  lemma FourShifts(w: bv16)
    ensures ((w << 4) & 0x8000 != 0) == (w & 0x0800 != 0)
    ensures ((w << 4) & 0x4000 != 0) == (w & 0x0400 != 0)
    ensures ((w << 4) & 0x2000 != 0) == (w & 0x0200 != 0)
    ensures ((w << 4) & 0x1000 != 0) == (w & 0x0100 != 0)
  {
  }

  lemma HighWordBits(c: Poly)
    requires |c| == 8
    ensures WordBits(HighWord(c)) == c + Zero(8)
  {
    HighWordShifts(c);
    SixteenBits(HighWord(c));
    TopBitsZero(8);
    HighWordTop(c);
  }

  lemma HighWordTop(c: Poly)
    requires |c| == 8
    ensures TopBits(HighWord(c), 8) == c
  {
    HighWordShifts(c);
    TopEight(HighWord(c));
  }

  lemma TopEight(w: bv16)
    ensures TopBits(w, 8) == [w & 0x8000 != 0, w & 0x4000 != 0, w & 0x2000 != 0, w & 0x1000 != 0,
                              w & 0x0800 != 0, w & 0x0400 != 0, w & 0x0200 != 0, w & 0x0100 != 0]
  {
    TopBitsAdd(w, 4, 4);
    Left4(w);
    TopFour(w);
    TopFour(w << 4);
    FourShifts(w);
  }

  lemma HighHalfBits(b: Byte)
    ensures WordBits(HighHalf(b)) == ByteBits(b) + Zero(8)
  {
    HighWordBits(ByteBits(b));
  }

  lemma LowHalfClear(c: Poly)
    requires |c| == 8
    ensures (c + Zero(8))[..8] == c && (c + Zero(8))[8..] + Zero(8) == Zero(16)
  {
  }

  lemma AtOnceFeeds(p: bv16, s: bv16, b: Byte)
    ensures WordBits(Shifts(p, 8, s ^ HighHalf(b))) == FeedBits(WordBits(p), WordBits(s), ByteBits(b))
  {
    var w := ByteBits(b) + Zero(8);
    HighHalfBits(b);
    WordBitsXor(s, HighHalf(b));
    ShiftsAreTurns(p, 8, s ^ HighHalf(b));
    TurnsAreFeeds(WordBits(p), 8, WordBits(s), w);
    LowHalfClear(ByteBits(b));
    XorZero(FeedBits(WordBits(p), WordBits(s), ByteBits(b)));
  }

  lemma FlipFirst(s: Poly, t: Poly, b: bool)
    requires |s| > 0 && t == [b] + Zero(|s| - 1)
    ensures Xor(s, t) == [s[0] != b] + s[1..]
  {
  }

  lemma TopFlipped(s: bv16, b: bool)
    ensures WordBits(s ^ Weigh(b, 0x8000)) == [WordBits(s)[0] != b] + WordBits(s)[1..]
  {
    var t := Weigh(b, 0x8000);
    TopAlone(b);
    WordBitsXor(s, t);
    FlipFirst(WordBits(s), WordBits(t), b);
  }

  lemma FeedBitIsFeed(p: bv16, s: bv16, b: bool)
    ensures WordBits(FeedBit(p, s, b)) == Feed(WordBits(p), WordBits(s), b)
  {
    TopFlipped(s, b);
    ShiftIsTurn(p, s ^ Weigh(b, 0x8000));
  }

  lemma TopAlone(b: bool)
    ensures WordBits(Weigh(b, 0x8000)) == [b] + Zero(15)
  {
    var t := Weigh(b, 0x8000);
    assert t << 1 == 0 && (t & 0x8000 != 0) == b;
    TopBitsZero(15);
  }

  lemma {:induction false} SerialFeeds(p: bv16, s: bv16, bits: Poly)
    ensures WordBits(FeedSerial(p, s, bits)) == FeedBits(WordBits(p), WordBits(s), bits)
    decreases |bits|
  {
    if bits != [] {
      FeedBitIsFeed(p, s, bits[0]);
      SerialFeeds(p, FeedBit(p, s, bits[0]), bits[1..]);
    }
  }

  /** Xoring the byte into the high half and turning eight times is feeding its bits one by one. */
  lemma ByteAtOnce(p: bv16, s: bv16, b: Byte)
    ensures Shifts(p, 8, s ^ HighHalf(b)) == FeedSerial(p, s, ByteBits(b))
  {
    AtOnceFeeds(p, s, b);
    SerialFeeds(p, s, ByteBits(b));
    WordBitsInjective(Shifts(p, 8, s ^ HighHalf(b)), FeedSerial(p, s, ByteBits(b)));
  }

  /** The register works on the message as one bit string. */
  lemma {:induction false} FoldFeeds(p: bv16, s: bv16, msg: Octets)
    ensures WordBits(Fold(p, s, msg)) == FeedBits(WordBits(p), WordBits(s), MessageBits(msg))
    decreases |msg|
  {
    if msg != [] {
      var front, b := msg[..|msg| - 1], msg[|msg| - 1];
      FoldFeeds(p, s, front);
      SerialFeeds(p, Fold(p, s, front), ByteBits(b));
      FeedAppend(WordBits(p), WordBits(s), MessageBits(front), ByteBits(b));
    }
  }

  lemma CrcFeeds(p: bv16, msg: Octets)
    ensures WordBits(Fold(p, 0, msg)) == FeedBits(WordBits(p), Zero(16), MessageBits(msg))
  {
    FoldFeeds(p, 0, msg);
    WordBitsZero();
  }

  /** The CRC is the remainder of M(x) * x^16 divided by x^16 + p: it is one, and the only one. */
  lemma CrcIsRemainder(p: bv16, msg: Octets, r: Poly)
    requires |r| == 16
    ensures HasRemainder(MessageBits(msg), Generator(p), r) <==> r == WordBits(Fold(p, 0, msg))
  {
    CrcFeeds(p, msg);
    RemainderIff(WordBits(p), MessageBits(msg), r);
    assert Generator(p) == [true] + WordBits(p);
  }

  lemma AppendInjective(a: Poly, u: Poly, b: Poly, v: Poly)
    requires (|a| == |b| || |u| == |v|) && a + u == b + v
    ensures a == b && u == v
  {
    assert a == (a + u)[..|a|] && u == (a + u)[|a|..];
    assert b == (b + v)[..|b|] && v == (b + v)[|b|..];
  }

  lemma {:induction false} NatBitsInjective(m: nat, n: nat, k: nat)
    requires m < Pow2(k) && n < Pow2(k) && NatBits(m, k) == NatBits(n, k)
    ensures m == n
    decreases k
  {
    if k > 0 {
      AppendInjective(NatBits(m / 2, k - 1), [m % 2 == 1], NatBits(n / 2, k - 1), [n % 2 == 1]);
      NatBitsInjective(m / 2, n / 2, k - 1);
    }
  }

  lemma ByteBitsInjective(a: Byte, b: Byte)
    requires ByteBits(a) == ByteBits(b)
    ensures a == b
  {
    Pow2Values();
    NatBitsInjective(a as nat, b as nat, 8);
  }

  lemma SplitLast(a: Octets, front: Octets, last: Byte)
    requires a != [] && front == a[..|a| - 1] && last == a[|a| - 1]
    ensures a == front + [last]
    ensures MessageBits(a) == MessageBits(front) + ByteBits(last)
  {
  }

  lemma {:induction false} MessageBitsInjective(a: Octets, b: Octets)
    requires |a| == |b| && MessageBits(a) == MessageBits(b)
    ensures a == b
    decreases |a|
  {
    if a != [] {
      var n := |a| - 1;
      var a', x, b', y := a[..n], a[n], b[..n], b[n];
      SplitLast(a, a', x);
      SplitLast(b, b', y);
      AppendInjective(MessageBits(a'), ByteBits(x), MessageBits(b'), ByteBits(y));
      MessageBitsInjective(a', b');
      ByteBitsInjective(x, y);
    }
  }

  lemma CrcsEqualIff(p: bv16, a: Octets, b: Octets)
    ensures Fold(p, 0, a) == Fold(p, 0, b)
       <==> FeedBits(WordBits(p), Zero(16), MessageBits(a)) == FeedBits(WordBits(p), Zero(16), MessageBits(b))
  {
    CrcFeeds(p, a);
    CrcFeeds(p, b);
    if WordBits(Fold(p, 0, a)) == WordBits(Fold(p, 0, b)) {
      WordBitsInjective(Fold(p, 0, a), Fold(p, 0, b));
    }
  }

  /** Different messages that differ only within 16 consecutive bits have different CRCs. */
  lemma CrcDetectsBursts(p: bv16, a: Octets, b: Octets, lo: nat)
    requires p == CCITT || p == ANSI
    requires |a| == |b| && a != b
    requires DifferOnlyIn(MessageBits(a), MessageBits(b), lo, lo + 16)
    ensures Fold(p, 0, a) != Fold(p, 0, b)
  {
    if MessageBits(a) == MessageBits(b) {
      MessageBitsInjective(a, b);
    }
    PolynomialBits();
    BurstDetected(WordBits(p), MessageBits(a), MessageBits(b), lo);
    CrcsEqualIff(p, a, b);
  }

  /** Equal-length messages collide exactly when the generator divides their difference. */
  lemma CrcCollisionIff(p: bv16, a: Octets, b: Octets)
    requires |a| == |b|
    ensures Fold(p, 0, a) == Fold(p, 0, b)
       <==> HasRemainder(Xor(MessageBits(a), MessageBits(b)), Generator(p), Zero(16))
  {
    CrcsEqualIff(p, a, b);
    CollisionIff(WordBits(p), MessageBits(a), MessageBits(b));
  }

  lemma SixteenBits(w: bv16)
    ensures WordBits(w) == TopBits(w, 8) + TopBits(w << 8, 8)
  {
    TopBitsAdd(w, 8, 8);
    Left8(w);
  }

  lemma PolynomialBits()
    ensures WordBits(CCITT) == Zero(3) + ([true] + (Zero(6) + ([true] + (Zero(4) + ([true] + [])))))
    ensures WordBits(ANSI) == [] + ([true] + (Zero(12) + ([true] + ([false] + ([true] + [])))))
  {
    SixteenBits(CCITT);
    TopEight(0x1021);
    TopEight(0x2100);
    SixteenBits(ANSI);
    TopEight(0x8005);
    TopEight(0x0500);
  }

  lemma OddPolynomials()
    ensures Parity(WordBits(CCITT)) && Parity(WordBits(ANSI))
  {
    ParityZero(3);
    ParityZero(4);
    ParityZero(6);
    ParityZero(12);
    var low := Zero(4) + ([true] + []);
    var mid := Zero(6) + ([true] + low);
    ParityOnes(Zero(4), []);
    ParityOnes(Zero(6), low);
    ParityOnes(Zero(3), mid);
    var ones := [false] + ([true] + []);
    ParityOnes([false], []);
    ParityOnes(Zero(12), ones);
    ParityOnes([], Zero(12) + ([true] + ones));
    PolynomialBits();
  }

  lemma ParityOnes(a: Poly, b: Poly)
    ensures Parity(a + ([true] + b)) == (Parity(a) == Parity(b))
  {
    ParityAppend(a, [true] + b);
    ParityAppend([true], b);
    assert Parity([true]);
  }

  /** A difference in an odd number of bits always changes the CRC. */
  lemma CrcDetectsOddDifferences(p: bv16, a: Octets, b: Octets)
    requires p == CCITT || p == ANSI
    requires |a| == |b| && Parity(Xor(MessageBits(a), MessageBits(b)))
    ensures Fold(p, 0, a) != Fold(p, 0, b)
  {
    OddPolynomials();
    ParityXor(MessageBits(a), MessageBits(b));
    FeedParity(WordBits(p), Zero(16), MessageBits(a));
    FeedParity(WordBits(p), Zero(16), MessageBits(b));
    CrcsEqualIff(p, a, b);
  }

  // What the bit strings mean as numbers.

  lemma {:induction false} NatBitAt(n: nat, k: nat, i: nat)
    requires i < k
    ensures NatBits(n, k)[i] == BitOf(n, k - 1 - i)
    decreases k
  {
    if i < k - 1 {
      NatBitAt(n / 2, k - 1, i);
      HalveBit(n, k - 1 - i);
    } else {
      LowestBit(n);
    }
  }

  /** The k-th bit of a message is that bit of the message read as one big-endian number, the highest first. */
  lemma {:induction false} MessageBitAt(msg: Octets, k: nat)
    requires k < 8 * |msg|
    ensures MessageBits(msg)[k] == BitOf(BigEndian(msg), 8 * |msg| - 1 - k)
  {
    BigEndianBit(msg, 8 * |msg| - 1 - k);
    FromTheEnd(|msg|, k);
    MessageByteAt(msg, k);
    NatBitAt(msg[k / 8] as nat, 8, k % 8);
  }

  lemma FromTheEnd(m: nat, k: nat)
    requires k < 8 * m
    ensures var n := 8 * m - 1 - k; k / 8 < m && m - 1 - n / 8 == k / 8 && n % 8 == 7 - k % 8
  {
  }

  lemma {:induction false} MessageByteAt(msg: Octets, k: nat)
    requires k < 8 * |msg|
    ensures MessageBits(msg)[k] == ByteBits(msg[k / 8])[k % 8]
    decreases |msg|
  {
    var front := msg[..|msg| - 1];
    if k < 8 * |front| {
      MessageByteAt(front, k);
      assert front[k / 8] == msg[k / 8];
    } else {
      assert k / 8 == |front| && k % 8 == k - 8 * |front|;
    }
  }

  function Weight(b: bool, weight: nat): nat {
    if b then weight else 0
  }

  lemma ValueAppend(a: Poly, b: bool)
    ensures Value(a + [b]) == 2 * Value(a) + Weight(b, 1)
  {
    assert (a + [b])[..|a|] == a;
  }

  lemma {:induction false} NatBitsValue(n: nat, k: nat)
    requires n < Pow2(k)
    ensures Value(NatBits(n, k)) == n
    decreases k
  {
    if k > 0 {
      NatBitsValue(n / 2, k - 1);
      ValueAppend(NatBits(n / 2, k - 1), n % 2 == 1);
    }
  }

  lemma ProductStep(x: nat, p: nat, v: nat, w: nat, last: nat, front: nat)
    requires v == x * p + front && w == 2 * v + last
    ensures w == x * (2 * p) + (2 * front + last)
  {
  }

  lemma {:induction false} ValueConcat(a: Poly, b: Poly)
    ensures Value(a + b) == Value(a) * Pow2(|b|) + Value(b)
    decreases |b|
  {
    if b == [] {
      assert a + b == a;
    } else {
      var front, last := b[..|b| - 1], b[|b| - 1];
      ValueConcat(a, front);
      ValueAppend(a + front, last);
      assert a + b == (a + front) + [last];
      ProductStep(Value(a), Pow2(|front|), Value(a + front), Value(a + b), Weight(last, 1), Value(front));
    }
  }

  /** What one shift to the left does to the number. */
  lemma ShiftNumber(s: bv16)
    ensures s as nat == Weight(s & 0x8000 != 0, 0x8000) + (s << 1) as nat / 2 && (s << 1) as nat % 2 == 0
  {
  }

  lemma TopStep(b: bool, x: nat, p: nat, q: nat, low: nat)
    requires x * (2 * q) == 2 * low && p * q == 0x8000
    ensures (Weight(b, 1) * p + x) * q == Weight(b, 0x8000) + low
  {
    assert x * (2 * q) == 2 * (x * q);
    assert (p + x) * q == p * q + x * q;
  }

  lemma ValueOne(b: bool)
    ensures Value([b]) == Weight(b, 1)
  {
    ValueAppend([], b);
    assert [] + [b] == [b];
  }

  lemma ValueCons(b: bool, a: Poly)
    ensures Value([b] + a) == Weight(b, 1) * Pow2(|a|) + Value(a)
  {
    ValueOne(b);
    ValueConcat([b], a);
  }

  lemma {:induction false} TopBitsCons(s: bv16, n: nat)
    requires n > 0
    ensures Value(TopBits(s, n)) == Weight(s & 0x8000 != 0, 1) * Pow2(n - 1) + Value(TopBits(s << 1, n - 1))
  {
    ValueCons(s & 0x8000 != 0, TopBits(s << 1, n - 1));
  }

  lemma TopScaled(b: bool, v: nat, x: nat, n: nat, s: nat, t: nat)
    requires 0 < n <= 16 && v == Weight(b, 1) * Pow2(n - 1) + x && x * Pow2(17 - n) == t
    requires t % 2 == 0 && s == Weight(b, 0x8000) + t / 2
    ensures v * Pow2(16 - n) == s
  {
    PowersMeet(n);
    TopStep(b, x, Pow2(n - 1), Pow2(16 - n), t / 2);
  }

  /** The first n bits make up the whole number when the others are zero. */
  lemma {:induction false} TopValue(s: bv16, n: nat)
    requires n <= 16 && Left(n, s) == 0
    ensures Value(TopBits(s, n)) * Pow2(16 - n) == s as nat
    decreases n
  {
    if n == 0 {
      assert Left(0, s) == s;
    } else {
      var t := s << 1;
      TopValue(t, n - 1);
      ShiftNumber(s);
      TopBitsCons(s, n);
      TopScaled(s & 0x8000 != 0, Value(TopBits(s, n)), Value(TopBits(t, n - 1)), n, s as nat, t as nat);
    }
  }

  lemma {:induction false} PowersMeet(n: nat)
    requires 0 < n <= 16
    ensures Pow2(n - 1) * Pow2(16 - n) == 0x8000 && Pow2(17 - n) == 2 * Pow2(16 - n)
    decreases n
  {
    if n == 1 {
      Pow2Plus8(7);
      Pow2Values();
    } else {
      PowersMeet(n - 1);
      assert Pow2(n - 1) == 2 * Pow2(n - 2);
      Regroup(Pow2(n - 2), Pow2(16 - n));
    }
  }

  lemma Regroup(p: nat, q: nat)
    ensures 2 * p * q == p * (2 * q)
  {
  }

  /** The coefficients of the register, read as a number, are the register. */
  lemma WordValue(s: bv16)
    ensures Value(WordBits(s)) == s as nat
  {
    Left16(s);
    TopValue(s, 16);
    assert Pow2(0) == 1;
  }

  lemma {:induction false} ValueZero(n: nat)
    ensures Value(Zero(n)) == 0
    decreases n
  {
    if n > 0 {
      ValueZero(n - 1);
      ValueAppend(Zero(n - 1), false);
      assert Zero(n) == Zero(n - 1) + [false];
    }
  }

  /** A byte goes into the register multiplied by 256. */
  lemma HighHalfIs(b: Byte)
    ensures HighHalf(b) as nat == 256 * b as nat
  {
    Pow2Values();
    NatBitsValue(b as nat, 8);
    HighHalfBits(b);
    WordValue(HighHalf(b));
    ValueConcat(ByteBits(b), Zero(8));
    ValueZero(8);
  }
}
