/** The PSKc: PBKDF2 over a pseudo-random function, with loops over fixed buffers. */
module Pskc {
  import opened Bytes

  const BLOCK := 16
  const SALT_MAX := 30
  const XPANID_LEN := 8
  const NAME_MAX := 16

  /** "Thread" */
  const PREFIX: Octets := [84, 104, 114, 101, 97, 100]

  /** Any function with 16-byte results may stand for AES-CMAC-PRF-128. */
  type Prf = f: (Octets, Octets) -> Octets | forall k, m :: |f(k, m)| == BLOCK witness (_, _) => Zeros(BLOCK)

  // Exclusive or.

  function XorBits(a: nat, b: nat, w: nat): (r: nat)
    ensures r < Pow2(w)
    decreases w
  {
    if w == 0 then 0 else 2 * XorBits(a / 2, b / 2, w - 1) + if a % 2 == b % 2 then 0 else 1
  }

  function XorByte(a: Byte, b: Byte): Byte {
    Pow2Values();
    XorBits(a as nat, b as nat, 8) as Byte
  }

  lemma {:induction false} XorBitsAt(a: nat, b: nat, w: nat, k: nat)
    requires k < w
    ensures BitOf(XorBits(a, b, w), k) == (BitOf(a, k) != BitOf(b, k))
    decreases w
  {
    var r := XorBits(a, b, w);
    if k == 0 {
      LowestBit(a);
      LowestBit(b);
      LowestBit(r);
    } else {
      HalveBit(a, k);
      HalveBit(b, k);
      HalveBit(r, k);
      assert r / 2 == XorBits(a / 2, b / 2, w - 1);
      XorBitsAt(a / 2, b / 2, w - 1, k - 1);
    }
  }

  function Xor(x: Octets, y: Octets): (r: Octets)
    requires |x| == |y|
    ensures |r| == |x| && forall i {:trigger r[i]} | 0 <= i < |x| :: r[i] == XorByte(x[i], y[i])
  {
    seq(|x|, i requires 0 <= i < |x| => XorByte(x[i], y[i]))
  }

  // PBKDF2 as section 5.2 of RFC 8018 defines it.

  /** A 32-bit number, most significant byte first. */
  function Int(i: nat): (r: Octets)
    requires i < 0x1_0000_0000
    ensures |r| == 4
  {
    Word(i / 0x1_0000) + Word(i % 0x1_0000)
  }

  lemma IntIsBigEndian(i: nat)
    requires i < 0x1_0000_0000
    ensures BigEndian(Int(i)) == i
  {
    var r := Int(i);
    assert r[..3][..2] == r[..2] && r[..2][..1] == r[..1] && r[..1][..0] == [];
    assert BigEndian(r[..1]) == r[0] as nat;
    assert BigEndian(r[..2]) == 256 * r[0] as nat + r[1] as nat;
    assert BigEndian(r[..3]) == 256 * BigEndian(r[..2]) + r[2] as nat;
    assert r[0] as nat * 256 + r[1] as nat == i / 0x1_0000 && r[2] as nat * 256 + r[3] as nat == i % 0x1_0000;
  }

  /** U_j of block i. */
  function U(prf: Prf, p: Octets, s: Octets, i: nat, j: nat): (r: Octets)
    requires j > 0 && i < 0x1_0000_0000
    ensures |r| == BLOCK
    decreases j, s
  {
    if j == 1 then prf(p, s + Int(i)) else prf(p, U(prf, p, s, i, j - 1))
  }

  /** T_i, the exclusive or of U_1 to U_c. */
  function T(prf: Prf, p: Octets, s: Octets, i: nat, c: nat): (r: Octets)
    requires c > 0 && i < 0x1_0000_0000
    ensures |r| == BLOCK
    decreases c, s
  {
    if c == 1 then U(prf, p, s, i, 1) else Xor(T(prf, p, s, i, c - 1), U(prf, p, s, i, c))
  }

  /** Is the bit set in an odd number of U_1 to U_c? */
  predicate OddlySet(prf: Prf, p: Octets, s: Octets, i: nat, c: nat, k: nat, bit: nat)
    requires k < BLOCK && i < 0x1_0000_0000
    decreases c, s
  {
    c > 0 && (OddlySet(prf, p, s, i, c - 1, k, bit) != BitOf(U(prf, p, s, i, c)[k] as nat, bit))
  }

  /** A bit of T_i is set exactly when it is set in an odd number of U_1 to U_c. */
  lemma {:induction false} KeyBitParity(prf: Prf, p: Octets, s: Octets, i: nat, c: nat, k: nat, bit: nat)
    requires c > 0 && k < BLOCK && bit < 8 && i < 0x1_0000_0000
    ensures BitOf(T(prf, p, s, i, c)[k] as nat, bit) == OddlySet(prf, p, s, i, c, k, bit)
    decreases c
  {
    if c > 1 {
      KeyBitParity(prf, p, s, i, c - 1, k, bit);
      XorBitsAt(T(prf, p, s, i, c - 1)[k] as nat, U(prf, p, s, i, c)[k] as nat, 8, bit);
    }
  }

  /** T_1 to T_l, one after the other. */
  function Ts(prf: Prf, p: Octets, s: Octets, c: nat, l: nat): (r: Octets)
    requires c > 0 && l < 0x1_0000_0000
    ensures |r| == BLOCK * l
    decreases l, s
  {
    if l == 0 then [] else Ts(prf, p, s, c, l - 1) + T(prf, p, s, l, c)
  }

  /** How many blocks cover n bytes. */
  function Cover(n: nat): (l: nat)
    ensures BLOCK * l >= n && (l > 0 ==> BLOCK * (l - 1) < n)
  {
    (n + BLOCK - 1) / BLOCK
  }

  function Pbkdf2(prf: Prf, p: Octets, s: Octets, c: nat, n: nat): (r: Octets)
    requires c > 0 && n < 0x1_0000
    ensures |r| == n
  {
    Ts(prf, p, s, c, Cover(n))[..n]
  }

  // The key, bit by bit.

  /** The chain of a block: the function applied to salt and block number, and then again and again to its result. */
  predicate IsChain(prf: Prf, p: Octets, s: Octets, i: nat, us: seq<Octets>) {
    && i < 0x1_0000_0000 && us != []
    && us[0] == prf(p, s + Int(i))
    && forall j | 0 < j < |us| :: us[j] == prf(p, us[j - 1])
  }

  /** Is the bit set in an odd number of the first n of these? */
  predicate OddlyIn(us: seq<Octets>, n: nat, k: nat, bit: nat)
    requires n <= |us| && forall j | 0 <= j < n :: k < |us[j]|
  {
    n > 0 && (OddlyIn(us, n - 1, k, bit) != BitOf(us[n - 1][k] as nat, bit))
  }

  lemma {:induction false} ChainAt(prf: Prf, p: Octets, s: Octets, i: nat, us: seq<Octets>, j: nat)
    requires IsChain(prf, p, s, i, us) && j < |us|
    ensures us[j] == U(prf, p, s, i, j + 1)
    decreases j
  {
    if j > 0 {
      ChainAt(prf, p, s, i, us, j - 1);
      assert us[j] == prf(p, us[j - 1]);
    }
  }

  lemma {:induction false} OddlyBoth(prf: Prf, p: Octets, s: Octets, i: nat, us: seq<Octets>, n: nat, k: nat, bit: nat)
    requires IsChain(prf, p, s, i, us) && n <= |us| && k < BLOCK && forall j | 0 <= j < |us| :: |us[j]| == BLOCK
    ensures OddlyIn(us, n, k, bit) == OddlySet(prf, p, s, i, n, k, bit)
    decreases n
  {
    if n > 0 {
      ChainAt(prf, p, s, i, us, n - 1);
      OddlyBoth(prf, p, s, i, us, n - 1, k, bit);
    }
  }

  lemma JoinedAt(a: Octets, b: Octets, x: nat)
    requires x < |a| + |b|
    ensures (a + b)[x] == if x < |a| then a[x] else b[x - |a|]
  {
  }

  /** Byte x of the blocks is byte x % 16 of block x / 16, counted from 1. */
  lemma {:induction false} BlockAt(prf: Prf, p: Octets, s: Octets, c: nat, l: nat, ts: Octets, x: nat, i: nat, k: nat)
    requires c > 0 && l < 0x1_0000_0000 && 0 < i <= l && k < BLOCK && x == BLOCK * (i - 1) + k
    requires ts == Ts(prf, p, s, c, l)
    ensures x < |ts| && ts[x] == T(prf, p, s, i, c)[k]
    decreases l
  {
    var front, last := Ts(prf, p, s, c, l - 1), T(prf, p, s, l, c);
    JoinedAt(front, last, x);
    if i < l {
      BlockAt(prf, p, s, c, l - 1, front, x, i, k);
    }
  }

  /** Every bit of a key of any length is the parity over the chain of its block. */
  lemma KeyIsChains(prf: Prf, p: Octets, s: Octets, n: nat, i: nat, us: seq<Octets>, k: nat, bit: nat)
    requires IsChain(prf, p, s, i, us) && 0 < i && k < 16 && bit < 8
    requires 16 * (i - 1) + k < n < 0x1_0000
    ensures forall j | 0 <= j < |us| :: |us[j]| == 16
    ensures BitOf(Pbkdf2(prf, p, s, |us|, n)[16 * (i - 1) + k] as nat, bit) == OddlyIn(us, |us|, k, bit)
  {
    forall j | 0 <= j < |us|
      ensures |us[j]| == BLOCK
    {
      ChainAt(prf, p, s, i, us, j);
    }
    BlockAt(prf, p, s, |us|, Cover(n), Ts(prf, p, s, |us|, Cover(n)), 16 * (i - 1) + k, i, k);
    KeyBitParity(prf, p, s, i, |us|, k, bit);
    OddlyBoth(prf, p, s, i, us, |us|, k, bit);
  }

  // The code.

  function SaltBytes(xpanid: Octets, name: Octets): (r: Octets)
    requires |xpanid| == XPANID_LEN && |name| <= NAME_MAX
    ensures |r| == SALT_MAX
  {
    PREFIX + xpanid + name + Zeros(NAME_MAX - |name|)
  }

  lemma SaltSpliced(xpanid: Octets, name: Octets)
    requires |xpanid| == XPANID_LEN && |name| <= NAME_MAX
    ensures var b := Splice(Splice(Zeros(SALT_MAX), 0, PREFIX), |PREFIX|, xpanid);
      Splice(b, |PREFIX| + XPANID_LEN, name) == SaltBytes(xpanid, name) && (name == [] ==> b == SaltBytes(xpanid, name))
  {
    var a := Splice(Zeros(SALT_MAX), 0, PREFIX);
    assert a == PREFIX + Zeros(SALT_MAX - |PREFIX|);
    assert Splice(a, |PREFIX|, xpanid) == PREFIX + xpanid + Zeros(NAME_MAX);
  }

  lemma SaltNamed(xpanid: Octets, name: Octets)
    requires |xpanid| == XPANID_LEN && |name| <= NAME_MAX
    ensures SaltBytes(xpanid, name)[..|PREFIX| + XPANID_LEN + |name|] == PREFIX + xpanid + name
  {
  }

  lemma SpliceEnd(b: Octets, at: nat, x: Octets)
    requires at + |x| <= |b|
    ensures Splice(b, at, x)[..at + |x|] == b[..at] + x
  {
  }

  lemma SpliceStart(b: Octets, x: Octets)
    requires |x| <= |b|
    ensures Splice(b, 0, x)[..|x|] == x
    ensures |x| == |b| ==> Splice(b, 0, x) == x
  {
  }

  /** XOR the bytes of a buffer into another. */
  method XorInto(keyBlock: array<Byte>, prfOutput: array<Byte>)
    requires keyBlock.Length == prfOutput.Length == BLOCK && keyBlock != prfOutput
    modifies keyBlock
    ensures keyBlock[..] == Xor(old(keyBlock[..]), prfOutput[..])
  {
    for j := 0 to BLOCK
      invariant forall k | 0 <= k < j :: keyBlock[k] == XorByte(old(keyBlock[k]), prfOutput[k])
      invariant forall k | j <= k < BLOCK :: keyBlock[k] == old(keyBlock[k])
    {
      keyBlock[j] := XorByte(keyBlock[j], prfOutput[j]);
    }
  }

  /** The first PRF call of a block. */
  method FirstRound(prf: Prf, p: Octets, salt: Octets, blockCounter: nat,
                    prfInput: array<Byte>, prfOutput: array<Byte>, keyBlock: array<Byte>)
    requires prfInput.Length == SALT_MAX + 4 && prfOutput.Length == keyBlock.Length == BLOCK
    requires prfInput != prfOutput && prfInput != keyBlock && prfOutput != keyBlock
    requires |salt| <= SALT_MAX && blockCounter < 0x1_0000_0000
    modifies prfInput, prfOutput, keyBlock
    ensures prfOutput[..] == keyBlock[..] == U(prf, p, salt, blockCounter, 1)
  {
    ghost var before := prfInput[..];
    Copy(prfInput, 0, salt);
    Copy(prfInput, |salt|, Int(blockCounter));
    SpliceTwice(before, 0, salt, Int(blockCounter));
    SpliceStart(before, salt + Int(blockCounter));
    var u := prf(p, prfInput[..|salt| + 4]);
    SpliceStart(prfOutput[..], u);
    Copy(prfOutput, 0, u);
    SpliceStart(keyBlock[..], u);
    Copy(keyBlock, 0, prfOutput[..]);
  }

  /** One more PRF call, and its exclusive or into the block. */
  method NextRound(prf: Prf, p: Octets, ghost salt: Octets, ghost blockCounter: nat, ghost i: nat,
                   prfInput: array<Byte>, prfOutput: array<Byte>, keyBlock: array<Byte>)
    requires prfInput.Length == SALT_MAX + 4 && prfOutput.Length == keyBlock.Length == BLOCK
    requires prfInput != prfOutput && prfInput != keyBlock && prfOutput != keyBlock
    requires blockCounter < 0x1_0000_0000 && i > 0
    requires prfOutput[..] == U(prf, p, salt, blockCounter, i) && keyBlock[..] == T(prf, p, salt, blockCounter, i)
    modifies prfInput, prfOutput, keyBlock
    ensures prfOutput[..] == U(prf, p, salt, blockCounter, i + 1)
    ensures keyBlock[..] == T(prf, p, salt, blockCounter, i + 1)
  {
    SpliceStart(prfInput[..], prfOutput[..]);
    Copy(prfInput, 0, prfOutput[..]);
    var u := prf(p, prfInput[..BLOCK]);
    SpliceStart(prfOutput[..], u);
    Copy(prfOutput, 0, u);
    XorInto(keyBlock, prfOutput);
  }

  /** One block: the inner loop. */
  method ComputeBlock(prf: Prf, p: Octets, salt: Octets, c: nat, blockCounter: nat,
                      prfInput: array<Byte>, prfOutput: array<Byte>, keyBlock: array<Byte>)
    requires prfInput.Length == SALT_MAX + 4 && prfOutput.Length == keyBlock.Length == BLOCK
    requires prfInput != prfOutput && prfInput != keyBlock && prfOutput != keyBlock
    requires |salt| <= SALT_MAX && blockCounter < 0x1_0000_0000 && c > 0
    modifies prfInput, prfOutput, keyBlock
    ensures keyBlock[..] == T(prf, p, salt, blockCounter, c)
  {
    FirstRound(prf, p, salt, blockCounter, prfInput, prfOutput, keyBlock);
    for i := 1 to c
      invariant prfOutput[..] == U(prf, p, salt, blockCounter, i)
      invariant keyBlock[..] == T(prf, p, salt, blockCounter, i)
    {
      NextRound(prf, p, salt, blockCounter, i, prfInput, prfOutput, keyBlock);
    }
  }

  lemma CoverIs(l: nat, use: nat)
    requires 0 < use <= BLOCK
    ensures Cover(BLOCK * l) == l && Cover(BLOCK * l + use) == l + 1
  {
  }

  /** After l full blocks, the bytes of one more, as many as are still wanted. */
  lemma OneMoreBlock(prf: Prf, p: Octets, s: Octets, c: nat, l: nat, use: nat)
    requires c > 0 && 0 < use <= BLOCK && BLOCK * l + use < 0x1_0000
    ensures Pbkdf2(prf, p, s, c, BLOCK * l) + T(prf, p, s, l + 1, c)[..use] == Pbkdf2(prf, p, s, c, BLOCK * l + use)
  {
    CoverIs(l, use);
    var done, more := Ts(prf, p, s, c, l), T(prf, p, s, l + 1, c);
    assert Ts(prf, p, s, c, l + 1) == done + more;
    assert (done + more)[..BLOCK * l + use] == done + more[..use];
    assert done[..BLOCK * l] == done;
  }

  class PskcGenerator {
    const mSalt: array<Byte>
    var mSaltLen: nat
    const mPskc: array<Byte>

    ghost predicate Valid()
      reads this
    {
      mSalt.Length == SALT_MAX && mPskc.Length < 0x1_0000 && mSalt != mPskc
    }

    /** The length of the salt starts with anything. */
    constructor (pskcLen: nat, garbageLen: nat)
      requires pskcLen < 0x1_0000
      ensures Valid() && mPskc.Length == pskcLen && mSaltLen == garbageLen && fresh(mSalt) && fresh(mPskc)
    {
      mSalt := new Byte[SALT_MAX];
      mSaltLen := garbageLen;
      mPskc := new Byte[pskcLen];
    }

    /** An empty name is only logged: the length of the salt stays as it was. */
    method SetSalt(aExtPanId: Octets, aNetworkName: Octets)
      requires Valid() && |aExtPanId| == XPANID_LEN && |aNetworkName| <= NAME_MAX
      modifies this`mSaltLen, mSalt
      ensures Valid() && mSalt[..] == SaltBytes(aExtPanId, aNetworkName)
      ensures mSaltLen == if aNetworkName == [] then old(mSaltLen) else |PREFIX| + XPANID_LEN + |aNetworkName|
    {
      SpliceStart(mSalt[..], Zeros(SALT_MAX));
      SaltSpliced(aExtPanId, aNetworkName);
      Copy(mSalt, 0, Zeros(SALT_MAX));
      Copy(mSalt, 0, PREFIX);
      var cur := |PREFIX|;
      Copy(mSalt, cur, aExtPanId);
      cur := cur + XPANID_LEN;
      if |aNetworkName| > 0 {
        Copy(mSalt, cur, aNetworkName);
        cur := cur + |aNetworkName|;
        mSaltLen := cur;
      }
    }

    method ComputePskc(prf: Prf, aExtPanId: Octets, aNetworkName: Octets, aPassphrase: Octets, iterations: nat)
      requires Valid() && |aExtPanId| == XPANID_LEN && |aNetworkName| <= NAME_MAX && iterations > 0
      requires aNetworkName == [] ==> mSaltLen <= SALT_MAX
      modifies this`mSaltLen, mSalt, mPskc
      ensures Valid() && mSaltLen <= SALT_MAX
      ensures var salt := SaltBytes(aExtPanId, aNetworkName)[..mSaltLen];
        mPskc[..] == Pbkdf2(prf, aPassphrase, salt, iterations, mPskc.Length)
      ensures aNetworkName != [] ==>
        mPskc[..] == Pbkdf2(prf, aPassphrase, PREFIX + aExtPanId + aNetworkName, iterations, mPskc.Length)
    {
      SetSalt(aExtPanId, aNetworkName);
      ghost var s := SaltBytes(aExtPanId, aNetworkName)[..mSaltLen];
      SaltNamed(aExtPanId, aNetworkName);
      Derive(prf, aPassphrase, s, iterations);
    }

    /** One turn of the outer loop: compute a block and append what is wanted of it. */
    method AppendBlock(prf: Prf, p: Octets, c: nat, blockCounter: nat, pskc: nat, useLen: nat, ghost s: Octets,
                       prfInput: array<Byte>, prfOutput: array<Byte>, keyBlock: array<Byte>)
      requires Valid() && mSaltLen <= SALT_MAX && s == mSalt[..mSaltLen] && c > 0
      requires prfInput.Length == SALT_MAX + 4 && prfOutput.Length == keyBlock.Length == BLOCK
      requires prfInput != prfOutput && prfInput != keyBlock && prfOutput != keyBlock
      requires {mSalt, mPskc} !! {prfInput, prfOutput, keyBlock}
      requires pskc == BLOCK * blockCounter && 0 < useLen <= BLOCK && pskc + useLen <= mPskc.Length
      requires mPskc[..pskc] == Pbkdf2(prf, p, s, c, pskc)
      modifies mPskc, prfInput, prfOutput, keyBlock
      ensures mPskc[..pskc + useLen] == Pbkdf2(prf, p, s, c, pskc + useLen)
    {
      ComputeBlock(prf, p, mSalt[..mSaltLen], c, blockCounter + 1, prfInput, prfOutput, keyBlock);
      OneMoreBlock(prf, p, s, c, blockCounter, useLen);
      SpliceEnd(mPskc[..], pskc, keyBlock[..useLen]);
      Copy(mPskc, pskc, keyBlock[..useLen]);
    }

    /** The outer loop. */
    method Derive(prf: Prf, p: Octets, ghost s: Octets, c: nat)
      requires Valid() && mSaltLen <= SALT_MAX && s == mSalt[..mSaltLen] && c > 0
      modifies mPskc
      ensures mPskc[..] == Pbkdf2(prf, p, s, c, mPskc.Length)
    {
      var prfInput, prfOutput, keyBlock := new Byte[SALT_MAX + 4], new Byte[BLOCK], new Byte[BLOCK];
      var blockCounter: nat, pskc: nat, keyLen: nat := 0, 0, mPskc.Length;
      while keyLen > 0
        invariant pskc + keyLen == mPskc.Length && (keyLen > 0 ==> pskc == BLOCK * blockCounter)
        invariant s == mSalt[..mSaltLen] && mPskc[..pskc] == Pbkdf2(prf, p, s, c, pskc)
        decreases keyLen
      {
        var useLen := if keyLen < BLOCK then keyLen else BLOCK;
        AppendBlock(prf, p, c, blockCounter, pskc, useLen, s, prfInput, prfOutput, keyBlock);
        blockCounter, pskc, keyLen := blockCounter + 1, pskc + useLen, keyLen - useLen;
      }
      assert mPskc[..pskc] == mPskc[..];
    }
  }
}
