/** The steering-data Bloom filter: two CRCs of a joiner ID pick two bits of a big-endian bit field. */
module Steering {
  import opened Bytes
  import opened GF2
  import Crc

  const MAX_SIZE := 16
  const ID_SIZE := 8
  const DEFAULT_LENGTH := 15

  /** Any function with 32-byte results may stand for SHA-256. */
  type Sha256 = f: Octets -> Octets | forall x :: |f(x)| == 32 witness x => Zeros(32)

  /** Bit k of a byte, counted from the low end. */
  predicate ByteBit(b: Byte, k: nat) {
    BitOf(b as nat, k)
  }

  /** b with bit k set. */
  function WithBit(b: Byte, k: nat): (r: Byte)
    requires k < 8
    ensures forall j | 0 <= j < 8 :: ByteBit(r, j) == (j == k || ByteBit(b, j))
  {
    if ByteBit(b, k) then b
    else
      Pow2Values();
      AddBit(b as nat, k, 8);
      (b as nat + Pow2(k)) as Byte
  }

  /** Adding an absent power of two stays in range and moves no other bit. */
  lemma {:induction false} AddBit(n: nat, k: nat, w: nat)
    requires k < w && n < Pow2(w) && !BitOf(n, k)
    ensures n + Pow2(k) < Pow2(w)
    ensures forall j | 0 <= j < w :: BitOf(n + Pow2(k), j) == (j == k || BitOf(n, j))
    decreases k
  {
    if k > 0 {
      HalveBit(n, k);
      AddBit(n / 2, k - 1, w - 1);
    }
    assert n % 2 == n - n / 2 * 2;
    forall j | 0 <= j < w
      ensures BitOf(n + Pow2(k), j) == (j == k || BitOf(n, j))
    {
      AddBitAt(n, k, j);
    }
  }

  lemma AddBitAt(n: nat, k: nat, j: nat)
    requires !BitOf(n, k)
    requires k > 0 && j > 0 ==> BitOf(n / 2 + Pow2(k - 1), j - 1) == (j == k || BitOf(n / 2, j - 1))
    ensures BitOf(n + Pow2(k), j) == (j == k || BitOf(n, j))
  {
    LowestBit(n);
    LowestBit(n + Pow2(k));
    if j > 0 {
      HalveBit(n, j);
      HalveBit(n + Pow2(k), j);
      assert (n + Pow2(k)) / 2 == if k > 0 then n / 2 + Pow2(k - 1) else n / 2;
    }
  }

  /** The bits set in the first len bytes of a filter, numbered from the last of those bytes. */
  ghost function FilterBits(filter: Octets, len: nat): set<nat>
    requires len <= |filter|
  {
    set n: nat | n < 8 * len && ByteBit(filter[len - 1 - n / 8], n % 8)
  }

  /** The two bits a joiner ID stands for in a filter of len bytes. */
  function IdBits(id: Octets, len: nat): set<nat>
    requires len > 0
  {
    {Crc.Fold(Crc.CCITT, 0, id) as nat % (8 * len), Crc.Fold(Crc.ANSI, 0, id) as nat % (8 * len)}
  }

  /** They are the remainders that the ID leaves when it is divided by the two generators, read as numbers and cut to
      the length of the filter. */
  lemma IdBitsAreRemainders(id: Octets, len: nat, ccitt: Poly, ansi: Poly)
    requires len > 0 && |ccitt| == |ansi| == 16
    requires HasRemainder(Crc.MessageBits(id), Crc.Generator(Crc.CCITT), ccitt)
    requires HasRemainder(Crc.MessageBits(id), Crc.Generator(Crc.ANSI), ansi)
    ensures IdBits(id, len) == {Value(ccitt) % (8 * len), Value(ansi) % (8 * len)}
  {
    Crc.CrcIsRemainder(Crc.CCITT, id, ccitt);
    Crc.CrcIsRemainder(Crc.ANSI, id, ansi);
    Crc.WordValue(Crc.Fold(Crc.CCITT, 0, id));
    Crc.WordValue(Crc.Fold(Crc.ANSI, 0, id));
  }

  function Union(ids: seq<Octets>, len: nat): set<nat>
    requires len > 0
  {
    if ids == [] then {} else Union(ids[..|ids| - 1], len) + IdBits(ids[|ids| - 1], len)
  }

  /** First 8 bytes of the digest, with the locally administered bit set. */
  function HashMac(sha: Sha256, eui64: Octets): (r: Octets)
    ensures |r| == ID_SIZE
  {
    var hash := sha(eui64);
    [WithBit(hash[0], 1)] + hash[1..ID_SIZE]
  }

  class SteeringData {
    const mBloomFilter: array<Byte>
    var mLength: nat

    ghost predicate Valid()
      reads this
    {
      mBloomFilter.Length == MAX_SIZE && mLength <= MAX_SIZE
    }

    ghost function Bits(): set<nat>
      requires Valid()
      reads this, mBloomFilter
    {
      FilterBits(mBloomFilter[..], mLength)
    }

    /** Nothing stored beyond the length in use. */
    ghost predicate TailClear()
      requires Valid()
      reads this, mBloomFilter
    {
      forall i | mLength <= i < MAX_SIZE :: mBloomFilter[i] == 0
    }

    constructor (aLength: nat)
      requires aLength <= MAX_SIZE
      ensures Valid() && TailClear() && fresh(mBloomFilter)
      ensures mLength == aLength && Bits() == {}
    {
      mBloomFilter := new Byte[MAX_SIZE];
      mLength := aLength;
      new;
      Clear();
    }

    method Init(aLength: nat)
      requires Valid() && aLength <= MAX_SIZE
      modifies this, mBloomFilter
      ensures Valid() && TailClear() && mLength == aLength && Bits() == {}
    {
      mLength := aLength;
      Clear();
    }

    method Clear()
      requires Valid()
      modifies mBloomFilter
      ensures Valid() && TailClear() && Bits() == {}
      ensures mBloomFilter[..] == Zeros(MAX_SIZE)
    {
      for i := 0 to MAX_SIZE
        invariant forall j | 0 <= j < i :: mBloomFilter[j] == 0
      {
        mBloomFilter[i] := 0;
      }
      forall n: nat | n < 8 * mLength
        ensures !ByteBit(mBloomFilter[mLength - 1 - n / 8], n % 8)
      {
        ZeroBit(n % 8);
      }
    }

    method Set()
      requires Valid()
      modifies mBloomFilter
      ensures Valid() && forall n: nat :: n in Bits() <==> n < 8 * mLength
    {
      for i := 0 to MAX_SIZE
        invariant forall j | 0 <= j < i :: mBloomFilter[j] == 255
      {
        mBloomFilter[i] := 255;
      }
      forall n: nat | n < 8 * mLength
        ensures ByteBit(mBloomFilter[mLength - 1 - n / 8], n % 8)
      {
        OnesBit(n % 8);
      }
    }

    method SetBit(aBit: nat)
      requires Valid() && aBit < 8 * mLength
      modifies mBloomFilter
      ensures Valid() && Bits() == old(Bits()) + {aBit}
      ensures old(TailClear()) ==> TailClear()
    {
      var at := mLength - 1 - aBit / 8;
      mBloomFilter[at] := WithBit(mBloomFilter[at], aBit % 8);
      forall n: nat | n < 8 * mLength
        ensures ByteBit(mBloomFilter[mLength - 1 - n / 8], n % 8)
          == (n == aBit || old(ByteBit(mBloomFilter[mLength - 1 - n / 8], n % 8)))
      {
      }
    }

    method ComputeBloomFilter(aJoinerId: Octets)
      requires Valid() && mLength > 0 && |aJoinerId| == ID_SIZE
      modifies mBloomFilter
      ensures Valid() && Bits() == old(Bits()) + IdBits(aJoinerId, mLength)
      ensures old(TailClear()) ==> TailClear()
    {
      var ccitt := new Crc.Crc16(Crc.CCITT);
      var ansi := new Crc.Crc16(Crc.ANSI);
      var numBits := mLength * 8;
      var i := 0;
      ghost var fed: Octets := [];
      while i < ID_SIZE
        invariant 0 <= i <= ID_SIZE && fed == aJoinerId[..i]
        invariant ccitt.mCrc == Crc.Fold(Crc.CCITT, 0, fed)
        invariant ansi.mCrc == Crc.Fold(Crc.ANSI, 0, fed)
        modifies ccitt, ansi
      {
        var byte := aJoinerId[i];
        ccitt.Update(byte);
        ansi.Update(byte);
        Crc.FoldLast(Crc.CCITT, 0, fed, byte);
        Crc.FoldLast(Crc.ANSI, 0, fed, byte);
        fed := fed + [byte];
        i := i + 1;
      }
      assert fed == aJoinerId;
      var first, second := ccitt.Get() as nat % numBits, ansi.Get() as nat % numBits;
      assert IdBits(aJoinerId, mLength) == {first, second};
      SetBit(first);
      SetBit(second);
    }
  }

  method ComputeHashMac(sha: Sha256, aEui64Bin: Octets) returns (aHashMacOutBuf: Octets)
    ensures aHashMacOutBuf == HashMac(sha, aEui64Bin) && aHashMacOutBuf[1..] == sha(aEui64Bin)[1..8]
    ensures forall k: nat | k < 8 :: ByteBit(aHashMacOutBuf[0], k) == (k == 1 || ByteBit(sha(aEui64Bin)[0], k))
  {
    var hash_result := sha(aEui64Bin);
    aHashMacOutBuf := hash_result[..8];
    aHashMacOutBuf := aHashMacOutBuf[0 := WithBit(aHashMacOutBuf[0], 1)];
  }

  method ComputeSteeringData(sha: Sha256, data: SteeringData, aAllowAny: bool, aEui64Bin: Octets)
    requires data.Valid() && data.mLength > 0
    modifies data.mBloomFilter
    ensures data.Valid()
    ensures aAllowAny ==> forall n: nat :: n in data.Bits() <==> n < 8 * data.mLength
    ensures !aAllowAny ==> data.Bits() == old(data.Bits()) + IdBits(HashMac(sha, aEui64Bin), data.mLength)
    ensures !aAllowAny && old(data.TailClear()) ==> data.TailClear()
  {
    if aAllowAny {
      data.Set();
    } else {
      var hashMacBin := ComputeHashMac(sha, aEui64Bin);
      data.ComputeBloomFilter(hashMacBin);
    }
  }

  lemma ZeroBit(k: nat)
    ensures !ByteBit(0, k)
  {
  }

  lemma OnesBit(k: nat)
    requires k < 8
    ensures ByteBit(255, k)
  {
    Pow2Values();
  }

  /** A bit is set exactly when some inserted ID stands for it: no misses, and order and repetition are lost. */
  lemma {:induction false} UnionMembers(ids: seq<Octets>, len: nat, n: nat)
    requires len > 0
    ensures n in Union(ids, len) <==> exists id :: id in ids && n in IdBits(id, len)
  {
    if ids != [] {
      var front, last := ids[..|ids| - 1], ids[|ids| - 1];
      assert ids == front + [last];
      UnionMembers(front, len, n);
    }
  }

  lemma UnionAppend(ids: seq<Octets>, id: Octets, len: nat)
    requires len > 0
    ensures Union(ids + [id], len) == Union(ids, len) + IdBits(id, len)
  {
    assert (ids + [id])[..|ids|] == ids;
  }

  lemma OrderIrrelevant(a: seq<Octets>, b: seq<Octets>, len: nat)
    requires len > 0 && forall id :: id in a <==> id in b
    ensures Union(a, len) == Union(b, len)
  {
    forall n: nat
      ensures n in Union(a, len) <==> n in Union(b, len)
    {
      UnionMembers(a, len, n);
      UnionMembers(b, len, n);
    }
  }

  /** Bit n of the filter is bit n of its bytes read as one big-endian number. */
  lemma FilterIsBigEndian(filter: Octets, len: nat, n: nat)
    requires len <= |filter| && n < 8 * len
    ensures n in FilterBits(filter, len) <==> BitOf(BigEndian(filter[..len]), n)
  {
    BigEndianBit(filter[..len], n);
  }

  lemma {:induction false} BitsDecide(m: nat, n: nat, w: nat)
    requires m < Pow2(w) && n < Pow2(w) && forall j | 0 <= j < w :: BitOf(m, j) == BitOf(n, j)
    ensures m == n
    decreases w
  {
    if w > 0 {
      assert BitOf(m, 0) == BitOf(n, 0) && Pow2(0) == 1;
      forall j | 0 <= j < w - 1
        ensures BitOf(m / 2, j) == BitOf(n / 2, j)
      {
        HalveBit(m, j + 1);
        HalveBit(n, j + 1);
      }
      BitsDecide(m / 2, n / 2, w - 1);
    }
  }

  lemma BytesDecide(x: Byte, y: Byte)
    requires forall k | 0 <= k < 8 :: ByteBit(x, k) == ByteBit(y, k)
    ensures x == y
  {
    var m, n := x as nat, y as nat;
    Pow2Values();
    forall k | 0 <= k < 8
      ensures BitOf(m, k) == BitOf(n, k)
    {
      assert ByteBit(x, k) == ByteBit(y, k);
    }
    BitsDecide(m, n, 8);
  }

  /** The set of bits is the whole content: filters with the same bits hold the same bytes. */
  lemma BitsAreContent(a: Octets, b: Octets, len: nat)
    requires len <= |a| && len <= |b| && FilterBits(a, len) == FilterBits(b, len)
    ensures a[..len] == b[..len]
  {
    forall i | 0 <= i < len
      ensures a[i] == b[i]
    {
      forall k | 0 <= k < 8
        ensures ByteBit(a[i], k) == ByteBit(b[i], k)
      {
        var n := 8 * (len - 1 - i) + k;
        assert n / 8 == len - 1 - i && n % 8 == k;
        assert n in FilterBits(a, len) <==> n in FilterBits(b, len);
      }
      BytesDecide(a[i], b[i]);
    }
  }
}
