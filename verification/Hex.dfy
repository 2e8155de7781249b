/** Hexadecimal text and bytes. */
module Hex {
  import opened Bytes

  predicate IsHex(c: char) {
    'A' <= c <= 'F' || 'a' <= c <= 'f' || '0' <= c <= '9'
  }

  function HexValue(c: char): (r: nat)
    ensures r < 16
  {
    if 'A' <= c <= 'F' then 10 + (c as int - 'A' as int)
    else if 'a' <= c <= 'f' then 10 + (c as int - 'a' as int)
    else if '0' <= c <= '9' then c as int - '0' as int
    else 0
  }

  predicate AllHex(s: string) {
    forall i | 0 <= i < |s| :: IsHex(s[i])
  }

  /** A leading zero makes the number of digits even. */
  function Lead(s: string): (r: string)
    ensures |r| == |s| % 2
  {
    if |s| % 2 == 1 then "0" else ""
  }

  function Pad(s: string): (r: string)
    ensures |r| == |s| % 2 + |s|
  {
    Lead(s) + s
  }

  function PairByte(x: char, y: char): Byte {
    (16 * HexValue(x) + HexValue(y)) as Byte
  }

  /** One byte for every two digits; an odd last digit is dropped. */
  function Pairs(s: string): (r: Octets)
    ensures |r| == |s| / 2
    ensures forall k {:trigger r[k]} | 0 <= k < |r| :: r[k] == PairByte(s[2 * k], s[2 * k + 1])
  {
    seq(|s| / 2, k requires 0 <= k < |s| / 2 => PairByte(s[2 * k], s[2 * k + 1]))
  }

  /** Length of the longest prefix of hexadecimal digits. */
  function GoodPrefix(s: string): (n: nat)
    ensures n <= |s|
  {
    if s == [] || !IsHex(s[0]) then 0 else 1 + GoodPrefix(s[1..])
  }

  lemma {:induction false} GoodPrefixSpec(s: string)
    ensures var n := GoodPrefix(s); AllHex(s[..n]) && (n < |s| ==> !IsHex(s[n]))
  {
    if s != [] && IsHex(s[0]) {
      GoodPrefixSpec(s[1..]);
      var n := GoodPrefix(s[1..]);
      assert s[..n + 1] == [s[0]] + s[1..][..n];
    }
  }

  /** The first i characters, after the padding. */
  function Taken(s: string, i: nat): (r: string)
    requires i <= |s|
    ensures |r| == |s| % 2 + i
  {
    Lead(s) + s[..i]
  }

  /** What the decoder writes: the whole bytes of the padded digits up to the first bad character. */
  function Written(s: string): (r: Octets)
    ensures |r| <= (|s| + 1) / 2
  {
    Pairs(Taken(s, GoodPrefix(s)))
  }

  lemma GoodPrefixUnique(s: string, n: nat)
    requires n <= |s| && AllHex(s[..n]) && (n < |s| ==> !IsHex(s[n]))
    ensures GoodPrefix(s) == n
  {
    var k := GoodPrefix(s);
    GoodPrefixSpec(s);
    assert forall i | 0 <= i < k :: s[..k][i] == s[i];
    assert forall i | 0 <= i < n :: s[..n][i] == s[i];
  }

  lemma PairsExtend(s: string, c: char)
    ensures |s| % 2 == 0 ==> Pairs(s + [c]) == Pairs(s)
    ensures |s| % 2 == 1 ==> Pairs(s + [c]) == Pairs(s) + [PairByte(s[|s| - 1], c)]
  {
    if |s| % 2 == 1 {
      assert 2 * (|s| / 2) == |s| - 1;
    }
  }

  lemma GoodPrefixStops(s: string, i: nat)
    requires i <= GoodPrefix(s) && i < |s|
    ensures IsHex(s[i]) <==> i < GoodPrefix(s)
  {
    GoodPrefixSpec(s);
    assert i < GoodPrefix(s) ==> s[..GoodPrefix(s)][i] == s[i];
  }

  lemma GoodPrefixFull(s: string)
    ensures AllHex(s) <==> GoodPrefix(s) == |s|
  {
    GoodPrefixSpec(s);
    assert s[..|s|] == s;
    if AllHex(s) {
      GoodPrefixUnique(s, |s|);
    }
  }

  /** The buffer after the digits in text: cur whole bytes first, then what was there before. */
  ghost predicate Holds(buf: Octets, before: Octets, text: string, cur: nat) {
    && 2 * cur <= |text| <= 2 * cur + 1
    && cur <= |before|
    && buf == Pairs(text) + before[cur..]
  }

  /** The value of the last digit taken; the padding counts as a zero. */
  function LastValue(s: string, i: nat): (r: nat)
    requires i <= |s|
    ensures r < 16
  {
    if i == 0 then 0 else HexValue(s[i - 1])
  }

  lemma StoreByte(buf: Octets, before: Octets, s: string, i: nat, cur: nat, b: Byte)
    requires i < |s| && |s| % 2 + i == 2 * cur + 1 && cur < |before| && Holds(buf, before, Taken(s, i), cur)
    requires b as nat == 16 * LastValue(s, i) + HexValue(s[i])
    ensures Holds(buf[cur := b], before, Taken(s, i + 1), cur + 1)
  {
    var text := Taken(s, i);
    assert HexValue(text[|text| - 1]) == LastValue(s, i);
    PairsExtend(text, s[i]);
    assert Taken(s, i + 1) == text + [s[i]];
  }

  lemma KeepDigit(buf: Octets, before: Octets, s: string, i: nat, cur: nat)
    requires i < |s| && |s| % 2 + i == 2 * cur && Holds(buf, before, Taken(s, i), cur)
    ensures Holds(buf, before, Taken(s, i + 1), cur)
  {
    PairsExtend(Taken(s, i), s[i]);
    assert Taken(s, i + 1) == Taken(s, i) + [s[i]];
  }

  /** Decoding s overwrote the front of the buffer and nothing else. */
  ghost predicate Decoded(s: string, before: Octets, after: Octets) {
    && |Written(s)| <= |before|
    && after == Written(s) + before[|Written(s)|..]
  }

  lemma HoldsDecoded(buf: Octets, before: Octets, s: string, i: nat, cur: nat)
    requires i <= |s| && i == GoodPrefix(s) && Holds(buf, before, Taken(s, i), cur)
    ensures Decoded(s, before, buf) && cur == |Written(s)|
  {
    assert |Written(s)| == cur;
  }

  lemma HighNibble(v: nat)
    requires v < 16
    ensures (v * 16) % 256 == 16 * v
  {
  }

  /** After i characters: cur bytes are written, and byte holds the digit that still waits for its partner. */
  ghost predicate Decoding(s: string, i: nat, cur: nat, numChars: nat, byte: nat, buf: Octets, before: Octets) {
    && i <= |s| && numChars <= 1
    && |s| % 2 + i == 2 * cur + numChars
    && byte == (if numChars == 1 then 16 * LastValue(s, i) else 0)
    && Holds(buf, before, Taken(s, i), cur)
  }

  lemma DecodingStarts(s: string, before: Octets)
    requires (|s| + 1) / 2 <= |before|
    ensures Decoding(s, 0, 0, |s| % 2, 0, before, before)
  {
  }

  lemma RoomLeft(s: string, i: nat, cur: nat, size: nat)
    requires i < |s| && |s| % 2 + i == 2 * cur + 1 && (|s| + 1) / 2 <= size
    ensures cur < size
  {
  }

  /** One hex digit: it completes a byte or waits in the high half. */
  method TakeDigit(aHex: string, aBytes: array<Byte>, i: nat, cur: nat, numChars: nat, byte: nat, ghost before: Octets)
    returns (cur': nat, numChars': nat, byte': nat)
    requires i < |aHex| && IsHex(aHex[i]) && (|aHex| + 1) / 2 <= aBytes.Length == |before|
    requires Decoding(aHex, i, cur, numChars, byte, aBytes[..], before)
    modifies aBytes
    ensures Decoding(aHex, i + 1, cur', numChars', byte', aBytes[..], before)
  {
    byte' := byte + HexValue(aHex[i]);
    assert LastValue(aHex, i + 1) == HexValue(aHex[i]);
    numChars' := numChars + 1;
    if numChars' >= 2 {
      numChars' := 0;
      RoomLeft(aHex, i, cur, aBytes.Length);
      StoreByte(aBytes[..], before, aHex, i, cur, byte' as Byte);
      aBytes[cur] := byte' as Byte;
      cur', byte' := cur + 1, 0;
    } else {
      KeepDigit(aBytes[..], before, aHex, i, cur);
      HighNibble(byte');
      cur', byte' := cur, (byte' * 16) % 256;
    }
  }

  method Hex2Bytes(aHex: string, aBytes: array<Byte>, aBytesLength: nat) returns (r: int)
    requires aBytesLength <= aBytes.Length
    modifies aBytes
    ensures (|aHex| + 1) / 2 > aBytesLength ==> r == -1 && aBytes[..] == old(aBytes[..])
    ensures (|aHex| + 1) / 2 <= aBytesLength ==>
      && Decoded(aHex, old(aBytes[..]), aBytes[..])
      && r == if AllHex(aHex) then |Written(aHex)| else -1
  {
    var cur: nat, numChars: nat, byte: nat := 0, |aHex| % 2, 0;
    if (|aHex| + 1) / 2 > aBytesLength {
      return -1;
    }
    var i: nat := 0;
    ghost var before := aBytes[..];
    DecodingStarts(aHex, before);
    GoodPrefixFull(aHex);
    while i < |aHex|
      invariant i <= GoodPrefix(aHex) && Decoding(aHex, i, cur, numChars, byte, aBytes[..], before)
    {
      GoodPrefixStops(aHex, i);
      if !IsHex(aHex[i]) {
        HoldsDecoded(aBytes[..], before, aHex, i, cur);
        return -1;
      }
      cur, numChars, byte := TakeDigit(aHex, aBytes, i, cur, numChars, byte, before);
      i := i + 1;
    }
    HoldsDecoded(aBytes[..], before, aHex, i, cur);
    return cur;
  }

  function Digit(n: nat): (c: char)
    requires n < 16
    ensures IsHex(c) && HexValue(c) == n
  {
    if n < 10 then (n + '0' as int) as char else (n - 10 + 'A' as int) as char
  }

  function DigitAt(b: Octets, i: nat): char
    requires i < 2 * |b|
  {
    Digit(if i % 2 == 0 then b[i / 2] as nat / 16 else b[i / 2] as nat % 16)
  }

  /** Two upper-case digits for every byte. */
  function HexText(b: Octets): (s: string)
    ensures |s| == 2 * |b|
    ensures forall i {:trigger s[i]} | 0 <= i < |s| :: s[i] == DigitAt(b, i)
  {
    seq(2 * |b|, i requires 0 <= i < 2 * |b| => DigitAt(b, i))
  }

  lemma HexTextExtend(b: Octets, x: Byte)
    ensures HexText(b + [x]) == HexText(b) + [Digit(x as nat / 16), Digit(x as nat % 16)]
  {
  }

  method Bytes2Hex(aBytes: Octets) returns (aHex: string)
    ensures aHex == HexText(aBytes)
  {
    aHex := "";
    for i := 0 to |aBytes|
      invariant aHex == HexText(aBytes[..i])
    {
      var n := aBytes[i] as nat;
      var byteHex := [Digit(n / 16), Digit(n % 16)];
      aHex := aHex + byteHex;
      HexTextExtend(aBytes[..i], aBytes[i]);
      assert aBytes[..i + 1] == aBytes[..i] + [aBytes[i]];
    }
    assert aBytes[..|aBytes|] == aBytes;
  }

  lemma HexTextDigits(b: Octets)
    ensures AllHex(HexText(b)) && Pairs(HexText(b)) == b
  {
    var s := HexText(b);
    forall k | 0 <= k < |b|
      ensures Pairs(s)[k] == b[k]
    {
      assert s[2 * k] == DigitAt(b, 2 * k) == Digit(b[k] as nat / 16);
      assert s[2 * k + 1] == DigitAt(b, 2 * k + 1) == Digit(b[k] as nat % 16);
    }
  }

  /** Decoding printed bytes gives them back. */
  lemma HexRoundTrip(b: Octets)
    ensures AllHex(HexText(b)) && Written(HexText(b)) == b
  {
    HexTextDigits(b);
    var s := HexText(b);
    GoodPrefixUnique(s, |s|);
    assert s[..|s|] == s;
  }

  function Upper(c: char): char
    requires IsHex(c)
  {
    if 'a' <= c <= 'f' then (c as int - 'a' as int + 'A' as int) as char else c
  }

  function UpperText(s: string): (r: string)
    requires AllHex(s)
    ensures |r| == |s| && forall i | 0 <= i < |s| :: r[i] == Upper(s[i])
  {
    seq(|s|, i requires 0 <= i < |s| => Upper(s[i]))
  }

  lemma DigitOfValue(c: char)
    requires IsHex(c)
    ensures Digit(HexValue(c)) == Upper(c)
  {
  }

  lemma PairsPrint(s: string)
    requires AllHex(s) && |s| % 2 == 0
    ensures HexText(Pairs(s)) == UpperText(s)
  {
    forall i | 0 <= i < |s|
      ensures HexText(Pairs(s))[i] == Upper(s[i])
    {
      var k := i / 2;
      assert Pairs(s)[k] == PairByte(s[2 * k], s[2 * k + 1]);
      PairSplits(s[2 * k], s[2 * k + 1]);
      DigitOfValue(s[i]);
      assert i == 2 * k || i == 2 * k + 1;
    }
  }

  lemma PairSplits(x: char, y: char)
    ensures PairByte(x, y) as nat / 16 == HexValue(x) && PairByte(x, y) as nat % 16 == HexValue(y)
  {
  }

  lemma PadKeepsHex(s: string)
    requires AllHex(s)
    ensures AllHex(Pad(s)) && Written(s) == Pairs(Pad(s)) && |Written(s)| == (|s| + 1) / 2
  {
    GoodPrefixUnique(s, |s|);
    assert s[..|s|] == s;
  }

  /** Printing decoded text gives the text in upper case, padded to an even length. */
  lemma ReprintIsUpper(s: string)
    requires AllHex(s)
    ensures AllHex(Pad(s)) && HexText(Written(s)) == UpperText(Pad(s))
  {
    PadKeepsHex(s);
    PairsPrint(Pad(s));
  }

  /** The number a digit string denotes. */
  function HexNumber(s: string): nat {
    if s == [] then 0 else 16 * HexNumber(s[..|s| - 1]) + HexValue(s[|s| - 1])
  }

  lemma {:induction false} PairsNumber(s: string)
    requires |s| % 2 == 0
    ensures BigEndian(Pairs(s)) == HexNumber(s)
    decreases |s|
  {
    if s != [] {
      var n := |s|;
      var front := s[..n - 2];
      PairsNumber(front);
      PairsSplit(s, front);
      NumberSplit(s, front);
    }
  }

  lemma PairsSplit(s: string, front: string)
    requires |s| >= 2 && |s| % 2 == 0 && front == s[..|s| - 2]
    ensures var p := Pairs(s);
      p[..|p| - 1] == Pairs(front) && p[|p| - 1] == PairByte(s[|s| - 2], s[|s| - 1])
  {
    assert 2 * (|s| / 2 - 1) == |s| - 2;
  }

  lemma NumberSplit(s: string, front: string)
    requires |s| >= 2 && front == s[..|s| - 2]
    ensures HexNumber(s) == 256 * HexNumber(front) + 16 * HexValue(s[|s| - 2]) + HexValue(s[|s| - 1])
  {
    var t := s[..|s| - 1];
    assert t[..|t| - 1] == front;
    assert HexNumber(t) == 16 * HexNumber(front) + HexValue(t[|t| - 1]);
  }

  lemma {:induction false} LeadingZero(s: string)
    ensures HexNumber("0" + s) == HexNumber(s)
  {
    if s == [] {
      assert HexNumber("") == 0;
      assert "0" + s == "0" && "0"[..0] == "";
    } else {
      var front := s[..|s| - 1];
      assert ("0" + s)[..|s|] == "0" + front;
      LeadingZero(front);
    }
  }

  /** Odd lengths too: the bytes denote the same number as the text. */
  lemma DecodeKeepsNumber(s: string)
    requires AllHex(s)
    ensures BigEndian(Written(s)) == HexNumber(s)
  {
    PadKeepsHex(s);
    PairsNumber(Pad(s));
    PadKeepsNumber(s);
  }

  lemma PadKeepsNumber(s: string)
    ensures HexNumber(Pad(s)) == HexNumber(s)
  {
    LeadingZero(s);
    assert |s| % 2 == 0 ==> Pad(s) == s;
  }

  const UPPER := "0123456789ABCDEF"
  const LOWER := "0123456789abcdef"

  /** The digits are these, in either case, with their places as values, and they are printed in upper case. */
  lemma HexDigits(k: nat)
    requires k < 16
    ensures IsHex(UPPER[k]) && IsHex(LOWER[k]) && HexValue(UPPER[k]) == HexValue(LOWER[k]) == k && Digit(k) == UPPER[k]
  {
  }

  lemma NoOtherDigits(c: char)
    ensures IsHex(c) <==> c in UPPER || c in LOWER
  {
    if '0' <= c <= '9' {
      assert UPPER[c as int - '0' as int] == c;
    } else if 'A' <= c <= 'F' {
      assert UPPER[10 + (c as int - 'A' as int)] == c;
    } else if 'a' <= c <= 'f' {
      assert LOWER[10 + (c as int - 'a' as int)] == c;
    }
  }
}
