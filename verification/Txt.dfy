/** DNS-SD TXT records: packing key/value pairs into a fixed buffer, and reading them back. */
module Txt {
  import opened Bytes

  const TXT_SIZE := 128
  const RECORD_MAX := 255
  const EQUALS: Byte := 61

  datatype Pair = Pair(key: Octets, value: Octets)

  /** What the code asserts of every pair. */
  predicate Legal(p: Pair) {
    |p.key| > 0 && |p.value| > 0 && |p.key| + 1 + |p.value| < RECORD_MAX
  }

  ghost predicate AllLegal(ps: seq<Pair>) {
    forall i | 0 <= i < |ps| :: Legal(ps[i])
  }

  /** key=value */
  function Text(p: Pair): Octets {
    p.key + [EQUALS] + p.value
  }

  /** A character string: one length byte, then the bytes. */
  function Packed(p: Pair): (r: Octets)
    requires Legal(p)
    ensures |r| == |p.key| + |p.value| + 2
  {
    [|Text(p)| as Byte] + Text(p)
  }

  function PackAll(ps: seq<Pair>): Octets
    requires AllLegal(ps)
  {
    if ps == [] then [] else Packed(ps[0]) + PackAll(ps[1..])
  }

  /** The pairs that find room: each is kept exactly when its character string fits in what remains. */
  function Kept(ps: seq<Pair>, room: nat): (r: seq<Pair>)
    requires AllLegal(ps)
    ensures AllLegal(r) && |PackAll(r)| <= room
  {
    if ps == [] then []
    else if |Packed(ps[0])| <= room then
      var rest := Kept(ps[1..], room - |Packed(ps[0])|);
      PackCons(ps[0], rest);
      [ps[0]] + rest
    else Kept(ps[1..], room)
  }

  lemma PackCons(p: Pair, ps: seq<Pair>)
    requires Legal(p) && AllLegal(ps)
    ensures AllLegal([p] + ps) && PackAll([p] + ps) == Packed(p) + PackAll(ps)
  {
    assert ([p] + ps)[1..] == ps;
  }

  // Reading, as sections 6.1 and 6.3 of RFC 6763 say.

  /** The character strings a TXT record consists of, or nothing if the last one is cut off. */
  function Strings(data: Octets): Option<seq<Octets>> {
    if data == [] then Some([])
    else
      var n := data[0] as nat;
      if 1 + n > |data| then None
      else
        var rest := Strings(data[1 + n..]);
        if rest.None? then None else Some([data[1..1 + n]] + rest.value)
  }

  /** Place of the first equals sign, or the length. */
  function FirstEquals(s: Octets): (n: nat)
    ensures n <= |s| && (forall i | 0 <= i < n :: s[i] != EQUALS) && (n < |s| ==> s[n] == EQUALS)
  {
    if s == [] || s[0] == EQUALS then 0 else 1 + FirstEquals(s[1..])
  }

  /** What a string says: a key with a value, a key alone, or, when it starts with the sign, nothing. */
  datatype Attribute = Entry(pair: Pair) | Flag(key: Octets) | Ignored

  function AttributeOf(s: Octets): Attribute {
    var n := FirstEquals(s);
    if n == 0 then Ignored else if n == |s| then Flag(s) else Entry(Pair(s[..n], s[n + 1..]))
  }

  function Attributes(ss: seq<Octets>): (r: seq<Attribute>)
    ensures |r| == |ss| && forall i {:trigger r[i]} | 0 <= i < |ss| :: r[i] == AttributeOf(ss[i])
  {
    seq(|ss|, i requires 0 <= i < |ss| => AttributeOf(ss[i]))
  }

  function Decoded(data: Octets): Option<seq<Attribute>> {
    var ss := Strings(data);
    if ss.None? then None else Some(Attributes(ss.value))
  }

  function Entries(ps: seq<Pair>): (r: seq<Attribute>)
    ensures |r| == |ps| && forall i {:trigger r[i]} | 0 <= i < |ps| :: r[i] == Entry(ps[i])
  {
    seq(|ps|, i requires 0 <= i < |ps| => Entry(ps[i]))
  }

  function Texts(ps: seq<Pair>): (r: seq<Octets>)
    ensures |r| == |ps| && forall i {:trigger r[i]} | 0 <= i < |ps| :: r[i] == Text(ps[i])
  {
    seq(|ps|, i requires 0 <= i < |ps| => Text(ps[i]))
  }

  lemma FirstEqualsUnique(s: Octets, n: nat)
    requires n <= |s| && (forall i | 0 <= i < n :: s[i] != EQUALS) && (n < |s| ==> s[n] == EQUALS)
    ensures FirstEquals(s) == n
  {
  }

  /** A key comes back exactly when it holds no equals sign. */
  lemma TextReadsIff(p: Pair)
    requires Legal(p)
    ensures AttributeOf(Text(p)) == Entry(p) <==> EQUALS !in p.key
  {
    var s := Text(p);
    assert forall i | 0 <= i < |p.key| :: s[i] == p.key[i];
    assert s[..|p.key|] == p.key && s[|p.key|] == EQUALS && s[|p.key| + 1..] == p.value;
    if EQUALS !in p.key {
      FirstEqualsUnique(s, |p.key|);
    }
  }

  lemma {:induction false} PackedStrings(ps: seq<Pair>)
    requires AllLegal(ps)
    ensures Strings(PackAll(ps)) == Some(Texts(ps))
    decreases |ps|
  {
    if ps != [] {
      var data, text, rest := PackAll(ps), Text(ps[0]), PackAll(ps[1..]);
      PackedStrings(ps[1..]);
      assert data == [|text| as Byte] + text + rest;
      assert data[1..1 + |text|] == text && data[1 + |text|..] == rest;
      assert Texts(ps) == [text] + Texts(ps[1..]);
    }
  }

  /** Decoding what was packed returns exactly the pairs, in order, if and only if no key holds an equals sign. */
  lemma DecodeIff(ps: seq<Pair>)
    requires AllLegal(ps)
    ensures Decoded(PackAll(ps)) == Some(Entries(ps)) <==> forall i | 0 <= i < |ps| :: EQUALS !in ps[i].key
  {
    PackedStrings(ps);
    AttributesIff(Attributes(Texts(ps)), Entries(ps), ps);
  }

  lemma AttributesIff(read: seq<Attribute>, meant: seq<Attribute>, ps: seq<Pair>)
    requires AllLegal(ps) && read == Attributes(Texts(ps)) && meant == Entries(ps)
    ensures read == meant <==> forall i | 0 <= i < |ps| :: EQUALS !in ps[i].key
  {
    forall i | 0 <= i < |ps|
      ensures read[i] == meant[i] <==> EQUALS !in ps[i].key
    {
      TextReadsIff(ps[i]);
    }
  }

  // The code.

  lemma KeptStep(ps: seq<Pair>, room: nat)
    requires AllLegal(ps) && ps != []
    ensures AllLegal(ps[1..])
    ensures if |Packed(ps[0])| <= room then
              AllLegal([ps[0]]) && Kept(ps, room) == [ps[0]] + Kept(ps[1..], room - |Packed(ps[0])|)
            else Kept(ps, room) == Kept(ps[1..], room)
  {
  }

  /** Write behind what stands at the front of the buffer, and advance. */
  method Put(txt: array<Byte>, cur: nat, x: Octets) returns (next: nat)
    requires cur + |x| <= txt.Length
    modifies txt
    ensures next == cur + |x| && txt[..next] == old(txt[..cur]) + x
  {
    ghost var before := txt[..];
    Copy(txt, cur, x);
    next := cur + |x|;
    assert Splice(before, cur, x)[..next] == before[..cur] + x;
  }

  lemma PackedPieces(front: Octets, p: Pair)
    requires Legal(p)
    ensures front + [(|p.key| + 1 + |p.value|) as Byte] + p.key + [EQUALS] + p.value == front + Packed(p)
  {
  }

  /** One character string, written piece by piece. */
  method WritePair(txt: array<Byte>, cur: nat, p: Pair) returns (next: nat)
    requires txt.Length == TXT_SIZE && Legal(p) && cur + |Packed(p)| <= TXT_SIZE
    modifies txt
    ensures next == cur + |Packed(p)| && txt[..next] == old(txt[..cur]) + Packed(p)
  {
    PackedPieces(txt[..cur], p);
    next := Put(txt, cur, [(|p.key| + 1 + |p.value|) as Byte]);
    next := Put(txt, next, p.key);
    next := Put(txt, next, [EQUALS]);
    next := Put(txt, next, p.value);
  }

  lemma {:induction false} PackAppend(ps: seq<Pair>, p: Pair)
    requires AllLegal(ps) && Legal(p)
    ensures AllLegal(ps + [p]) && PackAll(ps + [p]) == PackAll(ps) + Packed(p)
    decreases |ps|
  {
    if ps == [] {
      PackCons(p, []);
      assert ps + [p] == [p] + [];
    } else {
      PackAppend(ps[1..], p);
      PackCons(ps[0], ps[1..] + [p]);
      assert ps + [p] == [ps[0]] + (ps[1..] + [p]);
    }
  }

  /** A pair is skipped exactly when it does not fit behind those kept before it. */
  lemma {:induction false} KeptLast(ps: seq<Pair>, p: Pair, room: nat)
    requires AllLegal(ps) && Legal(p)
    ensures AllLegal(ps + [p])
    ensures Kept(ps + [p], room)
         == Kept(ps, room) + if |PackAll(Kept(ps, room))| + |Packed(p)| <= room then [p] else []
    decreases |ps|
  {
    if ps == [] {
      assert ps + [p] == [p] && [p][1..] == [];
    } else {
      var first, rest := ps[0], ps[1..];
      assert ps + [p] == [first] + (rest + [p]);
      assert ([first] + (rest + [p]))[1..] == rest + [p];
      if |Packed(first)| <= room {
        KeptLast(rest, p, room - |Packed(first)|);
        PackCons(first, Kept(rest, room - |Packed(first)|));
      } else {
        KeptLast(rest, p, room);
      }
    }
  }

  /** After some arguments: what is packed, and what the rest will still add. */
  ghost predicate Packing(args: seq<Pair>, i: nat, kept: seq<Pair>, data: Octets) {
    && i <= |args| && AllLegal(args) && AllLegal(kept) && |data| <= TXT_SIZE
    && data == PackAll(kept)
    && kept + Kept(args[i..], TXT_SIZE - |data|) == Kept(args, TXT_SIZE)
  }

  lemma PackingStarts(args: seq<Pair>)
    requires AllLegal(args)
    ensures Packing(args, 0, [], [])
  {
    assert args[0..] == args;
  }

  lemma PackingOn(args: seq<Pair>, i: nat, kept: seq<Pair>, data: Octets)
    requires i < |args| && Packing(args, i, kept, data)
    ensures Legal(args[i])
    ensures if |data| + |Packed(args[i])| <= TXT_SIZE
            then Packing(args, i + 1, kept + [args[i]], data + Packed(args[i]))
            else Packing(args, i + 1, kept, data)
  {
    KeptStep(args[i..], TXT_SIZE - |data|);
    assert args[i..][1..] == args[i + 1..];
    PackAppend(kept, args[i]);
  }

  lemma PackingEnds(args: seq<Pair>, kept: seq<Pair>, data: Octets)
    requires Packing(args, |args|, kept, data)
    ensures kept == Kept(args, TXT_SIZE) && data == PackAll(Kept(args, TXT_SIZE))
  {
    assert args[|args|..] == [];
  }

  /** The packing loop: the pairs that find room stand at the front of the buffer, and nothing else counts.
      A reader finds exactly those pairs, in order, if and only if none has an equals sign in its key. */
  method PackTxt(args: seq<Pair>) returns (txt: array<Byte>, length: nat)
    requires AllLegal(args)
    ensures txt.Length == TXT_SIZE && length <= TXT_SIZE && txt[..length] == PackAll(Kept(args, TXT_SIZE))
    ensures var kept := Kept(args, TXT_SIZE);
      Decoded(txt[..length]) == Some(Entries(kept)) <==> forall i | 0 <= i < |kept| :: EQUALS !in kept[i].key
  {
    txt := new Byte[TXT_SIZE];
    length := 0;
    ghost var kept: seq<Pair> := [];
    PackingStarts(args);
    assert txt[..0] == [];
    var i: nat := 0;
    while i < |args|
      invariant length <= TXT_SIZE && Packing(args, i, kept, txt[..length])
    {
      PackingOn(args, i, kept, txt[..length]);
      var p := args[i];
      var recordLength := |p.key| + 1 + |p.value|;
      if length + recordLength < TXT_SIZE {
        kept := kept + [p];
        length := WritePair(txt, length, p);
      }
      i := i + 1;
    }
    PackingEnds(args, kept, txt[..length]);
    DecodeIff(kept);
  }
}
