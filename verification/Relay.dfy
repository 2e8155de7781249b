/** Relayed joiner datagrams: what is sent to the network, and what a received relay message does. */
module Relay {
  import opened Bytes
  import opened Steering
  import opened Joiners
  import opened Psk
  import opened Tlvs

  const MAX_PACKET := 1500
  const IID_LEN := 8
  const KEK_LEN := 32
  const U32 := 0x1_0000_0000

  type Iid = b: Octets | |b| == IID_LEN witness Zeros(IID_LEN)

  /** The fields a relay message sets, the PSK the joiner session uses, and the datagrams passed on to it. */
  datatype RelayState = RelayState(port: Word16, iid: Iid, locator: Word16, psk: string, forwarded: seq<Octets>)

  // Sending.

  /** The TLVs of a relayed datagram. */
  function RelayTlvs(datagram: Octets, port: nat, iid: Octets, locator: nat, kek: Option<Octets>): (ts: seq<Tlv>)
    requires |datagram| < U16 && port < U16 && locator < U16 && |iid| == IID_LEN
    requires kek.Some? ==> |kek.value| == KEK_LEN
    ensures AllWellformed(ts)
  {
    [Tlv(JOINER_DTLS_ENCAPSULATION, datagram, |datagram| >= LENGTH_ESCAPE),
     Tlv(JOINER_UDP_PORT, Word(port), false),
     Tlv(JOINER_IID, iid, false),
     Tlv(JOINER_ROUTER_LOCATOR, Word(locator), false)]
    + if kek.Some? then [Tlv(JOINER_ROUTER_KEK, kek.value, false)] else []
  }

  lemma EncodeFour(a: Tlv, b: Tlv, c: Tlv, d: Tlv, es: seq<Tlv>)
    requires Wellformed(a) && Wellformed(b) && Wellformed(c) && Wellformed(d) && AllWellformed(es)
    ensures AllWellformed([a, b, c, d] + es)
    ensures EncodeAll([a, b, c, d] + es) == Encode(a) + Encode(b) + Encode(c) + Encode(d) + EncodeAll(es)
  {
    EncodeCons(d, es);
    EncodeCons(c, [d] + es);
    EncodeCons(b, [c] + ([d] + es));
    EncodeCons(a, [b] + ([c] + ([d] + es)));
    assert [a, b, c, d] + es == [a] + ([b] + ([c] + ([d] + es)));
  }

  /** The message fits the packet buffer exactly when the datagram has at most 1444 bytes with a key, 1478 without. */
  lemma RelayFitsIff(datagram: Octets, port: nat, iid: Octets, locator: nat, kek: Option<Octets>)
    requires |datagram| < U16 && port < U16 && locator < U16 && |iid| == IID_LEN
    requires kek.Some? ==> |kek.value| == KEK_LEN
    ensures |EncodeAll(RelayTlvs(datagram, port, iid, locator, kek))| <= MAX_PACKET
       <==> |datagram| <= if kek.Some? then 1444 else 1478
  {
    var ts := RelayTlvs(datagram, port, iid, locator, kek);
    var es := if kek.Some? then [Tlv(JOINER_ROUTER_KEK, kek.value, false)] else [];
    EncodeFour(ts[0], ts[1], ts[2], ts[3], es);
    assert ts == [ts[0], ts[1], ts[2], ts[3]] + es;
    if kek.Some? {
      EncodeCons(es[0], []);
      assert es == [es[0]] + [];
    }
  }

  /** The bytes of the message. */
  lemma RelayBytes(datagram: Octets, port: nat, iid: Octets, locator: nat, kek: Option<Octets>)
    requires |datagram| < U16 && port < U16 && locator < U16 && |iid| == IID_LEN
    requires kek.Some? ==> |kek.value| == KEK_LEN
    ensures EncodeAll(RelayTlvs(datagram, port, iid, locator, kek))
         == ([17] + (if |datagram| < 255 then [|datagram| as Byte]
                     else [255, (|datagram| / 256) as Byte, (|datagram| % 256) as Byte]) + datagram)
            + [18, 2, (port / 256) as Byte, (port % 256) as Byte] + ([19, 8] + iid)
            + [20, 2, (locator / 256) as Byte, (locator % 256) as Byte]
            + (if kek.Some? then [21, 32] + kek.value else [])
  {
    var ts := RelayTlvs(datagram, port, iid, locator, kek);
    var es := if kek.Some? then [Tlv(JOINER_ROUTER_KEK, kek.value, false)] else [];
    EncodeFour(ts[0], ts[1], ts[2], ts[3], es);
    assert ts == [ts[0], ts[1], ts[2], ts[3]] + es;
    DatagramBytes(datagram);
    ShortBytes(18, Word(port));
    ShortBytes(19, iid);
    ShortBytes(20, Word(locator));
    if kek.Some? {
      ShortBytes(21, kek.value);
      EncodeCons(es[0], []);
      assert es == [es[0]] + [];
    }
  }

  lemma ShortBytes(kind: Byte, value: Octets)
    requires |value| < 255
    ensures Encode(Tlv(kind, value, false)) == [kind, |value| as Byte] + value
    ensures forall n: nat | n < U16 && value == Word(n) ::
              Encode(Tlv(kind, value, false)) == [kind, 2, (n / 256) as Byte, (n % 256) as Byte]
  {
  }

  lemma DatagramBytes(datagram: Octets)
    requires |datagram| < U16
    ensures Encode(Tlv(17, datagram, |datagram| >= 255))
         == [17] + (if |datagram| < 255 then [|datagram| as Byte]
                    else [255, (|datagram| / 256) as Byte, (|datagram| % 256) as Byte]) + datagram
  {
  }

  // Finding the joiner.

  /** b with bit 0x02 cleared. */
  function WithoutLocalBit(b: Byte): (r: Byte)
    ensures !ByteBit(r, 1)
    ensures WithBit(r, 1) == WithBit(b, 1)
  {
    LocalBit(b);
    if ByteBit(b, 1) then (b as nat - 2) as Byte else b
  }

  lemma LocalBit(b: Byte)
    ensures ByteBit(b, 1) ==> b as nat >= 2 && !ByteBit((b as nat - 2) as Byte, 1)
  {
    Pow2Values();
  }

  /** The interface identifier a joiner of the list is known by. */
  function JoinerIid(sha: Sha256, x: JoinerInstance): (r: Octets)
    ensures |r| == IID_LEN
  {
    var out := sha(x.eui64Bin);
    [WithoutLocalBit(out[0])] + out[1..IID_LEN]
  }

  /** Index of the first entry known by the identifier, or the number of entries. */
  function Select(sha: Sha256, v: seq<JoinerInstance>, iid: Octets): (n: nat)
    ensures n <= |v| && (forall i | 0 <= i < n :: JoinerIid(sha, v[i]) != iid)
    ensures n < |v| ==> JoinerIid(sha, v[n]) == iid
  {
    if v == [] || JoinerIid(sha, v[0]) == iid then 0 else 1 + Select(sha, v[1..], iid)
  }

  lemma SelectUnique(sha: Sha256, v: seq<JoinerInstance>, iid: Octets, n: nat)
    requires n <= |v| && (forall i | 0 <= i < n :: JoinerIid(sha, v[i]) != iid)
    requires n < |v| ==> JoinerIid(sha, v[n]) == iid
    ensures Select(sha, v, iid) == n
  {
  }

  /** The identifier is the hashed joiner ID with its local bit flipped. */
  lemma IidFlipsLocalBit(sha: Sha256, x: JoinerInstance)
    ensures var (iid, id) := (JoinerIid(sha, x), HashMac(sha, x.eui64Bin));
      && ByteBit(id[0], 1) && !ByteBit(iid[0], 1)
      && id == [WithBit(iid[0], 1)] + iid[1..]
  {
    var out := sha(x.eui64Bin);
    var iid := JoinerIid(sha, x);
    assert iid[0] == WithoutLocalBit(out[0]) && iid[1..] == out[1..IID_LEN];
  }

  /** Whoever the identifier selects from a coherent list passes its filter:
      both bits of the joiner ID behind the identifier are set. */
  lemma SelectedPassesFilter(sha: Sha256, s: ListState, iid: Octets)
    requires Coherent(sha, s) && Select(sha, s.vector, iid) < |s.vector|
    ensures |iid| == IID_LEN
    ensures IdBits([WithBit(iid[0], 1)] + iid[1..], DEFAULT_LENGTH) <= s.filter
  {
    var n := Select(sha, s.vector, iid);
    IidFlipsLocalBit(sha, s.vector[n]);
    EntryInFilter(sha, s.vector, n);
  }

  /** The PSK after an identifier is looked up: that of the first entry known by it, if there is one. */
  function PskAfter(sha: Sha256, v: seq<JoinerInstance>, iid: Octets, psk: string): string {
    var n := Select(sha, v, iid);
    if n < |v| then Replaced(psk, v[n].psk) else psk
  }

  /** That PSK is the text of the first entry known by the identifier, if that has at most 32 characters, and without
      such an entry the PSK stays. */
  lemma PskIs(sha: Sha256, v: seq<JoinerInstance>, iid: Octets, psk: string, n: nat)
    requires n <= |v| && (forall i | 0 <= i < n :: JoinerIid(sha, v[i]) != iid)
    requires n < |v| ==> JoinerIid(sha, v[n]) == iid
    ensures n == |v| ==> PskAfter(sha, v, iid, psk) == psk
    ensures n < |v| && |v[n].psk| <= 32 ==> PskAfter(sha, v, iid, psk) == v[n].psk
  {
    SelectUnique(sha, v, iid, n);
  }

  /** The lookup can be made: there is an entry, the count does not wrap, and once an entry is found there is a joiner
      session to tell its PSK, of a length that is not cut to zero. */
  predicate Findable(sha: Sha256, v: seq<JoinerInstance>, iid: Octets, joined: bool) {
    && 0 < |v| < U32
    && var n := Select(sha, v, iid);
       n < |v| ==> joined && CutLength(v[n].psk) > 0
  }

  /** The search has come to a place: what the lookup gives there, and no entry before it is known by the identifier. */
  ghost predicate Searching(sha: Sha256, v: seq<JoinerInstance>, mac: Octets, num: nat, inst: Option<nat>) {
    && num <= |v|
    && inst == (if num < |v| then Some(num) else None)
    && forall i | 0 <= i < num :: JoinerIid(sha, v[i]) != mac
  }

  lemma EntryAtIs(size: nat, num: nat)
    requires 0 < size < U64
    ensures EntryAt(size, num) == if num < size then Some(num) else None
  {
  }

  lemma SearchingOn(sha: Sha256, v: seq<JoinerInstance>, mac: Octets, num: nat, inst: Option<nat>, inst': Option<nat>)
    requires 0 < |v| < U64 && Searching(sha, v, mac, num, inst) && inst.Some?
    requires JoinerIid(sha, v[num]) != mac && inst' == EntryAt(|v|, num + 1)
    ensures Searching(sha, v, mac, num + 1, inst')
  {
    EntryAtIs(|v|, num + 1);
  }

  /** The search is over when the entry at the place is known by the identifier, or when there is none. */
  lemma SearchingEnds(sha: Sha256, v: seq<JoinerInstance>, mac: Octets, num: nat, inst: Option<nat>)
    requires Searching(sha, v, mac, num, inst) && (inst.Some? ==> JoinerIid(sha, v[num]) == mac)
    ensures inst == var n := Select(sha, v, mac); if n < |v| then Some(n) else None
  {
    SelectUnique(sha, v, mac, num);
  }

  /** The loop of FindEui: the first entry known by the identifier. */
  method FindEntry(list: JoinerList, mac: Octets) returns (inst: Option<nat>)
    requires 0 < |list.vector| < U64
    ensures inst == var n := Select(list.sha, list.vector, mac); if n < |list.vector| then Some(n) else None
  {
    EntryAtIs(|list.vector|, 0);
    var num: nat := 0;
    inst := list.GetJoinerInstance(num);
    while inst.Some?
      invariant Searching(list.sha, list.vector, mac, num, inst)
      decreases |list.vector| - num
    {
      if mac == JoinerIid(list.sha, list.vector[inst.value]) {
        SearchingEnds(list.sha, list.vector, mac, num, inst);
        return;
      }
      ghost var num0, inst0 := num, inst;
      num := num + 1;
      inst := list.GetJoinerInstance(num);
      SearchingOn(list.sha, list.vector, mac, num0, inst0, inst);
    }
    SearchingEnds(list.sha, list.vector, mac, num, inst);
  }

  // Receiving.

  /** What the receiver reads of each TLV. */
  function RelayNeed(t: Byte, n: nat): nat {
    if t == JOINER_DTLS_ENCAPSULATION then n
    else if t == JOINER_UDP_PORT || t == JOINER_ROUTER_LOCATOR then 2
    else if t == JOINER_IID then IID_LEN
    else 0
  }

  predicate Readable(mem: Octets, v: View) {
    v.start + RelayNeed(v.kind, v.length) <= |mem|
  }

  predicate AllReadable(mem: Octets, vs: seq<View>) {
    forall i | 0 <= i < |vs| :: Readable(mem, vs[i])
  }

  /** An identifier is kept and looked up. */
  function WithIid(sha: Sha256, list: seq<JoinerInstance>, iid: Iid, r: RelayState): RelayState {
    r.(iid := iid, psk := PskAfter(sha, list, iid, r.psk))
  }

  /** One TLV; a datagram that cannot be passed on ends the message. */
  function RelayOne(sha: Sha256, list: seq<JoinerInstance>, mem: Octets, v: View, r: RelayState, fails: bool)
    : (RelayState, bool)
    requires Readable(mem, v)
  {
    if v.kind == JOINER_DTLS_ENCAPSULATION then
      if fails then (r, true) else (r.(forwarded := r.forwarded + [Value(mem, v)]), false)
    else if v.kind == JOINER_UDP_PORT then (r.(port := WordAt(mem, v.start)), false)
    else if v.kind == JOINER_IID then
      (WithIid(sha, list, mem[v.start..v.start + IID_LEN], r), false)
    else if v.kind == JOINER_ROUTER_LOCATOR then (r.(locator := WordAt(mem, v.start)), false)
    else (r, false)
  }

  /** The TLVs of a message in turn; fails[i] says whether passing on a datagram found at place i fails. */
  function RelayAll(sha: Sha256, list: seq<JoinerInstance>, mem: Octets, vs: seq<View>, r: RelayState,
                    fails: nat -> bool, i: nat): RelayState
    requires i <= |vs| && AllReadable(mem, vs)
    decreases |vs| - i
  {
    if i == |vs| then r
    else
      var (r', stop) := RelayOne(sha, list, mem, vs[i], r, fails(i));
      if stop then r' else RelayAll(sha, list, mem, vs, r', fails, i + 1)
  }

  /** A datagram that cannot be passed on. */
  predicate Stops(v: View, fails: bool) {
    v.kind == JOINER_DTLS_ENCAPSULATION && fails
  }

  /** The TLVs that are visited, up to the first datagram that cannot be passed on, or nothing when a header or a value
      that is read lies outside mem. */
  function Relayed(mem: Octets, at: nat, length: nat, fails: nat -> bool, i: nat): (r: Option<seq<View>>)
    ensures r.Some? ==> AllReadable(mem, r.value)
    decreases if at <= |mem| then |mem| - at else 0
  {
    if LengthOf(at) >= length then Some([])
    else if !HeaderIn(mem, at) || !Readable(mem, ViewAt(mem, at)) then None
    else if Stops(ViewAt(mem, at), fails(i)) then Some([ViewAt(mem, at)])
    else
      var rest := Relayed(mem, GetNext(mem, at), length, fails, i + 1);
      if rest.None? then None else Some([ViewAt(mem, at)] + rest.value)
  }

  /** Where no datagram fails this is the walk over the whole message. */
  lemma {:induction false} RelayedIsWalk(mem: Octets, at: nat, length: nat, fails: nat -> bool, i: nat, vs: seq<View>)
    requires Walk(mem, at, length, RelayNeed) == Some(vs)
    requires forall k | 0 <= k < |vs| :: !Stops(vs[k], fails(i + k))
    ensures Relayed(mem, at, length, fails, i) == Some(vs)
    decreases if at <= |mem| then |mem| - at else 0
  {
    if LengthOf(at) < length {
      var rest := Walk(mem, GetNext(mem, at), length, RelayNeed).value;
      assert vs == [ViewAt(mem, at)] + rest && !Stops(vs[0], fails(i + 0));
      forall k | 0 <= k < |rest|
        ensures !Stops(rest[k], fails(i + 1 + k))
      {
        assert rest[k] == vs[k + 1] && !Stops(vs[k + 1], fails(i + (k + 1)));
      }
      RelayedIsWalk(mem, GetNext(mem, at), length, fails, i + 1, rest);
    }
  }

  function Received(sha: Sha256, list: seq<JoinerInstance>, mem: Octets, length: nat, r: RelayState,
                    fails: nat -> bool): RelayState
    requires Relayed(mem, 0, length, fails, 0).Some?
  {
    RelayAll(sha, list, mem, Relayed(mem, 0, length, fails, 0).value, r, fails, 0)
  }

  /** A joiner asked for can be looked up. */
  predicate Asked(sha: Sha256, list: seq<JoinerInstance>, mem: Octets, v: View, joined: bool)
    requires Readable(mem, v)
  {
    v.kind == JOINER_IID ==> Findable(sha, list, mem[v.start..v.start + IID_LEN], joined)
  }

  /** Every joiner that a message asks for, up to a datagram that cannot be passed on, can be looked up. */
  predicate Answerable(sha: Sha256, list: seq<JoinerInstance>, mem: Octets, vs: seq<View>, fails: nat -> bool,
                       joined: bool, i: nat)
    requires i <= |vs| && AllReadable(mem, vs)
    decreases |vs| - i
  {
    i == |vs|
    || Stops(vs[i], fails(i))
    || (Asked(sha, list, mem, vs[i], joined) && Answerable(sha, list, mem, vs, fails, joined, i + 1))
  }

  lemma WordBack(mem: Octets, at: nat, n: nat)
    requires n < U16 && Stands(mem, at, Word(n))
    ensures WordAt(mem, at) == n
  {
    StandsByte(mem, at, Word(n), 0);
    StandsByte(mem, at, Word(n), 1);
  }

  /** The receiver finds the sender's TLVs. */
  lemma RelayWalk(ts: seq<Tlv>, datagram: Octets, port: nat, iid: Octets, locator: nat, kek: Option<Octets>,
                  post: Octets)
    requires |datagram| <= (if kek.Some? then 1444 else 1478) && port < U16 && locator < U16 && |iid| == IID_LEN
    requires kek.Some? ==> |kek.value| == KEK_LEN
    requires ts == RelayTlvs(datagram, port, iid, locator, kek)
    ensures AllWellformed(ts) && |Views(ts, 0)| == |ts| && Stands(EncodeAll(ts) + post, 0, EncodeAll(ts))
    ensures Walk(EncodeAll(ts) + post, 0, |EncodeAll(ts)|, RelayNeed) == Some(Views(ts, 0))
  {
    RelayFitsIff(datagram, port, iid, locator, kek);
    assert Modest(RelayNeed, ts);
    WalkWritten(ts, post, RelayNeed);
    ViewsLength(ts, 0);
  }

  /** The first datagram fails: nothing behind it is visited. */
  lemma RelayedStops(mem: Octets, length: nat, fails: nat -> bool, vs: seq<View>)
    requires Walk(mem, 0, length, RelayNeed) == Some(vs) && vs != [] && Stops(vs[0], fails(0))
    ensures Relayed(mem, 0, length, fails, 0) == Some([vs[0]])
  {
  }

  lemma FirstFour(datagram: Octets, port: nat, iid: Octets, locator: nat, kek: Option<Octets>)
    requires |datagram| < U16 && port < U16 && locator < U16 && |iid| == IID_LEN
    requires kek.Some? ==> |kek.value| == KEK_LEN
    ensures var ts := RelayTlvs(datagram, port, iid, locator, kek);
      && |ts| == (if kek.Some? then 5 else 4)
      && ts[0].kind == JOINER_DTLS_ENCAPSULATION && ts[0].value == datagram
      && ts[1].kind == JOINER_UDP_PORT && ts[1].value == Word(port)
      && ts[2].kind == JOINER_IID && ts[2].value == iid
      && ts[3].kind == JOINER_ROUTER_LOCATOR && ts[3].value == Word(locator)
      && (kek.Some? ==> ts[4].kind == JOINER_ROUTER_KEK)
  {
  }

  lemma RelayViews(mem: Octets, ts: seq<Tlv>)
    requires AllWellformed(ts) && Stands(mem, 0, EncodeAll(ts))
    ensures |Views(ts, 0)| == |ts|
    ensures forall i | 0 <= i < |ts| ::
      var v := Views(ts, 0)[i];
      v.kind == ts[i].kind && v.length == |ts[i].value| && Stands(mem, v.start, ts[i].value)
  {
    ViewsLength(ts, 0);
    forall i | 0 <= i < |ts|
      ensures var v := Views(ts, 0)[i];
        v.kind == ts[i].kind && v.length == |ts[i].value| && Stands(mem, v.start, ts[i].value)
    {
      ViewsRead(mem, 0, ts, i);
    }
  }

  /** Four views in the sender's order, and at most a key after them. */
  ghost predicate InOrder(mem: Octets, vs: seq<View>, datagram: Octets, port: nat, iid: Octets, locator: nat)
    requires port < U16 && locator < U16
  {
    && 4 <= |vs| <= 5
    && vs[0].kind == JOINER_DTLS_ENCAPSULATION && vs[0].length == |datagram| && Stands(mem, vs[0].start, datagram)
    && vs[1].kind == JOINER_UDP_PORT && Stands(mem, vs[1].start, Word(port))
    && vs[2].kind == JOINER_IID && Stands(mem, vs[2].start, iid)
    && vs[3].kind == JOINER_ROUTER_LOCATOR && Stands(mem, vs[3].start, Word(locator))
    && (|vs| == 5 ==> vs[4].kind == JOINER_ROUTER_KEK)
  }

  lemma SentViews(mem: Octets, ts: seq<Tlv>, vs: seq<View>, datagram: Octets, port: nat, iid: Octets, locator: nat,
                  kek: Option<Octets>)
    requires |datagram| < U16 && port < U16 && locator < U16 && |iid| == IID_LEN
    requires kek.Some? ==> |kek.value| == KEK_LEN
    requires ts == RelayTlvs(datagram, port, iid, locator, kek) && vs == Views(ts, 0)
    requires Stands(mem, 0, EncodeAll(ts))
    ensures InOrder(mem, vs, datagram, port, iid, locator)
  {
    RelayViews(mem, ts);
    FirstFour(datagram, port, iid, locator, kek);
    assert vs[0].kind == ts[0].kind && vs[1].kind == ts[1].kind && vs[2].kind == ts[2].kind && vs[3].kind == ts[3].kind;
    assert |vs| == 5 ==> vs[4].kind == ts[4].kind;
  }

  lemma RelayFourth(sha: Sha256, list: seq<JoinerInstance>, mem: Octets, vs: seq<View>, r: RelayState,
                    fails: nat -> bool, datagram: Octets, port: nat, iid: Octets, locator: nat)
    requires port < U16 && locator < U16 && |iid| == IID_LEN && AllReadable(mem, vs)
    requires InOrder(mem, vs, datagram, port, iid, locator) && !fails(0)
    ensures RelayAll(sha, list, mem, vs, r, fails, 0)
         == RelayState(port, iid, locator, PskAfter(sha, list, iid, r.psk), r.forwarded + [datagram])
  {
    var r1 := r.(forwarded := r.forwarded + [datagram]);
    var r2 := r1.(port := port);
    var r3 := r2.(iid := iid, psk := PskAfter(sha, list, iid, r.psk));
    var r4 := r3.(locator := locator);
    WordBack(mem, vs[1].start, port);
    WordBack(mem, vs[3].start, locator);
    assert Value(mem, vs[0]) == datagram;
    assert mem[vs[2].start..vs[2].start + IID_LEN] == iid;
    assert RelayAll(sha, list, mem, vs, r4, fails, 4) == r4 by {
      if |vs| == 5 {
        assert RelayAll(sha, list, mem, vs, r4, fails, 5) == r4;
      }
    }
    assert RelayAll(sha, list, mem, vs, r3, fails, 3) == r4;
    assert RelayAll(sha, list, mem, vs, r2, fails, 2) == r4;
    assert RelayAll(sha, list, mem, vs, r1, fails, 1) == r4;
  }

  lemma ReceivedInOrder(sha: Sha256, list: seq<JoinerInstance>, mem: Octets, length: nat, vs: seq<View>, r: RelayState,
                        fails: nat -> bool, datagram: Octets, port: nat, iid: Octets, locator: nat)
    requires port < U16 && locator < U16 && |iid| == IID_LEN
    requires Walk(mem, 0, length, RelayNeed) == Some(vs) && InOrder(mem, vs, datagram, port, iid, locator)
    ensures Relayed(mem, 0, length, fails, 0).Some?
    ensures Received(sha, list, mem, length, r, fails)
         == if fails(0) then r
            else RelayState(port, iid, locator, PskAfter(sha, list, iid, r.psk), r.forwarded + [datagram])
  {
    if fails(0) {
      RelayedStops(mem, length, fails, vs);
    } else {
      RelayedIsWalk(mem, 0, length, fails, 0, vs);
      RelayFourth(sha, list, mem, vs, r, fails, datagram, port, iid, locator);
    }
  }

  /** What is sent comes back: port, identifier and locator are restored and exactly the datagram is passed
      on, with or without a key TLV. If passing it on fails, nothing at all changes. */
  lemma RelayRoundTrip(sha: Sha256, list: seq<JoinerInstance>, datagram: Octets, port: nat, iid: Octets, locator: nat,
                       kek: Option<Octets>, post: Octets, r: RelayState, fails: nat -> bool)
    requires |datagram| <= (if kek.Some? then 1444 else 1478) && port < U16 && locator < U16 && |iid| == IID_LEN
    requires kek.Some? ==> |kek.value| == KEK_LEN
    ensures var payload := EncodeAll(RelayTlvs(datagram, port, iid, locator, kek));
      && Relayed(payload + post, 0, |payload|, fails, 0).Some?
      && Received(sha, list, payload + post, |payload|, r, fails)
         == if fails(0) then r
            else RelayState(port, iid, locator, PskAfter(sha, list, iid, r.psk), r.forwarded + [datagram])
  {
    var ts := RelayTlvs(datagram, port, iid, locator, kek);
    RelayWalk(ts, datagram, port, iid, locator, kek, post);
    SentViews(EncodeAll(ts) + post, ts, Views(ts, 0), datagram, port, iid, locator, kek);
    ReceivedInOrder(sha, list, EncodeAll(ts) + post, |EncodeAll(ts)|, Views(ts, 0), r, fails, datagram, port, iid,
                    locator);
  }
}
