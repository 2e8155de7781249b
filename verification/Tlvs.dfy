/** Type-length-value records laid over a byte buffer, with one- and three-byte length forms. */
module Tlvs {
  import opened Bytes

  const LENGTH_ESCAPE := 0xff
  const U16 := 0x1_0000

  type Word16 = n: nat | n < U16

  // MeshCoP types.
  const STEERING_DATA: Byte := 8
  const COMMISSIONER_ID: Byte := 10
  const COMMISSIONER_SESSION_ID: Byte := 11
  const STATE: Byte := 16
  const JOINER_DTLS_ENCAPSULATION: Byte := 17
  const JOINER_UDP_PORT: Byte := 18
  const JOINER_IID: Byte := 19
  const JOINER_ROUTER_LOCATOR: Byte := 20
  const JOINER_ROUTER_KEK: Byte := 21
  const UDP_ENCAPSULATION: Byte := 48

  datatype Tlv = Tlv(kind: Byte, value: Octets, extended: bool)

  predicate Wellformed(t: Tlv) {
    |t.value| < U16 && (|t.value| >= LENGTH_ESCAPE ==> t.extended)
  }

  function LengthField(n: nat, extended: bool): (r: Octets)
    requires n < U16
    ensures |r| == if n >= LENGTH_ESCAPE || extended then 3 else 1
  {
    if n >= LENGTH_ESCAPE || extended then [LENGTH_ESCAPE as Byte] + Word(n) else [n as Byte]
  }

  function Encode(t: Tlv): (r: Octets)
    requires Wellformed(t)
    ensures |r| == (if t.extended then 4 else 2) + |t.value|
  {
    [t.kind] + LengthField(|t.value|, t.extended) + t.value
  }

  ghost predicate AllWellformed(ts: seq<Tlv>) {
    forall i | 0 <= i < |ts| :: Wellformed(ts[i])
  }

  function EncodeAll(ts: seq<Tlv>): Octets
    requires AllWellformed(ts)
  {
    if ts == [] then [] else Encode(ts[0]) + EncodeAll(ts[1..])
  }

  // Reading: mem is what can be read, a TLV starts at offset at.

  predicate HeaderIn(mem: Octets, at: nat) {
    && at + 2 <= |mem|
    && (mem[at + 1] as int == LENGTH_ESCAPE ==> at + 4 <= |mem|)
  }

  /** The two bytes at an offset as a number, high byte first. */
  function WordAt(mem: Octets, at: nat): (n: nat)
    requires at + 2 <= |mem|
    ensures n < U16
  {
    mem[at] as nat * 256 + mem[at + 1] as nat
  }

  function GetType(mem: Octets, at: nat): Byte
    requires HeaderIn(mem, at)
  {
    mem[at]
  }

  function GetLength(mem: Octets, at: nat): (n: nat)
    requires HeaderIn(mem, at)
    ensures n < U16
  {
    if mem[at + 1] as int != LENGTH_ESCAPE then mem[at + 1] as nat
    else WordAt(mem, at + 2)
  }

  /** Offset of the value. */
  function GetValue(mem: Octets, at: nat): (v: nat)
    requires HeaderIn(mem, at)
    ensures at + 2 <= v <= at + 4
  {
    at + if mem[at + 1] as int != LENGTH_ESCAPE then 2 else 4
  }

  function GetNext(mem: Octets, at: nat): (n: nat)
    requires HeaderIn(mem, at)
    ensures at + 2 <= n < at + 4 + U16
  {
    GetValue(mem, at) + GetLength(mem, at)
  }

  /** Bytes from the start of a buffer to an offset, as a 16-bit number. */
  function LengthOf(at: nat): nat {
    at % U16
  }

  /** A TLV found in memory: its type, and where its value lies. */
  datatype View = View(kind: Byte, start: nat, length: nat)

  function ViewAt(mem: Octets, at: nat): View
    requires HeaderIn(mem, at)
  {
    View(GetType(mem, at), GetValue(mem, at), GetLength(mem, at))
  }

  /** How many bytes a walker reads of the value of a TLV of this type and length. */
  type Reader = (Byte, nat) -> nat

  /** The TLVs a walker visits, or nothing when a header or a value it reads lies outside mem. */
  function Walk(mem: Octets, at: nat, length: nat, need: Reader): Option<seq<View>>
    decreases if at <= |mem| then |mem| - at else 0
  {
    if LengthOf(at) >= length then Some([])
    else if !HeaderIn(mem, at) then None
    else
      var v := ViewAt(mem, at);
      if v.start + need(v.kind, v.length) > |mem| then None
      else
        var rest := Walk(mem, GetNext(mem, at), length, need);
        if rest.None? then None else Some([v] + rest.value)
  }

  /** The views of TLVs written one after the other from offset at. */
  function Views(ts: seq<Tlv>, at: nat): seq<View> {
    if ts == [] then []
    else
      var start := at + if ts[0].extended then 4 else 2;
      [View(ts[0].kind, start, |ts[0].value|)] + Views(ts[1..], start + |ts[0].value|)
  }

  /** The bytes b stand in memory at an offset. */
  ghost predicate Stands(mem: Octets, at: nat, b: Octets) {
    at + |b| <= |mem| && mem[at..at + |b|] == b
  }

  lemma StandsSplit(mem: Octets, at: nat, a: Octets, b: Octets)
    ensures Stands(mem, at, a + b) <==> Stands(mem, at, a) && Stands(mem, at + |a|, b)
  {
    if Stands(mem, at, a + b) {
      assert a == (a + b)[..|a|] && b == (a + b)[|a|..];
    }
    if Stands(mem, at, a) && Stands(mem, at + |a|, b) {
      assert mem[at..at + |a + b|] == mem[at..at + |a|] + mem[at + |a|..at + |a| + |b|];
    }
  }

  lemma StandsByte(mem: Octets, at: nat, b: Octets, i: nat)
    requires Stands(mem, at, b) && i < |b|
    ensures mem[at + i] == b[i]
  {
    assert mem[at..at + |b|][i] == b[i];
  }

  lemma HeaderRead(mem: Octets, at: nat, kind: Byte, n: nat, extended: bool)
    requires n < U16 && Stands(mem, at, [kind] + LengthField(n, extended))
    ensures HeaderIn(mem, at) && GetType(mem, at) == kind && GetLength(mem, at) == n
    ensures GetValue(mem, at) == at + 1 + |LengthField(n, extended)|
  {
    var h := [kind] + LengthField(n, extended);
    StandsByte(mem, at, h, 0);
    StandsByte(mem, at, h, 1);
    if n >= LENGTH_ESCAPE || extended {
      StandsByte(mem, at, h, 2);
      StandsByte(mem, at, h, 3);
    }
  }

  /** Reading at the place where a TLV was written. */
  lemma EncodedRead(mem: Octets, at: nat, t: Tlv)
    requires Wellformed(t) && Stands(mem, at, Encode(t))
    ensures HeaderIn(mem, at) && GetNext(mem, at) == at + |Encode(t)|
    ensures ViewAt(mem, at) == View(t.kind, at + |Encode(t)| - |t.value|, |t.value|)
    ensures Stands(mem, at + |Encode(t)| - |t.value|, t.value)
  {
    StandsSplit(mem, at, [t.kind] + LengthField(|t.value|, t.extended), t.value);
    HeaderRead(mem, at, t.kind, |t.value|, t.extended);
  }

  /** The value a view points at. */
  function Value(mem: Octets, v: View): Octets
    requires v.start + v.length <= |mem|
  {
    mem[v.start..v.start + v.length]
  }

  /** A walker reads no more than the value of any of these TLVs. */
  ghost predicate Modest(need: Reader, ts: seq<Tlv>) {
    forall i | 0 <= i < |ts| :: need(ts[i].kind, |ts[i].value|) <= |ts[i].value|
  }

  lemma WalkStep(mem: Octets, at: nat, length: nat, need: Reader, rest: seq<View>)
    requires at < length < U16 && HeaderIn(mem, at)
    requires var v := ViewAt(mem, at); v.start + need(v.kind, v.length) <= |mem|
    requires Walk(mem, GetNext(mem, at), length, need) == Some(rest)
    ensures Walk(mem, at, length, need) == Some([ViewAt(mem, at)] + rest)
  {
  }

  lemma FirstModest(need: Reader, ts: seq<Tlv>)
    requires ts != [] && Modest(need, ts)
    ensures need(ts[0].kind, |ts[0].value|) <= |ts[0].value| && Modest(need, ts[1..])
  {
  }

  lemma {:induction false} WalkFrom(mem: Octets, at: nat, ts: seq<Tlv>, need: Reader, length: nat)
    requires AllWellformed(ts) && Modest(need, ts) && Stands(mem, at, EncodeAll(ts))
    requires at + |EncodeAll(ts)| == length < U16
    ensures Walk(mem, at, length, need) == Some(Views(ts, at))
    decreases |ts|
  {
    if ts != [] {
      var t := ts[0];
      StandsSplit(mem, at, Encode(t), EncodeAll(ts[1..]));
      EncodedRead(mem, at, t);
      FirstModest(need, ts);
      WalkFrom(mem, at + |Encode(t)|, ts[1..], need, length);
      WalkStep(mem, at, length, need, Views(ts[1..], at + |Encode(t)|));
    }
  }

  /** Walking a written list visits exactly that list and stops at its end. */
  lemma WalkWritten(ts: seq<Tlv>, post: Octets, need: Reader)
    requires AllWellformed(ts) && Modest(need, ts) && |EncodeAll(ts)| < U16
    ensures Walk(EncodeAll(ts) + post, 0, |EncodeAll(ts)|, need) == Some(Views(ts, 0))
  {
    WalkFrom(EncodeAll(ts) + post, 0, ts, need, |EncodeAll(ts)|);
  }

  /** Each view of a written list points at the value written there. */
  lemma {:induction false} ViewsRead(mem: Octets, at: nat, ts: seq<Tlv>, i: nat)
    requires AllWellformed(ts) && Stands(mem, at, EncodeAll(ts)) && i < |ts|
    ensures |Views(ts, at)| == |ts|
    ensures var v := Views(ts, at)[i];
      v.kind == ts[i].kind && v.length == |ts[i].value| && Stands(mem, v.start, ts[i].value)
    decreases |ts|
  {
    ViewsLength(ts, at);
    StandsSplit(mem, at, Encode(ts[0]), EncodeAll(ts[1..]));
    EncodedRead(mem, at, ts[0]);
    if i > 0 {
      ViewsRead(mem, at + |Encode(ts[0])|, ts[1..], i - 1);
    }
  }

  lemma ViewsLength(ts: seq<Tlv>, at: nat)
    ensures |Views(ts, at)| == |ts|
  {
  }

  /** Writing a list and walking it gives back every type, length and value in order. */
  lemma TlvRoundTrip(ts: seq<Tlv>, post: Octets, need: Reader)
    requires AllWellformed(ts) && Modest(need, ts) && |EncodeAll(ts)| < U16
    ensures var mem := EncodeAll(ts) + post; var w := Walk(mem, 0, |EncodeAll(ts)|, need);
      && w.Some? && |w.value| == |ts|
      && forall i | 0 <= i < |ts| ::
           && w.value[i].kind == ts[i].kind
           && w.value[i].start + w.value[i].length <= |mem|
           && Value(mem, w.value[i]) == ts[i].value
  {
    var mem := EncodeAll(ts) + post;
    WalkWritten(ts, post, need);
    ViewsLength(ts, 0);
    forall i | 0 <= i < |ts|
      ensures var v := Views(ts, 0)[i];
        v.kind == ts[i].kind && v.start + v.length <= |mem| && Value(mem, v) == ts[i].value
    {
      ViewsRead(mem, 0, ts, i);
    }
  }

  // The 16-bit offset of the walkers.

  /** A walker that compares full offsets. */
  function IdealWalk(mem: Octets, at: nat, length: nat, need: Reader): Option<seq<View>>
    decreases if at <= |mem| then |mem| - at else 0
  {
    if at >= length then Some([])
    else if !HeaderIn(mem, at) then None
    else
      var v := ViewAt(mem, at);
      if v.start + need(v.kind, v.length) > |mem| then None
      else
        var rest := IdealWalk(mem, GetNext(mem, at), length, need);
        if rest.None? then None else Some([v] + rest.value)
  }

  /** Where the full-offset walker stops. */
  function WalkEnd(mem: Octets, at: nat, length: nat): nat
    decreases if at <= |mem| then |mem| - at else 0
  {
    if at >= length || !HeaderIn(mem, at) then at else WalkEnd(mem, GetNext(mem, at), length)
  }

  /** The 16-bit walker does what the full-offset one does, and where the end of the last TLV wraps back into the
      payload it goes on from there, over whatever is readable. */
  lemma {:induction false} WalkGoesOn(mem: Octets, at: nat, length: nat, need: Reader)
    requires length < U16 && (at < length || LengthOf(at) >= length)
    ensures var (ideal, end) := (IdealWalk(mem, at, length, need), WalkEnd(mem, at, length));
      if ideal.None? then Walk(mem, at, length, need).None?
      else if LengthOf(end) >= length then Walk(mem, at, length, need) == ideal
      else
        var more := Walk(mem, end, length, need);
        Walk(mem, at, length, need) == if more.None? then None else Some(ideal.value + more.value)
    decreases if at <= |mem| then |mem| - at else 0
  {
    assert at < length ==> LengthOf(at) == at;
    if at < length && HeaderIn(mem, at) {
      var v, next := ViewAt(mem, at), GetNext(mem, at);
      if v.start + need(v.kind, v.length) <= |mem| {
        if next < length || LengthOf(next) >= length {
          WalkGoesOn(mem, next, length, need);
          AppendOnce(v, IdealWalk(mem, next, length, need), Walk(mem, WalkEnd(mem, next, length), length, need));
        } else {
          assert IdealWalk(mem, next, length, need) == Some([]) && WalkEnd(mem, next, length) == next;
          AppendOnce(v, Some([]), Walk(mem, next, length, need));
        }
      }
    }
  }

  lemma AppendOnce(v: View, ideal: Option<seq<View>>, more: Option<seq<View>>)
    ensures ideal.Some? && more.Some? ==> [v] + (ideal.value + more.value) == ([v] + ideal.value) + more.value
    ensures more.Some? ==> [] + more.value == more.value
  {
  }

  /** For any readable memory: the two walks agree if and only if the full-offset one leaves memory as well, or the end
      of its last TLV does not wrap back into the payload. */
  lemma TruncationIff(mem: Octets, at: nat, length: nat, need: Reader)
    requires length < U16 && (at < length || LengthOf(at) >= length)
    ensures Walk(mem, at, length, need) == IdealWalk(mem, at, length, need)
       <==> IdealWalk(mem, at, length, need).None? || LengthOf(WalkEnd(mem, at, length)) >= length
  {
    var ideal, end := IdealWalk(mem, at, length, need), WalkEnd(mem, at, length);
    WalkGoesOn(mem, at, length, need);
    if ideal.Some? && LengthOf(end) < length {
      var more := Walk(mem, end, length, need);
      if more.Some? {
        assert |more.value| > 0;
        assert |ideal.value + more.value| > |ideal.value|;
      }
    }
  }

  /** Five bytes whose one TLV claims 65532 bytes of value: it ends at offset 65536, which wraps to 0, and the 16-bit
      walker sets out again from there, outside memory. */
  lemma WrapExample(mem: Octets)
    requires mem == [16, 255, 255, 252, 1]
    ensures IdealWalk(mem, 0, 5, (_, _) => 1).Some? && Walk(mem, 0, 5, (_, _) => 1).None?
  {
    var need: Reader := (_, _) => 1;
    assert GetNext(mem, 0) == U16;
    assert IdealWalk(mem, U16, 5, need) == Some([]);
    assert Walk(mem, U16, 5, need) == None;
  }

  // Writing in place.

  lemma SpliceStands(b: Octets, at: nat, x: Octets)
    requires at + |x| <= |b|
    ensures var r := Splice(b, at, x); Stands(r, at, x) && r[..at] == b[..at]
  {
  }

  method SetType(buf: array<Byte>, at: nat, aType: Byte)
    requires at < buf.Length
    modifies buf
    ensures buf[..] == Splice(old(buf[..]), at, [aType])
  {
    buf[at] := aType;
  }

  method SetLength(buf: array<Byte>, at: nat, aLength: nat, aForceExtended: bool)
    requires aLength < U16 && at + 1 + |LengthField(aLength, aForceExtended)| <= buf.Length
    modifies buf
    ensures buf[..] == Splice(old(buf[..]), at + 1, LengthField(aLength, aForceExtended))
  {
    if aLength >= LENGTH_ESCAPE || aForceExtended {
      buf[at + 1] := LENGTH_ESCAPE as Byte;
      buf[at + 2] := (aLength / 256) as Byte;
      buf[at + 3] := (aLength % 256) as Byte;
    } else {
      buf[at + 1] := aLength as Byte;
    }
  }

  method SetValue(buf: array<Byte>, at: nat, aValue: Octets, aForceExtended: bool)
    requires |aValue| < U16 && at + 1 + |LengthField(|aValue|, aForceExtended)| + |aValue| <= buf.Length
    modifies buf
    ensures buf[..] == Splice(old(buf[..]), at + 1, LengthField(|aValue|, aForceExtended) + aValue)
  {
    ghost var before, header := buf[..], LengthField(|aValue|, aForceExtended);
    SetLength(buf, at, |aValue|, aForceExtended);
    StandsSplice(before, at + 1, header);
    var value := at + if buf[at + 1] as int != LENGTH_ESCAPE then 2 else 4;
    Copy(buf, value, aValue);
    SpliceTwice(before, at + 1, header, aValue);
  }

  lemma StandsSplice(b: Octets, at: nat, header: Octets)
    requires at + |header| <= |b| && header != []
    ensures Splice(b, at, header)[at] == header[0]
  {
  }

  /** SetType, SetValue and GetNext on a TLV at an offset of the buffer. */
  method Append(buf: array<Byte>, at: nat, aType: Byte, aValue: Octets, aForceExtended: bool, ghost t: Tlv)
    returns (next: nat)
    requires Wellformed(t) && t.kind == aType && t.value == aValue
    requires t.extended == (|aValue| >= LENGTH_ESCAPE || aForceExtended)
    requires at + |Encode(t)| <= buf.Length
    modifies buf
    ensures buf[..] == Splice(old(buf[..]), at, Encode(t)) && next == at + |Encode(t)|
  {
    ghost var before := buf[..];
    SetType(buf, at, aType);
    SetValue(buf, at, aValue, aForceExtended);
    SpliceTwice(before, at, [aType], LengthField(|aValue|, aForceExtended) + aValue);
    assert [aType] + (LengthField(|aValue|, aForceExtended) + aValue) == Encode(t);
    SpliceStands(before, at, Encode(t));
    EncodedRead(buf[..], at, t);
    next := GetNext(buf[..], at);
  }

  lemma EncodeCons(t: Tlv, ts: seq<Tlv>)
    requires Wellformed(t) && AllWellformed(ts)
    ensures AllWellformed([t] + ts) && EncodeAll([t] + ts) == Encode(t) + EncodeAll(ts)
  {
    assert ([t] + ts)[1..] == ts;
  }

  lemma FirstApart<T>(ts: seq<T>, t: T)
    requires ts != []
    ensures ts == [ts[0]] + ts[1..] && ts + [t] == [ts[0]] + (ts[1..] + [t])
  {
  }

  lemma {:induction false} EncodeAppend(ts: seq<Tlv>, t: Tlv)
    requires AllWellformed(ts) && Wellformed(t)
    ensures AllWellformed(ts + [t]) && EncodeAll(ts + [t]) == EncodeAll(ts) + Encode(t)
    decreases |ts|
  {
    if ts == [] {
      EncodeCons(t, []);
      assert ts + [t] == [t] + [];
    } else {
      EncodeAppend(ts[1..], t);
      EncodeCons(ts[0], ts[1..] + [t]);
      EncodeCons(ts[0], ts[1..]);
      FirstApart(ts, t);
    }
  }

  /** What has been written so far stays when the next TLV is written behind it. */
  lemma WriteStep(before: Octets, after: Octets, ts: seq<Tlv>, t: Tlv)
    requires AllWellformed(ts) && Wellformed(t)
    requires Stands(before, 0, EncodeAll(ts)) && |EncodeAll(ts)| + |Encode(t)| <= |before|
    requires after == Splice(before, |EncodeAll(ts)|, Encode(t))
    ensures AllWellformed(ts + [t]) && Stands(after, 0, EncodeAll(ts + [t]))
    ensures |EncodeAll(ts + [t])| == |EncodeAll(ts)| + |Encode(t)|
  {
    EncodeAppend(ts, t);
    SpliceStands(before, |EncodeAll(ts)|, Encode(t));
    assert after[0..|EncodeAll(ts)|] == before[0..|EncodeAll(ts)|];
    StandsSplit(after, 0, EncodeAll(ts), Encode(t));
  }

  /** The buffer starts with these TLVs. */
  ghost predicate Written(buf: Octets, ts: seq<Tlv>) {
    AllWellformed(ts) && Stands(buf, 0, EncodeAll(ts))
  }

  /** Write one more TLV behind those the buffer starts with. */
  method WriteNext(buf: array<Byte>, at: nat, t: Tlv, ghost ts: seq<Tlv>) returns (next: nat)
    requires Written(buf[..], ts) && at == |EncodeAll(ts)|
    requires Wellformed(t)
    requires at + |Encode(t)| <= buf.Length
    modifies buf
    ensures Written(buf[..], ts + [t]) && next == |EncodeAll(ts + [t])| == at + |Encode(t)|
  {
    ghost var before := buf[..];
    next := Append(buf, at, t.kind, t.value, t.extended, t);
    WriteStep(before, buf[..], ts, t);
  }

  lemma WrittenNothing(buf: Octets)
    ensures Written(buf, []) && EncodeAll([]) == []
  {
  }

  /** The message is what stands at the front of the buffer. */
  lemma WrittenMessage(buf: Octets, ts: seq<Tlv>)
    requires Written(buf, ts) && |EncodeAll(ts)| < U16
    ensures LengthOf(|EncodeAll(ts)|) <= |buf| && buf[..LengthOf(|EncodeAll(ts)|)] == EncodeAll(ts)
  {
    assert buf[0..|EncodeAll(ts)|] == buf[..|EncodeAll(ts)|];
  }

  /** One or two small TLVs written into a fresh buffer. */
  method WriteSmall(ts: seq<Tlv>, size: nat) returns (payload: Octets)
    requires AllWellformed(ts) && 1 <= |ts| <= 2 && forall i | 0 <= i < |ts| :: |ts[i].value| <= 32 && !ts[i].extended
    requires |ts[0].value| + 2 + (if |ts| == 2 then |ts[1].value| + 2 else 0) <= size
    ensures payload == EncodeAll(ts)
  {
    var buffer := new Byte[size](_ => 0);
    WrittenNothing(buffer[..]);
    var tlv := WriteNext(buffer, 0, ts[0], []);
    assert [] + [ts[0]] == ts[..1];
    if |ts| == 2 {
      tlv := WriteNext(buffer, tlv, ts[1], ts[..1]);
      assert ts[..1] + [ts[1]] == ts;
    } else {
      assert ts[..1] == ts;
    }
    WrittenMessage(buffer[..], ts);
    payload := buffer[..LengthOf(tlv)];
  }
}
