/** What the commissioner thread relays: which datagrams it passes on, whose PSK it sets, and what it sends. */
module ThreadTraffic {
  import opened Bytes
  import opened Comm
  import opened Commissioners
  import opened Joiners
  import opened Protocol
  import opened Psk
  import opened Publish
  import opened Relay
  import opened Tlvs
  import opened ThreadSessions
  import KekRuns
  import Sessions
  import Steering

  // One relay message.

  /** The datagram in a TLV, if it holds one. */
  function DatagramIn(mem: Octets, v: View): seq<Octets>
    requires Readable(mem, v)
  {
    if v.kind == 17 then [mem[v.start..v.start + v.length]] else []
  }

  /** The datagrams among the TLVs of a message, in order, up to the first that cannot be passed on. */
  function Datagrams(mem: Octets, vs: seq<View>, fails: nat -> bool, i: nat): seq<Octets>
    requires i <= |vs| && AllReadable(mem, vs)
    decreases |vs| - i
  {
    if i == |vs| || (vs[i].kind == 17 && fails(i)) then []
    else DatagramIn(mem, vs[i]) + Datagrams(mem, vs, fails, i + 1)
  }

  /** The PSK text of the first entry known by an identifier, if there is one. */
  function TextOf(sha: Steering.Sha256, v: seq<JoinerInstance>, iid: Octets): (r: seq<string>)
    ensures r == [] ==> forall i | 0 <= i < |v| :: JoinerIid(sha, v[i]) != iid
    ensures r != [] ==> exists n :: 0 <= n < |v| && JoinerIid(sha, v[n]) == iid && r == [v[n].psk]
                                    && forall i | 0 <= i < n :: JoinerIid(sha, v[i]) != iid
  {
    var n := Select(sha, v, iid);
    if n < |v| then [v[n].psk] else []
  }

  /** The text of the entry that a TLV identifies. */
  function TextIn(sha: Steering.Sha256, list: seq<JoinerInstance>, mem: Octets, v: View): seq<string>
    requires Readable(mem, v)
  {
    if v.kind == 19 then TextOf(sha, list, mem[v.start..v.start + 8]) else []
  }

  /** The texts of the entries that a message identifies, in order. */
  function Texts(sha: Steering.Sha256, v: seq<JoinerInstance>, mem: Octets, vs: seq<View>, fails: nat -> bool,
                 i: nat): seq<string>
    requires i <= |vs| && AllReadable(mem, vs)
    decreases |vs| - i
  {
    if i == |vs| || (vs[i].kind == 17 && fails(i)) then []
    else TextIn(sha, v, mem, vs[i]) + Texts(sha, v, mem, vs, fails, i + 1)
  }

  /** The PSK after these texts in turn. */
  function Told(psk: string, texts: seq<string>): string {
    if texts == [] then psk else Replaced(Told(psk, texts[..|texts| - 1]), texts[|texts| - 1])
  }

  lemma {:induction false} ToldTwice(psk: string, a: seq<string>, b: seq<string>)
    ensures Told(psk, a + b) == Told(Told(psk, a), b)
    decreases |b|
  {
    if b == [] {
      assert a + b == a;
    } else {
      ToldTwice(psk, a, b[..|b| - 1]);
      assert (a + b)[..|a + b| - 1] == a + b[..|b| - 1];
    }
  }

  lemma OneText(sha: Steering.Sha256, v: seq<JoinerInstance>, iid: Octets, psk: string)
    ensures PskAfter(sha, v, iid, psk) == Told(psk, TextOf(sha, v, iid))
  {
    var texts := TextOf(sha, v, iid);
    if texts != [] {
      assert texts[..0] == [];
    }
  }

  lemma OneForwards(sha: Steering.Sha256, list: seq<JoinerInstance>, mem: Octets, v: View, r: RelayState, fails: bool)
    requires Readable(mem, v)
    ensures var (r', stop) := RelayOne(sha, list, mem, v, r, fails);
      && stop == (v.kind == 17 && fails)
      && r'.forwarded == r.forwarded + if stop then [] else DatagramIn(mem, v)
  {
  }

  lemma OneTells(sha: Steering.Sha256, list: seq<JoinerInstance>, mem: Octets, v: View, r: RelayState, fails: bool)
    requires Readable(mem, v)
    ensures var (r', stop) := RelayOne(sha, list, mem, v, r, fails);
      && stop == (v.kind == 17 && fails)
      && r'.psk == if stop then r.psk else Told(r.psk, TextIn(sha, list, mem, v))
  {
    if v.kind == 19 {
      OneText(sha, list, mem[v.start..v.start + 8], r.psk);
    }
  }

  /** A message passes on its datagrams and nothing else. */
  lemma {:induction false} MessageForwards(sha: Steering.Sha256, v: seq<JoinerInstance>, mem: Octets, vs: seq<View>,
                                           r: RelayState, fails: nat -> bool, i: nat)
    requires i <= |vs| && AllReadable(mem, vs)
    ensures RelayAll(sha, v, mem, vs, r, fails, i).forwarded == r.forwarded + Datagrams(mem, vs, fails, i)
    decreases |vs| - i
  {
    if i < |vs| {
      var (r', stop) := RelayOne(sha, v, mem, vs[i], r, fails(i));
      OneForwards(sha, v, mem, vs[i], r, fails(i));
      if !stop {
        MessageForwards(sha, v, mem, vs, r', fails, i + 1);
        Regrouped(r.forwarded, DatagramIn(mem, vs[i]), Datagrams(mem, vs, fails, i + 1));
      }
    }
  }

  lemma Regrouped<T>(a: seq<T>, b: seq<T>, c: seq<T>)
    ensures (a + b) + c == a + (b + c)
  {
  }

  /** A message sets the PSK of the entries it identifies, one after the other. */
  lemma {:induction false} MessageTells(sha: Steering.Sha256, v: seq<JoinerInstance>, mem: Octets, vs: seq<View>,
                                        r: RelayState, fails: nat -> bool, i: nat)
    requires i <= |vs| && AllReadable(mem, vs)
    ensures RelayAll(sha, v, mem, vs, r, fails, i).psk == Told(r.psk, Texts(sha, v, mem, vs, fails, i))
    decreases |vs| - i
  {
    if i < |vs| {
      var (r', stop) := RelayOne(sha, v, mem, vs[i], r, fails(i));
      OneTells(sha, v, mem, vs[i], r, fails(i));
      if !stop {
        MessageTells(sha, v, mem, vs, r', fails, i + 1);
        ToldTwice(r.psk, TextIn(sha, v, mem, vs[i]), Texts(sha, v, mem, vs, fails, i + 1));
      }
    }
  }

  /** Before there is a joiner session no message that can be taken identifies anybody. */
  lemma {:induction false} NobodyTold(sha: Steering.Sha256, v: seq<JoinerInstance>, mem: Octets, vs: seq<View>,
                                      fails: nat -> bool, i: nat)
    requires i <= |vs| && AllReadable(mem, vs) && Answerable(sha, v, mem, vs, fails, false, i)
    ensures Texts(sha, v, mem, vs, fails, i) == []
    decreases |vs| - i
  {
    if i < |vs| && !(vs[i].kind == 17 && fails(i)) {
      NobodyTold(sha, v, mem, vs, fails, i + 1);
    }
  }

  // All turns.

  function PassedOn(t: Turn): seq<Octets> {
    match t.input
    case RelayIn(payload, length, fails) =>
      var vs := Relayed(payload, 0, length, fails, 0);
      if vs.Some? then Datagrams(payload, vs.value, fails, 0) else []
    case _ => []
  }

  function Identified(sha: Steering.Sha256, v: seq<JoinerInstance>, t: Turn): seq<string> {
    match t.input
    case RelayIn(payload, length, fails) =>
      var vs := Relayed(payload, 0, length, fails, 0);
      if vs.Some? then Texts(sha, v, payload, vs.value, fails, 0) else []
    case _ => []
  }

  function AllPassedOn(ts: seq<Turn>): seq<Octets> {
    if ts == [] then [] else AllPassedOn(ts[..|ts| - 1]) + PassedOn(ts[|ts| - 1])
  }

  /** The texts of the entries identified in the turns, each looked up in the list as it then is. */
  function AllIdentified(sha: Steering.Sha256, p: Pub, ts: seq<Turn>): seq<string> {
    if ts == [] then []
    else
      var front := ts[..|ts| - 1];
      AllIdentified(sha, p, front) + Identified(sha, Rounds(sha, p, OpsOf(front)).list.vector, ts[|ts| - 1])
  }

  /** A request does not touch what is relayed to the joiner. */
  lemma RestOfPass(sha: Steering.Sha256, v: seq<JoinerInstance>, w: Traffic, c: Core, j: JoinerState, t: Turn)
    ensures AfterPass(sha, v, w, c, j, t.input, t.datagram, t.now, t.sendTime).relay
         == AfterInput(sha, v, w, c, t.input).relay
  {
  }

  lemma InputRelays(sha: Steering.Sha256, v: seq<JoinerInstance>, w: Traffic, c: Core, t: Turn)
    ensures var r := AfterInput(sha, v, w, c, t.input).relay;
      && r.forwarded == w.relay.forwarded + PassedOn(t)
      && r.psk == Told(w.relay.psk, Identified(sha, v, t))
  {
    match t.input
    case RelayIn(payload, length, fails) =>
      var vs := Relayed(payload, 0, length, fails, 0);
      if vs.Some? {
        MessageForwards(sha, v, payload, vs.value, w.relay, fails, 0);
        MessageTells(sha, v, payload, vs.value, w.relay, fails, 0);
      }
    case _ =>
  }

  /** The relay state after a turn: what the message made of it, with the first PSK if the joiner session is created. */
  lemma TurnRelays(sha: Steering.Sha256, s: ListState, c: Core, j: JoinerState, w: Traffic, t: Turn)
    ensures var (r, r') := (AfterInput(sha, s.vector, w, c, t.input).relay,
                            CompletedTraffic(sha, s, c, j, w, t).relay);
      r' == if j.Absent? && AfterOps(sha, s, t.ops).updated then r.(psk := Replaced("", DEFAULT_PSK)) else r
  {
    RestOfPass(sha, s.vector, w, c, j, t);
  }

  lemma ForwardedOn(sha: Steering.Sha256, first: Core, p: Pub, j: JoinerState, w: Traffic, ts: seq<Turn>)
    requires ts != []
    ensures TrafficAfter(sha, first, p, j, w, ts).relay.forwarded
         == TrafficAfter(sha, first, p, j, w, ts[..|ts| - 1]).relay.forwarded + PassedOn(ts[|ts| - 1])
  {
    var front, last := ts[..|ts| - 1], ts[|ts| - 1];
    var (q, c, v) := (Rounds(sha, p, OpsOf(front)), RunLoop(first, Passes(front)),
                      TrafficAfter(sha, first, p, j, w, front));
    TurnRelays(sha, q.list, c, Processed(AfterTurns(sha, p, j, front), last), v, last);
    InputRelays(sha, q.list.vector, v, c, last);
  }

  lemma {:induction false} ForwardedTo(sha: Steering.Sha256, first: Core, p: Pub, j: JoinerState, w: Traffic,
                                       ts: seq<Turn>, forwarded: seq<Octets>)
    requires forwarded == TrafficAfter(sha, first, p, j, w, ts).relay.forwarded
    ensures forwarded == w.relay.forwarded + AllPassedOn(ts)
    decreases |ts|
  {
    if ts != [] {
      var front := ts[..|ts| - 1];
      var before := TrafficAfter(sha, first, p, j, w, front).relay.forwarded;
      ForwardedOn(sha, first, p, j, w, ts);
      ForwardedTo(sha, first, p, j, w, front, before);
      Regrouped(w.relay.forwarded, AllPassedOn(front), PassedOn(ts[|ts| - 1]));
    }
  }

  /** Over any turns done, exactly the datagrams of the relay messages are passed on, in order. */
  lemma ForwardedInOrder(sha: Steering.Sha256, first: Core, p: Pub, j: JoinerState, w: Traffic, ts: seq<Turn>)
    ensures TrafficAfter(sha, first, p, j, w, ts).relay.forwarded == w.relay.forwarded + AllPassedOn(ts)
  {
    ForwardedTo(sha, first, p, j, w, ts, TrafficAfter(sha, first, p, j, w, ts).relay.forwarded);
  }

  lemma NobodyIdentified(sha: Steering.Sha256, v: seq<JoinerInstance>, j: JoinerState, t: Turn)
    requires j.Absent? && Meets(sha, v, j, t)
    ensures Identified(sha, v, t) == []
  {
    match t.input
    case RelayIn(payload, length, fails) =>
      NobodyTold(sha, v, payload, Relayed(payload, 0, length, fails, 0).value, fails, 0);
    case _ =>
  }

  /** The PSK, by the joiner session and the texts identified so far. */
  predicate RightPsk(psk: string, before: string, j: JoinerState, texts: seq<string>) {
    if j.Absent? then texts == [] && psk == before else psk == Told(DEFAULT_PSK, texts)
  }

  lemma PskOn(sha: Steering.Sha256, first: Core, p: Pub, w: Traffic, ts: seq<Turn>, j: JoinerState, v: Traffic,
              texts: seq<string>)
    requires ts != [] && StageAt(sha, p, Absent, ts, |ts| - 1).Done?
    requires var front := ts[..|ts| - 1];
      && j == AfterTurns(sha, p, Absent, front) && v == TrafficAfter(sha, first, p, Absent, w, front)
      && texts == AllIdentified(sha, p, front) && RightPsk(v.relay.psk, w.relay.psk, j, texts)
    ensures RightPsk(TrafficAfter(sha, first, p, Absent, w, ts).relay.psk, w.relay.psk, AfterTurns(sha, p, Absent, ts),
                     AllIdentified(sha, p, ts))
  {
    var front, last := ts[..|ts| - 1], ts[|ts| - 1];
    var (q, c) := (Rounds(sha, p, OpsOf(front)), RunLoop(first, Passes(front)));
    TurnRelays(sha, q.list, c, Processed(j, last), v, last);
    InputRelays(sha, q.list.vector, v, c, last);
    TurnCreates(j, last, AfterOps(sha, q.list, last.ops).updated);
    if j.Absent? {
      NobodyIdentified(sha, q.list.vector, Processed(j, last), last);
    } else {
      ToldTwice(DEFAULT_PSK, texts, Identified(sha, q.list.vector, last));
    }
  }

  ghost predicate RightAfter(sha: Steering.Sha256, first: Core, p: Pub, w: Traffic, ts: seq<Turn>) {
    RightPsk(TrafficAfter(sha, first, p, Absent, w, ts).relay.psk, w.relay.psk, AfterTurns(sha, p, Absent, ts),
             AllIdentified(sha, p, ts))
  }

  lemma RightOn(sha: Steering.Sha256, first: Core, p: Pub, w: Traffic, ts: seq<Turn>, n: nat)
    requires n < |ts| && StageAt(sha, p, Absent, ts, n).Done? && RightAfter(sha, first, p, w, ts[..n])
    ensures RightAfter(sha, first, p, w, ts[..n + 1])
  {
    assert ts[..n + 1][..n] == ts[..n];
    PskOn(sha, first, p, w, ts[..n + 1], AfterTurns(sha, p, Absent, ts[..n]),
          TrafficAfter(sha, first, p, Absent, w, ts[..n]), AllIdentified(sha, p, ts[..n]));
  }

  lemma {:induction false} PskTo(sha: Steering.Sha256, first: Core, p: Pub, w: Traffic, ts: seq<Turn>, n: nat)
    requires n <= |ts| && AllDone(sha, p, Absent, ts, n)
    ensures RightAfter(sha, first, p, w, ts[..n])
    decreases n
  {
    if n > 0 {
      PskTo(sha, first, p, w, ts, n - 1);
      RightOn(sha, first, p, w, ts, n - 1);
    }
  }

  /** The PSK is that of the last entry that a relay message identified, as it is when it has at most 32 characters, and
      that which the joiner session starts with when there is none. */
  lemma PskOfLastIdentified(sha: Steering.Sha256, first: Core, p: Pub, w: Traffic, ts: seq<Turn>)
    requires AllDone(sha, p, Absent, ts, |ts|)
    ensures var psk := TrafficAfter(sha, first, p, Absent, w, ts).relay.psk;
      if AfterTurns(sha, p, Absent, ts).Absent? then AllIdentified(sha, p, ts) == [] && psk == w.relay.psk
      else psk == Told(DEFAULT_PSK, AllIdentified(sha, p, ts))
    ensures var (psk, texts) := (TrafficAfter(sha, first, p, Absent, w, ts).relay.psk, AllIdentified(sha, p, ts));
      texts != [] && |texts[|texts| - 1]| <= 32 ==> psk == texts[|texts| - 1]
  {
    PskTo(sha, first, p, w, ts, |ts|);
    assert ts[..|ts|] == ts;
  }

  // What goes out.

  /** The payloads of the relay requests in a log, in order. */
  function RelayPayloads(log: seq<Request>): seq<Octets> {
    if log == [] then []
    else RelayPayloads(log[..|log| - 1])
         + if log[|log| - 1].RelayRequest? then [log[|log| - 1].payload] else []
  }

  lemma PayloadsAppend(log: seq<Request>, q: Request)
    ensures RelayPayloads(log + [q]) == RelayPayloads(log) + if q.RelayRequest? then [q.payload] else []
  {
    assert (log + [q])[..|log|] == log;
  }

  /** The payload of a datagram. */
  function PayloadOf(r: RelayState, datagram: Octets, kek: Option<Sessions.Key>): Octets
    requires |datagram| < U16
  {
    EncodeAll(RelayTlvs(datagram, r.port, r.iid, r.locator, kek))
  }

  /** What goes out for a datagram: its payload, with the joiner session's key if it is due. */
  function PayloadsFor(r: RelayState, j: JoinerState, datagram: Option<Octets>): seq<Octets>
    requires Relays(j, datagram)
  {
    if datagram.None? then []
    else [PayloadOf(r, datagram.value, if j.table.needKek then Some(j.table.kek) else None)]
  }

  lemma InputSends(sha: Steering.Sha256, v: seq<JoinerInstance>, w: Traffic, c: Core, i: Input)
    ensures RelayPayloads(AfterInput(sha, v, w, c, i).sent) == RelayPayloads(w.sent)
  {
    match i
    case Answer(kind, payload, length, time) =>
      if ResponseIn(i).Some? {
        var again := PetitionsAgain(Judged(c, ResponseIn(i).value));
        if again == [] {
          assert w.sent + [] == w.sent;
        } else {
          PayloadsAppend(w.sent, again[0]);
          assert again == [again[0]];
        }
      }
    case _ =>
  }

  lemma TickSends(w: Traffic, c: Core, now: int, sendTime: int)
    ensures RelayPayloads(AfterTick(w, c, now, sendTime).sent) == RelayPayloads(w.sent)
  {
    PayloadsAppend(w.sent, KeepAliveRequest(EncodeAll(KeepAliveTlvs(w.sessionId)), sendTime));
  }

  lemma ServiceSends(sha: Steering.Sha256, s: ListState, w: Traffic, j: JoinerState, ops: seq<Op>)
    ensures RelayPayloads(AfterService(sha, s, w, j, ops).sent) == RelayPayloads(w.sent)
  {
    var s' := AfterOps(sha, s, ops);
    PayloadsAppend(w.sent, SetRequest(EncodeAll(SetTlvs(w.sessionId, FilterBytes(s'.filter)))));
  }

  /** A datagram that can be relayed goes out in one request. */
  lemma RelaySends(w: Traffic, j: JoinerState, datagram: Option<Octets>)
    requires Relays(j, datagram)
    ensures RelayPayloads(AfterRelay(w, j, datagram).sent)
         == RelayPayloads(w.sent) + PayloadsFor(w.relay, j, datagram)
  {
    if datagram.Some? {
      var kek := if j.table.needKek then Some(j.table.kek) else None;
      PayloadsAppend(w.sent, RelayRequest(PayloadOf(w.relay, datagram.value, kek)));
    }
  }

  /** What a turn sends for its datagram: one message, with the port, identifier and locator of the last relay message
      and the joiner session's key if it is due. */
  lemma TurnSends(sha: Steering.Sha256, s: ListState, c: Core, j: JoinerState, w: Traffic, t: Turn)
    requires Relays(j, t.datagram)
    ensures RelayPayloads(CompletedTraffic(sha, s, c, j, w, t).sent)
         == RelayPayloads(w.sent) + PayloadsFor(AfterInput(sha, s.vector, w, c, t.input).relay, j, t.datagram)
  {
    var w1 := AfterInput(sha, s.vector, w, c, t.input);
    var w2 := AfterRelay(w1, j, t.datagram);
    var w3 := AfterTick(w2, Heard(c, t.input), t.now, t.sendTime);
    InputSends(sha, s.vector, w, c, t.input);
    RelaySends(w1, j, t.datagram);
    TickSends(w2, Heard(c, t.input), t.now, t.sendTime);
    ServiceSends(sha, s, w3, AfterDatagram(j, t.datagram), t.ops);
  }

  // The key.

  /** The table when the datagram of the n-th turn is relayed. */
  lemma TableUpTo(sha: Steering.Sha256, p: Pub, j: JoinerState, ts: seq<Turn>, n: nat)
    requires n < |ts|
    ensures TableOf(Processed(AfterTurns(sha, p, j, ts[..n]), ts[n]))
         == Sessions.Steps(TableOf(j), StepsUpTo(sha, p, j, ts, n))
  {
    var j' := AfterTurns(sha, p, j, ts[..n]);
    ThreadTable(sha, p, j, ts[..n]);
    PassTable(j', ts[n]);
    Sessions.StepsConcat(TableOf(j), ThreadSteps(sha, p, j, ts[..n]), PassSteps(j', ts[n]));
  }

  /** The key that goes with the datagram of the n-th turn: the joiner session's, if a finalize request was read and the
      key has not been sent since. */
  ghost function KeyFor(sha: Steering.Sha256, p: Pub, ts: seq<Turn>, n: nat): Option<Sessions.Key>
    requires n < |ts|
  {
    var ss := StepsUpTo(sha, p, Absent, ts, n);
    if KekRuns.Due(ss) then Some(Sessions.Steps(Sessions.EMPTY, ss).kek) else None
  }

  lemma KeyIs(sha: Steering.Sha256, p: Pub, ts: seq<Turn>, n: nat)
    requires n < |ts| && AfterTurns(sha, p, Absent, ts[..n]).Present?
    ensures var t := Processed(AfterTurns(sha, p, Absent, ts[..n]), ts[n]).table;
      KeyFor(sha, p, ts, n) == if t.needKek then Some(t.kek) else None
  {
    TableUpTo(sha, p, Absent, ts, n);
    KekRuns.RunDueIff(StepsUpTo(sha, p, Absent, ts, n));
  }

  /** What the n-th turn sends for its datagram. */
  ghost function PayloadAt(sha: Steering.Sha256, first: Core, p: Pub, w: Traffic, ts: seq<Turn>, n: nat): seq<Octets>
    requires n < |ts|
  {
    var d := ts[n].datagram;
    if d.None? || |d.value| >= U16 then []
    else [PayloadOf(TrafficAfter(sha, first, p, Absent, w, ts[..n + 1]).relay, d.value, KeyFor(sha, p, ts, n))]
  }

  lemma DoneRelays(sha: Steering.Sha256, p: Pub, ts: seq<Turn>, n: nat, j: JoinerState)
    requires n < |ts| && StageAt(sha, p, Absent, ts, n).Done?
    requires j == Processed(AfterTurns(sha, p, Absent, ts[..n]), ts[n])
    ensures Relays(j, ts[n].datagram)
  {
  }

  lemma PayloadsAre(sha: Steering.Sha256, first: Core, p: Pub, w: Traffic, ts: seq<Turn>, n: nat, j: JoinerState,
                    r: RelayState)
    requires n < |ts| && StageAt(sha, p, Absent, ts, n).Done?
    requires j == Processed(AfterTurns(sha, p, Absent, ts[..n]), ts[n])
    requires r == TrafficAfter(sha, first, p, Absent, w, ts[..n + 1]).relay || j.Absent?
    ensures Relays(j, ts[n].datagram) && PayloadsFor(r, j, ts[n].datagram) == PayloadAt(sha, first, p, w, ts, n)
  {
    DoneRelays(sha, p, ts, n, j);
    if ts[n].datagram.Some? {
      KeyIs(sha, p, ts, n);
    }
  }

  /** A turn that is done sends its datagram in one relay request, and no other one: with the port, identifier and
      locator of the last relay message, and with the key if it is due. */
  lemma DatagramSentOnce(sha: Steering.Sha256, first: Core, p: Pub, w: Traffic, ts: seq<Turn>, n: nat)
    requires n < |ts| && StageAt(sha, p, Absent, ts, n).Done?
    ensures RelayPayloads(TrafficAfter(sha, first, p, Absent, w, ts[..n + 1]).sent)
         == RelayPayloads(TrafficAfter(sha, first, p, Absent, w, ts[..n]).sent) + PayloadAt(sha, first, p, w, ts, n)
    ensures |PayloadAt(sha, first, p, w, ts, n)| == if ts[n].datagram.Some? then 1 else 0
  {
    var front, t := ts[..n], ts[n];
    var (j, v) := (Processed(AfterTurns(sha, p, Absent, front), t), TrafficAfter(sha, first, p, Absent, w, front));
    var (s, c) := (Rounds(sha, p, OpsOf(front)).list, RunLoop(first, Passes(front)));
    TrafficOn(sha, ts, n, first, p, Absent, w);
    TurnRelays(sha, s, c, j, v, t);
    PayloadsAre(sha, first, p, w, ts, n, j, AfterInput(sha, s.vector, v, c, t.input).relay);
    TurnSends(sha, s, c, j, v, t);
  }

  ghost function AllPayloads(sha: Steering.Sha256, first: Core, p: Pub, w: Traffic, ts: seq<Turn>, n: nat): seq<Octets>
    requires n <= |ts|
  {
    if n == 0 then []
    else AllPayloads(sha, first, p, w, ts, n - 1) + PayloadAt(sha, first, p, w, ts, n - 1)
  }

  function CountDatagrams(ts: seq<Turn>, n: nat): nat
    requires n <= |ts|
  {
    if n == 0 then 0 else CountDatagrams(ts, n - 1) + if ts[n - 1].datagram.Some? then 1 else 0
  }

  /** The relay requests of a log, compared with one before it, are those of the datagrams of the first n turns. */
  ghost predicate SentAll(before: seq<Request>, log: seq<Request>, payloads: seq<Octets>, ts: seq<Turn>, n: nat)
    requires n <= |ts|
  {
    RelayPayloads(log) == RelayPayloads(before) + payloads && |payloads| == CountDatagrams(ts, n)
  }

  lemma NothingSent(sha: Steering.Sha256, first: Core, p: Pub, w: Traffic, ts: seq<Turn>, v: Traffic,
                    payloads: seq<Octets>)
    requires v == TrafficAfter(sha, first, p, Absent, w, ts[..0]) && payloads == AllPayloads(sha, first, p, w, ts, 0)
    ensures SentAll(w.sent, v.sent, payloads, ts, 0)
  {
    assert ts[..0] == [];
  }

  lemma SentOn(sha: Steering.Sha256, first: Core, p: Pub, w: Traffic, ts: seq<Turn>, n: nat, v: Traffic, v': Traffic,
               payloads: seq<Octets>, payloads': seq<Octets>)
    requires n < |ts| && StageAt(sha, p, Absent, ts, n).Done? && SentAll(w.sent, v.sent, payloads, ts, n)
    requires v == TrafficAfter(sha, first, p, Absent, w, ts[..n])
    requires v' == TrafficAfter(sha, first, p, Absent, w, ts[..n + 1])
    requires payloads' == payloads + PayloadAt(sha, first, p, w, ts, n)
    ensures SentAll(w.sent, v'.sent, payloads', ts, n + 1)
  {
    DatagramSentOnce(sha, first, p, w, ts, n);
    Regrouped(RelayPayloads(w.sent), payloads, PayloadAt(sha, first, p, w, ts, n));
  }

  lemma {:induction false} SentTo(sha: Steering.Sha256, first: Core, p: Pub, w: Traffic, ts: seq<Turn>, n: nat,
                                  v: Traffic, payloads: seq<Octets>)
    requires n <= |ts| && AllDone(sha, p, Absent, ts, n)
    requires v == TrafficAfter(sha, first, p, Absent, w, ts[..n]) && payloads == AllPayloads(sha, first, p, w, ts, n)
    ensures SentAll(w.sent, v.sent, payloads, ts, n)
    decreases n
  {
    if n == 0 {
      NothingSent(sha, first, p, w, ts, v, payloads);
    } else {
      var v' := TrafficAfter(sha, first, p, Absent, w, ts[..n - 1]);
      var payloads' := AllPayloads(sha, first, p, w, ts, n - 1);
      SentTo(sha, first, p, w, ts, n - 1, v', payloads');
      SentOn(sha, first, p, w, ts, n - 1, v', v, payloads', payloads);
    }
  }

  /** Over any turns done, the relay requests are one for each datagram, in order, and no other. */
  lemma DatagramsSent(sha: Steering.Sha256, first: Core, p: Pub, w: Traffic, ts: seq<Turn>)
    requires AllDone(sha, p, Absent, ts, |ts|)
    ensures var (v, payloads) := (TrafficAfter(sha, first, p, Absent, w, ts), AllPayloads(sha, first, p, w, ts, |ts|));
      SentAll(w.sent, v.sent, payloads, ts, |ts|)
  {
    var v, payloads := TrafficAfter(sha, first, p, Absent, w, ts), AllPayloads(sha, first, p, w, ts, |ts|);
    assert ts[..|ts|] == ts;
    SentTo(sha, first, p, w, ts, |ts|, v, payloads);
  }

  // The first datagram behind a finalize request carries the key, and no other before the next such request.

  lemma {:induction false} LoopSendsNoKey(t: Sessions.Table, n: nat, readable: set<int>, os: nat -> Sessions.Outcome)
    ensures forall k | 0 <= k < |Sessions.LoopSteps(t, n, readable, os)| ::
              !Sessions.LoopSteps(t, n, readable, os)[k].KekSentStep?
    decreases n
  {
    if n > 0 {
      LoopSendsNoKey(t, n - 1, readable, os);
    }
  }

  lemma PassSendsNoKey(j: JoinerState, t: Turn)
    ensures forall k | 0 <= k < |PassSteps(j, t)| :: !PassSteps(j, t)[k].KekSentStep?
  {
    if j.Present? {
      var u := Sessions.Sweep(j.table, t.sweep);
      LoopSendsNoKey(u, |u.sessions|, t.arrival.readable, t.arrival.outcomes);
    }
  }

  /** The steps of turns without a datagram send no key. */
  ghost predicate QuietFrom(ss: seq<Sessions.Step>, from: nat) {
    from <= |ss| && forall k | from <= k < |ss| :: !ss[k].KekSentStep?
  }

  lemma QuietMore(ss: seq<Sessions.Step>, from: nat, more: seq<Sessions.Step>)
    requires QuietFrom(ss, from) && forall k | 0 <= k < |more| :: !more[k].KekSentStep?
    ensures QuietFrom(ss + more, from) && (ss + more)[..from] == ss[..from]
  {
  }

  /** The steps b go on from a and send no key behind it. */
  ghost predicate GoesOnQuietly(a: seq<Sessions.Step>, b: seq<Sessions.Step>) {
    QuietFrom(b, |a|) && b[..|a|] == a
  }

  lemma OnlyThese(a: seq<Sessions.Step>)
    ensures GoesOnQuietly(a, a)
  {
  }

  lemma QuietTurn(sha: Steering.Sha256, p: Pub, j: JoinerState, ts: seq<Turn>, n: nat, a: seq<Sessions.Step>,
                  b: seq<Sessions.Step>, c: seq<Sessions.Step>)
    requires n < |ts| && ts[n].datagram.None? && GoesOnQuietly(a, b)
    requires b == ThreadSteps(sha, p, j, ts[..n]) && c == ThreadSteps(sha, p, j, ts[..n + 1])
    ensures GoesOnQuietly(a, c)
  {
    var j' := AfterTurns(sha, p, j, ts[..n]);
    assert ts[..n + 1][..n] == ts[..n];
    PassSendsNoKey(j', ts[n]);
    assert TurnSteps(j', ts[n]) == PassSteps(j', ts[n]);
    QuietMore(b, |a|, PassSteps(j', ts[n]));
  }

  predicate NoDatagrams(ts: seq<Turn>, m: nat, n: nat)
    requires n <= |ts|
  {
    forall k | m <= k < n :: ts[k].datagram.None?
  }

  lemma {:induction false} QuietTurns(sha: Steering.Sha256, p: Pub, j: JoinerState, ts: seq<Turn>, m: nat, n: nat,
                                      a: seq<Sessions.Step>, b: seq<Sessions.Step>)
    requires m <= n <= |ts| && NoDatagrams(ts, m, n)
    requires a == ThreadSteps(sha, p, j, ts[..m]) && b == ThreadSteps(sha, p, j, ts[..n])
    ensures GoesOnQuietly(a, b)
    decreases n
  {
    if m == n {
      OnlyThese(a);
    } else {
      var c := ThreadSteps(sha, p, j, ts[..n - 1]);
      QuietTurns(sha, p, j, ts, m, n - 1, a, c);
      QuietTurn(sha, p, j, ts, n - 1, a, c, b);
    }
  }

  /** A turn with a datagram ends by sending the key that is due. */
  lemma EndsWithKey(sha: Steering.Sha256, p: Pub, ts: seq<Turn>, m: nat)
    requires m < |ts| && StageAt(sha, p, Absent, ts, m).Done? && ts[m].datagram.Some?
    ensures var a := ThreadSteps(sha, p, Absent, ts[..m + 1]);
      a != [] && a[|a| - 1].KekSentStep?
  {
    assert ts[..m + 1][..m] == ts[..m];
  }

  /** Up to the next datagram no key is sent. */
  lemma QuietUpTo(sha: Steering.Sha256, p: Pub, ts: seq<Turn>, m: nat, n: nat, a: seq<Sessions.Step>,
                  ss: seq<Sessions.Step>)
    requires m <= n < |ts| && forall k | m <= k < n :: ts[k].datagram.None?
    requires a == ThreadSteps(sha, p, Absent, ts[..m]) && ss == StepsUpTo(sha, p, Absent, ts, n)
    ensures QuietFrom(ss, |a|) && ss[..|a|] == a
  {
    var b := ThreadSteps(sha, p, Absent, ts[..n]);
    QuietTurns(sha, p, Absent, ts, m, n, a, b);
    PassSendsNoKey(AfterTurns(sha, p, Absent, ts[..n]), ts[n]);
    QuietMore(b, |a|, PassSteps(AfterTurns(sha, p, Absent, ts[..n]), ts[n]));
  }

  lemma DueBehind(ss: seq<Sessions.Step>, a: seq<Sessions.Step>)
    requires a != [] && QuietFrom(ss, |a|) && ss[..|a|] == a && a[|a| - 1].KekSentStep?
    ensures KekRuns.Due(ss) <==> KekRuns.FinalizedSince(ss, |a|)
  {
    assert ss[|a| - 1] == ss[..|a|][|a| - 1];
    KekRuns.DueSinceSent(ss, |a| - 1);
    KekRuns.RunDueIff(ss);
  }

  lemma KeyIffDue(sha: Steering.Sha256, p: Pub, ts: seq<Turn>, n: nat, ss: seq<Sessions.Step>)
    requires n < |ts| && ss == StepsUpTo(sha, p, Absent, ts, n)
    ensures KeyFor(sha, p, ts, n).Some? <==> KekRuns.Due(ss)
  {
  }

  lemma KeyIffSince(sha: Steering.Sha256, p: Pub, ts: seq<Turn>, m: nat, n: nat, a: seq<Sessions.Step>,
                    ss: seq<Sessions.Step>)
    requires m < n < |ts| && StageAt(sha, p, Absent, ts, m).Done? && ts[m].datagram.Some?
    requires forall k | m < k < n :: ts[k].datagram.None?
    requires a == ThreadSteps(sha, p, Absent, ts[..m + 1]) && ss == StepsUpTo(sha, p, Absent, ts, n)
    ensures KeyFor(sha, p, ts, n).Some? <==> KekRuns.FinalizedSince(ss, |a|)
  {
    KeyIffDue(sha, p, ts, n, ss);
    EndsWithKey(sha, p, ts, m);
    QuietUpTo(sha, p, ts, m + 1, n, a, ss);
    DueBehind(ss, a);
  }

  /** When the m-th turn relays a datagram, and the n-th turn the next one, the key goes with that if and only if a
      finalize request is read between the two. */
  lemma KeyIffFinalized(sha: Steering.Sha256, p: Pub, ts: seq<Turn>, m: nat, n: nat)
    requires m < n < |ts| && StageAt(sha, p, Absent, ts, m).Done? && ts[m].datagram.Some?
    requires forall k | m < k < n :: ts[k].datagram.None?
    ensures KeyFor(sha, p, ts, n).Some?
       <==> KekRuns.FinalizedSince(StepsUpTo(sha, p, Absent, ts, n), |ThreadSteps(sha, p, Absent, ts[..m + 1])|)
  {
    KeyIffSince(sha, p, ts, m, n, ThreadSteps(sha, p, Absent, ts[..m + 1]), StepsUpTo(sha, p, Absent, ts, n));
  }
}
