/** The requests of the commissioner thread: which ones a turn sends, in which order, and with which session id. */
module ThreadRequests {
  import opened Bytes
  import opened Comm
  import opened Commissioners
  import opened Joiners
  import opened Protocol
  import opened Publish
  import opened Relay
  import opened Tlvs
  import opened ThreadSessions
  import opened ThreadTraffic
  import Sessions
  import Steering

  // The session id.

  /** The TLV at a place is the last one of the message that holds a session id. */
  ghost predicate LastId(vs: seq<View>, i: nat) {
    i < |vs| && vs[i].kind == 11 && forall k | i < k < |vs| :: vs[k].kind != 11
  }

  /** An answer to a petition or a set request whose last session id TLV holds this id, high byte first. */
  ghost predicate Grants(x: Input, id: nat) {
    && x.Answer? && !x.kind.KeepAliveAnswer?
    && var vs := Walk(x.payload, 0, x.length, Need(x.kind));
       vs.Some? && exists i: nat :: LastId(vs.value, i) && HoldsId(x.payload, vs.value[i], id)
  }

  predicate HoldsId(mem: Octets, v: View, id: nat) {
    v.start + 1 < |mem| && id == 256 * mem[v.start] as nat + mem[v.start + 1] as nat
  }

  lemma GrantedBy(sha: Steering.Sha256, v: seq<JoinerInstance>, w: Traffic, c: Core, x: Input, id: nat)
    requires Grants(x, id)
    ensures AfterInput(sha, v, w, c, x).sessionId == id
  {
    var vs := Walk(x.payload, 0, x.length, Need(x.kind)).value;
    var i: nat :| LastId(vs, i) && HoldsId(x.payload, vs[i], id);
    WalkInside(x.kind, x.payload, x.length);
    SessionBytes(x.payload, vs, i, w.sessionId);
  }

  lemma {:induction false} NoIdGiven(mem: Octets, vs: seq<View>, id: Word16)
    requires forall k | 0 <= k < |vs| :: vs[k].kind != 11
    ensures SessionId(mem, vs, id) == id
    decreases |vs|
  {
    if vs != [] {
      NoIdGiven(mem, vs[..|vs| - 1], id);
    }
  }

  lemma {:induction false} LastIdOf(vs: seq<View>) returns (i: nat)
    requires exists k :: 0 <= k < |vs| && vs[k].kind == 11
    ensures LastId(vs, i)
    decreases |vs|
  {
    i := |vs| - 1;
    if vs[i].kind != 11 {
      i := LastIdOf(vs[..i]);
    }
  }

  /** A message that holds a session id, other than the answer to a keep-alive, grants it. */
  lemma GrantFound(x: Input, vs: seq<View>) returns (id: nat)
    requires x.Answer? && !x.kind.KeepAliveAnswer? && Walk(x.payload, 0, x.length, Need(x.kind)) == Some(vs)
    requires exists k :: 0 <= k < |vs| && vs[k].kind == 11
    ensures Grants(x, id)
  {
    WalkInside(x.kind, x.payload, x.length);
    var i := LastIdOf(vs);
    id := 256 * x.payload[vs[i].start] as nat + x.payload[vs[i].start + 1] as nat;
    assert LastId(vs, i) && HoldsId(x.payload, vs[i], id);
  }

  /** Nothing else in a turn changes the session id. */
  lemma RestKeepsId(sha: Steering.Sha256, s: ListState, c: Core, j: JoinerState, w: Traffic, t: Turn)
    ensures CompletedTraffic(sha, s, c, j, w, t).sessionId == AfterInput(sha, s.vector, w, c, t.input).sessionId
  {
  }

  /** The session id after a turn, by the answer that it brings. */
  ghost predicate IdMoves(x: Input, before: nat, after: nat) {
    && (forall id: nat | Grants(x, id) :: after == id)
    && ((forall id: nat :: !Grants(x, id)) ==> after == before)
  }

  lemma InputMovesId(sha: Steering.Sha256, v: seq<JoinerInstance>, w: Traffic, c: Core, x: Input)
    ensures IdMoves(x, w.sessionId, AfterInput(sha, v, w, c, x).sessionId)
  {
    if ResponseIn(x).Some? && !x.kind.KeepAliveAnswer? {
      var vs := Walk(x.payload, 0, x.length, Need(x.kind)).value;
      WalkInside(x.kind, x.payload, x.length);
      if exists k :: 0 <= k < |vs| && vs[k].kind == 11 {
        var id := GrantFound(x, vs);
      } else {
        NoIdGiven(x.payload, vs, w.sessionId);
      }
    }
    forall id: nat | Grants(x, id)
      ensures AfterInput(sha, v, w, c, x).sessionId == id
    {
      GrantedBy(sha, v, w, c, x, id);
    }
  }

  lemma IdOn(sha: Steering.Sha256, first: Core, p: Pub, j: JoinerState, w: Traffic, ts: seq<Turn>, n: nat)
    requires n < |ts|
    ensures IdMoves(ts[n].input, TrafficAfter(sha, first, p, j, w, ts[..n]).sessionId,
                    TrafficAfter(sha, first, p, j, w, ts[..n + 1]).sessionId)
  {
    var (s, c, v) := (Rounds(sha, p, OpsOf(ts[..n])).list, RunLoop(first, Passes(ts[..n])),
                      TrafficAfter(sha, first, p, j, w, ts[..n]));
    TrafficOn(sha, ts, n, first, p, j, w);
    RestKeepsId(sha, s, c, Processed(AfterTurns(sha, p, j, ts[..n]), ts[n]), v, ts[n]);
    InputMovesId(sha, s.vector, v, c, ts[n].input);
  }

  /** Over any turns done, the session id is the one that was granted last. */
  lemma {:induction false} IdGrantedLast(sha: Steering.Sha256, first: Core, p: Pub, j: JoinerState, w: Traffic,
                                         ts: seq<Turn>, m: nat, id: nat, n: nat)
    requires m < n <= |ts| && Grants(ts[m].input, id)
    requires forall k, l: nat | m < k < n :: !Grants(ts[k].input, l)
    ensures TrafficAfter(sha, first, p, j, w, ts[..n]).sessionId == id
    decreases n
  {
    IdOn(sha, first, p, j, w, ts, n - 1);
    if m < n - 1 {
      IdGrantedLast(sha, first, p, j, w, ts, m, id, n - 1);
    }
  }

  // All requests.

  function Sometimes<T>(b: bool, x: T): seq<T> {
    if b then [x] else []
  }

  /** The petition that an answer makes necessary. */
  function Petitions(c: Core, x: Pass): seq<Request> {
    Sometimes(Answered(c, x).petitions > c.petitions,
              PetitionRequest([10, 11, 79, 112, 101, 110, 84, 104, 114, 101, 97, 100, 0]))
  }

  /** The keep-alive of a pass. */
  function KeepAlives(c: Core, x: Pass, id: Word16): seq<Request> {
    Sometimes(|Iterate(c, x).keepAlives| > |c.keepAlives|,
              KeepAliveRequest(EncodeAll(KeepAliveTlvs(id)), x.sendTime))
  }

  /** The publication of a list. */
  ghost function Publications(s: ListState, id: Word16): seq<Request> {
    Sometimes(s.updated, SetRequest(EncodeAll(SetTlvs(id, FilterBytes(s.filter)))))
  }

  lemma InputAdds(sha: Steering.Sha256, v: seq<JoinerInstance>, w: Traffic, c: Core, t: Turn)
    ensures AfterInput(sha, v, w, c, t.input).sent == w.sent + Petitions(c, PassOf(t))
  {
    PetitionBytes();
  }

  /** The relay request of a datagram. */
  function Relayings(w: Traffic, j: JoinerState, datagram: Option<Octets>): seq<Request>
    requires Relays(j, datagram)
  {
    var payloads := PayloadsFor(w.relay, j, datagram);
    if payloads == [] then [] else [RelayRequest(payloads[0])]
  }

  lemma RelayAdds(w: Traffic, j: JoinerState, datagram: Option<Octets>)
    requires Relays(j, datagram)
    ensures AfterRelay(w, j, datagram).sent == w.sent + Relayings(w, j, datagram)
    ensures AfterRelay(w, j, datagram).sessionId == w.sessionId
  {
  }

  lemma TickAdds(w: Traffic, c: Core, t: Turn)
    ensures var w' := AfterTick(w, Heard(c, t.input), t.now, t.sendTime);
      w'.sent == w.sent + KeepAlives(c, PassOf(t), w.sessionId) && w'.sessionId == w.sessionId
  {
  }

  lemma ServiceAdds(sha: Steering.Sha256, s: ListState, w: Traffic, j: JoinerState, ops: seq<Op>)
    ensures AfterService(sha, s, w, j, ops).sent == w.sent + Publications(AfterOps(sha, s, ops), w.sessionId)
  {
  }

  /** All that a turn adds, by what its message leaves. */
  ghost function Added(s: ListState, c: Core, j: JoinerState, w: Traffic, t: Turn): seq<Request>
    requires Relays(j, t.datagram)
  {
    Petitions(c, PassOf(t)) + Relayings(w, j, t.datagram) + KeepAlives(c, PassOf(t), w.sessionId)
    + Publications(s, w.sessionId)
  }

  lemma Regrouped(log: seq<Request>, a: seq<Request>, b: seq<Request>, c: seq<Request>, d: seq<Request>)
    ensures log + a + b + c + d == log + (a + b + c + d)
  {
  }

  lemma TurnAdds(sha: Steering.Sha256, s: ListState, c: Core, j: JoinerState, w: Traffic, t: Turn)
    requires Relays(j, t.datagram)
    ensures CompletedTraffic(sha, s, c, j, w, t).sent
         == w.sent + Added(AfterOps(sha, s, t.ops), c, j, AfterInput(sha, s.vector, w, c, t.input), t)
  {
    var w1 := AfterInput(sha, s.vector, w, c, t.input);
    var w2 := AfterRelay(w1, j, t.datagram);
    InputAdds(sha, s.vector, w, c, t);
    RelayAdds(w1, j, t.datagram);
    TickAdds(w2, c, t);
    ServiceAdds(sha, s, AfterTick(w2, Heard(c, t.input), t.now, t.sendTime), AfterDatagram(j, t.datagram), t.ops);
    Regrouped(w.sent, Petitions(c, PassOf(t)), Relayings(w1, j, t.datagram), KeepAlives(c, PassOf(t), w1.sessionId),
              Publications(AfterOps(sha, s, t.ops), w1.sessionId));
  }

  /** What the n-th turn sends, in this order: a petition if its answer makes one necessary, the relay request of its
      datagram, the keep-alive if one is due, and the filter if the list is marked, the last two with the session id
      granted last. */
  ghost function RequestsAt(sha: Steering.Sha256, first: Core, p: Pub, w: Traffic, ts: seq<Turn>, n: nat): seq<Request>
    requires n < |ts|
  {
    var (s, c) := (AfterOps(sha, Rounds(sha, p, OpsOf(ts[..n])).list, ts[n].ops), RunLoop(first, Passes(ts[..n])));
    var (id, payloads) := (TrafficAfter(sha, first, p, Absent, w, ts[..n + 1]).sessionId,
                           PayloadAt(sha, first, p, w, ts, n));
    Petitions(c, PassOf(ts[n])) + (if payloads == [] then [] else [RelayRequest(payloads[0])])
    + KeepAlives(c, PassOf(ts[n]), id) + Publications(s, id)
  }

  lemma RequestsAre(sha: Steering.Sha256, first: Core, p: Pub, w: Traffic, ts: seq<Turn>, n: nat, s: ListState,
                    c: Core, j: JoinerState, v: Traffic)
    requires n < |ts| && StageAt(sha, p, Absent, ts, n).Done?
    requires j == Processed(AfterTurns(sha, p, Absent, ts[..n]), ts[n])
    requires s == AfterOps(sha, Rounds(sha, p, OpsOf(ts[..n])).list, ts[n].ops)
    requires c == RunLoop(first, Passes(ts[..n]))
    requires var v' := TrafficAfter(sha, first, p, Absent, w, ts[..n + 1]);
      v.sessionId == v'.sessionId && (v.relay == v'.relay || j.Absent?)
    ensures Relays(j, ts[n].datagram) && Added(s, c, j, v, ts[n]) == RequestsAt(sha, first, p, w, ts, n)
  {
    PayloadsAre(sha, first, p, w, ts, n, j, v.relay);
  }

  /** A turn that is done sends just these requests. */
  lemma TurnRequests(sha: Steering.Sha256, first: Core, p: Pub, w: Traffic, ts: seq<Turn>, n: nat)
    requires n < |ts| && StageAt(sha, p, Absent, ts, n).Done?
    ensures TrafficAfter(sha, first, p, Absent, w, ts[..n + 1]).sent
         == TrafficAfter(sha, first, p, Absent, w, ts[..n]).sent + RequestsAt(sha, first, p, w, ts, n)
  {
    var front, t := ts[..n], ts[n];
    var (j, v) := (Processed(AfterTurns(sha, p, Absent, front), t), TrafficAfter(sha, first, p, Absent, w, front));
    var (s, c) := (Rounds(sha, p, OpsOf(front)).list, RunLoop(first, Passes(front)));
    TrafficOn(sha, ts, n, first, p, Absent, w);
    RestKeepsId(sha, s, c, j, v, t);
    TurnRelays(sha, s, c, j, v, t);
    RequestsAre(sha, first, p, w, ts, n, AfterOps(sha, s, t.ops), c, j, AfterInput(sha, s.vector, v, c, t.input));
    TurnAdds(sha, s, c, j, v, t);
  }
}
