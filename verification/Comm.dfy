/** The commissioner thread: handshake, petition, and a loop that also publishes the joiner list. */
module Comm {
  import opened Bytes
  import opened Commissioners
  import opened Joiners
  import opened Protocol
  import opened Publish
  import opened Steering
  import opened Tlvs
  import Dtls
  import Sessions

  const DEFAULT_PSK := "DFLT"

  /** One second, and no socket yet. */
  const SELECT := Dtls.Wait({}, -1, 1, 0)

  /** One turn of the loop: when the sessions are swept, what the sockets of the joiner session bring, what arrives from
      the border agent and from the joiner, the time, the REST operations on the list since the last publication, and
      the socket of a joiner session that is created. */
  datatype Turn = Turn(sweep: nat, arrival: Dtls.Arrival, input: Input, datagram: Option<Octets>, now: int,
                       sendTime: int, ops: seq<Op>, socket: int)

  function PassOf(t: Turn): Pass {
    Pass(ResponseIn(t.input), t.now, t.sendTime)
  }

  function Passes(ts: seq<Turn>): (r: seq<Pass>)
    ensures |r| == |ts| && forall i {:trigger r[i]} | 0 <= i < |ts| :: r[i] == PassOf(ts[i])
  {
    seq(|ts|, i requires 0 <= i < |ts| => PassOf(ts[i]))
  }

  function OpsOf(ts: seq<Turn>): (r: seq<seq<Op>>)
    ensures |r| == |ts| && forall i {:trigger r[i]} | 0 <= i < |ts| :: r[i] == ts[i].ops
  {
    seq(|ts|, i requires 0 <= i < |ts| => ts[i].ops)
  }

  // What the network was told.

  /** A filter of the published length that has exactly these bits. */
  ghost predicate IsFilter(filter: Octets, bits: set<nat>) {
    |filter| == DEFAULT_LENGTH && FilterBits(filter, DEFAULT_LENGTH) == bits
  }

  ghost predicate SetsFilter(payload: Octets, bits: set<nat>) {
    exists id: nat, filter: Octets ::
      id < U16 && IsFilter(filter, bits) && payload == EncodeAll(SetTlvs(id, filter))
  }

  /** The last steering data sent, if any, is a filter with these bits. */
  ghost predicate Told(log: seq<Request>, bits: Option<set<nat>>) {
    match LastSet(log)
    case None => bits == None
    case Some(payload) => bits.Some? && SetsFilter(payload, bits.value)
  }

  /** Reading a set request gives back the session id and the very bytes of the filter. */
  lemma SetReads(id: nat, filter: Octets, post: Octets)
    requires id < U16 && |filter| == DEFAULT_LENGTH
    ensures var payload := EncodeAll(SetTlvs(id, filter));
      var vs := Walk(payload + post, 0, |payload|, (_, n) => n);
      && vs.Some? && |vs.value| == 2
      && vs.value[0].kind == COMMISSIONER_SESSION_ID && vs.value[1].kind == STEERING_DATA
      && vs.value[0].start + vs.value[0].length <= |payload + post|
      && vs.value[1].start + vs.value[1].length <= |payload + post|
      && Value(payload + post, vs.value[0]) == Word(id) && Value(payload + post, vs.value[1]) == filter
  {
    var ts := SetTlvs(id, filter);
    EncodeCons(ts[1], []);
    EncodeCons(ts[0], [ts[1]]);
    assert [ts[1]] + [] == [ts[1]] && [ts[0]] + [ts[1]] == ts;
    TlvRoundTrip(ts, post, (_, n) => n);
  }

  // The thread.

  method Perform(list: JoinerList, op: Op)
    requires list.Valid()
    modifies list, list.steering.mBloomFilter
    ensures list.Valid() && list.State() == Apply(list.sha, old(list.State()), op)
  {
    match op {
      case Write(parsed, residue) => var code := list.Write(parsed, residue);
      case Edit(body, eui) => var code := list.Edit(body, eui);
      case Remove(eui) => var code := list.Remove(eui);
      case Clear => list.Clear();
      case UpdateFinished => list.ListUpdateFinished();
    }
  }

  method PerformAll(list: JoinerList, ops: seq<Op>)
    requires list.Valid()
    modifies list, list.steering.mBloomFilter
    ensures list.Valid() && list.State() == AfterOps(list.sha, old(list.State()), ops)
  {
    ghost var s := list.State();
    for i := 0 to |ops|
      invariant list.Valid() && list.State() == AfterOps(list.sha, s, ops[..i])
    {
      Perform(list, ops[i]);
      assert ops[..i + 1][..i] == ops[..i];
    }
    assert ops[..|ops|] == ops;
  }

  /** The commissioner is about this list, and the publication state is that of the list and the requests sent. */
  ghost predicate Tracks(c: Commissioner, list: JoinerList, p: Pub)
    reads c, list, list.steering, list.steering.mBloomFilter
  {
    c.mJoinerList == list && list.Valid() && p.list == list.State() && Told(c.sent, p.sent)
  }

  /** The bytes of the published length with exactly these bits. */
  ghost function FilterBytes(bits: set<nat>): (r: Octets)
    ensures |r| == DEFAULT_LENGTH
  {
    if exists f: Octets :: IsFilter(f, bits) then var f: Octets :| IsFilter(f, bits); f else Zeros(DEFAULT_LENGTH)
  }

  lemma FilterBytesAre(filter: Octets, bits: set<nat>)
    requires IsFilter(filter, bits)
    ensures FilterBytes(bits) == filter
  {
    var f := FilterBytes(bits);
    BitsAreContent(f, filter, DEFAULT_LENGTH);
    assert f[..DEFAULT_LENGTH] == f && filter[..DEFAULT_LENGTH] == filter;
  }

  /** One set request with the filter's bytes. */
  ghost function AfterSet(w: Traffic, bits: set<nat>): Traffic {
    w.(sent := w.sent + [SetRequest(EncodeAll(SetTlvs(w.sessionId, FilterBytes(bits))))])
  }

  /** A publication sends the filter, and creates the joiner session if there is none. */
  ghost function AfterPublication(w: Traffic, j: JoinerState, bits: set<nat>): Traffic {
    AfterSetup(AfterSet(w, bits), j, DEFAULT_PSK)
  }

  lemma SetTold(log: seq<Request>, id: nat, filter: Octets, bits: set<nat>)
    requires id < U16 && |filter| == DEFAULT_LENGTH && FilterBits(filter, DEFAULT_LENGTH) == bits
    ensures Told(log + [SetRequest(EncodeAll(SetTlvs(id, filter)))], Some(bits))
  {
    LogAppend(log, SetRequest(EncodeAll(SetTlvs(id, filter))));
  }

  method SendSteering(c: Commissioner, list: JoinerList, ghost p: Pub)
    requires c.Ready() && Tracks(c, list, p)
    modifies c`sent
    ensures c.Ready() && c.View() == old(c.View())
    ensures c.Joiner() == old(c.Joiner()) && c.Footprint() == old(c.Footprint())
    ensures Tracks(c, list, Pub(p.list, Some(p.list.filter), true))
    ensures c.Carried() == AfterSet(old(c.Carried()), p.list.filter)
  {
    ghost var log, filter := c.sent, list.steering.mBloomFilter[..DEFAULT_LENGTH];
    FilterBytesAre(filter, p.list.filter);
    SetTold(log, c.mCommissionerSessionId, filter, p.list.filter);
    c.CommissionerSet(list.steering);
  }

  method PublishIfUpdated(c: Commissioner, list: JoinerList, socket: int, ghost p: Pub)
    requires c.Ready() && Tracks(c, list, p) && !p.sending
    modifies c`sent, c`mJoinerSession, list
    ensures c.Ready() && c.View() == old(c.View()) && Tracks(c, list, Published(p))
    ensures c.Joiner() == if p.list.updated then AfterCreation(old(c.Joiner()), socket) else old(c.Joiner())
    ensures c.Carried() == if p.list.updated then AfterPublication(old(c.Carried()), old(c.Joiner()), p.list.filter)
                           else old(c.Carried())
    ensures c.Footprint() == old(c.Footprint()) || fresh(c.Footprint())
  {
    if list.updated {
      SendSteering(c, list, p);
      c.SetJoiner(DEFAULT_PSK, socket);
      list.ListUpdateFinished();
    }
  }

  /** The list and its filter are no objects of the joiner session. */
  lemma Apart(c: Commissioner, list: JoinerList)
    requires c.Ready()
    ensures c !in c.Footprint() && list !in c.Footprint()
    ensures list.steering !in c.Footprint() && list.steering.mBloomFilter !in c.Footprint()
  {
  }

  /** REST operations do not touch the commissioner. */
  method Edited(c: Commissioner, list: JoinerList, ops: seq<Op>, ghost p: Pub)
    requires c.Ready() && Tracks(c, list, p)
    modifies list, list.steering.mBloomFilter
    ensures c.Ready() && c.View() == old(c.View()) && Tracks(c, list, p.(list := AfterOps(list.sha, p.list, ops)))
    ensures c.Joiner() == old(c.Joiner()) && c.Footprint() == old(c.Footprint()) && c.Carried() == old(c.Carried())
  {
    Apart(c, list);
    ghost var ss := if c.mJoinerSession == null then [] else c.mJoinerSession.mDtlsServer.mSessions;
    PerformAll(list, ops);
    assert Dtls.Records(ss) == old(Dtls.Records(ss));
  }

  ghost function AfterService(sha: Sha256, s: ListState, w: Traffic, j: JoinerState, ops: seq<Op>): Traffic {
    var s' := AfterOps(sha, s, ops);
    if s'.updated then AfterPublication(w, j, s'.filter) else w
  }

  /** REST operations, then the publication. */
  method Serve(c: Commissioner, list: JoinerList, ops: seq<Op>, socket: int, ghost p: Pub)
    requires c.Ready() && Tracks(c, list, p) && !p.sending
    modifies c`sent, c`mJoinerSession, list, list.steering.mBloomFilter
    ensures c.Ready() && c.View() == old(c.View()) && Tracks(c, list, Publish.Round(list.sha, p, ops))
    ensures c.Joiner()
         == if AfterOps(list.sha, p.list, ops).updated then AfterCreation(old(c.Joiner()), socket) else old(c.Joiner())
    ensures c.Carried() == AfterService(list.sha, p.list, old(c.Carried()), old(c.Joiner()), ops)
    ensures c.Footprint() == old(c.Footprint()) || fresh(c.Footprint())
  {
    Edited(c, list, ops, p);
    PublishIfUpdated(c, list, socket, p.(list := AfterOps(list.sha, p.list, ops)));
  }

  /** How the attempts at the handshake end; if they do not, the thread is told to stop before they do. */
  function Settled(rets: seq<HandshakeResult>): HandshakeResult {
    if rets == [] then WantMore else if rets[0].WantMore? then Settled(rets[1..]) else rets[0]
  }

  /** That is the first answer that is not a wish for more. */
  lemma {:induction false} SettledIs(rets: seq<HandshakeResult>, n: nat)
    requires n <= |rets| && (forall i | 0 <= i < n :: rets[i].WantMore?) && (n < |rets| ==> !rets[n].WantMore?)
    ensures Settled(rets) == if n < |rets| then rets[n] else WantMore
    decreases n
  {
    if n > 0 {
      SettledIs(rets[1..], n - 1);
    }
  }

  method Connect(c: Commissioner, rets: seq<HandshakeResult>) returns (ret: HandshakeResult)
    requires c.Ready() && c.View().state.Invalid?
    modifies c`mCommissionState
    ensures c.Ready() && ret == Settled(rets) && c.View() == Handshaken(old(c.View()), ret)
    ensures c.Joiner() == old(c.Joiner()) && c.Footprint() == old(c.Footprint()) && c.Carried() == old(c.Carried())
  {
    var i := 0;
    ret := WantMore;
    while i < |rets|
      invariant i <= |rets| && ret == WantMore && Settled(rets) == Settled(rets[i..])
      invariant c.Ready() && c.View() == old(c.View())
      invariant c.Joiner() == old(c.Joiner()) && c.Footprint() == old(c.Footprint())
      invariant c.Carried() == old(c.Carried())
    {
      ret := rets[i];
      c.TryDtlsHandshake(ret);
      if ret != WantMore {
        return;
      }
      assert rets[i..][1..] == rets[i + 1..];
      i := i + 1;
    }
  }

  /** The state right after the first petition. */
  function Petitioned(c: Core): Core {
    Handshaken(c, Success).(petitions := c.petitions + 1)
  }

  function PetitionedTraffic(w: Traffic): Traffic {
    w.(sent := w.sent + [PetitionRequest(EncodeAll(PetitionTlvs()))])
  }

  method FirstPetition(c: Commissioner)
    requires c.Ready()
    modifies c`sent
    ensures c.Ready() && c.View() == old(c.View()).(petitions := old(c.View()).petitions + 1)
    ensures LastSet(c.sent) == old(LastSet(c.sent)) && c.Carried() == PetitionedTraffic(old(c.Carried()))
    ensures c.Joiner() == old(c.Joiner()) && c.Footprint() == old(c.Footprint())
  {
    c.CommissionerPetition();
  }

  // Where a turn and a run of turns lead.

  /** Where a turn ends: it stops at the sweep, at the sessions or at what arrives when there the source demands
      something that it does not check, or it is done. */
  datatype Stage = AtSweep | AtSessions | AtInput | Done

  /** The joiner session after the sweep and what its sockets brought. */
  function Processed(j: JoinerState, t: Turn): JoinerState {
    AfterArrival(AfterSweep(j, t.sweep), t.arrival)
  }

  /** The joiner session after the rest of the turn; a publication creates it if there is none. */
  function Completed(j: JoinerState, t: Turn, publishes: bool): JoinerState {
    if publishes then AfterCreation(AfterDatagram(j, t.datagram), t.socket) else AfterDatagram(j, t.datagram)
  }

  /** What arrives meets what the source demands of it. */
  predicate Meets(sha: Sha256, v: seq<JoinerInstance>, j: JoinerState, t: Turn) {
    Takes(sha, v, j.Present?, t.input) && Relays(j, t.datagram)
  }

  /** How far the joiner session comes. */
  function ArrivalStage(j: JoinerState, t: Turn): Stage {
    if !CanSweep(j, t.sweep, SELECT) then AtSweep
    else if !CanProcess(AfterSweep(j, t.sweep), t.arrival) then AtSessions
    else Done
  }

  function InputStage(sha: Sha256, v: seq<JoinerInstance>, j: JoinerState, t: Turn): Stage {
    if Meets(sha, v, j, t) then Done else AtInput
  }

  /** Nothing but the turn, the list and the joiner session decides. */
  function StageOf(sha: Sha256, v: seq<JoinerInstance>, j: JoinerState, t: Turn): Stage {
    if ArrivalStage(j, t).Done? then InputStage(sha, v, Processed(j, t), t) else ArrivalStage(j, t)
  }

  /** The joiner session after a turn, as far as the turn goes. */
  function AfterTurn(j: JoinerState, t: Turn, stage: Stage, publishes: bool): JoinerState {
    match stage
    case AtSweep => j
    case AtSessions => AfterSweep(j, t.sweep)
    case AtInput => Processed(j, t)
    case Done => Completed(Processed(j, t), t, publishes)
  }

  /** What the rest of a turn makes of all else. */
  ghost function CompletedTraffic(sha: Sha256, s: ListState, c: Core, j: JoinerState, w: Traffic, t: Turn): Traffic {
    var w' := AfterPass(sha, s.vector, w, c, j, t.input, t.datagram, t.now, t.sendTime);
    AfterService(sha, s, w', AfterDatagram(j, t.datagram), t.ops)
  }

  /** The joiner session after turns that are all done. */
  function AfterTurns(sha: Sha256, p: Pub, j: JoinerState, ts: seq<Turn>): JoinerState {
    if ts == [] then j
    else
      var front, last := ts[..|ts| - 1], ts[|ts| - 1];
      AfterTurn(AfterTurns(sha, p, j, front), last, Done,
                AfterOps(sha, Rounds(sha, p, OpsOf(front)).list, last.ops).updated)
  }

  /** All else after turns that are all done. */
  ghost function TrafficAfter(sha: Sha256, first: Core, p: Pub, j: JoinerState, w: Traffic, ts: seq<Turn>): Traffic {
    if ts == [] then w
    else
      var front, last := ts[..|ts| - 1], ts[|ts| - 1];
      CompletedTraffic(sha, Rounds(sha, p, OpsOf(front)).list, RunLoop(first, Passes(front)),
                       Processed(AfterTurns(sha, p, j, front), last), TrafficAfter(sha, first, p, j, w, front), last)
  }

  /** Where the k-th turn ends when those before it are done. */
  function StageAt(sha: Sha256, p: Pub, j: JoinerState, ts: seq<Turn>, k: nat): Stage
    requires k < |ts|
  {
    StageOf(sha, Rounds(sha, p, OpsOf(ts[..k])).list.vector, AfterTurns(sha, p, j, ts[..k]), ts[k])
  }

  /** The k-th turn is begun and done. */
  predicate GoesOn(sha: Sha256, first: Core, p: Pub, j: JoinerState, ts: seq<Turn>, k: nat)
    requires k < |ts|
  {
    !RunLoop(first, Passes(ts[..k])).state.Invalid? && StageAt(sha, p, j, ts, k).Done?
  }

  /** The joiner session when n turns are done and, unless the state ended the loop, the next one stopped part-way. */
  function StoppedAfter(sha: Sha256, first: Core, p: Pub, j: JoinerState, ts: seq<Turn>, n: nat): JoinerState
    requires n <= |ts|
  {
    var j' := AfterTurns(sha, p, j, ts[..n]);
    if n == |ts| || RunLoop(first, Passes(ts[..n])).state.Invalid? then j'
    else AfterTurn(j', ts[n], StageAt(sha, p, j, ts, n), false)
  }

  /** What n turns make of a core, of a publication state, of a joiner session and of all else. */
  ghost predicate Midway(sha: Sha256, turns: seq<Turn>, n: nat, first: Core, core: Core, p: Pub, q: Pub,
                         j: JoinerState, i: JoinerState, w: Traffic, v: Traffic)
  {
    && n <= |turns|
    && core == RunLoop(first, Passes(turns[..n]))
    && q == Rounds(sha, p, OpsOf(turns[..n]))
    && i == AfterTurns(sha, p, j, turns[..n])
    && v == TrafficAfter(sha, first, p, j, w, turns[..n])
    && forall k | 0 <= k < n :: GoesOn(sha, first, p, j, turns, k)
  }

  lemma MidwayStarts(sha: Sha256, turns: seq<Turn>, core: Core, p: Pub, j: JoinerState, w: Traffic)
    ensures Midway(sha, turns, 0, core, core, p, p, j, j, w, w)
  {
  }

  lemma PassesOn(turns: seq<Turn>, n: nat, first: Core)
    requires n < |turns| && !RunLoop(first, Passes(turns[..n])).state.Invalid?
    ensures RunLoop(first, Passes(turns[..n + 1])) == Iterate(RunLoop(first, Passes(turns[..n])), PassOf(turns[n]))
  {
    assert Passes(turns[..n + 1]) == Passes(turns[..n]) + [PassOf(turns[n])];
    RunAppend(first, Passes(turns[..n]), PassOf(turns[n]));
  }

  lemma RoundsOn(sha: Sha256, turns: seq<Turn>, n: nat, p: Pub)
    requires n < |turns|
    ensures Rounds(sha, p, OpsOf(turns[..n + 1])) == Publish.Round(sha, Rounds(sha, p, OpsOf(turns[..n])), turns[n].ops)
  {
    var rounds := OpsOf(turns[..n + 1]);
    assert rounds[..n] == OpsOf(turns[..n]) && rounds[n] == turns[n].ops;
  }

  lemma TurnsOn(sha: Sha256, turns: seq<Turn>, n: nat, p: Pub, j: JoinerState)
    requires n < |turns|
    ensures AfterTurns(sha, p, j, turns[..n + 1])
         == AfterTurn(AfterTurns(sha, p, j, turns[..n]), turns[n], Done,
                      AfterOps(sha, Rounds(sha, p, OpsOf(turns[..n])).list, turns[n].ops).updated)
  {
    assert turns[..n + 1][..n] == turns[..n];
  }

  lemma TrafficOn(sha: Sha256, turns: seq<Turn>, n: nat, first: Core, p: Pub, j: JoinerState, w: Traffic)
    requires n < |turns|
    ensures TrafficAfter(sha, first, p, j, w, turns[..n + 1])
         == CompletedTraffic(sha, Rounds(sha, p, OpsOf(turns[..n])).list, RunLoop(first, Passes(turns[..n])),
                             Processed(AfterTurns(sha, p, j, turns[..n]), turns[n]),
                             TrafficAfter(sha, first, p, j, w, turns[..n]), turns[n])
  {
    assert turns[..n + 1][..n] == turns[..n];
  }

  lemma MidwayOn(sha: Sha256, turns: seq<Turn>, n: nat, first: Core, core: Core, p: Pub, q: Pub, j: JoinerState,
                 i: JoinerState, w: Traffic, v: Traffic, core': Core, q': Pub, i': JoinerState, v': Traffic)
    requires n < |turns| && !core.state.Invalid? && Midway(sha, turns, n, first, core, p, q, j, i, w, v)
    requires StageOf(sha, q.list.vector, i, turns[n]).Done?
    requires core' == Iterate(core, PassOf(turns[n])) && q' == Publish.Round(sha, q, turns[n].ops)
    requires i' == AfterTurn(i, turns[n], Done, AfterOps(sha, q.list, turns[n].ops).updated)
    requires v' == CompletedTraffic(sha, q.list, core, Processed(i, turns[n]), v, turns[n])
    ensures Midway(sha, turns, n + 1, first, core', p, q', j, i', w, v')
  {
    TrafficOn(sha, turns, n, first, p, j, w);
    PassesOn(turns, n, first);
    RoundsOn(sha, turns, n, p);
    TurnsOn(sha, turns, n, p, j);
    assert GoesOn(sha, first, p, j, turns, n);
  }

  /** The loop has done n turns and not the next one, and this is where it leaves the joiner session and all else. */
  ghost predicate Ran(sha: Sha256, turns: seq<Turn>, n: nat, first: Core, p: Pub, j: JoinerState, j': JoinerState,
                      w: Traffic, w': Traffic)
  {
    && n <= |turns|
    && (forall k | 0 <= k < n :: GoesOn(sha, first, p, j, turns, k))
    && (n < |turns| ==> !GoesOn(sha, first, p, j, turns, n))
    && j' == StoppedAfter(sha, first, p, j, turns, n)
    && w' == TrafficAfter(sha, first, p, j, w, turns[..n])
  }

  lemma StopsHere(sha: Sha256, turns: seq<Turn>, n: nat, first: Core, core: Core, p: Pub, q: Pub, j: JoinerState,
                  i: JoinerState, i': JoinerState)
    requires n <= |turns| && core == RunLoop(first, Passes(turns[..n])) && q == Rounds(sha, p, OpsOf(turns[..n]))
    requires i == AfterTurns(sha, p, j, turns[..n])
    requires if n == |turns| || core.state.Invalid? then i' == i
             else var stage := StageOf(sha, q.list.vector, i, turns[n]);
                  !stage.Done? && i' == AfterTurn(i, turns[n], stage, false)
    ensures n < |turns| ==> !GoesOn(sha, first, p, j, turns, n)
    ensures i' == StoppedAfter(sha, first, p, j, turns, n)
  {
  }

  lemma RanIs(sha: Sha256, turns: seq<Turn>, n: nat, first: Core, core: Core, p: Pub, q: Pub, j: JoinerState,
              i: JoinerState, i': JoinerState, w: Traffic, v: Traffic)
    requires Midway(sha, turns, n, first, core, p, q, j, i, w, v)
    requires if n == |turns| || core.state.Invalid? then i' == i
             else var stage := StageOf(sha, q.list.vector, i, turns[n]);
                  !stage.Done? && i' == AfterTurn(i, turns[n], stage, false)
    ensures Ran(sha, turns, n, first, p, j, i', w, v)
  {
    StopsHere(sha, turns, n, first, core, p, q, j, i, i');
  }

  // The turns as they are taken.

  /** The exchange leaves the list and what the network was told of it alone. */
  method Exchange(c: Commissioner, list: JoinerList, t: Turn, ghost p: Pub)
    requires c.Ready() && Tracks(c, list, p) && Meets(list.sha, list.vector, c.Joiner(), t)
    modifies c, c.Footprint()
    ensures c.Ready() && c.View() == Iterate(old(c.View()), PassOf(t)) && Tracks(c, list, p)
    ensures c.Footprint() == old(c.Footprint()) && c.Joiner() == AfterDatagram(old(c.Joiner()), t.datagram)
    ensures c.Carried() == AfterPass(list.sha, p.list.vector, old(c.Carried()), old(c.View()), old(c.Joiner()), t.input,
                                     t.datagram, t.now, t.sendTime)
  {
    Apart(c, list);
    c.Exchange(t.input, t.datagram, t.now, t.sendTime);
  }

  /** The sweep before waiting, and the joiner session's part of the pass. */
  method Arrive(c: Commissioner, list: JoinerList, t: Turn, ghost p: Pub) returns (stage: Stage)
    requires c.Ready() && Tracks(c, list, p)
    modifies c.Footprint()
    ensures c.Ready() && c.View() == old(c.View()) && Tracks(c, list, p)
    ensures forall o :: o in c.Footprint() ==> o in old(c.Footprint()) || fresh(o)
    ensures stage == ArrivalStage(old(c.Joiner()), t) && c.Carried() == old(c.Carried())
    ensures c.Joiner() == if stage.Done? then Processed(old(c.Joiner()), t)
                          else AfterTurn(old(c.Joiner()), t, stage, false)
  {
    Apart(c, list);
    stage := AtSweep;
    if CanSweep(c.Joiner(), t.sweep, SELECT) {
      var waitingFor := c.UpdateFdSet(t.sweep, SELECT);
      stage := AtSessions;
      if CanProcess(c.Joiner(), t.arrival) {
        c.ProcessJoiner(t.arrival);
        stage := Done;
      }
    }
  }

  /** The rest of a turn. */
  method Complete(c: Commissioner, list: JoinerList, t: Turn, ghost p: Pub)
    requires c.Ready() && Tracks(c, list, p) && !p.sending && Meets(list.sha, list.vector, c.Joiner(), t)
    modifies c, c.Footprint(), list, list.steering.mBloomFilter
    ensures c.Ready() && c.View() == Iterate(old(c.View()), PassOf(t))
    ensures Tracks(c, list, Publish.Round(list.sha, p, t.ops))
    ensures c.Footprint() == old(c.Footprint()) || fresh(c.Footprint())
    ensures c.Joiner() == Completed(old(c.Joiner()), t, AfterOps(list.sha, p.list, t.ops).updated)
    ensures c.Carried() == CompletedTraffic(list.sha, p.list, old(c.View()), old(c.Joiner()), old(c.Carried()), t)
  {
    Exchange(c, list, t, p);
    Serve(c, list, t.ops, t.socket, p);
  }

  /** The rest of a turn, if what arrives meets its demands. */
  method Finish(c: Commissioner, list: JoinerList, t: Turn, ghost p: Pub) returns (stage: Stage)
    requires c.Ready() && Tracks(c, list, p) && !p.sending
    modifies c, c.Footprint(), list, list.steering.mBloomFilter
    ensures c.Ready() && (c.Footprint() == old(c.Footprint()) || fresh(c.Footprint()))
    ensures stage == InputStage(list.sha, p.list.vector, old(c.Joiner()), t)
    ensures c.Joiner() == if stage.Done? then Completed(old(c.Joiner()), t, AfterOps(list.sha, p.list, t.ops).updated)
                          else old(c.Joiner())
    ensures c.Carried()
         == if stage.Done? then CompletedTraffic(list.sha, p.list, old(c.View()), old(c.Joiner()), old(c.Carried()), t)
            else old(c.Carried())
    ensures c.View() == if stage.Done? then Iterate(old(c.View()), PassOf(t)) else old(c.View())
    ensures Tracks(c, list, if stage.Done? then Publish.Round(list.sha, p, t.ops) else p)
  {
    stage := AtInput;
    if Meets(list.sha, list.vector, c.Joiner(), t) {
      stage := Done;
      Complete(c, list, t, p);
    }
  }

  lemma TurnIs(sha: Sha256, v: seq<JoinerInstance>, j: JoinerState, t: Turn, stage': Stage, j': JoinerState,
               stage: Stage, j'': JoinerState, publishes: bool)
    requires stage' == ArrivalStage(j, t)
    requires j' == if stage'.Done? then Processed(j, t) else AfterTurn(j, t, stage', false)
    requires stage == if stage'.Done? then InputStage(sha, v, j', t) else stage'
    requires j'' == if stage.Done? then Completed(j', t, publishes) else j'
    ensures stage == StageOf(sha, v, j, t) && j'' == AfterTurn(j, t, stage, publishes)
  {
  }

  /** One turn of the loop: sweep and wait, process, publish. It stops part-way when what arrives does not meet what the
      source demands of it at that time; then neither the protocol nor the publication has moved. */
  method TakeTurn(c: Commissioner, list: JoinerList, t: Turn, ghost p: Pub) returns (stage: Stage)
    requires c.Ready() && Tracks(c, list, p) && !p.sending
    modifies c, c.Footprint(), list, list.steering.mBloomFilter
    ensures c.Ready() && forall o :: o in c.Footprint() ==> o in old(c.Footprint()) || fresh(o)
    ensures stage == StageOf(list.sha, p.list.vector, old(c.Joiner()), t)
    ensures c.Joiner() == AfterTurn(old(c.Joiner()), t, stage, AfterOps(list.sha, p.list, t.ops).updated)
    ensures c.Carried() == if stage.Done? then CompletedTraffic(list.sha, p.list, old(c.View()),
                                                                Processed(old(c.Joiner()), t), old(c.Carried()), t)
                           else old(c.Carried())
    ensures c.View() == if stage.Done? then Iterate(old(c.View()), PassOf(t)) else old(c.View())
    ensures Tracks(c, list, if stage.Done? then Publish.Round(list.sha, p, t.ops) else p)
  {
    ghost var j := c.Joiner();
    stage := Arrive(c, list, t, p);
    ghost var stage', j' := stage, c.Joiner();
    if stage.Done? {
      stage := Finish(c, list, t, p);
    }
    TurnIs(list.sha, p.list.vector, j, t, stage', j', stage, c.Joiner(), AfterOps(list.sha, p.list, t.ops).updated);
  }

  /** The commissioner after n turns. */
  ghost predicate At(c: Commissioner, list: JoinerList, turns: seq<Turn>, n: nat, first: Core, p: Pub, q: Pub,
                     j: JoinerState, w: Traffic)
    reads c, list, list.steering, list.steering.mBloomFilter, c.mJoinerSession, c.Servers(),
          if c.mJoinerSession != null && c.mJoinerSession.mDtlsServer != null
          then c.mJoinerSession.mDtlsServer.mSessions else []
  {
    && c.Ready() && Tracks(c, list, q) && !q.sending
    && Midway(list.sha, turns, n, first, c.View(), p, q, j, c.Joiner(), w, c.Carried())
  }

  /** The loop after one more turn, done or stopped. */
  lemma Advanced(sha: Sha256, turns: seq<Turn>, n: nat, first: Core, core: Core, p: Pub, q: Pub, j: JoinerState,
                 i: JoinerState, w: Traffic, v: Traffic, stage: Stage, core': Core, q': Pub, i': JoinerState,
                 v': Traffic)
    requires n < |turns| && !core.state.Invalid? && Midway(sha, turns, n, first, core, p, q, j, i, w, v)
    requires stage == StageOf(sha, q.list.vector, i, turns[n])
    requires core' == if stage.Done? then Iterate(core, PassOf(turns[n])) else core
    requires q' == if stage.Done? then Publish.Round(sha, q, turns[n].ops) else q
    requires i' == AfterTurn(i, turns[n], stage, AfterOps(sha, q.list, turns[n].ops).updated)
    requires v' == if stage.Done? then CompletedTraffic(sha, q.list, core, Processed(i, turns[n]), v, turns[n]) else v
    ensures if stage.Done? then Midway(sha, turns, n + 1, first, core', p, q', j, i', w, v')
            else Ran(sha, turns, n, first, p, j, i', w, v')
  {
    if stage.Done? {
      MidwayOn(sha, turns, n, first, core, p, q, j, i, w, v, core', q', i', v');
    } else {
      RanIs(sha, turns, n, first, core, p, q, j, i, i', w, v');
    }
  }

  /** One more turn of the loop. */
  method Advance(c: Commissioner, list: JoinerList, turns: seq<Turn>, n: nat, ghost first: Core, ghost p: Pub,
                 ghost q: Pub, ghost j: JoinerState, ghost w: Traffic)
    returns (done: bool, ghost q': Pub)
    requires n < |turns| && c.IsValid() && At(c, list, turns, n, first, p, q, j, w)
    modifies c, c.Footprint(), list, list.steering.mBloomFilter
    ensures c.Ready() && Tracks(c, list, q') && !q'.sending
    ensures forall o :: o in c.Footprint() ==> o in old(c.Footprint()) || fresh(o)
    ensures if done then Midway(list.sha, turns, n + 1, first, c.View(), p, q', j, c.Joiner(), w, c.Carried())
            else q' == q && c.View() == old(c.View())
                 && Ran(list.sha, turns, n, first, p, j, c.Joiner(), w, c.Carried())
  {
    ghost var core, i, v := c.View(), c.Joiner(), c.Carried();
    var stage := TakeTurn(c, list, turns[n], q);
    done := stage.Done?;
    q' := if done then Publish.Round(list.sha, q, turns[n].ops) else q;
    Advanced(list.sha, turns, n, first, core, p, q, j, i, w, v, stage, c.View(), q', c.Joiner(), c.Carried());
  }

  method Loop(c: Commissioner, list: JoinerList, turns: seq<Turn>, ghost first: Core, ghost p: Pub,
              ghost j: JoinerState, ghost w: Traffic)
    returns (n: nat)
    requires c.Ready() && Tracks(c, list, p) && !p.sending
    requires c.View() == first && c.Joiner() == j && c.Carried() == w
    modifies c, c.Footprint(), list, list.steering.mBloomFilter
    ensures c.Ready()
    ensures Ran(list.sha, turns, n, first, p, j, c.Joiner(), w, c.Carried())
    ensures c.View() == RunLoop(first, Passes(turns[..n]))
    ensures Tracks(c, list, Rounds(list.sha, p, OpsOf(turns[..n])))
  {
    n := 0;
    ghost var q := p;
    MidwayStarts(list.sha, turns, first, p, j, w);
    while c.IsValid() && n < |turns|
      invariant At(c, list, turns, n, first, p, q, j, w)
      invariant forall o :: o in c.Footprint() ==> o in old(c.Footprint()) || fresh(o)
      decreases |turns| - n
    {
      var done;
      done, q := Advance(c, list, turns, n, first, p, q, j, w);
      if !done {
        return;
      }
      n := n + 1;
    }
    RanIs(list.sha, turns, n, first, c.View(), p, q, j, c.Joiner(), c.Joiner(), w, c.Carried());
  }

  /** A thread that is connected petitions first. */
  method Run(c: Commissioner, list: JoinerList, turns: seq<Turn>, ghost core: Core, ghost p: Pub, ghost j: JoinerState,
             ghost w: Traffic)
    returns (n: nat)
    requires c.Ready() && Tracks(c, list, p) && !p.sending && c.View() == Handshaken(core, Success)
    requires c.Joiner() == j && c.Carried() == w
    modifies c, c.Footprint(), list, list.steering.mBloomFilter
    ensures c.Ready() && n <= |turns| && c.View() == RunLoop(Petitioned(core), Passes(turns[..n]))
    ensures Ran(list.sha, turns, n, Petitioned(core), p, j, c.Joiner(), PetitionedTraffic(w), c.Carried())
    ensures Tracks(c, list, Rounds(list.sha, p, OpsOf(turns[..n])))
  {
    FirstPetition(c);
    n := Loop(c, list, turns, Petitioned(core), p, j, PetitionedTraffic(w));
  }

  /** What a thread makes of a core that is not connected yet. */
  function Outcome(core: Core, rets: seq<HandshakeResult>, turns: seq<Turn>): Core {
    if Settled(rets) == Success then RunLoop(Petitioned(core), Passes(turns)) else core
  }

  /** The whole thread: connect, petition, and loop. Of its turns it does the first n, up to the first that is not
      begun, as the state has ended, or not done, as it does not meet what the source demands. The protocol is where the
      run over these turns leads, the list and the requests sent are where their publications lead, and the joiner
      session is where these turns and as much of the next one as is done lead. */
  method CommissionerThread(c: Commissioner, list: JoinerList, rets: seq<HandshakeResult>, turns: seq<Turn>,
                            ghost p: Pub)
    returns (n: nat)
    requires c.Ready() && c.View().state.Invalid? && Tracks(c, list, p) && !p.sending
    modifies c, c.Footprint(), list, list.steering.mBloomFilter
    ensures c.Ready() && n <= |turns| && c.View() == Outcome(old(c.View()), rets, turns[..n])
    ensures Tracks(c, list, Rounds(list.sha, p, OpsOf(turns[..n])))
    ensures if Settled(rets) == Success
            then Ran(list.sha, turns, n, Petitioned(old(c.View())), p, old(c.Joiner()), c.Joiner(),
                     PetitionedTraffic(old(c.Carried())), c.Carried())
            else n == 0 && c.Joiner() == old(c.Joiner()) && c.Carried() == old(c.Carried())
  {
    ghost var core, j, w := c.View(), c.Joiner(), c.Carried();
    var ret := Connect(c, rets);
    n := 0;
    if c.IsValid() {
      n := Run(c, list, turns, core, p, j, w);
    }
  }

  /** The bytes of the last set request carry both bits of an entry. */
  ghost predicate Admitted(sha: Sha256, log: seq<Request>, x: JoinerInstance) {
    exists id: nat, filter: Octets ::
      && id < U16 && |filter| == DEFAULT_LENGTH
      && LastSet(log) == Some(EncodeAll(SetTlvs(id, filter)))
      && EntryBits(sha, x) <= FilterBits(filter, DEFAULT_LENGTH)
  }

  lemma ToldAdmits(sha: Sha256, p: Pub, log: seq<Request>, i: nat)
    requires Told(log, p.sent) && Steady(p) && !p.list.updated && p.sent.Some? && Coherent(sha, p.list)
    requires i < |p.list.vector|
    ensures Admitted(sha, log, p.list.vector[i])
  {
    SentAdmits(sha, p, i);
    var id: nat, filter: Octets :|
      id < U16 && IsFilter(filter, p.sent.value) && LastSet(log).value == EncodeAll(SetTlvs(id, filter));
  }

  /** After any number of turns of a thread that starts with an untouched or updated list, if no write is
      rejected, every joiner in the list is admitted by the bytes the network was last sent. */
  lemma ThreadAdmits(sha: Sha256, s: ListState, turns: seq<Turn>, log: seq<Request>, i: nat)
    requires s == EMPTY || (s.updated && Coherent(sha, s) && |s.jsonArray| == |s.vector|)
    requires turns != [] && forall k | 0 <= k < |turns| :: CarefulOps(turns[k].ops)
    requires var p := Rounds(sha, Pub(s, None, false), OpsOf(turns)); Told(log, p.sent) && i < |p.list.vector|
    ensures Admitted(sha, log, Rounds(sha, Pub(s, None, false), OpsOf(turns)).list.vector[i])
  {
    assert FullFilter(sha, []) == {};
    RoundsInSync(sha, s, OpsOf(turns));
    RoundsCoherent(sha, Pub(s, None, false), OpsOf(turns));
    ToldAdmits(sha, Rounds(sha, Pub(s, None, false), OpsOf(turns)), log, i);
  }

  /** A thread that connects petitions one to three times; it ends for good when a third response is pending. */
  lemma ThreadPetitions(core: Core, rets: seq<HandshakeResult>, turns: seq<Turn>)
    requires core.state.Invalid? && core.retries == 0 && core.petitions == 0 && core.keepAlives == []
    ensures var c := Outcome(core, rets, turns);
      if Settled(rets) != Success then c == core
      else
        var n := Pending(Petitioned(core), Passes(turns));
        && c.petitions == 1 + (if n <= PETITION_MAX_RETRY then n else PETITION_MAX_RETRY)
        && (!c.state.Invalid? ==> c.petitions == 1 + c.retries)
        && (c.state.Invalid? <==> n == PETITION_MAX_RETRY + 1 || AskedInvalid(Petitioned(core), Passes(turns)))
  {
    if Settled(rets) == Success {
      PetitionsBounded(Petitioned(core), Passes(turns));
      EndsIff(Petitioned(core), Passes(turns));
    }
  }
}
