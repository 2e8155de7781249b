/** The commissioner: its handlers work on message buffers in place and keep its state. */
module Commissioners {
  import opened Bytes
  import opened Tlvs
  import opened Protocol
  import opened Relay
  import opened Joiners
  import opened Psk
  import Dtls
  import Sessions
  import Steering

  /** "OpenThread" with its terminating zero. */
  const ID: Octets := [79, 112, 101, 110, 84, 104, 114, 101, 97, 100, 0]

  datatype Request = PetitionRequest(payload: Octets) | SetRequest(payload: Octets)
                   | KeepAliveRequest(payload: Octets, time: int) | RelayRequest(payload: Octets)

  function PetitionTlvs(): (ts: seq<Tlv>)
    ensures AllWellformed(ts)
  {
    [Tlv(COMMISSIONER_ID, ID, false)]
  }

  function SetTlvs(sessionId: nat, steering: Octets): (ts: seq<Tlv>)
    requires sessionId < U16 && |steering| <= Steering.MAX_SIZE
    ensures AllWellformed(ts)
  {
    [Tlv(COMMISSIONER_SESSION_ID, Word(sessionId), false), Tlv(STEERING_DATA, steering, false)]
  }

  function KeepAliveTlvs(sessionId: nat): (ts: seq<Tlv>)
    requires sessionId < U16
    ensures AllWellformed(ts)
  {
    [Tlv(STATE, [1], false), Tlv(COMMISSIONER_SESSION_ID, Word(sessionId), false)]
  }

  function Petitions(log: seq<Request>): nat {
    if log == [] then 0 else Petitions(log[..|log| - 1]) + if log[|log| - 1].PetitionRequest? then 1 else 0
  }

  function KeepAliveTimes(log: seq<Request>): seq<int> {
    if log == [] then []
    else KeepAliveTimes(log[..|log| - 1]) + if log[|log| - 1].KeepAliveRequest? then [log[|log| - 1].time] else []
  }

  /** The payload of the last request that set the steering data. */
  function LastSet(log: seq<Request>): Option<Octets> {
    if log == [] then None
    else if log[|log| - 1].SetRequest? then Some(log[|log| - 1].payload)
    else LastSet(log[..|log| - 1])
  }

  lemma LogAppend(log: seq<Request>, q: Request)
    ensures LastSet(log + [q]) == if q.SetRequest? then Some(q.payload) else LastSet(log)
    ensures Petitions(log + [q]) == Petitions(log) + if q.PetitionRequest? then 1 else 0
    ensures KeepAliveTimes(log + [q]) == KeepAliveTimes(log) + if q.KeepAliveRequest? then [q.time] else []
  {
    assert (log + [q])[..|log|] == log;
  }

  class Commissioner {
    var mCommissionState: CommissionState
    var mPetitionRetryCount: nat
    var mCommissionerSessionId: Word16
    var mKeepAliveRate: int
    var mLastKeepAliveTime: int
    var mKeepAliveTxCount: int
    var mKeepAliveRxCount: int
    var mSslClientFd: int
    var mJoinerSessionClientFd: int
    var mJoinerSession: Dtls.JoinerSession?
    var mJoinerUdpPort: Word16
    var mJoinerIid: Iid
    var mJoinerRouterLocator: Word16
    const mJoinerList: JoinerList
    ghost var sent: seq<Request>
    ghost var forwarded: seq<Octets>

    ghost function View(): Core
      reads this`mCommissionState, this`mPetitionRetryCount, this`mKeepAliveRate, this`mLastKeepAliveTime, this`sent
    {
      Core(mCommissionState, mPetitionRetryCount, mKeepAliveRate, mLastKeepAliveTime,
                Petitions(sent), KeepAliveTimes(sent))
    }

    /** The sockets are what opening them gave. The session id, the time of the last keep-alive, both counters and the
        joiner's port, identifier and locator are set by no constructor and start with anything. */
    constructor (aKeepAliveRate: int, joiners: JoinerList, garbageId: Word16, garbageTime: int, garbageTx: int,
                 garbageRx: int, garbagePort: Word16, garbageIid: Iid, garbageLocator: Word16, sslFd: int,
                 joinerFd: int)
      ensures mJoinerList == joiners && mJoinerSession == null && sent == [] && forwarded == []
      ensures View() == Core(Invalid, 0, aKeepAliveRate, garbageTime, 0, [])
    {
      mCommissionState := Invalid;
      mPetitionRetryCount := 0;
      mCommissionerSessionId := garbageId;
      mKeepAliveRate := aKeepAliveRate;
      mLastKeepAliveTime := garbageTime;
      mKeepAliveTxCount := garbageTx;
      mKeepAliveRxCount := garbageRx;
      mSslClientFd := sslFd;
      mJoinerSessionClientFd := joinerFd;
      mJoinerSession := null;
      mJoinerUdpPort := garbagePort;
      mJoinerIid := garbageIid;
      mJoinerRouterLocator := garbageLocator;
      mJoinerList := joiners;
      sent := [];
      forwarded := [];
    }

    predicate IsValid()
      reads this
    {
      mCommissionState != Invalid
    }

    method CommissionerPetition()
      modifies this`sent
      ensures sent == old(sent) + [PetitionRequest(EncodeAll(PetitionTlvs()))]
      ensures Carried() == old(Carried()).(sent := old(sent) + [PetitionRequest(EncodeAll(PetitionTlvs()))])
      ensures View() == old(View()).(petitions := old(View()).petitions + 1) && LastSet(sent) == old(LastSet(sent))
    {
      var payload := WriteSmall(PetitionTlvs(), MAX_PACKET);
      LogAppend(sent, PetitionRequest(payload));
      sent := sent + [PetitionRequest(payload)];
    }

    method CommissionerResponseNext()
      modifies this`mCommissionState, this`mPetitionRetryCount, this`sent
      ensures View() == ResponseNext(old(View())) && LastSet(sent) == old(LastSet(sent))
      ensures Carried() == old(Carried()).(sent := old(sent) + PetitionsAgain(old(View())))
    {
      if mCommissionState == Connected || mCommissionState == Rejected {
        if mCommissionState != Invalid && mPetitionRetryCount < PETITION_MAX_RETRY {
          mPetitionRetryCount := mPetitionRetryCount + 1;
          CommissionerPetition();
        } else {
          mCommissionState := Invalid;
          mPetitionRetryCount := 0;
        }
      }
    }

    method CommissionerSet(steering: Steering.SteeringData)
      requires Ready() && steering.Valid()
      modifies this`sent
      ensures Ready() && View() == old(View()) && sent == old(sent)
        + [SetRequest(EncodeAll(SetTlvs(mCommissionerSessionId, steering.mBloomFilter[..steering.mLength])))]
      ensures Carried() == old(Carried()).(sent := sent)
    {
      ghost var log := sent;
      var ts := SetTlvs(mCommissionerSessionId, steering.mBloomFilter[..steering.mLength]);
      var payload := WriteSmall(ts, MAX_PACKET);
      sent := sent + [SetRequest(payload)];
      LogAppend(log, SetRequest(payload));
    }

    method CommissionerKeepAlive(now: int)
      modifies this`sent, this`mLastKeepAliveTime, this`mKeepAliveTxCount
      ensures mLastKeepAliveTime == now && mKeepAliveTxCount == old(mKeepAliveTxCount) + 1
      ensures sent == old(sent) + [KeepAliveRequest(EncodeAll(KeepAliveTlvs(mCommissionerSessionId)), now)]
    {
      var ts := KeepAliveTlvs(mCommissionerSessionId);
      var payload := WriteSmall(ts, MAX_PACKET);
      mLastKeepAliveTime := now;
      mKeepAliveTxCount := mKeepAliveTxCount + 1;
      sent := sent + [KeepAliveRequest(payload, now)];
    }

    /** The walk over a response's TLVs that all three response handlers share. */
    method WalkResponse(kind: Kind, payload: Octets, length: nat)
      requires Walk(payload, 0, length, Need(kind)).Some?
      modifies this`mCommissionState, this`mCommissionerSessionId
      ensures var vs := Walk(payload, 0, length, Need(kind)).value;
        && Inside(kind, payload, vs)
        && mCommissionState == (var v := Verdict(payload, vs); if v.Some? then v.value else old(mCommissionState))
        && mCommissionerSessionId == if kind.KeepAliveAnswer? then old(mCommissionerSessionId)
                                     else SessionId(payload, vs, old(mCommissionerSessionId))
    {
      ghost var vs, i := Walk(payload, 0, length, Need(kind)).value, 0;
      WalkInside(kind, payload, length);
      var tlv := 0;
      while LengthOf(tlv) < length
        invariant i <= |vs|
        invariant Walk(payload, tlv, length, Need(kind)) == Some(vs[i..])
        invariant mCommissionState
               == (var v := Verdict(payload, vs[..i]); if v.Some? then v.value else old(mCommissionState))
        invariant mCommissionerSessionId == if kind.KeepAliveAnswer? then old(mCommissionerSessionId)
                                            else SessionId(payload, vs[..i], old(mCommissionerSessionId))
        decreases if tlv <= |payload| then |payload| - tlv else 0
      {
        WalkTurn(kind, payload, tlv, length, vs, i);
        var state := payload[GetValue(payload, tlv)];
        var tlvType := GetType(payload, tlv);
        if tlvType == STATE {
          mCommissionState := StateOf(state);
        } else if tlvType == COMMISSIONER_SESSION_ID && !kind.KeepAliveAnswer? {
          mCommissionerSessionId := WordAt(payload, GetValue(payload, tlv));
        }
        tlv := GetNext(payload, tlv);
        i := i + 1;
      }
      assert vs[..i] == vs;
    }

    /** What a response handler does before it looks at the state it was left in. */
    method TakeResponse(kind: Kind, payload: Octets, length: nat, now: int)
      requires Walk(payload, 0, length, Need(kind)).Some?
      modifies this`mCommissionState, this`mCommissionerSessionId, this`mLastKeepAliveTime, this`mKeepAliveRxCount
      ensures var vs := Walk(payload, 0, length, Need(kind)).value;
        && Inside(kind, payload, vs)
        && View() == Judged(old(View()), Response(kind, Verdict(payload, vs), now))
      ensures Carried() == AfterAnswer(old(Carried()), kind, payload, length)
    {
      if kind.KeepAliveAnswer? {
        mLastKeepAliveTime := now;
        mKeepAliveRxCount := mKeepAliveRxCount + 1;
      }
      WalkResponse(kind, payload, length);
      if kind.PetitionAnswer? {
        mLastKeepAliveTime := now;
      }
    }

    method HandleResponse(kind: Kind, payload: Octets, length: nat, now: int)
      requires Walk(payload, 0, length, Need(kind)).Some?
      modifies this`mCommissionState, this`mPetitionRetryCount, this`sent, this`mCommissionerSessionId
      modifies this`mLastKeepAliveTime, this`mKeepAliveRxCount
      ensures LastSet(sent) == old(LastSet(sent))
      ensures var vs := Walk(payload, 0, length, Need(kind)).value;
        && Inside(kind, payload, vs)
        && var r := Response(kind, Verdict(payload, vs), now);
           && View() == Respond(old(View()), r)
           && Carried() == AfterResponse(old(Carried()), old(View()), kind, payload, length, r)
    {
      TakeResponse(kind, payload, length, now);
      CommissionerResponseNext();
    }

    // Relaying.

    /** The server of the joiner session, if there is one. */
    ghost function Servers(): set<Dtls.MbedtlsServer>
      reads this`mJoinerSession, mJoinerSession
    {
      if mJoinerSession == null || mJoinerSession.mDtlsServer == null then {} else {mJoinerSession.mDtlsServer}
    }

    ghost function RelayView(): RelayState
      reads this`mJoinerUdpPort, this`mJoinerIid, this`mJoinerRouterLocator, this`forwarded, this`mJoinerSession,
            mJoinerSession, Servers()
    {
      var psk := if mJoinerSession == null || mJoinerSession.mDtlsServer == null then ""
                 else mJoinerSession.mDtlsServer.mPSK;
      RelayState(mJoinerUdpPort, mJoinerIid, mJoinerRouterLocator, psk, forwarded)
    }

    /** All else that the commissioner has learnt, sent and passed on. */
    ghost function Carried(): Traffic
      reads this`mCommissionerSessionId, this`mJoinerUdpPort, this`mJoinerIid, this`mJoinerRouterLocator, this`sent,
            this`forwarded, this`mKeepAliveTxCount, this`mKeepAliveRxCount, this`mJoinerSession, mJoinerSession,
            Servers()
    {
      Traffic(mCommissionerSessionId, RelayView(), sent, mKeepAliveTxCount, mKeepAliveRxCount)
    }

    /** A joiner session is needed only to tell it the PSK of an entry found. */
    method FindEui(mac: Octets)
      requires Ready() && Findable(mJoinerList.sha, mJoinerList.vector, mac, mJoinerSession != null)
      modifies Servers()`mPSK
      ensures Ready()
      ensures Joiner() == old(Joiner()) && Footprint() == old(Footprint())
      ensures RelayView() == old(RelayView()).(
        psk := PskAfter(mJoinerList.sha, old(mJoinerList.vector), mac, old(RelayView()).psk))
    {
      var inst := FindEntry(mJoinerList, mac);
      if inst.Some? {
        mJoinerSession.SetPSK(mJoinerList.vector[inst.value].psk);
      }
    }

    method LookUp(iid: Octets)
      requires Ready() && |iid| == IID_LEN
      requires Findable(mJoinerList.sha, mJoinerList.vector, iid, mJoinerSession != null)
      modifies this`mJoinerIid, Servers()`mPSK
      ensures Ready() && mJoinerList.vector == old(mJoinerList.vector)
      ensures Joiner() == old(Joiner()) && Footprint() == old(Footprint())
      ensures RelayView() == WithIid(mJoinerList.sha, mJoinerList.vector, iid, old(RelayView()))
    {
      mJoinerIid := iid;
      FindEui(mJoinerIid);
    }

    /** A TLV that asks for a joiner. */
    method TakeIid(payload: Octets, requestTlv: nat, ghost sendFails: bool)
      requires Ready() && HeaderIn(payload, requestTlv) && Readable(payload, ViewAt(payload, requestTlv))
      requires Asked(mJoinerList.sha, mJoinerList.vector, payload, ViewAt(payload, requestTlv), mJoinerSession != null)
      requires GetType(payload, requestTlv) == JOINER_IID
      modifies this`mJoinerIid, Servers()`mPSK
      ensures Ready() && mJoinerList.vector == old(mJoinerList.vector)
      ensures Joiner() == old(Joiner()) && Footprint() == old(Footprint())
      ensures (RelayView(), false) == RelayOne(mJoinerList.sha, mJoinerList.vector, payload,
                                               ViewAt(payload, requestTlv), old(RelayView()), sendFails)
    {
      var value := GetValue(payload, requestTlv);
      LookUp(payload[value..value + IID_LEN]);
    }

    /** A TLV that asks for no joiner. */
    method TakeField(payload: Octets, requestTlv: nat, sendFails: bool) returns (failed: bool)
      requires Ready() && HeaderIn(payload, requestTlv) && Readable(payload, ViewAt(payload, requestTlv))
      requires GetType(payload, requestTlv) != JOINER_IID
      modifies this`mJoinerUdpPort, this`mJoinerRouterLocator, this`forwarded
      ensures Ready()
      ensures (RelayView(), failed) == RelayOne(mJoinerList.sha, mJoinerList.vector, payload,
                                                ViewAt(payload, requestTlv), old(RelayView()), sendFails)
    {
      var tlvType, value := GetType(payload, requestTlv), GetValue(payload, requestTlv);
      failed := tlvType == JOINER_DTLS_ENCAPSULATION && sendFails;
      if tlvType == JOINER_DTLS_ENCAPSULATION && !sendFails {
        forwarded := forwarded + [payload[value..value + GetLength(payload, requestTlv)]];
      } else if tlvType == JOINER_UDP_PORT {
        mJoinerUdpPort := WordAt(payload, value);
      } else if tlvType == JOINER_ROUTER_LOCATOR {
        mJoinerRouterLocator := WordAt(payload, value);
      }
    }

    /** One TLV of a relay message. */
    method HandleRelayTlv(payload: Octets, requestTlv: nat, sendFails: bool) returns (failed: bool)
      requires Ready() && HeaderIn(payload, requestTlv) && Readable(payload, ViewAt(payload, requestTlv))
      requires Asked(mJoinerList.sha, mJoinerList.vector, payload, ViewAt(payload, requestTlv), mJoinerSession != null)
      modifies this`mJoinerUdpPort, this`mJoinerIid, this`mJoinerRouterLocator, this`forwarded, Servers()`mPSK
      ensures Ready() && mJoinerList.vector == old(mJoinerList.vector)
      ensures Joiner() == old(Joiner()) && Footprint() == old(Footprint())
      ensures (RelayView(), failed) == RelayOne(mJoinerList.sha, mJoinerList.vector, payload,
                                                ViewAt(payload, requestTlv), old(RelayView()), sendFails)
    {
      if GetType(payload, requestTlv) == JOINER_IID {
        failed := false;
        TakeIid(payload, requestTlv, sendFails);
      } else {
        failed := TakeField(payload, requestTlv, sendFails);
      }
    }

    /** What is left of a relay message can be taken, and leads to the result. */
    ghost predicate Relaying(payload: Octets, vs: seq<View>, fails: nat -> bool, place: nat, result: RelayState)
      reads this, mJoinerList, mJoinerSession, Servers()
    {
      && Leads(mJoinerList.sha, mJoinerList.vector, payload, vs, RelayView(), fails, place, result)
      && Answerable(mJoinerList.sha, mJoinerList.vector, payload, vs, fails, mJoinerSession != null, place)
    }

    /** One turn of the walk over a relay message: what is left to do leads to the same result. */
    method RelayTurn(payload: Octets, requestTlv: nat, length: nat, fails: nat -> bool, place: nat,
                     ghost vs: seq<View>, ghost result: RelayState)
      returns (failed: bool)
      requires Ready() && place <= |vs| && LengthOf(requestTlv) < length
      requires Ahead(payload, requestTlv, length, fails, vs, place) && Relaying(payload, vs, fails, place, result)
      modifies this`mJoinerUdpPort, this`mJoinerIid, this`mJoinerRouterLocator, this`forwarded, Servers()`mPSK
      ensures Ready() && place < |vs| && HeaderIn(payload, requestTlv)
      ensures Joiner() == old(Joiner()) && Footprint() == old(Footprint())
      ensures if failed then RelayView() == result
              else Ahead(payload, GetNext(payload, requestTlv), length, fails, vs, place + 1)
                   && Relaying(payload, vs, fails, place + 1, result)
    {
      ghost var before := RelayView();
      RelayNext(payload, requestTlv, length, fails, vs, place);
      failed := HandleRelayTlv(payload, requestTlv, fails(place));
      LeadsOn(mJoinerList.sha, mJoinerList.vector, payload, vs, before, fails, place, result, RelayView(), failed);
    }

    /** The walk over a relay message; a datagram that cannot be passed on ends it. */
    method WalkRelay(payload: Octets, length: nat, fails: nat -> bool, ghost vs: seq<View>, ghost result: RelayState)
      requires Ready() && Ahead(payload, 0, length, fails, vs, 0) && Relaying(payload, vs, fails, 0, result)
      modifies this`mJoinerUdpPort, this`mJoinerIid, this`mJoinerRouterLocator, this`forwarded, Servers()`mPSK
      ensures Ready() && RelayView() == result
      ensures Joiner() == old(Joiner()) && Footprint() == old(Footprint())
    {
      var requestTlv: nat, place: nat := 0, 0;
      while LengthOf(requestTlv) < length
        invariant place <= |vs| && Ready()
        invariant Joiner() == old(Joiner()) && Footprint() == old(Footprint())
        invariant Ahead(payload, requestTlv, length, fails, vs, place) && Relaying(payload, vs, fails, place, result)
        decreases if requestTlv <= |payload| then |payload| - requestTlv else 0
      {
        var failed := RelayTurn(payload, requestTlv, length, fails, place, vs, result);
        if failed {
          return;
        }
        requestTlv := GetNext(payload, requestTlv);
        place := place + 1;
      }
      LeadsEnds(mJoinerList.sha, mJoinerList.vector, payload, length, vs, RelayView(), fails, requestTlv, place,
                result);
    }

    method HandleRelayReceive(payload: Octets, length: nat, fails: nat -> bool)
      requires Ready()
      requires Takes(mJoinerList.sha, mJoinerList.vector, mJoinerSession != null, RelayIn(payload, length, fails))
      modifies this`mJoinerUdpPort, this`mJoinerIid, this`mJoinerRouterLocator, this`forwarded, Servers()`mPSK
      ensures Ready()
      ensures Joiner() == old(Joiner()) && Footprint() == old(Footprint())
      ensures RelayView() == Received(mJoinerList.sha, mJoinerList.vector, payload, length, old(RelayView()), fails)
    {
      ghost var vs := Relayed(payload, 0, length, fails, 0).value;
      ghost var result := Received(mJoinerList.sha, mJoinerList.vector, payload, length, RelayView(), fails);
      ReceivedLeads(mJoinerList.sha, mJoinerList.vector, payload, length, vs, RelayView(), fails, result);
      WalkRelay(payload, length, fails, vs, result);
    }

    /** The key to append to the next relayed datagram, if it is due. */
    ghost function DueKek(): Option<Octets>
      requires mJoinerSession != null
      reads this, mJoinerSession
    {
      if mJoinerSession.mNeedAppendKek then Some(mJoinerSession.mKek) else None
    }

    /** The TLVs every relayed datagram has. */
    method WriteRelay(payload: array<Byte>, aBuf: Octets, ghost ts: seq<Tlv>) returns (responseTlv: nat)
      requires payload.Length == MAX_PACKET && |aBuf| <= 1478
      requires ts == RelayTlvs(aBuf, mJoinerUdpPort, mJoinerIid, mJoinerRouterLocator, None)
      modifies payload
      ensures Written(payload[..], ts) && responseTlv == |EncodeAll(ts)| <= |aBuf| + 22
    {
      RelayPrefixes(aBuf, mJoinerUdpPort, mJoinerIid, mJoinerRouterLocator, ts);
      WrittenNothing(payload[..]);
      responseTlv := WriteNext(payload, 0, Tlv(JOINER_DTLS_ENCAPSULATION, aBuf, |aBuf| >= LENGTH_ESCAPE), []);
      responseTlv := WriteNext(payload, responseTlv, Tlv(JOINER_UDP_PORT, Word(mJoinerUdpPort), false), ts[..1]);
      responseTlv := WriteNext(payload, responseTlv, Tlv(JOINER_IID, mJoinerIid, false), ts[..2]);
      responseTlv :=
        WriteNext(payload, responseTlv, Tlv(JOINER_ROUTER_LOCATOR, Word(mJoinerRouterLocator), false), ts[..3]);
    }

    /** The whole message, with the joiner session's key behind it if that is due. */
    method BuildRelay(aBuf: Octets) returns (message: Octets)
      requires mJoinerSession != null && |aBuf| <= if mJoinerSession.mNeedAppendKek then 1444 else 1478
      ensures message
           == EncodeAll(RelayTlvs(aBuf, mJoinerUdpPort, mJoinerIid, mJoinerRouterLocator, DueKek()))
    {
      ghost var ts := RelayTlvs(aBuf, mJoinerUdpPort, mJoinerIid, mJoinerRouterLocator, None);
      var payload := new Byte[MAX_PACKET](_ => 0);
      var responseTlv := WriteRelay(payload, aBuf, ts);
      RelayTlvsLast(aBuf, mJoinerUdpPort, mJoinerIid, mJoinerRouterLocator, DueKek());
      if mJoinerSession.NeedAppendKek() {
        var kek := Tlv(JOINER_ROUTER_KEK, mJoinerSession.mKek, false);
        responseTlv := WriteNext(payload, responseTlv, kek, ts);
        ts := ts + [kek];
      }
      WrittenMessage(payload[..], ts);
      message := payload[..LengthOf(responseTlv)];
    }

    method SendRelayTransmit(aBuf: Octets)
      requires mJoinerSession != null && mJoinerSession.Valid()
      requires |aBuf| <= if mJoinerSession.mNeedAppendKek then 1444 else 1478
      modifies this`sent, mJoinerSession`mNeedAppendKek
      ensures mJoinerSession.Valid()
      ensures mJoinerSession.View() == old(mJoinerSession.View()).(needKek := false)
      ensures sent == old(sent)
        + [RelayRequest(EncodeAll(RelayTlvs(aBuf, mJoinerUdpPort, mJoinerIid, mJoinerRouterLocator, old(DueKek()))))]
    {
      var message := BuildRelay(aBuf);
      if mJoinerSession.NeedAppendKek() {
        mJoinerSession.MarkKekSent();
      }
      sent := sent + [RelayRequest(message)];
    }

    // The run.

    ghost predicate Ready()
      reads this, mJoinerSession, if mJoinerSession != null && mJoinerSession.mDtlsServer != null
                                  then {mJoinerSession.mDtlsServer} else {}
    {
      (mJoinerSession != null ==> mJoinerSession.Valid())
    }

    /** The joiner session as it matters here. */
    function Joiner(): JoinerState
      requires mJoinerSession != null ==> mJoinerSession.mDtlsServer != null
      reads this`mJoinerSession, mJoinerSession, Servers(),
            if mJoinerSession != null && mJoinerSession.mDtlsServer != null
            then mJoinerSession.mDtlsServer.mSessions else []
    {
      if mJoinerSession == null then Absent else Present(mJoinerSession.View(), mJoinerSession.mDtlsServer.mSocket)
    }

    /** The joiner session's objects. */
    ghost function Footprint(): set<object>
      reads this`mJoinerSession, mJoinerSession, Servers()
    {
      if mJoinerSession == null then {} else mJoinerSession.Objects()
    }

    /** The commissioner and its list are no objects of the joiner session. */
    lemma Apart()
      requires Ready()
      ensures this !in Footprint() && mJoinerList !in Footprint()
    {
    }

    method TryDtlsHandshake(ret: HandshakeResult)
      modifies this`mCommissionState
      ensures View() == Handshaken(old(View()), ret) && Carried() == old(Carried())
    {
      match ret {
        case Success => mCommissionState := Connected;
        case WantMore =>
        case Failure => mCommissionState := Invalid;
      }
    }

    /** Create the joiner session if there is none yet. */
    method SetJoiner(aPskdAscii: string, socket: int)
      requires Ready() && CutLength(aPskdAscii) > 0
      modifies this`mJoinerSession
      ensures Ready() && mJoinerSession != null && View() == old(View())
      ensures Joiner() == AfterCreation(old(Joiner()), socket)
      ensures Carried() == AfterSetup(old(Carried()), old(Joiner()), aPskdAscii)
      ensures if old(mJoinerSession) == null then fresh(Footprint()) else Footprint() == old(Footprint())
    {
      if mJoinerSession == null {
        mJoinerSession := new Dtls.JoinerSession(aPskdAscii, socket);
      }
    }

    /** A relay message leaves the protocol, the requests sent and the session table alone, and is relayed. */
    method ReceiveRelay(payload: Octets, length: nat, fails: nat -> bool)
      requires Ready()
      requires Takes(mJoinerList.sha, mJoinerList.vector, mJoinerSession != null, RelayIn(payload, length, fails))
      modifies this`mJoinerUdpPort, this`mJoinerIid, this`mJoinerRouterLocator, this`forwarded, Servers()`mPSK
      ensures Ready() && View() == old(View())
      ensures Footprint() == old(Footprint())
      ensures Joiner() == old(Joiner())
      ensures Carried() == old(Carried()).(
        relay := Received(mJoinerList.sha, old(mJoinerList.vector), payload, length, old(RelayView()), fails))
    {
      HandleRelayReceive(payload, length, fails);
    }

    /** A response leaves the relay state and the session table alone. */
    method ReceiveAnswer(kind: Kind, payload: Octets, length: nat, time: int)
      requires Ready() && Walk(payload, 0, length, Need(kind)).Some?
      modifies this`mCommissionState, this`mPetitionRetryCount, this`sent, this`mCommissionerSessionId
      modifies this`mLastKeepAliveTime, this`mKeepAliveRxCount
      ensures Ready() && LastSet(sent) == old(LastSet(sent))
      ensures Footprint() == old(Footprint()) && Joiner() == old(Joiner())
      ensures View() == Heard(old(View()), Answer(kind, payload, length, time))
      ensures Carried() == AfterInput(mJoinerList.sha, mJoinerList.vector, old(Carried()), old(View()),
                                      Answer(kind, payload, length, time))
    {
      HandleResponse(kind, payload, length, time);
    }

    /** What arrives from the border agent: a response or a relay message. */
    method Receive(i: Input)
      requires Ready() && Takes(mJoinerList.sha, mJoinerList.vector, mJoinerSession != null, i)
      modifies this, Servers()
      ensures Ready() && mJoinerSession == old(mJoinerSession) && LastSet(sent) == old(LastSet(sent))
      ensures Footprint() == old(Footprint())
      ensures Joiner() == old(Joiner()) && View() == Heard(old(View()), i)
      ensures Carried() == AfterInput(mJoinerList.sha, old(mJoinerList.vector), old(Carried()), old(View()), i)
    {
      match i {
        case Quiet =>
        case Answer(kind, payload, length, time) =>
          ReceiveAnswer(kind, payload, length, time);
        case RelayIn(payload, length, fails) =>
          ReceiveRelay(payload, length, fails);
      }
    }

    method Relay(datagram: Option<Octets>)
      requires Ready() && Relays(Joiner(), datagram)
      modifies this`sent, mJoinerSession
      ensures Ready() && View() == old(View()) && LastSet(sent) == old(LastSet(sent))
      ensures Footprint() == old(Footprint())
      ensures Joiner() == AfterDatagram(old(Joiner()), datagram)
      ensures Carried() == AfterRelay(old(Carried()), old(Joiner()), datagram)
    {
      if datagram.Some? {
        ghost var log := sent;
        SendRelayTransmit(datagram.value);
        LogAppend(log, sent[|log|]);
      }
    }

    /** The end of Process. */
    method KeepAliveIfDue(now: int, sendTime: int)
      requires Ready()
      modifies this`sent, this`mLastKeepAliveTime, this`mKeepAliveTxCount
      ensures Ready() && Joiner() == old(Joiner()) && Footprint() == old(Footprint())
      ensures View() == Tick(old(View()), now, sendTime) && LastSet(sent) == old(LastSet(sent))
      ensures Carried() == AfterTick(old(Carried()), old(View()), now, sendTime)
    {
      if mCommissionState == Accepted && mKeepAliveRate > 0 && now - mLastKeepAliveTime > mKeepAliveRate {
        ghost var log := sent;
        CommissionerKeepAlive(sendTime);
        LogAppend(log, sent[|log|]);
      }
    }

    /** The part of a pass that is about the border agent and the joiner's datagrams. */
    method Exchange(i: Input, datagram: Option<Octets>, now: int, sendTime: int)
      requires Ready() && Takes(mJoinerList.sha, mJoinerList.vector, mJoinerSession != null, i)
      requires Relays(Joiner(), datagram)
      modifies this, Footprint()
      ensures Ready() && mJoinerSession == old(mJoinerSession) && LastSet(sent) == old(LastSet(sent))
      ensures Footprint() == old(Footprint())
      ensures View() == Iterate(old(View()), Pass(ResponseIn(i), now, sendTime))
      ensures Joiner() == AfterDatagram(old(Joiner()), datagram)
      ensures Carried() == AfterPass(mJoinerList.sha, old(mJoinerList.vector), old(Carried()), old(View()),
                                     old(Joiner()), i, datagram, now, sendTime)
    {
      Receive(i);
      Relay(datagram);
      KeepAliveIfDue(now, sendTime);
    }

    /** What there is to wait for besides the joiner session: the two sockets of the commissioner. */
    function WithSockets(x: Dtls.Wait): Dtls.Wait
      reads this
    {
      x.(fds := x.fds + {mSslClientFd} + {mJoinerSessionClientFd},
         maxFd := Sessions.Max(mJoinerSessionClientFd, Sessions.Max(mSslClientFd, x.maxFd)))
    }

    method SweepJoiner(now: nat, x: Dtls.Wait) returns (x': Dtls.Wait)
      requires Ready() && mJoinerSession != null && CanSweep(Joiner(), now, x)
      modifies Footprint()
      ensures Ready() && Footprint() <= old(Footprint()) && View() == old(View()) && LastSet(sent) == old(LastSet(sent))
      ensures Joiner() == AfterSweep(old(Joiner()), now) && Carried() == old(Carried())
      ensures x' == Dtls.Waiting(old(Joiner()).table.sessions, now, old(Joiner()).socket, x)
    {
      x' := mJoinerSession.UpdateFdSet(now, x);
    }

    /** The two sockets, and what the joiner session waits for once it has swept its table. */
    method UpdateFdSet(now: nat, x: Dtls.Wait) returns (x': Dtls.Wait)
      requires Ready() && CanSweep(Joiner(), now, x)
      modifies Footprint()
      ensures Ready() && Footprint() <= old(Footprint()) && View() == old(View()) && LastSet(sent) == old(LastSet(sent))
      ensures Joiner() == AfterSweep(old(Joiner()), now) && Carried() == old(Carried())
      ensures x' == if old(Joiner()).Absent? then old(WithSockets(x))
                    else Dtls.Waiting(old(Joiner()).table.sessions, now, old(Joiner()).socket, old(WithSockets(x)))
    {
      x' := WithSockets(x);
      if mJoinerSession != null {
        x' := SweepJoiner(now, x');
      }
    }

    /** The joiner session's part of a pass, if there is one. */
    method ProcessJoiner(a: Dtls.Arrival)
      requires Ready() && CanProcess(Joiner(), a)
      modifies Footprint()
      ensures Ready() && forall o :: o in Footprint() ==> o in old(Footprint()) || fresh(o)
      ensures View() == old(View()) && LastSet(sent) == old(LastSet(sent))
      ensures mJoinerSession == old(mJoinerSession) && mJoinerList.vector == old(mJoinerList.vector)
      ensures Joiner() == AfterArrival(old(Joiner()), a) && Carried() == old(Carried())
    {
      Apart();
      if mJoinerSession != null {
        mJoinerSession.Process(a);
      }
    }

    /** One pass: the joiner session first, then what came from the border agent and from the joiner, then the
        keep-alive. */
    method Process(a: Dtls.Arrival, i: Input, datagram: Option<Octets>, now: int, sendTime: int)
      requires Ready() && CanProcess(Joiner(), a)
      requires Takes(mJoinerList.sha, mJoinerList.vector, mJoinerSession != null, i)
      requires Relays(AfterArrival(Joiner(), a), datagram)
      modifies this, Footprint()
      ensures Ready() && LastSet(sent) == old(LastSet(sent))
      ensures forall o :: o in Footprint() ==> o in old(Footprint()) || fresh(o)
      ensures View() == Iterate(old(View()), Pass(ResponseIn(i), now, sendTime))
      ensures Joiner() == AfterDatagram(AfterArrival(old(Joiner()), a), datagram)
      ensures Carried() == AfterPass(mJoinerList.sha, old(mJoinerList.vector), old(Carried()), old(View()),
                                     AfterArrival(old(Joiner()), a), i, datagram, now, sendTime)
    {
      ProcessJoiner(a);
      Exchange(i, datagram, now, sendTime);
    }
  }

  /** The joiner session: its table and its server socket, or none yet. */
  datatype JoinerState = Absent | Present(table: Sessions.Table, socket: int)

  function AfterSweep(j: JoinerState, now: nat): JoinerState {
    match j
    case Absent => Absent
    case Present(t, socket) => Present(Sessions.Sweep(t, now), socket)
  }

  function AfterArrival(j: JoinerState, a: Dtls.Arrival): JoinerState {
    match j
    case Absent => Absent
    case Present(t, socket) =>
      Present(Sessions.Steps(t, Dtls.ArrivalSteps(t, socket, a)), Dtls.SocketAfter(socket, a))
  }

  /** Sending a datagram also settles the key that was due. */
  function AfterDatagram(j: JoinerState, datagram: Option<Octets>): JoinerState {
    match j
    case Absent => Absent
    case Present(t, socket) => if datagram.Some? then Present(t.(needKek := false), socket) else j
  }

  function AfterCreation(j: JoinerState, socket: int): JoinerState {
    if j.Absent? then Present(Sessions.EMPTY, socket) else j
  }

  // What is learnt, sent and passed on.

  datatype Traffic = Traffic(
    sessionId: Word16,
    relay: RelayState,
    sent: seq<Request>,
    keepAlivesOut: int,
    keepAlivesIn: int)

  /** A state that is pending petitions again while retries are left. */
  function PetitionsAgain(c: Core): seq<Request> {
    if LeavesPending(c) && c.retries < PETITION_MAX_RETRY then [PetitionRequest(EncodeAll(PetitionTlvs()))] else []
  }

  /** A response gives the session id, unless it answers a keep-alive. */
  function AfterAnswer(w: Traffic, kind: Kind, payload: Octets, length: nat): Traffic
    requires Walk(payload, 0, length, Need(kind)).Some?
  {
    WalkInside(kind, payload, length);
    if kind.KeepAliveAnswer? then w.(keepAlivesIn := w.keepAlivesIn + 1)
    else w.(sessionId := SessionId(payload, Walk(payload, 0, length, Need(kind)).value, w.sessionId))
  }

  function AfterResponse(w: Traffic, c: Core, kind: Kind, payload: Octets, length: nat, r: Response): Traffic
    requires Walk(payload, 0, length, Need(kind)).Some?
  {
    var w' := AfterAnswer(w, kind, payload, length);
    w'.(sent := w'.sent + PetitionsAgain(Judged(c, r)))
  }

  function AfterInput(sha: Steering.Sha256, list: seq<JoinerInstance>, w: Traffic, c: Core, i: Input): Traffic {
    match i
    case Quiet => w
    case Answer(kind, payload, length, time) =>
      if ResponseIn(i).Some? then AfterResponse(w, c, kind, payload, length, ResponseIn(i).value) else w
    case RelayIn(payload, length, fails) =>
      if Relayed(payload, 0, length, fails, 0).Some?
      then w.(relay := Received(sha, list, payload, length, w.relay, fails)) else w
  }

  /** A datagram goes out in one request, with the joiner session's key if it is due. */
  function AfterRelay(w: Traffic, j: JoinerState, datagram: Option<Octets>): Traffic {
    if datagram.None? || j.Absent? || |datagram.value| >= U16 then w
    else
      var kek := if j.table.needKek then Some(j.table.kek) else None;
      w.(sent := w.sent + [RelayRequest(EncodeAll(RelayTlvs(datagram.value, w.relay.port, w.relay.iid, w.relay.locator,
                                                            kek)))])
  }

  function AfterTick(w: Traffic, c: Core, now: int, sendTime: int): Traffic {
    if KeepAliveDue(c, now)
    then w.(sent := w.sent + [KeepAliveRequest(EncodeAll(KeepAliveTlvs(w.sessionId)), sendTime)],
            keepAlivesOut := w.keepAlivesOut + 1)
    else w
  }

  function AfterPass(sha: Steering.Sha256, list: seq<JoinerInstance>, w: Traffic, c: Core, j: JoinerState, i: Input,
                     datagram: Option<Octets>, now: int, sendTime: int): Traffic
  {
    AfterTick(AfterRelay(AfterInput(sha, list, w, c, i), j, datagram), Heard(c, i), now, sendTime)
  }

  /** A joiner session that is created starts with this PSK. */
  function AfterSetup(w: Traffic, j: JoinerState, psk: string): Traffic {
    if j.Absent? then w.(relay := w.relay.(psk := Replaced("", psk))) else w
  }

  // What the source demands without checking it.

  /** No time of the sessions wraps. */
  predicate CanSweep(j: JoinerState, now: nat, x: Dtls.Wait) {
    j.Present? ==> Dtls.SweepDefined(j.table, now, x)
  }

  /** No destroyed session is worked on. */
  predicate CanProcess(j: JoinerState, a: Dtls.Arrival) {
    j.Present? ==> Dtls.ArrivalDefined(j.table, a)
  }

  /** The walk over a message stays inside memory, and every joiner a relay message asks for can be looked up. */
  predicate Takes(sha: Steering.Sha256, list: seq<JoinerInstance>, joined: bool, i: Input) {
    match i
    case Quiet => true
    case Answer(kind, payload, length, _) => Walk(payload, 0, length, Need(kind)).Some?
    case RelayIn(payload, length, fails) =>
      var vs := Relayed(payload, 0, length, fails, 0);
      vs.Some? && Answerable(sha, list, payload, vs.value, fails, joined, 0)
  }

  /** A datagram to relay needs a joiner session, and the message must fit the packet buffer. */
  predicate Relays(j: JoinerState, datagram: Option<Octets>) {
    datagram.Some? ==> j.Present? && |datagram.value| <= if j.table.needKek then 1444 else 1478
  }

  /** That is the case when there is a joiner session and the message, with the key if it is due, has at most 1500
      bytes. */
  lemma RelaysIff(j: JoinerState, datagram: Octets, port: nat, iid: Octets, locator: nat)
    requires |datagram| < U16 && port < U16 && locator < U16 && |iid| == IID_LEN
    ensures Relays(j, Some(datagram))
       <==> j.Present? && |EncodeAll(RelayTlvs(datagram, port, iid, locator,
                                               if j.table.needKek then Some(j.table.kek) else None))| <= 1500
  {
    if j.Present? {
      RelayFitsIff(datagram, port, iid, locator, if j.table.needKek then Some(j.table.kek) else None);
    }
  }

  /** How an attempt at the handshake with the border agent ends. */
  datatype HandshakeResult = Success | WantMore | Failure

  function Handshaken(c: Core, ret: HandshakeResult): Core {
    match ret
    case Success => c.(state := Connected)
    case WantMore => c
    case Failure => c.(state := Invalid)
  }

  datatype Input = Quiet | Answer(kind: Kind, payload: Octets, length: nat, time: int)
                 | RelayIn(payload: Octets, length: nat, fails: nat -> bool)

  /** The response in an input, if it is one. */
  function ResponseIn(i: Input): Option<Response> {
    if i.Answer? && Walk(i.payload, 0, i.length, Need(i.kind)).Some? then
      var vs := Walk(i.payload, 0, i.length, Need(i.kind)).value;
      WalkInside(i.kind, i.payload, i.length);
      Some(Response(i.kind, Verdict(i.payload, vs), i.time))
    else None
  }

  function Heard(c: Core, i: Input): Core {
    if ResponseIn(i).Some? then Respond(c, ResponseIn(i).value) else c
  }

  /** The TLVs written one after the other. */
  lemma RelayPrefixes(aBuf: Octets, port: nat, iid: Octets, locator: nat, ts: seq<Tlv>)
    requires |aBuf| < U16 && port < U16 && locator < U16 && |iid| == IID_LEN
    requires ts == RelayTlvs(aBuf, port, iid, locator, None)
    ensures [] + [Tlv(JOINER_DTLS_ENCAPSULATION, aBuf, |aBuf| >= LENGTH_ESCAPE)] == ts[..1]
    ensures ts[..1] + [Tlv(JOINER_UDP_PORT, Word(port), false)] == ts[..2]
    ensures ts[..2] + [Tlv(JOINER_IID, iid, false)] == ts[..3]
    ensures ts[..3] + [Tlv(JOINER_ROUTER_LOCATOR, Word(locator), false)] == ts
  {
  }

  lemma RelayTlvsLast(aBuf: Octets, port: nat, iid: Octets, locator: nat, kek: Option<Octets>)
    requires |aBuf| < U16 && port < U16 && locator < U16 && |iid| == IID_LEN
    requires kek.Some? ==> |kek.value| == KEK_LEN
    ensures RelayTlvs(aBuf, port, iid, locator, kek) == RelayTlvs(aBuf, port, iid, locator, None)
         + if kek.Some? then [Tlv(JOINER_ROUTER_KEK, kek.value, false)] else []
  {
  }

  /** From offset at the walk finds what is left of the views. */
  ghost predicate Ahead(mem: Octets, at: nat, length: nat, fails: nat -> bool, vs: seq<View>, i: nat) {
    i <= |vs| && Relayed(mem, at, length, fails, i) == Some(vs[i..])
  }

  /** What is left of the views leads from one state to another. */
  ghost predicate Leads(sha: Steering.Sha256, list: seq<JoinerInstance>, mem: Octets, vs: seq<View>, r: RelayState,
                        fails: nat -> bool, i: nat, result: RelayState)
  {
    i <= |vs| && AllReadable(mem, vs) && RelayAll(sha, list, mem, vs, r, fails, i) == result
  }

  lemma ReceivedLeads(sha: Steering.Sha256, list: seq<JoinerInstance>, mem: Octets, length: nat, vs: seq<View>,
                      r: RelayState, fails: nat -> bool, result: RelayState)
    requires Relayed(mem, 0, length, fails, 0) == Some(vs) && Received(sha, list, mem, length, r, fails) == result
    ensures Ahead(mem, 0, length, fails, vs, 0) && Leads(sha, list, mem, vs, r, fails, 0, result)
  {
    assert vs[0..] == vs;
  }

  lemma LeadsOn(sha: Steering.Sha256, list: seq<JoinerInstance>, mem: Octets, vs: seq<View>, r: RelayState,
                fails: nat -> bool, i: nat, result: RelayState, r': RelayState, stop: bool)
    requires i < |vs| && Leads(sha, list, mem, vs, r, fails, i, result)
    requires (r', stop) == RelayOne(sha, list, mem, vs[i], r, fails(i))
    ensures if stop then r' == result else Leads(sha, list, mem, vs, r', fails, i + 1, result)
  {
  }

  /** The walk stops after the last TLV. */
  lemma LeadsEnds(sha: Steering.Sha256, list: seq<JoinerInstance>, mem: Octets, length: nat, vs: seq<View>,
                  r: RelayState, fails: nat -> bool, at: nat, i: nat, result: RelayState)
    requires LengthOf(at) >= length && Ahead(mem, at, length, fails, vs, i)
    requires Leads(sha, list, mem, vs, r, fails, i, result)
    ensures r == result
  {
    assert |vs[i..]| == 0;
  }

  /** One turn of the relay walk; it goes on unless a datagram fails. */
  lemma RelayNext(mem: Octets, at: nat, length: nat, fails: nat -> bool, vs: seq<View>, i: nat)
    requires LengthOf(at) < length && Ahead(mem, at, length, fails, vs, i)
    ensures i < |vs| && HeaderIn(mem, at) && vs[i] == ViewAt(mem, at) && Readable(mem, vs[i])
    ensures !Stops(vs[i], fails(i)) ==> Ahead(mem, GetNext(mem, at), length, fails, vs, i + 1)
  {
    assert |vs[i..]| > 0;
    assert vs[i] == vs[i..][0] && vs[i + 1..] == vs[i..][1..];
    if !Stops(ViewAt(mem, at), fails(i)) {
      assert vs[i..] == [ViewAt(mem, at)] + Relayed(mem, GetNext(mem, at), length, fails, i + 1).value;
    }
  }

  /** Every view of the walk lies inside memory as far as the walker reads. */
  ghost predicate Inside(kind: Kind, mem: Octets, vs: seq<View>) {
    forall i | 0 <= i < |vs| ::
      vs[i].start < |mem|
      && (vs[i].kind == COMMISSIONER_SESSION_ID && !kind.KeepAliveAnswer? ==> vs[i].start + 2 <= |mem|)
  }

  lemma WalkInside(kind: Kind, mem: Octets, length: nat)
    requires Walk(mem, 0, length, Need(kind)).Some?
    ensures Inside(kind, mem, Walk(mem, 0, length, Need(kind)).value)
  {
    var vs := Walk(mem, 0, length, Need(kind)).value;
    forall i | 0 <= i < |vs|
      ensures vs[i].start + Need(kind)(vs[i].kind, vs[i].length) <= |mem|
    {
      WalkReads(mem, 0, length, Need(kind), i);
    }
  }

  /** One turn of a walk. */
  lemma WalkTurn(kind: Kind, mem: Octets, at: nat, length: nat, vs: seq<View>, i: nat)
    requires LengthOf(at) < length && i <= |vs| && Walk(mem, at, length, Need(kind)) == Some(vs[i..])
    ensures i < |vs| && HeaderIn(mem, at) && vs[i] == ViewAt(mem, at) && vs[i].start < |mem|
    ensures vs[i].kind == COMMISSIONER_SESSION_ID && !kind.KeepAliveAnswer? ==> vs[i].start + 2 <= |mem|
    ensures Walk(mem, GetNext(mem, at), length, Need(kind)) == Some(vs[i + 1..])
    ensures vs[..i + 1][..i] == vs[..i] && vs[..i + 1] == vs[..i] + [vs[i]]
  {
    var rest := Walk(mem, GetNext(mem, at), length, Need(kind));
    assert vs[i..] == [ViewAt(mem, at)] + rest.value;
    assert |vs[i..]| > 0;
    assert vs[i] == vs[i..][0] && vs[i + 1..] == vs[i..][1..];
  }

  // The messages as bytes.

  lemma PetitionBytes()
    ensures EncodeAll(PetitionTlvs()) == [10, 11, 79, 112, 101, 110, 84, 104, 114, 101, 97, 100, 0]
  {
    EncodeCons(PetitionTlvs()[0], []);
    assert PetitionTlvs() == [PetitionTlvs()[0]] + [];
  }

  /** What a response sends, by the first byte of its last state TLV: one more petition if that is 255 and fewer than
      two retries have been made, and otherwise nothing. */
  lemma StateByteSends(w: Traffic, c: Core, kind: Kind, mem: Octets, length: nat, vs: seq<View>, i: nat, now: int)
    requires Walk(mem, 0, length, Need(kind)) == Some(vs) && LastState(vs, i)
    ensures forall k | 0 <= k < |vs| :: vs[k].start < |mem|
    ensures AfterResponse(w, c, kind, mem, length, Response(kind, Verdict(mem, vs), now)).sent
      == w.sent + if mem[vs[i].start] == 255 && c.retries < 2
                  then [PetitionRequest([10, 11, 79, 112, 101, 110, 84, 104, 114, 101, 97, 100, 0])] else []
  {
    WalkInside(kind, mem, length);
    VerdictAt(mem, vs, i);
    PetitionBytes();
  }

  lemma SetBytes(sessionId: nat, steering: Octets)
    requires sessionId < U16 && |steering| <= Steering.MAX_SIZE
    ensures EncodeAll(SetTlvs(sessionId, steering))
         == [11, 2, (sessionId / 256) as Byte, (sessionId % 256) as Byte, 8, |steering| as Byte] + steering
  {
    var ts := SetTlvs(sessionId, steering);
    EncodeTwo(ts[0], ts[1]);
    assert ts == [ts[0], ts[1]];
  }

  lemma EncodeTwo(a: Tlv, b: Tlv)
    requires Wellformed(a) && Wellformed(b)
    ensures EncodeAll([a, b]) == Encode(a) + Encode(b)
  {
    EncodeCons(b, []);
    EncodeCons(a, [b]);
    assert [a] + [b] == [a, b] && [b] + [] == [b];
  }

  lemma KeepAliveBytes(sessionId: nat)
    requires sessionId < U16
    ensures EncodeAll(KeepAliveTlvs(sessionId))
         == [16, 1, 1, 11, 2, (sessionId / 256) as Byte, (sessionId % 256) as Byte]
  {
    var ts := KeepAliveTlvs(sessionId);
    EncodeTwo(ts[0], ts[1]);
    assert ts == [ts[0], ts[1]];
  }

  lemma FinalizeBytes()
    ensures EncodeAll(Dtls.FinalizeTlvs()) == [16, 1, 1, 48, 6, 116, 101, 115, 116, 13, 10]
  {
    var ts := Dtls.FinalizeTlvs();
    EncodeTwo(ts[0], ts[1]);
    assert ts == [ts[0], ts[1]];
  }

  /** Whoever walks a message that starts with the state TLV [16, 1, 1] and holds no other reads that it accepts. */
  lemma {:induction false} ReadsAccepted(ts: seq<Tlv>, post: Octets)
    requires |ts| == 2 && AllWellformed(ts) && |EncodeAll(ts)| < U16 && ts[0] == Tlv(16, [1], false)
    requires ts[1].kind != 16 && |ts[1].value| >= 2
    ensures var mem := EncodeAll(ts) + post;
      var vs := Walk(mem, 0, |EncodeAll(ts)|, Need(KeepAliveAnswer));
      && vs.Some? && (forall k | 0 <= k < |vs.value| :: vs.value[k].start < |mem|)
      && Verdict(mem, vs.value) == Some(Accepted)
  {
    var mem := EncodeAll(ts) + post;
    assert Modest(Need(KeepAliveAnswer), ts);
    TlvRoundTrip(ts, post, Need(KeepAliveAnswer));
    var vs := Walk(mem, 0, |EncodeAll(ts)|, Need(KeepAliveAnswer)).value;
    WalkInside(KeepAliveAnswer, mem, |EncodeAll(ts)|);
    assert Tlvs.Value(mem, vs[0])[0] == 1 && Tlvs.Value(mem, vs[0])[0] == mem[vs[0].start];
    VerdictAt(mem, vs, 0);
  }

  /** The keep-alive and the answer to a finalize request say that the state is accepted. */
  lemma {:induction false} AcceptanceIsRead(sessionId: nat, post: Octets)
    requires sessionId < U16
    ensures forall ts | ts == KeepAliveTlvs(sessionId) || ts == Dtls.FinalizeTlvs() ::
      var mem := EncodeAll(ts) + post;
      var vs := Walk(mem, 0, |EncodeAll(ts)|, Need(KeepAliveAnswer));
      && vs.Some? && (forall k | 0 <= k < |vs.value| :: vs.value[k].start < |mem|)
      && Verdict(mem, vs.value) == Some(Accepted)
  {
    KeepAliveBytes(sessionId);
    FinalizeBytes();
    ReadsAccepted(KeepAliveTlvs(sessionId), post);
    ReadsAccepted(Dtls.FinalizeTlvs(), post);
  }
}
