/** The joiner session, its DTLS server and the server's sessions, which call back into the joiner session. */
module Dtls {
  import opened Bytes
  import opened Psk
  import opened Sessions
  import Tlvs

  const LONG_LIMIT := 0x8000_0000_0000_0000

  /** A difference of two unsigned 64-bit numbers read as a signed one. */
  function AsLong(d: int): int {
    var u := d % (2 * LONG_LIMIT);
    if u >= LONG_LIMIT then u - 2 * LONG_LIMIT else u
  }

  const FINALIZE_SIZE := 50

  /** "test", carriage return and line feed. */
  const TEXT: Octets := [116, 101, 115, 116, 13, 10]

  function FinalizeTlvs(): (ts: seq<Tlvs.Tlv>)
    ensures Tlvs.AllWellformed(ts)
  {
    [Tlvs.Tlv(Tlvs.STATE, [1], false), Tlvs.Tlv(Tlvs.UDP_ENCAPSULATION, TEXT, false)]
  }

  /** What waits on the server socket. */
  datatype Packet = Bad | SetupFails(garbage: Phase) | Opens(garbageKek: Key, first: Outcome)

  /** What one pass finds: the readable sockets, the library's answers for the session at each place, and what
      waits on the server socket, with the socket that replaces it after an error. */
  datatype Arrival = Arrival(readable: set<int>, outcomes: nat -> Outcome, packet: Packet, reboundSocket: int)

  function PacketSteps(socket: int, readable: set<int>, p: Packet): seq<Step> {
    if socket < 0 || socket !in readable then []
    else
      match p
      case Bad => []
      case SetupFails(garbage) => [AcceptFailStep(garbage)]
      case Opens(garbageKek, first) => [AcceptStep(socket, garbageKek, first)]
  }

  /** What the event loop hands around: sockets to read from, the largest of them, and a timeout. */
  datatype Wait = Wait(fds: set<int>, maxFd: int, tvSec: nat, tvUsec: nat)

  function WatchOf(x: Wait): Watch {
    Watch(x.fds, x.maxFd, x.tvSec * 1000 + x.tvUsec / 1000)
  }

  function WaitOf(w: Watch): Wait {
    Wait(w.fds, w.maxFd, w.timeout / 1000, w.timeout % 1000 * 1000)
  }

  /** What is left to wait for: what was, the survivors of the sweep, and the server socket if there is one. */
  function Waiting(ss: seq<Session>, now: nat, socket: int, x: Wait): Wait {
    var w := Watching(ss, now, WatchOf(x));
    WaitOf(if socket >= 0 then WithFd(w, socket) else w)
  }

  /** In microseconds, what is left to wait for is the least of what was given, cut to milliseconds, and every
      survivor's time to expiry. */
  lemma WaitIsLeast(ss: seq<Session>, now: nat, socket: int, x: Wait)
    ensures var w := Waiting(ss, now, socket, x);
      var (t, given) := (w.tvSec * 1000000 + w.tvUsec, 1000 * (x.tvSec * 1000 + x.tvUsec / 1000));
      && w.tvUsec < 1000000
      && t <= given
      && (forall s | s in Survivors(ss, now) :: t <= 1000 * (s.expiration - now))
      && (t == given || exists s :: s in Survivors(ss, now) && t == 1000 * (s.expiration - now))
  {
    TimeoutIsLeast(ss, now, WatchOf(x));
    Microseconds(Watching(ss, now, WatchOf(x)).timeout);
  }

  /** What is waited for: what was, the survivors' sockets and the server socket if there is one, with the largest. */
  lemma WaitsOn(ss: seq<Session>, now: nat, socket: int, x: Wait)
    requires forall fd | fd in x.fds :: fd <= x.maxFd
    ensures var w := Waiting(ss, now, socket, x);
      && w.fds == x.fds + (set s | s in Survivors(ss, now) :: s.fd) + (if socket >= 0 then {socket} else {})
      && (forall fd | fd in w.fds :: fd <= w.maxFd)
      && (w.maxFd == x.maxFd || w.maxFd in w.fds)
  {
    SocketsAreSurvivors(ss, now, WatchOf(x));
  }

  lemma Microseconds(ms: nat)
    ensures ms / 1000 * 1000000 + ms % 1000 * 1000 == 1000 * ms && ms % 1000 * 1000 < 1000000
  {
  }

  /** The steps of one pass: every session with a readable socket in turn, then the server socket. */
  function ArrivalSteps(t: Table, socket: int, a: Arrival): seq<Step> {
    LoopSteps(t, |t.sessions|, a.readable, a.outcomes) + PacketSteps(socket, a.readable, a.packet)
  }

  function SocketAfter(socket: int, a: Arrival): int {
    if socket >= 0 && socket in a.readable && (a.packet.Bad? || a.packet.SetupFails?) then a.reboundSocket else socket
  }

  /** The pass works on no destroyed session. Accepting never does. */
  predicate ArrivalDefined(t: Table, a: Arrival) {
    LoopDefined(t, |t.sessions|, a.readable, a.outcomes)
  }

  /** No expiration and no deadline reaches the limit of the millisecond counter. */
  predicate SweepDefined(t: Table, now: nat, x: Wait) {
    now + WatchOf(x).timeout < LONG_LIMIT && AllBelow(t.sessions, LONG_LIMIT)
  }

  /** The sessions in turn and then the server socket make the whole pass. */
  lemma ArrivalOn(t: Table, u: Table, v: Table, socket: int, a: Arrival)
    requires LoopedTo(t, |t.sessions|, a.readable, a.outcomes, u)
    requires v == Steps(u, PacketSteps(socket, a.readable, a.packet))
    ensures v == Steps(t, ArrivalSteps(t, socket, a))
  {
    LoopedSteps(t, |t.sessions|, a.readable, a.outcomes);
    StepsConcat(t, LoopSteps(t, |t.sessions|, a.readable, a.outcomes), PacketSteps(socket, a.readable, a.packet));
  }

  class MbedtlsSession {
    const mServer: MbedtlsServer
    const id: nat
    var mState: Phase
    var mExpiration: nat
    var mFd: int
    var mKek: Key

    function Record(): Session
      reads this
    {
      Session(id, mState, mExpiration, mFd, mKek)
    }

    constructor (server: MbedtlsServer, id: nat, fd: int, garbageState: Phase, garbageKek: Key)
      ensures mServer == server && Record() == Session(id, garbageState, 0, fd, garbageKek)
    {
      mServer := server;
      this.id := id;
      mState := garbageState;
      mExpiration := 0;
      mFd := fd;
      mKek := garbageKek;
    }

    /** This session stands at a place of its server's table, and the table is in order. */
    ghost predicate At(i: nat)
      reads this, mServer, mServer.mContext
    {
      && mServer.mContext.mDtlsServer == mServer
      && mServer.mContext.Valid()
      && i < |mServer.mSessions|
      && mServer.mSessions[i] == this
    }

    method SetState(aState: Phase, ghost i: nat)
      requires At(i)
      modifies this`mState, mServer.mContext`mDtlsSession, mServer.mContext`mKek
      ensures At(i) && mServer.mContext.View() == SetPhase(old(mServer.mContext.View()), i, aState)
    {
      ghost var before := mServer.mContext.View();
      mState := aState;
      OneChanged(mServer.mSessions, i, before.sessions);
      mServer.mContext.HandleSessionChange(this, aState);
      assert mServer.mContext.View().sessions == before.sessions[i := before.sessions[i].(phase := aState)];
    }

    method Write(fails: bool, ghost i: nat) returns (ret: int)
      requires At(i)
      modifies this`mState, mServer.mContext`mDtlsSession, mServer.mContext`mKek
      ensures At(i) && (ret < 0 <==> fails)
      ensures mServer.mContext.View()
           == if fails then SetPhase(old(mServer.mContext.View()), i, Failed) else old(mServer.mContext.View())
    {
      ret := if fails then -1 else 0;
      if ret < 0 {
        SetState(Failed, i);
      }
    }

    /** The library exports a key while it works on the handshake of some session of this server. */
    method ExportKeys(key: Option<Key>, ghost i: nat)
      requires At(i) && (key.Some? ==> Aimed(mServer.mContext.View()))
      modifies mServer.mExportTarget
      ensures At(i) && mServer.mContext.View() == Export(old(mServer.mContext.View()), key)
    {
      var target := mServer.mExportTarget;
      if target != null && key.Some? {
        ghost var before := Records(mServer.mSessions);
        ghost var k := Index(before, target.id);
        ghost var j :| 0 <= j < |IdsOf(before)| && IdsOf(before)[j] == target.id;
        assert before[j].id == target.id;
        target.mKek := key.value;
        OneChanged(mServer.mSessions, k, before);
      }
    }

    method Handshake(o: Outcome, ghost i: nat)
      requires At(i) && mState.Handshaking? && (o.key.Some? ==> Aimed(mServer.mContext.View()))
      modifies this, mServer.mContext, mServer.mExportTarget
      ensures At(i) && mServer.mContext.View() == ProcessHandshake(old(mServer.mContext.View()), i, o)
    {
      ExportKeys(o.key, i);
      match o.handshake {
        case Done =>
          SetState(Ready, i);
        case Pending =>
        case Refused =>
          ghost var before := mServer.mContext.View();
          mState := Failed;
          OneChanged(mServer.mSessions, i, before.sessions);
      }
    }

    method Read(r: ReadResult, ghost i: nat)
      requires At(i) && mState.Ready? && (r.Data? && r.answers ==> Anchored(mServer.mContext.View()))
      modifies mServer.mSessions, mServer.mContext
      ensures At(i) && mServer.mContext.View() == Sessions.Read(old(mServer.mContext.View()), i, r)
    {
      match r {
        case Data(finalizes, answers, answerFails) =>
          mServer.mContext.FeedCoap(finalizes, answers, answerFails);
        case Eof =>
          SetState(Closed, i);
        case Reconnect =>
          SetState(Handshaking, i);
        case Timeout =>
        case Broken =>
          SetState(Failed, i);
      }
    }

    method Renew(o: Outcome, ghost i: nat)
      requires At(i)
      modifies this`mExpiration, this`mFd
      ensures At(i)
      ensures mServer.mContext.View()
           == Put(old(mServer.mContext.View()), i, Renewed(old(mServer.mContext.View()).sessions[i], o))
    {
      ghost var before := mServer.mContext.View();
      mExpiration := o.now + SESSION_TIMEOUT;
      if mState.Handshaking? {
        mFd := o.fd;
      }
      OneChanged(mServer.mSessions, i, before.sessions);
    }

    method Process(o: Outcome, ghost i: nat)
      requires At(i) && Defined(mServer.mContext.View(), ProcessStep(i, o))
      modifies mServer.mSessions, mServer.mContext, mServer.mExportTarget
      ensures At(i) && mServer.mContext.View() == Sessions.Process(old(mServer.mContext.View()), i, o)
    {
      ghost var before := mServer.mContext.View();
      Renew(o, i);
      PutKeeps(before, i, Renewed(before.sessions[i], o));
      assert mState == before.sessions[i].phase;
      match mState {
        case Handshaking =>
          Handshake(o, i);
        case Ready =>
          Read(o.read, i);
        case _ =>
      }
    }

    /** Close on a session whose setup failed: its state was never written. */
    method CloseUnlisted()
      requires mServer.Valid() && this !in mServer.mSessions && mServer.mContext.mDtlsSession != this
      modifies this`mState, mServer.mContext`mDtlsSession, mServer.mContext`mKek
      ensures mServer.Valid()
      ensures mServer.mContext.View()
           == if Over(old(mState)) then old(mServer.mContext.View())
              else Notify(old(mServer.mContext.View()), id, old(mServer.mContext.mKek), Ended)
    {
      if !Over(mState) {
        mState := Ended;
        assert mServer.mContext.View() == old(mServer.mContext.View());
        mServer.mContext.HandleSessionChange(this, Ended);
      }
    }

    /** The destructor's Close. */
    method Close(ghost i: nat)
      requires At(i)
      modifies this`mState, mServer.mContext`mDtlsSession, mServer.mContext`mKek
      ensures At(i) && mServer.mContext.View() == Closing(old(mServer.mContext.View()), i)
    {
      assert mServer.mContext.View().sessions[i] == Record();
      if !Over(mState) {
        SetState(Ended, i);
      }
    }
  }

  lemma RecordsDrop(ss: seq<MbedtlsSession>, i: nat)
    requires i < |ss|
    ensures Records(ss[..i] + ss[i + 1..]) == Records(ss)[..i] + Records(ss)[i + 1..]
  {
    var a, b := Records(ss[..i] + ss[i + 1..]), Records(ss)[..i] + Records(ss)[i + 1..];
    assert |a| == |b| && forall j | 0 <= j < |a| :: a[j] == b[j];
  }

  /** When all other sessions read as before, the table changed at one place. */
  lemma OneChanged(ss: seq<MbedtlsSession>, i: nat, before: seq<Session>)
    requires i < |ss| == |before|
    requires forall j | 0 <= j < |ss| && j != i :: ss[j].Record() == before[j]
    ensures Records(ss) == before[i := ss[i].Record()]
  {
  }

  class MbedtlsServer {
    const mContext: JoinerSession
    var mSessions: seq<MbedtlsSession>
    var mSocket: int
    var mPSK: string
    var mExportTarget: MbedtlsSession?
    var mNextId: nat

    /** The socket is what binding it gave. */
    constructor (context: JoinerSession, psk: string, socket: int)
      ensures mSocket == socket && mPSK == Replaced("", psk)
      ensures mContext == context && mSessions == [] && mExportTarget == null && mNextId == 0
    {
      mContext := context;
      mSessions := [];
      mSocket := socket;
      mPSK := Replaced("", psk);
      mExportTarget := null;
      mNextId := 0;
    }

    ghost predicate Valid()
      reads this, mContext
    {
      mContext.mDtlsServer == this && mContext.Valid()
    }

    /** The objects of the table. */
    ghost function Listed(): set<object>
      reads this
    {
      ObjectsOf(mSessions, mExportTarget)
    }

    /** Put a new session, set up without error, into the table; exported keys now go to it. */
    method Enlist(garbageKek: Key) returns (session: MbedtlsSession)
      requires Valid()
      modifies this
      ensures Valid() && fresh(session) && session.mServer == this && session.At(old(|mSessions|))
      ensures mSessions == old(mSessions) + [session] && mExportTarget == session
      ensures mSocket == old(mSocket) && mPSK == old(mPSK)
      ensures mContext.View() == Enlisted(old(mContext.View()), mSocket, garbageKek)
    {
      session := new MbedtlsSession(this, mNextId, mSocket, Handshaking, garbageKek);
      ghost var before := Records(mSessions);
      mNextId := mNextId + 1;
      mSessions := mSessions + [session];
      mExportTarget := session;
      assert mSessions[..|mSessions| - 1] == old(mSessions);
      assert Records(mSessions) == before + [session.Record()];
    }

    method RefuseSession(garbage: Phase)
      requires Valid()
      modifies this`mNextId, mContext`mDtlsSession, mContext`mKek
      ensures Valid()
      ensures mContext.View() == Steps(old(mContext.View()), [AcceptFailStep(garbage)])
    {
      ghost var t := mContext.View();
      var session := new MbedtlsSession(this, mNextId, mSocket, garbage, Zeros(KEK_SIZE));
      mNextId := mNextId + 1;
      assert mContext.View() == t.(nextId := t.nextId + 1);
      session.CloseUnlisted();
      AcceptFailsAlone(t, garbage);
    }

    method OpenSession(garbageKek: Key, first: Outcome)
      requires Valid()
      modifies this, mContext, mSessions, mExportTarget
      ensures Valid() && mSocket == old(mSocket) && mPSK == old(mPSK)
      ensures forall o :: o in Listed() ==> o in old(Listed()) || fresh(o)
      ensures mContext.View() == Steps(old(mContext.View()), [AcceptStep(mSocket, garbageKek, first)])
    {
      ghost var t := mContext.View();
      var session := Enlist(garbageKek);
      EnlistedAimed(t, mSocket, garbageKek);
      session.Process(first, |t.sessions|);
      StepAlone(t, AcceptStep(mSocket, garbageKek, first));
    }

    /** Accept a session when the server socket is readable. */
    method ProcessServer(readable: set<int>, packet: Packet, reboundSocket: int)
      requires Valid()
      modifies this, mContext, mSessions, mExportTarget
      ensures Valid() && mPSK == old(mPSK) && forall o :: o in Listed() ==> o in old(Listed()) || fresh(o)
      ensures mContext.View() == Steps(old(mContext.View()), PacketSteps(old(mSocket), readable, packet))
      ensures mSocket == if old(mSocket) >= 0 && old(mSocket) in readable && (packet.Bad? || packet.SetupFails?)
                         then reboundSocket else old(mSocket)
    {
      if mSocket >= 0 && mSocket in readable {
        match packet {
          case Bad =>
            mSocket := reboundSocket;
          case SetupFails(garbage) =>
            RefuseSession(garbage);
            mSocket := reboundSocket;
          case Opens(garbageKek, first) =>
            OpenSession(garbageKek, first);
        }
      }
    }

    /** One turn of the loop over the sessions. */
    method ProcessOne(it: nat, readable: set<int>, outcome: Outcome)
      requires Valid() && it < |mSessions|
      requires mSessions[it].mFd in readable ==> Defined(mContext.View(), ProcessStep(it, outcome))
      modifies mContext, mSessions, mExportTarget
      ensures Valid() && mContext.View() == Visit(old(mContext.View()), it, readable, outcome)
    {
      var session := mSessions[it];
      if session.mFd in readable {
        session.Process(outcome, it);
      }
    }

    /** What processing the sessions may change is in this set. */
    ghost predicate Touches(touched: set<object>)
      reads this
    {
      && this !in touched
      && mContext in touched
      && (forall i | 0 <= i < |mSessions| :: mSessions[i] in touched)
      && (mExportTarget != null ==> mExportTarget in touched)
    }

    /** One turn, seen from where the loop started. */
    method ProcessNext(ghost t: Table, ghost n: nat, it: nat, readable: set<int>, outcomes: nat -> Outcome,
                       ghost u: Table, ghost touched: set<object>)
      returns (ghost v: Table)
      requires Valid() && it < |mSessions| == n && Touches(touched) && mContext.View() == u
      requires LoopedTo(t, it, readable, outcomes, u) && LoopDefined(t, n, readable, outcomes)
      modifies touched
      ensures Valid() && mContext.View() == v
      ensures LoopedTo(t, it + 1, readable, outcomes, v)
    {
      TurnDefined(t, n, it, readable, outcomes, u);
      ProcessOne(it, readable, outcomes(it));
      v := mContext.View();
      LoopedOn(t, it, readable, outcomes, u, v);
    }

    /** The loop over the sessions. */
    method ProcessSessions(ghost t: Table, ghost n: nat, readable: set<int>, outcomes: nat -> Outcome,
                           ghost touched: set<object>)
      returns (ghost u: Table)
      requires Valid() && |mSessions| == n && Touches(touched) && mContext.View() == t
      requires LoopDefined(t, n, readable, outcomes)
      modifies touched
      ensures Valid() && mContext.View() == u && LoopedTo(t, n, readable, outcomes, u)
    {
      LoopedStarts(t, readable, outcomes);
      var it: nat := 0;
      u := t;
      while it < |mSessions|
        invariant it <= n && Valid() && mContext.View() == u
        invariant LoopedTo(t, it, readable, outcomes, u)
      {
        u := ProcessNext(t, n, it, readable, outcomes, u, touched);
        it := it + 1;
      }
    }

    /** The loop changes the sessions, the session keys are exported to, and the joiner session. */
    method ProcessListed(readable: set<int>, outcomes: nat -> Outcome)
      requires Valid() && LoopDefined(mContext.View(), |mSessions|, readable, outcomes)
      modifies mContext, mSessions, mExportTarget
      ensures Valid()
      ensures LoopedTo(old(mContext.View()), |mSessions|, readable, outcomes, mContext.View())
    {
      ghost var u := ProcessSessions(mContext.View(), |mSessions|, readable, outcomes, {mContext} + Listed());
    }

    /** Delete the session at a place and take it out of the vector. */
    method Erase(it: nat)
      requires Valid() && it < |mSessions|
      modifies this`mSessions, mSessions, mContext`mDtlsSession, mContext`mKek
      ensures Valid() && mSessions == old(mSessions[..it] + mSessions[it + 1..])
      ensures mContext.View() == Erased(old(mContext.View()), it)
    {
      ghost var t := mContext.View();
      mSessions[it].Close(it);
      ClosedThenOut(t, it);
      RecordsDrop(mSessions, it);
      mSessions := mSessions[..it] + mSessions[it + 1..];
    }

    ghost predicate Within(listed: set<MbedtlsSession>)
      reads this
    {
      forall i | 0 <= i < |mSessions| :: mSessions[i] in listed
    }

    /** One turn of the sweep. */
    method SweepSession(it: nat, now: nat, w: Watch, ghost listed: set<MbedtlsSession>)
      returns (alive: bool, w': Watch)
      requires Valid() && it < |mSessions| && Within(listed)
      requires now + w.timeout < LONG_LIMIT && mContext.View().sessions[it].expiration < LONG_LIMIT
      modifies this`mSessions, listed, mContext`mDtlsSession, mContext`mKek
      ensures Valid() && Within(listed)
      ensures var t := old(mContext.View());
        && alive == Alive(t.sessions[it], now)
        && mContext.View() == (if alive then t else Erased(t, it))
        && w' == Absorb(w, t.sessions[it], now)
    {
      var session := mSessions[it];
      assert session.Record() == mContext.View().sessions[it];
      alive, w' := false, w;
      if session.mExpiration <= now {
        mContext.HandleSessionChange(session, Expired);
        Erase(it);
      } else if session.mState == Ready || session.mState == Handshaking {
        alive := true;
        w' := w.(fds := w.fds + {session.mFd});
        if w.maxFd < session.mFd {
          w' := w'.(maxFd := session.mFd);
        }
        if AsLong(session.mExpiration - (now + w.timeout)) < 0 {
          w' := w'.(timeout := session.mExpiration - now);
        }
      } else {
        Erase(it);
      }
    }

    /** The loop of UpdateFdSet. */
    method SweepSessions(now: nat, given: Watch) returns (w: Watch, ghost destroyed: seq<nat>)
      requires Valid() && now + given.timeout < LONG_LIMIT
      requires AllBelow(mContext.View().sessions, LONG_LIMIT)
      modifies this`mSessions, mSessions, mContext`mDtlsSession, mContext`mKek
      ensures Valid() && mContext.View() == Sweep(old(mContext.View()), now) && Listed() <= old(Listed())
      ensures w == Watching(old(mContext.View()).sessions, now, given)
      ensures destroyed == Destroyed(old(mContext.View()).sessions, now)
    {
      ghost var t := mContext.View();
      ghost var k, u := 0, t;
      ghost var listed := set s | s in mSessions;
      w, destroyed := given, [];
      var it := 0;
      SweptStarts(t, now, given);
      while it < |mSessions|
        invariant 0 <= it && Swept(t, now, given, k, u, it, w, destroyed)
        invariant Valid() && mContext.View() == u && Within(listed)
        decreases |t.sessions| - k
      {
        ghost var k0, u0, it0, w0, destroyed0 := k, u, it, w, destroyed;
        SweptTurn(t, now, given, k, u, it, w, destroyed);
        var alive;
        alive, w := SweepSession(it, now, w, listed);
        if alive {
          it := it + 1;
        } else {
          destroyed := destroyed + [u.sessions[it].id];
          u := Erased(u, it);
        }
        k := k + 1;
        SweptOn(t, now, given, k0, u0, it0, w0, destroyed0, k, u, it, w, destroyed);
      }
      SweptEnds(t, now, given, k, u, it, w, destroyed);
    }

    /** Sweep the table and say which sockets to wait for and how long, in seconds and microseconds. */
    method UpdateFdSet(now: nat, x: Wait) returns (x': Wait)
      requires Valid() && SweepDefined(mContext.View(), now, x)
      modifies this`mSessions, mSessions, mContext`mDtlsSession, mContext`mKek
      ensures Valid() && mContext.View() == Sweep(old(mContext.View()), now) && Listed() <= old(Listed())
      ensures x' == Waiting(old(mContext.View()).sessions, now, mSocket, x)
    {
      var w, destroyed := SweepSessions(now, Watch(x.fds, x.maxFd, x.tvSec * 1000 + x.tvUsec / 1000));
      if mSocket >= 0 {
        w := w.(fds := w.fds + {mSocket});
        if w.maxFd < mSocket {
          w := w.(maxFd := mSocket);
        }
      }
      x' := Wait(w.fds, w.maxFd, w.timeout / 1000, w.timeout % 1000 * 1000);
    }

    /** The sessions first, then the server socket. */
    method Process(a: Arrival)
      requires Valid() && ArrivalDefined(mContext.View(), a)
      modifies this, mContext, mSessions, mExportTarget
      ensures Valid() && mPSK == old(mPSK) && forall o :: o in Listed() ==> o in old(Listed()) || fresh(o)
      ensures mContext.View() == Steps(old(mContext.View()), ArrivalSteps(old(mContext.View()), old(mSocket), a))
      ensures mSocket == SocketAfter(old(mSocket), a)
    {
      ghost var t := mContext.View();
      ProcessListed(a.readable, a.outcomes);
      ghost var u := mContext.View();
      ProcessServer(a.readable, a.packet, a.reboundSocket);
      ArrivalOn(t, u, mContext.View(), old(mSocket), a);
    }
  }

  function Records(ss: seq<MbedtlsSession>): (r: seq<Session>)
    reads ss
    ensures |r| == |ss| && forall i {:trigger r[i]} | 0 <= i < |ss| :: r[i] == ss[i].Record()
  {
    seq(|ss|, i requires 0 <= i < |ss| reads ss => ss[i].Record())
  }

  ghost function ObjectsOf(ss: seq<MbedtlsSession>, target: MbedtlsSession?): set<object> {
    (set s: MbedtlsSession | s in ss) + if target == null then {} else {target}
  }

  /** The table knows a session with this id only as this object. */
  ghost predicate Same(ss: seq<MbedtlsSession>, p: MbedtlsSession?, next: nat) {
    p != null ==> p.id < next && forall i | 0 <= i < |ss| :: ss[i].id == p.id ==> ss[i] == p
  }

  function IdOf(p: MbedtlsSession?): Option<nat> {
    if p == null then None else Some(p.id)
  }

  class JoinerSession {
    var mDtlsServer: MbedtlsServer?
    var mDtlsSession: MbedtlsSession?
    var mKek: Key
    var mNeedAppendKek: bool

    ghost predicate Valid()
      reads this, mDtlsServer
    {
      && mDtlsServer != null
      && mDtlsServer.mContext == this
      && var ss := mDtlsServer.mSessions;
      && (forall i | 0 <= i < |ss| :: ss[i].mServer == mDtlsServer && ss[i].id < mDtlsServer.mNextId)
      && (forall i, j | 0 <= i < j < |ss| :: ss[i].id != ss[j].id)
      && Same(ss, mDtlsSession, mDtlsServer.mNextId)
      && Same(ss, mDtlsServer.mExportTarget, mDtlsServer.mNextId)
    }

    function View(): Table
      requires mDtlsServer != null
      reads this, mDtlsServer, if mDtlsServer != null then mDtlsServer.mSessions else []
    {
      Table(Records(mDtlsServer.mSessions), IdOf(mDtlsSession), IdOf(mDtlsServer.mExportTarget),
            mKek, mNeedAppendKek, mDtlsServer.mNextId)
    }

    constructor (psk: string, socket: int)
      requires CutLength(psk) > 0
      ensures Valid() && fresh(mDtlsServer) && View() == EMPTY
      ensures mDtlsServer.mPSK == Replaced("", psk) && mDtlsServer.mSocket == socket && mDtlsServer.Listed() == {}
    {
      mDtlsServer := null;
      mDtlsSession := null;
      mKek := Zeros(KEK_SIZE);
      mNeedAppendKek := false;
      new;
      mDtlsServer := new MbedtlsServer(this, psk, socket);
    }

    /** All objects that the joiner session and its server may change. */
    ghost function Objects(): set<object>
      reads this, mDtlsServer
    {
      var server: set<object> := if mDtlsServer == null then {} else {mDtlsServer};
      {this} + server + if mDtlsServer == null then {} else mDtlsServer.Listed()
    }

    method Process(a: Arrival)
      requires Valid() && ArrivalDefined(View(), a)
      modifies Objects()
      ensures Valid() && mDtlsServer == old(mDtlsServer) && fresh(Objects() - old(Objects()))
      ensures mDtlsServer.mSocket == SocketAfter(old(mDtlsServer.mSocket), a)
      ensures mDtlsServer.mPSK == old(mDtlsServer.mPSK)
      ensures View() == Steps(old(View()), ArrivalSteps(old(View()), old(mDtlsServer.mSocket), a))
    {
      mDtlsServer.Process(a);
    }

    method UpdateFdSet(now: nat, x: Wait) returns (x': Wait)
      requires Valid() && SweepDefined(View(), now, x)
      modifies Objects()
      ensures Valid() && mDtlsServer == old(mDtlsServer) && Objects() <= old(Objects())
      ensures mDtlsServer.mSocket == old(mDtlsServer.mSocket) && mDtlsServer.mPSK == old(mDtlsServer.mPSK)
      ensures View() == Sweep(old(View()), now)
      ensures x' == Waiting(old(View()).sessions, now, old(mDtlsServer.mSocket), x)
    {
      x' := mDtlsServer.UpdateFdSet(now, x);
    }

    method HandleSessionChange(aSession: MbedtlsSession, aState: Phase)
      requires Valid() && (aState.Ready? ==> aSession in mDtlsServer.mSessions)
      modifies this`mDtlsSession, this`mKek
      ensures Valid() && View() == Notify(old(View()), aSession.id, aSession.mKek, aState)
    {
      match aState {
        case Ready =>
          mKek := aSession.mKek;
          mDtlsSession := aSession;
        case Failed | Ended =>
          mDtlsSession := null;
        case _ =>
      }
    }

    /** Send through the current session; there must be no destroyed one in its place. */
    method SendCoap(fails: bool) returns (ret: int)
      requires Valid() && Anchored(View())
      modifies mDtlsServer.mSessions, this
      ensures Valid() && mDtlsServer == old(mDtlsServer) && View() == Send(old(View()), fails)
      ensures mNeedAppendKek == old(mNeedAppendKek) && (ret < 0 <==> old(mDtlsSession) == null || fails)
    {
      if mDtlsSession != null {
        ghost var ss := View().sessions;
        ghost var i := Index(ss, mDtlsSession.id);
        ghost var k :| 0 <= k < |IdsOf(ss)| && IdsOf(ss)[k] == mDtlsSession.id;
        assert ss[k].id == mDtlsSession.id;
        assert mDtlsServer.mSessions[i] == mDtlsSession;
        ret := mDtlsSession.Write(fails, i);
      } else {
        ret := -1;
      }
    }

    /** The answer accepts the joiner and carries a fixed text. */
    method HandleJoinerFinalize() returns (payload: Octets)
      requires Valid()
      modifies this`mNeedAppendKek
      ensures Valid() && View() == old(View()).(needKek := true) && payload == Tlvs.EncodeAll(FinalizeTlvs())
    {
      mNeedAppendKek := true;
      payload := Tlvs.WriteSmall(FinalizeTlvs(), FINALIZE_SIZE);
    }

    /** Received data goes to the CoAP agent, which may find a finalize request and may answer. */
    method FeedCoap(finalizes: bool, answers: bool, answerFails: bool)
      requires Valid() && (answers ==> Anchored(View()))
      modifies mDtlsServer.mSessions, this
      ensures Valid() && mDtlsServer == old(mDtlsServer)
      ensures View() == (var t' := if finalizes then old(View()).(needKek := true) else old(View());
                         if answers then Send(t', answerFails) else t')
    {
      if finalizes {
        var answer := HandleJoinerFinalize();
      }
      if answers {
        var ret := SendCoap(answerFails);
      }
    }

    function NeedAppendKek(): bool
      reads this
    {
      mNeedAppendKek
    }

    method MarkKekSent()
      requires Valid()
      modifies this`mNeedAppendKek
      ensures Valid() && View() == old(View()).(needKek := false)
    {
      mNeedAppendKek := false;
    }

    method SetPSK(aPskdAscii: string)
      requires Valid() && CutLength(aPskdAscii) > 0
      modifies mDtlsServer`mPSK
      ensures Valid() && mDtlsServer.mPSK == Replaced(old(mDtlsServer.mPSK), aPskdAscii)
      ensures View() == old(View()) && Objects() == old(Objects())
    {
      var aLength := CutLength(aPskdAscii);
      if aLength <= MAX_PSK {
        mDtlsServer.mPSK := aPskdAscii[..aLength];
      }
    }
  }
}
