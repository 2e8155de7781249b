/** The DTLS session table and the joiner session's pointer into it, as a step system. */
module Sessions {
  import opened Bytes

  const SESSION_TIMEOUT := 60000
  const KEK_SIZE := 32

  type Key = k: Octets | |k| == KEK_SIZE witness Zeros(32)

  datatype Phase = Handshaking | Ready | Closed | Ended | Failed | Expired

  /** One session. The id stands for its address: no two sessions ever share one. */
  datatype Session = Session(id: nat, phase: Phase, expiration: nat, fd: int, kek: Key)

  /** The table, the joiner session's current session, the session that exported keys are written to,
      the joiner session's key and its flag. */
  datatype Table = Table(
    sessions: seq<Session>,
    current: Option<nat>,
    target: Option<nat>,
    kek: Key,
    needKek: bool,
    nextId: nat)

  datatype HandshakeResult = Done | Pending | Refused

  /** What a read leaves behind; received data may finalize a joiner and send an answer that may fail. */
  datatype ReadResult = Data(finalizes: bool, answers: bool, answerFails: bool) | Eof | Reconnect | Timeout | Broken

  /** The library's answers while one session is processed: the time, its socket afterwards, a key it
      exports during a handshake call, and the results. */
  datatype Outcome = Outcome(now: nat, fd: int, key: Option<Key>, handshake: HandshakeResult, read: ReadResult)

  predicate Over(p: Phase) {
    p == Failed || p == Ended
  }

  function Index(ss: seq<Session>, id: nat): (i: nat)
    ensures i <= |ss| && (i < |ss| ==> ss[i].id == id) && forall j | 0 <= j < i :: ss[j].id != id
  {
    if ss == [] || ss[0].id == id then 0 else 1 + Index(ss[1..], id)
  }

  /** The state callback. */
  function Notify(t: Table, id: nat, kek: Key, p: Phase): Table {
    match p
    case Ready => t.(kek := kek, current := Some(id))
    case Failed | Ended => t.(current := None)
    case _ => t
  }

  /** Change a session's phase and call back. */
  function SetPhase(t: Table, i: nat, p: Phase): Table
    requires i < |t.sessions|
  {
    var s := t.sessions[i];
    Notify(t.(sessions := t.sessions[i := s.(phase := p)]), s.id, s.kek, p)
  }

  /** The library exports a session key to the session registered last, whichever session it is for. */
  function Export(t: Table, key: Option<Key>): Table {
    if t.target.None? || key.None? then t
    else
      var i := Index(t.sessions, t.target.value);
      if i < |t.sessions| then t.(sessions := t.sessions[i := t.sessions[i].(kek := key.value)]) else t
  }

  function Handshake(t: Table, i: nat, r: HandshakeResult): Table
    requires i < |t.sessions|
  {
    match r
    case Done => SetPhase(t, i, Ready)
    case Pending => t
    case Refused => t.(sessions := t.sessions[i := t.sessions[i].(phase := Failed)])
  }

  /** Send through the current session. */
  function Send(t: Table, fails: bool): Table {
    if t.current.None? then t
    else
      var i := Index(t.sessions, t.current.value);
      if i < |t.sessions| && fails then SetPhase(t, i, Failed) else t
  }

  function Read(t: Table, i: nat, r: ReadResult): Table
    requires i < |t.sessions|
  {
    match r
    case Data(finalizes, answers, answerFails) =>
      var t' := if finalizes then t.(needKek := true) else t;
      if answers then Send(t', answerFails) else t'
    case Eof => SetPhase(t, i, Closed)
    case Reconnect => SetPhase(t, i, Handshaking)
    case Timeout => t
    case Broken => SetPhase(t, i, Failed)
  }

  /** Replace one session. */
  function Put(t: Table, i: nat, s: Session): Table
    requires i < |t.sessions|
  {
    t.(sessions := t.sessions[i := s])
  }

  /** Processing first renews the time to live; a handshake may open a socket of its own. */
  function Renewed(s: Session, o: Outcome): Session {
    s.(expiration := o.now + SESSION_TIMEOUT, fd := if s.phase.Handshaking? then o.fd else s.fd)
  }

  function Process(t: Table, i: nat, o: Outcome): Table
    requires i < |t.sessions|
  {
    var t' := Put(t, i, Renewed(t.sessions[i], o));
    match t.sessions[i].phase
    case Handshaking => ProcessHandshake(t', i, o)
    case Ready => Read(t', i, o.read)
    case _ => t'
  }

  function ProcessHandshake(t: Table, i: nat, o: Outcome): Table
    requires i < |t.sessions|
  {
    Handshake(Export(t, o.key), i, o.handshake)
  }

  /** A new session in the table. The key field starts with anything. */
  function Enlisted(t: Table, fd: int, garbage: Key): Table {
    var s := Session(t.nextId, Handshaking, 0, fd, garbage);
    t.(sessions := t.sessions + [s], target := Some(s.id), nextId := t.nextId + 1)
  }

  /** A new session whose setup succeeded is processed at once. */
  function Accept(t: Table, fd: int, garbage: Key, o: Outcome): Table {
    Process(Enlisted(t, fd, garbage), |t.sessions|, o)
  }

  /** A new session whose setup failed: its phase was never written before it is closed. */
  function AcceptFails(t: Table, garbage: Phase): Table {
    var t' := t.(nextId := t.nextId + 1);
    if Over(garbage) then t' else Notify(t', t.nextId, t.kek, Ended)
  }

  predicate Alive(s: Session, now: nat) {
    s.expiration > now && (s.phase.Ready? || s.phase.Handshaking?)
  }

  function Survivors(ss: seq<Session>, now: nat): seq<Session> {
    if ss == [] then []
    else
      var front, last := ss[..|ss| - 1], ss[|ss| - 1];
      if Alive(last, now) then Survivors(front, now) + [last] else Survivors(front, now)
  }

  /** Destroying a session that is not over calls back that it ended. */
  predicate CallsBack(s: Session, now: nat) {
    !Alive(s, now) && !Over(s.phase)
  }

  /** Remove what is not alive. */
  function Sweep(t: Table, now: nat): Table {
    t.(sessions := Survivors(t.sessions, now),
       current := if exists i :: 0 <= i < |t.sessions| && CallsBack(t.sessions[i], now) then None else t.current)
  }

  datatype Step =
    | ProcessStep(place: nat, outcome: Outcome)
    | AcceptStep(fd: int, garbageKek: Key, first: Outcome)
    | AcceptFailStep(garbage: Phase)
    | SendStep(fails: bool)
    | SweepStep(now: nat)
    | KekSentStep

  function Next(t: Table, s: Step): Table {
    match s
    case ProcessStep(i, o) => if i < |t.sessions| then Process(t, i, o) else t
    case AcceptStep(fd, kek, o) => Accept(t, fd, kek, o)
    case AcceptFailStep(g) => AcceptFails(t, g)
    case SendStep(fails) => Send(t, fails)
    case SweepStep(now) => Sweep(t, now)
    case KekSentStep => t.(needKek := false)
  }

  function Steps(t: Table, ss: seq<Step>): Table {
    if ss == [] then t else Next(Steps(t, ss[..|ss| - 1]), ss[|ss| - 1])
  }

  /** Ids are unique and older than the next one. */
  ghost predicate Proper(t: Table) {
    && (forall i, j | 0 <= i < j < |t.sessions| :: t.sessions[i].id != t.sessions[j].id)
    && (forall i | 0 <= i < |t.sessions| :: t.sessions[i].id < t.nextId)
  }

  ghost predicate Running(t: Table, id: nat) {
    exists s :: s in t.sessions && s.id == id && !Over(s.phase)
  }

  /** The current session, if any, is in the table and not over. */
  ghost predicate Safe(t: Table) {
    t.current.Some? ==> Running(t, t.current.value)
  }

  function IdsOf(ss: seq<Session>): (r: seq<nat>)
    ensures |r| == |ss| && forall i {:trigger r[i]} | 0 <= i < |ss| :: r[i] == ss[i].id
  {
    seq(|ss|, i requires 0 <= i < |ss| => ss[i].id)
  }

  /** The current session, if any, is in the table, over or not. */
  predicate Anchored(t: Table) {
    t.current.Some? ==> t.current.value in IdsOf(t.sessions)
  }

  /** The session that exported keys are written to, if any, is in the table. */
  predicate Aimed(t: Table) {
    t.target.Some? ==> t.target.value in IdsOf(t.sessions)
  }

  /** The step works on no destroyed session: it sends only through a session in the table, and exports a key only
      into one. */
  predicate Defined(t: Table, s: Step) {
    match s
    case ProcessStep(i, o) =>
      i < |t.sessions| ==>
        (match t.sessions[i].phase
         case Handshaking => o.key.Some? ==> Aimed(t)
         case Ready => o.read.Data? && o.read.answers ==> Anchored(t)
         case _ => true)
    case SendStep(_) => Anchored(t)
    case _ => true
  }

  ghost predicate Dangling(t: Table) {
    !Anchored(t)
  }

  /** The step is a refused handshake of the current session: only a reconnected one can be. */
  predicate RefusesCurrent(t: Table, s: Step) {
    && s.ProcessStep? && s.place < |t.sessions|
    && t.sessions[s.place].phase.Handshaking?
    && s.outcome.handshake.Refused?
    && t.current == Some(t.sessions[s.place].id)
  }

  const EMPTY := Table([], None, None, Zeros(KEK_SIZE), false, 0)

  // One place changed at a time.

  lemma PutProper(t: Table, i: nat, s: Session)
    requires Proper(t) && i < |t.sessions| && s.id == t.sessions[i].id
    ensures Proper(Put(t, i, s))
  {
  }

  lemma PutRunning(t: Table, i: nat, s: Session, id: nat)
    requires Proper(t) && i < |t.sessions| && s.id == t.sessions[i].id
    ensures Running(Put(t, i, s), id) <==> if id == s.id then !Over(s.phase) else Running(t, id)
  {
    var t' := Put(t, i, s);
    assert t'.sessions[i] == s;
    if x :| x in t.sessions && x.id == id && !Over(x.phase) && id != s.id {
      var k :| 0 <= k < |t.sessions| && t.sessions[k] == x;
      assert t'.sessions[k] == x;
    }
    if x :| x in t'.sessions && x.id == id && !Over(x.phase) {
      var k :| 0 <= k < |t'.sessions| && t'.sessions[k] == x;
      assert k != i ==> t.sessions[k] == x;
    }
  }

  lemma RunningHere(t: Table, i: nat)
    requires Proper(t) && i < |t.sessions|
    ensures Running(t, t.sessions[i].id) <==> !Over(t.sessions[i].phase)
  {
    PutRunning(t, i, t.sessions[i], t.sessions[i].id);
    assert Put(t, i, t.sessions[i]).sessions == t.sessions;
  }

  lemma SetPhaseSafe(t: Table, i: nat, p: Phase)
    requires Proper(t) && Safe(t) && i < |t.sessions|
    ensures Proper(SetPhase(t, i, p)) && Safe(SetPhase(t, i, p))
  {
    var s := t.sessions[i].(phase := p);
    PutProper(t, i, s);
    PutRunning(t, i, s, s.id);
    if t.current.Some? {
      PutRunning(t, i, s, t.current.value);
    }
    var t' := SetPhase(t, i, p);
    assert t'.sessions == Put(t, i, s).sessions;
    assert forall id :: Running(t', id) <==> Running(Put(t, i, s), id);
  }

  lemma SilentSafe(t: Table, i: nat, s: Session)
    requires Proper(t) && Safe(t) && i < |t.sessions| && s.id == t.sessions[i].id
    requires Over(s.phase) <==> Over(t.sessions[i].phase)
    ensures Proper(Put(t, i, s)) && Safe(Put(t, i, s))
  {
    PutProper(t, i, s);
    RunningHere(t, i);
    if t.current.Some? {
      PutRunning(t, i, s, t.current.value);
    }
  }

  lemma ExportSafe(t: Table, key: Option<Key>)
    requires Proper(t) && Safe(t)
    ensures var t' := Export(t, key);
      && Proper(t') && Safe(t') && |t'.sessions| == |t.sessions| && t'.current == t.current
      && forall i | 0 <= i < |t.sessions| ::
           t'.sessions[i].id == t.sessions[i].id && t'.sessions[i].phase == t.sessions[i].phase
  {
    if t.target.Some? && key.Some? {
      var i := Index(t.sessions, t.target.value);
      if i < |t.sessions| {
        SilentSafe(t, i, t.sessions[i].(kek := key.value));
      }
    }
  }

  lemma SendSafe(t: Table, fails: bool)
    requires Proper(t) && Safe(t)
    ensures Proper(Send(t, fails)) && Safe(Send(t, fails))
  {
    if t.current.Some? && fails {
      var i := Index(t.sessions, t.current.value);
      if i < |t.sessions| {
        SetPhaseSafe(t, i, Failed);
      }
    }
  }

  lemma ReadSafe(t: Table, i: nat, r: ReadResult)
    requires Proper(t) && Safe(t) && i < |t.sessions|
    ensures Proper(Read(t, i, r)) && Safe(Read(t, i, r))
  {
    match r
    case Data(finalizes, answers, answerFails) =>
      var t' := if finalizes then t.(needKek := true) else t;
      if t.current.Some? && Running(t, t.current.value) {
        var s :| s in t.sessions && s.id == t.current.value && !Over(s.phase);
        assert s in t'.sessions;
      }
      SendSafe(t', answerFails);
    case Eof => SetPhaseSafe(t, i, Closed);
    case Reconnect => SetPhaseSafe(t, i, Handshaking);
    case Timeout =>
    case Broken => SetPhaseSafe(t, i, Failed);
  }

  lemma HandshakeSafe(t: Table, i: nat, r: HandshakeResult)
    requires Proper(t) && Safe(t) && i < |t.sessions|
    ensures Proper(Handshake(t, i, r))
    ensures Safe(Handshake(t, i, r)) <==> !(r.Refused? && t.current == Some(t.sessions[i].id))
  {
    match r
    case Done => SetPhaseSafe(t, i, Ready);
    case Pending =>
    case Refused =>
      var s := t.sessions[i].(phase := Failed);
      PutProper(t, i, s);
      if t.current.Some? {
        PutRunning(t, i, s, t.current.value);
      }
  }

  lemma ProcessHandshakeSafe(t: Table, i: nat, o: Outcome)
    requires Proper(t) && Safe(t) && i < |t.sessions|
    ensures Proper(ProcessHandshake(t, i, o))
    ensures Safe(ProcessHandshake(t, i, o)) <==> !(o.handshake.Refused? && t.current == Some(t.sessions[i].id))
  {
    ExportSafe(t, o.key);
    HandshakeSafe(Export(t, o.key), i, o.handshake);
  }

  lemma ProcessSafe(t: Table, i: nat, o: Outcome)
    requires Proper(t) && Safe(t) && i < |t.sessions|
    ensures Proper(Process(t, i, o))
    ensures Safe(Process(t, i, o)) <==> !RefusesCurrent(t, ProcessStep(i, o))
  {
    var s' := Renewed(t.sessions[i], o);
    SilentSafe(t, i, s');
    match t.sessions[i].phase
    case Handshaking => ProcessHandshakeSafe(Put(t, i, s'), i, o);
    case Ready => ReadSafe(Put(t, i, s'), i, o.read);
    case _ =>
  }

  lemma EnlistedSafe(t: Table, fd: int, garbage: Key)
    requires Proper(t) && Safe(t)
    ensures var t' := Enlisted(t, fd, garbage);
      Proper(t') && Safe(t') && t'.current != Some(t.nextId)
  {
    if t.current.Some? {
      var x :| x in t.sessions && x.id == t.current.value && !Over(x.phase);
      assert x in Enlisted(t, fd, garbage).sessions;
    }
  }

  lemma AcceptSafe(t: Table, fd: int, garbage: Key, o: Outcome)
    requires Proper(t) && Safe(t)
    ensures Proper(Accept(t, fd, garbage, o)) && Safe(Accept(t, fd, garbage, o))
  {
    EnlistedSafe(t, fd, garbage);
    ProcessSafe(Enlisted(t, fd, garbage), |t.sessions|, o);
  }

  // Sweeping.

  lemma {:induction false} SurvivorMembers(ss: seq<Session>, now: nat, s: Session)
    ensures s in Survivors(ss, now) <==> s in ss && Alive(s, now)
    decreases |ss|
  {
    if ss != [] {
      assert ss == ss[..|ss| - 1] + [ss[|ss| - 1]];
      SurvivorMembers(ss[..|ss| - 1], now, s);
    }
  }

  lemma {:induction false} SurvivorsProper(t: Table, now: nat)
    requires Proper(t)
    ensures Proper(t.(sessions := Survivors(t.sessions, now)))
    decreases |t.sessions|
  {
    if t.sessions != [] {
      var front, last := t.sessions[..|t.sessions| - 1], t.sessions[|t.sessions| - 1];
      SurvivorsProper(t.(sessions := front), now);
      forall s | s in Survivors(front, now)
        ensures s.id != last.id
      {
        SurvivorMembers(front, now, s);
      }
    }
  }

  lemma SweepKeeps(t: Table, now: nat, s: Session)
    requires s in t.sessions && Alive(s, now)
    ensures s in Sweep(t, now).sessions
  {
    SurvivorMembers(t.sessions, now, s);
  }

  lemma SweepSafe(t: Table, now: nat)
    requires Proper(t) && Safe(t)
    ensures Proper(Sweep(t, now)) && Safe(Sweep(t, now))
  {
    SurvivorsProper(t, now);
    if Sweep(t, now).current.Some? {
      var s :| s in t.sessions && s.id == t.current.value && !Over(s.phase);
      var k :| 0 <= k < |t.sessions| && t.sessions[k] == s;
      assert !CallsBack(t.sessions[k], now);
      SweepKeeps(t, now, s);
    }
  }

  /** Every step keeps the pointer safe, except a refused handshake of the current session, which never does. */
  lemma StepSafeIff(t: Table, s: Step)
    requires Proper(t) && Safe(t)
    ensures Proper(Next(t, s)) && (Safe(Next(t, s)) <==> !RefusesCurrent(t, s))
  {
    match s
    case ProcessStep(i, o) => if i < |t.sessions| { ProcessSafe(t, i, o); }
    case AcceptStep(fd, kek, o) => AcceptSafe(t, fd, kek, o);
    case AcceptFailStep(_) => SameSessions(t, Next(t, s));
    case SendStep(fails) => SendSafe(t, fails);
    case SweepStep(now) => SweepSafe(t, now);
    case KekSentStep => SameSessions(t, Next(t, s));
  }

  lemma SameSessions(t: Table, t': Table)
    requires Proper(t) && Safe(t) && t'.sessions == t.sessions && t'.nextId >= t.nextId
    requires t'.current == t.current || t'.current.None?
    ensures Proper(t') && Safe(t')
  {
    if t'.current.Some? {
      var s :| s in t.sessions && s.id == t.current.value && !Over(s.phase);
      assert s in t'.sessions;
    }
  }

  /** The k-th step of a run from the empty table refuses the current session's handshake. */
  ghost predicate RefusesAt(ss: seq<Step>, k: nat)
    requires k < |ss|
  {
    RefusesCurrent(Steps(EMPTY, ss[..k]), ss[k])
  }

  ghost predicate NeverRefuses(ss: seq<Step>) {
    forall k | 0 <= k < |ss| :: !RefusesAt(ss, k)
  }

  ghost predicate AlwaysSafe(ss: seq<Step>) {
    forall k | 0 <= k <= |ss| :: Safe(Steps(EMPTY, ss[..k]))
  }

  lemma {:induction false} StepsSafe(ss: seq<Step>, n: nat)
    requires n <= |ss| && forall k | 0 <= k < n :: !RefusesAt(ss, k)
    ensures Proper(Steps(EMPTY, ss[..n])) && Safe(Steps(EMPTY, ss[..n]))
    decreases n
  {
    if n > 0 {
      StepsSafe(ss, n - 1);
      assert !RefusesAt(ss, n - 1);
      LastStep(ss, n - 1);
      StepSafeIff(Steps(EMPTY, ss[..n - 1]), ss[n - 1]);
    }
  }

  lemma LastStep(ss: seq<Step>, n: nat)
    requires n < |ss|
    ensures Steps(EMPTY, ss[..n + 1]) == Next(Steps(EMPTY, ss[..n]), ss[n])
  {
    assert ss[..n + 1][..n] == ss[..n];
  }

  lemma {:induction false} FirstRefusal(ss: seq<Step>, n: nat) returns (k: nat)
    requires n < |ss| && RefusesAt(ss, n)
    ensures k <= n && RefusesAt(ss, k) && forall j | 0 <= j < k :: !RefusesAt(ss, j)
    decreases n
  {
    if j: nat :| j < n && RefusesAt(ss, j) {
      k := FirstRefusal(ss, j);
    } else {
      k := n;
    }
  }

  /** Over every run from the empty table: the current session is null or in the table and not over
      throughout, exactly when no handshake of the current session is ever refused. */
  lemma RunSafeIff(ss: seq<Step>)
    ensures AlwaysSafe(ss) <==> NeverRefuses(ss)
  {
    if NeverRefuses(ss) {
      forall n | 0 <= n <= |ss|
        ensures Safe(Steps(EMPTY, ss[..n]))
      {
        StepsSafe(ss, n);
      }
    } else {
      var n :| 0 <= n < |ss| && RefusesAt(ss, n);
      var k := FirstRefusal(ss, n);
      StepsSafe(ss, k);
      LastStep(ss, k);
      StepSafeIff(Steps(EMPTY, ss[..k]), ss[k]);
    }
  }

  /** A sweep directly after a refused handshake of the current session leaves the pointer dangling,
      exactly when no session that it destroys calls back. */
  lemma RefusalDangles(t: Table, i: nat, o: Outcome, now: nat)
    requires Proper(t) && Safe(t) && i < |t.sessions| && RefusesCurrent(t, ProcessStep(i, o))
    ensures var t' := Process(t, i, o);
      Dangling(Sweep(t', now)) <==> forall k | 0 <= k < |t'.sessions| :: !CallsBack(t'.sessions[k], now)
  {
    var t' := Process(t, i, o);
    ProcessSafe(t, i, o);
    RefusedPhase(t, i, o);
    var swept := Sweep(t', now);
    forall k | 0 <= k < |swept.sessions|
      ensures swept.sessions[k].id != t'.sessions[i].id
    {
      SurvivorMembers(t'.sessions, now, swept.sessions[k]);
      var j :| 0 <= j < |t'.sessions| && t'.sessions[j] == swept.sessions[k];
      assert !Alive(t'.sessions[i], now);
    }
  }

  lemma RefusedPhase(t: Table, i: nat, o: Outcome)
    requires Proper(t) && i < |t.sessions| && RefusesCurrent(t, ProcessStep(i, o))
    ensures var t' := Process(t, i, o);
      |t'.sessions| == |t.sessions| && t'.sessions[i].phase == Failed && t'.current == Some(t'.sessions[i].id)
  {
  }

  lemma IndexHere(t: Table, i: nat)
    requires Proper(t) && i < |t.sessions|
    ensures forall id :: Index(t.sessions, id) == i <==> id == t.sessions[i].id
  {
    var k := Index(t.sessions, t.sessions[i].id);
  }

  /** No session lives up to the limit. */
  predicate AllBelow(ss: seq<Session>, limit: nat) {
    forall i | 0 <= i < |ss| :: ss[i].expiration < limit
  }

  // What the event loop waits for.

  /** Sockets to read from, the largest of them, and a timeout in milliseconds. */
  datatype Watch = Watch(fds: set<int>, maxFd: int, timeout: nat)

  function Max(a: int, b: int): int {
    if a < b then b else a
  }

  function WithFd(w: Watch, fd: int): Watch {
    w.(fds := w.fds + {fd}, maxFd := Max(w.maxFd, fd))
  }

  /** A session that is alive is waited for, no longer than it lives. */
  function Absorb(w: Watch, s: Session, now: nat): Watch {
    if !Alive(s, now) then w
    else WithFd(w, s.fd).(timeout := if s.expiration < now + w.timeout then s.expiration - now else w.timeout)
  }

  function Watching(ss: seq<Session>, now: nat, w: Watch): Watch {
    if ss == [] then w else Absorb(Watching(ss[..|ss| - 1], now, w), ss[|ss| - 1], now)
  }

  /** The timeout is the least of the one given and every survivor's time to live. */
  lemma {:induction false} TimeoutIsLeast(ss: seq<Session>, now: nat, w: Watch)
    ensures var t := Watching(ss, now, w).timeout;
      && t <= w.timeout
      && (forall s | s in Survivors(ss, now) :: t <= s.expiration - now)
      && (t == w.timeout || exists s :: s in Survivors(ss, now) && t == s.expiration - now)
    decreases |ss|
  {
    if ss != [] {
      var front, last := ss[..|ss| - 1], ss[|ss| - 1];
      TimeoutIsLeast(front, now, w);
      if Alive(last, now) {
        assert Survivors(ss, now) == Survivors(front, now) + [last];
        assert last in Survivors(ss, now);
        assert forall s | s in Survivors(front, now) :: s in Survivors(ss, now);
      }
    }
  }

  /** Exactly the survivors' sockets are added, and the largest is right. */
  lemma {:induction false} SocketsAreSurvivors(ss: seq<Session>, now: nat, w: Watch)
    ensures var w' := Watching(ss, now, w);
      && w'.fds == w.fds + (set s | s in Survivors(ss, now) :: s.fd)
      && w'.maxFd >= w.maxFd
      && (forall s | s in Survivors(ss, now) :: w'.maxFd >= s.fd)
      && (w'.maxFd == w.maxFd || exists s :: s in Survivors(ss, now) && w'.maxFd == s.fd)
    decreases |ss|
  {
    if ss != [] {
      var front, last := ss[..|ss| - 1], ss[|ss| - 1];
      SocketsAreSurvivors(front, now, w);
      if Alive(last, now) {
        assert Survivors(ss, now) == Survivors(front, now) + [last];
        assert last in Survivors(ss, now);
        assert forall s | s in Survivors(front, now) :: s in Survivors(ss, now);
      }
    }
  }

  // What the server's loops add up to.

  /** The steps of the loop over the first n sessions: every one whose socket is readable is processed. */
  function LoopSteps(t: Table, n: nat, readable: set<int>, os: nat -> Outcome): seq<Step>
    decreases n, t
  {
    if n == 0 then []
    else
      var ss := LoopSteps(t, n - 1, readable, os);
      var t' := Steps(t, ss);
      if n <= |t'.sessions| && t'.sessions[n - 1].fd in readable then ss + [ProcessStep(n - 1, os(n - 1))] else ss
  }

  /** One turn of the loop: the session is processed when its socket is readable. */
  function Visit(t: Table, i: nat, readable: set<int>, o: Outcome): Table
    requires i < |t.sessions|
  {
    if t.sessions[i].fd in readable then Process(t, i, o) else t
  }

  lemma StepsAppend(t: Table, ss: seq<Step>, s: Step)
    ensures Steps(t, ss + [s]) == Next(Steps(t, ss), s)
  {
    assert (ss + [s])[..|ss|] == ss;
  }

  /** The sweep after its first k sessions. */
  ghost function SweepTo(t: Table, now: nat, k: nat): Table
    requires k <= |t.sessions|
  {
    t.(sessions := Survivors(t.sessions[..k], now) + t.sessions[k..],
       current := if exists i :: 0 <= i < k && CallsBack(t.sessions[i], now) then None else t.current)
  }

  lemma SweepEnds(t: Table, now: nat)
    ensures SweepTo(t, now, 0) == t && SweepTo(t, now, |t.sessions|) == Sweep(t, now)
  {
    assert t.sessions[..|t.sessions|] == t.sessions;
    assert [] + t.sessions[0..] == t.sessions;
  }

  lemma PrefixStep(ss: seq<Session>, k: nat)
    requires k < |ss|
    ensures ss[..k + 1] == ss[..k] + [ss[k]] && ss[k..] == [ss[k]] + ss[k + 1..]
  {
  }

  lemma SurvivorsAppend(ss: seq<Session>, s: Session, now: nat)
    ensures Survivors(ss + [s], now) == Survivors(ss, now) + if Alive(s, now) then [s] else []
  {
    assert (ss + [s])[..|ss|] == ss;
  }

  /** One more session of the sweep: kept in place, or taken out. */
  lemma SweepOne(t: Table, now: nat, k: nat)
    requires k < |t.sessions|
    ensures var (u, u', s, m) :=
        (SweepTo(t, now, k).sessions, SweepTo(t, now, k + 1).sessions, t.sessions[k],
         |Survivors(t.sessions[..k], now)|);
      && m < |u| && u[m] == s
      && u' == (if Alive(s, now) then u else u[..m] + u[m + 1..])
      && |Survivors(t.sessions[..k + 1], now)| == if Alive(s, now) then m + 1 else m
  {
    var s, kept, tail := t.sessions[k], Survivors(t.sessions[..k], now), t.sessions[k + 1..];
    PrefixStep(t.sessions, k);
    SurvivorsAppend(t.sessions[..k], s, now);
    assert kept + ([s] + tail) == (kept + [s]) + tail;
    assert (kept + ([s] + tail))[..|kept|] + (kept + ([s] + tail))[|kept| + 1..] == kept + tail;
  }

  /** One more session of the sweep: the pointer is cleared exactly when it calls back. */
  lemma SweepPointer(t: Table, now: nat, k: nat)
    requires k < |t.sessions|
    ensures SweepTo(t, now, k + 1).current
         == if CallsBack(t.sessions[k], now) then None else SweepTo(t, now, k).current
  {
    if i :| 0 <= i < k && CallsBack(t.sessions[i], now) {
      assert 0 <= i < k + 1;
    }
  }

  /** The session at a place destroyed and taken out. */
  function Erased(t: Table, i: nat): Table
    requires i < |t.sessions|
  {
    t.(sessions := t.sessions[..i] + t.sessions[i + 1..],
       current := if Over(t.sessions[i].phase) then t.current else None)
  }

  /** The destructor's Close: a session that is not over ends. */
  function Closing(t: Table, i: nat): Table
    requires i < |t.sessions|
  {
    if Over(t.sessions[i].phase) then t else SetPhase(t, i, Ended)
  }

  /** Closing a session and then taking it out is erasing it. */
  lemma ClosedThenOut(t: Table, i: nat)
    requires i < |t.sessions|
    ensures var u := Closing(t, i);
      |u.sessions| == |t.sessions| && u.(sessions := u.sessions[..i] + u.sessions[i + 1..]) == Erased(t, i)
  {
    var u := Closing(t, i);
    assert u.sessions[..i] == t.sessions[..i] && u.sessions[i + 1..] == t.sessions[i + 1..];
  }

  /** Place of the k-th session of the table once the sweep has come to it. */
  ghost function PlaceAt(t: Table, now: nat, k: nat): nat
    requires k <= |t.sessions|
  {
    |Survivors(t.sessions[..k], now)|
  }

  /** The loop of the sweep after k sessions: the table, and the place of the next session in it. */
  ghost function SweepLoop(t: Table, now: nat, k: nat): (r: (Table, nat))
    requires k <= |t.sessions|
    ensures r.1 <= |r.0.sessions| && r.0.sessions[r.1..] == t.sessions[k..]
    decreases k, t
  {
    if k == 0 then (t, 0)
    else
      var (u, m) := SweepLoop(t, now, k - 1);
      assert u.sessions[m] == u.sessions[m..][0] == t.sessions[k - 1];
      assert u.sessions[m + 1..] == u.sessions[m..][1..] == t.sessions[k - 1..][1..] == t.sessions[k..];
      if Alive(t.sessions[k - 1], now) then (u, m + 1) else (Erased(u, m), m)
  }

  lemma SweepTurn(t: Table, now: nat, k: nat)
    requires k < |t.sessions|
    ensures var m := PlaceAt(t, now, k);
      && m < |SweepTo(t, now, k).sessions|
      && SweepTo(t, now, k).sessions[m] == t.sessions[k]
      && SweepTo(t, now, k + 1)
         == (if Alive(t.sessions[k], now) then SweepTo(t, now, k) else Erased(SweepTo(t, now, k), m))
      && PlaceAt(t, now, k + 1) == (if Alive(t.sessions[k], now) then m + 1 else m)
  {
    SweepOne(t, now, k);
    SweepPointer(t, now, k);
  }

  /** Erasing during the iteration keeps exactly the sessions that are alive, in order. */
  lemma {:induction false} SweepLoopIs(t: Table, now: nat, k: nat)
    requires k <= |t.sessions|
    ensures SweepLoop(t, now, k) == (SweepTo(t, now, k), PlaceAt(t, now, k))
  {
    if k == 0 {
      SweepEnds(t, now);
    } else {
      SweepLoopIs(t, now, k - 1);
      SweepTurn(t, now, k - 1);
    }
  }

  lemma SweepLoopEnds(t: Table, now: nat)
    ensures SweepLoop(t, now, |t.sessions|).0 == Sweep(t, now)
    ensures SweepLoop(t, now, 0) == (t, 0)
  {
    SweepLoopIs(t, now, |t.sessions|);
    SweepEnds(t, now);
  }

  lemma LoopGoesOn(t: Table, now: nat, k: nat, u: Table, m: nat)
    requires k <= |t.sessions| && SweepLoop(t, now, k) == (u, m)
    ensures |u.sessions| == m + |t.sessions| - k
  {
    assert |u.sessions[m..]| == |t.sessions[k..]|;
  }

  /** One turn of the loop, seen from the table it works on. */
  lemma SweepLoopTurn(t: Table, now: nat, k: nat, u: Table, m: nat)
    requires k < |t.sessions| && SweepLoop(t, now, k) == (u, m)
    ensures m < |u.sessions| && u.sessions[m] == t.sessions[k] && |u.sessions| == m + |t.sessions| - k
    ensures SweepLoop(t, now, k + 1) == if Alive(u.sessions[m], now) then (u, m + 1) else (Erased(u, m), m)
  {
    assert u.sessions[m] == u.sessions[m..][0];
  }

  /** The sessions a sweep destroys, by id, in order. */
  function Destroyed(ss: seq<Session>, now: nat): seq<nat> {
    if ss == [] then []
    else
      var last := ss[|ss| - 1];
      Destroyed(ss[..|ss| - 1], now) + if Alive(last, now) then [] else [last.id]
  }

  lemma GatherStep(ss: seq<Session>, now: nat, k: nat, w: Watch)
    requires k < |ss|
    ensures Watching(ss[..k + 1], now, w) == Absorb(Watching(ss[..k], now, w), ss[k], now)
    ensures Destroyed(ss[..k + 1], now) == Destroyed(ss[..k], now) + if Alive(ss[k], now) then [] else [ss[k].id]
    ensures Watching(ss[..k], now, w).timeout <= w.timeout
  {
    TimeoutIsLeast(ss[..k], now, w);
    PrefixStep(ss, k);
    assert (ss[..k] + [ss[k]])[..k] == ss[..k];
  }

  /** After k turns of the sweep: the table, the place, what is watched and what was destroyed. */
  ghost predicate Swept(t: Table, now: nat, given: Watch, k: nat, u: Table, it: nat, w: Watch, destroyed: seq<nat>) {
    && k <= |t.sessions|
    && SweepLoop(t, now, k) == (u, it)
    && w == Watching(t.sessions[..k], now, given)
    && destroyed == Destroyed(t.sessions[..k], now)
  }

  lemma SweptStarts(t: Table, now: nat, given: Watch)
    ensures Swept(t, now, given, 0, t, 0, given, [])
  {
    SweepLoopEnds(t, now);
  }

  /** There is a turn to take, at the place reached. */
  lemma SweptTurn(t: Table, now: nat, given: Watch, k: nat, u: Table, it: nat, w: Watch, destroyed: seq<nat>)
    requires Swept(t, now, given, k, u, it, w, destroyed) && it < |u.sessions|
    ensures k < |t.sessions| && u.sessions[it] == t.sessions[k] && w.timeout <= given.timeout
  {
    LoopGoesOn(t, now, k, u, it);
    SweepLoopTurn(t, now, k, u, it);
    GatherStep(t.sessions, now, k, given);
  }

  lemma SweptOn(t: Table, now: nat, given: Watch, k: nat, u: Table, it: nat, w: Watch, destroyed: seq<nat>,
                k': nat, u': Table, it': nat, w': Watch, destroyed': seq<nat>)
    requires Swept(t, now, given, k, u, it, w, destroyed) && it < |u.sessions|
    requires k' == k + 1 && w' == Absorb(w, u.sessions[it], now)
    requires if Alive(u.sessions[it], now) then u' == u && it' == it + 1 && destroyed' == destroyed
             else u' == Erased(u, it) && it' == it && destroyed' == destroyed + [u.sessions[it].id]
    ensures Swept(t, now, given, k', u', it', w', destroyed')
  {
    SweptTurn(t, now, given, k, u, it, w, destroyed);
    SweepLoopTurn(t, now, k, u, it);
    GatherStep(t.sessions, now, k, given);
  }

  lemma SweptEnds(t: Table, now: nat, given: Watch, k: nat, u: Table, it: nat, w: Watch, destroyed: seq<nat>)
    requires Swept(t, now, given, k, u, it, w, destroyed) && it >= |u.sessions|
    ensures u == Sweep(t, now) && w == Watching(t.sessions, now, given) && destroyed == Destroyed(t.sessions, now)
  {
    LoopGoesOn(t, now, k, u, it);
    SweepLoopEnds(t, now);
    assert t.sessions[..k] == t.sessions;
  }

  // Processing one session never leaves the pointer dangling; only a sweep can.

  /** The same ids in the same places, and a pointer that is as before, null, or to one of them. */
  ghost predicate Kept(t: Table, t': Table) {
    && IdsOf(t'.sessions) == IdsOf(t.sessions)
    && t'.nextId == t.nextId
    && (t'.current.None? || t'.current == t.current || t'.current.value in IdsOf(t.sessions))
  }

  lemma PutKept(t: Table, i: nat, s: Session)
    requires i < |t.sessions| && s.id == t.sessions[i].id
    ensures Kept(t, Put(t, i, s)) && IdsOf(t.sessions)[i] == s.id
  {
  }

  lemma SetPhaseKept(t: Table, i: nat, p: Phase)
    requires i < |t.sessions|
    ensures Kept(t, SetPhase(t, i, p))
  {
    PutKept(t, i, t.sessions[i].(phase := p));
  }

  lemma ExportKept(t: Table, key: Option<Key>)
    ensures Kept(t, Export(t, key))
  {
    if t.target.Some? && key.Some? && Index(t.sessions, t.target.value) < |t.sessions| {
      var i := Index(t.sessions, t.target.value);
      PutKept(t, i, t.sessions[i].(kek := key.value));
    }
  }

  lemma HandshakeKept(t: Table, i: nat, r: HandshakeResult)
    requires i < |t.sessions|
    ensures Kept(t, Handshake(t, i, r))
  {
    SetPhaseKept(t, i, Ready);
    PutKept(t, i, t.sessions[i].(phase := Failed));
  }

  lemma ReadKept(t: Table, i: nat, r: ReadResult)
    requires i < |t.sessions|
    ensures Kept(t, Read(t, i, r))
  {
    match r
    case Data(_, _, _) =>
      if t.current.Some? && Index(t.sessions, t.current.value) < |t.sessions| {
        var t' := if r.finalizes then t.(needKek := true) else t;
        SetPhaseKept(t', Index(t.sessions, t.current.value), Failed);
      }
    case Eof => SetPhaseKept(t, i, Closed);
    case Reconnect => SetPhaseKept(t, i, Handshaking);
    case Timeout =>
    case Broken => SetPhaseKept(t, i, Failed);
  }

  lemma KeptTwice(t: Table, t': Table, t'': Table)
    requires Kept(t, t') && Kept(t', t'')
    ensures Kept(t, t'')
  {
  }

  lemma ProcessHandshakeKept(t: Table, i: nat, o: Outcome)
    requires i < |t.sessions|
    ensures Kept(t, ProcessHandshake(t, i, o))
  {
    ExportKept(t, o.key);
    HandshakeKept(Export(t, o.key), i, o.handshake);
    KeptTwice(t, Export(t, o.key), ProcessHandshake(t, i, o));
  }

  lemma ProcessKept(t: Table, i: nat, o: Outcome)
    requires i < |t.sessions|
    ensures Kept(t, Process(t, i, o))
  {
    var t' := Put(t, i, Renewed(t.sessions[i], o));
    PutKept(t, i, Renewed(t.sessions[i], o));
    ProcessHandshakeKept(t', i, o);
    ReadKept(t', i, o.read);
    KeptTwice(t, t', ProcessHandshake(t', i, o));
    KeptTwice(t, t', Read(t', i, o.read));
  }

  lemma PutKeeps(t: Table, i: nat, s: Session)
    requires i < |t.sessions| && s.id == t.sessions[i].id
    ensures Aimed(Put(t, i, s)) == Aimed(t) && Anchored(Put(t, i, s)) == Anchored(t)
  {
    PutKept(t, i, s);
  }

  lemma EnlistedAimed(t: Table, fd: int, garbage: Key)
    ensures Aimed(Enlisted(t, fd, garbage))
  {
    assert IdsOf(Enlisted(t, fd, garbage).sessions)[|t.sessions|] == t.nextId;
  }

  lemma EnlistedAnchored(t: Table, fd: int, garbage: Key)
    requires Anchored(t)
    ensures Anchored(Enlisted(t, fd, garbage))
  {
    if t.current.Some? {
      var i :| 0 <= i < |IdsOf(t.sessions)| && IdsOf(t.sessions)[i] == t.current.value;
      assert IdsOf(Enlisted(t, fd, garbage).sessions)[i] == t.current.value;
    }
  }

  lemma StepAlone(t: Table, s: Step)
    ensures Steps(t, [s]) == Next(t, s)
  {
    StepsAppend(t, [], s);
    assert [] + [s] == [s];
  }

  /** The table after the loop has seen the first n sessions. */
  function Looped(t: Table, n: nat, readable: set<int>, os: nat -> Outcome): Table
    decreases n, t
  {
    if n == 0 then t
    else
      var u := Looped(t, n - 1, readable, os);
      if n <= |u.sessions| then Visit(u, n - 1, readable, os(n - 1)) else u
  }

  /** One more turn, as steps. */
  lemma VisitSteps(t: Table, ss: seq<Step>, i: nat, readable: set<int>, o: Outcome)
    ensures var u := Steps(t, ss);
      (if i < |u.sessions| then Visit(u, i, readable, o) else u)
      == Steps(t, if i < |u.sessions| && u.sessions[i].fd in readable then ss + [ProcessStep(i, o)] else ss)
  {
    StepsAppend(t, ss, ProcessStep(i, o));
  }

  lemma {:induction false} LoopedSteps(t: Table, n: nat, readable: set<int>, os: nat -> Outcome)
    ensures Looped(t, n, readable, os) == Steps(t, LoopSteps(t, n, readable, os))
    decreases n
  {
    if n > 0 {
      LoopedSteps(t, n - 1, readable, os);
      VisitSteps(t, LoopSteps(t, n - 1, readable, os), n - 1, readable, os(n - 1));
    }
  }

  ghost predicate LoopedTo(t: Table, n: nat, readable: set<int>, os: nat -> Outcome, u: Table) {
    u == Looped(t, n, readable, os)
  }

  lemma LoopedStarts(t: Table, readable: set<int>, os: nat -> Outcome)
    ensures LoopedTo(t, 0, readable, os, t)
  {
  }

  lemma LoopedOn(t: Table, n: nat, readable: set<int>, os: nat -> Outcome, u: Table, u': Table)
    requires LoopedTo(t, n, readable, os, u)
    requires n < |u.sessions| && u' == Visit(u, n, readable, os(n))
    ensures LoopedTo(t, n + 1, readable, os, u')
  {
  }

  /** The loop's turn at a place works on no destroyed session. */
  predicate DefinedAt(t: Table, k: nat, readable: set<int>, os: nat -> Outcome) {
    var u := Looped(t, k, readable, os);
    k < |u.sessions| && u.sessions[k].fd in readable ==> Defined(u, ProcessStep(k, os(k)))
  }

  /** So do all its first n turns. */
  predicate LoopDefined(t: Table, n: nat, readable: set<int>, os: nat -> Outcome)
    decreases n, t
  {
    n == 0 || (LoopDefined(t, n - 1, readable, os) && DefinedAt(t, n - 1, readable, os))
  }

  lemma {:induction false} LoopDefinedAt(t: Table, n: nat, k: nat, readable: set<int>, os: nat -> Outcome)
    requires LoopDefined(t, n, readable, os) && k < n
    ensures DefinedAt(t, k, readable, os)
    decreases n
  {
    if k < n - 1 {
      LoopDefinedAt(t, n - 1, k, readable, os);
    }
  }

  /** The turn at a place, seen from the table the loop has reached. */
  lemma TurnDefined(t: Table, n: nat, k: nat, readable: set<int>, os: nat -> Outcome, u: Table)
    requires LoopDefined(t, n, readable, os) && k < n && LoopedTo(t, k, readable, os, u)
    ensures k < |u.sessions| && u.sessions[k].fd in readable ==> Defined(u, ProcessStep(k, os(k)))
  {
    LoopDefinedAt(t, n, k, readable, os);
  }

  lemma AcceptFailsAlone(t: Table, garbage: Phase)
    ensures Steps(t, [AcceptFailStep(garbage)])
         == if Over(garbage) then t.(nextId := t.nextId + 1) else t.(nextId := t.nextId + 1, current := None)
  {
    StepAlone(t, AcceptFailStep(garbage));
  }

  lemma LastApart<T>(a: seq<T>, b: seq<T>)
    requires b != []
    ensures a + b == (a + b[..|b| - 1]) + [b[|b| - 1]]
  {
  }

  lemma {:induction false} StepsConcat(t: Table, a: seq<Step>, b: seq<Step>)
    ensures Steps(t, a + b) == Steps(Steps(t, a), b)
    decreases |b|
  {
    if b == [] {
      assert a + b == a;
    } else {
      var front, last := b[..|b| - 1], b[|b| - 1];
      StepsConcat(t, a, front);
      LastApart(a, b);
      StepsAppend(t, a + front, last);
    }
  }
}
