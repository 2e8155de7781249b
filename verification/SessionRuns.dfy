/** Whole runs of the session table: every session after every step, the pointer, and whose key is handed over. */
module SessionRuns {
  import opened Bytes
  import opened Sessions

  // Every session after one step.

  /** The step tries to send and the write fails. */
  predicate FailsSend(t: Table, s: Step) {
    match s
    case SendStep(fails) => fails
    case ProcessStep(i, o) =>
      i < |t.sessions| && t.sessions[i].phase.Ready? && o.read.Data? && o.read.answers && o.read.answerFails
    case _ => false
  }

  /** The step processes the session at a place. */
  predicate Processes(s: Step, j: nat) {
    s.ProcessStep? && s.place == j
  }

  /** Where processing takes a session, when no write fails. */
  function Moved(p: Phase, o: Outcome): Phase {
    match p
    case Handshaking => (match o.handshake case Done => Ready case Pending => Handshaking case Refused => Failed)
    case Ready =>
      (match o.read
       case Eof => Closed
       case Reconnect => Handshaking
       case Broken => Failed
       case _ => Ready)
    case _ => p
  }

  /** The key that the step exports while it works on a handshake of a session in the table. */
  function Exports(t: Table, s: Step): Option<Key> {
    match s
    case ProcessStep(i, o) => if i < |t.sessions| && t.sessions[i].phase.Handshaking? then o.key else None
    case _ => None
  }

  /** What a step makes of the session at a place, if it leaves it in the table. */
  function After(t: Table, s: Step, j: nat): Session
    requires j < |t.sessions|
  {
    var x, key := t.sessions[j], Exports(t, s);
    var y := if Processes(s, j) then Renewed(x, s.outcome) else x;
    var p := if FailsSend(t, s) && t.current == Some(x.id) then Failed
             else if Processes(s, j) then Moved(x.phase, s.outcome)
             else x.phase;
    y.(phase := p, kek := if key.Some? && t.target == Some(x.id) then key.value else x.kek)
  }

  lemma ExportAt(t: Table, key: Option<Key>, j: nat)
    requires Proper(t) && j < |t.sessions|
    ensures var t' := Export(t, key);
      && |t'.sessions| == |t.sessions| && t' == t.(sessions := t'.sessions)
      && t'.sessions[j]
         == t.sessions[j].(kek := if key.Some? && t.target == Some(t.sessions[j].id) then key.value
                                  else t.sessions[j].kek)
  {
    IndexHere(t, j);
  }

  lemma SendAt(t: Table, fails: bool, j: nat)
    requires Proper(t) && j < |t.sessions|
    ensures var t' := Send(t, fails);
      && |t'.sessions| == |t.sessions|
      && t'.sessions[j] == if fails && t.current == Some(t.sessions[j].id) then t.sessions[j].(phase := Failed)
                           else t.sessions[j]
  {
    IndexHere(t, j);
  }

  lemma HandshakeAt(t: Table, i: nat, r: HandshakeResult, j: nat)
    requires i < |t.sessions| && j < |t.sessions|
    ensures var t' := Handshake(t, i, r);
      && |t'.sessions| == |t.sessions|
      && t'.sessions[j] == if j != i then t.sessions[j] else
           t.sessions[j].(phase :=
             match r case Done => Ready case Pending => t.sessions[j].phase case Refused => Failed)
  {
  }

  lemma ReadAt(t: Table, i: nat, r: ReadResult, j: nat)
    requires Proper(t) && i < |t.sessions| && j < |t.sessions| && t.sessions[i].phase.Ready?
    ensures var t' := Read(t, i, r);
      && |t'.sessions| == |t.sessions|
      && t'.sessions[j] == t.sessions[j].(phase :=
           match r
           case Data(_, answers, fails) =>
             if answers && fails && t.current == Some(t.sessions[j].id) then Failed else t.sessions[j].phase
           case Eof => if j == i then Closed else t.sessions[j].phase
           case Reconnect => if j == i then Handshaking else t.sessions[j].phase
           case Timeout => t.sessions[j].phase
           case Broken => if j == i then Failed else t.sessions[j].phase)
  {
    match r
    case Data(finalizes, _, fails) => SendAt(if finalizes then t.(needKek := true) else t, fails, j);
    case _ =>
  }

  lemma ProcessAt(t: Table, i: nat, o: Outcome, j: nat)
    requires Proper(t) && i < |t.sessions| && j < |t.sessions|
    ensures var t' := Process(t, i, o);
      |t'.sessions| == |t.sessions| && t'.sessions[j] == After(t, ProcessStep(i, o), j)
  {
    var u := Put(t, i, Renewed(t.sessions[i], o));
    PutProper(t, i, Renewed(t.sessions[i], o));
    match t.sessions[i].phase
    case Handshaking =>
      ExportAt(u, o.key, j);
      HandshakeAt(Export(u, o.key), i, o.handshake, j);
    case Ready => ReadAt(u, i, o.read, j);
    case _ =>
  }

  lemma KeptProper(t: Table, t': Table)
    requires Proper(t) && Kept(t, t')
    ensures Proper(t')
  {
    assert |t'.sessions| == |t.sessions|;
    forall i | 0 <= i < |t.sessions|
      ensures t'.sessions[i].id == t.sessions[i].id
    {
      assert IdsOf(t'.sessions)[i] == IdsOf(t.sessions)[i];
    }
  }

  lemma SendKept(t: Table, fails: bool)
    ensures Kept(t, Send(t, fails))
  {
    if t.current.Some? && Index(t.sessions, t.current.value) < |t.sessions| {
      SetPhaseKept(t, Index(t.sessions, t.current.value), Failed);
    }
  }

  /** Ids stay unique over every step. */
  lemma NextProper(t: Table, s: Step)
    requires Proper(t)
    ensures Proper(Next(t, s)) && t.nextId <= Next(t, s).nextId
  {
    match s
    case ProcessStep(i, o) =>
      if i < |t.sessions| {
        ProcessKept(t, i, o);
        KeptProper(t, Process(t, i, o));
      }
    case AcceptStep(fd, garbage, o) =>
      var u := Enlisted(t, fd, garbage);
      ProcessKept(u, |t.sessions|, o);
      KeptProper(u, Process(u, |t.sessions|, o));
    case AcceptFailStep(_) =>
    case SendStep(fails) =>
      SendKept(t, fails);
      KeptProper(t, Send(t, fails));
    case SweepStep(now) => SurvivorsProper(t, now);
    case KekSentStep =>
  }

  /** The same id in the same table is the same place. */
  lemma PlaceKept(t: Table, t': Table, j: nat, k: nat)
    requires Proper(t) && Kept(t, t') && j < |t.sessions| && k < |t'.sessions| && t'.sessions[k].id == t.sessions[j].id
    ensures k == j
  {
    assert IdsOf(t'.sessions)[k] == IdsOf(t.sessions)[k];
  }

  /** Every session that is in the table before and after a step is afterwards what the step makes of it. */
  lemma NextAt(t: Table, s: Step, j: nat, k: nat)
    requires Proper(t) && j < |t.sessions| && k < |Next(t, s).sessions|
    requires Next(t, s).sessions[k].id == t.sessions[j].id
    ensures Next(t, s).sessions[k] == After(t, s, j)
  {
    match s
    case ProcessStep(i, o) =>
      if i < |t.sessions| {
        ProcessKept(t, i, o);
        PlaceKept(t, Next(t, s), j, k);
        ProcessAt(t, i, o, j);
      }
    case AcceptStep(fd, garbage, o) => AcceptAt(t, fd, garbage, o, j, k);
    case AcceptFailStep(_) =>
    case SendStep(fails) =>
      SendKept(t, fails);
      PlaceKept(t, Next(t, s), j, k);
      SendAt(t, fails, j);
    case SweepStep(now) => SurvivorMembers(t.sessions, now, Next(t, s).sessions[k]);
    case KekSentStep =>
  }

  lemma EnlistedProper(t: Table, fd: int, garbage: Key)
    requires Proper(t)
    ensures Proper(Enlisted(t, fd, garbage))
  {
  }

  /** Accepting a session leaves every other one as it was. */
  lemma AcceptAt(t: Table, fd: int, garbage: Key, o: Outcome, j: nat, k: nat)
    requires Proper(t) && j < |t.sessions| && k < |Accept(t, fd, garbage, o).sessions|
    requires Accept(t, fd, garbage, o).sessions[k].id == t.sessions[j].id
    ensures Accept(t, fd, garbage, o).sessions[k] == t.sessions[j]
  {
    var u := Enlisted(t, fd, garbage);
    EnlistedProper(t, fd, garbage);
    ProcessKept(u, |t.sessions|, o);
    assert u.sessions[j] == t.sessions[j];
    PlaceKept(u, Accept(t, fd, garbage, o), j, k);
    ProcessAt(u, |t.sessions|, o, j);
  }

  // The documented diagram.

  lemma SweptAway(t: Table, now: nat, i: nat)
    requires Proper(t) && i < |t.sessions| && !Alive(t.sessions[i], now)
    ensures t.sessions[i].id !in IdsOf(Sweep(t, now).sessions)
  {
    var u := Sweep(t, now);
    forall k | 0 <= k < |u.sessions|
      ensures u.sessions[k].id != t.sessions[i].id
    {
      SurvivorMembers(t.sessions, now, u.sessions[k]);
      var j :| 0 <= j < |t.sessions| && t.sessions[j] == u.sessions[k];
    }
  }

  /** A session in the table stays in it over a sweep exactly when it is alive. */
  lemma SweptIff(t: Table, now: nat, i: nat)
    requires Proper(t) && i < |t.sessions|
    ensures t.sessions[i].id in IdsOf(Sweep(t, now).sessions) <==> Alive(t.sessions[i], now)
  {
    if Alive(t.sessions[i], now) {
      var u := Sweep(t, now);
      SweepKeeps(t, now, t.sessions[i]);
      var k :| 0 <= k < |u.sessions| && u.sessions[k] == t.sessions[i];
      assert IdsOf(u.sessions)[k] == t.sessions[i].id;
    } else {
      SweptAway(t, now, i);
    }
  }

  predicate Drawn(from: Phase, to: Phase) {
    || from == to
    || (from.Handshaking? && (to.Ready? || to.Failed? || to.Expired?))
    || (from.Ready? && (to.Closed? || to.Ended? || to.Expired?))
    || ((from.Closed? || from.Expired?) && to.Ended?)
  }

  /** The phase that a step leaves a session in: the last one, if the step is a sweep that destroys it. */
  function LastPhase(t: Table, s: Step, j: nat): Phase
    requires j < |t.sessions|
  {
    if s.SweepStep? && !Alive(t.sessions[j], s.now) then Closing(t, j).sessions[j].phase else After(t, s, j).phase
  }

  /** A ready session is processed and its client reconnects or its read breaks, or a failed write hits the current
      session and that session is neither shaking hands nor failed already, or a session expires while it shakes
      hands. */
  predicate LeavesDiagram(t: Table, s: Step, j: nat)
    requires j < |t.sessions|
  {
    var x := t.sessions[j];
    || (Processes(s, j) && x.phase.Ready? && (s.outcome.read.Reconnect? || s.outcome.read.Broken?))
    || (FailsSend(t, s) && t.current == Some(x.id) && !x.phase.Handshaking? && !x.phase.Failed?)
    || (s.SweepStep? && x.phase.Handshaking? && x.expiration <= s.now)
  }

  /** A session leaves the table only in a sweep that does not find it alive. */
  lemma StaysIff(t: Table, s: Step, j: nat)
    requires Proper(t) && j < |t.sessions|
    ensures t.sessions[j].id in IdsOf(Next(t, s).sessions) <==> !(s.SweepStep? && !Alive(t.sessions[j], s.now))
  {
    assert IdsOf(t.sessions)[j] == t.sessions[j].id;
    match s
    case ProcessStep(i, o) => if i < |t.sessions| { ProcessKept(t, i, o); }
    case AcceptStep(fd, garbage, o) =>
      ProcessKept(Enlisted(t, fd, garbage), |t.sessions|, o);
      assert IdsOf(Enlisted(t, fd, garbage).sessions)[j] == t.sessions[j].id;
    case SendStep(fails) => SendKept(t, fails);
    case SweepStep(now) => SweptIff(t, now, j);
    case _ =>
  }

  /** Every step and every session that is in the table before it, whether it stays or is destroyed: exactly when its
      phase leaves the documented diagram. */
  lemma DiagramIff(t: Table, s: Step, j: nat)
    requires Proper(t) && j < |t.sessions|
    ensures !Drawn(t.sessions[j].phase, LastPhase(t, s, j)) <==> LeavesDiagram(t, s, j)
    ensures forall k | 0 <= k < |Next(t, s).sessions| && Next(t, s).sessions[k].id == t.sessions[j].id ::
              Next(t, s).sessions[k].phase == LastPhase(t, s, j)
    ensures t.sessions[j].id in IdsOf(Next(t, s).sessions) <==> !(s.SweepStep? && !Alive(t.sessions[j], s.now))
  {
    StaysIff(t, s, j);
    forall k | 0 <= k < |Next(t, s).sessions| && Next(t, s).sessions[k].id == t.sessions[j].id
      ensures Next(t, s).sessions[k].phase == LastPhase(t, s, j)
    {
      assert IdsOf(Next(t, s).sessions)[k] == t.sessions[j].id;
      NextAt(t, s, j, k);
    }
  }

  // Time to live.

  /** Some step of the run processes the session with this id. */
  ghost predicate ProcessedIn(t: Table, ss: seq<Step>, id: nat) {
    exists m :: 0 <= m < |ss| && Touches(Steps(t, ss[..m]), ss[m], id)
  }

  predicate Touches(t: Table, s: Step, id: nat) {
    s.ProcessStep? && s.place < |t.sessions| && t.sessions[s.place].id == id
  }

  lemma {:induction false} RunProper(t: Table, ss: seq<Step>)
    requires Proper(t)
    ensures Proper(Steps(t, ss)) && t.nextId <= Steps(t, ss).nextId
  {
    if ss != [] {
      RunProper(t, ss[..|ss| - 1]);
      NextProper(Steps(t, ss[..|ss| - 1]), ss[|ss| - 1]);
    }
  }

  ghost predicate Listed(t: Table, id: nat) {
    exists j :: 0 <= j < |t.sessions| && t.sessions[j].id == id
  }

  /** A session in the table after a step was there before, or is the one the step accepts. */
  lemma FromBefore(t: Table, s: Step, k: nat)
    requires Proper(t) && k < |Next(t, s).sessions|
    ensures var id := Next(t, s).sessions[k].id;
      (id == t.nextId && s.AcceptStep?) || Listed(t, id)
  {
    var id := Next(t, s).sessions[k].id;
    match s
    case ProcessStep(i, o) =>
      if i < |t.sessions| {
        ProcessKept(t, i, o);
        assert IdsOf(Next(t, s).sessions)[k] == IdsOf(t.sessions)[k];
      }
      assert t.sessions[k].id == id;
    case AcceptStep(fd, garbage, o) =>
      var u := Enlisted(t, fd, garbage);
      ProcessKept(u, |t.sessions|, o);
      assert IdsOf(Next(t, s).sessions)[k] == IdsOf(u.sessions)[k];
      assert k < |t.sessions| ==> t.sessions[k].id == id;
    case SendStep(fails) =>
      SendKept(t, fails);
      assert IdsOf(Next(t, s).sessions)[k] == IdsOf(t.sessions)[k];
      assert t.sessions[k].id == id;
    case SweepStep(now) =>
      SurvivorMembers(t.sessions, now, Next(t, s).sessions[k]);
      var j :| 0 <= j < |t.sessions| && t.sessions[j] == Next(t, s).sessions[k];
    case _ => assert t.sessions[k].id == id;
  }

  lemma PrefixTouched(t: Table, ss: seq<Step>, id: nat)
    requires ss != [] && !ProcessedIn(t, ss, id)
    ensures !ProcessedIn(t, ss[..|ss| - 1], id) && !Touches(Steps(t, ss[..|ss| - 1]), ss[|ss| - 1], id)
  {
    var front := ss[..|ss| - 1];
    forall m | 0 <= m < |front|
      ensures !Touches(Steps(t, front[..m]), front[m], id)
    {
      assert front[..m] == ss[..m];
    }
  }

  /** No step but its own processing changes a session's expiration. */
  lemma {:induction false} ExpirationKept(t: Table, ss: seq<Step>, j: nat, k: nat)
    requires Proper(t) && j < |t.sessions| && k < |Steps(t, ss).sessions|
    requires Steps(t, ss).sessions[k].id == t.sessions[j].id && !ProcessedIn(t, ss, t.sessions[j].id)
    ensures Steps(t, ss).sessions[k].expiration == t.sessions[j].expiration
    decreases |ss|
  {
    if ss == [] {
      assert k == j;
    } else {
      var front, last := ss[..|ss| - 1], ss[|ss| - 1];
      var u := Steps(t, front);
      RunProper(t, front);
      PrefixTouched(t, ss, t.sessions[j].id);
      FromBefore(u, last, k);
      var m :| 0 <= m < |u.sessions| && u.sessions[m].id == t.sessions[j].id;
      ExpirationKept(t, front, j, m);
      NextAt(u, last, m, k);
    }
  }

  // Sockets.

  predicate Shakes(t: Table, s: Step, id: nat) {
    Touches(t, s, id) && t.sessions[s.place].phase.Handshaking?
  }

  /** Some step of the run processes the session with this id while it shakes hands. */
  ghost predicate ShakenIn(t: Table, ss: seq<Step>, id: nat) {
    exists m :: 0 <= m < |ss| && Shakes(Steps(t, ss[..m]), ss[m], id)
  }

  lemma PrefixShaken(t: Table, ss: seq<Step>, id: nat)
    requires ss != [] && !ShakenIn(t, ss, id)
    ensures !ShakenIn(t, ss[..|ss| - 1], id) && !Shakes(Steps(t, ss[..|ss| - 1]), ss[|ss| - 1], id)
  {
    var front := ss[..|ss| - 1];
    forall m | 0 <= m < |front|
      ensures !Shakes(Steps(t, front[..m]), front[m], id)
    {
      assert front[..m] == ss[..m];
    }
  }

  /** No step but its own processing while it shakes hands changes a session's socket. */
  lemma {:induction false} SocketKept(t: Table, ss: seq<Step>, j: nat, k: nat)
    requires Proper(t) && j < |t.sessions| && k < |Steps(t, ss).sessions|
    requires Steps(t, ss).sessions[k].id == t.sessions[j].id && !ShakenIn(t, ss, t.sessions[j].id)
    ensures Steps(t, ss).sessions[k].fd == t.sessions[j].fd
    decreases |ss|
  {
    if ss == [] {
      assert k == j;
    } else {
      var front, last := ss[..|ss| - 1], ss[|ss| - 1];
      var u := Steps(t, front);
      RunProper(t, front);
      PrefixShaken(t, ss, t.sessions[j].id);
      FromBefore(u, last, k);
      var m :| 0 <= m < |u.sessions| && u.sessions[m].id == t.sessions[j].id;
      SocketKept(t, front, j, m);
      NextAt(u, last, m, k);
    }
  }

  /** A session that is processed while it shakes hands waits on the socket that the library then has for it, until it
      is processed so again. */
  lemma SocketIs(t: Table, i: nat, o: Outcome, ss: seq<Step>, k: nat)
    requires Proper(t) && i < |t.sessions| && t.sessions[i].phase.Handshaking?
    requires var u := Process(t, i, o);
      k < |Steps(u, ss).sessions| && Steps(u, ss).sessions[k].id == t.sessions[i].id
      && !ShakenIn(u, ss, t.sessions[i].id)
    ensures Steps(Process(t, i, o), ss).sessions[k].fd == o.fd
  {
    ProcessAt(t, i, o, i);
    NextProper(t, ProcessStep(i, o));
    SocketKept(Process(t, i, o), ss, i, k);
  }

  /** A session that is processed and then left alone, whatever else goes on, is alive for exactly the session
      timeout, as long as its phase is. */
  lemma LivesIff(t: Table, i: nat, o: Outcome, ss: seq<Step>, k: nat, now: nat)
    requires Proper(t) && i < |t.sessions|
    requires var u := Process(t, i, o);
      k < |Steps(u, ss).sessions| && Steps(u, ss).sessions[k].id == t.sessions[i].id
      && !ProcessedIn(u, ss, t.sessions[i].id)
    ensures var s := Steps(Process(t, i, o), ss).sessions[k];
      Alive(s, now) <==> now < o.now + 60000 && (s.phase.Ready? || s.phase.Handshaking?)
  {
    ProcessAt(t, i, o, i);
    NextProper(t, ProcessStep(i, o));
    ExpirationKept(Process(t, i, o), ss, i, k);
  }

  // The pointer.

  /** A sweep finds the current session over, so that destroying it calls nobody, and no other session it destroys
      calls back. */
  ghost predicate Loses(t: Table, s: Step) {
    && s.SweepStep?
    && (exists i :: 0 <= i < |t.sessions| && t.current == Some(t.sessions[i].id) && Over(t.sessions[i].phase))
    && forall i | 0 <= i < |t.sessions| :: !CallsBack(t.sessions[i], s.now)
  }

  lemma KeptAnchored(t: Table, t': Table)
    requires Anchored(t) && Kept(t, t')
    ensures Anchored(t')
  {
  }

  lemma SweepAnchoredIff(t: Table, now: nat)
    requires Proper(t) && Anchored(t)
    ensures Anchored(Sweep(t, now)) <==> !Loses(t, SweepStep(now))
  {
    var u := Sweep(t, now);
    if u.current.Some? {
      var i :| 0 <= i < |IdsOf(t.sessions)| && IdsOf(t.sessions)[i] == t.current.value;
      var x := t.sessions[i];
      assert !CallsBack(x, now);
      if Alive(x, now) {
        SweepKeeps(t, now, x);
        var k :| 0 <= k < |u.sessions| && u.sessions[k] == x;
        assert IdsOf(u.sessions)[k] == x.id;
      } else {
        assert Over(x.phase);
        SweptAway(t, now, i);
      }
    }
  }

  lemma StepAnchoredIff(t: Table, s: Step)
    requires Proper(t) && Anchored(t)
    ensures Anchored(Next(t, s)) <==> !Loses(t, s)
  {
    match s
    case ProcessStep(i, o) =>
      if i < |t.sessions| {
        ProcessKept(t, i, o);
        KeptAnchored(t, Next(t, s));
      }
    case AcceptStep(fd, garbage, o) =>
      var u := Enlisted(t, fd, garbage);
      EnlistedAnchored(t, fd, garbage);
      ProcessKept(u, |t.sessions|, o);
      KeptAnchored(u, Next(t, s));
    case AcceptFailStep(_) =>
    case SendStep(fails) =>
      SendKept(t, fails);
      KeptAnchored(t, Next(t, s));
    case SweepStep(now) => SweepAnchoredIff(t, now);
    case KekSentStep =>
  }

  ghost predicate AlwaysAnchored(ss: seq<Step>) {
    forall k | 0 <= k <= |ss| :: Anchored(Steps(EMPTY, ss[..k]))
  }

  ghost predicate LosesAt(ss: seq<Step>, k: nat)
    requires k < |ss|
  {
    Loses(Steps(EMPTY, ss[..k]), ss[k])
  }

  ghost predicate NeverLoses(ss: seq<Step>) {
    forall k | 0 <= k < |ss| :: !LosesAt(ss, k)
  }

  lemma {:induction false} AnchoredUpTo(ss: seq<Step>, n: nat)
    requires n <= |ss| && forall k | 0 <= k < n :: !LosesAt(ss, k)
    ensures Anchored(Steps(EMPTY, ss[..n]))
    decreases n
  {
    if n > 0 {
      AnchoredUpTo(ss, n - 1);
      RunProper(EMPTY, ss[..n - 1]);
      LastStep(ss, n - 1);
      assert !LosesAt(ss, n - 1);
      StepAnchoredIff(Steps(EMPTY, ss[..n - 1]), ss[n - 1]);
    }
  }

  /** Over every run from the empty table: the current session is null or in the table throughout, if and only if
      no sweep ever finds it over with nobody it destroys to call back. */
  lemma RunAnchoredIff(ss: seq<Step>)
    ensures AlwaysAnchored(ss) <==> NeverLoses(ss)
  {
    if NeverLoses(ss) {
      forall n | 0 <= n <= |ss|
        ensures Anchored(Steps(EMPTY, ss[..n]))
      {
        AnchoredUpTo(ss, n);
      }
    } else {
      var n :| 0 <= n < |ss| && LosesAt(ss, n);
      if AlwaysAnchored(ss) {
        RunProper(EMPTY, ss[..n]);
        LastStep(ss, n);
        assert Anchored(Steps(EMPTY, ss[..n])) && Anchored(Steps(EMPTY, ss[..n + 1]));
        StepAnchoredIff(Steps(EMPTY, ss[..n]), ss[n]);
      }
    }
  }

  /** What a sweep needs to lose the pointer, only a refused handshake of the current session brings about. */
  lemma RefusalNeeded(ss: seq<Step>)
    requires NeverRefuses(ss)
    ensures AlwaysAnchored(ss)
  {
    RunSafeIff(ss);
    forall n | 0 <= n <= |ss|
      ensures Anchored(Steps(EMPTY, ss[..n]))
    {
      var t := Steps(EMPTY, ss[..n]);
      assert Safe(t);
      if t.current.Some? {
        var x :| x in t.sessions && x.id == t.current.value && !Over(x.phase);
        var k :| 0 <= k < |t.sessions| && t.sessions[k] == x;
        assert IdsOf(t.sessions)[k] == x.id;
      }
    }
  }

  // Keys.

  /** A session is put into the table with some key, a handshake of one session exports a key into the field of
      another or the same, and a handshake begins anew. */
  datatype Event = Opened(id: nat, key: Key) | Exported(source: nat, dest: nat, key: Key) | Restarted(id: nat)

  function ProcessEvents(t: Table, i: nat, o: Outcome): seq<Event>
    requires i < |t.sessions|
  {
    match t.sessions[i].phase
    case Handshaking =>
      if o.key.Some? && t.target.Some? then [Exported(t.sessions[i].id, t.target.value, o.key.value)] else []
    case Ready => if o.read.Reconnect? then [Restarted(t.sessions[i].id)] else []
    case _ => []
  }

  function EventsOf(t: Table, s: Step): seq<Event> {
    match s
    case ProcessStep(i, o) => if i < |t.sessions| then ProcessEvents(t, i, o) else []
    case AcceptStep(fd, garbage, o) =>
      [Opened(t.nextId, garbage)] + ProcessEvents(Enlisted(t, fd, garbage), |t.sessions|, o)
    case _ => []
  }

  function Log(ss: seq<Step>): seq<Event> {
    if ss == [] then [] else Log(ss[..|ss| - 1]) + EventsOf(Steps(EMPTY, ss[..|ss| - 1]), ss[|ss| - 1])
  }

  predicate Writes(e: Event, id: nat) {
    (e.Opened? && e.id == id) || (e.Exported? && e.dest == id)
  }

  /** The last event that writes the key field of a session. */
  function LastWrite(log: seq<Event>, id: nat): (r: Option<nat>)
    ensures r.Some? ==> r.value < |log| && Writes(log[r.value], id) && !log[r.value].Restarted?
    ensures forall j | (if r.Some? then r.value < j else 0 <= j) && j < |log| :: !Writes(log[j], id)
  {
    if log == [] then None
    else if Writes(log[|log| - 1], id) then Some(|log| - 1)
    else LastWrite(log[..|log| - 1], id)
  }

  /** The last key that a session's own, latest handshake exported. */
  function OwnExport(log: seq<Event>, id: nat): (r: Option<nat>)
    ensures r.Some? ==> r.value < |log| && log[r.value].Exported? && log[r.value].source == id
    ensures r.Some? ==> forall j | r.value < j < |log| :: !(log[j].Opened? && log[j].id == id)
  {
    if log == [] then None
    else
      var e := log[|log| - 1];
      if e.Exported? && e.source == id then Some(|log| - 1)
      else if (e.Restarted? || e.Opened?) && e.id == id then None
      else OwnExport(log[..|log| - 1], id)
  }

  /** Every key field holds what the last event that writes it wrote. */
  ghost predicate Recorded(t: Table, log: seq<Event>) {
    forall j | 0 <= j < |t.sessions| ::
      var w := LastWrite(log, t.sessions[j].id);
      w.Some? && t.sessions[j].kek == log[w.value].key
  }

  lemma {:induction false} LastWriteAppend(log: seq<Event>, more: seq<Event>, id: nat)
    ensures LastWrite(log + more, id)
         == var w := LastWrite(more, id);
            if w.Some? then Some(|log| + w.value) else LastWrite(log, id)
    decreases |more|
  {
    if more == [] {
      assert log + more == log;
    } else {
      assert (log + more)[..|log + more| - 1] == log + more[..|more| - 1];
      if !Writes(more[|more| - 1], id) {
        LastWriteAppend(log, more[..|more| - 1], id);
      }
    }
  }

  lemma LastWriteOne(e: Event, id: nat)
    ensures LastWrite([e], id) == if Writes(e, id) then Some(0) else None
    ensures LastWrite([], id) == None
  {
    assert [e][..0] == [];
  }

  /** The events of a step write the field of a session exactly when the step exports a key into it. */
  lemma ProcessWrites(t: Table, i: nat, o: Outcome, id: nat)
    requires i < |t.sessions|
    ensures var (es, key) := (ProcessEvents(t, i, o), Exports(t, ProcessStep(i, o)));
      && |es| <= 1
      && LastWrite(es, id) == (if key.Some? && t.target == Some(id) then Some(0) else None)
      && (key.Some? && t.target == Some(id) ==> es[0] == Exported(t.sessions[i].id, id, key.value))
  {
    var es := ProcessEvents(t, i, o);
    if es == [] {
      LastWriteOne(Restarted(0), id);
    } else {
      LastWriteOne(es[0], id);
      assert es == [es[0]];
    }
  }

  lemma AcceptWrites(t: Table, fd: int, garbage: Key, o: Outcome, id: nat)
    ensures var es := EventsOf(t, AcceptStep(fd, garbage, o));
      var w := LastWrite(es, id);
      if id != t.nextId then w == None
      else w.Some? && es[w.value].key == if o.key.Some? then o.key.value else garbage
  {
    var u := Enlisted(t, fd, garbage);
    var first, rest := [Opened(t.nextId, garbage)], ProcessEvents(u, |t.sessions|, o);
    assert u.sessions[|t.sessions|] == Session(t.nextId, Handshaking, 0, fd, garbage);
    ProcessWrites(u, |t.sessions|, o, id);
    LastWriteOne(first[0], id);
    LastWriteAppend(first, rest, id);
  }

  /** The session an accept step puts into the table has the key its own first handshake call exported, if any. */
  lemma AcceptedKek(t: Table, fd: int, garbage: Key, o: Outcome, k: nat)
    requires Proper(t) && k < |Accept(t, fd, garbage, o).sessions|
    requires Accept(t, fd, garbage, o).sessions[k].id == t.nextId
    ensures Accept(t, fd, garbage, o).sessions[k].kek == if o.key.Some? then o.key.value else garbage
  {
    var u := Enlisted(t, fd, garbage);
    EnlistedProper(t, fd, garbage);
    ProcessKept(u, |t.sessions|, o);
    assert u.sessions[|t.sessions|] == Session(t.nextId, Handshaking, 0, fd, garbage);
    PlaceKept(u, Accept(t, fd, garbage, o), |t.sessions|, k);
    ProcessAt(u, |t.sessions|, o, |t.sessions|);
  }

  lemma EventsWrite(t: Table, s: Step, log: seq<Event>, k: nat)
    requires Proper(t) && Recorded(t, log) && k < |Next(t, s).sessions|
    ensures var (x, all) := (Next(t, s).sessions[k], log + EventsOf(t, s));
      var w := LastWrite(all, x.id);
      w.Some? && x.kek == all[w.value].key
  {
    var x, es := Next(t, s).sessions[k], EventsOf(t, s);
    LastWriteAppend(log, es, x.id);
    LastWriteOne(Restarted(0), x.id);
    FromBefore(t, s, k);
    if s.AcceptStep? {
      AcceptWrites(t, s.fd, s.garbageKek, s.first, x.id);
    } else if s.ProcessStep? && s.place < |t.sessions| {
      ProcessWrites(t, s.place, s.outcome, x.id);
    }
    if Listed(t, x.id) {
      var j :| 0 <= j < |t.sessions| && t.sessions[j].id == x.id;
      NextAt(t, s, j, k);
    } else {
      AcceptedKek(t, s.fd, s.garbageKek, s.first, k);
    }
  }

  lemma {:induction false} RunRecorded(ss: seq<Step>)
    ensures Recorded(Steps(EMPTY, ss), Log(ss))
  {
    if ss != [] {
      var front, last := ss[..|ss| - 1], ss[|ss| - 1];
      var t := Steps(EMPTY, front);
      RunRecorded(front);
      RunProper(EMPTY, front);
      forall k | 0 <= k < |Steps(EMPTY, ss).sessions|
        ensures var w := LastWrite(Log(ss), Steps(EMPTY, ss).sessions[k].id);
          w.Some? && Steps(EMPTY, ss).sessions[k].kek == Log(ss)[w.value].key
      {
        EventsWrite(t, last, Log(front), k);
      }
    }
  }

  /** The step completes the handshake of the session with this id. */
  predicate Completes(t: Table, s: Step, id: nat) {
    match s
    case ProcessStep(i, o) =>
      i < |t.sessions| && t.sessions[i].id == id && t.sessions[i].phase.Handshaking? && o.handshake.Done?
    case AcceptStep(_, _, o) => id == t.nextId && o.handshake.Done?
    case _ => false
  }

  lemma ProcessCompletes(t: Table, i: nat, o: Outcome)
    requires Proper(t) && i < |t.sessions| && t.sessions[i].phase.Handshaking? && o.handshake.Done?
    ensures var t' := Process(t, i, o);
      t'.current == Some(t.sessions[i].id) && |t'.sessions| == |t.sessions|
      && t'.sessions[i].id == t.sessions[i].id && t'.kek == t'.sessions[i].kek
  {
    var u := Put(t, i, Renewed(t.sessions[i], o));
    PutProper(t, i, Renewed(t.sessions[i], o));
    ExportAt(u, o.key, i);
  }

  /** On completion the joiner session takes over the session and what its key field holds. */
  lemma CompletesWith(t: Table, s: Step, id: nat) returns (k: nat)
    requires Proper(t) && Completes(t, s, id)
    ensures var t' := Next(t, s);
      t'.current == Some(id) && k < |t'.sessions| && t'.sessions[k].id == id && t'.kek == t'.sessions[k].kek
  {
    match s {
      case ProcessStep(i, o) =>
        ProcessCompletes(t, i, o);
        k := i;
      case AcceptStep(fd, garbage, o) =>
        EnlistedProper(t, fd, garbage);
        assert Enlisted(t, fd, garbage).sessions[|t.sessions|] == Session(t.nextId, Handshaking, 0, fd, garbage);
        ProcessCompletes(Enlisted(t, fd, garbage), |t.sessions|, o);
        k := |t.sessions|;
    }
  }

  /** The key of the session that is current after a run is what the last event that writes its field wrote. */
  lemma HandedOver(ss: seq<Step>, s: Step, id: nat)
    requires Completes(Steps(EMPTY, ss), s, id)
    ensures var (t', w) := (Steps(EMPTY, ss + [s]), LastWrite(Log(ss + [s]), id));
      t'.current == Some(id) && w.Some? && t'.kek == Log(ss + [s])[w.value].key
  {
    var all := ss + [s];
    StepsAppend(EMPTY, ss, s);
    RunProper(EMPTY, ss);
    var k := CompletesWith(Steps(EMPTY, ss), s, id);
    RunRecorded(all);
    assert Steps(EMPTY, all).sessions[k].id == id;
  }

  /** The last session accepted. */
  function Latest(log: seq<Event>): Option<nat> {
    if log == [] then None
    else if log[|log| - 1].Opened? then Some(log[|log| - 1].id)
    else Latest(log[..|log| - 1])
  }

  lemma {:induction false} LatestAppend(log: seq<Event>, more: seq<Event>)
    ensures Latest(log + more) == if Latest(more).Some? then Latest(more) else Latest(log)
    decreases |more|
  {
    if more == [] {
      assert log + more == log;
    } else {
      assert (log + more)[..|log + more| - 1] == log + more[..|more| - 1];
      if !more[|more| - 1].Opened? {
        LatestAppend(log, more[..|more| - 1]);
      }
    }
  }

  lemma ProcessTarget(t: Table, i: nat, o: Outcome)
    requires i < |t.sessions|
    ensures Process(t, i, o).target == t.target && Latest(ProcessEvents(t, i, o)) == None
  {
    var es := ProcessEvents(t, i, o);
    assert |es| == 1 ==> es[..0] == [];
  }

  lemma AcceptTarget(t: Table, fd: int, garbage: Key, o: Outcome)
    ensures var s := AcceptStep(fd, garbage, o);
      Next(t, s).target == Some(t.nextId) && Latest(EventsOf(t, s)) == Some(t.nextId)
  {
    var u := Enlisted(t, fd, garbage);
    ProcessTarget(u, |t.sessions|, o);
    LatestAppend([Opened(t.nextId, garbage)], ProcessEvents(u, |t.sessions|, o));
  }

  lemma LatestOn(t: Table, s: Step, log: seq<Event>)
    requires t.target == Latest(log)
    ensures Next(t, s).target == Latest(log + EventsOf(t, s))
  {
    LatestAppend(log, EventsOf(t, s));
    match s
    case ProcessStep(i, o) => if i < |t.sessions| { ProcessTarget(t, i, o); }
    case AcceptStep(fd, garbage, o) => AcceptTarget(t, fd, garbage, o);
    case _ =>
  }

  /** An export in the events of a step goes to the session accepted last by then. */
  lemma ExportInStep(t: Table, s: Step, log: seq<Event>, m: nat)
    requires t.target == Latest(log) && m < |EventsOf(t, s)| && EventsOf(t, s)[m].Exported?
    ensures Latest(log + EventsOf(t, s)[..m]) == Some(EventsOf(t, s)[m].dest)
  {
    var es := EventsOf(t, s);
    LatestAppend(log, es[..m]);
    if s.AcceptStep? {
      assert m == 1 && es[..1] == [Opened(t.nextId, s.garbageKek)];
    } else {
      assert m == 0 && es[..0] == [];
    }
  }

  lemma SplitAt<T>(a: seq<T>, b: seq<T>, k: nat)
    requires k < |a + b|
    ensures k < |a| ==> (a + b)[..k] == a[..k] && (a + b)[k] == a[k]
    ensures k >= |a| ==> (a + b)[..k] == a + b[..k - |a|] && (a + b)[k] == b[k - |a|]
  {
  }

  /** Every key is exported into the field of the session accepted last. */
  lemma {:induction false} ExportsGoToLatest(ss: seq<Step>, k: nat)
    requires k < |Log(ss)| && Log(ss)[k].Exported?
    ensures Latest(Log(ss)[..k]) == Some(Log(ss)[k].dest)
  {
    var front, last := ss[..|ss| - 1], ss[|ss| - 1];
    var log, es := Log(front), EventsOf(Steps(EMPTY, front), last);
    assert Log(ss) == log + es;
    SplitAt(log, es, k);
    if k < |log| {
      ExportsGoToLatest(front, k);
    } else {
      TargetIsLatest(front);
      ExportInStep(Steps(EMPTY, front), last, log, k - |log|);
    }
  }

  lemma {:induction false} TargetIsLatest(ss: seq<Step>)
    ensures Steps(EMPTY, ss).target == Latest(Log(ss))
  {
    if ss != [] {
      TargetIsLatest(ss[..|ss| - 1]);
      LatestOn(Steps(EMPTY, ss[..|ss| - 1]), ss[|ss| - 1], Log(ss[..|ss| - 1]));
    }
  }

  /** By the schedule alone: when the export was made the session was the one accepted last, and whenever a later one
      was made it was not. */
  ghost predicate OwnTurn(log: seq<Event>, own: nat, id: nat)
    requires own < |log|
  {
    && Latest(log[..own]) == Some(id)
    && forall j | own < j < |log| && log[j].Exported? :: Latest(log[..j]) != Some(id)
  }

  /** The last write to a session's field is its own handshake's last export exactly when the schedule says so. */
  lemma OwnWriteIff(ss: seq<Step>, id: nat)
    requires OwnExport(Log(ss), id).Some?
    ensures var own := OwnExport(Log(ss), id); LastWrite(Log(ss), id) == own <==> OwnTurn(Log(ss), own.value, id)
  {
    var log := Log(ss);
    var own := OwnExport(log, id).value;
    forall j | 0 <= j < |log| && log[j].Exported?
      ensures Latest(log[..j]) == Some(log[j].dest)
    {
      ExportsGoToLatest(ss, j);
    }
  }

  /** Over every run from the empty table: when a handshake completes, the joiner session takes over the session, and
      the key it takes over is the last one the session's own handshake exported, in whichever call, if and only if the
      session was the one accepted last when that was exported and at no export since. */
  lemma KekIsOwnIff(ss: seq<Step>, s: Step, id: nat)
    requires Completes(Steps(EMPTY, ss), s, id)
    ensures var (t', log) := (Steps(EMPTY, ss + [s]), Log(ss + [s]));
      var (own, w) := (OwnExport(log, id), LastWrite(log, id));
      && t'.current == Some(id) && w.Some? && t'.kek == log[w.value].key
      && (own.Some? ==> (w == own <==> OwnTurn(log, own.value, id)))
  {
    HandedOver(ss, s, id);
    if OwnExport(Log(ss + [s]), id).Some? {
      OwnWriteIff(ss + [s], id);
    }
  }

  // Runs that show the failing inputs.

  function Answers(key: Option<Key>, handshake: HandshakeResult, read: ReadResult): Outcome {
    Outcome(0, 0, key, handshake, read)
  }

  /** The client of the first session reconnects; the handshake of the first session is refused. */
  const RECONNECT := ProcessStep(0, Answers(None, Pending, Reconnect))
  const REFUSE := ProcessStep(0, Answers(None, Refused, Timeout))

  /** The first session is accepted and completes its handshake at once. */
  function Joined(g: Key): Step {
    AcceptStep(0, g, Answers(None, Done, Timeout))
  }

  function OnlySession(g: Key, p: Phase): Table {
    Table([Session(0, p, SESSION_TIMEOUT, 0, g)], Some(0), Some(0), g, false, 1)
  }

  lemma OneMore(ss: seq<Step>, s: Step, t: Table)
    requires Next(Steps(EMPTY, ss), s) == t
    ensures Steps(EMPTY, ss + [s]) == t
  {
    StepsAppend(EMPTY, ss, s);
  }

  lemma JoinedRun(g: Key)
    ensures Steps(EMPTY, [Joined(g)]) == OnlySession(g, Ready)
  {
    OneMore([], Joined(g), OnlySession(g, Ready));
    assert [] + [Joined(g)] == [Joined(g)];
  }

  lemma RefusedRun(g: Key)
    ensures Steps(EMPTY, [Joined(g), RECONNECT]) == OnlySession(g, Handshaking)
    ensures Steps(EMPTY, [Joined(g), RECONNECT, REFUSE]) == OnlySession(g, Failed)
  {
    JoinedRun(g);
    OneMore([Joined(g)], RECONNECT, OnlySession(g, Handshaking));
    assert [Joined(g)] + [RECONNECT] == [Joined(g), RECONNECT];
    OneMore([Joined(g), RECONNECT], REFUSE, OnlySession(g, Failed));
    assert [Joined(g), RECONNECT] + [REFUSE] == [Joined(g), RECONNECT, REFUSE];
  }

  /** A session joins, reconnects and is refused, and the next sweep loses the pointer to it. */
  lemma DanglingRun(g: Key, now: nat)
    ensures Dangling(Steps(EMPTY, [Joined(g), RECONNECT, REFUSE, SweepStep(now)]))
  {
    RefusedRun(g);
    var t := OnlySession(g, Failed);
    assert t.sessions[..0] == [];
    assert Survivors(t.sessions, now) == [];
    OneMore([Joined(g), RECONNECT, REFUSE], SweepStep(now), t.(sessions := []));
    assert [Joined(g), RECONNECT, REFUSE] + [SweepStep(now)] == [Joined(g), RECONNECT, REFUSE, SweepStep(now)];
  }

  /** Without that sweep the same refusal does no harm: refusing is not yet losing. */
  lemma RefusedButAnchored(g: Key)
    ensures var ss := [Joined(g), RECONNECT, REFUSE];
      !NeverRefuses(ss) && AlwaysAnchored(ss)
  {
    var ss := [Joined(g), RECONNECT, REFUSE];
    RefusedRun(g);
    assert ss[..2] == [Joined(g), RECONNECT];
    assert RefusesAt(ss, 2);
    RunAnchoredIff(ss);
  }

  /** The current session can be one whose peer has closed it; a write that fails takes it from closed to failed. */
  lemma ClosedThenFailed(g: Key)
    ensures var eof := ProcessStep(0, Answers(None, Pending, Eof));
      && Steps(EMPTY, [Joined(g), eof]) == OnlySession(g, Closed)
      && Next(Steps(EMPTY, [Joined(g), eof]), SendStep(true)).sessions[0].phase == Failed
      && LeavesDiagram(OnlySession(g, Closed), SendStep(true), 0)
  {
    var eof := ProcessStep(0, Answers(None, Pending, Eof));
    JoinedRun(g);
    OneMore([Joined(g)], eof, OnlySession(g, Closed));
    assert [Joined(g)] + [eof] == [Joined(g), eof];
  }

  function TwoSessions(g: Key, k: Key, kek: Key, p: Phase, current: Option<nat>): Table {
    Table([Session(0, Handshaking, SESSION_TIMEOUT, 0, g), Session(1, p, SESSION_TIMEOUT, 0, k)], current, Some(1), kek,
          false, 2)
  }

  /** Two handshakes overlap: the session accepted last exports its key, the other one overwrites it, and on
      completion the joiner session takes over the other one's key. */
  lemma ForeignKey(g: Key, k0: Key, k1: Key)
    requires k0 != k1
    ensures var open := AcceptStep(0, g, Answers(None, Pending, Timeout));
      var ss := [open, open, ProcessStep(1, Answers(Some(k1), Pending, Timeout)),
                 ProcessStep(0, Answers(Some(k0), Pending, Timeout)), ProcessStep(1, Answers(None, Done, Timeout))];
      && Steps(EMPTY, ss).current == Some(1) && Steps(EMPTY, ss).kek == k0
      && OwnExport(Log(ss), 1).Some? && Log(ss)[OwnExport(Log(ss), 1).value].key == k1
  {
    var open := AcceptStep(0, g, Answers(None, Pending, Timeout));
    var a := ProcessStep(1, Answers(Some(k1), Pending, Timeout));
    var b := ProcessStep(0, Answers(Some(k0), Pending, Timeout));
    var c := ProcessStep(1, Answers(None, Done, Timeout));
    var s1 := [] + [open];
    var s2 := s1 + [open];
    var s3 := s2 + [a];
    var s4 := s3 + [b];
    BothOpen(g, open, s1, s2);
    LogStep(s2, a, TwoSessions(g, k1, EMPTY.kek, Handshaking, None), [Exported(1, 1, k1)]);
    LogStep(s3, b, TwoSessions(g, k0, EMPTY.kek, Handshaking, None), [Exported(0, 1, k0)]);
    LogStep(s4, c, TwoSessions(g, k0, k0, Ready, Some(1)), []);
    assert s4 + [c] == [open, open, a, b, c];
    ForeignLog(Log(s2), k0, k1);
    assert Log(s4 + [c]) == Log(s2) + [Exported(1, 1, k1), Exported(0, 1, k0)];
  }

  lemma BothOpen(g: Key, open: Step, s1: seq<Step>, s2: seq<Step>)
    requires open == AcceptStep(0, g, Answers(None, Pending, Timeout)) && s1 == [] + [open] && s2 == s1 + [open]
    ensures Steps(EMPTY, s2) == TwoSessions(g, g, EMPTY.kek, Handshaking, None)
  {
    var t1 := Table([Session(0, Handshaking, SESSION_TIMEOUT, 0, g)], None, Some(0), EMPTY.kek, false, 1);
    LogStep([], open, t1, [Opened(0, g)]);
    LogStep(s1, open, TwoSessions(g, g, EMPTY.kek, Handshaking, None), [Opened(1, g)]);
  }

  lemma ForeignLog(log: seq<Event>, k0: Key, k1: Key)
    ensures var all := log + [Exported(1, 1, k1), Exported(0, 1, k0)];
      OwnExport(all, 1) == Some(|log|) && all[|log|].key == k1
  {
    var all := log + [Exported(1, 1, k1), Exported(0, 1, k0)];
    assert all[..|all| - 1] == log + [Exported(1, 1, k1)];
  }

  lemma LogStep(ss: seq<Step>, s: Step, t: Table, es: seq<Event>)
    requires Next(Steps(EMPTY, ss), s) == t && EventsOf(Steps(EMPTY, ss), s) == es
    ensures Steps(EMPTY, ss + [s]) == t && Log(ss + [s]) == Log(ss) + es
  {
    StepsAppend(EMPTY, ss, s);
    assert (ss + [s])[..|ss|] == ss;
  }
}
