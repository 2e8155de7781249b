/** Runs of the session table that work on no destroyed session: where keys are exported to, what is sent through. */
module DefinedRuns {
  import opened Bytes
  import opened Sessions
  import opened SessionRuns

  // The session that keys are exported to.

  /** A sweep finds the session accepted last no longer alive, and destroys it. */
  ghost predicate Orphans(t: Table, s: Step) {
    s.SweepStep? &&
    exists i :: 0 <= i < |t.sessions| && t.target == Some(t.sessions[i].id) && !Alive(t.sessions[i], s.now)
  }

  /** The same ids and the same target. */
  lemma AimedKept(t: Table, t': Table)
    requires Kept(t, t') && t'.target == t.target
    ensures Aimed(t') == Aimed(t)
  {
  }

  lemma SweptIds(t: Table, now: nat, id: nat)
    requires id in IdsOf(Sweep(t, now).sessions)
    ensures id in IdsOf(t.sessions)
  {
    var u := Sweep(t, now);
    var k :| 0 <= k < |u.sessions| && IdsOf(u.sessions)[k] == id;
    SurvivorMembers(t.sessions, now, u.sessions[k]);
    var j :| 0 <= j < |t.sessions| && t.sessions[j] == u.sessions[k];
    assert IdsOf(t.sessions)[j] == id;
  }

  lemma SweepAimedIff(t: Table, now: nat)
    requires Proper(t)
    ensures Aimed(Sweep(t, now)) <==> Aimed(t) && !Orphans(t, SweepStep(now))
  {
    if t.target.Some? {
      var id := t.target.value;
      if id in IdsOf(t.sessions) {
        var i :| 0 <= i < |t.sessions| && IdsOf(t.sessions)[i] == id;
        SweptIff(t, now, i);
        assert forall k | 0 <= k < |t.sessions| && t.sessions[k].id == id :: k == i;
      } else if id in IdsOf(Sweep(t, now).sessions) {
        SweptIds(t, now, id);
      }
    }
  }

  lemma StepAimedIff(t: Table, s: Step)
    requires Proper(t)
    ensures Aimed(Next(t, s)) <==> s.AcceptStep? || (Aimed(t) && !Orphans(t, s))
  {
    match s
    case ProcessStep(i, o) =>
      if i < |t.sessions| {
        ProcessKept(t, i, o);
        ProcessTarget(t, i, o);
        AimedKept(t, Next(t, s));
      }
    case AcceptStep(fd, garbage, o) =>
      var u := Enlisted(t, fd, garbage);
      EnlistedAimed(t, fd, garbage);
      ProcessKept(u, |t.sessions|, o);
      ProcessTarget(u, |t.sessions|, o);
      AimedKept(u, Next(t, s));
    case AcceptFailStep(_) =>
    case SendStep(fails) =>
      SendKept(t, fails);
      AimedKept(t, Next(t, s));
    case SweepStep(now) => SweepAimedIff(t, now);
    case KekSentStep =>
  }

  ghost predicate OrphansAt(ss: seq<Step>, m: nat)
    requires m < |ss|
  {
    Orphans(Steps(EMPTY, ss[..m]), ss[m])
  }

  /** Before the n-th step some sweep destroyed the session accepted last, and none has been accepted since. */
  ghost predicate Orphaned(ss: seq<Step>, n: nat)
    requires n <= |ss|
    decreases n
  {
    n > 0 && !ss[n - 1].AcceptStep? && (OrphansAt(ss, n - 1) || Orphaned(ss, n - 1))
  }

  lemma AimedOn(ss: seq<Step>, n: nat)
    requires 0 < n <= |ss|
    ensures Aimed(Steps(EMPTY, ss[..n]))
       <==> ss[n - 1].AcceptStep? || (Aimed(Steps(EMPTY, ss[..n - 1])) && !OrphansAt(ss, n - 1))
  {
    RunProper(EMPTY, ss[..n - 1]);
    LastStep(ss, n - 1);
    StepAimedIff(Steps(EMPTY, ss[..n - 1]), ss[n - 1]);
  }

  /** Over every run from the empty table and after every step of it: the session that keys are exported to is in the
      table, if and only if no sweep destroyed it since it was accepted. */
  lemma {:induction false} RunAimedIff(ss: seq<Step>, n: nat)
    requires n <= |ss|
    ensures Aimed(Steps(EMPTY, ss[..n])) <==> !Orphaned(ss, n)
    decreases n
  {
    if n > 0 {
      RunAimedIff(ss, n - 1);
      AimedOn(ss, n);
    }
  }

  // The session that is sent through.

  /** The step calls back with a session that is ready or over, and so resets the pointer. */
  ghost predicate Rescues(t: Table, s: Step) {
    match s
    case ProcessStep(i, o) =>
      i < |t.sessions| && ((t.sessions[i].phase.Handshaking? && o.handshake.Done?)
                           || (t.sessions[i].phase.Ready? && o.read.Broken?))
    case AcceptStep(_, _, o) => o.handshake.Done?
    case AcceptFailStep(garbage) => !Over(garbage)
    case SweepStep(now) => exists i :: 0 <= i < |t.sessions| && CallsBack(t.sessions[i], now)
    case _ => false
  }

  /** The pointer is older than the next session, even when it dangles. */
  predicate Pointed(t: Table) {
    t.current.Some? ==> t.current.value < t.nextId
  }

  lemma KeptPointed(t: Table, t': Table)
    requires Proper(t) && Pointed(t) && Kept(t, t')
    ensures Pointed(t')
  {
    if t'.current.Some? && t'.current.value in IdsOf(t.sessions) {
      var k :| 0 <= k < |t.sessions| && IdsOf(t.sessions)[k] == t'.current.value;
      assert t.sessions[k].id < t.nextId;
    }
  }

  lemma NextPointed(t: Table, s: Step)
    requires Proper(t) && Pointed(t)
    ensures Pointed(Next(t, s))
  {
    match s
    case ProcessStep(i, o) =>
      if i < |t.sessions| {
        ProcessKept(t, i, o);
        KeptPointed(t, Next(t, s));
      }
    case AcceptStep(fd, garbage, o) =>
      var u := Enlisted(t, fd, garbage);
      EnlistedProper(t, fd, garbage);
      ProcessKept(u, |t.sessions|, o);
      KeptPointed(u, Next(t, s));
    case SendStep(fails) =>
      SendKept(t, fails);
      KeptPointed(t, Next(t, s));
    case _ =>
  }

  lemma {:induction false} RunPointed(ss: seq<Step>)
    ensures Pointed(Steps(EMPTY, ss))
  {
    if ss != [] {
      var front := ss[..|ss| - 1];
      RunPointed(front);
      RunProper(EMPTY, front);
      NextPointed(Steps(EMPTY, front), ss[|ss| - 1]);
    }
  }

  /** Processing while the pointer dangles. */
  lemma ProcessStrayed(t: Table, i: nat, o: Outcome)
    requires Proper(t) && !Anchored(t) && i < |t.sessions|
    ensures Anchored(Process(t, i, o)) <==> Rescues(t, ProcessStep(i, o))
  {
    var u := Put(t, i, Renewed(t.sessions[i], o));
    ProcessKept(t, i, o);
    PutKeeps(t, i, Renewed(t.sessions[i], o));
    assert IdsOf(t.sessions)[i] == t.sessions[i].id;
    match t.sessions[i].phase
    case Handshaking => ExportKept(u, o.key);
    case Ready =>
      match o.read {
        case Data(finalizes, _, fails) => NothingSent(if finalizes then u.(needKek := true) else u, fails);
        case _ =>
      }
    case _ =>
  }

  lemma NotHere(t: Table)
    requires !Anchored(t)
    ensures forall k {:trigger t.sessions[k]} | 0 <= k < |t.sessions| :: t.sessions[k].id != t.current.value
  {
    forall k | 0 <= k < |t.sessions|
      ensures t.sessions[k].id != t.current.value
    {
      assert IdsOf(t.sessions)[k] == t.sessions[k].id;
    }
  }

  /** Nothing is sent through a destroyed session. */
  lemma NothingSent(t: Table, fails: bool)
    requires !Anchored(t)
    ensures Send(t, fails) == t
  {
    NotHere(t);
  }

  lemma SweepStrayed(t: Table, now: nat)
    requires Proper(t) && !Anchored(t)
    ensures Anchored(Sweep(t, now)) <==> Rescues(t, SweepStep(now))
  {
    if t.current.value in IdsOf(Sweep(t, now).sessions) {
      SweptIds(t, now, t.current.value);
    }
  }

  lemma AcceptStrayed(t: Table, fd: int, garbage: Key, o: Outcome)
    requires Proper(t) && !Anchored(t) && Pointed(t)
    ensures Anchored(Accept(t, fd, garbage, o)) <==> o.handshake.Done?
  {
    var u := Enlisted(t, fd, garbage);
    EnlistedProper(t, fd, garbage);
    assert u.sessions[|t.sessions|] == Session(t.nextId, Handshaking, 0, fd, garbage);
    forall k | 0 <= k < |u.sessions|
      ensures IdsOf(u.sessions)[k] != t.current.value
    {
      assert k < |t.sessions| ==> IdsOf(t.sessions)[k] == u.sessions[k].id;
    }
    ProcessStrayed(u, |t.sessions|, o);
  }

  /** While the pointer dangles, a step ends that exactly when it resets the pointer. */
  lemma StepStrayedIff(t: Table, s: Step)
    requires Proper(t) && !Anchored(t) && Pointed(t)
    ensures Anchored(Next(t, s)) <==> Rescues(t, s)
  {
    match s
    case ProcessStep(i, o) => if i < |t.sessions| { ProcessStrayed(t, i, o); }
    case AcceptStep(fd, garbage, o) => AcceptStrayed(t, fd, garbage, o);
    case AcceptFailStep(_) =>
    case SendStep(fails) => NothingSent(t, fails);
    case SweepStep(now) => SweepStrayed(t, now);
    case KekSentStep =>
  }

  ghost predicate RescuesAt(ss: seq<Step>, m: nat)
    requires m < |ss|
  {
    Rescues(Steps(EMPTY, ss[..m]), ss[m])
  }

  /** Before the n-th step some sweep lost the current session, and no step has reset the pointer since. */
  ghost predicate Strayed(ss: seq<Step>, n: nat)
    requires n <= |ss|
    decreases n
  {
    n > 0 && (LosesAt(ss, n - 1) || (Strayed(ss, n - 1) && !RescuesAt(ss, n - 1)))
  }

  /** One step, whether the pointer dangles or not. */
  lemma NextAnchoredIff(t: Table, s: Step)
    requires Proper(t) && Pointed(t)
    ensures Anchored(Next(t, s)) <==> if Anchored(t) then !Loses(t, s) else Rescues(t, s)
    ensures Loses(t, s) ==> Anchored(t)
  {
    if Anchored(t) {
      StepAnchoredIff(t, s);
    } else {
      StepStrayedIff(t, s);
      NotHere(t);
    }
  }

  lemma AnchoredOn(ss: seq<Step>, n: nat)
    requires 0 < n <= |ss|
    ensures Anchored(Steps(EMPTY, ss[..n]))
       <==> if Anchored(Steps(EMPTY, ss[..n - 1])) then !LosesAt(ss, n - 1) else RescuesAt(ss, n - 1)
    ensures LosesAt(ss, n - 1) ==> Anchored(Steps(EMPTY, ss[..n - 1]))
  {
    RunProper(EMPTY, ss[..n - 1]);
    RunPointed(ss[..n - 1]);
    LastStep(ss, n - 1);
    NextAnchoredIff(Steps(EMPTY, ss[..n - 1]), ss[n - 1]);
  }

  /** Over every run from the empty table and after every step of it: the current session is null or in the table, if
      and only if no sweep has lost it without a later step resetting the pointer. */
  lemma {:induction false} RunStrayedIff(ss: seq<Step>, n: nat)
    requires n <= |ss|
    ensures Anchored(Steps(EMPTY, ss[..n])) <==> !Strayed(ss, n)
    decreases n
  {
    if n > 0 {
      RunStrayedIff(ss, n - 1);
      AnchoredOn(ss, n);
    }
  }

  // Both.

  /** The step sends through the current session. */
  predicate Sends(t: Table, s: Step) {
    match s
    case ProcessStep(i, o) =>
      i < |t.sessions| && t.sessions[i].phase.Ready? && o.read.Data? && o.read.answers
    case SendStep(_) => true
    case _ => false
  }

  /** The n-th step exports a key while the session to export it to is destroyed, or sends while the current one is. */
  ghost predicate Harmed(ss: seq<Step>, n: nat)
    requires n < |ss|
  {
    var t := Steps(EMPTY, ss[..n]);
    (Exports(t, ss[n]).Some? && Orphaned(ss, n)) || (Sends(t, ss[n]) && Strayed(ss, n))
  }

  lemma DefinedAsIs(t: Table, s: Step)
    ensures Defined(t, s) <==> (Exports(t, s).Some? ==> Aimed(t)) && (Sends(t, s) ==> Anchored(t))
  {
  }

  /** Over every run from the empty table: a step works on no destroyed session, neither writing a key into one nor
      sending through one, if and only if it does not export a key after a sweep destroyed the session accepted last,
      and does not send after one lost the current session. */
  lemma RunDefinedIff(ss: seq<Step>, n: nat)
    requires n < |ss|
    ensures Defined(Steps(EMPTY, ss[..n]), ss[n]) <==> !Harmed(ss, n)
  {
    RunAimedIff(ss, n);
    RunStrayedIff(ss, n);
    DefinedAsIs(Steps(EMPTY, ss[..n]), ss[n]);
  }

  /** The n-th step exports a key in a handshake of a session that was there before. */
  predicate ExportsAt(ss: seq<Step>, n: nat)
    requires n < |ss|
  {
    Exports(Steps(EMPTY, ss[..n]), ss[n]).Some?
  }

  /** Every step of a run works on no destroyed session. */
  predicate AllDefined(t: Table, ss: seq<Step>) {
    ss == [] || (AllDefined(t, ss[..|ss| - 1]) && Defined(Steps(t, ss[..|ss| - 1]), ss[|ss| - 1]))
  }

  ghost predicate NoneHarmed(ss: seq<Step>, n: nat)
    requires n <= |ss|
  {
    forall k | 0 <= k < n :: !Harmed(ss, k)
  }

  /** The same, step by step. */
  ghost predicate Unharmed(ss: seq<Step>, n: nat)
    requires n <= |ss|
  {
    n == 0 || (Unharmed(ss, n - 1) && !Harmed(ss, n - 1))
  }

  lemma {:induction false} UnharmedIff(ss: seq<Step>, n: nat)
    requires n <= |ss|
    ensures Unharmed(ss, n) <==> NoneHarmed(ss, n)
    decreases n
  {
    if n > 0 {
      UnharmedIff(ss, n - 1);
    }
  }

  lemma AllDefinedOn(ss: seq<Step>, n: nat)
    requires 0 < n <= |ss|
    ensures AllDefined(EMPTY, ss[..n]) <==> AllDefined(EMPTY, ss[..n - 1]) && !Harmed(ss, n - 1)
  {
    assert ss[..n][..n - 1] == ss[..n - 1];
    RunDefinedIff(ss, n - 1);
  }

  lemma {:induction false} AllDefinedTo(ss: seq<Step>, n: nat)
    requires n <= |ss|
    ensures AllDefined(EMPTY, ss[..n]) <==> Unharmed(ss, n)
    decreases n
  {
    if n == 0 {
      assert ss[..0] == [];
    } else {
      AllDefinedTo(ss, n - 1);
      AllDefinedOn(ss, n);
    }
  }

  /** So a whole run works on no destroyed session if and only if none of its steps is harmed. */
  lemma AllDefinedIff(ss: seq<Step>)
    ensures AllDefined(EMPTY, ss) <==> NoneHarmed(ss, |ss|)
  {
    AllDefinedTo(ss, |ss|);
    UnharmedIff(ss, |ss|);
    assert ss[..|ss|] == ss;
  }

  lemma AllDefinedAppend(t: Table, ss: seq<Step>, s: Step)
    ensures AllDefined(t, ss + [s]) <==> AllDefined(t, ss) && Defined(Steps(t, ss), s)
  {
    assert (ss + [s])[..|ss|] == ss;
  }

  lemma {:induction false} AllDefinedConcat(t: Table, a: seq<Step>, b: seq<Step>)
    ensures AllDefined(t, a + b) <==> AllDefined(t, a) && AllDefined(Steps(t, a), b)
    decreases |b|
  {
    if b == [] {
      assert a + b == a;
    } else {
      var front, last := b[..|b| - 1], b[|b| - 1];
      AllDefinedConcat(t, a, front);
      StepsConcat(t, a, front);
      LastApart(a, b);
      AllDefinedAppend(t, a + front, last);
    }
  }

  /** One more turn of a loop: it is defined, or nothing is done in it. */
  lemma VisitDefined(t: Table, ss: seq<Step>, ss': seq<Step>, u: Table, i: nat, readable: set<int>, o: Outcome)
    requires u == Steps(t, ss)
    requires ss' == if i < |u.sessions| && u.sessions[i].fd in readable then ss + [ProcessStep(i, o)] else ss
    ensures AllDefined(t, ss')
       <==> AllDefined(t, ss) && (i < |u.sessions| && u.sessions[i].fd in readable ==> Defined(u, ProcessStep(i, o)))
  {
    AllDefinedAppend(t, ss, ProcessStep(i, o));
  }

  predicate StepsDefined(t: Table, n: nat, readable: set<int>, os: nat -> Outcome)
    decreases n, t
  {
    AllDefined(t, LoopSteps(t, n, readable, os))
  }

  lemma StepsDefinedOn(t: Table, n: nat, readable: set<int>, os: nat -> Outcome)
    requires n > 0
    ensures StepsDefined(t, n, readable, os)
       <==> StepsDefined(t, n - 1, readable, os) && DefinedAt(t, n - 1, readable, os)
  {
    var ss, u := LoopSteps(t, n - 1, readable, os), Looped(t, n - 1, readable, os);
    LoopedSteps(t, n - 1, readable, os);
    VisitDefined(t, ss, LoopSteps(t, n, readable, os), u, n - 1, readable, os(n - 1));
  }

  lemma {:induction false} LoopThenSteps(t: Table, n: nat, readable: set<int>, os: nat -> Outcome)
    requires LoopDefined(t, n, readable, os)
    ensures StepsDefined(t, n, readable, os)
    decreases n
  {
    if n > 0 {
      LoopThenSteps(t, n - 1, readable, os);
      StepsDefinedOn(t, n, readable, os);
    }
  }

  lemma {:induction false} StepsThenLoop(t: Table, n: nat, readable: set<int>, os: nat -> Outcome)
    requires StepsDefined(t, n, readable, os)
    ensures LoopDefined(t, n, readable, os)
    decreases n
  {
    if n > 0 {
      StepsDefinedOn(t, n, readable, os);
      StepsThenLoop(t, n - 1, readable, os);
    }
  }

  /** The loop over the sessions works on no destroyed session exactly when none of its steps does. */
  lemma LoopDefinedIff(t: Table, n: nat, readable: set<int>, os: nat -> Outcome)
    ensures LoopDefined(t, n, readable, os) <==> AllDefined(t, LoopSteps(t, n, readable, os))
  {
    if LoopDefined(t, n, readable, os) {
      LoopThenSteps(t, n, readable, os);
    } else if StepsDefined(t, n, readable, os) {
      StepsThenLoop(t, n, readable, os);
    }
  }

  /** Every key a run exports goes to a session in the table, if and only if no key is exported after a sweep destroyed
      the session accepted last and before the next one is accepted. */
  lemma ExportsListedIff(ss: seq<Step>)
    ensures (forall n | 0 <= n < |ss| && ExportsAt(ss, n) :: Aimed(Steps(EMPTY, ss[..n])))
       <==> (forall n | 0 <= n < |ss| && ExportsAt(ss, n) :: !Orphaned(ss, n))
  {
    forall n | 0 <= n < |ss|
      ensures Aimed(Steps(EMPTY, ss[..n])) <==> !Orphaned(ss, n)
    {
      RunAimedIff(ss, n);
    }
  }

  // A run that exports a key to a destroyed session.

  const REFUSE_LAST := ProcessStep(1, Answers(None, Refused, Timeout))

  function Opening(g: Key): Step {
    AcceptStep(0, g, Answers(None, Pending, Timeout))
  }

  /** Only the first of two sessions is left, while keys are exported to the second. */
  function FirstLeft(g: Key): Table {
    Table([Session(0, Handshaking, SESSION_TIMEOUT, 0, g)], None, Some(1), EMPTY.kek, false, 2)
  }

  lemma RefusedLast(g: Key)
    ensures Steps(EMPTY, [Opening(g), Opening(g), REFUSE_LAST])
         == FirstLeft(g).(sessions := FirstLeft(g).sessions + [Session(1, Failed, SESSION_TIMEOUT, 0, g)])
  {
    var s1 := [] + [Opening(g)];
    var s2 := s1 + [Opening(g)];
    BothOpen(g, Opening(g), s1, s2);
    OneMore(s2, REFUSE_LAST,
            FirstLeft(g).(sessions := FirstLeft(g).sessions + [Session(1, Failed, SESSION_TIMEOUT, 0, g)]));
    assert s2 + [REFUSE_LAST] == [Opening(g), Opening(g), REFUSE_LAST];
  }

  lemma SweptLast(g: Key)
    ensures Steps(EMPTY, [Opening(g), Opening(g), REFUSE_LAST, SweepStep(1)]) == FirstLeft(g)
  {
    var ss := [Opening(g), Opening(g), REFUSE_LAST];
    var x, y := FirstLeft(g).sessions[0], Session(1, Failed, SESSION_TIMEOUT, 0, g);
    RefusedLast(g);
    SurvivorsAppend([], x, 1);
    SurvivorsAppend([x], y, 1);
    assert [] + [x] == [x] && FirstLeft(g).sessions + [y] == [x] + [y];
    OneMore(ss, SweepStep(1), FirstLeft(g));
    assert ss + [SweepStep(1)] == [Opening(g), Opening(g), REFUSE_LAST, SweepStep(1)];
  }

  /** Two sessions are accepted, the second is refused, and a sweep destroys it. Then the first one's handshake exports
      its key and completes: the key is meant for the destroyed session, and what is handed over was never exported. */
  lemma OrphanedExport(g: Key, k: Key)
    ensures var ss := [Opening(g), Opening(g), REFUSE_LAST, SweepStep(1)];
      var (t, s) := (Steps(EMPTY, ss), ProcessStep(0, Answers(Some(k), Done, Timeout)));
      && IdsOf(t.sessions) == [0] && t.target == Some(1) && Exports(t, s) == Some(k)
      && Orphaned(ss, 4) && !Defined(t, s)
      && Next(t, s).current == Some(0) && Next(t, s).kek == g
  {
    var ss := [Opening(g), Opening(g), REFUSE_LAST, SweepStep(1)];
    SweptLast(g);
    RunAimedIff(ss, 4);
    assert ss[..4] == ss;
    assert IdsOf(FirstLeft(g).sessions) == [0];
  }
}
