/** Over whole runs of the session table: when the joiner session's key is due. */
module KekRuns {
  import opened Bytes
  import opened Sessions
  import opened SessionRuns

  /** The step processes a ready session and reads a finalize request from it. */
  predicate Finalizes(t: Table, s: Step) {
    && s.ProcessStep? && s.place < |t.sessions| && t.sessions[s.place].phase.Ready?
    && s.outcome.read.Data? && s.outcome.read.finalizes
  }

  lemma ProcessDue(t: Table, i: nat, o: Outcome)
    requires i < |t.sessions|
    ensures Process(t, i, o).needKek <==> Finalizes(t, ProcessStep(i, o)) || t.needKek
  {
  }

  /** A finalize request makes the key due, sending it settles that, and nothing else matters. */
  lemma NextDue(t: Table, s: Step)
    ensures Next(t, s).needKek <==> Finalizes(t, s) || (t.needKek && !s.KekSentStep?)
  {
    match s
    case ProcessStep(i, o) => if i < |t.sessions| { ProcessDue(t, i, o); }
    case AcceptStep(fd, garbage, o) => ProcessDue(Enlisted(t, fd, garbage), |t.sessions|, o);
    case _ =>
  }

  ghost predicate FinalizesAt(ss: seq<Step>, k: nat)
    requires k < |ss|
  {
    Finalizes(Steps(EMPTY, ss[..k]), ss[k])
  }

  /** The key is not sent behind the k-th step and before the n-th. */
  predicate NoneSent(ss: seq<Step>, k: nat, n: nat)
    requires n <= |ss|
  {
    forall j | k < j < n :: !ss[j].KekSentStep?
  }

  lemma DueOn(ss: seq<Step>, n: nat)
    requires 0 < n <= |ss|
    ensures Steps(EMPTY, ss[..n]).needKek
       <==> FinalizesAt(ss, n - 1) || (Steps(EMPTY, ss[..n - 1]).needKek && !ss[n - 1].KekSentStep?)
  {
    LastStep(ss, n - 1);
    NextDue(Steps(EMPTY, ss[..n - 1]), ss[n - 1]);
  }

  lemma {:induction false} DueSince(ss: seq<Step>, n: nat) returns (k: nat)
    requires n <= |ss| && Steps(EMPTY, ss[..n]).needKek
    ensures k < n && FinalizesAt(ss, k) && NoneSent(ss, k, n)
    decreases n
  {
    assert n > 0 by {
      assert ss[..0] == [];
    }
    DueOn(ss, n);
    if FinalizesAt(ss, n - 1) {
      k := n - 1;
    } else {
      k := DueSince(ss, n - 1);
    }
  }

  lemma StillDue(ss: seq<Step>, n: nat)
    requires 0 < n <= |ss| && Steps(EMPTY, ss[..n - 1]).needKek && !ss[n - 1].KekSentStep?
    ensures Steps(EMPTY, ss[..n]).needKek
  {
    DueOn(ss, n);
  }

  lemma {:induction false} DueFrom(ss: seq<Step>, k: nat, n: nat)
    requires k < n <= |ss| && Steps(EMPTY, ss[..k + 1]).needKek && NoneSent(ss, k, n)
    ensures Steps(EMPTY, ss[..n]).needKek
    decreases n
  {
    if k + 1 < n {
      DueFrom(ss, k, n - 1);
      StillDue(ss, n);
    }
  }

  ghost predicate Due(ss: seq<Step>) {
    exists k: nat :: k < |ss| && FinalizesAt(ss, k) && NoneSent(ss, k, |ss|)
  }

  lemma DueAfter(ss: seq<Step>, k: nat)
    requires k < |ss| && FinalizesAt(ss, k) && NoneSent(ss, k, |ss|)
    ensures Steps(EMPTY, ss[..|ss|]).needKek
  {
    DueOn(ss, k + 1);
    DueFrom(ss, k, |ss|);
  }

  /** Over every run from the empty table: the key is due afterwards, if and only if some step reads a finalize request
      from a ready session and the key is not sent after it. */
  lemma RunDueIff(ss: seq<Step>)
    ensures Steps(EMPTY, ss).needKek <==> Due(ss)
  {
    assert ss[..|ss|] == ss;
    if Steps(EMPTY, ss).needKek {
      var k := DueSince(ss, |ss|);
    }
    if k: nat :| k < |ss| && FinalizesAt(ss, k) && NoneSent(ss, k, |ss|) {
      DueAfter(ss, k);
    }
  }

  /** Some step behind the first n reads a finalize request. */
  ghost predicate FinalizedSince(ss: seq<Step>, n: nat) {
    exists k: nat :: n <= k < |ss| && FinalizesAt(ss, k)
  }

  lemma DueBehindSent(ss: seq<Step>, m: nat, k: nat)
    requires m < |ss| && ss[m].KekSentStep? && k < |ss| && FinalizesAt(ss, k) && NoneSent(ss, k, |ss|)
    ensures FinalizedSince(ss, m + 1)
  {
    assert k != m;
    assert k > m;
  }

  lemma NoneSentLater(ss: seq<Step>, m: nat, k: nat)
    requires NoneSent(ss, m, |ss|) && m < k < |ss| && FinalizesAt(ss, k)
    ensures Due(ss)
  {
    assert NoneSent(ss, k, |ss|);
  }

  /** When the key was sent last by the m-th step and not since, it is due if and only if a finalize request has been
      read since. */
  lemma DueSinceSent(ss: seq<Step>, m: nat)
    requires m < |ss| && ss[m].KekSentStep? && NoneSent(ss, m, |ss|)
    ensures Steps(EMPTY, ss).needKek <==> FinalizedSince(ss, m + 1)
  {
    RunDueIff(ss);
    if Due(ss) {
      var k: nat :| k < |ss| && FinalizesAt(ss, k) && NoneSent(ss, k, |ss|);
      DueBehindSent(ss, m, k);
    }
    if FinalizedSince(ss, m + 1) {
      var k: nat :| m + 1 <= k < |ss| && FinalizesAt(ss, k);
      NoneSentLater(ss, m, k);
    }
  }

  /** A session joins and sends a finalize request: the key is due. */
  lemma FinalizedRun(g: Key)
    ensures var ss := [Joined(g), ProcessStep(0, Answers(None, Pending, Data(true, false, false)))];
      Steps(EMPTY, ss).needKek && Steps(EMPTY, ss).kek == g
  {
    var s := ProcessStep(0, Answers(None, Pending, Data(true, false, false)));
    JoinedRun(g);
    OneMore([Joined(g)], s, OnlySession(g, Ready).(needKek := true));
    assert [Joined(g)] + [s] == [Joined(g), s];
  }
}
