/** The sessions of the commissioner thread: the steps that its turns make, and when a turn stops at them. */
module ThreadSessions {
  import opened Bytes
  import opened Comm
  import opened Commissioners
  import opened Publish
  import opened Sessions
  import opened DefinedRuns
  import Dtls
  import Steering

  function TableOf(j: JoinerState): Table {
    if j.Absent? then EMPTY else j.table
  }

  /** The steps of a turn up to what arrives: the sweep, the sessions in turn, and the server socket. */
  function PassSteps(j: JoinerState, t: Turn): seq<Step> {
    match j
    case Absent => []
    case Present(table, socket) =>
      [SweepStep(t.sweep)] + Dtls.ArrivalSteps(Sweep(table, t.sweep), socket, t.arrival)
  }

  /** All its steps: sending a datagram also settles the key that was due. */
  function TurnSteps(j: JoinerState, t: Turn): seq<Step> {
    PassSteps(j, t) + if j.Present? && t.datagram.Some? then [KekSentStep] else []
  }

  /** The steps of turns that are all done. */
  function ThreadSteps(sha: Steering.Sha256, p: Pub, j: JoinerState, ts: seq<Turn>): seq<Step> {
    if ts == [] then []
    else
      var front := ts[..|ts| - 1];
      ThreadSteps(sha, p, j, front) + TurnSteps(AfterTurns(sha, p, j, front), ts[|ts| - 1])
  }

  lemma PassTable(j: JoinerState, t: Turn)
    ensures TableOf(Processed(j, t)) == Steps(TableOf(j), PassSteps(j, t))
  {
    if j.Present? {
      StepAlone(j.table, SweepStep(t.sweep));
      StepsConcat(j.table, [SweepStep(t.sweep)], Dtls.ArrivalSteps(Sweep(j.table, t.sweep), j.socket, t.arrival));
    }
  }

  lemma CompletedTable(j: JoinerState, t: Turn, publishes: bool)
    ensures TableOf(Completed(j, t, publishes))
         == if j.Present? && t.datagram.Some? then Next(TableOf(j), KekSentStep) else TableOf(j)
  {
  }

  lemma TurnTable(j: JoinerState, t: Turn, publishes: bool)
    ensures TableOf(AfterTurn(j, t, Stage.Done, publishes)) == Steps(TableOf(j), TurnSteps(j, t))
  {
    PassTable(j, t);
    CompletedTable(Processed(j, t), t, publishes);
    if j.Present? && t.datagram.Some? {
      StepsAppend(TableOf(j), PassSteps(j, t), KekSentStep);
    } else {
      assert TurnSteps(j, t) == PassSteps(j, t);
    }
  }

  /** The session table after turns that are done is where the steps of these turns lead. */
  lemma {:induction false} ThreadTable(sha: Steering.Sha256, p: Pub, j: JoinerState, ts: seq<Turn>)
    ensures TableOf(AfterTurns(sha, p, j, ts)) == Steps(TableOf(j), ThreadSteps(sha, p, j, ts))
  {
    if ts != [] {
      var front, last := ts[..|ts| - 1], ts[|ts| - 1];
      var j' := AfterTurns(sha, p, j, front);
      ThreadTable(sha, p, j, front);
      TurnTable(j', last, AfterOps(sha, Rounds(sha, p, OpsOf(front)).list, last.ops).updated);
      StepsConcat(TableOf(j), ThreadSteps(sha, p, j, front), TurnSteps(j', last));
    }
  }

  // Destroyed sessions.

  lemma PacketDefined(t: Table, socket: int, readable: set<int>, packet: Dtls.Packet)
    ensures AllDefined(t, Dtls.PacketSteps(socket, readable, packet))
  {
    var ss := Dtls.PacketSteps(socket, readable, packet);
    if ss != [] {
      AllDefinedAppend(t, [], ss[0]);
      assert [] + [ss[0]] == ss;
    }
  }

  /** The steps of a pass are defined exactly when the joiner session can be processed after the sweep. */
  lemma PassDefinedIff(j: JoinerState, t: Turn)
    ensures AllDefined(TableOf(j), PassSteps(j, t)) <==> CanProcess(AfterSweep(j, t.sweep), t.arrival)
  {
    if j.Present? {
      var u, a := Sweep(j.table, t.sweep), t.arrival;
      var loop := LoopSteps(u, |u.sessions|, a.readable, a.outcomes);
      LoopDefinedIff(u, |u.sessions|, a.readable, a.outcomes);
      PacketDefined(Steps(u, loop), j.socket, a.readable, a.packet);
      AllDefinedConcat(u, loop, Dtls.PacketSteps(j.socket, a.readable, a.packet));
      StepAlone(j.table, SweepStep(t.sweep));
      AllDefinedAppend(j.table, [], SweepStep(t.sweep));
      assert [] + [SweepStep(t.sweep)] == [SweepStep(t.sweep)];
      AllDefinedConcat(j.table, [SweepStep(t.sweep)], Dtls.ArrivalSteps(u, j.socket, a));
    }
  }

  lemma TurnDefinedIff(j: JoinerState, t: Turn)
    ensures AllDefined(TableOf(j), TurnSteps(j, t)) <==> CanProcess(AfterSweep(j, t.sweep), t.arrival)
  {
    PassDefinedIff(j, t);
    if j.Present? && t.datagram.Some? {
      AllDefinedAppend(TableOf(j), PassSteps(j, t), KekSentStep);
    } else {
      assert TurnSteps(j, t) == PassSteps(j, t);
    }
  }

  /** The turns up to the n-th are done. */
  ghost predicate AllDone(sha: Steering.Sha256, p: Pub, j: JoinerState, ts: seq<Turn>, n: nat)
    requires n <= |ts|
  {
    forall k | 0 <= k < n :: StageAt(sha, p, j, ts, k).Done?
  }

  lemma OneMoreDefined(sha: Steering.Sha256, p: Pub, j: JoinerState, ts: seq<Turn>)
    requires ts != []
    ensures AllDefined(TableOf(j), ThreadSteps(sha, p, j, ts[..|ts| - 1])) && StageAt(sha, p, j, ts, |ts| - 1).Done?
        ==> AllDefined(TableOf(j), ThreadSteps(sha, p, j, ts))
  {
    var front, last := ts[..|ts| - 1], ts[|ts| - 1];
    var j' := AfterTurns(sha, p, j, front);
    TurnDefinedIff(j', last);
    ThreadTable(sha, p, j, front);
    AllDefinedConcat(TableOf(j), ThreadSteps(sha, p, j, front), TurnSteps(j', last));
  }

  /** The turns that a thread has done have worked on no destroyed session. */
  lemma {:induction false} DoneDefined(sha: Steering.Sha256, p: Pub, j: JoinerState, ts: seq<Turn>, n: nat)
    requires n <= |ts| && AllDone(sha, p, j, ts, n)
    ensures AllDefined(TableOf(j), ThreadSteps(sha, p, j, ts[..n]))
    decreases n
  {
    if n > 0 {
      DoneDefined(sha, p, j, ts, n - 1);
      assert ts[..n][..n - 1] == ts[..n - 1] && StageAt(sha, p, j, ts, n - 1).Done?;
      OneMoreDefined(sha, p, j, ts[..n]);
    }
  }

  /** The steps of a thread up to the pass of its n-th turn. */
  function StepsUpTo(sha: Steering.Sha256, p: Pub, j: JoinerState, ts: seq<Turn>, n: nat): seq<Step>
    requires n < |ts|
  {
    ThreadSteps(sha, p, j, ts[..n]) + PassSteps(AfterTurns(sha, p, j, ts[..n]), ts[n])
  }

  /** A thread that starts without a joiner session and has done n turns stops at the sessions in the next one, if and
      only if the steps of its turns and of this pass export a key after a sweep destroyed the session accepted last, or
      send after a sweep lost the current session. */
  lemma StopsIff(sha: Steering.Sha256, p: Pub, ts: seq<Turn>, n: nat)
    requires n < |ts|
    ensures AllDone(sha, p, Absent, ts, n) && !StageAt(sha, p, Absent, ts, n).AtSweep? ==>
              (StageAt(sha, p, Absent, ts, n).AtSessions?
               <==> var ss := StepsUpTo(sha, p, Absent, ts, n); exists k :: 0 <= k < |ss| && Harmed(ss, k))
  {
    if AllDone(sha, p, Absent, ts, n) {
      var j' := AfterTurns(sha, p, Absent, ts[..n]);
      DoneDefined(sha, p, Absent, ts, n);
      PassDefinedIff(j', ts[n]);
      ThreadTable(sha, p, Absent, ts[..n]);
      AllDefinedConcat(EMPTY, ThreadSteps(sha, p, Absent, ts[..n]), PassSteps(j', ts[n]));
      AllDefinedIff(StepsUpTo(sha, p, Absent, ts, n));
    }
  }

  // The first publication.

  lemma TurnCreates(j: JoinerState, t: Turn, publishes: bool)
    ensures AfterTurn(j, t, Stage.Done, publishes).Present? <==> j.Present? || publishes
  {
  }

  lemma RoundsLast(sha: Steering.Sha256, p: Pub, ts: seq<Turn>)
    requires ts != []
    ensures Rounds(sha, p, OpsOf(ts))
         == Publish.Round(sha, Rounds(sha, p, OpsOf(ts[..|ts| - 1])), ts[|ts| - 1].ops)
  {
    assert OpsOf(ts)[..|ts| - 1] == OpsOf(ts[..|ts| - 1]);
  }

  /** A thread that starts without a joiner session has one after its turns, if and only if it has told the network
      something. */
  lemma {:induction false} CreatedIff(sha: Steering.Sha256, p: Pub, ts: seq<Turn>)
    requires p.sent.None?
    ensures AfterTurns(sha, p, Absent, ts).Present? <==> Rounds(sha, p, OpsOf(ts)).sent.Some?
  {
    if ts != [] {
      var front, last := ts[..|ts| - 1], ts[|ts| - 1];
      var q := Rounds(sha, p, OpsOf(front));
      CreatedIff(sha, p, front);
      RoundsLast(sha, p, ts);
      RoundTells(sha, q, last.ops);
      TurnCreates(AfterTurns(sha, p, Absent, front), last, AfterOps(sha, q.list, last.ops).updated);
    }
  }
}
