/** What one pass over the session table does: whom it serves, and whom it accepts. */
module Arrivals {
  import opened Bytes
  import opened Dtls
  import opened Sessions
  import opened SessionRuns

  /** What the loop over the first n sessions makes of the session at a place: it is served when its socket was readable
      to begin with, whatever the sessions before it did. */
  predicate ServedAt(t: Table, n: nat, readable: set<int>, os: nat -> Outcome, u: Table, j: nat)
    requires j < |t.sessions| == |u.sessions|
  {
    var (x, y, served) := (t.sessions[j], u.sessions[j], j < n && t.sessions[j].fd in readable);
    && y.id == x.id
    && y.expiration == (if served then os(j).now + 60000 else x.expiration)
    && (y.fd == x.fd || (served && y.fd == os(j).fd))
  }

  ghost predicate Served(t: Table, n: nat, readable: set<int>, os: nat -> Outcome, u: Table) {
    && Proper(u) && u.nextId == t.nextId && |u.sessions| == |t.sessions|
    && forall j | 0 <= j < |t.sessions| :: ServedAt(t, n, readable, os, u, j)
  }

  lemma VisitServesAt(t: Table, n: nat, readable: set<int>, os: nat -> Outcome, u: Table, j: nat)
    requires j < |t.sessions| && n < |t.sessions| && Served(t, n, readable, os, u)
    ensures var v := Visit(u, n, readable, os(n));
      |v.sessions| == |t.sessions| && ServedAt(t, n + 1, readable, os, v, j)
  {
    assert ServedAt(t, n, readable, os, u, j) && ServedAt(t, n, readable, os, u, n);
    ProcessAt(u, n, os(n), j);
  }

  lemma VisitServes(t: Table, n: nat, readable: set<int>, os: nat -> Outcome, u: Table)
    requires n < |t.sessions| && Served(t, n, readable, os, u)
    ensures Served(t, n + 1, readable, os, Visit(u, n, readable, os(n)))
  {
    var (m, v) := (n + 1, Visit(u, n, readable, os(n)));
    NextProper(u, ProcessStep(n, os(n)));
    ProcessKept(u, n, os(n));
    VisitServesAt(t, n, readable, os, u, n);
    forall j | 0 <= j < |t.sessions|
      ensures ServedAt(t, m, readable, os, v, j)
    {
      VisitServesAt(t, n, readable, os, u, j);
    }
  }

  lemma {:induction false} LoopServes(t: Table, n: nat, readable: set<int>, os: nat -> Outcome)
    requires Proper(t) && n <= |t.sessions|
    ensures Served(t, n, readable, os, Looped(t, n, readable, os))
    decreases n
  {
    if n > 0 {
      LoopServes(t, n - 1, readable, os);
      VisitServes(t, n - 1, readable, os, Looped(t, n - 1, readable, os));
    }
  }

  /** A pass accepts a session when the server socket is readable and a session can be set up. */
  predicate Accepts(socket: int, a: Arrival) {
    socket >= 0 && socket in a.readable && a.packet.Opens?
  }

  /** The session accepted is the last one. It is the one that keys are exported to from now on. */
  predicate AcceptedLast(t: Table, o: Outcome, u: Table) {
    var n := |t.sessions|;
    && |u.sessions| == n + 1 && u.sessions[n].id == t.nextId && u.target == Some(t.nextId)
    && u.sessions[n].fd == o.fd && u.sessions[n].expiration == o.now + 60000
  }

  lemma AcceptLeaves(t: Table, fd: int, garbage: Key, o: Outcome)
    requires Proper(t)
    ensures AcceptedLast(t, o, Accept(t, fd, garbage, o))
    ensures forall j | 0 <= j < |t.sessions| :: Accept(t, fd, garbage, o).sessions[j] == t.sessions[j]
  {
    var u, v := Enlisted(t, fd, garbage), Accept(t, fd, garbage, o);
    EnlistedProper(t, fd, garbage);
    ProcessKept(u, |t.sessions|, o);
    ProcessAt(u, |t.sessions|, o, |t.sessions|);
    forall j | 0 <= j < |t.sessions|
      ensures v.sessions[j] == t.sessions[j]
    {
      assert IdsOf(v.sessions)[j] == IdsOf(u.sessions)[j];
      AcceptAt(t, fd, garbage, o, j, j);
    }
  }

  /** What a pass makes of the session at a place. */
  predicate PassedAt(t: Table, a: Arrival, u: Table, j: nat)
    requires j < |t.sessions| <= |u.sessions|
  {
    var (x, y, served) := (t.sessions[j], u.sessions[j], t.sessions[j].fd in a.readable);
    && y.id == x.id
    && y.expiration == (if served then a.outcomes(j).now + 60000 else x.expiration)
    && (y.fd == x.fd || (served && y.fd == a.outcomes(j).fd))
  }

  /** What waits on the server socket leaves every session alone. When a session cannot be set up the joiner session's
      current one is dropped, unless the phase that was never written reads as over. */
  lemma PacketLeaves(t: Table, socket: int, a: Arrival)
    requires Proper(t)
    ensures var u := Steps(t, PacketSteps(socket, a.readable, a.packet));
      && |u.sessions| == |t.sessions| + (if Accepts(socket, a) then 1 else 0)
      && (Accepts(socket, a) ==> AcceptedLast(t, a.packet.first, u))
      && (forall j | 0 <= j < |t.sessions| :: u.sessions[j] == t.sessions[j])
      && (socket < 0 || socket !in a.readable || a.packet.Bad? ==> u == t)
      && (socket >= 0 && socket in a.readable && a.packet.SetupFails? ==>
            u.current == if a.packet.garbage == Failed || a.packet.garbage == Ended then t.current else None)
  {
    var ss := PacketSteps(socket, a.readable, a.packet);
    if ss != [] {
      StepAlone(t, ss[0]);
      assert ss == [ss[0]];
    }
    if Accepts(socket, a) {
      AcceptLeaves(t, socket, a.packet.garbageKek, a.packet.first);
    }
  }

  /** One pass over the sessions and the server socket. Every session stays in its place; those whose sockets are
      readable at the beginning are served, and their time to live starts anew, and the others keep theirs and their
      sockets; at most one session is accepted. */
  lemma PassServes(t: Table, socket: int, a: Arrival)
    requires Proper(t)
    ensures var u := Steps(t, ArrivalSteps(t, socket, a));
      && |u.sessions| == |t.sessions| + (if Accepts(socket, a) then 1 else 0)
      && (Accepts(socket, a) ==> AcceptedLast(t, a.packet.first, u))
      && forall j | 0 <= j < |t.sessions| :: PassedAt(t, a, u, j)
  {
    var n := |t.sessions|;
    var v := Looped(t, n, a.readable, a.outcomes);
    LoopServes(t, n, a.readable, a.outcomes);
    LoopedSteps(t, n, a.readable, a.outcomes);
    StepsConcat(t, LoopSteps(t, n, a.readable, a.outcomes), PacketSteps(socket, a.readable, a.packet));
    PacketLeaves(v, socket, a);
    forall j | 0 <= j < n
      ensures PassedAt(t, a, Steps(t, ArrivalSteps(t, socket, a)), j)
    {
      assert ServedAt(t, n, a.readable, a.outcomes, v, j);
    }
  }
}
