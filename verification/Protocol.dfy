/** Petition, retry and keep-alive: the commissioner's own state over one run. */
module Protocol {
  import opened Bytes
  import opened Tlvs

  const PETITION_MAX_RETRY := 2

  datatype CommissionState = Invalid | Connected | Accepted | Rejected

  datatype Kind = PetitionAnswer | SetAnswer | KeepAliveAnswer

  /** A response: the state its TLVs ask for, if any, and when it is handled. */
  datatype Response = Response(kind: Kind, verdict: Option<CommissionState>, time: int)

  /** The fields the run is about, with what was sent: a count of petitions and the times of keep-alives. */
  datatype Core = Core(
    state: CommissionState,
    retries: nat,
    rate: int,
    last: int,
    petitions: nat,
    keepAlives: seq<int>)

  // Responses as bytes.

  /** The state byte, read as a signed number. */
  function StateOf(b: Byte): CommissionState {
    if b == 1 then Accepted else if b == 255 then Rejected else Invalid
  }

  /** Every walker reads one byte of every value; two also read a session id. */
  function Need(kind: Kind): Reader {
    (t: Byte, n: nat) => if t == COMMISSIONER_SESSION_ID && kind != KeepAliveAnswer then 2 else 1
  }

  /** The state the last state TLV asks for. */
  function Verdict(mem: Octets, vs: seq<View>): Option<CommissionState>
    requires forall i | 0 <= i < |vs| :: vs[i].start < |mem|
  {
    if vs == [] then None
    else
      var v := vs[|vs| - 1];
      if v.kind == STATE then Some(StateOf(mem[v.start])) else Verdict(mem, vs[..|vs| - 1])
  }

  /** The last session id among the TLVs, or the one there was. */
  function SessionId(mem: Octets, vs: seq<View>, id: Word16): Word16
    requires forall i | 0 <= i < |vs| :: vs[i].kind == COMMISSIONER_SESSION_ID ==> vs[i].start + 2 <= |mem|
  {
    if vs == [] then id
    else
      var v := vs[|vs| - 1];
      if v.kind == COMMISSIONER_SESSION_ID then WordAt(mem, v.start)
      else SessionId(mem, vs[..|vs| - 1], id)
  }

  /** A walk that did not leave memory has read what it needs. */
  lemma {:induction false} WalkReads(mem: Octets, at: nat, length: nat, need: Reader, i: nat)
    requires Walk(mem, at, length, need).Some? && i < |Walk(mem, at, length, need).value|
    ensures var v := Walk(mem, at, length, need).value[i];
      v.start + need(v.kind, v.length) <= |mem|
    decreases if at <= |mem| then |mem| - at else 0
  {
    if i > 0 {
      WalkReads(mem, GetNext(mem, at), length, need, i - 1);
    }
  }

  // One iteration of the run loop.

  predicate LeavesPending(c: Core) {
    c.state.Connected? || c.state.Rejected?
  }

  /** CommissionerResponseNext. */
  function ResponseNext(c: Core): Core {
    if !LeavesPending(c) then c
    else if c.retries < PETITION_MAX_RETRY then c.(retries := c.retries + 1, petitions := c.petitions + 1)
    else c.(state := Invalid, retries := 0)
  }

  /** The state after a response's TLVs, before the retry logic. */
  function Judged(c: Core, r: Response): Core {
    c.(state := if r.verdict.Some? then r.verdict.value else c.state,
       last := if r.kind.SetAnswer? then c.last else r.time)
  }

  function Respond(c: Core, r: Response): Core {
    ResponseNext(Judged(c, r))
  }

  predicate KeepAliveDue(c: Core, now: int) {
    c.state.Accepted? && c.rate > 0 && now - c.last > c.rate
  }

  function Tick(c: Core, now: int, sendTime: int): Core {
    if KeepAliveDue(c, now) then c.(last := sendTime, keepAlives := c.keepAlives + [sendTime]) else c
  }

  /** One pass of Process: at most one response, then the keep-alive check. */
  datatype Pass = Pass(response: Option<Response>, now: int, sendTime: int)

  function Answered(c: Core, p: Pass): Core {
    if p.response.Some? then Respond(c, p.response.value) else c
  }

  function Iterate(c: Core, p: Pass): Core {
    Tick(Answered(c, p), p.now, p.sendTime)
  }

  /** The loop goes on while the state is valid. */
  function RunLoop(c: Core, ps: seq<Pass>): Core
    decreases |ps|
  {
    if ps == [] || c.state.Invalid? then c else RunLoop(Iterate(c, ps[0]), ps[1..])
  }

  /** Does this pass bring a response that leaves the state Connected or Rejected? */
  predicate Pends(c: Core, p: Pass) {
    p.response.Some? && LeavesPending(Judged(c, p.response.value))
  }

  /** How many passes of the run do. */
  function Pending(c: Core, ps: seq<Pass>): nat
    decreases |ps|
  {
    if ps == [] || c.state.Invalid? then 0
    else (if Pends(c, ps[0]) then 1 else 0) + Pending(Iterate(c, ps[0]), ps[1..])
  }

  /** Right after the first petition. */
  predicate Started(c: Core) {
    c.state.Connected? && c.retries == 0 && c.petitions == 1 && c.keepAlives == []
  }

  predicate Counted(c: Core) {
    c.retries <= PETITION_MAX_RETRY && c.petitions == 1 + c.retries
  }

  lemma PassCounts(c: Core, p: Pass)
    requires Counted(c) && !c.state.Invalid?
    ensures var c' := Iterate(c, p);
      if !Pends(c, p) then c'.retries == c.retries && c'.petitions == c.petitions
      else if c.retries < PETITION_MAX_RETRY then
        !c'.state.Invalid? && c'.retries == c.retries + 1 && c'.petitions == c.petitions + 1
      else c'.state.Invalid? && c'.petitions == c.petitions
  {
  }

  lemma {:induction false} CountsFrom(c: Core, ps: seq<Pass>)
    requires Counted(c) && !c.state.Invalid?
    ensures var (c', n) := (RunLoop(c, ps), c.retries + Pending(c, ps));
      && n <= PETITION_MAX_RETRY + 1
      && c'.petitions == 1 + (if n <= PETITION_MAX_RETRY then n else PETITION_MAX_RETRY)
      && (!c'.state.Invalid? ==> c'.retries == n)
      && (n == PETITION_MAX_RETRY + 1 ==> c'.state.Invalid?)
    decreases |ps|
  {
    if ps != [] {
      var c1 := Iterate(c, ps[0]);
      PassCounts(c, ps[0]);
      if !c1.state.Invalid? {
        CountsFrom(c1, ps[1..]);
      }
    }
  }

  /** Over a whole run: petitions are one more than the pending responses up to the limit, the count is
      never reset by an acceptance, and the third pending response ends the run. */
  lemma PetitionsBounded(c: Core, ps: seq<Pass>)
    requires Started(c)
    ensures var (c', n) := (RunLoop(c, ps), Pending(c, ps));
      && n <= PETITION_MAX_RETRY + 1
      && c'.petitions == 1 + (if n <= PETITION_MAX_RETRY then n else PETITION_MAX_RETRY)
      && (!c'.state.Invalid? ==> c'.retries == n && c'.petitions == 1 + c'.retries)
      && (n == PETITION_MAX_RETRY + 1 ==> c'.state.Invalid?)
  {
    CountsFrom(c, ps);
  }

  /** The run is over exactly when a third response was pending or the last one judged asked for an invalid state. */
  lemma {:induction false} EndsIff(c: Core, ps: seq<Pass>)
    requires Counted(c) && !c.state.Invalid?
    ensures RunLoop(c, ps).state.Invalid? <==>
      c.retries + Pending(c, ps) == PETITION_MAX_RETRY + 1 || AskedInvalid(c, ps)
    decreases |ps|
  {
    if ps != [] {
      var c1 := Iterate(c, ps[0]);
      PassCounts(c, ps[0]);
      if !c1.state.Invalid? {
        EndsIff(c1, ps[1..]);
      }
    }
  }

  /** Some response handled in the run asks for a state that is neither accepted nor rejected. */
  predicate AskedInvalid(c: Core, ps: seq<Pass>)
    decreases |ps|
  {
    ps != [] && !c.state.Invalid?
    && ((ps[0].response.Some? && Judged(c, ps[0].response.value).state.Invalid?)
        || AskedInvalid(Iterate(c, ps[0]), ps[1..]))
  }

  // Keep-alives.

  /** The clock never goes back, within a pass and from one pass to the next. */
  predicate Clocked(ps: seq<Pass>, from: int)
    decreases |ps|
  {
    ps == [] ||
    var p := ps[0];
    && (p.response.Some? ==> from <= p.response.value.time <= p.now)
    && from <= p.now <= p.sendTime
    && Clocked(ps[1..], p.sendTime)
  }

  ghost predicate Spaced(times: seq<int>, rate: int) {
    forall i | 0 <= i < |times| - 1 :: times[i + 1] - times[i] > rate
  }

  /** The last keep-alive was sent no later than the time the next one is measured from. */
  ghost predicate Paced(c: Core, from: int) {
    && Spaced(c.keepAlives, c.rate)
    && (c.keepAlives != [] ==> c.rate > 0 && c.keepAlives[|c.keepAlives| - 1] <= c.last
                               && c.keepAlives[|c.keepAlives| - 1] <= from)
  }

  lemma PassPaced(c: Core, p: Pass, from: int)
    requires Paced(c, from) && Clocked([p], from)
    ensures Paced(Iterate(c, p), p.sendTime) && Iterate(c, p).rate == c.rate
  {
    var a := Answered(c, p);
    assert a.keepAlives == c.keepAlives && a.rate == c.rate;
  }

  lemma {:induction false} PacedRun(c: Core, ps: seq<Pass>, from: int)
    requires Paced(c, from) && Clocked(ps, from)
    ensures Spaced(RunLoop(c, ps).keepAlives, c.rate)
    ensures RunLoop(c, ps).keepAlives != [] ==> c.rate > 0
    decreases |ps|
  {
    if ps != [] && !c.state.Invalid? {
      assert [ps[0]][1..] == [];
      PassPaced(c, ps[0], from);
      PacedRun(Iterate(c, ps[0]), ps[1..], ps[0].sendTime);
    }
  }

  /** In every run whose clock never goes back, keep-alives are more than the rate apart and need a positive rate. */
  lemma KeepAlivesSpaced(c: Core, ps: seq<Pass>, from: int)
    requires Started(c) && Clocked(ps, from)
    ensures Spaced(RunLoop(c, ps).keepAlives, c.rate)
    ensures RunLoop(c, ps).keepAlives != [] ==> c.rate > 0
  {
    PacedRun(c, ps, from);
  }

  /** An acceptance does not give retries back: two early rejections leave an accepted commissioner
      that one later rejection ends. */
  lemma AcceptanceKeepsCount(c: Core, t: int)
    requires Started(c)
    ensures var no, yes := Pass(Some(Response(PetitionAnswer, Some(Rejected), t)), t, t),
                           Pass(Some(Response(PetitionAnswer, Some(Accepted), t)), t, t);
      RunLoop(c, [no, no, yes]).state.Accepted? && RunLoop(c, [no, no, yes, no]).state.Invalid?
  {
    var no, yes := Pass(Some(Response(PetitionAnswer, Some(Rejected), t)), t, t),
                   Pass(Some(Response(PetitionAnswer, Some(Accepted), t)), t, t);
    var c1 := Iterate(c, no);
    var c2 := Iterate(c1, no);
    var c3 := Iterate(c2, yes);
    var c4 := Iterate(c3, no);
    assert RunLoop(c3, []) == c3 && RunLoop(c4, []) == c4;
    RunCons(c3, no, []);
    RunCons(c2, yes, []);
    RunCons(c2, yes, [no]);
    RunCons(c1, no, [yes]);
    RunCons(c1, no, [yes, no]);
    RunCons(c, no, [no, yes]);
    RunCons(c, no, [no, yes, no]);
  }

  lemma RunCons(c: Core, p: Pass, ps: seq<Pass>)
    requires !c.state.Invalid?
    ensures RunLoop(c, [p] + ps) == RunLoop(Iterate(c, p), ps)
  {
    assert ([p] + ps)[1..] == ps;
  }

  /** A run with one more pass. */
  lemma {:induction false} RunAppend(c: Core, ps: seq<Pass>, p: Pass)
    ensures RunLoop(c, ps + [p])
         == var c' := RunLoop(c, ps); if c'.state.Invalid? then c' else Iterate(c', p)
    decreases |ps|
  {
    if ps == [] {
      assert ps + [p] == [p] && [p][1..] == [];
    } else if !c.state.Invalid? {
      assert (ps + [p])[0] == ps[0] && (ps + [p])[1..] == ps[1..] + [p];
      RunAppend(Iterate(c, ps[0]), ps[1..], p);
    }
  }

  /** After every run, the next pass sends a keep-alive if and only if, after its response, the state is accepted with a
      positive rate and the time since the last contact is over the rate; it sends at most one. */
  lemma KeepAliveIff(c: Core, ps: seq<Pass>, p: Pass)
    requires !RunLoop(c, ps).state.Invalid?
    ensures var (u, u') := (RunLoop(c, ps), RunLoop(c, ps + [p]));
      var a := Answered(u, p);
      && (u'.keepAlives != u.keepAlives <==> a.state.Accepted? && a.rate > 0 && p.now - a.last > a.rate)
      && (u'.keepAlives != u.keepAlives ==> u'.keepAlives == u.keepAlives + [p.sendTime] && u'.state.Accepted?)
  {
    RunAppend(c, ps, p);
    assert RunLoop(c, ps).keepAlives + [p.sendTime] != RunLoop(c, ps).keepAlives;
  }

  // Responses, byte by byte.

  /** The last TLV of the state type is the i-th. */
  ghost predicate LastState(vs: seq<View>, i: nat) {
    i < |vs| && vs[i].kind == 16 && forall k | i < k < |vs| :: vs[k].kind != 16
  }

  lemma {:induction false} VerdictAt(mem: Octets, vs: seq<View>, i: nat)
    requires (forall k | 0 <= k < |vs| :: vs[k].start < |mem|) && LastState(vs, i)
    ensures Verdict(mem, vs) == Some(StateOf(mem[vs[i].start]))
    decreases |vs|
  {
    if i < |vs| - 1 {
      VerdictAt(mem, vs[..|vs| - 1], i);
    }
  }

  lemma {:induction false} NoVerdict(mem: Octets, vs: seq<View>)
    requires forall k | 0 <= k < |vs| :: vs[k].start < |mem| && vs[k].kind != 16
    ensures Verdict(mem, vs) == None
    decreases |vs|
  {
    if vs != [] {
      NoVerdict(mem, vs[..|vs| - 1]);
    }
  }

  /** The first byte of the last state TLV decides: 1 leaves the commissioner accepted and sends nothing, 255 leaves it
      rejected with one more petition while fewer than two retries have been made, and otherwise ends it, as does any
      other byte, without a petition. */
  lemma StateByteDecides(kind: Kind, mem: Octets, vs: seq<View>, i: nat, c: Core, now: int)
    requires (forall k | 0 <= k < |vs| :: vs[k].start < |mem|) && LastState(vs, i)
    ensures var (b, c') := (mem[vs[i].start], Respond(c, Response(kind, Verdict(mem, vs), now)));
      && (b == 1 ==> c'.state == Accepted && c'.petitions == c.petitions && c'.retries == c.retries)
      && (b == 255 && c.retries < 2 ==>
            c'.state == Rejected && c'.petitions == c.petitions + 1 && c'.retries == c.retries + 1)
      && (b == 255 && c.retries >= 2 ==> c'.state == Invalid && c'.petitions == c.petitions && c'.retries == 0)
      && (b != 1 && b != 255 ==> c'.state == Invalid && c'.petitions == c.petitions && c'.retries == c.retries)
  {
    VerdictAt(mem, vs, i);
  }

  /** Without a state TLV the state stays what it was, until the retry logic sees it. */
  lemma NoStateByte(kind: Kind, mem: Octets, vs: seq<View>, c: Core, now: int)
    requires forall k | 0 <= k < |vs| :: vs[k].start < |mem| && vs[k].kind != 16
    ensures var c' := Respond(c, Response(kind, Verdict(mem, vs), now));
      && (c.state == Accepted || c.state == Invalid ==> c'.state == c.state && c'.petitions == c.petitions)
      && (c.state == Connected || c.state == Rejected ==>
            if c.retries < 2 then c'.state == c.state && c'.petitions == c.petitions + 1
            else c'.state == Invalid && c'.petitions == c.petitions)
  {
    NoVerdict(mem, vs);
  }

  /** The last session id TLV gives the id, its high byte first. */
  lemma {:induction false} SessionBytes(mem: Octets, vs: seq<View>, i: nat, id: Word16)
    requires forall k | 0 <= k < |vs| :: vs[k].kind == 11 ==> vs[k].start + 2 <= |mem|
    requires i < |vs| && vs[i].kind == 11 && forall k | i < k < |vs| :: vs[k].kind != 11
    ensures SessionId(mem, vs, id) == 256 * mem[vs[i].start] as nat + mem[vs[i].start + 1] as nat
    decreases |vs|
  {
    if i < |vs| - 1 {
      SessionBytes(mem, vs[..|vs| - 1], i, id);
    }
  }

  // When keep-alives go out.

  /** The time of the last petition or keep-alive answer of a run, or else of the keep-alive sent last, or else the time
      the run started with. */
  function LastContact(c: Core, ps: seq<Pass>): int {
    if ps == [] then c.last
    else
      var front, p := ps[..|ps| - 1], ps[|ps| - 1];
      var u := RunLoop(c, front);
      if u.state.Invalid? then LastContact(c, front)
      else if |Iterate(u, p).keepAlives| > |u.keepAlives| then p.sendTime
      else if p.response.Some? && !p.response.value.kind.SetAnswer? then p.response.value.time
      else LastContact(c, front)
  }

  lemma {:induction false} LastIsContact(c: Core, ps: seq<Pass>)
    ensures RunLoop(c, ps).last == LastContact(c, ps)
    decreases |ps|
  {
    if ps != [] {
      var front, p := ps[..|ps| - 1], ps[|ps| - 1];
      LastIsContact(c, front);
      assert ps == front + [p];
      RunAppend(c, front, p);
    }
  }

  lemma {:induction false} RateKept(c: Core, ps: seq<Pass>)
    ensures RunLoop(c, ps).rate == c.rate
    decreases |ps|
  {
    if ps != [] {
      assert ps == ps[..|ps| - 1] + [ps[|ps| - 1]];
      RateKept(c, ps[..|ps| - 1]);
      RunAppend(c, ps[..|ps| - 1], ps[|ps| - 1]);
    }
  }

  /** A pass of a run that sends a keep-alive comes more than the rate after the last petition or keep-alive answer, its
      own counted, and after the last keep-alive. */
  lemma KeepAliveLate(c: Core, ps: seq<Pass>, p: Pass)
    requires |RunLoop(c, ps + [p]).keepAlives| > |RunLoop(c, ps).keepAlives|
    ensures p.now - (if p.response.Some? && !p.response.value.kind.SetAnswer? then p.response.value.time
                     else LastContact(c, ps)) > c.rate
  {
    RunAppend(c, ps, p);
    LastIsContact(c, ps);
    RateKept(c, ps);
  }
}
