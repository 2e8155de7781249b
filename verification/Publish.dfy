/** Publishing the steering filter: is what the network was last told still what the list says? */
module Publish {
  import opened Bytes
  import opened Steering
  import opened Joiners
  import Crc

  /** The list, the filter last sent in this run, and whether a publication is under way: sent, but the list's
      flag not yet cleared. */
  datatype Pub = Pub(list: ListState, sent: Option<set<nat>>, sending: bool)

  /** A REST operation on the list, or one of the two halves of a publication. */
  datatype PubStep = Rest(op: Op) | Send | Finish

  function PubNext(sha: Sha256, p: Pub, x: PubStep): Pub {
    match x
    case Rest(op) => p.(list := Apply(sha, p.list, op))
    case Send => if p.list.updated && !p.sending then p.(sent := Some(p.list.filter), sending := true) else p
    case Finish => if p.sending then Pub(p.list.(updated := false), p.sent, false) else p
  }

  function PubRun(sha: Sha256, p: Pub, xs: seq<PubStep>): Pub {
    if xs == [] then p else PubNext(sha, PubRun(sha, p, xs[..|xs| - 1]), xs[|xs| - 1])
  }

  /** A list that is not marked as updated is the one last sent, or was never touched. */
  predicate InSync(p: Pub) {
    p.list.updated || match p.sent case Some(f) => f == p.list.filter case None => p.list == EMPTY
  }

  predicate Steady(p: Pub) {
    InSync(p) && (p.sending ==> p.sent == Some(p.list.filter))
  }

  /** No write is rejected, and nothing happens to the list while it is being published. */
  predicate Careful(p: Pub, x: PubStep) {
    x.Rest? ==> !p.sending && !x.op.UpdateFinished? && !(x.op.Write? && Rejected(x.op.parsed))
  }

  predicate CarefulRun(sha: Sha256, p: Pub, xs: seq<PubStep>) {
    xs == [] ||
    (CarefulRun(sha, p, xs[..|xs| - 1]) && Careful(PubRun(sha, p, xs[..|xs| - 1]), xs[|xs| - 1]))
  }

  /** An accepted operation marks the list as updated, or leaves it alone. */
  lemma AcceptedMarks(sha: Sha256, s: ListState, op: Op)
    requires !op.UpdateFinished? && !(op.Write? && Rejected(op.parsed))
    ensures Apply(sha, s, op).updated || Apply(sha, s, op) == s
  {
  }

  lemma StepSteady(sha: Sha256, p: Pub, x: PubStep)
    requires Steady(p) && Careful(p, x)
    ensures Steady(PubNext(sha, p, x))
  {
    if x.Rest? {
      AcceptedMarks(sha, p.list, x.op);
    }
  }

  /** In every careful run from a pristine or updated list, the flag tells the truth. */
  lemma {:induction false} RunInSync(sha: Sha256, s: ListState, xs: seq<PubStep>)
    requires (s == EMPTY || s.updated) && CarefulRun(sha, Pub(s, None, false), xs)
    ensures Steady(PubRun(sha, Pub(s, None, false), xs))
  {
    if xs != [] {
      var p := Pub(s, None, false);
      RunInSync(sha, s, xs[..|xs| - 1]);
      StepSteady(sha, PubRun(sha, p, xs[..|xs| - 1]), xs[|xs| - 1]);
    }
  }

  /** A rejected write leaves the list in step exactly when the list is still marked, or the filter stays what was sent,
      or nothing was sent and the write took nothing. */
  predicate HarmlessWrite(sha: Sha256, p: Pub, parsed: Parsed) {
    p.list.updated ||
    if p.sent.Some? then FullFilter(sha, Instances(Accepted(parsed))) == p.list.filter else Accepted(parsed) == []
  }

  lemma RejectedWriteIff(sha: Sha256, p: Pub, parsed: Parsed, residue: nat -> Record)
    requires InSync(p) && Rejected(parsed)
    ensures InSync(PubNext(sha, p, Rest(Write(parsed, residue)))) <==> HarmlessWrite(sha, p, parsed)
  {
    var s := AfterWrite(sha, p.list, parsed, residue);
    assert Accepted(parsed) == [] ==> s.filter == {} && s.jsonArray == [] && s.vector == [];
  }

  /** A publication finishes with the filter it sent, and a write is accepted or harmless. */
  predicate Harmless(sha: Sha256, p: Pub, x: PubStep) {
    match x
    case Rest(op) => !(op.Write? && Rejected(op.parsed)) || HarmlessWrite(sha, p, op.parsed)
    case Send => true
    case Finish => p.sending ==> p.sent == Some(p.list.filter)
  }

  /** What is being published is still marked. */
  predicate Working(p: Pub) {
    p.sending ==> p.list.updated && p.sent.Some?
  }

  /** An operation other than the clearing of the mark leaves a marked list marked. */
  lemma MarkStays(sha: Sha256, s: ListState, op: Op)
    requires s.updated && !op.UpdateFinished?
    ensures Apply(sha, s, op).updated
  {
  }

  lemma StepWorking(sha: Sha256, p: Pub, x: PubStep)
    requires Working(p) && !(x.Rest? && x.op.UpdateFinished?)
    ensures Working(PubNext(sha, p, x))
  {
    if x.Rest? && p.sending {
      MarkStays(sha, p.list, x.op);
    }
  }

  lemma StepInSyncIff(sha: Sha256, p: Pub, x: PubStep)
    requires InSync(p) && Working(p) && !(x.Rest? && x.op.UpdateFinished?)
    ensures InSync(PubNext(sha, p, x)) <==> Harmless(sha, p, x)
  {
    if x.Rest? {
      if x.op.Write? && Rejected(x.op.parsed) {
        RejectedWriteIff(sha, p, x.op.parsed, x.op.residue);
      } else {
        AcceptedMarks(sha, p.list, x.op);
      }
    }
  }

  /** The flag is cleared by publications alone. */
  predicate OnlyRest(xs: seq<PubStep>) {
    forall i | 0 <= i < |xs| :: !(xs[i].Rest? && xs[i].op.UpdateFinished?)
  }

  ghost predicate HarmlessAt(sha: Sha256, p: Pub, xs: seq<PubStep>, k: nat)
    requires k < |xs|
  {
    Harmless(sha, PubRun(sha, p, xs[..k]), xs[k])
  }

  lemma PubLast(sha: Sha256, p: Pub, xs: seq<PubStep>, n: nat)
    requires n < |xs|
    ensures PubRun(sha, p, xs[..n + 1]) == PubNext(sha, PubRun(sha, p, xs[..n]), xs[n])
  {
    assert xs[..n + 1][..n] == xs[..n];
  }

  /** One step of a run, at any place: it keeps what is published marked, and the list in step if it is harmless. */
  lemma InSyncOn(sha: Sha256, p: Pub, xs: seq<PubStep>, n: nat)
    requires n < |xs| && OnlyRest(xs) && Working(PubRun(sha, p, xs[..n]))
    ensures Working(PubRun(sha, p, xs[..n + 1]))
    ensures InSync(PubRun(sha, p, xs[..n])) ==>
              (InSync(PubRun(sha, p, xs[..n + 1])) <==> HarmlessAt(sha, p, xs, n))
  {
    var q := PubRun(sha, p, xs[..n]);
    PubLast(sha, p, xs, n);
    StepWorking(sha, q, xs[n]);
    if InSync(q) {
      StepInSyncIff(sha, q, xs[n]);
    }
  }

  lemma {:induction false} RunWorking(sha: Sha256, p: Pub, xs: seq<PubStep>, n: nat)
    requires Working(p) && n <= |xs| && OnlyRest(xs)
    ensures Working(PubRun(sha, p, xs[..n]))
    decreases n
  {
    if n > 0 {
      RunWorking(sha, p, xs, n - 1);
      InSyncOn(sha, p, xs, n - 1);
    }
  }

  lemma {:induction false} InSyncUpTo(sha: Sha256, p: Pub, xs: seq<PubStep>, n: nat)
    requires InSync(p) && Working(p) && n <= |xs| && OnlyRest(xs)
    requires forall k | 0 <= k < n :: HarmlessAt(sha, p, xs, k)
    ensures InSync(PubRun(sha, p, xs[..n]))
    decreases n
  {
    if n > 0 {
      InSyncUpTo(sha, p, xs, n - 1);
      RunWorking(sha, p, xs, n - 1);
      assert HarmlessAt(sha, p, xs, n - 1);
      InSyncOn(sha, p, xs, n - 1);
    }
  }

  ghost predicate AlwaysInSync(sha: Sha256, p: Pub, xs: seq<PubStep>) {
    forall n | 0 <= n <= |xs| :: InSync(PubRun(sha, p, xs[..n]))
  }

  /** Over every run, with operations anywhere and writes rejected or not: the flag tells the truth throughout, if and
      only if every publication finishes with the filter it sent and every rejected write is harmless where it comes. */
  lemma RunInSyncIff(sha: Sha256, s: ListState, xs: seq<PubStep>)
    requires (s == EMPTY || s.updated) && OnlyRest(xs)
    ensures var p := Pub(s, None, false);
      AlwaysInSync(sha, p, xs) <==> forall k | 0 <= k < |xs| :: HarmlessAt(sha, p, xs, k)
  {
    var p := Pub(s, None, false);
    if forall k | 0 <= k < |xs| :: HarmlessAt(sha, p, xs, k) {
      forall n | 0 <= n <= |xs|
        ensures InSync(PubRun(sha, p, xs[..n]))
      {
        InSyncUpTo(sha, p, xs, n);
      }
    } else {
      var k :| 0 <= k < |xs| && !HarmlessAt(sha, p, xs, k);
      if AlwaysInSync(sha, p, xs) {
        RunWorking(sha, p, xs, k);
        assert InSync(PubRun(sha, p, xs[..k])) && InSync(PubRun(sha, p, xs[..k + 1]));
        InSyncOn(sha, p, xs, k);
      }
    }
  }

  function AfterOps(sha: Sha256, s: ListState, ops: seq<Op>): ListState {
    if ops == [] then s else Apply(sha, AfterOps(sha, s, ops[..|ops| - 1]), ops[|ops| - 1])
  }

  function Rests(ops: seq<Op>): (r: seq<PubStep>)
    ensures |r| == |ops| && forall i {:trigger r[i]} | 0 <= i < |ops| :: r[i] == Rest(ops[i])
  {
    seq(|ops|, i requires 0 <= i < |ops| => Rest(ops[i]))
  }

  lemma {:induction false} RestsRun(sha: Sha256, p: Pub, ops: seq<Op>)
    ensures PubRun(sha, p, Rests(ops)) == p.(list := AfterOps(sha, p.list, ops))
  {
    if ops != [] {
      RestsRun(sha, p, ops[..|ops| - 1]);
      assert Rests(ops)[..|ops| - 1] == Rests(ops[..|ops| - 1]);
    }
  }

  /** The list's state after operations inside a publication. */
  function MidPublish(sha: Sha256, p: Pub, ops: seq<Op>): Pub {
    PubNext(sha, PubRun(sha, PubNext(sha, p, Send), Rests(ops)), Finish)
  }

  /** Operations inside a publication are lost exactly when together they change the filter. */
  lemma MidPublishIff(sha: Sha256, p: Pub, ops: seq<Op>)
    requires p.list.updated && !p.sending
    ensures InSync(MidPublish(sha, p, ops)) <==> AfterOps(sha, p.list, ops).filter == p.list.filter
  {
    RestsRun(sha, PubNext(sha, p, Send), ops);
  }

  lemma FirstEntry(sha: Sha256, body: string, eui: string)
    requires |eui| == 2 * EUI64_LEN
    ensures AfterEdit(sha, AfterClear(), body, eui).filter == EntryBits(sha, Instance(Record(body, eui))) != {}
  {
    var bits := EntryBits(sha, Instance(Record(body, eui)));
    var id := HashMac(sha, Instance(Record(body, eui)).eui64Bin);
    assert Crc.Fold(Crc.CCITT, 0, id) as nat % (8 * DEFAULT_LENGTH) in bits;
  }

  /** A joiner edited in while an emptied list is being published is never announced. */
  lemma LostEdit(sha: Sha256, body: string, eui: string)
    requires |eui| == 2 * EUI64_LEN
    ensures !InSync(MidPublish(sha, Pub(AfterClear(), None, false), [Edit(body, eui)]))
  {
    MidPublishIff(sha, Pub(AfterClear(), None, false), [Edit(body, eui)]);
    FirstEntry(sha, body, eui);
    assert AfterOps(sha, AfterClear(), []) == AfterClear();
  }

  /** A malformed write empties a published list without telling anyone. */
  lemma LostWrite(sha: Sha256, body: string, eui: string, residue: nat -> Record)
    requires |eui| == 2 * EUI64_LEN
    ensures var s := AfterEdit(sha, AfterClear(), body, eui);
      var p := Pub(s.(updated := false), Some(s.filter), false);
      InSync(p) && !InSync(PubNext(sha, p, Rest(Write(Malformed, residue))))
  {
    var s := AfterEdit(sha, AfterClear(), body, eui);
    FirstEntry(sha, body, eui);
    RejectedWriteIff(sha, Pub(s.(updated := false), Some(s.filter), false), Malformed, residue);
    assert Accepted(Malformed) == [];
  }

  /** On the first run, a write rejected after its first element leaves an entry that is never announced. */
  lemma LostFirstWrite(sha: Sha256, e: Element, residue: nat -> Record)
    requires Complete(e)
    ensures var parsed := Many([e, Element(None, None)]);
      Rejected(parsed) && !InSync(PubNext(sha, Pub(EMPTY, None, false), Rest(Write(parsed, residue))))
  {
    var es := [e, Element(None, None)];
    assert es[1..] == [Element(None, None)];
    assert FirstBad(es) == 1;
    assert |Accepted(Many(es))| == 1;
    RejectedWriteIff(sha, Pub(EMPTY, None, false), Many(es), residue);
  }

  /** What a list in step has told the network lets every entry in: both its bits are in the filter last sent. */
  lemma SentAdmits(sha: Sha256, p: Pub, i: nat)
    requires Steady(p) && !p.list.updated && p.sent.Some? && Coherent(sha, p.list) && i < |p.list.vector|
    ensures EntryBits(sha, p.list.vector[i]) <= p.sent.value
  {
    EntryInFilter(sha, p.list.vector, i);
  }

  // Rounds of the run loop: some REST operations, then the publication in one go.

  function Published(p: Pub): Pub {
    if p.list.updated then Pub(p.list.(updated := false), Some(p.list.filter), false) else p
  }

  function Round(sha: Sha256, p: Pub, ops: seq<Op>): Pub {
    Published(p.(list := AfterOps(sha, p.list, ops)))
  }

  function Rounds(sha: Sha256, p: Pub, rounds: seq<seq<Op>>): Pub {
    if rounds == [] then p else Round(sha, Rounds(sha, p, rounds[..|rounds| - 1]), rounds[|rounds| - 1])
  }

  predicate CarefulOps(ops: seq<Op>) {
    forall i | 0 <= i < |ops| :: !ops[i].UpdateFinished? && !(ops[i].Write? && Rejected(ops[i].parsed))
  }

  lemma {:induction false} OpsKeep(sha: Sha256, s: ListState, ops: seq<Op>)
    requires CarefulOps(ops)
    ensures AfterOps(sha, s, ops).updated || AfterOps(sha, s, ops) == s
  {
    if ops != [] {
      OpsKeep(sha, s, ops[..|ops| - 1]);
      AcceptedMarks(sha, AfterOps(sha, s, ops[..|ops| - 1]), ops[|ops| - 1]);
    }
  }

  /** With no rejected write and operations only between publications, every round ends with the list
      untouched or its filter sent. */
  lemma {:induction false} RoundsInSync(sha: Sha256, s: ListState, rounds: seq<seq<Op>>)
    requires (s == EMPTY || s.updated) && forall i | 0 <= i < |rounds| :: CarefulOps(rounds[i])
    ensures var p := Rounds(sha, Pub(s, None, false), rounds); Steady(p) && !p.sending
    ensures rounds != [] ==> !Rounds(sha, Pub(s, None, false), rounds).list.updated
  {
    if rounds != [] {
      var before := Rounds(sha, Pub(s, None, false), rounds[..|rounds| - 1]);
      RoundsInSync(sha, s, rounds[..|rounds| - 1]);
      OpsKeep(sha, before.list, rounds[|rounds| - 1]);
    }
  }

  lemma {:induction false} OpsCoherent(sha: Sha256, s: ListState, ops: seq<Op>)
    requires Coherent(sha, s) && |s.jsonArray| == |s.vector|
    ensures var s' := AfterOps(sha, s, ops); Coherent(sha, s') && |s'.jsonArray| == |s'.vector|
  {
    if ops != [] {
      OpsCoherent(sha, s, ops[..|ops| - 1]);
      StepCoherent(sha, AfterOps(sha, s, ops[..|ops| - 1]), ops[|ops| - 1]);
    }
  }

  lemma {:induction false} RoundsCoherent(sha: Sha256, p: Pub, rounds: seq<seq<Op>>)
    requires Coherent(sha, p.list) && |p.list.jsonArray| == |p.list.vector|
    ensures var s := Rounds(sha, p, rounds).list; Coherent(sha, s) && |s.jsonArray| == |s.vector|
  {
    if rounds != [] {
      RoundsCoherent(sha, p, rounds[..|rounds| - 1]);
      OpsCoherent(sha, Rounds(sha, p, rounds[..|rounds| - 1]).list, rounds[|rounds| - 1]);
    }
  }

  // A run over a list that was published before it: not marked, and not empty perhaps.

  /** The operation is accepted and marks the list. */
  predicate Marks(s: ListState, op: Op) {
    match op
    case Write(parsed, _) => !Rejected(parsed)
    case Edit(_, eui) => |eui| == 2 * EUI64_LEN
    case Remove(eui) => Find(s.jsonArray, eui) < |s.jsonArray|
    case Clear => true
    case UpdateFinished => false
  }

  lemma MarkedIff(sha: Sha256, s: ListState, op: Op)
    requires !op.UpdateFinished?
    ensures Apply(sha, s, op).updated <==> s.updated || Marks(s, op)
  {
  }

  predicate NoneFinish(ops: seq<Op>) {
    forall i | 0 <= i < |ops| :: !ops[i].UpdateFinished?
  }

  /** Some operation is accepted and marks the list as it then is. */
  predicate SomeMarks(sha: Sha256, s: ListState, ops: seq<Op>) {
    ops != [] &&
    (SomeMarks(sha, s, ops[..|ops| - 1]) || Marks(AfterOps(sha, s, ops[..|ops| - 1]), ops[|ops| - 1]))
  }

  lemma {:induction false} OpsMarkIff(sha: Sha256, s: ListState, ops: seq<Op>)
    requires NoneFinish(ops)
    ensures AfterOps(sha, s, ops).updated <==> s.updated || SomeMarks(sha, s, ops)
  {
    if ops != [] {
      OpsMarkIff(sha, s, ops[..|ops| - 1]);
      MarkedIff(sha, AfterOps(sha, s, ops[..|ops| - 1]), ops[|ops| - 1]);
    }
  }

  /** Some operation of some round does. */
  predicate SomeRoundMarks(sha: Sha256, p: Pub, rounds: seq<seq<Op>>) {
    rounds != [] &&
    (SomeRoundMarks(sha, p, rounds[..|rounds| - 1])
     || SomeMarks(sha, Rounds(sha, p, rounds[..|rounds| - 1]).list, rounds[|rounds| - 1]))
  }

  /** Whatever list it starts with, a run that has sent nothing yet tells the network something in its first round if
      the list is marked then, and otherwise in the first round with an accepted operation, and never before. */
  lemma {:induction false} FirstToldIff(sha: Sha256, s: ListState, rounds: seq<seq<Op>>)
    requires forall k | 0 <= k < |rounds| :: NoneFinish(rounds[k])
    ensures var (p, p') := (Pub(s, None, false), Rounds(sha, Pub(s, None, false), rounds));
      && (p'.sent.Some? <==> rounds != [] && (s.updated || SomeRoundMarks(sha, p, rounds)))
      && (p'.sent.None? ==> p'.list.updated == (rounds == [] && s.updated))
  {
    if rounds != [] {
      var p, front, n := Pub(s, None, false), rounds[..|rounds| - 1], |rounds| - 1;
      var q := Rounds(sha, p, front);
      FirstToldIff(sha, s, front);
      OpsMarkIff(sha, q.list, rounds[n]);
      RoundTells(sha, q, rounds[n]);
    }
  }

  lemma RoundTells(sha: Sha256, q: Pub, ops: seq<Op>)
    ensures var (s, q') := (AfterOps(sha, q.list, ops), Round(sha, q, ops));
      && (q'.sent.Some? <==> q.sent.Some? || s.updated)
      && (q'.sent.None? ==> !q'.list.updated)
  {
  }

  /** When no write is rejected, such a run leaves the list as it found it until it tells the network, and from then on
      every round ends in step. */
  lemma {:induction false} LateStart(sha: Sha256, s: ListState, rounds: seq<seq<Op>>)
    requires forall k | 0 <= k < |rounds| :: CarefulOps(rounds[k])
    ensures var p' := Rounds(sha, Pub(s, None, false), rounds);
      !p'.sending && if p'.sent.Some? then Steady(p') else p'.list == s
  {
    if rounds != [] {
      var front, n := rounds[..|rounds| - 1], |rounds| - 1;
      LateStart(sha, s, front);
      OpsKeep(sha, Rounds(sha, Pub(s, None, false), front).list, rounds[n]);
    }
  }
}
