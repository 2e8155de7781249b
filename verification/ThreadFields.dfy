/** Where the thread's datagrams are sent: the port, identifier and locator that relay messages told. */
module ThreadFields {
  import opened Bytes
  import opened Comm
  import opened Commissioners
  import opened Joiners
  import opened Protocol
  import opened Publish
  import opened Relay
  import opened Tlvs
  import opened ThreadTraffic
  import Steering

  /** The three TLVs that say where a joiner is: port, identifier and locator. */
  type Field = k: Byte | 18 <= k <= 20 witness 18

  /** A field as the bytes it is sent and received in. */
  function FieldOf(r: RelayState, kind: Field): Octets {
    if kind == 18 then Word(r.port) else if kind == 19 then r.iid else Word(r.locator)
  }

  function FieldIn(mem: Octets, v: View): Octets
    requires Readable(mem, v) && 18 <= v.kind <= 20
  {
    mem[v.start..v.start + if v.kind == 19 then 8 else 2]
  }

  lemma WordIs(mem: Octets, at: nat)
    requires at + 2 <= |mem|
    ensures Word(WordAt(mem, at)) == mem[at..at + 2]
  {
  }

  lemma OneField(sha: Steering.Sha256, list: seq<JoinerInstance>, mem: Octets, v: View, r: RelayState, fails: bool,
                 kind: Field)
    requires Readable(mem, v)
    ensures var (r', stop) := RelayOne(sha, list, mem, v, r, fails);
      && stop == Stops(v, fails)
      && FieldOf(r', kind) == if v.kind == kind then FieldIn(mem, v) else FieldOf(r, kind)
  {
    if v.kind == kind && kind != 19 {
      WordIs(mem, v.start);
    }
  }

  // One message.

  ghost predicate NoField(vs: seq<View>, i: nat, kind: Field) {
    forall k | i <= k < |vs| :: vs[k].kind != kind
  }

  /** The last TLV of a kind. */
  ghost predicate LastField(vs: seq<View>, i: nat, kind: Field) {
    i < |vs| && vs[i].kind == kind && NoField(vs, i + 1, kind)
  }

  lemma {:induction false} FieldKept(sha: Steering.Sha256, list: seq<JoinerInstance>, mem: Octets, vs: seq<View>,
                                     r: RelayState, fails: nat -> bool, i: nat, kind: Field)
    requires i <= |vs| && AllReadable(mem, vs) && NoField(vs, i, kind)
    ensures FieldOf(RelayAll(sha, list, mem, vs, r, fails, i), kind) == FieldOf(r, kind)
    decreases |vs| - i
  {
    if i < |vs| {
      var (r', stop) := RelayOne(sha, list, mem, vs[i], r, fails(i));
      OneField(sha, list, mem, vs[i], r, fails(i), kind);
      if !stop {
        FieldKept(sha, list, mem, vs, r', fails, i + 1, kind);
      }
    }
  }

  lemma {:induction false} FieldTaken(sha: Steering.Sha256, list: seq<JoinerInstance>, mem: Octets, vs: seq<View>,
                                      r: RelayState, fails: nat -> bool, i: nat, kind: Field, l: nat)
    requires i <= l && LastField(vs, l, kind) && AllReadable(mem, vs)
    requires forall k | i <= k < l :: !Stops(vs[k], fails(k))
    ensures FieldOf(RelayAll(sha, list, mem, vs, r, fails, i), kind) == FieldIn(mem, vs[l])
    decreases |vs| - i
  {
    var (r', stop) := RelayOne(sha, list, mem, vs[i], r, fails(i));
    OneField(sha, list, mem, vs[i], r, fails(i), kind);
    if i < l {
      FieldTaken(sha, list, mem, vs, r', fails, i + 1, kind, l);
    } else {
      FieldKept(sha, list, mem, vs, r', fails, i + 1, kind);
    }
  }

  /** The walk goes on behind every TLV but the last. */
  lemma {:induction false} RelayedGoesOn(mem: Octets, at: nat, length: nat, fails: nat -> bool, i: nat, vs: seq<View>)
    requires Relayed(mem, at, length, fails, i) == Some(vs)
    ensures forall k | 0 <= k < |vs| - 1 :: !Stops(vs[k], fails(i + k))
    decreases if at <= |mem| then |mem| - at else 0
  {
    if |vs| > 1 {
      var rest := Relayed(mem, GetNext(mem, at), length, fails, i + 1).value;
      RelayedGoesOn(mem, GetNext(mem, at), length, fails, i + 1, rest);
      forall k | 0 <= k < |vs| - 1
        ensures !Stops(vs[k], fails(i + k))
      {
        if k > 0 {
          assert vs[k] == rest[k - 1] && !Stops(rest[k - 1], fails(i + 1 + (k - 1)));
        }
      }
    }
  }

  /** A message leaves a field as its last TLV of the kind says. */
  lemma MessageTellsField(sha: Steering.Sha256, list: seq<JoinerInstance>, mem: Octets, length: nat, r: RelayState,
                          fails: nat -> bool, vs: seq<View>, kind: Field, l: nat)
    requires Relayed(mem, 0, length, fails, 0) == Some(vs) && LastField(vs, l, kind)
    ensures FieldOf(Received(sha, list, mem, length, r, fails), kind) == FieldIn(mem, vs[l])
  {
    RelayedGoesOn(mem, 0, length, fails, 0, vs);
    forall k | 0 <= k < l
      ensures !Stops(vs[k], fails(k))
    {
      assert !Stops(vs[k], fails(0 + k));
    }
    FieldTaken(sha, list, mem, vs, r, fails, 0, kind, l);
  }

  // All turns.

  /** A relay message whose last TLV of this kind holds this value. */
  ghost predicate Tells(x: Input, kind: Field, field: Octets) {
    && x.RelayIn?
    && var vs := Relayed(x.payload, 0, x.length, x.fails, 0);
       vs.Some? && exists l: nat :: LastField(vs.value, l, kind) && field == FieldIn(x.payload, vs.value[l])
  }

  lemma {:induction false} LastFieldOf(vs: seq<View>, kind: Field, n: nat) returns (l: nat)
    requires n <= |vs| && NoField(vs, n, kind) && !NoField(vs, 0, kind)
    ensures LastField(vs, l, kind)
    decreases n
  {
    if vs[n - 1].kind == kind {
      l := n - 1;
    } else {
      l := LastFieldOf(vs, kind, n - 1);
    }
  }

  /** A field after a turn, by the message that it brings. */
  ghost predicate FieldMoves(x: Input, kind: Field, before: Octets, after: Octets) {
    && (forall field | Tells(x, kind, field) :: after == field)
    && ((forall field :: !Tells(x, kind, field)) ==> after == before)
  }

  lemma ToldField(sha: Steering.Sha256, v: seq<JoinerInstance>, w: Traffic, c: Core, x: Input, kind: Field,
                  field: Octets)
    requires Tells(x, kind, field)
    ensures FieldOf(AfterInput(sha, v, w, c, x).relay, kind) == field
  {
    var vs := Relayed(x.payload, 0, x.length, x.fails, 0).value;
    var l: nat :| LastField(vs, l, kind) && field == FieldIn(x.payload, vs[l]);
    MessageTellsField(sha, v, x.payload, x.length, w.relay, x.fails, vs, kind, l);
  }

  /** A message that holds such a TLV tells the field. */
  lemma FieldFound(x: Input, kind: Field, vs: seq<View>) returns (field: Octets)
    requires x.RelayIn? && Relayed(x.payload, 0, x.length, x.fails, 0) == Some(vs) && !NoField(vs, 0, kind)
    ensures Tells(x, kind, field)
  {
    var l := LastFieldOf(vs, kind, |vs|);
    field := FieldIn(x.payload, vs[l]);
  }

  lemma InputMoves(sha: Steering.Sha256, v: seq<JoinerInstance>, w: Traffic, c: Core, x: Input, kind: Field)
    ensures FieldMoves(x, kind, FieldOf(w.relay, kind), FieldOf(AfterInput(sha, v, w, c, x).relay, kind))
  {
    if x.RelayIn? && Relayed(x.payload, 0, x.length, x.fails, 0).Some? {
      var vs := Relayed(x.payload, 0, x.length, x.fails, 0).value;
      if NoField(vs, 0, kind) {
        FieldKept(sha, v, x.payload, vs, w.relay, x.fails, 0, kind);
      } else {
        var field := FieldFound(x, kind, vs);
      }
    }
    forall field | Tells(x, kind, field)
      ensures FieldOf(AfterInput(sha, v, w, c, x).relay, kind) == field
    {
      ToldField(sha, v, w, c, x, kind, field);
    }
  }

  /** Nothing else in a turn changes a field. */
  lemma RestKeepsField(sha: Steering.Sha256, s: ListState, c: Core, j: JoinerState, w: Traffic, t: Turn, kind: Field)
    ensures FieldOf(CompletedTraffic(sha, s, c, j, w, t).relay, kind)
         == FieldOf(AfterInput(sha, s.vector, w, c, t.input).relay, kind)
  {
    TurnRelays(sha, s, c, j, w, t);
  }

  lemma FieldOn(sha: Steering.Sha256, first: Core, p: Pub, j: JoinerState, w: Traffic, ts: seq<Turn>, n: nat,
                kind: Field)
    requires n < |ts|
    ensures FieldMoves(ts[n].input, kind, FieldOf(TrafficAfter(sha, first, p, j, w, ts[..n]).relay, kind),
                       FieldOf(TrafficAfter(sha, first, p, j, w, ts[..n + 1]).relay, kind))
  {
    var (s, c, v) := (Rounds(sha, p, OpsOf(ts[..n])).list, RunLoop(first, Passes(ts[..n])),
                      TrafficAfter(sha, first, p, j, w, ts[..n]));
    TrafficOn(sha, ts, n, first, p, j, w);
    RestKeepsField(sha, s, c, Processed(AfterTurns(sha, p, j, ts[..n]), ts[n]), v, ts[n], kind);
    InputMoves(sha, s.vector, v, c, ts[n].input, kind);
  }

  /** Over any turns done, port, identifier and locator are each what the last relay message with such a TLV told. */
  lemma {:induction false} FieldToldLast(sha: Steering.Sha256, first: Core, p: Pub, j: JoinerState, w: Traffic,
                                         ts: seq<Turn>, m: nat, kind: Field, field: Octets, n: nat)
    requires m < n <= |ts| && Tells(ts[m].input, kind, field)
    requires forall k, f | m < k < n :: !Tells(ts[k].input, kind, f)
    ensures FieldOf(TrafficAfter(sha, first, p, j, w, ts[..n]).relay, kind) == field
    decreases n
  {
    FieldOn(sha, first, p, j, w, ts, n - 1, kind);
    if m < n - 1 {
      FieldToldLast(sha, first, p, j, w, ts, m, kind, field, n - 1);
    }
  }
}
