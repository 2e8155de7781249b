/** The joiner list: a JSON array, a vector of decoded entries and a cached steering filter. */
module Joiners {
  import opened Bytes
  import opened Steering
  import Hex

  const EUI64_LEN := 8

  /** One JSON object of the array: its "psk" and "eui64" strings. */
  datatype Record = Record(psk: string, eui64: string)

  /** A slot of the JSON array, with the reference count of the object it refers to. An object without references is
      freed and reads as whatever is there. */
  datatype Slot = Slot(record: Record, references: nat)

  datatype JoinerInstance = JoinerInstance(psk: string, eui64Ascii: string, eui64Bin: Octets)

  /** One element of a parsed request; a key may be missing. */
  datatype Element = Element(psk: Option<string>, eui64: Option<string>)

  /** What the JSON parser makes of a request body. */
  datatype Parsed = Malformed | Single(element: Element) | Many(elements: seq<Element>)

  datatype StatusCode = SuccessOk | ClientError | ClientErrorNotFound

  datatype ListState = ListState(jsonArray: seq<Slot>, vector: seq<JoinerInstance>, filter: set<nat>, updated: bool)

  /** The 8-byte field of a fresh entry after decoding the text into it. */
  function EuiBytes(text: string): (r: Octets)
    ensures |r| == EUI64_LEN
  {
    if (|text| + 1) / 2 > EUI64_LEN then Zeros(EUI64_LEN)
    else Hex.Written(text) + Zeros(EUI64_LEN - |Hex.Written(text)|)
  }

  lemma DecodedIs(text: string, after: Octets)
    requires (|text| + 1) / 2 <= EUI64_LEN && Hex.Decoded(text, Zeros(EUI64_LEN), after)
    ensures after == EuiBytes(text)
  {
  }

  function Instance(r: Record): JoinerInstance {
    JoinerInstance(r.psk, r.eui64, EuiBytes(r.eui64))
  }

  function Instances(rs: seq<Record>): (r: seq<JoinerInstance>)
    ensures |r| == |rs| && forall i | 0 <= i < |rs| :: r[i] == Instance(rs[i])
  {
    seq(|rs|, i requires 0 <= i < |rs| => Instance(rs[i]))
  }

  /** Objects with one reference each: a new one, or one that the parser's array holds and this array takes over
      without a reference of its own. */
  function TakenSlots(rs: seq<Record>): (r: seq<Slot>)
    ensures |r| == |rs| && forall i | 0 <= i < |rs| :: r[i] == Slot(rs[i], 1)
  {
    seq(|rs|, i requires 0 <= i < |rs| => Slot(rs[i], 1))
  }

  /** One reference is given up; the last one frees the object. */
  function Release(s: Slot, residue: Record): Slot {
    if s.references <= 1 then Slot(residue, 0) else s.(references := s.references - 1)
  }

  /** What clearing the parser's array does to the objects taken over from it. */
  function Released(a: seq<Slot>, residue: nat -> Record): (r: seq<Slot>)
    ensures |r| == |a| && forall i | 0 <= i < |a| :: r[i] == Release(a[i], residue(i))
  {
    seq(|a|, i requires 0 <= i < |a| => Release(a[i], residue(i)))
  }

  /** The two filter bits of an entry. */
  function EntryBits(sha: Sha256, x: JoinerInstance): set<nat> {
    IdBits(HashMac(sha, x.eui64Bin), DEFAULT_LENGTH)
  }

  /** The filter computed from scratch. */
  function FullFilter(sha: Sha256, v: seq<JoinerInstance>): set<nat> {
    if v == [] then {} else FullFilter(sha, v[..|v| - 1]) + EntryBits(sha, v[|v| - 1])
  }

  function Elements(p: Parsed): seq<Element> {
    match p
    case Malformed => []
    case Single(e) => [e]
    case Many(es) => es
  }

  predicate Complete(e: Element) {
    e.psk.Some? && e.eui64.Some?
  }

  /** Index of the first element with a missing key, or the number of elements. */
  function FirstBad(es: seq<Element>): (n: nat)
    ensures n <= |es| && (forall i | 0 <= i < n :: Complete(es[i])) && (n < |es| ==> !Complete(es[n]))
  {
    if es == [] || !Complete(es[0]) then 0 else 1 + FirstBad(es[1..])
  }

  function RecordOf(e: Element): Record
    requires Complete(e)
  {
    Record(e.psk.value, e.eui64.value)
  }

  function Records(es: seq<Element>, n: nat): (r: seq<Record>)
    requires n <= |es| && forall i | 0 <= i < n :: Complete(es[i])
    ensures |r| == n && forall i | 0 <= i < n :: r[i] == RecordOf(es[i])
  {
    seq(n, i requires 0 <= i < n => RecordOf(es[i]))
  }

  function Accepted(p: Parsed): (r: seq<Record>) {
    Records(Elements(p), FirstBad(Elements(p)))
  }

  predicate Rejected(p: Parsed) {
    p.Malformed? || FirstBad(Elements(p)) < |Elements(p)|
  }

  /** Rejected after at least one element went into the array. */
  predicate RejectedPartWay(p: Parsed) {
    Rejected(p) && Accepted(p) != []
  }

  function AfterWrite(sha: Sha256, s: ListState, p: Parsed, residue: nat -> Record): ListState {
    var rs := Accepted(p);
    ListState(
      if Rejected(p) then Released(TakenSlots(rs), residue) else TakenSlots(rs),
      Instances(rs),
      FullFilter(sha, Instances(rs)),
      s.updated || !Rejected(p))
  }

  /** Index of the first slot that reads as eui, or the number of slots. */
  function Find(a: seq<Slot>, eui: string): (n: nat)
    ensures n <= |a| && (forall i | 0 <= i < n :: a[i].record.eui64 != eui)
    ensures n < |a| ==> a[n].record.eui64 == eui
  {
    if a == [] || a[0].record.eui64 == eui then 0 else 1 + Find(a[1..], eui)
  }

  function Drop<T>(s: seq<T>, i: nat): seq<T> {
    if i < |s| then s[..i] + s[i + 1..] else s
  }

  function AfterEdit(sha: Sha256, s: ListState, body: string, eui: string): ListState {
    if |eui| != 2 * EUI64_LEN then s
    else
      var i, r := Find(s.jsonArray, eui), Record(body, eui);
      var v := Drop(s.vector, i) + [Instance(r)];
      ListState(
        Drop(s.jsonArray, i) + [Slot(r, 1)],
        v,
        if i < |s.jsonArray| then FullFilter(sha, v)
        else s.filter + EntryBits(sha, Instance(r)),
        true)
  }

  function AfterRemove(sha: Sha256, s: ListState, eui: string): ListState {
    var i := Find(s.jsonArray, eui);
    if i == |s.jsonArray| then s
    else ListState(Drop(s.jsonArray, i), Drop(s.vector, i), FullFilter(sha, Drop(s.vector, i)), true)
  }

  function AfterClear(): ListState {
    ListState([], [], {}, true)
  }

  lemma FullFilterAppend(sha: Sha256, v: seq<JoinerInstance>, x: JoinerInstance)
    ensures FullFilter(sha, v + [x]) == FullFilter(sha, v) + EntryBits(sha, x)
  {
    assert (v + [x])[..|v|] == v;
  }

  lemma InstancesAppend(rs: seq<Record>, r: Record)
    ensures Instances(rs + [r]) == Instances(rs) + [Instance(r)]
    ensures TakenSlots(rs + [r]) == TakenSlots(rs) + [Slot(r, 1)]
  {
  }

  lemma RecordsStep(es: seq<Element>, n: nat)
    requires n < |es| && forall i | 0 <= i <= n :: Complete(es[i])
    ensures Records(es, n + 1) == Records(es, n) + [RecordOf(es[n])]
  {
  }

  lemma FindUnique(a: seq<Slot>, eui: string, n: nat)
    requires n <= |a| && (forall i | 0 <= i < n :: a[i].record.eui64 != eui)
    requires n < |a| ==> a[n].record.eui64 == eui
    ensures Find(a, eui) == n
  {
  }

  lemma FirstBadUnique(es: seq<Element>, n: nat)
    requires n <= |es| && (forall i | 0 <= i < n :: Complete(es[i])) && (n < |es| ==> !Complete(es[n]))
    ensures FirstBad(es) == n
  {
  }

  lemma FirstBadPasses(es: seq<Element>, i: nat)
    requires i <= FirstBad(es) && i < |es| && Complete(es[i])
    ensures i < FirstBad(es)
  {
  }

  const U64 := 0x1_0000_0000_0000_0000

  function EntryAt(size: nat, num: nat): Option<nat>
    requires size < U64
  {
    if num > (size - 1) % U64 then None else Some(num)
  }

  lemma FullFilterStep(sha: Sha256, v: seq<JoinerInstance>, i: nat)
    requires i < |v|
    ensures FullFilter(sha, v[..i + 1]) == FullFilter(sha, v[..i]) + EntryBits(sha, v[i])
  {
    FullFilterAppend(sha, v[..i], v[i]);
    assert v[..i + 1] == v[..i] + [v[i]];
  }

  lemma FullFilterEnds(sha: Sha256, v: seq<JoinerInstance>)
    ensures FullFilter(sha, v[..0]) == {} && FullFilter(sha, v[..|v|]) == FullFilter(sha, v)
  {
    assert v[..|v|] == v;
  }

  /** The cached filter is the one computed from scratch. */
  ghost predicate Coherent(sha: Sha256, s: ListState) {
    s.filter == FullFilter(sha, s.vector)
  }

  class JoinerList {
    const sha: Sha256
    var jsonArray: seq<Slot>
    var vector: seq<JoinerInstance>
    const steering: SteeringData
    var updated: bool

    ghost predicate Valid()
      reads this, steering, steering.mBloomFilter
    {
      steering.Valid() && steering.mLength == DEFAULT_LENGTH && steering.TailClear() && |jsonArray| == |vector|
    }

    ghost function State(): ListState
      requires Valid()
      reads this, steering, steering.mBloomFilter
    {
      ListState(jsonArray, vector, steering.Bits(), updated)
    }

    constructor (sha: Sha256)
      ensures Valid() && fresh(steering) && fresh(steering.mBloomFilter)
      ensures this.sha == sha && State() == ListState([], [], {}, false)
    {
      this.sha := sha;
      steering := new SteeringData(DEFAULT_LENGTH);
      jsonArray := [];
      vector := [];
      updated := false;
    }


    /** A vector entry filled from its two texts. */
    method Fill(psk: string, eui: string) returns (inst: JoinerInstance)
      ensures inst == Instance(Record(psk, eui))
    {
      var bin := new Byte[EUI64_LEN](_ => 0);
      assert bin[..] == Zeros(EUI64_LEN);
      var ret := Hex.Hex2Bytes(eui, bin, EUI64_LEN);
      if (|eui| + 1) / 2 <= EUI64_LEN {
        DecodedIs(eui, bin[..]);
      }
      inst := JoinerInstance(psk, eui, bin[..]);
    }

    /** The bits of one more entry. */
    method AddSteering(x: JoinerInstance)
      requires Valid()
      modifies steering.mBloomFilter
      ensures Valid() && steering.Bits() == old(steering.Bits()) + EntryBits(sha, x)
    {
      ComputeSteeringData(sha, steering, false, x.eui64Bin);
    }

    /** The loop of ComputeSteering. */
    method Recalculate()
      requires Valid()
      modifies steering.mBloomFilter
      ensures Valid() && steering.Bits() == FullFilter(sha, vector)
    {
      steering.Clear();
      FullFilterEnds(sha, vector);
      for i := 0 to |vector|
        invariant Valid() && steering.Bits() == FullFilter(sha, vector[..i])
      {
        FullFilterStep(sha, vector, i);
        AddSteering(vector[i]);
      }
    }

    /** The other branch of ComputeSteering. */
    method AddLast()
      requires Valid() && vector != []
      modifies steering.mBloomFilter
      ensures Valid() && steering.Bits() == old(steering.Bits()) + EntryBits(sha, vector[|vector| - 1])
    {
      var last := vector[|vector| - 1];
      AddSteering(last);
      assert vector[|vector| - 1] == last;
    }

    method ComputeSteering(recalcAll: bool)
      requires Valid() && (!recalcAll ==> vector != [])
      modifies this`updated, steering.mBloomFilter
      ensures Valid() && updated
      ensures steering.Bits() == if recalcAll then FullFilter(sha, vector)
                                 else old(steering.Bits()) + EntryBits(sha, vector[|vector| - 1])
    {
      updated := true;
      if recalcAll {
        Recalculate();
      } else {
        AddLast();
      }
    }

    /** The list holds these records and nothing else. */
    ghost predicate Holds(rs: seq<Record>)
      reads this, steering, steering.mBloomFilter
    {
      && Valid()
      && vector == Instances(rs)
      && jsonArray == TakenSlots(rs)
      && steering.Bits() == FullFilter(sha, vector)
    }

    method Empty()
      requires Valid()
      modifies this`vector, this`jsonArray, steering.mBloomFilter
      ensures Holds([])
    {
      steering.Clear();
      vector := [];
      jsonArray := [];
    }

    /** One more element of a request. */
    method Take(psk: string, eui: string, ghost rs: seq<Record>)
      requires Holds(rs)
      modifies this`vector, this`jsonArray, steering.mBloomFilter
      ensures Holds(rs + [Record(psk, eui)])
    {
      var inst := Fill(psk, eui);
      FullFilterAppend(sha, vector, inst);
      InstancesAppend(rs, Record(psk, eui));
      AddSteering(inst);
      vector := vector + [inst];
      jsonArray := jsonArray + [Slot(Record(psk, eui), 1)];
    }

    /** The loop of Write: stops at an element with a missing key. */
    method TakeAll(elements: seq<Element>) returns (index: nat)
      requires Holds([])
      modifies this`vector, this`jsonArray, steering.mBloomFilter
      ensures index == FirstBad(elements) && Holds(Records(elements, index))
    {
      index := 0;
      assert Records(elements, 0) == [];
      while index < |elements|
        invariant index <= FirstBad(elements) && Holds(Records(elements, index))
      {
        var current := elements[index];
        if current.psk.None? || current.eui64.None? {
          FirstBadUnique(elements, index);
          return;
        }
        FirstBadPasses(elements, index);
        RecordsStep(elements, index);
        Take(current.psk.value, current.eui64.value, Records(elements, index));
        index := index + 1;
      }
    }

    method Write(parsed: Parsed, residue: nat -> Record) returns (code: StatusCode)
      requires Valid()
      modifies this, steering.mBloomFilter
      ensures Valid() && State() == AfterWrite(sha, old(State()), parsed, residue)
      ensures code == if Rejected(parsed) then ClientError else SuccessOk
    {
      Empty();
      if parsed.Malformed? {
        return ClientError;
      }
      var elements := Elements(parsed);
      var index := TakeAll(elements);
      if index < |elements| {
        jsonArray := Released(jsonArray, residue);
        return ClientError;
      }
      updated := true;
      return SuccessOk;
    }

    /** The search that Edit and Remove share: the first slot that reads as eui, or the end. */
    method Locate(eui: string) returns (index: nat)
      ensures index == Find(jsonArray, eui)
    {
      index := 0;
      while index < |jsonArray|
        invariant index <= |jsonArray|
        invariant forall i | 0 <= i < index :: jsonArray[i].record.eui64 != eui
      {
        if jsonArray[index].record.eui64 == eui {
          break;
        }
        index := index + 1;
      }
      FindUnique(jsonArray, eui, index);
    }

    method TakeOut(index: nat)
      requires Valid() && index < |jsonArray|
      modifies this`jsonArray, this`vector
      ensures Valid() && jsonArray == Drop(old(jsonArray), index) && vector == Drop(old(vector), index)
    {
      jsonArray := jsonArray[..index] + jsonArray[index + 1..];
      vector := vector[..index] + vector[index + 1..];
    }

    method Put(body: string, eui: string)
      requires Valid()
      modifies this`jsonArray, this`vector
      ensures Valid() && jsonArray == old(jsonArray) + [Slot(Record(body, eui), 1)]
      ensures vector == old(vector) + [Instance(Record(body, eui))]
    {
      var current := Fill(body, eui);
      jsonArray := jsonArray + [Slot(Record(body, eui), 1)];
      vector := vector + [current];
    }

    method Edit(body: string, eui: string) returns (code: StatusCode)
      requires Valid()
      modifies this, steering.mBloomFilter
      ensures Valid() && State() == AfterEdit(sha, old(State()), body, eui)
      ensures code == if |eui| != 2 * EUI64_LEN then ClientError else SuccessOk
    {
      if |eui| != 2 * EUI64_LEN {
        return ClientError;
      }
      var index := Locate(eui);
      var recalcAll := index < |jsonArray|;
      if recalcAll {
        TakeOut(index);
      }
      Put(body, eui);
      ComputeSteering(recalcAll);
      return SuccessOk;
    }

    method Remove(eui: string) returns (code: StatusCode)
      requires Valid()
      modifies this, steering.mBloomFilter
      ensures Valid() && State() == AfterRemove(sha, old(State()), eui)
      ensures code == if Find(old(jsonArray), eui) < |old(jsonArray)| then SuccessOk else ClientErrorNotFound
    {
      var index := Locate(eui);
      if index < |jsonArray| {
        TakeOut(index);
        ComputeSteering(true);
        return SuccessOk;
      }
      return ClientErrorNotFound;
    }

    method Clear()
      requires Valid()
      modifies this, steering.mBloomFilter
      ensures Valid() && State() == AfterClear()
    {
      steering.Clear();
      vector := [];
      jsonArray := [];
      updated := true;
    }

    method ListUpdateFinished()
      requires Valid()
      modifies this`updated
      ensures Valid() && State() == old(State()).(updated := false)
    {
      updated := false;
    }

    /** Place of the entry pointed to, or nothing for a null pointer. The last index is a 64-bit unsigned number. */
    function GetJoinerInstance(num: nat): Option<nat>
      requires |vector| < U64
      reads this
    {
      EntryAt(|vector|, num)
    }
  }

  // Whole runs.

  datatype Op =
    | Write(parsed: Parsed, residue: nat -> Record)
    | Edit(body: string, eui: string)
    | Remove(eui: string)
    | Clear
    | UpdateFinished

  function Apply(sha: Sha256, s: ListState, op: Op): ListState {
    match op
    case Write(p, residue) => AfterWrite(sha, s, p, residue)
    case Edit(body, eui) => AfterEdit(sha, s, body, eui)
    case Remove(eui) => AfterRemove(sha, s, eui)
    case Clear => AfterClear()
    case UpdateFinished => s.(updated := false)
  }

  const EMPTY := ListState([], [], {}, false)

  function Run(sha: Sha256, ops: seq<Op>): ListState {
    if ops == [] then EMPTY else Apply(sha, Run(sha, ops[..|ops| - 1]), ops[|ops| - 1])
  }

  lemma EditCoherent(sha: Sha256, s: ListState, body: string, eui: string)
    requires Coherent(sha, s) && |s.jsonArray| == |s.vector|
    ensures var s' := AfterEdit(sha, s, body, eui); Coherent(sha, s') && |s'.jsonArray| == |s'.vector|
  {
    FullFilterAppend(sha, s.vector, Instance(Record(body, eui)));
  }

  lemma WriteCoherent(sha: Sha256, s: ListState, p: Parsed, residue: nat -> Record)
    ensures var s' := AfterWrite(sha, s, p, residue); Coherent(sha, s') && |s'.jsonArray| == |s'.vector|
  {
  }

  lemma RemoveCoherent(sha: Sha256, s: ListState, eui: string)
    requires Coherent(sha, s) && |s.jsonArray| == |s.vector|
    ensures var s' := AfterRemove(sha, s, eui); Coherent(sha, s') && |s'.jsonArray| == |s'.vector|
  {
  }

  lemma StepCoherent(sha: Sha256, s: ListState, op: Op)
    requires Coherent(sha, s) && |s.jsonArray| == |s.vector|
    ensures var s' := Apply(sha, s, op); Coherent(sha, s') && |s'.jsonArray| == |s'.vector|
  {
    match op
    case Write(p, residue) => WriteCoherent(sha, s, p, residue);
    case Edit(body, eui) => EditCoherent(sha, s, body, eui);
    case Remove(eui) => RemoveCoherent(sha, s, eui);
    case Clear => assert FullFilter(sha, []) == {};
    case UpdateFinished =>
  }

  /** After every run, rejected writes included, the cached filter is the one computed from scratch. */
  lemma {:induction false} RunCoherent(sha: Sha256, ops: seq<Op>)
    ensures var s := Run(sha, ops); Coherent(sha, s) && |s.jsonArray| == |s.vector|
  {
    if ops == [] {
      assert FullFilter(sha, []) == {};
    } else {
      RunCoherent(sha, ops[..|ops| - 1]);
      StepCoherent(sha, Run(sha, ops[..|ops| - 1]), ops[|ops| - 1]);
    }
  }

  /** The joiner IDs in the list. */
  function JoinerIds(sha: Sha256, v: seq<JoinerInstance>): seq<Octets> {
    if v == [] then [] else JoinerIds(sha, v[..|v| - 1]) + [HashMac(sha, v[|v| - 1].eui64Bin)]
  }

  lemma {:induction false} FilterIsUnion(sha: Sha256, v: seq<JoinerInstance>)
    ensures FullFilter(sha, v) == Union(JoinerIds(sha, v), DEFAULT_LENGTH)
    decreases |v|
  {
    if v != [] {
      var front, id := v[..|v| - 1], HashMac(sha, v[|v| - 1].eui64Bin);
      FilterIsUnion(sha, front);
      UnionAppend(JoinerIds(sha, front), id, DEFAULT_LENGTH);
    }
  }

  /** No false negatives: the bits of every entry are in the filter. */
  lemma {:induction false} EntryInFilter(sha: Sha256, v: seq<JoinerInstance>, i: nat)
    requires i < |v|
    ensures EntryBits(sha, v[i]) <= FullFilter(sha, v)
    decreases |v|
  {
    if i < |v| - 1 {
      EntryInFilter(sha, v[..|v| - 1], i);
    }
  }

  /** The JSON array holds objects that are not freed, with the same texts as the vector, place by place. */
  ghost predicate Agree(s: ListState) {
    && |s.jsonArray| == |s.vector|
    && forall i | 0 <= i < |s.vector| ::
         s.jsonArray[i].references > 0 && s.vector[i] == Instance(s.jsonArray[i].record)
  }

  /** A write leaves array and vector in agreement exactly when it is not rejected part-way. */
  lemma WriteAgreesIff(sha: Sha256, s: ListState, p: Parsed, residue: nat -> Record)
    ensures Agree(AfterWrite(sha, s, p, residue)) <==> !RejectedPartWay(p)
  {
    var s' := AfterWrite(sha, s, p, residue);
    if RejectedPartWay(p) {
      assert s'.jsonArray[0].references == 0;
    }
  }

  lemma DropAgrees(s: ListState, i: nat, filter: set<nat>)
    requires Agree(s)
    ensures Agree(ListState(Drop(s.jsonArray, i), Drop(s.vector, i), filter, true))
  {
  }

  lemma EditAgrees(sha: Sha256, s: ListState, body: string, eui: string)
    requires Agree(s)
    ensures Agree(AfterEdit(sha, s, body, eui))
  {
    if |eui| == 2 * EUI64_LEN {
      DropAgrees(s, Find(s.jsonArray, eui), {});
    }
  }

  lemma StepAgrees(sha: Sha256, s: ListState, op: Op)
    requires Agree(s) && !(op.Write? && RejectedPartWay(op.parsed))
    ensures Agree(Apply(sha, s, op))
  {
    match op
    case Write(p, residue) => WriteAgreesIff(sha, s, p, residue);
    case Edit(body, eui) => EditAgrees(sha, s, body, eui);
    case Remove(eui) => DropAgrees(s, Find(s.jsonArray, eui), AfterRemove(sha, s, eui).filter);
    case Clear =>
    case UpdateFinished =>
  }

  ghost predicate NoPartWay(ops: seq<Op>) {
    forall i | 0 <= i < |ops| :: ops[i].Write? ==> !RejectedPartWay(ops[i].parsed)
  }

  lemma {:induction false} RunAgrees(sha: Sha256, ops: seq<Op>)
    requires NoPartWay(ops)
    ensures Agree(Run(sha, ops))
  {
    if ops != [] {
      RunAgrees(sha, ops[..|ops| - 1]);
      StepAgrees(sha, Run(sha, ops[..|ops| - 1]), ops[|ops| - 1]);
    }
  }

  // The list as a map from EUI-64 text to PSK text.

  function MapOf(v: seq<JoinerInstance>): map<string, string> {
    if v == [] then map[] else MapOf(v[1..])[v[0].eui64Ascii := v[0].psk]
  }

  ghost predicate Distinct(v: seq<JoinerInstance>) {
    forall i, j | 0 <= i < j < |v| :: v[i].eui64Ascii != v[j].eui64Ascii
  }

  /** The entries for other joiners, in order. */
  function Others(v: seq<JoinerInstance>, eui: string): seq<JoinerInstance> {
    if v == [] then []
    else if v[0].eui64Ascii == eui then Others(v[1..], eui)
    else [v[0]] + Others(v[1..], eui)
  }

  lemma {:induction false} MapKeys(v: seq<JoinerInstance>, k: string)
    ensures k in MapOf(v) <==> exists i :: 0 <= i < |v| && v[i].eui64Ascii == k
  {
    if v != [] {
      MapKeys(v[1..], k);
      if i :| 0 <= i < |v[1..]| && v[1..][i].eui64Ascii == k {
        assert v[i + 1].eui64Ascii == k;
      }
      if i :| 0 <= i < |v| && v[i].eui64Ascii == k && k != v[0].eui64Ascii {
        assert v[1..][i - 1].eui64Ascii == k;
      }
    }
  }

  /** Appending only matters for a key not there yet: the first entry for a key wins. */
  lemma {:induction false} MapAppend(v: seq<JoinerInstance>, x: JoinerInstance)
    ensures MapOf(v + [x]) == if x.eui64Ascii in MapOf(v) then MapOf(v) else MapOf(v)[x.eui64Ascii := x.psk]
  {
    if v == [] {
      assert (v + [x])[1..] == [];
      assert MapOf(v + [x]) == map[][x.eui64Ascii := x.psk];
    } else {
      assert (v + [x])[1..] == v[1..] + [x];
      MapAppend(v[1..], x);
    }
  }

  lemma DropTail<T>(v: seq<T>, i: nat)
    requires 0 < i < |v|
    ensures Drop(v, i) == [v[0]] + Drop(v[1..], i - 1)
  {
  }

  lemma MapCons(x: JoinerInstance, rest: seq<JoinerInstance>)
    ensures MapOf([x] + rest) == MapOf(rest)[x.eui64Ascii := x.psk]
  {
    assert ([x] + rest)[1..] == rest;
  }

  lemma OthersCons(x: JoinerInstance, rest: seq<JoinerInstance>, eui: string)
    ensures Others([x] + rest, eui)
         == if x.eui64Ascii == eui then Others(rest, eui) else [x] + Others(rest, eui)
  {
    assert ([x] + rest)[1..] == rest;
  }

  lemma DistinctDrop(v: seq<JoinerInstance>, i: nat)
    requires i < |v| && Distinct(v)
    ensures Distinct(Drop(v, i))
  {
  }

  lemma FirstKeyAlone(v: seq<JoinerInstance>)
    requires v != [] && Distinct(v)
    ensures v[0].eui64Ascii !in MapOf(v[1..])
  {
    MapKeys(v[1..], v[0].eui64Ascii);
  }

  lemma PutAndTakeOut(m: map<string, string>, k: string, x: string, other: string)
    ensures k !in m ==> m[k := x] - {k} == m
    ensures k != other ==> m[k := x] - {other} == (m - {other})[k := x]
  {
  }

  lemma {:induction false} MapDrop(v: seq<JoinerInstance>, i: nat)
    requires i < |v| && Distinct(v)
    ensures MapOf(Drop(v, i)) == MapOf(v) - {v[i].eui64Ascii}
    decreases |v|
  {
    var m, key := MapOf(v[1..]), v[i].eui64Ascii;
    PutAndTakeOut(m, v[0].eui64Ascii, v[0].psk, key);
    if i == 0 {
      FirstKeyAlone(v);
      assert Drop(v, 0) == v[1..];
    } else {
      DropTail(v, i);
      MapCons(v[0], Drop(v[1..], i - 1));
      MapDrop(v[1..], i - 1);
    }
  }

  lemma {:induction false} OthersDrop(v: seq<JoinerInstance>, i: nat, eui: string)
    requires i < |v| && v[i].eui64Ascii == eui
    ensures Others(Drop(v, i), eui) == Others(v, eui)
    decreases |v|
  {
    if i == 0 {
      assert Drop(v, 0) == v[1..];
    } else {
      DropTail(v, i);
      OthersCons(v[0], Drop(v[1..], i - 1), eui);
      OthersDrop(v[1..], i - 1, eui);
    }
  }

  lemma {:induction false} OthersAppend(v: seq<JoinerInstance>, x: JoinerInstance)
    ensures Others(v + [x], x.eui64Ascii) == Others(v, x.eui64Ascii)
  {
    if v == [] {
      assert (v + [x])[1..] == [];
    } else {
      assert (v + [x])[1..] == v[1..] + [x];
      OthersAppend(v[1..], x);
    }
  }

  /** An edit or a removal leaves every other entry as it was, in the same order, duplicates or not. */
  lemma OthersUntouched(sha: Sha256, s: ListState, body: string, eui: string)
    requires Agree(s)
    ensures Others(AfterEdit(sha, s, body, eui).vector, eui) == Others(s.vector, eui)
    ensures Others(AfterRemove(sha, s, eui).vector, eui) == Others(s.vector, eui)
  {
    var i := Find(s.jsonArray, eui);
    if i < |s.vector| {
      OthersDrop(s.vector, i, eui);
    }
    OthersAppend(Drop(s.vector, i), Instance(Record(body, eui)));
  }

  lemma FindInMap(s: ListState, eui: string)
    requires Agree(s)
    ensures Find(s.jsonArray, eui) < |s.jsonArray| <==> eui in MapOf(s.vector)
  {
    MapKeys(s.vector, eui);
    var i := Find(s.jsonArray, eui);
    if i < |s.vector| {
      assert s.vector[i].eui64Ascii == eui;
    }
    if j :| 0 <= j < |s.vector| && s.vector[j].eui64Ascii == eui {
      assert s.jsonArray[j].record.eui64 == eui;
    }
  }

  lemma DropFound(s: ListState, eui: string)
    requires Agree(s) && Distinct(s.vector)
    ensures var rest := Drop(s.vector, Find(s.jsonArray, eui));
      MapOf(rest) == MapOf(s.vector) - {eui} && Distinct(rest)
  {
    var i := Find(s.jsonArray, eui);
    FindInMap(s, eui);
    if i < |s.vector| {
      MapDrop(s.vector, i);
      DistinctDrop(s.vector, i);
    }
  }

  /** The elements up to the first with a missing key, by their own texts; the first element for a key wins. */
  function TextMap(es: seq<Element>): map<string, string> {
    if es == [] || es[0].psk.None? || es[0].eui64.None? then map[]
    else TextMap(es[1..])[es[0].eui64.value := es[0].psk.value]
  }

  /** No two of these elements have the same EUI text. */
  ghost predicate DistinctTexts(es: seq<Element>) {
    forall i, j | 0 <= i < j < |es| :: es[i].eui64.Some? && es[j].eui64.Some? ==> es[i].eui64 != es[j].eui64
  }

  lemma {:induction false} AcceptedCons(es: seq<Element>)
    requires es != [] && Complete(es[0])
    ensures Instances(Records(es, FirstBad(es)))
         == [Instance(RecordOf(es[0]))] + Instances(Records(es[1..], FirstBad(es[1..])))
  {
  }

  /** The list after a write, as a map, is that of the elements. */
  lemma {:induction false} WrittenMap(es: seq<Element>)
    ensures MapOf(Instances(Records(es, FirstBad(es)))) == TextMap(es)
    decreases |es|
  {
    if es != [] && Complete(es[0]) {
      WrittenMap(es[1..]);
      AcceptedCons(es);
      MapCons(Instance(RecordOf(es[0])), Instances(Records(es[1..], FirstBad(es[1..]))));
    }
  }

  lemma WrittenDistinct(es: seq<Element>)
    requires DistinctTexts(es)
    ensures Distinct(Instances(Records(es, FirstBad(es))))
  {
  }

  /** The decoded bytes of sixteen digits denote the same number as the text. */
  lemma EuiNumber(text: string)
    requires |text| == 2 * EUI64_LEN && Hex.AllHex(text)
    ensures BigEndian(EuiBytes(text)) == Hex.HexNumber(text)
  {
    Hex.GoodPrefixFull(text);
    Hex.DecodeKeepsNumber(text);
    assert EuiBytes(text) == Hex.Written(text);
  }

  /** A write whose first n elements have both keys, and whose next one, if any, has not: the vector has just these n
      entries, in order, each with the PSK and EUI texts of its element and the decoded bytes of that EUI text. */
  lemma WriteTakes(sha: Sha256, s: ListState, parsed: Parsed, residue: nat -> Record, es: seq<Element>, n: nat)
    requires (parsed.Single? && es == [parsed.element]) || (parsed.Many? && es == parsed.elements)
    requires n <= |es| && forall i | 0 <= i < n :: es[i].psk.Some? && es[i].eui64.Some?
    requires n < |es| ==> es[n].psk.None? || es[n].eui64.None?
    ensures var v := AfterWrite(sha, s, parsed, residue).vector;
      && |v| == n
      && forall i | 0 <= i < n ::
           && v[i].psk == es[i].psk.value && v[i].eui64Ascii == es[i].eui64.value
           && v[i].eui64Bin == EuiBytes(es[i].eui64.value)
           && (Hex.AllHex(es[i].eui64.value) && |es[i].eui64.value| == 16 ==>
                 BigEndian(v[i].eui64Bin) == Hex.HexNumber(es[i].eui64.value))
  {
    forall i | 0 <= i < n
      ensures Hex.AllHex(es[i].eui64.value) && |es[i].eui64.value| == 16 ==>
        BigEndian(EuiBytes(es[i].eui64.value)) == Hex.HexNumber(es[i].eui64.value)
    {
      if Hex.AllHex(es[i].eui64.value) && |es[i].eui64.value| == 16 {
        EuiNumber(es[i].eui64.value);
      }
    }
    assert Elements(parsed) == es && FirstBad(es) == n;
  }

  /** The array and the mark after such a write: when every element has both keys, the array holds their objects with
      one reference each, and the list is marked; otherwise the objects taken are freed and read as anything. */
  lemma WriteLeaves(sha: Sha256, s: ListState, parsed: Parsed, residue: nat -> Record, es: seq<Element>, n: nat)
    requires (parsed.Single? && es == [parsed.element]) || (parsed.Many? && es == parsed.elements)
    requires n <= |es| && forall i | 0 <= i < n :: es[i].psk.Some? && es[i].eui64.Some?
    requires n < |es| ==> es[n].psk.None? || es[n].eui64.None?
    ensures var s' := AfterWrite(sha, s, parsed, residue);
      && |s'.jsonArray| == n && (s'.updated <==> s.updated || n == |es|)
      && forall i | 0 <= i < n ::
           s'.jsonArray[i] == if n == |es| then Slot(Record(es[i].psk.value, es[i].eui64.value), 1)
                              else Slot(residue(i), 0)
  {
    assert Elements(parsed) == es && FirstBad(es) == n;
  }

  function MapAfter(m: map<string, string>, op: Op): map<string, string> {
    match op
    case Write(Malformed, _) => map[]
    case Write(Single(e), _) => TextMap([e])
    case Write(Many(es), _) => TextMap(es)
    case Edit(body, eui) => if |eui| == 2 * EUI64_LEN then m[eui := body] else m
    case Remove(eui) => m - {eui}
    case Clear => map[]
    case UpdateFinished => m
  }

  function MapRun(ops: seq<Op>): map<string, string> {
    if ops == [] then map[] else MapAfter(MapRun(ops[..|ops| - 1]), ops[|ops| - 1])
  }

  ghost predicate DistinctWrites(ops: seq<Op>) {
    forall i | 0 <= i < |ops| :: ops[i].Write? && ops[i].parsed.Many? ==> DistinctTexts(ops[i].parsed.elements)
  }

  lemma EditPuts(sha: Sha256, s: ListState, body: string, eui: string)
    requires Agree(s) && Distinct(s.vector) && |eui| == 2 * EUI64_LEN
    ensures var v := AfterEdit(sha, s, body, eui).vector;
      Distinct(v) && MapOf(v) == MapOf(s.vector)[eui := body]
  {
    var rest, x := Drop(s.vector, Find(s.jsonArray, eui)), Instance(Record(body, eui));
    DropFound(s, eui);
    MapAppend(rest, x);
    DistinctAppend(rest, x);
    assert MapOf(s.vector)[eui := body] == (MapOf(s.vector) - {eui})[eui := body];
  }

  lemma DistinctAppend(v: seq<JoinerInstance>, x: JoinerInstance)
    requires Distinct(v) && x.eui64Ascii !in MapOf(v)
    ensures Distinct(v + [x])
  {
    MapKeys(v, x.eui64Ascii);
    assert forall i | 0 <= i < |v| :: v[i].eui64Ascii != x.eui64Ascii;
  }

  lemma RemoveDeletes(sha: Sha256, s: ListState, eui: string)
    requires Agree(s) && Distinct(s.vector)
    ensures var v := AfterRemove(sha, s, eui).vector;
      Distinct(v) && MapOf(v) == MapOf(s.vector) - {eui}
  {
    DropFound(s, eui);
  }

  lemma StepRefinesMap(sha: Sha256, s: ListState, op: Op)
    requires Agree(s) && Distinct(s.vector)
    requires op.Write? && op.parsed.Many? ==> DistinctTexts(op.parsed.elements)
    ensures var v := Apply(sha, s, op).vector; Distinct(v) && MapOf(v) == MapAfter(MapOf(s.vector), op)
  {
    match op
    case Write(parsed, _) =>
      WrittenMap(Elements(parsed));
      WrittenDistinct(Elements(parsed));
    case Edit(body, eui) => if |eui| == 2 * EUI64_LEN { EditPuts(sha, s, body, eui); }
    case Remove(eui) => RemoveDeletes(sha, s, eui);
    case Clear =>
    case UpdateFinished =>
  }

  /** With distinct EUIs in every write, the list is a map: Edit puts, Remove deletes, and keys stay distinct. */
  lemma {:induction false} RunRefinesMap(sha: Sha256, ops: seq<Op>)
    requires NoPartWay(ops) && DistinctWrites(ops)
    ensures var s := Run(sha, ops); Agree(s) && Distinct(s.vector) && MapOf(s.vector) == MapRun(ops)
  {
    RunAgrees(sha, ops);
    if ops != [] {
      var before := ops[..|ops| - 1];
      RunAgrees(sha, before);
      RunRefinesMap(sha, before);
      StepRefinesMap(sha, Run(sha, before), ops[|ops| - 1]);
    }
  }

  /** An edit takes effect exactly when no second entry for the EUI with another PSK shadows it. */
  lemma EditTakesEffectIff(sha: Sha256, s: ListState, body: string, eui: string)
    requires Agree(s) && |eui| == 2 * EUI64_LEN
    ensures var rest := MapOf(Drop(s.vector, Find(s.jsonArray, eui)));
      var m := MapOf(AfterEdit(sha, s, body, eui).vector);
      (eui in m && m[eui] == body) <==> (eui in rest ==> rest[eui] == body)
  {
    MapAppend(Drop(s.vector, Find(s.jsonArray, eui)), Instance(Record(body, eui)));
  }

  /** For every index a null pointer or an entry, exactly when the list is not empty. */
  lemma EntryInRangeIff(size: nat)
    requires size < U64
    ensures (forall num: nat | num < U64 :: EntryAt(size, num).Some? ==> num < size) <==> size > 0
  {
    if size == 0 {
      assert EntryAt(0, 0) == Some(0);
    }
  }
}
