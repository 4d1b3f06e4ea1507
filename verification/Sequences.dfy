/** Test sequences: the ops one holds, and which sequences are well formed. */
module Sequences {
  import opened Instants
  import opened Options

  /** An op type. A file may name one the format does not define. */
  datatype OpType =
    | Create | Update | Delete | Recreate | Settle | Restart | Inject | DeleteManaged
    | UpdateFixture | DeleteFixture | Undefined(name: string)

  /** A name to match, and whether it is a well-formed glob. */
  datatype Glob = Glob(text: string, wellFormed: bool)

  datatype Match = Match(verb: string, resource: string, name: Glob, fraction: Option<real>)

  datatype Action = Action(error: int, delay: Duration, drop: bool)

  /** What ends a fault: an op, a count of requests, or a duration. */
  datatype Trigger = Trigger(op: Option<int>, count: int, lasting: Duration)

  const NO_TRIGGER := Trigger(None, 0, 0)

  datatype Fault = Fault(matching: Match, action: Action, until: Trigger)

  /** A CR to create: its name, and the rest of it. */
  datatype Manifest = Manifest(name: string, rest: string)

  datatype Op = Op(
    index: int, kind: OpType, cr: string, selects: string, nth: Option<int>, name: string,
    obj: Option<Manifest>, patch: Option<string>, fault: Option<Fault>, until: Option<int>, noSettle: bool)
  {
    predicate OnCR() { kind.Create? || kind.Update? || kind.Delete? || kind.Recreate? }

    predicate OnFixture() { kind.UpdateFixture? || kind.DeleteFixture? }

    /** Whether the Runner waits for convergence after the op. */
    predicate Settles() {
      kind.Settle? || (!noSettle && (OnCR() || kind.DeleteManaged? || kind.UpdateFixture?))
    }

    function Fixture(): string { selects + " " + name }

    /** Exactly the fields its type takes. */
    predicate Fields() {
      && obj.Some? == (kind.Create? || kind.Recreate?)
      && patch.Some? == (kind.Update? || kind.UpdateFixture?)
      && fault.Some? == kind.Inject?
      && (selects != "") == (kind.DeleteManaged? || OnFixture())
      && (name != "") == OnFixture()
      && nth.Some? == kind.DeleteManaged?
      && until.Some? == kind.DeleteFixture?
      && (kind.DeleteManaged? ==> nth.value >= 0)
      && (cr != "" ==> kind.Update? || kind.Delete? || kind.Recreate?)
    }

    predicate Valid(position: int) {
      && !kind.Undefined?
      && index == position
      && (noSettle ==> OnCR())
      && Fields()
      && (kind.Inject? ==> ValidFault(fault.value, position))
    }

    /** The CR a CR op acts on. */
    function CRName(sample: string): string
      requires kind.Create? ==> obj.Some?
    {
      if kind.Create? then obj.value.name else if cr == "" then sample else cr
    }
  }

  const VERBS := ["get", "list", "watch", "create", "update", "patch", "delete", "deletecollection"]

  predicate ValidFault(f: Fault, position: int) {
    && (if f.action.error != 0 then 1 else 0) + (if f.action.delay != 0 then 1 else 0) + (if f.action.drop then 1 else 0) == 1
    && (f.matching.verb == "" || f.matching.verb in VERBS)
    && '/' !in f.matching.resource
    && f.matching.name.wellFormed
    && (f.matching.fraction.Some? ==> 0.0 < f.matching.fraction.value <= 1.0)
    && (f.action.error != 0 ==> 400 <= f.action.error <= 599)
    && (f.until.op.Some? ==> f.until.op.value > position)
    && f.action.delay >= 0 && f.until.count >= 0 && f.until.lasting >= 0
  }

  predicate ValidOps(ops: seq<Op>) {
    forall i :: 0 <= i < |ops| ==> ops[i].Valid(i)
  }

  /** A deleted fixture comes back after its delete, by the last op. */
  predicate ComesBack(ops: seq<Op>, i: int)
    requires ValidOps(ops) && 0 <= i < |ops|
  {
    assert ops[i].Valid(i);
    ops[i].kind.DeleteFixture? ==> i < ops[i].until.value < |ops|
  }

  /** Op j acts on the fixture op i deleted only once it is back. */
  predicate KeepsOff(ops: seq<Op>, i: int, j: int)
    requires ValidOps(ops) && 0 <= i < j < |ops|
  {
    assert ops[i].Valid(i);
    ops[i].kind.DeleteFixture? && ops[j].OnFixture() && ops[i].Fixture() == ops[j].Fixture() ==>
      ops[i].until.value <= j
  }

  /** Each deleted fixture comes back by the last op, and no op acts on it while it
      is deleted. */
  ghost predicate FixturesComeBack(ops: seq<Op>)
    requires ValidOps(ops)
  {
    && (forall i :: 0 <= i < |ops| ==> ComesBack(ops, i))
    && (forall i, j :: 0 <= i < j < |ops| ==> KeepsOff(ops, i, j))
  }

  /** A well-formed sequence ends on an op that settles. */
  ghost predicate Valid(ops: seq<Op>) {
    && ValidOps(ops)
    && |ops| > 0 && ops[|ops| - 1].Settles()
    && FixturesComeBack(ops)
  }

  /** Each fixture's last delete among the first n ops. */
  ghost predicate LastDeletes(ops: seq<Op>, n: int, deletedBy: map<string, int>)
    requires 0 <= n <= |ops|
  {
    && (forall f :: f in deletedBy ==>
          0 <= deletedBy[f] < n && ops[deletedBy[f]].kind.DeleteFixture? && ops[deletedBy[f]].Fixture() == f)
    && (forall p :: 0 <= p < n && ops[p].kind.DeleteFixture? ==>
          ops[p].Fixture() in deletedBy && p <= deletedBy[ops[p].Fixture()])
  }

  method ValidateFixtures(ops: seq<Op>) returns (ok: bool)
    requires ValidOps(ops)
    ensures ok == FixturesComeBack(ops)
  {
    var deletedBy: map<string, int> := map[];
    for i := 0 to |ops|
      invariant LastDeletes(ops, i, deletedBy) && FixturesSoFar(ops, i)
    {
      ok := CheckFixture(ops, i, deletedBy);
      if !ok {
        return;
      }
      if ops[i].kind.DeleteFixture? {
        deletedBy := deletedBy[ops[i].Fixture() := i];
      }
    }
    return true;
  }

  /** The loop's body: whether op i is clear of the deletes before it, and brings
      back what it deletes. */
  method CheckFixture(ops: seq<Op>, i: nat, deletedBy: map<string, int>) returns (ok: bool)
    requires ValidOps(ops) && i < |ops| && LastDeletes(ops, i, deletedBy) && FixturesSoFar(ops, i)
    ensures ok ==> FixturesSoFar(ops, i + 1)
    ensures !ok ==> !FixturesComeBack(ops)
  {
    var op := ops[i];
    assert op.Valid(i);
    if op.OnFixture() && op.Fixture() in deletedBy {
      var last := deletedBy[op.Fixture()];
      assert ops[last].Valid(last);
      if i < ops[last].until.value {
        assert !KeepsOff(ops, last, i);
        return false;
      }
    }
    OnlyLastMatters(ops, i, deletedBy);
    if op.kind.DeleteFixture? && (op.until.value <= i || op.until.value >= |ops|) {
      assert !ComesBack(ops, i);
      return false;
    }
    return true;
  }

  ghost predicate FixturesSoFar(ops: seq<Op>, n: int)
    requires ValidOps(ops) && 0 <= n <= |ops|
  {
    && (forall p :: 0 <= p < n ==> ComesBack(ops, p))
    && (forall p, q :: 0 <= p < q < n ==> KeepsOff(ops, p, q))
  }

  /** An op clear of the fixture's last delete is clear of every earlier one, since
      the fixture was back before it was deleted again. */
  lemma OnlyLastMatters(ops: seq<Op>, i: int, deletedBy: map<string, int>)
    requires ValidOps(ops) && 0 <= i < |ops| && LastDeletes(ops, i, deletedBy)
    requires FixturesSoFar(ops, i)
    requires ops[i].OnFixture() && ops[i].Fixture() in deletedBy ==> KeepsOff(ops, deletedBy[ops[i].Fixture()], i)
    ensures forall p :: 0 <= p < i ==> KeepsOff(ops, p, i)
  {
    forall p | 0 <= p < i
      ensures KeepsOff(ops, p, i)
    {
      if ops[p].kind.DeleteFixture? && ops[i].OnFixture() && ops[p].Fixture() == ops[i].Fixture() {
        var last := deletedBy[ops[p].Fixture()];
        if p < last {
          assert KeepsOff(ops, p, last) && KeepsOff(ops, last, i);
          assert ops[last].Valid(last);
        }
      }
    }
  }

  // What a well-formed sequence is, by the fields each type takes.

  function Wanted(kind: OpType): set<string> {
    match kind
    case Create => {"obj"}
    case Recreate => {"obj"}
    case Update => {"patch"}
    case Inject => {"spec"}
    case DeleteManaged => {"kind", "index"}
    case UpdateFixture => {"kind", "name", "patch"}
    case DeleteFixture => {"kind", "name", "until"}
    case _ => {}
  }

  function Carried(op: Op): set<string> {
    (if op.obj.Some? then {"obj"} else {}) + (if op.patch.Some? then {"patch"} else {})
    + (if op.fault.Some? then {"spec"} else {}) + (if op.selects != "" then {"kind"} else {})
    + (if op.name != "" then {"name"} else {}) + (if op.nth.Some? then {"index"} else {})
    + (if op.until.Some? then {"until"} else {})
  }

  /** One action, a matcher that can match and an end after the fault. */
  ghost predicate WellFormedFault(f: Fault, position: int) {
    && (|| (400 <= f.action.error <= 599 && f.action.delay == 0 && !f.action.drop)
        || (f.action.error == 0 && f.action.delay > 0 && !f.action.drop)
        || (f.action.error == 0 && f.action.delay == 0 && f.action.drop))
    && f.matching.verb in {"", "get", "list", "watch", "create", "update", "patch", "delete", "deletecollection"}
    && (forall i :: 0 <= i < |f.matching.resource| ==> f.matching.resource[i] != '/') && f.matching.name.wellFormed
    && (match f.matching.fraction case None => true case Some(share) => 0.0 < share && share <= 1.0)
    && (match f.until.op case None => true case Some(op) => op > position)
    && f.until.count >= 0 && f.until.lasting >= 0
  }

  ghost predicate WellFormedOp(op: Op, position: int) {
    && !op.kind.Undefined? && op.index == position && Carried(op) == Wanted(op.kind)
    && (op.noSettle ==> op.kind in {Create, Update, Delete, Recreate})
    && (op.cr != "" ==> op.kind in {Update, Delete, Recreate})
    && (op.kind == DeleteManaged ==> op.nth.Some? && op.nth.value >= 0)
    && (op.kind == Inject ==> op.fault.Some? && WellFormedFault(op.fault.value, position))
  }

  /** The op is one whose wait for convergence the Runner judges. */
  predicate WaitsAfter(op: Op) {
    op.kind == Settle || (!op.noSettle && op.kind in {Create, Update, Delete, Recreate, DeleteManaged, UpdateFixture})
  }

  /** Every op is well formed, the last is judged, and each deleted fixture comes back
      after its delete, by the last op and before another op acts on it. */
  ghost predicate WellFormed(ops: seq<Op>) {
    && ops != [] && (forall i :: 0 <= i < |ops| ==> WellFormedOp(ops[i], i)) && WaitsAfter(ops[|ops| - 1])
    && (forall i :: 0 <= i < |ops| && ops[i].kind == DeleteFixture ==>
          ops[i].until.Some? && i < ops[i].until.value < |ops|)
    && (forall i, j :: 0 <= i < j < |ops| && ops[i].kind == DeleteFixture && OnSameFixture(ops[i], ops[j]) ==>
          ops[i].until.Some? && ops[i].until.value <= j)
  }

  /** The second op acts on the fixture the first names. */
  predicate OnSameFixture(a: Op, b: Op) {
    b.kind in {UpdateFixture, DeleteFixture} && a.selects + " " + a.name == b.selects + " " + b.name
  }

  lemma FieldsMean(op: Op)
    ensures op.Fields() <==>
            && Carried(op) == Wanted(op.kind) && (op.cr != "" ==> op.kind in {Update, Delete, Recreate})
            && (op.kind == DeleteManaged ==> op.nth.Some? && op.nth.value >= 0)
  {
    var carried, wanted := Carried(op), Wanted(op.kind);
    assert carried == wanted ==>
      && ("obj" in carried <==> "obj" in wanted) && ("patch" in carried <==> "patch" in wanted)
      && ("spec" in carried <==> "spec" in wanted) && ("kind" in carried <==> "kind" in wanted)
      && ("name" in carried <==> "name" in wanted) && ("index" in carried <==> "index" in wanted)
      && ("until" in carried <==> "until" in wanted);
  }

  lemma FaultMeans(f: Fault, position: int)
    ensures ValidFault(f, position) <==> WellFormedFault(f, position)
  {
    assert '/' !in f.matching.resource <==> forall i :: 0 <= i < |f.matching.resource| ==> f.matching.resource[i] != '/';
  }

  lemma OpMeans(op: Op, position: int)
    ensures op.Valid(position) <==> WellFormedOp(op, position)
    ensures op.Settles() == WaitsAfter(op)
  {
    FieldsMean(op);
    if op.fault.Some? {
      FaultMeans(op.fault.value, position);
    }
  }

  lemma ValidMeans(ops: seq<Op>)
    ensures Valid(ops) <==> WellFormed(ops)
  {
    forall i | 0 <= i < |ops| ensures (ops[i].Valid(i) <==> WellFormedOp(ops[i], i)) && ops[i].Settles() == WaitsAfter(ops[i]) {
      OpMeans(ops[i], i);
    }
    if ValidOps(ops) {
      FixturesMean(ops);
    }
  }

  lemma FixturesMean(ops: seq<Op>)
    requires ValidOps(ops)
    ensures FixturesComeBack(ops) <==>
            && (forall i :: 0 <= i < |ops| && ops[i].kind == DeleteFixture ==>
                  ops[i].until.Some? && i < ops[i].until.value < |ops|)
            && (forall i, j :: 0 <= i < j < |ops| && ops[i].kind == DeleteFixture && OnSameFixture(ops[i], ops[j]) ==>
                  ops[i].until.Some? && ops[i].until.value <= j)
  {
    forall i | 0 <= i < |ops| && ops[i].kind == DeleteFixture ensures ops[i].until.Some? {
      assert ops[i].Valid(i);
    }
    if FixturesComeBack(ops) {
      forall i | 0 <= i < |ops| && ops[i].kind == DeleteFixture ensures i < ops[i].until.value < |ops| {
        assert ComesBack(ops, i);
      }
      forall i, j | 0 <= i < j < |ops| && ops[i].kind == DeleteFixture && OnSameFixture(ops[i], ops[j])
        ensures ops[i].until.value <= j
      {
        assert KeepsOff(ops, i, j);
      }
    }
  }

  /** Refuses a malformed op, or a sequence that ends while the target is still
      working. */
  method Validate(ops: seq<Op>) returns (ok: bool)
    ensures ok == Valid(ops) && (ok <==> WellFormed(ops))
  {
    ValidMeans(ops);
    for i := 0 to |ops|
      invariant forall j :: 0 <= j < i ==> ops[j].Valid(j)
    {
      if !ops[i].Valid(i) {
        return false;
      }
    }
    if |ops| == 0 || !ops[|ops| - 1].Settles() {
      return false;
    }
    ok := ValidateFixtures(ops);
  }

  // ----- the CRs the ops act on

  predicate SettledBetween(ops: seq<Op>, from: int, to: int)
    requires 0 <= from <= to <= |ops|
  {
    exists i :: from <= i < to && ops[i].Settles()
  }

  /** The op creates, recreates or deletes the CR. */
  predicate Touches(op: Op, name: string, sample: string)
    requires op.kind.Create? ==> op.obj.Some?
  {
    (op.kind.Create? || op.kind.Recreate? || op.kind.Delete?) && op.CRName(sample) == name
  }

  /** The last of the first n ops to touch the CR. */
  function LastTouch(ops: seq<Op>, n: nat, name: string, sample: string): (last: Option<nat>)
    requires ValidOps(ops) && n <= |ops|
    ensures last.Some? ==> last.value < n
  {
    if n == 0 then None
    else
      assert ops[n - 1].Valid(n - 1);
      if Touches(ops[n - 1], name, sample) then Some(n - 1) else LastTouch(ops, n - 1, name, sample)
  }

  /** The last touch is one, and no op after it touches the CR. */
  lemma {:induction false} LastTouchIsLast(ops: seq<Op>, n: nat, name: string, sample: string)
    requires ValidOps(ops) && n <= |ops|
    ensures forall q :: LastTouch(ops, n, name, sample) == Some(q) ==> ops[q].Valid(q) && Touches(ops[q], name, sample)
    ensures forall q :: (if LastTouch(ops, n, name, sample).Some? then LastTouch(ops, n, name, sample).value + 1 else 0) <= q < n
              ==> ops[q].Valid(q) && !Touches(ops[q], name, sample)
  {
    if n > 0 {
      assert ops[n - 1].Valid(n - 1);
      LastTouchIsLast(ops, n - 1, name, sample);
    }
  }

  /** What op i needs of the CR it names, by the last op before it that touched the
      CR. A create needs there to be none, or a delete that has had an op settle
      since; any other op needs one, and only a recreate may follow a delete. */
  predicate ActsOnCR(ops: seq<Op>, i: nat, sample: string)
    requires ValidOps(ops) && i < |ops|
  {
    var op := ops[i];
    assert op.Valid(i);
    op.OnCR() ==>
      var name := op.CRName(sample);
      var last := LastTouch(ops, i, name, sample);
      && (op.obj.Some? ==> op.obj.value.name != "")
      && if op.kind.Create? then last.None? || (ops[last.value].kind.Delete? && SettledBetween(ops, last.value, i))
         else if op.kind.Recreate? then last.Some? && op.obj.value.name == name
         else last.Some? && !ops[last.value].kind.Delete?
  }

  predicate CRsExist(ops: seq<Op>, sample: string)
    requires ValidOps(ops)
  {
    forall i :: 0 <= i < |ops| ==> ActsOnCR(ops, i, sample)
  }

  /** The op that created each CR no op has deleted since, and the op that last
      deleted each other CR. */
  datatype CRs = CRs(live: map<string, int>, deleted: map<string, int>)

  /** What the maps say of one CR is what its last touch among the first n ops
      says. */
  ghost predicate Tells(crs: CRs, ops: seq<Op>, n: nat, name: string, sample: string)
    requires ValidOps(ops) && n <= |ops|
  {
    var last := LastTouch(ops, n, name, sample);
    && (name in crs.live <==> last.Some? && !ops[last.value].kind.Delete?)
    && (name in crs.live || name in crs.deleted <==> last.Some?)
    && (last.Some? && ops[last.value].kind.Delete? ==> name in crs.deleted && crs.deleted[name] == last.value)
  }

  /** Refuses an op on a CR that is not there, a recreate that creates another CR,
      and a create of a CR still there. */
  method CheckCRs(ops: seq<Op>, sample: string) returns (ok: bool)
    requires ValidOps(ops)
    ensures ok == CRsExist(ops, sample)
  {
    var crs := CRs(map[], map[]);
    for i := 0 to |ops|
      invariant forall j :: 0 <= j < i ==> ActsOnCR(ops, j, sample)
      invariant forall name :: Tells(crs, ops, i, name, sample)
    {
      ok := CheckCR(ops, i, crs, sample);
      if !ok {
        return;
      }
      crs := NoteCR(ops, i, crs, sample);
    }
    return true;
  }

  /** The cases the loop refuses. */
  method CheckCR(ops: seq<Op>, i: nat, crs: CRs, sample: string) returns (ok: bool)
    requires ValidOps(ops) && i < |ops| && forall name :: Tells(crs, ops, i, name, sample)
    ensures ok == ActsOnCR(ops, i, sample)
  {
    var op := ops[i];
    assert op.Valid(i);
    if !op.OnCR() {
      return true;
    }
    var name := op.CRName(sample);
    assert Tells(crs, ops, i, name, sample);
    var isLive, wasDeleted := name in crs.live, name in crs.deleted;
    if op.obj.Some? && op.obj.value.name == "" {
      return false;
    } else if op.kind.Create? && isLive {
      return false;
    } else if op.kind.Create? && wasDeleted && !SettledBetween(ops, crs.deleted[name], i) {
      return false;
    } else if op.kind.Create? {
      return true;
    } else if !isLive && !wasDeleted {
      return false;
    } else if op.kind.Recreate? && op.obj.value.name != name {
      return false;
    } else if !op.kind.Recreate? && !isLive {
      return false;
    }
    return true;
  }

  method NoteCR(ops: seq<Op>, i: nat, before: CRs, sample: string) returns (crs: CRs)
    requires ValidOps(ops) && i < |ops| && forall name :: Tells(before, ops, i, name, sample)
    ensures var n := i + 1; forall name :: Tells(crs, ops, n, name, sample)
  {
    var op := ops[i];
    assert op.Valid(i);
    crs := before;
    if op.kind.Create? || op.kind.Recreate? {
      crs := crs.(live := crs.live[op.CRName(sample) := i]);
    } else if op.kind.Delete? {
      crs := CRs(crs.live - {op.CRName(sample)}, crs.deleted[op.CRName(sample) := i]);
    }
    var n := i + 1;
    forall name ensures Tells(crs, ops, n, name, sample) {
      assert Tells(before, ops, i, name, sample);
    }
  }
}
