/** Removing one op from a sequence, and what the removal keeps: every fault ends,
    and every deleted fixture comes back, where it did.
 */
module Removal {
  import opened Options
  import opened Sequences

  /** An op index once op i is gone: the op it named, or the first left after it. */
  function Retarget(op: int, i: int): int {
    if op > i then op - 1 else op
  }

  /** The op at its new position, ending its fault and bringing back its fixture
      where it did. */
  function Moved(op: Op, i: int, position: int): Op {
    op.(index := position,
        fault := if op.fault.Some? && op.fault.value.until.op.Some?
                 then Some(op.fault.value.(until := op.fault.value.until.(op := Some(Retarget(op.fault.value.until.op.value, i)))))
                 else op.fault,
        until := if op.until.Some? then Some(Retarget(op.until.value, i)) else None)
  }

  /** Where op j of the shorter sequence stood. */
  function Was(j: int, i: int): int {
    if j < i then j else j + 1
  }

  function Without(ops: seq<Op>, i: nat): (shorter: seq<Op>)
    requires i < |ops|
    ensures |shorter| == |ops| - 1
    ensures forall j :: 0 <= j < |shorter| ==> shorter[j] == Moved(ops[Was(j, i)], i, j)
  {
    seq(|ops| - 1, j requires 0 <= j < |ops| - 1 => Moved(ops[Was(j, i)], i, j))
  }

  /** Deletes the op, then renumbers and re-targets each one left. */
  method ComputeWithout(ops: seq<Op>, i: nat) returns (shorter: seq<Op>)
    requires i < |ops|
    ensures shorter == Without(ops, i)
  {
    shorter := ops[..i] + ops[i + 1..];
    for j := 0 to |shorter|
      invariant |shorter| == |ops| - 1
      invariant forall k :: 0 <= k < j ==> shorter[k] == Moved(ops[Was(k, i)], i, k)
      invariant forall k :: j <= k < |shorter| ==> shorter[k] == ops[Was(k, i)]
    {
      var op := shorter[j].(index := j);
      if op.fault.Some? && op.fault.value.until.op.Some? && op.fault.value.until.op.value > i {
        var fault := op.fault.value;
        op := op.(fault := Some(fault.(until := fault.until.(op := Some(fault.until.op.value - 1)))));
      }
      if op.until.Some? && op.until.value > i {
        op := op.(until := Some(op.until.value - 1));
      }
      shorter := shorter[j := op];
    }
  }

  // ----- what the ops mean

  /** The fault op p injects still stands, as far as op indices end it, while the
      Runner applies op j. */
  predicate Standing(ops: seq<Op>, p: int, j: int)
    requires 0 <= p < |ops| && 0 <= j < |ops|
  {
    && ops[p].kind.Inject? && ops[p].fault.Some?
    && p < j && (ops[p].fault.value.until.op.Some? ==> j < ops[p].fault.value.until.op.value)
  }

  /** The fixture op p deletes is absent while the Runner applies op j. */
  predicate Absent(ops: seq<Op>, p: int, j: int)
    requires 0 <= p < |ops| && 0 <= j < |ops|
  {
    ops[p].kind.DeleteFixture? && ops[p].until.Some? && p < j < ops[p].until.value
  }

  /** The op does the same, wherever it stands. */
  predicate SameAct(a: Op, b: Op) {
    && a == b.(index := a.index, fault := a.fault, until := a.until)
    && a.fault.Some? == b.fault.Some?
    && (a.fault.Some? ==>
          && a.fault.value.matching == b.fault.value.matching && a.fault.value.action == b.fault.value.action
          && a.fault.value.until == b.fault.value.until.(op := a.fault.value.until.op))
  }

  /** Every op left acts as it did, each surviving fault stands, and each fixture a
      surviving op deleted is absent, over exactly the surviving ops it was. */
  lemma RemovalKeepsMeaning(ops: seq<Op>, i: nat, p: nat, j: nat)
    requires i < |ops| && p < |ops| - 1 && j < |ops| - 1
    ensures SameAct(Without(ops, i)[j], ops[Was(j, i)])
    ensures Standing(Without(ops, i), p, j) <==> Standing(ops, Was(p, i), Was(j, i))
    ensures Absent(Without(ops, i), p, j) <==> Absent(ops, Was(p, i), Was(j, i))
  {
  }

  // ----- when the result is well formed

  lemma MovedValid(ops: seq<Op>, i: nat, j: nat)
    requires ValidOps(ops) && i < |ops| && j < |ops| - 1
    ensures Without(ops, i)[j].Valid(j)
    ensures Without(ops, i)[j].Settles() == ops[Was(j, i)].Settles()
  {
    assert ops[Was(j, i)].Valid(Was(j, i));
  }

  /** A deleteFixture names the op to be removed, which is the last. */
  ghost predicate NamesRemovedLast(ops: seq<Op>, i: nat) {
    i == |ops| - 1 && exists p :: 0 <= p < i && ops[p].kind.DeleteFixture? && ops[p].until == Some(i)
  }

  lemma ComesBackIff(ops: seq<Op>, i: nat, j: nat)
    requires Valid(ops) && i < |ops| && j < |ops| - 1 && ValidOps(Without(ops, i))
    ensures ComesBack(Without(ops, i), j) <==>
            !(i == |ops| - 1 && ops[j].kind.DeleteFixture? && ops[j].until == Some(i))
  {
    assert ops[Was(j, i)].Valid(Was(j, i)) && ComesBack(ops, Was(j, i));
  }

  lemma KeepsOffStill(ops: seq<Op>, i: nat, p: nat, q: nat)
    requires Valid(ops) && i < |ops| && p < q < |ops| - 1 && ValidOps(Without(ops, i))
    ensures KeepsOff(Without(ops, i), p, q)
  {
    assert ops[Was(p, i)].Valid(Was(p, i)) && KeepsOff(ops, Was(p, i), Was(q, i));
  }

  /** Removing an op from a well-formed sequence leaves a well-formed one exactly
      where an op is left, the last of them settles, and no deleteFixture named the
      removed op as the last. */
  lemma RemovalValidExactlyWhere(ops: seq<Op>, i: nat)
    requires Valid(ops) && i < |ops|
    ensures Valid(Without(ops, i)) <==>
            && |ops| > 1
            && ops[Was(|ops| - 2, i)].Settles()
            && !NamesRemovedLast(ops, i)
  {
    var shorter := Without(ops, i);
    forall j | 0 <= j < |shorter|
      ensures shorter[j].Valid(j) && shorter[j].Settles() == ops[Was(j, i)].Settles()
    {
      MovedValid(ops, i, j);
    }
    forall j | 0 <= j < |shorter|
      ensures ComesBack(shorter, j) <==> !(i == |ops| - 1 && ops[j].kind.DeleteFixture? && ops[j].until == Some(i))
    {
      ComesBackIff(ops, i, j);
    }
    forall p, q | 0 <= p < q < |shorter|
      ensures KeepsOff(shorter, p, q)
    {
      KeepsOffStill(ops, i, p, q);
    }
  }
}
