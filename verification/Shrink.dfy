/** Simplifying a failing sequence: drop ops and halve faults while the sequence
    still fails the same check.
 */
module Shrink {
  import opened Instants
  import opened Options
  import opened Sequences
  import opened Removal
  import opened Bound

  // ----- milder faults

  const MIN_FAULT_DURATION: Duration := 10 * MILLISECOND

  /** What a fault carries that can be halved. */
  datatype Axis = Applications | Lasting | Delay

  const HALVINGS := [Applications, Lasting, Delay]

  /** The duration to try next. One at the floor has nothing milder to offer. */
  function Halved(d: Duration): (half: Option<Duration>)
    ensures half.Some? <==> d > MIN_FAULT_DURATION
    ensures half.Some? ==> MIN_FAULT_DURATION <= half.value < d
  {
    if d <= MIN_FAULT_DURATION then None
    else if d / 2 > MIN_FAULT_DURATION then Some(d / 2)
    else Some(MIN_FAULT_DURATION)
  }

  /** The milder op to try on this axis. A count halves to 1, because a fault with
      no trigger never ends. */
  function Halve(axis: Axis, op: Op): Option<Op> {
    if !op.kind.Inject? || op.fault.None? then None
    else
      var f := op.fault.value;
      match axis
      case Applications =>
        if f.until.count / 2 <= 0 then None
        else Some(op.(fault := Some(f.(until := f.until.(count := f.until.count / 2)))))
      case Lasting =>
        var half := Halved(f.until.lasting);
        if half.None? then None else Some(op.(fault := Some(f.(until := f.until.(lasting := half.value)))))
      case Delay =>
        var half := Halved(f.action.delay);
        if half.None? then None else Some(op.(fault := Some(f.(action := f.action.(delay := half.value)))))
  }

  /** What halving wears down. */
  function Weight(op: Op): int {
    if op.fault.None? then 0
    else op.fault.value.until.count + op.fault.value.until.lasting + op.fault.value.action.delay
  }

  function TotalWeight(ops: seq<Op>): int {
    if ops == [] then 0 else Weight(ops[0]) + TotalWeight(ops[1..])
  }

  lemma {:induction false} WeightNotNegative(ops: seq<Op>)
    requires forall op :: op in ops ==> Weight(op) >= 0
    ensures TotalWeight(ops) >= 0
  {
    if ops != [] {
      assert ops[0] in ops;
      WeightNotNegative(ops[1..]);
    }
  }

  lemma {:induction false} WeightWith(ops: seq<Op>, i: nat, op: Op)
    requires i < |ops|
    ensures TotalWeight(ops[i := op]) == TotalWeight(ops) - Weight(ops[i]) + Weight(op)
  {
    if i > 0 {
      assert ops[i := op][1..] == ops[1..][i - 1 := op];
      WeightWith(ops[1..], i - 1, op);
    } else {
      assert ops[i := op][1..] == ops[1..];
    }
  }

  lemma ValidWeight(ops: seq<Op>)
    requires Valid(ops)
    ensures TotalWeight(ops) >= 0
  {
    forall op | op in ops
      ensures Weight(op) >= 0
    {
      var i :| 0 <= i < |ops| && ops[i] == op;
      assert ops[i].Valid(i);
    }
    WeightNotNegative(ops);
  }

  /** Simpler: fewer ops, or as many with less left to halve. */
  predicate Simpler(a: seq<Op>, b: seq<Op>) {
    |a| < |b| || (|a| == |b| && TotalWeight(a) < TotalWeight(b))
  }

  /** Halving keeps a sequence well formed, lightens it and never raises its bound. */
  lemma HalvingKeepsValid(ops: seq<Op>, i: nat, axis: Axis)
    requires Valid(ops) && i < |ops| && Halve(axis, ops[i]).Some?
    ensures
      var op := Halve(axis, ops[i]).value;
      Valid(ops[i := op]) && Milder(op, ops[i]) && Weight(op) < Weight(ops[i]) && op.fault != ops[i].fault
  {
    var op := Halve(axis, ops[i]).value;
    var milder := ops[i := op];
    assert ops[i].Valid(i) && op.Valid(i);
    forall j | 0 <= j < |ops|
      ensures milder[j].Valid(j)
    {
      assert ops[j].Valid(j);
    }
    forall j | 0 <= j < |ops|
      ensures ComesBack(milder, j)
    {
      assert ComesBack(ops, j);
    }
    forall p, q | 0 <= p < q < |ops|
      ensures KeepsOff(milder, p, q)
    {
      assert KeepsOff(ops, p, q);
    }
  }

  // ----- replaying candidates

  /** Whether the candidate's replay fails the check the failing sequence did. The
      replay starts from clean state and answers alike each time. */
  type Replay = seq<Op> -> bool

  /** A deadline that has passed stays passed, and may pass at any time. */
  method Deadline(ended: bool) returns (now: bool)
    ensures ended ==> now
  {
    now := *;
    now := now || ended;
  }

  /** Every sequence the shrinker replays is well formed, simpler than the one it
      was given, and bounded by its bound. */
  ghost predicate Affordable(budget: Budget, start: seq<Op>, tried: seq<seq<Op>>)
    requires Injects(start)
  {
    forall c :: c in tried ==>
      Valid(c) && Simpler(c, start) && Injects(c) && BoundOf(budget, c) <= BoundOf(budget, start)
  }

  lemma AffordableNone(budget: Budget, start: seq<Op>)
    requires Injects(start)
    ensures Affordable(budget, start, [])
  {
  }

  lemma AffordableBoth(budget: Budget, start: seq<Op>, a: seq<seq<Op>>, b: seq<seq<Op>>)
    requires Injects(start) && Affordable(budget, start, a) && Affordable(budget, start, b)
    ensures Affordable(budget, start, a + b)
  {
  }

  /** Replays the candidate unless it is malformed or simplifies nothing. A replay
      the deadline cuts short reproduces nothing. */
  method Reproducing(ops: seq<Op>, i: nat, candidate: seq<Op>, replay: Replay, ended: bool)
    returns (ok: bool, now: bool, ghost tried: seq<seq<Op>>)
    requires i < |ops| && (|candidate| == |ops| || |candidate| == |ops| - 1)
    ensures ended ==> now
    ensures ok ==> Valid(candidate) && replay(candidate)
    ensures !ok && !now ==>
              !Valid(candidate) || (|candidate| == |ops| && candidate[i].fault == ops[i].fault) || !replay(candidate)
    ensures tried == [] || (tried == [candidate] && Valid(candidate))
  {
    tried := [];
    now := ended;
    var valid := Validate(candidate);
    if !valid || (|candidate| == |ops| && candidate[i].fault == ops[i].fault) {
      return false, now, tried;
    }
    tried := [candidate];
    ok := replay(candidate);
    now := Deadline(ended);
    if now {
      var answered := Deadline(false);
      ok := ok && answered;
    }
  }

  // ----- one op at a time

  /** Removing op i leaves no well-formed sequence that still fails the check. */
  ghost predicate Needed(ops: seq<Op>, i: nat, replay: Replay)
    requires i < |ops|
  {
    !(Valid(Without(ops, i)) && replay(Without(ops, i)))
  }

  /** Halving op i's fault on this axis leaves no sequence that still fails. */
  ghost predicate Worn(ops: seq<Op>, i: nat, axis: Axis, replay: Replay)
    requires i < |ops|
  {
    Halve(axis, ops[i]).Some? ==> !replay(ops[i := Halve(axis, ops[i]).value])
  }

  ghost predicate Stuck(ops: seq<Op>, i: nat, replay: Replay)
    requires i < |ops|
  {
    Needed(ops, i, replay) && forall axis :: Worn(ops, i, axis, replay)
  }

  ghost predicate LocalMinimum(ops: seq<Op>, replay: Replay) {
    forall i :: 0 <= i < |ops| ==> Stuck(ops, i, replay)
  }

  /** The larger of half a duration and ten milliseconds. */
  function HalfOrFloor(d: Duration): Duration { if d / 2 > 10_000_000 then d / 2 else 10_000_000 }

  /** The sequence fails no more with half the count of the fault at i, with half of
      what it lasts, or with half of what it delays. */
  ghost predicate NoMilderFault(ops: seq<Op>, i: nat, replay: Replay)
    requires i < |ops|
  {
    ops[i].kind.Inject? && ops[i].fault.Some? ==>
      var f := ops[i].fault.value;
      && (f.until.count >= 2 ==>
            !replay(ops[i := ops[i].(fault := Some(f.(until := f.until.(count := f.until.count / 2))))]))
      && (f.until.lasting > 10_000_000 ==>
            !replay(ops[i := ops[i].(fault := Some(f.(until := f.until.(lasting := HalfOrFloor(f.until.lasting)))))]))
      && (f.action.delay > 10_000_000 ==>
            !replay(ops[i := ops[i].(fault := Some(f.(action := f.action.(delay := HalfOrFloor(f.action.delay)))))]))
  }

  /** Nor with the op removed. */
  ghost predicate NothingMilder(ops: seq<Op>, i: nat, replay: Replay)
    requires i < |ops|
  {
    (Valid(Without(ops, i)) ==> !replay(Without(ops, i))) && NoMilderFault(ops, i, replay)
  }

  lemma WornMeans(ops: seq<Op>, i: nat, replay: Replay)
    requires i < |ops| && forall axis :: Worn(ops, i, axis, replay)
    ensures NoMilderFault(ops, i, replay)
  {
    assert Worn(ops, i, Applications, replay) && Worn(ops, i, Lasting, replay) && Worn(ops, i, Delay, replay);
  }

  lemma LocalMinimumMeans(ops: seq<Op>, i: nat, replay: Replay)
    requires LocalMinimum(ops, replay) && i < |ops|
    ensures NothingMilder(ops, i, replay)
  {
    assert Stuck(ops, i, replay);
    WornMeans(ops, i, replay);
  }

  /** What shrinking has made of the sequence it was given. */
  ghost predicate Shrunk(budget: Budget, start: seq<Op>, ops: seq<Op>, replay: Replay) {
    && Valid(ops) && Injects(start) && Injects(ops)
    && (ops == start || (Simpler(ops, start) && replay(ops)))
    && BoundOf(budget, ops) <= BoundOf(budget, start)
  }

  lemma HalvingShrinks(budget: Budget, start: seq<Op>, ops: seq<Op>, i: nat, axis: Axis, replay: Replay)
    requires Sane(budget) && Shrunk(budget, start, ops, replay)
    requires i < |ops| && Halve(axis, ops[i]).Some?
    ensures
      var candidate := ops[i := Halve(axis, ops[i]).value];
      && Valid(candidate) && Simpler(candidate, ops) && Simpler(candidate, start) && Injects(candidate)
      && BoundOf(budget, candidate) <= BoundOf(budget, start)
  {
    HalvingKeepsValid(ops, i, axis);
    MilderNeverRaises(budget, ops, i, Halve(axis, ops[i]).value);
    WeightWith(ops, i, Halve(axis, ops[i]).value);
  }

  /** Halves one axis of op i's fault as far as it goes. */
  method WeakenAxis(budget: Budget, start: seq<Op>, before: seq<Op>, i: nat, axis: Axis, replay: Replay, ended: bool)
    returns (ops: seq<Op>, now: bool, ghost tried: seq<seq<Op>>)
    requires Sane(budget) && Shrunk(budget, start, before, replay) && i < |before|
    ensures Shrunk(budget, start, ops, replay) && |ops| == |before|
    ensures ops == before || Simpler(ops, before)
    ensures ended ==> now
    ensures !now && ops == before ==> Worn(ops, i, axis, replay)
    ensures Affordable(budget, start, tried)
  {
    ops, now, tried := before, ended, [];
    ValidWeight(ops);
    while !now
      invariant Shrunk(budget, start, ops, replay) && |ops| == |before| && TotalWeight(ops) >= 0
      invariant ops == before || Simpler(ops, before)
      invariant ended ==> now
      invariant Affordable(budget, start, tried)
      decreases TotalWeight(ops), !now
    {
      var milder, halved, late, replayed := HalveOnce(budget, start, ops, i, axis, replay, now);
      AffordableBoth(budget, start, tried, replayed);
      now, tried := late, tried + replayed;
      if !halved {
        return;
      }
      ops := milder;
      ValidWeight(ops);
    }
  }

  /** Halves one axis of op i's fault once, if the failure stays. */
  method HalveOnce(budget: Budget, start: seq<Op>, before: seq<Op>, i: nat, axis: Axis, replay: Replay, ended: bool)
    returns (ops: seq<Op>, halved: bool, now: bool, ghost tried: seq<seq<Op>>)
    requires Sane(budget) && Shrunk(budget, start, before, replay) && i < |before|
    ensures Shrunk(budget, start, ops, replay) && |ops| == |before|
    ensures halved ==> Simpler(ops, before)
    ensures !halved ==> ops == before && (now || Worn(ops, i, axis, replay))
    ensures ended ==> now
    ensures Affordable(budget, start, tried)
  {
    ops, halved, now, tried := before, false, ended, [];
    var milder := Halve(axis, ops[i]);
    if milder.None? {
      return;
    }
    HalvingShrinks(budget, start, ops, i, axis, replay);
    HalvingKeepsValid(ops, i, axis);
    var candidate := ops[i := milder.value];
    halved, now, tried := Reproducing(ops, i, candidate, replay, now);
    if halved {
      ops := candidate;
    }
  }

  /** Halves each thing op i's fault carries, one axis at a time. */
  method Weaken(budget: Budget, start: seq<Op>, before: seq<Op>, i: nat, replay: Replay, ended: bool)
    returns (ops: seq<Op>, weakened: bool, now: bool, ghost tried: seq<seq<Op>>)
    requires Sane(budget) && Shrunk(budget, start, before, replay) && i < |before|
    ensures Shrunk(budget, start, ops, replay) && |ops| == |before|
    ensures weakened ==> Simpler(ops, before)
    ensures !weakened ==> ops == before
    ensures ended ==> now
    ensures !weakened && !now ==> (forall axis :: Worn(ops, i, axis, replay)) && NoMilderFault(ops, i, replay)
    ensures Affordable(budget, start, tried)
  {
    ops, weakened, now, tried := before, false, ended, [];
    if !ops[i].kind.Inject? || ops[i].fault.None? {
      return;
    }
    for n := 0 to |HALVINGS|
      invariant Shrunk(budget, start, ops, replay) && |ops| == |before|
      invariant weakened ==> Simpler(ops, before)
      invariant !weakened ==> ops == before
      invariant ended ==> now
      invariant !weakened && !now ==> forall m :: 0 <= m < n ==> Worn(ops, i, HALVINGS[m], replay)
      invariant Affordable(budget, start, tried)
    {
      var milder, then_, replayed := WeakenAxis(budget, start, ops, i, HALVINGS[n], replay, now);
      weakened := weakened || milder != ops;
      AffordableBoth(budget, start, tried, replayed);
      ops, now, tried := milder, then_, tried + replayed;
    }
    if !weakened && !now {
      assert Worn(ops, i, HALVINGS[0], replay) && Worn(ops, i, HALVINGS[1], replay) && Worn(ops, i, HALVINGS[2], replay);
      WornMeans(ops, i, replay);
    }
  }

  /** Tries removal first, because no fault is simpler than a short one. An op that
      stays is weakened as far as it goes. */
  method SimplifyOp(budget: Budget, start: seq<Op>, before: seq<Op>, i: nat, replay: Replay, ended: bool)
    returns (ops: seq<Op>, removed: bool, simplified: bool, now: bool, ghost tried: seq<seq<Op>>)
    requires Sane(budget) && Shrunk(budget, start, before, replay) && i < |before|
    ensures Shrunk(budget, start, ops, replay)
    ensures |ops| == if removed then |before| - 1 else |before|
    ensures simplified ==> Simpler(ops, before)
    ensures !simplified ==> !removed && ops == before && (now || Stuck(ops, i, replay))
    ensures ended ==> now
    ensures Affordable(budget, start, tried)
  {
    RemovalNeverRaises(budget, before, i);
    var candidate := ComputeWithout(before, i);
    removed, now, tried := Reproducing(before, i, candidate, replay, ended);
    if removed {
      return candidate, true, true, now, tried;
    }
    ghost var halved;
    var after;
    ops, simplified, after, halved := Weaken(budget, start, before, i, replay, now);
    now, tried := after, tried + halved;
  }

  /** A pass that has reached op i: what it made of the sequence, and that it could
      simplify none of the ops before i if it has simplified nothing. */
  ghost predicate Reached(before: seq<Op>, ops: seq<Op>, i: nat, simplified: bool, ended: bool, replay: Replay) {
    && i <= |ops|
    && (if simplified then Simpler(ops, before) else ops == before)
    && (!simplified && !ended ==> forall j :: 0 <= j < i ==> Stuck(ops, j, replay))
  }

  /** The pass's next step: an op removed leaves the next one in its position. */
  lemma ReachedNext(before: seq<Op>, was: seq<Op>, i: nat, simplified: bool, ended: bool, replay: Replay,
                    ops: seq<Op>, removed: bool, done: bool, now: bool)
    requires Reached(before, was, i, simplified, ended, replay) && i < |was|
    requires |ops| == if removed then |was| - 1 else |was|
    requires done ==> Simpler(ops, was)
    requires !done ==> !removed && ops == was && (now || Stuck(ops, i, replay))
    requires ended ==> now
    ensures Reached(before, ops, if removed then i else i + 1, simplified || done, now, replay)
  {
  }

  /** Simplifies every op it can, in order, and reports whether it simplified any. */
  method Pass(budget: Budget, start: seq<Op>, before: seq<Op>, replay: Replay, ended: bool)
    returns (ops: seq<Op>, simplified: bool, now: bool, ghost tried: seq<seq<Op>>)
    requires Sane(budget) && Shrunk(budget, start, before, replay)
    ensures Shrunk(budget, start, ops, replay)
    ensures if simplified then Simpler(ops, before) else ops == before
    ensures !simplified && !now ==> LocalMinimum(ops, replay)
    ensures Affordable(budget, start, tried)
  {
    ops, simplified, now, tried := before, false, ended, [];
    AffordableNone(budget, start);
    var i := 0;
    while i < |ops| && !now
      invariant 0 <= i <= |ops| && Reached(before, ops, i, simplified, now, replay)
      invariant Shrunk(budget, start, ops, replay)
      invariant Affordable(budget, start, tried)
      decreases |ops|, |ops| - i
    {
      ghost var was := ops;
      var milder, removed, done, after, replayed := SimplifyOp(budget, start, ops, i, replay, now);
      AffordableBoth(budget, start, tried, replayed);
      ReachedNext(before, was, i, simplified, now, replay, milder, removed, done, after);
      ops, simplified, now, tried := milder, simplified || done, after, tried + replayed;
      if !removed {
        i := i + 1;
      }
      now := Deadline(now);
    }
  }

  /** Returns the smallest failing sequence found: well formed, the sequence given
      or a simpler one whose replay failed the same check, and bounded by no more
      time. Unless the deadline cut it short, no op of it can be removed and no fault
      halved with the failure kept. Every sequence replayed on the way is well
      formed, simpler and bounded by the original's bound. */
  method Minimize(budget: Budget, failing: seq<Op>, replay: Replay)
    returns (smallest: seq<Op>, cut: bool, ghost tried: seq<seq<Op>>)
    requires Sane(budget) && Valid(failing)
    ensures Valid(smallest)
    ensures smallest == failing || (Simpler(smallest, failing) && replay(smallest))
    ensures Injects(failing) && Injects(smallest) && BoundOf(budget, smallest) <= BoundOf(budget, failing)
    ensures !cut ==> forall i :: 0 <= i < |smallest| ==> NothingMilder(smallest, i, replay)
    ensures Affordable(budget, failing, tried)
  {
    ValidInjects(failing);
    smallest, cut, tried := failing, false, [];
    var removed := true;
    ValidWeight(smallest);
    while removed
      invariant Shrunk(budget, failing, smallest, replay) && TotalWeight(smallest) >= 0
      invariant !removed && !cut ==> LocalMinimum(smallest, replay)
      invariant Affordable(budget, failing, tried)
      decreases |smallest|, TotalWeight(smallest), removed
    {
      var ops, simplified, now, replayed := Pass(budget, failing, smallest, replay, cut);
      AffordableBoth(budget, failing, tried, replayed);
      smallest, removed, cut, tried := ops, simplified, now, tried + replayed;
      ValidWeight(smallest);
    }
    if !cut {
      forall i | 0 <= i < |smallest| ensures NothingMilder(smallest, i, replay) {
        LocalMinimumMeans(smallest, i, replay);
      }
    }
  }
}
