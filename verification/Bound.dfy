/** The longest the Runner's waits can make a run take, and how it falls as a
    sequence gets simpler.
 */
module Bound {
  import opened Instants
  import opened Options
  import opened Sequences
  import opened Removal
  import Supervisor

  const RESTART_WITHIN := 5 * SECOND
  const NAMESPACE_DEFAULTS_WITHIN := 30 * SECOND
  const TEARDOWN_MARGIN := 30 * SECOND
  // Stopping the target, and deleting the namespace.
  const STOP_BUDGET := 10 * SECOND + 30 * SECOND
  const LONGEST_DURATION: Duration := 0x7fff_ffff_ffff_ffff

  /** The target's timeouts, and how the sums of them are rounded. The program adds
      them up in floating point, where every sum it makes is rounded to a whole
      number of nanoseconds, and one too large to hold to the largest there is. */
  datatype Budget = Budget(timeouts: Timeouts, round: int -> int) {
    function Add(a: int, b: int): int { round(a + b) }

    function Settle(): int { round(timeouts.settle) }

    function Stable(): int { round(timeouts.stable) }

    function Delete(): int { round(timeouts.delete) }
  }

  /** What the ops so far add up to. */
  datatype Tally = Tally(waits: int, faults: nat, stops: nat, exits: nat, untriggered: bool, delay: int, hold: int)

  function Start(b: Budget): Tally { Tally(b.round(NAMESPACE_DEFAULTS_WITHIN), 0, 0, 0, false, 0, 0) }

  function Max(a: int, b: int): int { if a >= b then a else b }

  /** From the first fault on, an op may first wait for the target to restart. */
  function Waited(b: Budget, t: Tally): Tally {
    if t.faults > 0 then t.(waits := b.Add(t.waits, b.Add(b.round(Supervisor.MAX_BACKOFF), b.Settle()))) else t
  }

  function Injected(b: Budget, t: Tally, f: Fault): Tally {
    var delay := Max(t.delay, b.round(f.action.delay));
    var held := if f.action.delay > 0 then t.(delay := delay, hold := b.Add(delay, b.Settle())) else t;
    var counted := held.(faults := t.faults + 1);
    if f.until == NO_TRIGGER then counted.(untriggered := true) else counted.(stops := t.stops + 1)
  }

  /** What the op itself may wait for. */
  function Acts(b: Budget, hold: int, kind: OpType): int {
    match kind
    case Delete => b.Delete()
    case DeleteFixture => b.Delete()
    case Recreate => b.Add(Max(b.Delete(), b.Settle()), hold)
    case Restart => b.Add(b.round(RESTART_WITHIN), b.Settle())
    case _ => 0
  }

  function Acted(b: Budget, t: Tally, op: Op): Tally
    requires op.kind.Inject? ==> op.fault.Some?
  {
    if op.kind.Inject? then Injected(b, t, op.fault.value)
    else if op.kind.Delete? || op.kind.DeleteFixture? || op.kind.Recreate? || op.kind.Restart?
    then t.(waits := b.Add(t.waits, Acts(b, t.hold, op.kind)))
    else t
  }

  function Settled(b: Budget, t: Tally, settles: bool): Tally {
    t.(exits := if t.faults > 0 then t.exits + 1 else t.exits,
       waits := if settles then b.Add(t.waits, b.Add(b.Settle(), t.hold)) else t.waits)
  }

  /** The tally after one more op. */
  function Count(b: Budget, t: Tally, op: Op): Tally
    requires op.kind.Inject? ==> op.fault.Some?
  {
    Settled(b, Acted(b, Waited(b, t), op), op.Settles())
  }

  ghost predicate Injects(ops: seq<Op>) {
    forall op :: op in ops && op.kind.Inject? ==> op.fault.Some?
  }

  function CountAll(b: Budget, t: Tally, ops: seq<Op>): Tally
    requires Injects(ops)
    decreases |ops|
  {
    if ops == [] then t else CountAll(b, Count(b, t, ops[0]), ops[1..])
  }

  function Exit(b: Budget): int { b.Add(b.round(Supervisor.MAX_BACKOFF), b.round(2 * b.Settle())) }

  /** What a run that has lasted so long lasts once faults stop. */
  function Stopped(b: Budget, waits: int, delay: int, hold: int): int {
    b.Add(b.Add(b.Add(b.round(2 * b.Add(waits, delay)), b.Settle()), hold), Exit(b))
  }

  /** Faults that stop are owed as long as the run lasted so far, once per stop. */
  function Doubled(b: Budget, waits: int, delay: int, hold: int, stops: nat): int {
    if stops == 0 then waits else Stopped(b, Doubled(b, waits, delay, hold, stops - 1), delay, hold)
  }

  function Stops(t: Tally): nat { if t.untriggered then t.stops + 1 else t.stops }

  function WithExits(b: Budget, t: Tally): int {
    b.Add(t.waits, b.round(b.round(t.exits) * Exit(b)))
  }

  function Teardown(b: Budget): int {
    b.Add(b.Add(b.Stable(), b.Delete()), b.round(TEARDOWN_MARGIN))
  }

  function Total(b: Budget, t: Tally): int {
    b.Add(b.Add(Doubled(b, WithExits(b, t), t.delay, t.hold, Stops(t)), Teardown(b)), b.round(STOP_BUDGET))
  }

  /** The bound of one run, before it is cut to the longest Duration. */
  function BoundOf(b: Budget, ops: seq<Op>): int
    requires Injects(ops)
  {
    Total(b, CountAll(b, Start(b), ops))
  }

  /** The loop's body: what one op adds to each running total. */
  method CountOp(b: Budget, before: Tally, op: Op) returns (after: Tally)
    requires op.kind.Inject? ==> op.fault.Some?
    ensures after == Count(b, before, op)
  {
    var waits, faults, stops, exits := before.waits, before.faults, before.stops, before.exits;
    var untriggered, delay, hold := before.untriggered, before.delay, before.hold;
    if faults > 0 {
      waits := b.Add(waits, b.Add(b.round(Supervisor.MAX_BACKOFF), b.Settle()));
    }
    match op.kind {
      case Delete => waits := b.Add(waits, b.Delete());
      case DeleteFixture => waits := b.Add(waits, b.Delete());
      case Recreate => waits := b.Add(waits, b.Add(Max(b.Delete(), b.Settle()), hold));
      case Restart => waits := b.Add(waits, b.Add(b.round(RESTART_WITHIN), b.Settle()));
      case Inject =>
        faults := faults + 1;
        if op.fault.value.action.delay > 0 {
          delay := Max(delay, b.round(op.fault.value.action.delay));
          hold := b.Add(delay, b.Settle());
        }
        if op.fault.value.until == NO_TRIGGER {
          untriggered := true;
        } else {
          stops := stops + 1;
        }
      case _ =>
    }
    if faults > 0 {
      exits := exits + 1;
    }
    if op.Settles() {
      waits := b.Add(waits, b.Add(b.Settle(), hold));
    }
    after := Tally(waits, faults, stops, exits, untriggered, delay, hold);
  }

  method ComputeBound(b: Budget, ops: seq<Op>) returns (bound: int)
    requires Injects(ops)
    ensures bound == BoundOf(b, ops)
  {
    var t := Start(b);
    for i := 0 to |ops|
      invariant CountAll(b, Start(b), ops) == CountAll(b, t, ops[i..])
    {
      assert ops[i] in ops && ops[i..][0] == ops[i] && ops[i..][1..] == ops[i + 1..];
      t := CountOp(b, t, ops[i]);
    }
    var exit := b.Add(b.round(Supervisor.MAX_BACKOFF), b.round(2 * b.Settle()));
    var waits := b.Add(t.waits, b.round(b.round(t.exits) * exit));
    for n := 0 to Stops(t)
      invariant waits == Doubled(b, WithExits(b, t), t.delay, t.hold, n)
    {
      waits := b.Add(b.Add(b.Add(b.round(2 * b.Add(waits, t.delay)), b.Settle()), t.hold), exit);
    }
    var teardown := b.Add(b.Add(b.Stable(), b.Delete()), b.round(TEARDOWN_MARGIN));
    return b.Add(b.Add(waits, teardown), b.round(STOP_BUDGET));
  }

  function SumOf(b: Budget, sequences: seq<seq<Op>>): int
    requires forall s :: s in sequences ==> Injects(s)
  {
    if sequences == [] then 0
    else b.Add(SumOf(b, sequences[..|sequences| - 1]), BoundOf(b, sequences[|sequences| - 1]))
  }

  lemma SumFits(b: Budget, sequences: seq<seq<Op>>)
    requires Sane(b) && forall s :: s in sequences ==> Injects(s)
    ensures SumOf(b, sequences) < b.round(LONGEST_DURATION) ==> SumOf(b, sequences) <= LONGEST_DURATION
  {
    var total := SumOf(b, sequences);
    if sequences != [] {
      var sum := SumOf(b, sequences[..|sequences| - 1]) + BoundOf(b, sequences[|sequences| - 1]);
      assert total == b.round(sum) && InOrder(sum, sum);
      assert b.round(total) == total;
      if total > LONGEST_DURATION {
        RoundKeepsOrder(b, LONGEST_DURATION, total);
      }
    }
  }

  /** The longest the runs can take one after another, cut to the longest Duration. */
  method ComputeTotal(b: Budget, sequences: seq<seq<Op>>) returns (bound: Duration)
    requires Sane(b) && forall s :: s in sequences ==> Injects(s)
    ensures bound == if SumOf(b, sequences) >= b.round(LONGEST_DURATION) then LONGEST_DURATION else SumOf(b, sequences)
    ensures bound <= LONGEST_DURATION
  {
    var total := 0;
    for i := 0 to |sequences|
      invariant total == SumOf(b, sequences[..i])
    {
      assert sequences[..i + 1][..i] == sequences[..i];
      var one := ComputeBound(b, sequences[i]);
      total := b.Add(total, one);
    }
    assert sequences[..|sequences|] == sequences;
    SumFits(b, sequences);
    return if total >= b.round(LONGEST_DURATION) then LONGEST_DURATION else total;
  }

  // ----- simpler sequences are bounded by less

  /** Rounding keeps order, and keeps what is round, such as 0 and 1. */
  ghost predicate Rounds(round: int -> int) {
    && (forall x, y {:trigger InOrder(x, y)} :: InOrder(x, y) ==> round(x) <= round(y))
    && (forall x {:trigger InOrder(x, x)} :: round(round(x)) == round(x))
    && round(0) == 0 && round(1) == 1
  }

  predicate InOrder(x: int, y: int) { x <= y }

  ghost predicate Sane(b: Budget) {
    b.timeouts.settle >= 0 && b.timeouts.stable >= 0 && b.timeouts.delete >= 0 && Rounds(b.round)
  }

  ghost predicate IsRound(b: Budget, x: int) { x >= 0 && b.round(x) == x }

  /** A tally the ops can reach: a hold is a delay and a settle wait more. */
  ghost predicate Reachable(b: Budget, t: Tally) {
    && IsRound(b, t.waits) && IsRound(b, t.delay)
    && t.hold == if t.delay > 0 then b.Add(t.delay, b.Settle()) else 0
  }

  ghost predicate AtMost(a: Tally, b: Tally) {
    && a.waits <= b.waits && a.faults <= b.faults && a.stops <= b.stops && a.exits <= b.exits
    && (a.untriggered ==> b.untriggered) && a.delay <= b.delay && a.hold <= b.hold
  }

  /** The op costs no more: it is the same but for a milder fault that ends at the
      same kind of trigger. */
  ghost predicate Milder(a: Op, b: Op) {
    && a.kind == b.kind && a.Settles() == b.Settles()
    && (a.kind.Inject? ==>
          && a.fault.Some? && b.fault.Some?
          && a.fault.value.action.delay <= b.fault.value.action.delay
          && ((a.fault.value.until == NO_TRIGGER) == (b.fault.value.until == NO_TRIGGER)))
  }

  /** Sums keep order, and adding to a round number does not lower it. */
  lemma AddKeepsOrder(b: Budget, x: int, y: int, u: int, v: int)
    requires Sane(b) && x <= u && y <= v
    ensures b.Add(x, y) <= b.Add(u, v)
  {
    assert InOrder(x + y, u + v);
  }

  lemma AddGrows(b: Budget, x: int, y: int)
    requires Sane(b) && IsRound(b, x) && y >= 0
    ensures x <= b.Add(x, y) && IsRound(b, b.Add(x, y))
  {
    assert InOrder(x, x + y);
    RoundIsRound(b, x + y);
  }

  lemma RoundKeepsOrder(b: Budget, x: int, y: int)
    requires Sane(b) && x <= y
    ensures b.round(x) <= b.round(y)
  {
    assert InOrder(x, y);
  }

  lemma RoundIsRound(b: Budget, x: int)
    requires Sane(b) && x >= 0
    ensures IsRound(b, b.round(x))
  {
    assert InOrder(0, x) && InOrder(x, x);
  }

  lemma HoldNotNegative(b: Budget, t: Tally)
    requires Sane(b) && Reachable(b, t)
    ensures t.hold >= 0
  {
    RoundIsRound(b, b.timeouts.settle);
    if t.delay > 0 { AddGrows(b, t.delay, b.Settle()); }
  }

  lemma WaitedReachable(b: Budget, t: Tally)
    requires Sane(b) && Reachable(b, t)
    ensures Reachable(b, Waited(b, t)) && AtMost(t, Waited(b, t))
  {
    RoundIsRound(b, b.timeouts.settle);
    RoundIsRound(b, Supervisor.MAX_BACKOFF);
    AddGrows(b, b.round(Supervisor.MAX_BACKOFF), b.Settle());
    AddGrows(b, t.waits, b.Add(b.round(Supervisor.MAX_BACKOFF), b.Settle()));
  }

  lemma InjectedReachable(b: Budget, t: Tally, f: Fault)
    requires Sane(b) && Reachable(b, t)
    ensures Reachable(b, Injected(b, t, f)) && AtMost(t, Injected(b, t, f))
  {
    RoundIsRound(b, b.timeouts.settle);
    if f.action.delay > 0 {
      RoundIsRound(b, f.action.delay);
      RoundKeepsOrder(b, 1, f.action.delay);
      var delay := Max(t.delay, b.round(f.action.delay));
      if t.delay > 0 {
        AddKeepsOrder(b, t.delay, b.Settle(), delay, b.Settle());
      } else {
        AddGrows(b, delay, b.Settle());
      }
    }
  }

  lemma ActsNotNegative(b: Budget, hold: int, kind: OpType)
    requires Sane(b) && hold >= 0
    ensures Acts(b, hold, kind) >= 0
  {
    RoundIsRound(b, b.timeouts.settle);
    RoundIsRound(b, b.timeouts.delete);
    RoundIsRound(b, RESTART_WITHIN);
    AddGrows(b, Max(b.Delete(), b.Settle()), hold);
    AddGrows(b, b.round(RESTART_WITHIN), b.Settle());
  }

  lemma ActedReachable(b: Budget, t: Tally, op: Op)
    requires Sane(b) && Reachable(b, t) && (op.kind.Inject? ==> op.fault.Some?)
    ensures Reachable(b, Acted(b, t, op)) && AtMost(t, Acted(b, t, op))
  {
    if op.kind.Inject? {
      InjectedReachable(b, t, op.fault.value);
    } else {
      HoldNotNegative(b, t);
      ActsNotNegative(b, t.hold, op.kind);
      AddGrows(b, t.waits, Acts(b, t.hold, op.kind));
    }
  }

  lemma SettledReachable(b: Budget, t: Tally, settles: bool)
    requires Sane(b) && Reachable(b, t)
    ensures Reachable(b, Settled(b, t, settles)) && AtMost(t, Settled(b, t, settles))
  {
    HoldNotNegative(b, t);
    RoundIsRound(b, b.timeouts.settle);
    AddGrows(b, b.Settle(), t.hold);
    AddGrows(b, t.waits, b.Add(b.Settle(), t.hold));
  }

  lemma CountKeepsReachable(b: Budget, t: Tally, op: Op)
    requires Sane(b) && Reachable(b, t) && (op.kind.Inject? ==> op.fault.Some?)
    ensures Reachable(b, Count(b, t, op)) && AtMost(t, Count(b, t, op))
  {
    WaitedReachable(b, t);
    ActedReachable(b, Waited(b, t), op);
    SettledReachable(b, Acted(b, Waited(b, t), op), op.Settles());
  }

  lemma WaitedMonotone(b: Budget, s: Tally, t: Tally)
    requires Sane(b) && Reachable(b, s) && Reachable(b, t) && AtMost(s, t)
    ensures AtMost(Waited(b, s), Waited(b, t))
  {
    var more := b.Add(b.round(Supervisor.MAX_BACKOFF), b.Settle());
    AddKeepsOrder(b, s.waits, more, t.waits, more);
    WaitedReachable(b, t);
  }

  lemma InjectedMonotone(b: Budget, s: Tally, t: Tally, f: Fault, g: Fault)
    requires Sane(b) && Reachable(b, s) && Reachable(b, t) && AtMost(s, t)
    requires f.action.delay <= g.action.delay && ((f.until == NO_TRIGGER) == (g.until == NO_TRIGGER))
    ensures AtMost(Injected(b, s, f), Injected(b, t, g))
  {
    var x, y := Max(s.delay, b.round(f.action.delay)), Max(t.delay, b.round(g.action.delay));
    RoundKeepsOrder(b, f.action.delay, g.action.delay);
    if f.action.delay > 0 {
      AddKeepsOrder(b, x, b.Settle(), y, b.Settle());
    } else if g.action.delay > 0 {
      InjectedReachable(b, t, g);
    }
  }

  lemma ActsMonotone(b: Budget, h: int, k: int, kind: OpType)
    requires Sane(b) && h <= k
    ensures Acts(b, h, kind) <= Acts(b, k, kind)
  {
    AddKeepsOrder(b, Max(b.Delete(), b.Settle()), h, Max(b.Delete(), b.Settle()), k);
  }

  lemma ActedMonotone(b: Budget, s: Tally, t: Tally, x: Op, y: Op)
    requires Sane(b) && Reachable(b, s) && Reachable(b, t) && AtMost(s, t) && Milder(x, y)
    ensures AtMost(Acted(b, s, x), Acted(b, t, y))
  {
    if x.kind.Inject? {
      InjectedMonotone(b, s, t, x.fault.value, y.fault.value);
    } else {
      ActsMonotone(b, s.hold, t.hold, x.kind);
      AddKeepsOrder(b, s.waits, Acts(b, s.hold, x.kind), t.waits, Acts(b, t.hold, x.kind));
    }
  }

  lemma SettledMonotone(b: Budget, s: Tally, t: Tally, settles: bool)
    requires Sane(b) && AtMost(s, t)
    ensures AtMost(Settled(b, s, settles), Settled(b, t, settles))
  {
    AddKeepsOrder(b, b.Settle(), s.hold, b.Settle(), t.hold);
    AddKeepsOrder(b, s.waits, b.Add(b.Settle(), s.hold), t.waits, b.Add(b.Settle(), t.hold));
  }

  lemma CountMonotone(b: Budget, s: Tally, t: Tally, x: Op, y: Op)
    requires Sane(b) && Reachable(b, s) && Reachable(b, t) && AtMost(s, t) && Milder(x, y)
    ensures AtMost(Count(b, s, x), Count(b, t, y))
  {
    WaitedReachable(b, s);
    WaitedReachable(b, t);
    WaitedMonotone(b, s, t);
    ActedMonotone(b, Waited(b, s), Waited(b, t), x, y);
    SettledMonotone(b, Acted(b, Waited(b, s), x), Acted(b, Waited(b, t), y), x.Settles());
  }

  ghost predicate AllMilder(a: seq<Op>, b: seq<Op>) {
    |a| == |b| && Injects(a) && Injects(b) && forall j :: 0 <= j < |a| ==> Milder(a[j], b[j])
  }

  lemma {:induction false} CountAllMonotone(budget: Budget, s: Tally, t: Tally, a: seq<Op>, b: seq<Op>)
    requires Sane(budget) && Reachable(budget, s) && Reachable(budget, t)
    requires AtMost(s, t) && AllMilder(a, b)
    ensures AtMost(CountAll(budget, s, a), CountAll(budget, t, b))
    ensures Reachable(budget, CountAll(budget, s, a)) && Reachable(budget, CountAll(budget, t, b))
    decreases |a|
  {
    if a != [] {
      assert a[0] in a && b[0] in b && Milder(a[0], b[0]);
      CountKeepsReachable(budget, s, a[0]);
      CountKeepsReachable(budget, t, b[0]);
      CountMonotone(budget, s, t, a[0], b[0]);
      CountAllMonotone(budget, Count(budget, s, a[0]), Count(budget, t, b[0]), a[1..], b[1..]);
    }
  }

  lemma StoppedMonotone(b: Budget, w: int, x: int, d: int, e: int, h: int, k: int)
    requires Sane(b) && w <= x && d <= e && h <= k
    ensures Stopped(b, w, d, h) <= Stopped(b, x, e, k)
  {
    AddKeepsOrder(b, w, d, x, e);
    var p, q := b.round(2 * b.Add(w, d)), b.round(2 * b.Add(x, e));
    RoundKeepsOrder(b, 2 * b.Add(w, d), 2 * b.Add(x, e));
    AddKeepsOrder(b, p, b.Settle(), q, b.Settle());
    AddKeepsOrder(b, b.Add(p, b.Settle()), h, b.Add(q, b.Settle()), k);
    AddKeepsOrder(b, b.Add(b.Add(p, b.Settle()), h), Exit(b), b.Add(b.Add(q, b.Settle()), k), Exit(b));
  }

  lemma ExitNotNegative(b: Budget)
    requires Sane(b)
    ensures Exit(b) >= 0
  {
    RoundIsRound(b, b.timeouts.settle);
    RoundIsRound(b, Supervisor.MAX_BACKOFF);
    RoundIsRound(b, 2 * b.Settle());
    AddGrows(b, b.round(Supervisor.MAX_BACKOFF), b.round(2 * b.Settle()));
  }

  /** A run lasts no less once faults stop. */
  lemma StoppedGrows(b: Budget, w: int, d: int, h: int)
    requires Sane(b) && IsRound(b, w) && d >= 0 && h >= 0
    ensures w <= Stopped(b, w, d, h) && IsRound(b, Stopped(b, w, d, h))
  {
    ExitNotNegative(b);
    RoundIsRound(b, b.timeouts.settle);
    AddGrows(b, w, d);
    var p := b.round(2 * b.Add(w, d));
    RoundIsRound(b, 2 * b.Add(w, d));
    RoundKeepsOrder(b, w, 2 * b.Add(w, d));
    AddGrows(b, p, b.Settle());
    AddGrows(b, b.Add(p, b.Settle()), h);
    AddGrows(b, b.Add(b.Add(p, b.Settle()), h), Exit(b));
  }

  lemma {:induction false} DoubledRound(b: Budget, w: int, d: int, h: int, n: nat)
    requires Sane(b) && IsRound(b, w) && d >= 0 && h >= 0
    ensures IsRound(b, Doubled(b, w, d, h, n))
  {
    if n > 0 {
      DoubledRound(b, w, d, h, n - 1);
      StoppedGrows(b, Doubled(b, w, d, h, n - 1), d, h);
    }
  }

  lemma {:induction false} DoubledMonotone(b: Budget, w: int, x: int, d: int, e: int, h: int, k: int, m: nat, n: nat)
    requires Sane(b) && IsRound(b, w) && IsRound(b, x) && w <= x && 0 <= d <= e && 0 <= h <= k && m <= n
    ensures Doubled(b, w, d, h, m) <= Doubled(b, x, e, k, n)
    decreases n
  {
    if m > 0 {
      DoubledMonotone(b, w, x, d, e, h, k, m - 1, n - 1);
      StoppedMonotone(b, Doubled(b, w, d, h, m - 1), Doubled(b, x, e, k, n - 1), d, e, h, k);
    } else if n > 0 {
      DoubledMonotone(b, w, x, d, e, h, k, 0, n - 1);
      DoubledRound(b, x, e, k, n - 1);
      StoppedGrows(b, Doubled(b, x, e, k, n - 1), e, k);
    }
  }

  lemma WithExitsMonotone(b: Budget, s: Tally, t: Tally)
    requires Sane(b) && Reachable(b, s) && Reachable(b, t) && AtMost(s, t)
    ensures IsRound(b, WithExits(b, s)) && IsRound(b, WithExits(b, t)) && WithExits(b, s) <= WithExits(b, t)
  {
    ExitNotNegative(b);
    RoundIsRound(b, s.exits);
    RoundIsRound(b, t.exits);
    var x, y := b.round(s.exits) * Exit(b), b.round(t.exits) * Exit(b);
    RoundKeepsOrder(b, s.exits, t.exits);
    assert 0 <= x <= y;
    RoundIsRound(b, x);
    RoundIsRound(b, y);
    RoundKeepsOrder(b, x, y);
    AddGrows(b, s.waits, b.round(x));
    AddGrows(b, t.waits, b.round(y));
    AddKeepsOrder(b, s.waits, b.round(x), t.waits, b.round(y));
  }

  lemma TotalMonotone(b: Budget, s: Tally, t: Tally)
    requires Sane(b) && Reachable(b, s) && Reachable(b, t) && AtMost(s, t)
    ensures Total(b, s) <= Total(b, t)
  {
    WithExitsMonotone(b, s, t);
    HoldNotNegative(b, s);
    DoubledMonotone(b, WithExits(b, s), WithExits(b, t), s.delay, t.delay, s.hold, t.hold, Stops(s), Stops(t));
    var x, y := Doubled(b, WithExits(b, s), s.delay, s.hold, Stops(s)), Doubled(b, WithExits(b, t), t.delay, t.hold, Stops(t));
    AddKeepsOrder(b, x, Teardown(b), y, Teardown(b));
    AddKeepsOrder(b, b.Add(x, Teardown(b)), b.round(STOP_BUDGET), b.Add(y, Teardown(b)), b.round(STOP_BUDGET));
  }

  lemma {:induction false} CountAllFrom(budget: Budget, t: Tally, a: seq<Op>, b: seq<Op>)
    requires Injects(a) && Injects(b) && Injects(a + b)
    ensures CountAll(budget, t, a + b) == CountAll(budget, CountAll(budget, t, a), b)
    decreases |a|
  {
    if a == [] {
      assert a + b == b;
    } else {
      assert (a + b)[1..] == a[1..] + b && (a + b)[0] == a[0] && a[0] in a;
      assert Injects(a[1..] + b);
      CountAllFrom(budget, Count(budget, t, a[0]), a[1..], b);
    }
  }

  lemma ValidInjects(ops: seq<Op>)
    requires ValidOps(ops)
    ensures Injects(ops)
  {
    forall op | op in ops && op.kind.Inject?
      ensures op.fault.Some?
    {
      var i :| 0 <= i < |ops| && ops[i] == op;
      assert ops[i].Valid(i);
    }
  }

  lemma WithoutInjects(ops: seq<Op>, i: nat)
    requires Injects(ops) && i < |ops|
    ensures Injects(Without(ops, i))
  {
    forall op | op in Without(ops, i) && op.kind.Inject?
      ensures op.fault.Some?
    {
      var j :| 0 <= j < |Without(ops, i)| && Without(ops, i)[j] == op;
      assert ops[Was(j, i)] in ops;
    }
  }

  lemma StartReachable(b: Budget)
    requires Sane(b)
    ensures Reachable(b, Start(b))
  {
    RoundIsRound(b, NAMESPACE_DEFAULTS_WITHIN);
    RoundIsRound(b, 0);
  }

  lemma ShorterTally(b: Budget, front: seq<Op>, op: Op, back: seq<Op>, f: seq<Op>, k: seq<Op>)
    requires Sane(b) && (op.kind.Inject? ==> op.fault.Some?) && AllMilder(f, front) && AllMilder(k, back)
    ensures Injects(f + k) && Injects(front + [op] + back)
    ensures var s, t := CountAll(b, Start(b), f + k), CountAll(b, Start(b), front + [op] + back);
            Reachable(b, s) && Reachable(b, t) && AtMost(s, t)
  {
    StartReachable(b);
    CountAllFrom(b, Start(b), f, k);
    CountAllFrom(b, Start(b), front, [op]);
    CountAllFrom(b, Start(b), front + [op], back);
    CountAllMonotone(b, Start(b), Start(b), f, front);
    var s, t := CountAll(b, Start(b), f), CountAll(b, Start(b), front);
    CountKeepsReachable(b, t, op);
    assert CountAll(b, t, [op]) == Count(b, t, op);
    CountAllMonotone(b, s, Count(b, t, op), k, back);
  }

  /** Removing an op never raises the bound. */
  lemma RemovalNeverRaises(budget: Budget, ops: seq<Op>, i: nat)
    requires Sane(budget) && Injects(ops) && i < |ops|
    ensures Injects(Without(ops, i))
    ensures BoundOf(budget, Without(ops, i)) <= BoundOf(budget, ops)
  {
    WithoutInjects(ops, i);
    var shorter := Without(ops, i);
    var front, op, back := ops[..i], ops[i], ops[i + 1..];
    assert op in ops;
    assert AllMilder(shorter[..i], front) by { MovedMilder(ops, i); }
    assert AllMilder(shorter[i..], back) by { MovedMilder(ops, i); }
    ShorterTally(budget, front, op, back, shorter[..i], shorter[i..]);
    assert shorter == shorter[..i] + shorter[i..] && ops == front + [op] + back;
    TotalMonotone(budget, CountAll(budget, Start(budget), shorter), CountAll(budget, Start(budget), ops));
  }

  /** Re-targeting an op costs nothing. */
  lemma MovedMilder(ops: seq<Op>, i: nat)
    requires Injects(ops) && i < |ops|
    ensures forall j :: 0 <= j < |ops| - 1 ==> Milder(Without(ops, i)[j], ops[Was(j, i)])
  {
    forall j | 0 <= j < |ops| - 1
      ensures Milder(Without(ops, i)[j], ops[Was(j, i)])
    {
      assert ops[Was(j, i)] in ops;
    }
  }

  /** Putting a milder op in an op's place never raises the bound. */
  lemma MilderNeverRaises(budget: Budget, ops: seq<Op>, i: nat, op: Op)
    requires Sane(budget) && Injects(ops) && i < |ops| && Milder(op, ops[i])
    ensures Injects(ops[i := op])
    ensures BoundOf(budget, ops[i := op]) <= BoundOf(budget, ops)
  {
    forall x | x in ops[i := op] && x.kind.Inject?
      ensures x.fault.Some?
    {
      assert x in ops || x == op;
    }
    forall j | 0 <= j < |ops|
      ensures Milder(ops[i := op][j], ops[j])
    {
      assert ops[j] in ops;
    }
    StartReachable(budget);
    CountAllMonotone(budget, Start(budget), Start(budget), ops[i := op], ops);
    TotalMonotone(budget, CountAll(budget, Start(budget), ops[i := op]), CountAll(budget, Start(budget), ops));
  }
}
