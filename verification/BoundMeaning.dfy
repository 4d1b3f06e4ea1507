/** The bound of a run in closed form, where sums are exact. */
module BoundMeaning {
  import opened Instants
  import opened Options
  import opened Sequences
  import opened Bound
  import Supervisor

  ghost predicate Exact(b: Budget) { forall x :: b.round(x) == x }

  // What the first n ops allow, op by op.

  function FaultsIn(ops: seq<Op>, n: nat): nat
    requires n <= |ops|
  {
    if n == 0 then 0 else FaultsIn(ops, n - 1) + if ops[n - 1].kind.Inject? then 1 else 0
  }

  /** The longest that a fault so far delays a request. */
  function LongestDelay(ops: seq<Op>, n: nat): Duration
    requires n <= |ops| && Injects(ops)
  {
    if n == 0 then 0
    else
      var longest := LongestDelay(ops, n - 1);
      assert ops[n - 1] in ops;
      if ops[n - 1].kind.Inject? && ops[n - 1].fault.value.action.delay > longest
      then ops[n - 1].fault.value.action.delay else longest
  }

  /** A wait whose time runs out may stay open for a delay and a settle timeout. */
  function HoldAfter(settle: Duration, ops: seq<Op>, n: nat): Duration
    requires n <= |ops| && Injects(ops)
  {
    if LongestDelay(ops, n) > 0 then LongestDelay(ops, n) + settle else 0
  }

  /** What op i may wait for: a restart of the target if a fault came before it, what
      its type waits for, and a settle wait. */
  function OwnWaits(timeouts: Timeouts, ops: seq<Op>, i: nat): Duration
    requires i < |ops| && Injects(ops)
  {
    (if FaultsIn(ops, i) > 0 then 300 * SECOND + timeouts.settle else 0)
    + (match ops[i].kind
       case Delete => timeouts.delete
       case DeleteFixture => timeouts.delete
       case Recreate => (if timeouts.delete >= timeouts.settle then timeouts.delete else timeouts.settle) + HoldAfter(timeouts.settle, ops, i)
       case Restart => 5 * SECOND + timeouts.settle
       case _ => 0)
    + (if ops[i].Settles() then timeouts.settle + HoldAfter(timeouts.settle, ops, i + 1) else 0)
  }

  function WaitsOf(timeouts: Timeouts, ops: seq<Op>, n: nat): Duration
    requires n <= |ops| && Injects(ops)
  {
    if n == 0 then 0 else WaitsOf(timeouts, ops, n - 1) + OwnWaits(timeouts, ops, n - 1)
  }

  /** One exit for each op from the first fault on. */
  function ExitsOf(ops: seq<Op>, n: nat): nat
    requires n <= |ops|
  {
    if n == 0 then 0 else ExitsOf(ops, n - 1) + if FaultsIn(ops, n) > 0 then 1 else 0
  }

  predicate Untriggered(op: Op) {
    op.kind.Inject? && op.fault.Some? && op.fault.value.until == Trigger(None, 0, 0)
  }

  /** Faults with a trigger stop one by one. */
  function TriggeredOf(ops: seq<Op>, n: nat): nat
    requires n <= |ops|
  {
    if n == 0 then 0 else TriggeredOf(ops, n - 1) + if ops[n - 1].kind.Inject? && !Untriggered(ops[n - 1]) then 1 else 0
  }

  /** Those without stop together. */
  function StopsOf(ops: seq<Op>): nat {
    TriggeredOf(ops, |ops|) + if exists op :: op in ops && Untriggered(op) then 1 else 0
  }

  /** What the tally of the first n ops holds. */
  ghost predicate Tells(timeouts: Timeouts, ops: seq<Op>, n: nat, t: Tally)
    requires n <= |ops| && Injects(ops)
  {
    && t.waits == 30 * SECOND + WaitsOf(timeouts, ops, n)
    && t.faults == FaultsIn(ops, n) && t.stops == TriggeredOf(ops, n) && t.exits == ExitsOf(ops, n)
    && (t.untriggered <==> exists i :: 0 <= i < n && Untriggered(ops[i]))
    && t.delay == LongestDelay(ops, n) && t.hold == HoldAfter(timeouts.settle, ops, n)
  }

  lemma ActsExactly(b: Budget, hold: int, kind: OpType)
    requires Exact(b)
    ensures Acts(b, hold, kind) ==
            match kind
            case Delete => b.timeouts.delete
            case DeleteFixture => b.timeouts.delete
            case Recreate => (if b.timeouts.delete >= b.timeouts.settle then b.timeouts.delete else b.timeouts.settle) + hold
            case Restart => 5 * SECOND + b.timeouts.settle
            case _ => 0
  {
  }

  lemma WaitedExactly(b: Budget, t: Tally)
    requires Exact(b)
    ensures Waited(b, t) == t.(waits := t.waits + if t.faults > 0 then 300 * SECOND + b.timeouts.settle else 0)
  {
  }

  lemma InjectedExactly(b: Budget, t: Tally, f: Fault)
    requires Exact(b)
    ensures var more := f.action.delay > 0;
            var longest := if more && f.action.delay > t.delay then f.action.delay else t.delay;
            Injected(b, t, f) ==
              t.(delay := longest, hold := if more then longest + b.timeouts.settle else t.hold, faults := t.faults + 1,
                 untriggered := t.untriggered || f.until == Trigger(None, 0, 0),
                 stops := if f.until == Trigger(None, 0, 0) then t.stops else t.stops + 1)
  {
  }

  lemma SettledExactly(b: Budget, t: Tally, settles: bool)
    requires Exact(b)
    ensures Settled(b, t, settles) ==
            t.(exits := if t.faults > 0 then t.exits + 1 else t.exits,
               waits := t.waits + if settles then b.timeouts.settle + t.hold else 0)
  {
  }

  lemma ActedExactly(b: Budget, t: Tally, op: Op)
    requires Exact(b) && !op.kind.Inject?
    ensures Acted(b, t, op) == t.(waits := t.waits + Acts(b, t.hold, op.kind))
  {
  }

  lemma CountTells(b: Budget, ops: seq<Op>, n: nat, t: Tally)
    requires Exact(b) && Injects(ops) && n < |ops| && Tells(b.timeouts, ops, n, t)
    ensures ops[n] in ops && Tells(b.timeouts, ops, n + 1, Count(b, t, ops[n]))
  {
    var op := ops[n];
    assert op in ops;
    NoDelayBelow(ops, n);
    var waited := Waited(b, t);
    WaitedExactly(b, t);
    var acted := Acted(b, waited, op);
    if op.kind.Inject? {
      InjectedExactly(b, waited, op.fault.value);
    } else {
      ActedExactly(b, waited, op);
      ActsExactly(b, waited.hold, op.kind);
    }
    SettledExactly(b, acted, op.Settles());
  }

  lemma {:induction false} NoDelayBelow(ops: seq<Op>, n: nat)
    requires n <= |ops| && Injects(ops)
    ensures LongestDelay(ops, n) >= 0
  {
    if n > 0 { NoDelayBelow(ops, n - 1); }
  }

  lemma {:induction false} TallyTells(b: Budget, ops: seq<Op>, n: nat)
    requires Exact(b) && Injects(ops) && n <= |ops|
    ensures Injects(ops[..n]) && Tells(b.timeouts, ops, n, CountAll(b, Start(b), ops[..n]))
  {
    if n > 0 {
      TallyTells(b, ops, n - 1);
      var front := ops[..n - 1];
      assert ops[..n] == front + [ops[n - 1]] && ops[n - 1] in ops;
      CountAllFrom(b, Start(b), front, [ops[n - 1]]);
      assert CountAll(b, CountAll(b, Start(b), front), [ops[n - 1]]) == Count(b, CountAll(b, Start(b), front), ops[n - 1]);
      CountTells(b, ops, n - 1, CountAll(b, Start(b), front));
    } else {
      assert ops[..0] == [];
    }
  }

  lemma {:induction false} DoublingTells(b: Budget, w: int, d: int, h: int, n: nat)
    requires Exact(b)
    ensures Doubled(b, w, d, h, n) ==
            Supervisor.Power(n) * w + (Supervisor.Power(n) - 1) * (2 * d + b.timeouts.settle + h + 300 * SECOND + 2 * b.timeouts.settle)
  {
    if n > 0 {
      DoublingTells(b, w, d, h, n - 1);
      var c := 2 * d + b.timeouts.settle + h + 300 * SECOND + 2 * b.timeouts.settle;
      var p := Supervisor.Power(n - 1);
      StoppedExactly(b, Doubled(b, w, d, h, n - 1), d, h);
      DoubleOnce(p, w, c);
    }
  }

  lemma StoppedExactly(b: Budget, w: int, d: int, h: int)
    requires Exact(b)
    ensures Stopped(b, w, d, h) == 2 * w + (2 * d + b.timeouts.settle + h + 300 * SECOND + 2 * b.timeouts.settle)
  {
    assert Exit(b) == 300 * SECOND + 2 * b.timeouts.settle;
  }

  lemma DoubleOnce(p: int, w: int, c: int)
    ensures 2 * (p * w + (p - 1) * c) + c == (2 * p) * w + (2 * p - 1) * c
  {
  }

  /** What a run waits before its faults stop. */
  function BeforeStops(timeouts: Timeouts, ops: seq<Op>): Duration
    requires Injects(ops)
  {
    30 * SECOND + WaitsOf(timeouts, ops, |ops|) + ExitsOf(ops, |ops|) * (300 * SECOND + 2 * timeouts.settle)
  }

  lemma WithExitsExactly(b: Budget, t: Tally)
    requires Exact(b)
    ensures WithExits(b, t) == t.waits + t.exits * (300 * SECOND + 2 * b.timeouts.settle)
  {
    assert Exit(b) == 300 * SECOND + 2 * b.timeouts.settle;
  }

  /** Stops double what the run waits before them, once each, and add twice the longest
      delay, a settle wait, a hold and an exit; the teardown and what stopping takes
      come on top. */
  function ClosedForm(t: Timeouts, waits: Duration, delay: Duration, hold: Duration, stops: nat): Duration {
    Supervisor.Power(stops) * waits
    + (Supervisor.Power(stops) - 1) * (2 * delay + t.settle + hold + 300 * SECOND + 2 * t.settle)
    + (t.stable + t.delete + 30 * SECOND) + 40 * SECOND
  }

  lemma TotalCloses(b: Budget, t: Tally, w: int)
    requires Exact(b) && WithExits(b, t) == w
    ensures Total(b, t) == ClosedForm(b.timeouts, w, t.delay, t.hold, Stops(t))
  {
    DoublingTells(b, w, t.delay, t.hold, Stops(t));
  }

  lemma StopsTell(timeouts: Timeouts, ops: seq<Op>, t: Tally)
    requires Injects(ops) && Tells(timeouts, ops, |ops|, t)
    ensures Stops(t) == StopsOf(ops)
  {
    if op :| op in ops && Untriggered(op) {
      var i :| 0 <= i < |ops| && ops[i] == op;
    }
  }

  lemma TellsCloses(b: Budget, ops: seq<Op>, t: Tally)
    requires Exact(b) && Injects(ops) && Tells(b.timeouts, ops, |ops|, t)
    ensures Total(b, t) ==
            ClosedForm(b.timeouts, BeforeStops(b.timeouts, ops), LongestDelay(ops, |ops|),
                       HoldAfter(b.timeouts.settle, ops, |ops|), StopsOf(ops))
  {
    StopsTell(b.timeouts, ops, t);
    WithExitsExactly(b, t);
    BeforeStopsAre(b.timeouts, ops, t);
    TotalCloses(b, t, WithExits(b, t));
  }

  lemma BeforeStopsAre(timeouts: Timeouts, ops: seq<Op>, t: Tally)
    requires Injects(ops) && Tells(timeouts, ops, |ops|, t)
    ensures t.waits + t.exits * (300 * SECOND + 2 * timeouts.settle) == BeforeStops(timeouts, ops)
  {
  }

  /** With exact sums, the bound is the closed form of what the ops wait for, what
      faults delay and how many stop. */
  lemma BoundMeans(b: Budget, ops: seq<Op>)
    requires Exact(b) && Injects(ops)
    ensures BoundOf(b, ops) ==
            ClosedForm(b.timeouts, BeforeStops(b.timeouts, ops), LongestDelay(ops, |ops|),
                       HoldAfter(b.timeouts.settle, ops, |ops|), StopsOf(ops))
  {
    TallyTells(b, ops, |ops|);
    assert ops[..|ops|] == ops;
    TellsCloses(b, ops, CountAll(b, Start(b), ops));
  }
}
