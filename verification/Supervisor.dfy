/** The supervisor of the target's process: callers that start, stop and restart
    it, reapers that see it exit, and timers that start it again, all under one
    lock.

    Each locked section is one step. A process may exit at any time; Stop and
    Restart succeed in ending a process exactly when it has exited by the time they
    give up on it and they see so, rather than a timer of theirs that fired as well.
    Whether they do, whether an exec succeeds and whether a context has ended is the
    environment's choice.
 */
module Supervisor {
  import opened Instants
  import opened Options

  const DEFAULT_BACKOFF: Duration := 10 * SECOND
  const MAX_BACKOFF: Duration := 300 * SECOND

  /** `done` once it has exited, `reaped` once the launcher has seen that. */
  datatype Process = Process(done: bool, reaped: bool)

  /** Every process ever started is in `started`, oldest first. `timers` holds, for
      each pending timer, the process whose exit set it. `failed` names the process
      whose exit was the last. */
  datatype State = State(
    started: seq<Process>, running: Option<nat>, supervised: bool, ended: bool, failed: Option<nat>,
    timers: multiset<nat>, delays: seq<Duration>)

  datatype Step =
    | Start(canceled: bool, execs: bool)
    | Supervise(ended: bool)
    | EndSupervision
    | Exit(p: nat)
    | Reap(p: nat)
    | Fire(p: nat, execs: bool)
    | Stop(seen: bool)
    | Restart(seen: bool, canceled: bool, execs: bool)

  const INIT := State([], None, false, false, None, multiset{}, [])

  function Power(n: nat): nat {
    if n == 0 then 1 else 2 * Power(n - 1)
  }

  /** What the n-th restart waits, for a base wait b. */
  function Wait(b: Duration, n: nat): Duration {
    var base := if b <= 0 then DEFAULT_BACKOFF else b;
    if n == 0 then 0 else if base * Power(n - 1) < MAX_BACKOFF then base * Power(n - 1) else MAX_BACKOFF
  }

  // What each step does.

  function Started(s: State): State {
    s.(started := s.started + [Process(false, false)], running := Some(|s.started|))
  }

  function RestartLater(b: Duration, s: State, p: nat): State {
    if s.ended then s.(failed := Some(p))
    else s.(delays := s.delays + [Wait(b, |s.delays|)], timers := s.timers + multiset{p})
  }

  predicate Enabled(s: State, step: Step) {
    match step
    case Exit(p) => p < |s.started| && !s.started[p].done
    case Reap(p) => p < |s.started| && s.started[p].done && !s.started[p].reaped
    case Fire(p, _) => p in s.timers
    case _ => true
  }

  function Next(b: Duration, s: State, step: Step): State
    requires Enabled(s, step) && (s.running.Some? ==> s.running.value < |s.started|)
  {
    match step
    case Start(canceled, execs) => if s.running.None? && !canceled && execs then Started(s) else s
    case Supervise(ended) =>
      var t := s.(supervised := true, ended := ended);
      if s.running.Some? && s.started[s.running.value].reaped then RestartLater(b, t, s.running.value) else t
    case EndSupervision => s.(ended := true)
    case Exit(p) => s.(started := s.started[p := s.started[p].(done := true)])
    case Reap(p) =>
      var t := s.(started := s.started[p := s.started[p].(reaped := true)]);
      if s.supervised && s.running == Some(p) then RestartLater(b, t, p) else t
    case Fire(p, execs) =>
      var t := s.(timers := s.timers - multiset{p});
      if s.running != Some(p) then t
      else if s.ended || !execs then t.(failed := Some(p))
      else Started(t)
    case Stop(seen) =>
      var t := s.(supervised := false);
      if s.running.Some? && s.started[s.running.value].done && seen then t.(running := None) else t
    case Restart(seen, canceled, execs) =>
      if s.running.None? || !s.started[s.running.value].done || !seen then s
      else
        var t := s.(running := None);
        if canceled || !execs then t else Started(t)
  }

  // What every step keeps.

  /** Only the process started last can be running, and every other has exited. A
      timer is set only for a process that has been seen to exit. */
  ghost predicate Single(s: State) {
    && (s.running.Some? ==> s.running.value + 1 == |s.started|)
    && (forall p :: 0 <= p < |s.started| && !s.started[p].done ==> s.running == Some(p))
    && (forall p :: 0 <= p < |s.started| && s.started[p].reaped ==> s.started[p].done)
    && (forall p :: p in s.timers ==> p < |s.started| && s.started[p].reaped)
  }

  /** While supervision lasts, a target seen to exit has a timer that will start it
      again, or the launcher has said it will not. */
  ghost predicate Watched(s: State) {
    s.supervised && s.running.Some? && s.running.value < |s.started| && s.started[s.running.value].reaped
    ==> s.running.value in s.timers || s.failed == s.running
  }

  ghost predicate Paced(b: Duration, s: State) {
    forall i :: 0 <= i < |s.delays| ==> s.delays[i] == Wait(b, i)
  }

  ghost predicate Inv(b: Duration, s: State) {
    Single(s) && Watched(s) && Paced(b, s)
  }

  lemma StartedIsSingle(s: State)
    requires Single(s) && (s.running.Some? ==> s.started[s.running.value].done)
    ensures Single(Started(s))
  {
  }

  lemma RestartLaterIsSingle(b: Duration, s: State, p: nat)
    requires Single(s) && p < |s.started| && s.started[p].reaped
    ensures Single(RestartLater(b, s, p))
  {
  }

  lemma ReapedIsSingle(s: State, p: nat)
    requires Single(s) && Enabled(s, Reap(p))
    ensures Single(s.(started := s.started[p := s.started[p].(reaped := true)]))
  {
  }

  lemma FiredIsSingle(s: State, p: nat)
    requires Single(s)
    ensures Single(s.(timers := s.timers - multiset{p}))
  {
    assert forall q :: q in s.timers - multiset{p} ==> q in s.timers;
  }

  lemma StoppedIsSingle(s: State)
    requires Single(s) && s.running.Some? && s.started[s.running.value].done
    ensures Single(s.(running := None))
  {
  }

  lemma ExitedIsSingle(s: State, p: nat)
    requires Single(s) && p < |s.started|
    ensures Single(s.(started := s.started[p := s.started[p].(done := true)]))
  {
  }

  lemma SupervisedIsSingle(b: Duration, s: State, ended: bool)
    requires Single(s)
    ensures Single(Next(b, s, Supervise(ended)))
  {
    if s.running.Some? && s.started[s.running.value].reaped {
      RestartLaterIsSingle(b, s.(supervised := true, ended := ended), s.running.value);
    }
  }

  lemma ReapIsSingle(b: Duration, s: State, p: nat)
    requires Single(s) && Enabled(s, Reap(p))
    ensures Single(Next(b, s, Reap(p)))
  {
    ReapedIsSingle(s, p);
    RestartLaterIsSingle(b, s.(started := s.started[p := s.started[p].(reaped := true)]), p);
  }

  lemma FireIsSingle(b: Duration, s: State, p: nat, execs: bool)
    requires Single(s) && Enabled(s, Fire(p, execs))
    ensures Single(Next(b, s, Fire(p, execs)))
  {
    FiredIsSingle(s, p);
    if s.running == Some(p) {
      StartedIsSingle(s.(timers := s.timers - multiset{p}));
    }
  }

  lemma NextIsSingle(b: Duration, s: State, step: Step)
    requires Single(s) && Enabled(s, step)
    ensures Single(Next(b, s, step))
  {
    match step
    case Start(_, _) => if s.running.None? { StartedIsSingle(s); }
    case Supervise(ended) => SupervisedIsSingle(b, s, ended);
    case Reap(p) => ReapIsSingle(b, s, p);
    case Fire(p, execs) => FireIsSingle(b, s, p, execs);
    case Restart(_, _, _) =>
      if s.running.Some? && s.started[s.running.value].done {
        StoppedIsSingle(s);
        StartedIsSingle(s.(running := None));
      }
    case Exit(p) => ExitedIsSingle(s, p);
    case Stop(_) => if s.running.Some? && s.started[s.running.value].done { StoppedIsSingle(s.(supervised := false)); }
    case EndSupervision =>
  }

  lemma NextIsWatched(b: Duration, s: State, step: Step)
    requires Single(s) && Watched(s) && Enabled(s, step)
    ensures Watched(Next(b, s, step))
  {
    match step
    case Fire(p, _) => assert forall q :: q != p ==> (s.timers - multiset{p})[q] == s.timers[q];
    case _ =>
  }

  lemma NextIsPaced(b: Duration, s: State, step: Step)
    requires Single(s) && Paced(b, s) && Enabled(s, step)
    ensures Paced(b, Next(b, s, step))
  {
  }

  lemma NextKeepsInv(b: Duration, s: State, step: Step)
    requires Inv(b, s) && Enabled(s, step)
    ensures Inv(b, Next(b, s, step))
  {
    NextIsSingle(b, s, step);
    NextIsWatched(b, s, step);
    NextIsPaced(b, s, step);
  }

  ghost predicate IsRun(b: Duration, s: State, steps: seq<Step>)
    requires Inv(b, s)
    decreases |steps|
  {
    steps == [] || (Enabled(s, steps[0]) && (NextKeepsInv(b, s, steps[0]); IsRun(b, Next(b, s, steps[0]), steps[1..])))
  }

  ghost function After(b: Duration, s: State, steps: seq<Step>): State
    requires Inv(b, s) && IsRun(b, s, steps)
    decreases |steps|
  {
    if steps == [] then s else NextKeepsInv(b, s, steps[0]); After(b, Next(b, s, steps[0]), steps[1..])
  }

  lemma {:induction false} RunKeepsInv(b: Duration, s: State, steps: seq<Step>)
    requires Inv(b, s) && IsRun(b, s, steps)
    ensures Inv(b, After(b, s, steps))
    decreases |steps|
  {
    if steps != [] {
      NextKeepsInv(b, s, steps[0]);
      RunKeepsInv(b, Next(b, s, steps[0]), steps[1..]);
    }
  }

  /** In every run at most one process that was started has not exited. */
  lemma OneProcessAtATime(b: Duration, steps: seq<Step>, p: nat, q: nat)
    requires IsRun(b, INIT, steps)
    requires p < |After(b, INIT, steps).started| && !After(b, INIT, steps).started[p].done
    requires q < |After(b, INIT, steps).started| && !After(b, INIT, steps).started[q].done
    ensures p == q
  {
    RunKeepsInv(b, INIT, steps);
  }

  /** A process that was replaced or given up is never the running one again, so its
      timer starts nothing whenever it fires. */
  lemma {:induction false} ReplacedStaysReplaced(b: Duration, s: State, steps: seq<Step>, p: nat)
    requires Inv(b, s) && IsRun(b, s, steps) && p < |s.started| && s.running != Some(p)
    ensures After(b, s, steps).running != Some(p) && Inv(b, After(b, s, steps))
    ensures var t := After(b, s, steps);
            p in t.timers ==> forall execs :: Next(b, t, Fire(p, execs)) == t.(timers := t.timers - multiset{p})
    decreases |steps|
  {
    if steps != [] {
      NextKeepsInv(b, s, steps[0]);
      ReplacedStaysReplaced(b, Next(b, s, steps[0]), steps[1..], p);
    }
  }

  /** Nothing supervises the target, and no timer can start it. */
  ghost predicate AtRest(s: State) {
    !s.supervised && (s.running.Some? ==> s.running.value !in s.timers)
  }

  /** Stop brings rest exactly where it sees the exit it waits for, or no timer for
      the running process is pending. */
  lemma StopBringsRest(b: Duration, s: State, seen: bool)
    requires Inv(b, s)
    ensures AtRest(Next(b, s, Stop(seen))) <==> seen || s.running.None? || s.running.value !in s.timers
  {
  }

  lemma RunOn(b: Duration, s: State, step: Step, rest: seq<Step>)
    requires Inv(b, s) && Enabled(s, step) && Inv(b, Next(b, s, step)) && IsRun(b, Next(b, s, step), rest)
    ensures IsRun(b, s, [step] + rest) && After(b, s, [step] + rest) == After(b, Next(b, s, step), rest)
  {
    assert ([step] + rest)[1..] == rest;
  }

  const UP := State([Process(false, false)], Some(0), false, false, None, multiset{}, [])
  const WATCHED := UP.(supervised := true)
  const GONE := WATCHED.(started := [Process(true, false)])
  const WAITING := State([Process(true, true)], Some(0), true, false, None, multiset{0}, [0])
  const STOPPED := WAITING.(supervised := false)
  const AGAIN := State([Process(true, true), Process(false, false)], Some(1), false, false, None, multiset{}, [0])

  lemma MissedSteps(b: Duration)
    ensures Next(b, INIT, Start(false, true)) == UP && Next(b, UP, Supervise(false)) == WATCHED
    ensures Next(b, WATCHED, Exit(0)) == GONE && Next(b, GONE, Reap(0)) == WAITING
    ensures Next(b, WAITING, Stop(false)) == STOPPED && Next(b, STOPPED, Fire(0, true)) == AGAIN
  {
  }

  lemma MissedStates(b: Duration)
    ensures Inv(b, UP) && Inv(b, WATCHED) && Inv(b, GONE) && Inv(b, WAITING) && Inv(b, STOPPED) && Inv(b, AGAIN)
  {
  }

  /** A Stop that misses the exit, and the timer that was pending. */
  const MISSED: seq<Step> := [Stop(false)] + ([Fire(0, true)] + [])

  lemma MissedFrom(b: Duration)
    ensures Inv(b, WAITING) && IsRun(b, WAITING, MISSED) && After(b, WAITING, MISSED) == AGAIN
  {
    MissedSteps(b);
    MissedStates(b);
    RunOn(b, STOPPED, Fire(0, true), []);
    RunOn(b, WAITING, Stop(false), [Fire(0, true)] + []);
  }

  /** A supervised target exits on its own before that. */
  const EXITED: seq<Step> := [Start(false, true)] + ([Supervise(false)] + ([Exit(0)] + ([Reap(0)] + MISSED)))

  /** In this run the timer that Stop left pending starts the target again. */
  lemma MissedExitRestarts(b: Duration)
    ensures IsRun(b, INIT, EXITED) && After(b, INIT, EXITED) == AGAIN && |AGAIN.started| == 2
  {
    MissedSteps(b);
    MissedStates(b);
    MissedFrom(b);
    RunOn(b, GONE, Reap(0), MISSED);
    RunOn(b, WATCHED, Exit(0), [Reap(0)] + MISSED);
    RunOn(b, UP, Supervise(false), [Exit(0)] + ([Reap(0)] + MISSED));
    RunOn(b, INIT, Start(false, true), [Supervise(false)] + ([Exit(0)] + ([Reap(0)] + MISSED)));
  }

  /** What a step may start while the launcher is at rest. */
  predicate StartsAnew(s: State, step: Step) {
    step.Start? || step.Supervise? || (step.Restart? && s.running.Some?)
  }

  ghost predicate NoneAnew(b: Duration, s: State, steps: seq<Step>)
    requires Inv(b, s) && IsRun(b, s, steps)
    decreases |steps|
  {
    || steps == []
    || (!StartsAnew(s, steps[0]) && (NextKeepsInv(b, s, steps[0]); NoneAnew(b, Next(b, s, steps[0]), steps[1..])))
  }

  /** After a Stop that brought rest, whether or not it could end the process, nothing
      starts in any run until a caller starts the target, supervises it, or restarts
      one that Stop failed to end. */
  lemma {:induction false} NothingStartsAtRest(b: Duration, s: State, steps: seq<Step>)
    requires Inv(b, s) && AtRest(s) && IsRun(b, s, steps) && NoneAnew(b, s, steps)
    ensures |After(b, s, steps).started| == |s.started|
    decreases |steps|
  {
    if steps != [] {
      NextKeepsInv(b, s, steps[0]);
      RestLasts(b, s, steps[0]);
      NothingStartsAtRest(b, Next(b, s, steps[0]), steps[1..]);
    }
  }

  lemma RestLasts(b: Duration, s: State, step: Step)
    requires Inv(b, s) && AtRest(s) && Enabled(s, step) && !StartsAnew(s, step)
    ensures AtRest(Next(b, s, step)) && |Next(b, s, step).started| == |s.started|
  {
  }

  ghost predicate NoStart(steps: seq<Step>) {
    forall i :: 0 <= i < |steps| ==> !steps[i].Start?
  }

  /** After a Stop that ended the process, only Start starts another, even where
      supervision and restarts are asked for. */
  lemma {:induction false} NothingStartsAfterStop(b: Duration, s: State, steps: seq<Step>)
    requires Inv(b, s) && s.running.None? && IsRun(b, s, steps) && NoStart(steps)
    ensures |After(b, s, steps).started| == |s.started| && After(b, s, steps).running.None?
    decreases |steps|
  {
    if steps != [] {
      NextKeepsInv(b, s, steps[0]);
      assert !steps[0].Start?;
      assert forall i :: 0 <= i < |steps[1..]| ==> steps[1..][i] == steps[i + 1];
      NothingStartsAfterStop(b, Next(b, s, steps[0]), steps[1..]);
    }
  }

  /** Steps by which a caller asks for a process or for supervision. */
  predicate Asks(step: Step) {
    step.Start? || step.Supervise? || step.Restart?
  }

  /** Once supervision has ended, no exit and no timer starts the target again. */
  lemma {:induction false} NothingStartsOnceEnded(b: Duration, s: State, steps: seq<Step>)
    requires Inv(b, s) && s.ended && IsRun(b, s, steps)
    requires forall i :: 0 <= i < |steps| ==> !Asks(steps[i])
    ensures |After(b, s, steps).started| == |s.started|
    decreases |steps|
  {
    if steps != [] {
      NextKeepsInv(b, s, steps[0]);
      assert !Asks(steps[0]);
      assert forall i :: 0 <= i < |steps[1..]| ==> steps[1..][i] == steps[i + 1];
      NothingStartsOnceEnded(b, Next(b, s, steps[0]), steps[1..]);
    }
  }

  /** In every run the waits before restarts never decrease and never exceed the
      cap, and the first is none at all. */
  lemma WaitsNeverDecrease(b: Duration, steps: seq<Step>, i: nat, j: nat)
    requires IsRun(b, INIT, steps) && i <= j < |After(b, INIT, steps).delays|
    ensures var delays := After(b, INIT, steps).delays; 0 <= delays[i] <= delays[j] <= MAX_BACKOFF && delays[0] == 0
  {
    RunKeepsInv(b, INIT, steps);
    WaitGrows(b, i, j);
  }

  lemma {:induction false} PowerGrows(i: nat, j: nat)
    requires i <= j
    ensures 1 <= Power(i) <= Power(j)
    decreases j
  {
    if j > i {
      PowerGrows(i, j - 1);
    } else if j > 0 {
      PowerGrows(i - 1, j - 1);
    }
  }

  lemma ScaledGrows(base: Duration, i: nat, j: nat)
    requires base > 0 && i <= j
    ensures base <= base * Power(i) <= base * Power(j)
  {
    PowerGrows(i, j);
  }

  lemma WaitGrows(b: Duration, i: nat, j: nat)
    requires i <= j
    ensures 0 <= Wait(b, i) <= Wait(b, j) <= MAX_BACKOFF
  {
    var base := if b <= 0 then DEFAULT_BACKOFF else b;
    if i > 0 {
      ScaledGrows(base, i - 1, j - 1);
    } else if j > 0 {
      ScaledGrows(base, 0, j - 1);
    }
  }

  /** The first restart waits for nothing, the second for the base, and each later one
      twice as long as the one before, up to the cap. */
  lemma WaitDoubles(b: Duration, n: nat)
    ensures Wait(b, 0) == 0
    ensures var base := if b <= 0 then 10 * SECOND else b; Wait(b, 1) == if base < 300 * SECOND then base else 300 * SECOND
    ensures n > 0 ==> Wait(b, n + 1) == if 2 * Wait(b, n) < 300 * SECOND then 2 * Wait(b, n) else 300 * SECOND
  {
    var base := if b <= 0 then DEFAULT_BACKOFF else b;
    assert Power(0) == 1;
    if n > 0 {
      ScaledGrows(base, n - 1, n);
      assert base * Power(n) == 2 * (base * Power(n - 1));
    }
  }

  // The launcher itself.

  class Binary {
    const backoff: Duration
    var started: seq<Process>
    var running: Option<nat>
    var supervised: bool
    var ended: bool
    var failed: Option<nat>
    var timers: multiset<nat>
    ghost var delays: seq<Duration>
    var restarts: nat

    ghost function Abs(): State
      reads this
    {
      State(started, running, supervised, ended, failed, timers, delays)
    }

    ghost predicate Valid()
      reads this
    {
      restarts == |delays| && Inv(backoff, Abs())
    }

    constructor (b: Duration)
      ensures Valid() && Abs() == INIT && backoff == b
    {
      backoff := b;
      started, running, supervised, ended, failed := [], None, false, false, None;
      timers, delays, restarts := multiset{}, [], 0;
    }

    /** The doubling loop gives the wait its closed form. */
    method Backoff(n: nat) returns (delay: Duration)
      ensures delay == Wait(backoff, n)
    {
      if n == 0 {
        return 0;
      }
      var base := if backoff <= 0 then DEFAULT_BACKOFF else backoff;
      delay := base;
      var i := 0;
      while i < n - 1 && delay < MAX_BACKOFF
        invariant 0 <= i <= n - 1
        invariant delay == base * Power(i)
      {
        delay := delay * 2;
        i := i + 1;
        assert Power(i) == 2 * Power(i - 1);
      }
      ScaledGrows(base, i, n - 1);
      if delay > MAX_BACKOFF {
        delay := MAX_BACKOFF;
      }
    }

    method Exec()
      modifies this
      ensures Abs() == Started(old(Abs())) && restarts == old(restarts)
    {
      running := Some(|started|);
      started := started + [Process(false, false)];
    }

    method Start(canceled: bool, execs: bool) returns (ok: bool)
      requires Valid()
      modifies this
      ensures Valid() && Abs() == Next(backoff, old(Abs()), Step.Start(canceled, execs))
      ensures ok <==> old(running).None? && !canceled && execs
      ensures ok ==> started == old(started) + [Process(false, false)] && running == Some(|old(started)|)
      ensures !ok ==> started == old(started) && running == old(running)
    {
      ok := running.None? && !canceled && execs;
      NextKeepsInv(backoff, Abs(), Step.Start(canceled, execs));
      if ok {
        Exec();
      }
    }

    method ScheduleRestart(p: nat)
      requires restarts == |delays|
      modifies this
      ensures restarts == |delays| && Abs() == RestartLater(backoff, old(Abs()), p)
    {
      if ended {
        failed := Some(p);
        return;
      }
      var delay := Backoff(restarts);
      restarts := restarts + 1;
      delays := delays + [delay];
      timers := timers + multiset{p};
    }

    method Supervise(contextEnded: bool)
      requires Valid()
      modifies this
      ensures Valid() && Abs() == Next(backoff, old(Abs()), Step.Supervise(contextEnded))
      ensures supervised && ended == contextEnded && running == old(running) && started == old(started)
      ensures var gone := running.Some? && started[running.value].reaped;
              && timers == (if gone && !contextEnded then old(timers) + multiset{running.value} else old(timers))
              && failed == (if gone && contextEnded then running else old(failed))
    {
      NextKeepsInv(backoff, Abs(), Step.Supervise(contextEnded));
      supervised, ended := true, contextEnded;
      if running.Some? && started[running.value].reaped {
        ScheduleRestart(running.value);
      }
    }

    method Reap(p: nat)
      requires Valid() && Enabled(Abs(), Step.Reap(p))
      modifies this
      ensures Valid() && Abs() == Next(backoff, old(Abs()), Step.Reap(p))
      ensures running == old(running) && started == old(started)[p := Process(true, true)]
      ensures var own := old(supervised) && running == Some(p);
              && timers == (if own && !ended then old(timers) + multiset{p} else old(timers))
              && failed == (if own && ended then Some(p) else old(failed))
    {
      NextKeepsInv(backoff, Abs(), Step.Reap(p));
      started := started[p := started[p].(reaped := true)];
      if supervised && running == Some(p) {
        ScheduleRestart(p);
      }
    }

    method Fire(p: nat, execs: bool)
      requires Valid() && Enabled(Abs(), Step.Fire(p, execs))
      modifies this
      ensures Valid() && Abs() == Next(backoff, old(Abs()), Step.Fire(p, execs))
      ensures timers == old(timers) - multiset{p}
      ensures var mine := old(running) == Some(p);
              && |started| == |old(started)| + (if mine && !ended && execs then 1 else 0)
              && running == (if mine && !ended && execs then Some(|old(started)|) else old(running))
              && failed == (if mine && (ended || !execs) then Some(p) else old(failed))
    {
      NextKeepsInv(backoff, Abs(), Step.Fire(p, execs));
      timers := timers - multiset{p};
      if running != Some(p) {
      } else if ended {
        failed := Some(p);
      } else if execs {
        Exec();
      } else {
        failed := Some(p);
      }
    }

    method Stop(seen: bool) returns (ok: bool)
      requires Valid()
      modifies this
      ensures Valid() && Abs() == Next(backoff, old(Abs()), Step.Stop(seen))
      ensures ok <==> running.None?
      ensures !supervised && started == old(started) && timers == old(timers)
      ensures ok <==> old(running).None? || (old(started)[old(running).value].done && seen)
      ensures !ok ==> running == old(running)
    {
      NextKeepsInv(backoff, Abs(), Step.Stop(seen));
      supervised := false;
      ok := running.None? || (started[running.value].done && seen);
      if ok {
        running := None;
      }
    }

    method Restart(seen: bool, canceled: bool, execs: bool) returns (ok: bool)
      requires Valid()
      modifies this
      ensures Valid() && Abs() == Next(backoff, old(Abs()), Step.Restart(seen, canceled, execs))
      ensures ok <==> old(running).Some? && old(started)[old(running).value].done && seen && !canceled && execs
      ensures ok ==> started == old(started) + [Process(false, false)] && running == Some(|old(started)|)
      ensures !ok ==> started == old(started)
    {
      NextKeepsInv(backoff, Abs(), Step.Restart(seen, canceled, execs));
      ok := running.Some? && started[running.value].done && seen;
      if !ok {
        return;
      }
      running := None;
      ok := !canceled && execs;
      if ok {
        Exec();
      }
    }
  }
}
