/** What the checks see of a fault's window at t, and whether the proxy can still
    change it.

    A request reads the clock before it takes the proxy's lock, so a fault may be
    applied after t at a reading from before t. The checks then learn, late, of a
    window that began by t or ended by t. This module proves exactly which faults
    that can happen to, and that it cannot to the rest in any run.
 */
module LateFaults {
  import opened Instants
  import opened FaultProxy
  import opened FaultRuns
  import opened Recording
  import opened VerdictStability

  /** The window the proxy reports at a reading. */
  function Reported(f: Injected, m: Instant): FaultWindow { FaultWindow(f.first, f.EndedBy(m)) }

  /** The checks know of the window at t. */
  predicate Known(w: FaultWindow, t: Instant) { w.start != ZERO && (w.start <= t || ZERO < w.end <= t) }

  /** The two windows are one to the checks at t. */
  predicate Alike(v: FaultWindow, w: FaultWindow, t: Instant) {
    Known(v, t) == Known(w, t) && (Known(v, t) ==> v.AsOf(t) == w.AsOf(t))
  }

  /** Any reading after t shows the same of a fault as the first one does. */
  lemma ReadingsAlike(f: Injected, m: Instant, t: Instant, clock: Instant)
    requires Sound(f, clock) && ZERO < t < m
    ensures Alike(Reported(f, t + 1), Reported(f, m), t)
  {
    LastReleaseIsLast(f.holds, f.RetiredBy(t + 1));
    LastReleaseIsLast(f.holds, f.RetiredBy(m));
  }

  ghost predicate SameAt(f: Injected, g: Injected, t: Instant) {
    Alike(Reported(f, t + 1), Reported(g, t + 1), t)
  }

  /** No late application can show in the fault's window: a count or a removal has
      stopped it, or it was applied and one more neither begins nor ends anything
      by t. A delay would reopen a window that had ended by t; any other action would
      end one by spending a count. */
  predicate Quiet(f: Injected, t: Instant) {
    || f.Stopped() != ZERO
    || (f.applied > 0 && if f.spec.action.Delay? then !(ZERO < f.EndedBy(t + 1) <= t) else f.spec.count <= 0)
  }

  // No run changes what the checks see of a quiet fault.

  lemma TakenStays(f: Injected, r: FaultProxy.Request, now: Instant, t: Instant, clock: Instant)
    requires Sound(f, clock) && ZERO < t < clock && ZERO < now && !f.Expired(now) && Quiet(f, t)
    requires !f.spec.action.Delay? ==> f.holds == []
    ensures Quiet(f.Taken(r, now), t) && SameAt(f, f.Taken(r, now), t)
  {
    var g := f.Taken(r, now);
    if f.spec.action.Delay? {
      assert g.holds[|f.holds|].released == ZERO;
    }
  }

  lemma RemovedStays(f: Injected, now: Instant, t: Instant, clock: Instant)
    requires Sound(f, clock) && ZERO < t < clock <= now && Quiet(f, t)
    ensures Quiet(f.Removed(now), t) && SameAt(f, f.Removed(now), t)
  {
    var g := f.Removed(now);
    LastReleaseIsLast(f.holds, f.RetiredBy(t + 1));
    LastReleaseIsLast(f.holds, g.RetiredBy(t + 1));
  }

  lemma ReleasedStays(f: Injected, k: nat, now: Instant, t: Instant, clock: Instant)
    requires Sound(f, clock) && ZERO < t < clock <= now && Quiet(f, t)
    requires k < |f.holds| && f.holds[k].released == ZERO
    ensures Quiet(f.Released(k, now), t) && SameAt(f, f.Released(k, now), t)
  {
    var g := f.Released(k, now);
    LastReleaseIsLast(g.holds, g.RetiredBy(t + 1));
    assert g.holds[k] in g.holds;
  }

  lemma NextStays(s: State, step: Step, id: nat, t: Instant)
    requires Inv(s) && Bounds(s) && Legal(s, step) && id < |s.faults| && ZERO < t < s.clock && Quiet(s.faults[id], t)
    ensures id < |Next(s, step).faults|
    ensures Quiet(Next(s, step).faults[id], t) && SameAt(s.faults[id], Next(s, step).faults[id], t)
  {
    var f := s.faults[id];
    match step
    case Add(_, _) =>
    case Remove(i, now) => if i == id { RemovedStays(f, now, t, s.clock); }
    case Clear(readings, _) => RemovedStays(f, readings[id], t, s.clock);
    case Serve(r, draws, k, now) =>
      if k == id {
        assert Takes(f, r, draws[id], now);
        TakenStays(f, r, now, t, s.clock);
      }
    case Release(i, hold, now) => if i == id { ReleasedStays(f, hold, now, t, s.clock); }
    case Look(_) =>
  }

  lemma {:induction false} QuietStays(s: State, steps: seq<Step>, id: nat, t: Instant)
    requires Inv(s) && Bounds(s) && LegalRun(s, steps) && id < |s.faults| && ZERO < t < s.clock && Quiet(s.faults[id], t)
    ensures id < |After(s, steps).faults| && SameAt(s.faults[id], After(s, steps).faults[id], t)
    decreases |steps|
  {
    if steps != [] {
      NextKeepsInv(s, steps[0]);
      NextBounds(s, steps[0]);
      NextStays(s, steps[0], id, t);
      QuietStays(Next(s, steps[0]), steps[1..], id, t);
    }
  }

  // Some run changes what they see of any other.

  /** A request that the fault matches, whatever it matches. */
  function Matching(f: Injected): FaultProxy.Request {
    FaultProxy.Request(1, f.spec.matcher.verb, f.spec.matcher.resource, {f.spec.matcher.name})
  }

  function Zeros(n: nat): seq<real> { seq(n, i => 0.0) }

  /** With the faults before it stopped, an active fault takes a request that
      matches it. */
  lemma TakesNext(s: State, id: nat, now: Instant) returns (step: Step)
    requires id < |s.faults| && now > ZERO && !s.faults[id].Expired(now)
    requires forall j :: 0 <= j < id ==> s.faults[j].Stopped() != ZERO
    ensures Legal(s, step) && Next(s, step).faults == s.faults[id := s.faults[id].Taken(Matching(s.faults[id]), now)]
  {
    step := Serve(Matching(s.faults[id]), Zeros(|s.faults|), id, now);
    forall j | 0 <= j < id ensures !Takes(s.faults[j], step.r, step.draws[j], now) {
      assert s.faults[j].Stopped() != ZERO;
    }
  }

  lemma ActiveEarly(f: Injected, clock: Instant)
    requires Sound(f, clock) && f.Stopped() == ZERO
    ensures !f.Expired(1)
  {
  }

  lemma FirstShows(f: Injected, t: Instant, clock: Instant)
    requires Sound(f, clock) && ZERO < t && f.Stopped() == ZERO
    requires f.applied == 0 || (f.spec.action.Delay? && ZERO < f.EndedBy(t + 1) <= t)
    ensures !SameAt(f, f.Taken(Matching(f), 1), t)
  {
    var g := f.Taken(Matching(f), 1);
    if f.applied != 0 {
      assert g.holds[|f.holds|].released == ZERO;
    }
  }

  /** A fault that spends its count at a reading from before t ended by t. */
  lemma SpendingShows(f: Injected, g: Injected, t: Instant, clock: Instant)
    requires Sound(f, clock) && ZERO < t && f.Stopped() == ZERO && f.applied > 0 && f.holds == []
    requires g == f.(applied := g.applied, spent := 1)
    ensures !SameAt(f, g, t)
  {
    assert g.RetiredBy(t + 1) == 1;
  }

  /** The faults before n are stopped. */
  ghost predicate Cleared(s: State, n: nat) {
    n <= |s.faults| && forall j :: 0 <= j < n ==> s.faults[j].Stopped() != ZERO
  }

  /** The next fault in the way can be removed. */
  lemma ClearOne(s: State, n: nat) returns (step: Step)
    requires Inv(s) && s.clock > ZERO && n < |s.faults| && Cleared(s, n)
    ensures Legal(s, step) && Inv(Next(s, step)) && Cleared(Next(s, step), n + 1) && Next(s, step).clock == s.clock
    ensures |Next(s, step).faults| == |s.faults| && forall j :: n < j < |s.faults| ==> Next(s, step).faults[j] == s.faults[j]
  {
    step := Step.Remove(n, s.clock);
    NextKeepsInv(s, step);
    forall j | 0 <= j < n + 1 ensures Next(s, step).faults[j].Stopped() != ZERO {
      assert j < n ==> s.faults[j].Stopped() != ZERO;
    }
  }

  /** Some run has an active fault take a request at any reading it is active at. */
  lemma {:induction false} TakeIt(s: State, n: nat, id: nat, now: Instant) returns (steps: seq<Step>)
    requires Inv(s) && s.clock > ZERO && n <= id < |s.faults| && Cleared(s, n)
    requires now > ZERO && !s.faults[id].Expired(now)
    ensures LegalRun(s, steps) && |After(s, steps).faults| == |s.faults|
    ensures After(s, steps).faults[id] == s.faults[id].Taken(Matching(s.faults[id]), now)
    decreases id - n
  {
    if n == id {
      var step := TakesNext(s, id, now);
      RunOn(s, step, []);
      steps := [step] + [];
    } else {
      var step := ClearOne(s, n);
      var rest := TakeIt(Next(s, step), n + 1, id, now);
      RunOn(s, step, rest);
      steps := [step] + rest;
    }
  }

  lemma {:induction false} SpendIt(s: State, n: nat, id: nat) returns (steps: seq<Step>)
    requires Inv(s) && s.clock > ZERO && n <= id < |s.faults| && Cleared(s, n) && s.faults[id].Stopped() == ZERO
    requires s.faults[id].spec.count > 0 && !s.faults[id].spec.action.Delay? && s.faults[id].applied > 0
    ensures LegalRun(s, steps) && |After(s, steps).faults| == |s.faults|
    ensures After(s, steps).faults[id] == s.faults[id].(applied := After(s, steps).faults[id].applied, spent := 1)
    decreases id - n, s.faults[id].spec.count - s.faults[id].applied
  {
    if n < id {
      var step := ClearOne(s, n);
      var rest := SpendIt(Next(s, step), n + 1, id);
      RunOn(s, step, rest);
      steps := [step] + rest;
    } else {
      var f := s.faults[id];
      ActiveEarly(f, s.clock);
      var step := TakesNext(s, id, 1);
      NextKeepsInv(s, step);
      var rest := [];
      if f.applied + 1 < f.spec.count {
        rest := SpendIt(Next(s, step), n, id);
      }
      RunOn(s, step, rest);
      steps := [step] + rest;
    }
  }

  /** The run leaves the fault's window, as the checks see it at t, as it was. */
  ghost predicate Unmoved(s: State, steps: seq<Step>, id: nat, t: Instant)
    requires LegalRun(s, steps) && id < |s.faults|
  {
    id < |After(s, steps).faults| && SameAt(s.faults[id], After(s, steps).faults[id], t)
  }

  lemma OthersMove(s: State, id: nat, t: Instant) returns (steps: seq<Step>)
    requires Inv(s) && Bounds(s) && id < |s.faults| && ZERO < t < s.clock && !Quiet(s.faults[id], t)
    ensures LegalRun(s, steps) && !Unmoved(s, steps, id, t)
  {
    var f := s.faults[id];
    if f.applied == 0 || f.spec.action.Delay? {
      ActiveEarly(f, s.clock);
      steps := TakeIt(s, 0, id, 1);
      FirstShows(f, t, s.clock);
    } else {
      steps := SpendIt(s, 0, id);
      SpendingShows(f, After(s, steps).faults[id], t, s.clock);
    }
  }

  /** The windows by t that the checks were shown after t stay as they are in every
      run, whatever late requests it holds, exactly for the quiet faults. */
  lemma UnmovedExactlyWhere(s: State, id: nat, t: Instant)
    requires Inv(s) && Bounds(s) && id < |s.faults| && ZERO < t < s.clock
    ensures (forall steps :: LegalRun(s, steps) ==> Unmoved(s, steps, id, t)) <==> Quiet(s.faults[id], t)
  {
    if Quiet(s.faults[id], t) {
      forall steps | LegalRun(s, steps) ensures Unmoved(s, steps, id, t) {
        QuietStays(s, steps, id, t);
      }
    } else {
      var steps := OthersMove(s, id, t);
    }
  }
}
