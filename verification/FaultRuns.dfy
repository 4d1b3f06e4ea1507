/** Every run of the proxy's faults: any interleaving of injections, removals,
    requests, releases and window reads, each one locked section.

    A step that reads the clock under the lock reads at least every instant read
    before it. `Serve` and `Look` read it before they take the lock, so theirs may
    be any instant.
 */
module FaultRuns {
  import opened Instants
  import opened FaultProxy

  /** One application of a fault, at the reading the request brought. */
  datatype Use = Use(id: nat, now: Instant)

  /** `clock` is the latest reading so far, `uses` every application in order. */
  datatype State = State(faults: seq<Injected>, clock: Instant, uses: seq<Use>)

  datatype Step =
    | Add(spec: Spec, now: Instant)
    | Remove(id: nat, now: Instant)
    | Clear(readings: seq<Instant>, now: Instant)
    | Serve(r: Request, draws: seq<real>, k: nat, now: Instant)
    | Release(id: nat, hold: nat, now: Instant)
    | Look(now: Instant)

  const INIT := State([], ZERO, [])

  ghost predicate Legal(s: State, step: Step) {
    && step.now > ZERO
    && (step.Serve? || step.Look? || step.now >= s.clock)
    && match step
       case Add(_, _) => true
       case Remove(id, _) => id < |s.faults|
       case Clear(readings, now) =>
         |readings| == |s.faults| && forall i :: 0 <= i < |readings| ==> s.clock <= readings[i] <= now && readings[i] > ZERO
       case Serve(r, draws, k, now) => |draws| == |s.faults| && Chosen(s.faults, r, draws, now, k)
       case Release(id, hold, _) =>
         id < |s.faults| && hold < |s.faults[id].holds| && s.faults[id].holds[hold].released == ZERO
       case Look(_) => true
  }

  /** What the proxy's methods do to the faults. */
  ghost function Faults(s: State, step: Step): seq<Injected>
    requires Legal(s, step)
  {
    match step
    case Add(spec, now) => s.faults + [Injected(spec, now, 0, ZERO, ZERO, ZERO, [])]
    case Remove(id, now) => s.faults[id := s.faults[id].Removed(now)]
    case Clear(readings, _) => seq(|s.faults|, i requires 0 <= i < |s.faults| => s.faults[i].Removed(readings[i]))
    case Serve(r, _, k, now) => if k < |s.faults| then s.faults[k := s.faults[k].Taken(r, now)] else s.faults
    case Release(id, hold, now) => s.faults[id := s.faults[id].Released(hold, now)]
    case Look(_) => s.faults
  }

  ghost function Next(s: State, step: Step): State
    requires Legal(s, step)
  {
    State(Faults(s, step), Later(s.clock, step.now),
          if step.Serve? && step.k < |s.faults| then s.uses + [Use(step.k, step.now)] else s.uses)
  }

  /** Each step is what the proxy does: its methods take the faults from one state of
      the machine to the next. */
  method Perform(proxy: Proxy, ghost s: State, step: Step)
    requires proxy.faults == s.faults && Legal(s, step)
    modifies proxy
    ensures proxy.faults == Next(s, step).faults
  {
    match step {
      case Add(spec, now) =>
        var id := proxy.AddFault(spec, now);
      case Remove(id, now) =>
        proxy.RemoveFault(id, now);
      case Clear(readings, _) =>
        proxy.ClearFaults(readings);
      case Serve(r, draws, k, now) =>
        var chosen := proxy.FaultFor(r, draws, now);
        assert chosen == k;
      case Release(id, hold, now) =>
        proxy.Release(id, hold, now);
      case Look(_) =>
    }
  }

  ghost predicate LegalRun(s: State, steps: seq<Step>)
    decreases |steps|
  {
    steps == [] || (Legal(s, steps[0]) && LegalRun(Next(s, steps[0]), steps[1..]))
  }

  ghost function After(s: State, steps: seq<Step>): State
    requires LegalRun(s, steps)
    decreases |steps|
  {
    if steps == [] then s else After(Next(s, steps[0]), steps[1..])
  }

  /** How often a fault was applied, by the record of uses. */
  function Times(uses: seq<Use>, id: nat): nat {
    if uses == [] then 0
    else Times(uses[..|uses| - 1], id) + if uses[|uses| - 1].id == id then 1 else 0
  }

  // What every step keeps, however stale the readings of requests are.

  ghost predicate Sound(f: Injected, clock: Instant) {
    && ZERO < f.since <= clock
    && ZERO <= f.first <= clock && ZERO <= f.spent <= clock && ZERO <= f.removed <= clock
    && (f.first == ZERO <==> f.applied == 0)
    && (if f.spec.count > 0 then f.applied <= f.spec.count && (f.spent != ZERO <==> f.applied == f.spec.count)
        else f.spent == ZERO)
    && (f.removed != ZERO ==> f.spent <= f.removed)
    && (forall i :: 0 <= i < |f.holds| ==> SoundHold(f, f.holds[i], clock))
  }

  ghost predicate SoundHold(f: Injected, h: Hold, clock: Instant) {
    ZERO <= h.released <= clock && f.applied > 0
  }

  ghost predicate Inv(s: State) {
    && s.clock >= ZERO
    && (forall i :: 0 <= i < |s.faults| ==> Sound(s.faults[i], s.clock) && Times(s.uses, i) == s.faults[i].applied)
    && (forall u :: u in s.uses ==> u.id < |s.faults| && u.now <= s.clock)
  }

  lemma SoundLater(f: Injected, a: Instant, b: Instant)
    requires Sound(f, a) && a <= b
    ensures Sound(f, b)
  {
    forall i | 0 <= i < |f.holds| ensures SoundHold(f, f.holds[i], b) {
      assert SoundHold(f, f.holds[i], a);
    }
  }

  lemma TakenIsSound(f: Injected, r: Request, now: Instant, clock: Instant)
    requires Sound(f, clock) && !f.Expired(now) && ZERO < now <= clock
    ensures Sound(f.Taken(r, now), clock)
  {
    var g := f.Taken(r, now);
    forall i | 0 <= i < |g.holds| ensures SoundHold(g, g.holds[i], clock) {
      assert i < |f.holds| ==> SoundHold(f, f.holds[i], clock);
    }
  }

  lemma RemovedIsSound(f: Injected, now: Instant, before: Instant, after: Instant)
    requires Sound(f, before) && ZERO < now && before <= now <= after
    ensures Sound(f.Removed(now), after)
  {
    SoundLater(f, before, after);
    var g := f.Removed(now);
    forall i | 0 <= i < |g.holds| ensures SoundHold(g, g.holds[i], after) {
      assert SoundHold(f, f.holds[i], after);
    }
  }

  lemma ReleasedIsSound(f: Injected, k: nat, now: Instant, clock: Instant)
    requires Sound(f, clock) && k < |f.holds| && ZERO <= now <= clock
    ensures Sound(f.Released(k, now), clock)
  {
    var g := f.Released(k, now);
    forall i | 0 <= i < |g.holds| ensures SoundHold(g, g.holds[i], clock) {
      assert SoundHold(f, f.holds[i], clock);
    }
  }

  lemma {:induction false} NoTimes(uses: seq<Use>, id: nat)
    requires forall u :: u in uses ==> u.id < id
    ensures Times(uses, id) == 0
  {
    if uses != [] {
      assert uses[|uses| - 1] in uses;
      NoTimes(uses[..|uses| - 1], id);
    }
  }

  lemma TimesOfOneMore(uses: seq<Use>, u: Use, id: nat)
    ensures Times(uses + [u], id) == Times(uses, id) + if u.id == id then 1 else 0
  {
    assert (uses + [u])[..|uses|] == uses;
  }

  lemma NextIsSound(s: State, step: Step, i: nat)
    requires Inv(s) && Legal(s, step) && i < |Next(s, step).faults|
    ensures Sound(Next(s, step).faults[i], Next(s, step).clock)
  {
    var clock := Next(s, step).clock;
    if i < |s.faults| {
      SoundLater(s.faults[i], s.clock, clock);
      match step
      case Add(_, _) =>
      case Remove(id, now) => RemovedIsSound(s.faults[i], now, s.clock, clock);
      case Clear(readings, _) => RemovedIsSound(s.faults[i], readings[i], s.clock, clock);
      case Serve(r, _, k, now) => if i == k { TakenIsSound(s.faults[i], r, now, clock); }
      case Release(id, hold, now) => if i == id { ReleasedIsSound(s.faults[i], hold, now, clock); }
      case Look(_) =>
    }
  }

  /** Whether the step applies fault i. */
  predicate Uses(s: State, step: Step, i: nat) {
    step.Serve? && step.k == i < |s.faults|
  }

  lemma NextApplies(s: State, step: Step, i: nat)
    requires Legal(s, step) && i < |Next(s, step).faults|
    ensures Next(s, step).faults[i].applied ==
            if i >= |s.faults| then 0 else s.faults[i].applied + if Uses(s, step, i) then 1 else 0
  {
  }

  lemma NextTimes(s: State, step: Step, i: nat)
    requires Legal(s, step)
    ensures Times(Next(s, step).uses, i) == Times(s.uses, i) + if Uses(s, step, i) then 1 else 0
  {
    if step.Serve? && step.k < |s.faults| {
      TimesOfOneMore(s.uses, Use(step.k, step.now), i);
      assert Next(s, step).uses == s.uses + [Use(step.k, step.now)];
    }
  }

  lemma NextCounts(s: State, step: Step, i: nat)
    requires Inv(s) && Legal(s, step) && i < |Next(s, step).faults|
    ensures Times(Next(s, step).uses, i) == Next(s, step).faults[i].applied
  {
    NextApplies(s, step, i);
    NextTimes(s, step, i);
    if i >= |s.faults| {
      NoTimes(s.uses, i);
    }
  }

  lemma NextKeepsInv(s: State, step: Step)
    requires Inv(s) && Legal(s, step)
    ensures Inv(Next(s, step))
  {
    var t := Next(s, step);
    forall i | 0 <= i < |t.faults| ensures Sound(t.faults[i], t.clock) && Times(t.uses, i) == t.faults[i].applied {
      NextIsSound(s, step, i);
      NextCounts(s, step, i);
    }
  }

  lemma {:induction false} RunKeepsInv(s: State, steps: seq<Step>)
    requires Inv(s) && LegalRun(s, steps)
    ensures Inv(After(s, steps))
    decreases |steps|
  {
    if steps != [] {
      NextKeepsInv(s, steps[0]);
      RunKeepsInv(Next(s, steps[0]), steps[1..]);
    }
  }

  /** A count fault is applied at most as often as it says, in every run. */
  lemma CountIsKept(steps: seq<Step>, id: nat)
    requires LegalRun(INIT, steps) && id < |After(INIT, steps).faults|
    requires After(INIT, steps).faults[id].spec.count > 0
    ensures Times(After(INIT, steps).uses, id) <= After(INIT, steps).faults[id].spec.count
  {
    RunKeepsInv(INIT, steps);
  }

  // A window that has closed is final.

  /** What a reader of the fault sees, and how often it was applied. */
  ghost predicate SameWindow(f: Injected, w: Instant, g: Injected, m: Instant) {
    && g.spec == f.spec && g.since == f.since
    && g.first == f.first && g.EndedBy(m) == f.EndedBy(w)
    && g.applied == f.applied && g.holds == f.holds
  }

  lemma {:induction false} LastReleaseFrom(holds: seq<Hold>, a: Instant, b: Instant)
    requires a <= b
    ensures LastRelease(holds, b) == Later(LastRelease(holds, a), b)
  {
    if holds != [] {
      LastReleaseFrom(holds[..|holds| - 1], a, b);
    }
  }

  /** Two readings report the same end exactly where they fall on the same side of
      the fault's own deadline, or a stop decides the end on both. */
  lemma ReadingsAgreeExactlyWhere(f: Injected, w: Instant, m: Instant, clock: Instant)
    requires Sound(f, clock) && f.EndedBy(w) != ZERO
    ensures f.EndedBy(m) == f.EndedBy(w) <==>
            || f.spec.span <= 0
            || (m < f.WindowEnd() <==> w < f.WindowEnd())
            || (f.Stopped() != ZERO && f.Stopped() <= LastRelease(f.holds, f.WindowEnd()))
  {
    var end, stop := f.WindowEnd(), f.Stopped();
    LastReleaseIsLast(f.holds, end);
    if stop != ZERO {
      LastReleaseIsLast(f.holds, stop);
      if end <= stop {
        LastReleaseFrom(f.holds, end, stop);
      } else {
        LastReleaseFrom(f.holds, stop, end);
      }
    }
  }

  /** A request read at m reaches a fault that ended by w exactly where the fault
      ended by its own deadline alone and m is older than that deadline. */
  lemma ReopensExactlyWhere(f: Injected, w: Instant, r: Request, draw: real, m: Instant, clock: Instant)
    requires Sound(f, clock) && f.EndedBy(w) != ZERO
    ensures Takes(f, r, draw, m) <==> f.Hits(r, draw) && f.Stopped() == ZERO && m < f.WindowEnd()
  {
  }

  /** A closed window that later readings cannot move: the fault has no span, or w
      is no older than the stop or the deadline that retired it. */
  predicate Lasting(f: Injected, w: Instant) {
    f.EndedBy(w) != ZERO && (f.spec.span <= 0 || f.Stopped() <= w || f.WindowEnd() <= w)
  }

  /** A request that the fault would take comes with a reading after w. */
  predicate Timely(f: Injected, id: nat, w: Instant, step: Step) {
    step.Serve? && step.k == id ==> f.spec.span <= 0 || step.now >= w
  }

  lemma RemovalKeepsWindow(f: Injected, w: Instant, now: Instant, clock: Instant)
    requires Sound(f, clock) && Lasting(f, w) && w <= clock <= now
    ensures SameWindow(f, w, f.Removed(now), w) && Lasting(f.Removed(now), w)
  {
    assert f.Removed(now).RetiredBy(w) == f.RetiredBy(w);
  }

  lemma NextKeepsWindow(s: State, step: Step, id: nat, w: Instant)
    requires Inv(s) && Legal(s, step) && id < |s.faults| && w <= s.clock
    requires Lasting(s.faults[id], w) && Timely(s.faults[id], id, w, step)
    ensures id < |Next(s, step).faults|
    ensures SameWindow(s.faults[id], w, Next(s, step).faults[id], w) && Lasting(Next(s, step).faults[id], w)
  {
    match step
    case Add(_, _) =>
    case Remove(_, now) => RemovalKeepsWindow(s.faults[id], w, now, s.clock);
    case Clear(readings, _) => RemovalKeepsWindow(s.faults[id], w, readings[id], s.clock);
    case Serve(_, _, _, _) =>
    case Release(_, _, _) =>
    case Look(_) =>
  }

  /** Once a window reads as closed, no later step of any run applies the fault
      again, opens a hold of it or moves either end of the window. */
  lemma {:induction false} ClosedWindowIsFinal(s: State, steps: seq<Step>, id: nat, w: Instant, m: Instant)
    requires Inv(s) && LegalRun(s, steps) && id < |s.faults| && w <= s.clock
    requires Lasting(s.faults[id], w)
    requires forall i :: 0 <= i < |steps| ==> Timely(s.faults[id], id, w, steps[i])
    requires s.faults[id].spec.span <= 0 || w <= m
    ensures id < |After(s, steps).faults|
    ensures SameWindow(s.faults[id], w, After(s, steps).faults[id], m)
    decreases |steps|
  {
    if steps == [] {
      ReadingsAgreeExactlyWhere(s.faults[id], w, m, s.clock);
    } else {
      NextKeepsInv(s, steps[0]);
      NextKeepsWindow(s, steps[0], id, w);
      assert forall i :: 0 <= i < |steps[1..]| ==> steps[1..][i] == steps[i + 1];
      ClosedWindowIsFinal(Next(s, steps[0]), steps[1..], id, w, m);
    }
  }

  // What a window covers, however stale the readings of requests are.

  /** Some hold is open, or was released no earlier. */
  ghost predicate HeldSince(holds: seq<Hold>, now: Instant) {
    exists k :: 0 <= k < |holds| && (holds[k].released == ZERO || holds[k].released >= now)
  }

  /** The use came by any removal and before the deadline, and a delay held it. */
  ghost predicate UseBounded(f: Injected, now: Instant) {
    && (f.removed != ZERO ==> now <= f.removed)
    && (f.spec.span > 0 ==> now < f.WindowEnd())
    && (f.spec.action.Delay? ==> HeldSince(f.holds, now))
  }

  ghost predicate HoldBounded(f: Injected, h: Hold) {
    h.released != ZERO ==> f.first <= h.released
  }

  ghost predicate Bounds(s: State) {
    && (forall u :: u in s.uses ==> u.id < |s.faults| && UseBounded(s.faults[u.id], u.now))
    && (forall i, k :: 0 <= i < |s.faults| && 0 <= k < |s.faults[i].holds| ==> HoldBounded(s.faults[i], s.faults[i].holds[k]))
    && (forall i :: 0 <= i < |s.faults| && !s.faults[i].spec.action.Delay? ==> s.faults[i].holds == [])
  }

  lemma TakenBounds(f: Injected, r: Request, now: Instant, u: Instant)
    requires f.since > ZERO && (UseBounded(f, u) || (u == now && !f.Expired(now)))
    ensures UseBounded(f.Taken(r, now), u)
  {
    var g := f.Taken(r, now);
    if f.spec.action.Delay? {
      if UseBounded(f, u) {
        var k :| 0 <= k < |f.holds| && (f.holds[k].released == ZERO || f.holds[k].released >= u);
        assert g.holds[k] == f.holds[k];
      } else {
        assert g.holds[|f.holds|].released == ZERO;
      }
    }
  }

  lemma ReleasedBounds(f: Injected, hold: nat, now: Instant, u: Instant)
    requires UseBounded(f, u) && hold < |f.holds| && u <= now
    ensures UseBounded(f.Released(hold, now), u)
  {
    if f.spec.action.Delay? {
      var k :| 0 <= k < |f.holds| && (f.holds[k].released == ZERO || f.holds[k].released >= u);
      var g := f.Released(hold, now);
      assert g.holds[k].released == ZERO || g.holds[k].released >= u;
    }
  }

  lemma NextBoundsUse(s: State, step: Step, u: Use)
    requires Inv(s) && Legal(s, step) && Bounds(s) && u in Next(s, step).uses
    ensures u.id < |Next(s, step).faults| && UseBounded(Next(s, step).faults[u.id], u.now)
  {
    if u !in s.uses {
      TakenBounds(s.faults[u.id], step.r, step.now, u.now);
    } else {
      assert UseBounded(s.faults[u.id], u.now);
      match step
      case Serve(r, _, k, now) => if k == u.id { TakenBounds(s.faults[k], r, now, u.now); }
      case Release(id, hold, now) => if id == u.id { ReleasedBounds(s.faults[id], hold, now, u.now); }
      case _ =>
    }
  }

  lemma NextBoundsHold(s: State, step: Step, i: nat, k: nat)
    requires Inv(s) && Legal(s, step) && Bounds(s)
    requires i < |Next(s, step).faults| && k < |Next(s, step).faults[i].holds|
    ensures HoldBounded(Next(s, step).faults[i], Next(s, step).faults[i].holds[k])
  {
    if i < |s.faults| && k < |s.faults[i].holds| {
      var f := s.faults[i];
      assert HoldBounded(f, f.holds[k]);
      assert SoundHold(f, f.holds[k], s.clock);
    }
  }

  lemma NextBounds(s: State, step: Step)
    requires Inv(s) && Legal(s, step) && Bounds(s)
    ensures Bounds(Next(s, step))
  {
    var t := Next(s, step);
    forall u | u in t.uses ensures u.id < |t.faults| && UseBounded(t.faults[u.id], u.now) {
      NextBoundsUse(s, step, u);
    }
    forall i, k | 0 <= i < |t.faults| && 0 <= k < |t.faults[i].holds| ensures HoldBounded(t.faults[i], t.faults[i].holds[k]) {
      NextBoundsHold(s, step, i, k);
    }
  }

  lemma {:induction false} RunBounds(s: State, steps: seq<Step>)
    requires LegalRun(s, steps) && Inv(s) && Bounds(s)
    ensures Inv(After(s, steps)) && Bounds(After(s, steps))
    decreases |steps|
  {
    if steps != [] {
      NextKeepsInv(s, steps[0]);
      NextBounds(s, steps[0]);
      RunBounds(Next(s, steps[0]), steps[1..]);
    }
  }

  /** The window a fault is reported over holds every application and release. */
  ghost predicate HoldsAll(s: State, id: nat, start: Instant, end: Instant)
    requires id < |s.faults|
  {
    && (forall u :: u in s.uses && u.id == id ==> start <= u.now <= end)
    && (forall h :: h in s.faults[id].holds ==> start <= h.released <= end)
  }

  /** The request served first read the clock first, and the one that spent the
      count read it last, unless a delay held each to its release. */
  ghost predicate EndsInOrder(s: State, id: nat)
    requires id < |s.faults|
  {
    var f := s.faults[id];
    && (forall u :: u in s.uses && u.id == id ==> f.first <= u.now)
    && (f.spec.action.Delay? || f.spent == ZERO || forall u :: u in s.uses && u.id == id ==> u.now <= f.spent)
  }

  lemma RetirementCovers(f: Injected, m: Instant, now: Instant)
    requires f.Expired(m) && UseBounded(f, now) && !f.spec.action.Delay? && (f.spent != ZERO ==> now <= f.spent)
    ensures now <= f.RetiredBy(m)
  {
  }

  lemma UseCoveredExactlyWhere(s: State, id: nat, m: Instant, u: Use)
    requires Bounds(s) && id < |s.faults| && s.faults[id].EndedBy(m) != ZERO && u in s.uses && u.id == id
    ensures u.now <= s.faults[id].EndedBy(m) <==>
            s.faults[id].spec.action.Delay? || s.faults[id].spent == ZERO || u.now <= s.faults[id].spent
  {
    var f := s.faults[id];
    assert UseBounded(f, u.now);
    LastReleaseIsLast(f.holds, f.RetiredBy(m));
    if f.spec.action.Delay? {
      var k :| 0 <= k < |f.holds| && (f.holds[k].released == ZERO || f.holds[k].released >= u.now);
      assert f.holds[k] in f.holds;
    } else if f.spent == ZERO || u.now <= f.spent {
      RetirementCovers(f, m, u.now);
    }
  }

  lemma CoveredExactlyWhere(s: State, id: nat, m: Instant)
    requires Bounds(s) && id < |s.faults| && s.faults[id].EndedBy(m) != ZERO
    ensures HoldsAll(s, id, s.faults[id].first, s.faults[id].EndedBy(m)) <==> EndsInOrder(s, id)
  {
    var f := s.faults[id];
    forall u | u in s.uses && u.id == id
      ensures u.now <= f.EndedBy(m) <==> f.spec.action.Delay? || f.spent == ZERO || u.now <= f.spent
    {
      UseCoveredExactlyWhere(s, id, m, u);
    }
    LastReleaseIsLast(f.holds, f.RetiredBy(m));
    forall h | h in f.holds ensures f.first <= h.released <= f.EndedBy(m) {
      var k :| 0 <= k < |f.holds| && f.holds[k] == h;
      assert HoldBounded(f, f.holds[k]);
    }
  }

  /** In every run, whatever order requests reach the lock in, the window a fault is
      reported over holds every application of it and every release exactly where
      the request served first read the clock first and, unless a delay held them,
      the one that spent the count read it last. */
  lemma WindowHoldsAllExactlyWhere(steps: seq<Step>, id: nat, m: Instant)
    requires LegalRun(INIT, steps)
    requires id < |After(INIT, steps).faults| && After(INIT, steps).faults[id].EndedBy(m) != ZERO
    ensures var s := After(INIT, steps);
            HoldsAll(s, id, s.faults[id].first, s.faults[id].EndedBy(m)) <==> EndsInOrder(s, id)
  {
    RunBounds(INIT, steps);
    CoveredExactlyWhere(After(INIT, steps), id, m);
  }

  // Where a fault's requests reach the lock in the order they read the clock.

  /** A request the fault takes brings a reading no older than those it took before. */
  ghost predicate InOrder(s: State, step: Step, id: nat) {
    step.Serve? && step.k == id ==> forall u :: u in s.uses && u.id == id ==> u.now <= step.now
  }

  ghost predicate OrderedRun(s: State, steps: seq<Step>, id: nat)
    requires LegalRun(s, steps)
    decreases |steps|
  {
    steps == [] || (InOrder(s, steps[0], id) && OrderedRun(Next(s, steps[0]), steps[1..], id))
  }

  /** The first application's reading is among the uses. */
  ghost predicate FirstIsUse(s: State) {
    forall i :: 0 <= i < |s.faults| && s.faults[i].applied > 0 ==> Use(i, s.faults[i].first) in s.uses
  }

  lemma NextKeepsFirst(s: State, step: Step)
    requires Inv(s) && Legal(s, step) && FirstIsUse(s)
    ensures FirstIsUse(Next(s, step))
  {
    var t := Next(s, step);
    forall i | 0 <= i < |t.faults| && t.faults[i].applied > 0 ensures Use(i, t.faults[i].first) in t.uses {
      if step.Serve? && step.k == i && i < |s.faults| && s.faults[i].applied == 0 {
        assert t.uses[|s.uses|] == Use(i, step.now);
      } else {
        assert s.faults[i].first == t.faults[i].first;
      }
    }
  }

  /** Every use lies between the first and, once the count is spent, the last. */
  ghost predicate Sequenced(s: State, id: nat) {
    forall u :: u in s.uses && u.id == id && id < |s.faults| ==>
      s.faults[id].first <= u.now && (s.faults[id].spent != ZERO ==> u.now <= s.faults[id].spent)
  }

  lemma {:induction false} SomeUse(uses: seq<Use>, id: nat)
    ensures Times(uses, id) > 0 <==> exists u :: u in uses && u.id == id
  {
    if uses != [] {
      SomeUse(uses[..|uses| - 1], id);
      assert uses == uses[..|uses| - 1] + [uses[|uses| - 1]];
    }
  }

  lemma NextSequenced(s: State, step: Step, id: nat)
    requires Inv(s) && Legal(s, step) && InOrder(s, step, id) && FirstIsUse(s) && Sequenced(s, id)
    ensures Sequenced(Next(s, step), id)
  {
    if id < |s.faults| {
      SomeUse(s.uses, id);
    } else {
      NoTimes(s.uses, id);
      SomeUse(s.uses, id);
    }
  }

  lemma {:induction false} RunSequenced(s: State, steps: seq<Step>, id: nat)
    requires LegalRun(s, steps) && OrderedRun(s, steps, id)
    requires Inv(s) && FirstIsUse(s) && Sequenced(s, id)
    ensures Sequenced(After(s, steps), id)
    decreases |steps|
  {
    if steps != [] {
      NextKeepsInv(s, steps[0]);
      NextKeepsFirst(s, steps[0]);
      NextSequenced(s, steps[0], id);
      RunSequenced(Next(s, steps[0]), steps[1..], id);
    }
  }

  /** So where a fault's requests reach the lock in that order, its window holds every
      application of it and every release. */
  lemma WindowHoldsAll(steps: seq<Step>, id: nat, m: Instant)
    requires LegalRun(INIT, steps) && OrderedRun(INIT, steps, id)
    requires id < |After(INIT, steps).faults| && After(INIT, steps).faults[id].EndedBy(m) != ZERO
    ensures var s := After(INIT, steps); HoldsAll(s, id, s.faults[id].first, s.faults[id].EndedBy(m))
  {
    RunSequenced(INIT, steps, id);
    WindowHoldsAllExactlyWhere(steps, id, m);
  }

  // What stale readings do.

  const ANY := Matcher("", "", "", 0.0)
  const REQUEST := Request(1, "get", "configmaps", {})

  lemma RunOn(s: State, step: Step, rest: seq<Step>)
    requires Legal(s, step) && LegalRun(Next(s, step), rest)
    ensures LegalRun(s, [step] + rest) && After(s, [step] + rest) == After(Next(s, step), rest)
    ensures rest == [] ==> [step] + rest == [step]
  {
    assert ([step] + rest)[1..] == rest;
  }

  const SPANNED := Spec(ANY, Drop, 0, 5)
  const CLOSED := Injected(SPANNED, 10, 0, ZERO, ZERO, ZERO, [])

  lemma ClosedIsReached()
    ensures LegalRun(INIT, [Add(SPANNED, 10)] + [Look(20)])
    ensures After(INIT, [Add(SPANNED, 10)] + [Look(20)]) == State([CLOSED], 20, [])
  {
    var one := Next(INIT, Add(SPANNED, 10));
    assert one == State([CLOSED], 10, []);
    RunOn(one, Look(20), []);
    RunOn(INIT, Add(SPANNED, 10), [Look(20)]);
  }

  /** A request that read the clock before a fault's deadline and met the lock after
      a reader found the fault closed is still faulted, and the window moves. */
  lemma StaleRequestReopens()
    ensures LegalRun(INIT, [Add(SPANNED, 10)] + [Look(20)])
    ensures var s := After(INIT, [Add(SPANNED, 10)] + [Look(20)]);
            && s.faults == [CLOSED] && CLOSED.EndedBy(20) == 15
            && Legal(s, Serve(REQUEST, [0.0], 0, 12))
            && Next(s, Serve(REQUEST, [0.0], 0, 12)).faults == [CLOSED.Taken(REQUEST, 12)]
            && CLOSED.first == ZERO && CLOSED.Taken(REQUEST, 12).first == 12
  {
    ClosedIsReached();
    assert CLOSED.Stopped() == ZERO && CLOSED.WindowEnd() == 15;
    assert Takes(CLOSED, REQUEST, 0.0, 12);
  }

  const COUNTED := Spec(ANY, Drop, 2, 0)

  /** Two requests that meet the lock in the other order than they read the clock
      leave a count fault with a window that ends before it begins. */
  lemma StaleRequestsInvertWindow()
    ensures var steps := [Add(COUNTED, 1)] + ([Serve(REQUEST, [0.0], 0, 10)] + [Serve(REQUEST, [0.0], 0, 5)]);
            && LegalRun(INIT, steps) && |After(INIT, steps).faults| == 1
            && After(INIT, steps).faults[0].first == 10 && After(INIT, steps).faults[0].EndedBy(10) == 5
  {
    var early, late := Serve(REQUEST, [0.0], 0, 5), Serve(REQUEST, [0.0], 0, 10);
    var one := Next(INIT, Add(COUNTED, 1));
    var two := Next(one, late);
    assert two.faults == [Injected(COUNTED, 1, 1, 10, ZERO, ZERO, [])];
    var three := Next(two, early);
    assert three.faults == [Injected(COUNTED, 1, 2, 10, 5, ZERO, [])];
    RunOn(two, early, []);
    RunOn(one, late, [early]);
    RunOn(INIT, Add(COUNTED, 1), [late] + [early]);
  }
}
