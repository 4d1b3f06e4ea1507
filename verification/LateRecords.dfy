/** What is recorded late can overturn a verdict. This module shows that it does, and
    ties what the checks may learn late of faults to the state of the proxy.
 */
module LateRecords {
  import opened Instants
  import opened Options
  import opened Recording
  import opened States
  import opened Sorting
  import opened Verdicts
  import opened VerdictStability
  import opened VerdictOverturns
  import opened LateFaults
  import FaultProxy
  import FaultRuns
  import RunnerFaults

  // ----- the windows the checks receive

  /** The windows of the faults that were applied, each read at its own reading. */
  function Windows(faults: seq<FaultProxy.Injected>, readings: seq<Instant>): seq<FaultWindow>
    requires |readings| == |faults|
  {
    if faults == [] then []
    else
      var n := |faults| - 1;
      var w := Reported(faults[n], readings[n]);
      Windows(faults[..n], readings[..n]) + if w.start != ZERO then [w] else []
  }

  lemma {:induction false} WindowsAre(faults: seq<FaultProxy.Injected>, readings: seq<Instant>)
    requires |readings| == |faults|
    ensures forall w :: w in Windows(faults, readings) <==>
              w.start != ZERO && exists i :: 0 <= i < |faults| && w == Reported(faults[i], readings[i])
  {
    if faults != [] {
      var n := |faults| - 1;
      WindowsAre(faults[..n], readings[..n]);
      forall w ensures w in Windows(faults, readings) <==>
          w.start != ZERO && exists i :: 0 <= i < |faults| && w == Reported(faults[i], readings[i])
      {
        if w in Windows(faults[..n], readings[..n]) {
          var i :| 0 <= i < n && w == Reported(faults[..n][i], readings[..n][i]);
          assert w == Reported(faults[i], readings[i]);
        }
        if i :| 0 <= i < |faults| && w == Reported(faults[i], readings[i]) && i < n {
          assert w == Reported(faults[..n][i], readings[..n][i]);
        }
      }
    }
  }

  /** Each fault of the first list shows the same at t in the second. */
  lemma AlikeWindows(a: seq<FaultProxy.Injected>, ra: seq<Instant>, b: seq<FaultProxy.Injected>, rb: seq<Instant>, t: Instant)
    requires |ra| == |a| <= |b| == |rb|
    requires forall i :: 0 <= i < |a| ==> Alike(Reported(a[i], ra[i]), Reported(b[i], rb[i]), t)
    requires forall i :: |a| <= i < |b| ==> !Known(Reported(b[i], rb[i]), t)
    ensures FaultsIn(Windows(a, ra), Windows(b, rb), t) && FaultsIn(Windows(b, rb), Windows(a, ra), t)
  {
    WindowsAre(a, ra);
    WindowsAre(b, rb);
    forall w | w in Windows(a, ra) && Visible(w, t) ensures HoldsFault(Windows(b, rb), w.AsOf(t), t) {
      var i :| 0 <= i < |a| && w == Reported(a[i], ra[i]);
      var v := Reported(b[i], rb[i]);
      assert Known(w, t) && Alike(w, v, t);
      assert v in Windows(b, rb) && v.AsOf(t) == w.AsOf(t);
    }
    forall w | w in Windows(b, rb) && Visible(w, t) ensures HoldsFault(Windows(a, ra), w.AsOf(t), t) {
      var i :| 0 <= i < |b| && w == Reported(b[i], rb[i]);
      assert Known(w, t);
      var v := Reported(a[i], ra[i]);
      assert Alike(v, w, t);
      assert v in Windows(a, ra) && v.AsOf(t) == w.AsOf(t);
    }
  }

  lemma AlikeAnyReading(f: FaultProxy.Injected, g: FaultProxy.Injected, m: Instant, n: Instant, t: Instant, x: Instant, y: Instant)
    requires FaultRuns.Sound(f, x) && FaultRuns.Sound(g, y) && ZERO < t && t < m && t < n && SameAt(f, g, t)
    ensures Alike(Reported(f, m), Reported(g, n), t)
  {
    ReadingsAlike(f, m, t, x);
    ReadingsAlike(g, n, t, y);
  }

  /** Where every fault in the proxy is quiet at t, nothing about faults is late: the
      windows read after t show the checks the same by t however the run goes on, as
      long as no fault injected later is applied at a reading by t. */
  lemma QuietFaultsAreOnTime(s: FaultRuns.State, ra: seq<Instant>, steps: seq<FaultRuns.Step>, rb: seq<Instant>, t: Instant)
    requires FaultRuns.Inv(s) && FaultRuns.Bounds(s) && FaultRuns.LegalRun(s, steps) && ZERO < t < s.clock
    requires forall i :: 0 <= i < |s.faults| ==> Quiet(s.faults[i], t)
    requires |ra| == |s.faults| && |rb| == |FaultRuns.After(s, steps).faults|
    requires (forall i :: 0 <= i < |ra| ==> ra[i] > t) && (forall i :: 0 <= i < |rb| ==> rb[i] > t)
    requires forall i :: |s.faults| <= i < |rb| ==> !Known(Reported(FaultRuns.After(s, steps).faults[i], rb[i]), t)
    ensures FaultsIn(Windows(s.faults, ra), Windows(FaultRuns.After(s, steps).faults, rb), t)
    ensures FaultsIn(Windows(FaultRuns.After(s, steps).faults, rb), Windows(s.faults, ra), t)
  {
    var r := FaultRuns.After(s, steps);
    FaultRuns.RunKeepsInv(s, steps);
    FaultsStay(s, steps);
    forall i | 0 <= i < |s.faults| ensures Alike(Reported(s.faults[i], ra[i]), Reported(r.faults[i], rb[i]), t) {
      QuietStays(s, steps, i, t);
      AlikeAnyReading(s.faults[i], r.faults[i], ra[i], rb[i], t, s.clock, r.clock);
    }
    AlikeWindows(s.faults, ra, r.faults, rb, t);
  }

  lemma {:induction false} FaultsStay(s: FaultRuns.State, steps: seq<FaultRuns.Step>)
    requires FaultRuns.LegalRun(s, steps)
    ensures |s.faults| <= |FaultRuns.After(s, steps).faults|
    decreases |steps|
  {
    if steps != [] {
      FaultsStay(FaultRuns.Next(s, steps[0]), steps[1..]);
    }
  }

  // ----- what a late application does to a verdict

  /** A window that begins at t and does not end before it excuses any wait that
      expired at t and converged before. */
  lemma WindowAtEndExcuses(a: Input, c: Checkpoint, w: FaultWindow)
    requires a.Recorded() && ZERO < c.time && LastConverged(a.checkpoints, c.time) < c.time
    requires w.start == c.time && (w.end == ZERO || w.end >= c.time)
    ensures Excused(a.(faults := a.faults + [w]), c)
  {
    var t := c.time;
    var b := a.(faults := a.faults + [w]);
    assert b.faults[|a.faults|] == w;
    if w.end != t {
      assert w.Overlaps(t, t);
    } else {
      var recovered := LastConverged(a.checkpoints, t);
      StoppedSpanIsSpan(b.faults, recovered, t);
      assert StoppedSince(w, recovered, t);
      var span := StoppedSpan(b.faults, recovered, t);
      assert span.last == t && span.first <= t;
      BeforeOwed(b, t, |b.exits|, t);
    }
  }

  /** So an unexcused verdict does not stand against a late application of any fault
      that was never applied, was not stopped and was not past its deadline at t. */
  lemma UnappliedMayExcuse(s: FaultRuns.State, id: nat, a: Input, c: Checkpoint) returns (steps: seq<FaultRuns.Step>)
    requires FaultRuns.Inv(s) && id < |s.faults| && ZERO < c.time < s.clock
    requires s.faults[id].applied == 0 && s.faults[id].Stopped() == ZERO
    requires s.faults[id].spec.span > 0 ==> c.time < s.faults[id].WindowEnd()
    requires a.Recorded() && LastConverged(a.checkpoints, c.time) < c.time
    ensures FaultRuns.LegalRun(s, steps) && id < |FaultRuns.After(s, steps).faults|
    ensures var w := Reported(FaultRuns.After(s, steps).faults[id], c.time + 1);
            Known(w, c.time) && Excused(a.(faults := a.faults + [w]), c)
  {
    var t, f := c.time, s.faults[id];
    steps := TakeIt(s, 0, id, t);
    var g := f.Taken(Matching(f), t);
    FaultProxy.LastReleaseIsLast(g.holds, g.RetiredBy(t + 1));
    WindowAtEndExcuses(a, c, Reported(g, t + 1));
  }

  /** Nor against one of a delay that its deadline had ended: the request it takes
      opens its window again, over t. */
  lemma DelayMayReopen(s: FaultRuns.State, id: nat, a: Input, c: Checkpoint) returns (steps: seq<FaultRuns.Step>)
    requires FaultRuns.Inv(s) && id < |s.faults| && ZERO < c.time < s.clock
    requires s.faults[id].spec.action.Delay? && s.faults[id].Stopped() == ZERO && ZERO < s.faults[id].first <= c.time
    ensures FaultRuns.LegalRun(s, steps) && id < |FaultRuns.After(s, steps).faults|
    ensures var w := Reported(FaultRuns.After(s, steps).faults[id], c.time + 1);
            Known(w, c.time) && (w in a.faults ==> Excused(a, c))
  {
    var f := s.faults[id];
    ActiveEarly(f, s.clock);
    steps := TakeIt(s, 0, id, 1);
    var g := f.Taken(Matching(f), 1);
    assert g.holds[|f.holds|].released == ZERO;
    assert Reported(g, c.time + 1).Overlaps(c.time, c.time);
  }

  // ----- the runs that show it

  const NO_FAULTS := Input(TIMEOUTS, "Widget", [], [], [], [Checkpoint(0, 1, 3, Converged)], [], [], 20)

  lemma NoFaultsVerdict(faults: seq<FaultWindow>)
    requires forall f :: f in faults ==> f.start > ZERO
    ensures NO_FAULTS.(faults := faults).Recorded()
    ensures Excused(NO_FAULTS.(faults := faults), WAIT) <==>
            Faulted(faults, 20, 20) || 20 < FaultsOwed(NO_FAULTS.(faults := faults), 20)
    ensures !HangsOnReturn(NO_FAULTS.(faults := faults), WAIT) && !HangsOnAnswer(NO_FAULTS.(faults := faults), WAIT)
  {
    var input := NO_FAULTS.(faults := faults);
    ExcusedMeans(input, WAIT);
    assert DeletionsBy([], input.primary, input.Delete(), 20) == [];
  }

  const SPEC := FaultProxy.Spec(FaultProxy.Matcher("", "", "", 0.0), FaultProxy.Drop, 0, 0)
  const FRESH := FaultProxy.Injected(SPEC, 10, 0, ZERO, ZERO, ZERO, [])
  const APPLIED := FaultProxy.Injected(SPEC, 10, 1, 19, ZERO, ZERO, [])
  const REQUEST := FaultProxy.Request(19, "get", "pods", {})

  /** The Runner injects a fault and reads its window at 21. Then a request that read
      the clock at 19 reaches the lock, and the Runner reads the window at 30. */
  const INJECT := RunnerFaults.Inject(SPEC, None, 10)
  const READ_ONCE := RunnerFaults.ReadWindow(0, 21)
  const SERVE := RunnerFaults.Meanwhile(FaultRuns.Serve(REQUEST, [0.0], 0, 19))
  const READ_AGAIN := RunnerFaults.ReadWindow(0, 30)
  const BEFORE: seq<RunnerFaults.Move> := [INJECT] + ([READ_ONCE] + [])
  const LATE: seq<RunnerFaults.Move> := [SERVE] + ([READ_AGAIN] + [])

  const HELD := RunnerFaults.HeldFault(0, None, 0, false)
  const INJECTED := RunnerFaults.Runner(FaultRuns.State([FRESH], 10, []), [HELD], [RunnerFaults.Window(ZERO, ZERO)])
  const READ := INJECTED.(proxy := FaultRuns.State([FRESH], 21, []))
  const SERVED := READ.(proxy := FaultRuns.State([APPLIED], 21, [FaultRuns.Use(0, 19)]))
  const REREAD := SERVED.(proxy := SERVED.proxy.(clock := 30), windows := [RunnerFaults.Window(19, ZERO)])

  lemma LateMoves()
    ensures RunnerFaults.Can(RunnerFaults.START, INJECT) && RunnerFaults.Do(RunnerFaults.START, INJECT) == INJECTED
    ensures RunnerFaults.Can(INJECTED, READ_ONCE) && RunnerFaults.Do(INJECTED, READ_ONCE) == READ
    ensures RunnerFaults.Can(READ, SERVE) && RunnerFaults.Do(READ, SERVE) == SERVED
    ensures RunnerFaults.Can(SERVED, READ_AGAIN) && RunnerFaults.Do(SERVED, READ_AGAIN) == REREAD
  {
    assert FaultProxy.Takes(FRESH, REQUEST, 0.0, 19);
    assert FRESH.Taken(REQUEST, 19) == APPLIED;
  }

  lemma LateRun()
    ensures RunnerFaults.CanAll(RunnerFaults.START, BEFORE) && RunnerFaults.DoAll(RunnerFaults.START, BEFORE) == READ
    ensures RunnerFaults.CanAll(READ, LATE) && RunnerFaults.DoAll(READ, LATE) == REREAD
  {
    LateMoves();
    RunnerFaults.DoOn(INJECTED, READ_ONCE, []);
    RunnerFaults.DoOn(RunnerFaults.START, INJECT, [READ_ONCE] + []);
    RunnerFaults.DoOn(SERVED, READ_AGAIN, []);
    RunnerFaults.DoOn(READ, SERVE, [READ_AGAIN] + []);
  }

  /** In that run a wait that expired at 20 is reported by the first reading and
      excused by the second, though its verdict hung on no return and no answer: an
      application stamped before the wait expired was recorded after its verdict. */
  lemma LateFaultOverturns()
    ensures RunnerFaults.CanAll(RunnerFaults.START, BEFORE) && RunnerFaults.DoAll(RunnerFaults.START, BEFORE) == READ
    ensures RunnerFaults.CanAll(READ, LATE) && RunnerFaults.DoAll(READ, LATE) == REREAD
    ensures READ.windows == [RunnerFaults.Window(ZERO, ZERO)] && REREAD.windows == [RunnerFaults.Window(19, ZERO)]
    ensures var before, after := NO_FAULTS, NO_FAULTS.(faults := [FaultWindow(19, ZERO)]);
            && LaterRecording(before, after) && !NothingLate(before, after, 20)
            && !Excused(before, WAIT) && Excused(after, WAIT)
            && !HangsOnReturn(before, WAIT) && !HangsOnAnswer(before, WAIT)
  {
    LateRun();
    var before, after := NO_FAULTS, NO_FAULTS.(faults := [FaultWindow(19, ZERO)]);
    NoFaultsVerdict([]);
    NoFaultsVerdict([FaultWindow(19, ZERO)]);
    assert before.(faults := []) == before;
    assert after.faults[0] == FaultWindow(19, ZERO) && FaultWindow(19, ZERO).Overlaps(20, 20);
    assert FaultsOwed(before, 20) == ZERO;
    assert Visible(FaultWindow(19, ZERO), 20);
  }

  const GOING := Version(Key("Widget", "run", "sample"), "uid", "2", 12, ["finalizer"], true, false)

  /** A run of a target with a short delete timeout, and this history. */
  function Deleted(history: seq<Version>): Input {
    NO_FAULTS.(declared := Timeouts(10, 5, 5), history := history)
  }

  lemma WithinOne(v: Version, from: Instant, to: Instant)
    requires from <= v.time <= to
    ensures Within([v], from, to) == [v]
  {
    assert [v][..0] == [] && Within([], from, to) == [];
  }

  lemma UpToOne(v: Version, t: Instant)
    requires v.time <= t
    ensures UpTo([v], t) == [v]
  {
    assert [v][..0] == [] && UpTo([], t) == [];
  }

  lemma SortOne(v: Version)
    ensures StableSort([v], TimeOf) == [v]
  {
    assert [v][..0] == [] && StableSort([], TimeOf) == [];
  }

  lemma LatestOne(v: Version)
    ensures LatestOf([v]) == map[v.key := v]
  {
    assert [v][..0] == [] && LatestOf([]) == map[];
  }

  lemma GoingIsLive()
    ensures StateAt(Deleted([GOING]), 17) == map[GOING.key := GOING]
  {
    WithinOne(GOING, ZERO, 20);
    SortOne(GOING);
    assert Versions(Deleted([GOING])) == [GOING];
    UpToOne(GOING, 17);
    LatestOne(GOING);
  }

  /** A version stamped before the wait expired and stored after its verdict does it
      too: the deletion it shows was overdue. */
  lemma LateVersionOverturns()
    ensures var before, after := Deleted([]), Deleted([GOING]);
            && LaterRecording(before, after) && !NothingLate(before, after, 20)
            && !Excused(before, WAIT) && Excused(after, WAIT)
            && !HangsOnReturn(before, WAIT) && !HangsOnAnswer(before, WAIT)
  {
    var before, after := Deleted([]), Deleted([GOING]);
    ExcusedMeans(before, WAIT);
    assert DeletionsBy([], before.primary, before.Delete(), 20) == [];
    var d := DeletionOf(GOING, 5);
    assert [GOING][..0] == [];
    assert DeletionsBy([GOING], after.primary, after.Delete(), 20) == [d];
    GoingIsLive();
    assert Overdue(after, d, WAIT);
    assert d in [d];
    assert after.history[0].time == 12;
  }
}
