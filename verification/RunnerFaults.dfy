/** The Runner's side of the faults: it injects them, removes those whose op has
    come, copies their windows into the run's timeline and drops the ones that have
    ended. The proxy goes on serving requests between any two of its calls.
 */
module RunnerFaults {
  import opened Instants
  import opened Options
  import opened FaultProxy
  import opened FaultRuns
  import Recording

  datatype Window = Window(start: Instant, end: Instant)

  datatype HeldFault = HeldFault(id: nat, until: Option<int>, window: nat, retired: bool)

  /** `held` is what the Runner still watches, `windows` the timeline's faults. */
  datatype Runner = Runner(proxy: State, held: seq<HeldFault>, windows: seq<Window>)

  datatype Move =
    | Meanwhile(step: Step)
    | Inject(spec: Spec, until: Option<int>, now: Instant)
    | Remove(i: nat, op: int, now: Instant)
    | ReadWindow(i: nat, now: Instant)
    | Drop

  const START := Runner(INIT, [], [])

  /** The proxy step that a move makes. */
  ghost function Proxied(r: Runner, move: Move): Step
    requires move.Remove? ==> move.i < |r.held|
  {
    match move
    case Meanwhile(step) => step
    case Inject(spec, _, now) => Add(spec, now)
    case Remove(i, _, now) => Step.Remove(r.held[i].id, now)
    case ReadWindow(_, now) => Look(now)
    case Drop => Look(r.proxy.clock)
  }

  ghost predicate Can(r: Runner, move: Move) {
    && (move.Remove? ==> move.i < |r.held| && r.held[move.i].until.Some? && r.held[move.i].until.value <= move.op)
    && (move.ReadWindow? ==> move.i < |r.held| && r.held[move.i].id < |r.proxy.faults| && r.held[move.i].window < |r.windows|)
    && (move.Meanwhile? ==> !move.step.Add?)
    && (move.Drop? || Legal(r.proxy, Proxied(r, move)))
  }

  function StillHeld(held: seq<HeldFault>): seq<HeldFault> {
    if held == [] then []
    else StillHeld(held[..|held| - 1]) + (if held[|held| - 1].retired then [] else [held[|held| - 1]])
  }

  ghost function Do(r: Runner, move: Move): Runner
    requires Can(r, move)
  {
    var proxy := if move.Drop? then r.proxy else Next(r.proxy, Proxied(r, move));
    match move
    case Meanwhile(_) => r.(proxy := proxy)
    case Remove(_, _, _) => r.(proxy := proxy)
    case Inject(_, until, _) =>
      Runner(proxy, r.held + [HeldFault(|r.proxy.faults|, until, |r.windows|, false)], r.windows + [Window(ZERO, ZERO)])
    case ReadWindow(i, now) =>
      var f := r.proxy.faults[r.held[i].id];
      Runner(proxy, r.held[i := r.held[i].(retired := f.EndedBy(now) != ZERO)],
             r.windows[r.held[i].window := Window(f.first, f.EndedBy(now))])
    case Drop => r.(held := StillHeld(r.held))
  }

  ghost predicate CanAll(r: Runner, moves: seq<Move>)
    decreases |moves|
  {
    moves == [] || (Can(r, moves[0]) && CanAll(Do(r, moves[0]), moves[1..]))
  }

  ghost function DoAll(r: Runner, moves: seq<Move>): Runner
    requires CanAll(r, moves)
    decreases |moves|
  {
    if moves == [] then r else DoAll(Do(r, moves[0]), moves[1..])
  }

  lemma DoOn(r: Runner, move: Move, rest: seq<Move>)
    requires Can(r, move) && CanAll(Do(r, move), rest)
    ensures CanAll(r, [move] + rest) && DoAll(r, [move] + rest) == DoAll(Do(r, move), rest)
  {
    assert ([move] + rest)[1..] == rest;
  }

  // What every move keeps.

  ghost predicate IsHeld(held: seq<HeldFault>, id: nat) {
    exists i :: 0 <= i < |held| && held[i].id == id && !held[i].retired
  }

  /** Each fault has one window, at its own index. */
  ghost predicate Wired(r: Runner) {
    && Inv(r.proxy)
    && |r.windows| == |r.proxy.faults|
    && (forall i :: 0 <= i < |r.held| ==> r.held[i].id == r.held[i].window < |r.windows|)
    && (forall i, j :: 0 <= i < j < |r.held| ==> r.held[i].id != r.held[j].id)
  }

  /** The timeline holds the fault's last word: some reading w already made found
      it closed for good, and this is the window it found. */
  ghost predicate Final(r: Runner, id: nat, w: Instant)
    requires id < |r.proxy.faults| && id < |r.windows|
  {
    var f := r.proxy.faults[id];
    w <= r.proxy.clock && Lasting(f, w) && r.windows[id] == Window(f.first, f.EndedBy(w))
  }

  ghost predicate FinalOnce(r: Runner, id: nat)
    requires id < |r.proxy.faults| && id < |r.windows|
  {
    exists w :: Final(r, id, w)
  }

  /** A fault with a span takes no request once its window is closed in the timeline,
      and a read that finds it closed finds it closed for good. */
  ghost predicate Current(r: Runner, move: Move, id: nat) {
    id < |r.proxy.faults| && id < |r.windows| && r.proxy.faults[id].spec.span > 0 ==>
      match move
      case Meanwhile(step) => step.Serve? && step.k == id ==> r.windows[id].end == ZERO
      case ReadWindow(i, now) =>
        i < |r.held| && r.held[i].id == id && r.proxy.faults[id].EndedBy(now) != ZERO ==> Lasting(r.proxy.faults[id], now)
      case _ => true
  }

  /** The move reads the fault's window and finds it open. */
  ghost predicate ReadsOpen(r: Runner, move: Move, id: nat) {
    && move.ReadWindow? && move.i < |r.held| && r.held[move.i].id == id
    && id < |r.proxy.faults| && r.proxy.faults[id].EndedBy(move.now) == ZERO
  }

  lemma {:induction false} StillHeldKeeps(held: seq<HeldFault>)
    ensures forall h :: h in StillHeld(held) <==> h in held && !h.retired
  {
    if held != [] {
      StillHeldKeeps(held[..|held| - 1]);
      assert held == held[..|held| - 1] + [held[|held| - 1]];
    }
  }

  ghost predicate Distinct(held: seq<HeldFault>) {
    forall i, j :: 0 <= i < j < |held| ==> held[i].id != held[j].id
  }

  lemma {:induction false} StillHeldDistinct(held: seq<HeldFault>)
    requires Distinct(held)
    ensures Distinct(StillHeld(held))
  {
    if held != [] {
      var front, last := held[..|held| - 1], held[|held| - 1];
      StillHeldDistinct(front);
      StillHeldKeeps(front);
      var kept := StillHeld(front);
      forall i | 0 <= i < |kept| ensures kept[i].id != last.id {
        assert kept[i] in front;
      }
    }
  }

  lemma DoKeepsWired(r: Runner, move: Move)
    requires Wired(r) && Can(r, move)
    ensures Wired(Do(r, move))
  {
    if move.Drop? {
      StillHeldKeeps(r.held);
      StillHeldDistinct(r.held);
      var kept := StillHeld(r.held);
      forall i | 0 <= i < |kept| ensures kept[i].id == kept[i].window < |r.windows| {
        assert kept[i] in r.held;
      }
    } else {
      NextKeepsInv(r.proxy, Proxied(r, move));
    }
  }

  /** Any two readings that find a window closed for good find the same one. */
  lemma LastingReadingsAgree(f: Injected, w: Instant, m: Instant, clock: Instant)
    requires Sound(f, clock) && Lasting(f, w) && Lasting(f, m)
    ensures f.EndedBy(m) == f.EndedBy(w)
  {
    ReadingsAgreeExactlyWhere(f, w, m, clock);
    LastReleaseIsLast(f.holds, f.WindowEnd());
  }

  lemma DoKeepsFinal(r: Runner, move: Move, id: nat, w: Instant)
    requires Wired(r) && Can(r, move) && id < |r.windows|
    requires Final(r, id, w) && Current(r, move, id) && !ReadsOpen(r, move, id)
    ensures Wired(Do(r, move)) && id < |Do(r, move).windows|
    ensures FinalOnce(Do(r, move), id)
    ensures Do(r, move).windows[id] == r.windows[id]
    ensures Do(r, move).proxy.faults[id].applied == r.proxy.faults[id].applied
  {
    DoKeepsWired(r, move);
    var q := Do(r, move);
    if move.Drop? {
      assert Final(q, id, w);
    } else {
      NextKeepsWindow(r.proxy, Proxied(r, move), id, w);
      if move.ReadWindow? && r.held[move.i].id == id {
        LastingReadingsAgree(r.proxy.faults[id], w, move.now, r.proxy.clock);
        assert Final(q, id, move.now);
      } else {
        assert Final(q, id, w);
      }
    }
  }

  lemma ClosedTakesNothing(f: Injected, w: Instant, now: Instant, r: Request, draw: real)
    requires Lasting(f, w) && w <= now
    ensures !Takes(f, r, draw, now)
  {
  }

  /** Readings in the order of the lock are current, where a closed window is final. */
  lemma InOrderIsCurrent(r: Runner, move: Move, id: nat)
    requires Wired(r) && Can(r, move) && id < |r.windows| && (r.windows[id].end != ZERO ==> FinalOnce(r, id))
    requires move.Meanwhile? && move.step.Serve? && move.step.k == id ==> move.step.now >= r.proxy.clock
    requires move.ReadWindow? && r.held[move.i].id == id ==> move.now >= r.proxy.clock
    ensures Current(r, move, id)
  {
    var f := r.proxy.faults[id];
    if move.Meanwhile? && move.step.Serve? && move.step.k == id && r.windows[id].end != ZERO {
      var w :| Final(r, id, w);
      ClosedTakesNothing(f, w, move.step.now, move.step.r, move.step.draws[id]);
    }
  }

  /** Every fault is still watched or its last window is in the timeline. */
  ghost predicate Settled(r: Runner, id: nat)
    requires id < |r.proxy.faults| && id < |r.windows|
  {
    IsHeld(r.held, id) || FinalOnce(r, id)
  }

  lemma DoSettles(r: Runner, move: Move, id: nat)
    requires Wired(r) && Can(r, move) && id < |Do(r, move).windows| && Wired(Do(r, move))
    requires id < |r.windows| ==> Settled(r, id) && Current(r, move, id)
    ensures Settled(Do(r, move), id)
  {
    var q := Do(r, move);
    if id >= |r.windows| {
      assert q.held[|r.held|].id == id;
    } else if !IsHeld(r.held, id) {
      var w :| Final(r, id, w);
      if ReadsOpen(r, move, id) {
        assert q.held[move.i].id == id && !q.held[move.i].retired;
      } else {
        DoKeepsFinal(r, move, id, w);
      }
    } else {
      var i :| 0 <= i < |r.held| && r.held[i].id == id && !r.held[i].retired;
      if move.Drop? {
        StillHeldKeeps(r.held);
        assert r.held[i] in q.held;
      } else if move.ReadWindow? && r.held[move.i].id == id && r.proxy.faults[id].EndedBy(move.now) != ZERO {
        assert Final(q, id, move.now);
      } else {
        assert q.held[i].id == id && !q.held[i].retired;
      }
    }
  }

  ghost predicate CurrentAll(r: Runner, moves: seq<Move>, id: nat)
    requires CanAll(r, moves)
    decreases |moves|
  {
    moves == [] || (Current(r, moves[0], id) && CurrentAll(Do(r, moves[0]), moves[1..], id))
  }

  lemma {:induction false} RunSettles(r: Runner, moves: seq<Move>, id: nat)
    requires Wired(r) && CanAll(r, moves) && CurrentAll(r, moves, id)
    requires id < |r.windows| ==> Settled(r, id)
    ensures Wired(DoAll(r, moves)) && (id < |DoAll(r, moves).windows| ==> Settled(DoAll(r, moves), id))
    decreases |moves|
  {
    if moves != [] {
      DoKeepsWired(r, moves[0]);
      if id < |Do(r, moves[0]).windows| {
        DoSettles(r, moves[0], id);
      }
      RunSettles(Do(r, moves[0]), moves[1..], id);
    }
  }

  lemma {:induction false} RunKeepsWired(r: Runner, moves: seq<Move>)
    requires Wired(r) && CanAll(r, moves)
    ensures Wired(DoAll(r, moves))
    decreases |moves|
  {
    if moves != [] {
      DoKeepsWired(r, moves[0]);
      RunKeepsWired(Do(r, moves[0]), moves[1..]);
    }
  }

  /** In every run, a fault the Runner no longer watches has a closed window in the
      timeline, and the proxy would report the same one at every later reading. */
  lemma DroppedFaultIsFinal(moves: seq<Move>, id: nat, m: Instant)
    requires CanAll(START, moves) && id < |DoAll(START, moves).proxy.faults|
    requires CurrentAll(START, moves, id)
    requires !IsHeld(DoAll(START, moves).held, id)
    requires DoAll(START, moves).proxy.faults[id].spec.span <= 0 || m >= DoAll(START, moves).proxy.clock
    ensures var r := DoAll(START, moves);
            && id < |r.windows| && r.windows[id].end != ZERO
            && r.windows[id] == Window(r.proxy.faults[id].first, r.proxy.faults[id].EndedBy(m))
  {
    RunKeepsWired(START, moves);
    var r := DoAll(START, moves);
    RunSettles(START, moves, id);
    var w :| Final(r, id, w);
    ReadingsAgreeExactlyWhere(r.proxy.faults[id], w, m, r.proxy.clock);
  }

  ghost predicate NeverReadsOpen(r: Runner, moves: seq<Move>, id: nat)
    requires CanAll(r, moves)
    decreases |moves|
  {
    moves == [] || (!ReadsOpen(r, moves[0], id) && NeverReadsOpen(Do(r, moves[0]), moves[1..], id))
  }

  /** A final window that no read finds open again stays in the timeline as it is, and
      the fault is not applied again, whatever the run goes on to do. */
  lemma {:induction false} FinalWindowStays(r: Runner, moves: seq<Move>, id: nat)
    requires Wired(r) && CanAll(r, moves) && id < |r.windows| && FinalOnce(r, id)
    requires CurrentAll(r, moves, id) && NeverReadsOpen(r, moves, id)
    ensures Wired(DoAll(r, moves)) && id < |DoAll(r, moves).windows|
    ensures DoAll(r, moves).windows[id] == r.windows[id]
    ensures DoAll(r, moves).proxy.faults[id].applied == r.proxy.faults[id].applied
    decreases |moves|
  {
    if moves != [] {
      var w :| Final(r, id, w);
      DoKeepsFinal(r, moves[0], id, w);
      FinalWindowStays(Do(r, moves[0]), moves[1..], id);
    }
  }

  ghost predicate Dropped(held: seq<HeldFault>, id: nat) {
    forall i :: 0 <= i < |held| ==> held[i].id != id
  }

  /** The Runner does not read a fault it has dropped. */
  lemma {:induction false} DroppedIsNotRead(r: Runner, moves: seq<Move>, id: nat)
    requires Wired(r) && CanAll(r, moves) && id < |r.windows| && Dropped(r.held, id)
    ensures NeverReadsOpen(r, moves, id)
    decreases |moves|
  {
    if moves != [] {
      DoKeepsWired(r, moves[0]);
      StillHeldKeeps(r.held);
      var q := Do(r, moves[0]);
      forall i | 0 <= i < |q.held| ensures q.held[i].id != id {
        assert moves[0].Drop? ==> q.held[i] in r.held;
      }
      DroppedIsNotRead(q, moves[1..], id);
    }
  }

  /** So the window of a dropped fault stays as it is. */
  lemma DroppedWindowStays(r: Runner, moves: seq<Move>, id: nat)
    requires Wired(r) && CanAll(r, moves) && id < |r.windows| && FinalOnce(r, id)
    requires Dropped(r.held, id) && CurrentAll(r, moves, id)
    ensures Wired(DoAll(r, moves)) && id < |DoAll(r, moves).windows|
    ensures DoAll(r, moves).windows[id] == r.windows[id]
    ensures DoAll(r, moves).proxy.faults[id].applied == r.proxy.faults[id].applied
  {
    DroppedIsNotRead(r, moves, id);
    FinalWindowStays(r, moves, id);
  }

  lemma {:induction false} RunKeepsBounds(r: Runner, moves: seq<Move>)
    requires Wired(r) && CanAll(r, moves) && Bounds(r.proxy)
    ensures Bounds(DoAll(r, moves).proxy)
    decreases |moves|
  {
    if moves != [] {
      DoKeepsWired(r, moves[0]);
      if !moves[0].Drop? {
        NextBounds(r.proxy, Proxied(r, moves[0]));
      }
      RunKeepsBounds(Do(r, moves[0]), moves[1..]);
    }
  }

  /** The window of a dropped fault that the checks receive holds every application
      of the fault and every release exactly where the request served first read the
      clock first and, unless a delay held them, the one that spent the count read
      it last. */
  lemma DroppedWindowHoldsAllExactlyWhere(moves: seq<Move>, id: nat)
    requires CanAll(START, moves) && id < |DoAll(START, moves).proxy.faults|
    requires CurrentAll(START, moves, id)
    requires !IsHeld(DoAll(START, moves).held, id)
    ensures var r := DoAll(START, moves);
            && id < |r.windows|
            && (HoldsAll(r.proxy, id, r.windows[id].start, r.windows[id].end) <==> EndsInOrder(r.proxy, id))
  {
    var r := DoAll(START, moves);
    DroppedFaultIsFinal(moves, id, r.proxy.clock);
    RunKeepsBounds(START, moves);
    CoveredExactlyWhere(r.proxy, id, r.proxy.clock);
  }

  /** Each request the fault takes brings a reading no older than those it took. */
  ghost predicate OrderedAll(r: Runner, moves: seq<Move>, id: nat)
    requires CanAll(r, moves)
    decreases |moves|
  {
    || moves == []
    || (&& (moves[0].Meanwhile? ==> InOrder(r.proxy, moves[0].step, id))
        && OrderedAll(Do(r, moves[0]), moves[1..], id))
  }

  lemma {:induction false} RunKeepsSequenced(r: Runner, moves: seq<Move>, id: nat)
    requires Wired(r) && CanAll(r, moves) && OrderedAll(r, moves, id)
    requires FirstIsUse(r.proxy) && Sequenced(r.proxy, id)
    ensures Sequenced(DoAll(r, moves).proxy, id)
    decreases |moves|
  {
    if moves != [] {
      DoKeepsWired(r, moves[0]);
      if !moves[0].Drop? {
        NextKeepsFirst(r.proxy, Proxied(r, moves[0]));
        NextSequenced(r.proxy, Proxied(r, moves[0]), id);
      }
      RunKeepsSequenced(Do(r, moves[0]), moves[1..], id);
    }
  }

  /** So it does where the fault's requests reach the lock in the order they read the
      clock. */
  lemma DroppedWindowHoldsAll(moves: seq<Move>, id: nat)
    requires CanAll(START, moves) && OrderedAll(START, moves, id)
    requires id < |DoAll(START, moves).proxy.faults|
    requires CurrentAll(START, moves, id)
    requires !IsHeld(DoAll(START, moves).held, id)
    ensures var r := DoAll(START, moves);
            id < |r.windows| && HoldsAll(r.proxy, id, r.windows[id].start, r.windows[id].end)
  {
    RunKeepsSequenced(START, moves, id);
    DroppedWindowHoldsAllExactlyWhere(moves, id);
  }

  /** The windows of faults the proxy applied, as the checks receive them. */
  method EngineFaults(windows: seq<Window>) returns (faults: seq<Recording.FaultWindow>)
    ensures forall i :: 0 <= i < |windows| && windows[i].start != ZERO ==> Recording.FaultWindow(windows[i].start, windows[i].end) in faults
    ensures forall f :: f in faults ==> f.start != ZERO && Window(f.start, f.end) in windows
  {
    faults := [];
    for n := 0 to |windows|
      invariant forall i :: 0 <= i < n && windows[i].start != ZERO ==> Recording.FaultWindow(windows[i].start, windows[i].end) in faults
      invariant forall f :: f in faults ==> f.start != ZERO && Window(f.start, f.end) in windows
    {
      if windows[n].start != ZERO {
        faults := faults + [Recording.FaultWindow(windows[n].start, windows[n].end)];
      }
    }
  }
}
