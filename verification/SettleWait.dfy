/** The settle wait: a loop that polls the run until the target has converged or
    its time has run out.

    The wait sees the run only through what each poll reads. A poll reads the
    target's state, then the clock, then the proxy's held requests at one instant,
    then the time owed, then the held requests again at a later instant. Any time
    may pass between these reads.
 */
module SettleWait {
  import opened Instants
  import FaultProxy

  /** A request the proxy held: when it arrived, when a delay took it, and when it
      was released in the end. */
  datatype Held = Held(arrived: Instant, taken: Instant, released: Instant)

  datatype Poll = Poll(
    now: Instant, ready: bool, changed: Instant, failed: bool, stopped: bool, owed: Instant,
    firstLook: Instant, secondLook: Instant, canceled: bool)

  /** The zero floor is no floor, and the zero owed is nothing owed. */
  datatype Wait = Wait(
    start: Instant, settle: Duration, stable: Duration, poll: Duration, floor: Instant,
    polls: nat -> Poll, held: seq<Held>)

  datatype Outcome = Converged | Expired | Stopped | Failed | Canceled

  /** Instants come in the order they are read, and a sleep lasts at least a poll. */
  ghost predicate Clocked(w: Wait) {
    && w.start > ZERO && w.settle > 0 && w.stable > 0 && w.poll > 0
    && (forall i: nat :: PollClocked(w, i))
    && (forall h :: h in w.held ==> ZERO < h.arrived <= h.taken <= h.released)
  }

  ghost predicate PollClocked(w: Wait, i: nat) {
    var p := w.polls(i);
    && w.start <= p.now <= p.firstLook <= p.secondLook
    && w.start <= p.changed
    && p.secondLook + w.poll <= w.polls(i + 1).now
  }

  // What a poll may decide, in terms of the requests themselves.

  /** Every hold the proxy had recorded by `look`, of a request that arrived before
      `before`, was over by then and at least `quiet` before `now`. */
  ghost predicate ReleasedLongAgo(held: seq<Held>, before: Instant, look: Instant, quiet: Duration, now: Instant) {
    forall h :: h in held && h.arrived < before && h.taken <= look ==> h.released <= look && h.released + quiet <= now
  }

  ghost predicate MayConverge(w: Wait, p: Poll) {
    && p.ready && p.changed + w.stable <= p.now && w.floor <= p.now
    && ReleasedLongAgo(w.held, p.now, p.firstLook, w.stable, p.now)
  }

  function Deadline(w: Wait, p: Poll): Instant {
    Later(Later(w.start + w.settle, w.floor + w.stable), p.owed)
  }

  ghost predicate MayGiveUp(w: Wait, p: Poll) {
    && Deadline(w, p) <= p.now
    && ReleasedLongAgo(w.held, Deadline(w, p), p.secondLook, w.settle, p.now)
  }

  /** A poll that decides nothing. */
  ghost predicate Undecided(w: Wait, p: Poll) {
    !p.failed && !p.stopped && !MayConverge(w, p) && !MayGiveUp(w, p) && !p.canceled
  }

  // The proxy's answers.

  /** The holds as the proxy's records show them at `look`. */
  function Records(held: seq<Held>, look: Instant): seq<FaultProxy.Hold> {
    if held == [] then []
    else
      var h := held[|held| - 1];
      Records(held[..|held| - 1], look) +
      if h.taken <= look then [FaultProxy.Hold(h.arrived, if h.released <= look then h.released else ZERO)] else []
  }

  lemma {:induction false} RecordsShow(held: seq<Held>, look: Instant)
    ensures forall h :: h in held && h.taken <= look
              ==> FaultProxy.Hold(h.arrived, if h.released <= look then h.released else ZERO) in Records(held, look)
    ensures forall r :: r in Records(held, look)
              ==> exists h :: h in held && h.taken <= look && r == FaultProxy.Hold(h.arrived, if h.released <= look then h.released else ZERO)
  {
    if held != [] {
      var front := held[..|held| - 1];
      RecordsShow(front, look);
      assert held == front + [held[|held| - 1]];
    }
  }

  /** What the proxy answers about the requests that arrived before an instant, and
      what that says about when their holds were over. */
  method Look(held: seq<Held>, before: Instant, look: Instant) returns (holding: bool, released: Instant)
    requires forall h :: h in held ==> ZERO < h.arrived <= h.taken <= h.released
    ensures holding ==> exists h :: h in held && h.arrived < before && h.taken <= look < h.released
    ensures holding ==> forall quiet, now :: !ReleasedLongAgo(held, before, look, quiet, now)
    ensures !holding ==> forall quiet, now :: ReleasedLongAgo(held, before, look, quiet, now) <==> (released == ZERO || released + quiet <= now)
    ensures released == ZERO || exists h :: h in held && h.arrived < before && h.released == released <= look
  {
    var records := Records(held, look);
    RecordsShow(held, look);
    holding, released := FaultProxy.HeldBy(records, before, ZERO);
    if holding {
      SomeHeld(held, before, look, records);
    } else {
      NoneHeld(held, before, look, records, released);
    }
    ReleaseIsOne(held, before, look, records, released);
  }

  lemma SomeHeld(held: seq<Held>, before: Instant, look: Instant, records: seq<FaultProxy.Hold>)
    requires forall h :: h in held ==> ZERO < h.arrived <= h.taken <= h.released
    requires forall r :: r in records
               ==> exists h :: h in held && h.taken <= look && r == FaultProxy.Hold(h.arrived, if h.released <= look then h.released else ZERO)
    requires FaultProxy.HoldsOpen(records, before)
    ensures exists h :: h in held && h.arrived < before && h.taken <= look < h.released
    ensures forall quiet, now :: !ReleasedLongAgo(held, before, look, quiet, now)
  {
    var r :| r in records && r.arrived < before && r.released == ZERO;
    var h :| h in held && h.taken <= look && r == FaultProxy.Hold(h.arrived, if h.released <= look then h.released else ZERO);
    assert h.arrived < before && h.taken <= look < h.released;
  }

  lemma ReleaseIsOne(held: seq<Held>, before: Instant, look: Instant, records: seq<FaultProxy.Hold>, released: Instant)
    requires forall r :: r in records
               ==> exists h :: h in held && h.taken <= look && r == FaultProxy.Hold(h.arrived, if h.released <= look then h.released else ZERO)
    requires released == ZERO || FaultProxy.ReleasedAt(records, before, released)
    ensures released == ZERO || exists h :: h in held && h.arrived < before && h.released == released <= look
  {
    if released != ZERO {
      var r :| r in records && r.arrived < before && r.released == released;
    }
  }

  lemma NoneHeld(held: seq<Held>, before: Instant, look: Instant, records: seq<FaultProxy.Hold>, released: Instant)
    requires forall h :: h in held ==> ZERO < h.arrived <= h.taken <= h.released
    requires forall h :: h in held && h.taken <= look
               ==> FaultProxy.Hold(h.arrived, if h.released <= look then h.released else ZERO) in records
    requires forall r :: r in records
               ==> exists h :: h in held && h.taken <= look && r == FaultProxy.Hold(h.arrived, if h.released <= look then h.released else ZERO)
    requires !FaultProxy.HoldsOpen(records, before) && FaultProxy.ReleasedBy(records, before, released)
    requires released == ZERO || FaultProxy.ReleasedAt(records, before, released)
    ensures forall quiet, now :: ReleasedLongAgo(held, before, look, quiet, now) <==> (released == ZERO || released + quiet <= now)
  {
    forall h | h in held && h.arrived < before && h.taken <= look ensures h.released <= look && h.released <= released {
      var r := FaultProxy.Hold(h.arrived, if h.released <= look then h.released else ZERO);
      assert r in records;
    }
    if released != ZERO {
      var r :| r in records && r.arrived < before && r.released == released;
    }
  }

  /** When a wait whose time runs out at `deadline` may end. It lies ahead of `now`
      exactly while the wait must go on. */
  method HeldOpen(w: Wait, p: Poll, deadline: Instant) returns (end: Instant)
    requires forall h :: h in w.held ==> ZERO < h.arrived <= h.taken <= h.released
    requires w.settle > 0 && deadline > w.settle
    ensures end <= p.now <==> deadline <= p.now && ReleasedLongAgo(w.held, deadline, p.secondLook, w.settle, p.now)
  {
    var holding, released := Look(w.held, deadline, p.secondLook);
    if holding {
      assert !ReleasedLongAgo(w.held, deadline, p.secondLook, w.settle, p.now);
      released := p.now;
    } else {
      assert ReleasedLongAgo(w.held, deadline, p.secondLook, w.settle, p.now) <==> (released == ZERO || released + w.settle <= p.now);
    }
    end := released + w.settle;
    if end <= deadline {
      end := deadline;
    }
  }

  /** One turn of the loop: it decides exactly what the poll allows, and a target
      that stopped never converges. */
  method Turn(w: Wait, p: Poll) returns (decided: bool, outcome: Outcome)
    requires forall h :: h in w.held ==> ZERO < h.arrived <= h.taken <= h.released
    requires w.start > ZERO && w.settle > 0 && w.stable > 0 && w.start <= p.changed
    ensures decided <==> !Undecided(w, p)
    ensures Undecided(w, p) ==> !Quiet(w, p) && !TimeUp(w, p)
    ensures decided && outcome == Failed <==> p.failed
    ensures decided && outcome == Stopped <==> !p.failed && p.stopped
    ensures decided && outcome == Converged <==> !p.failed && !p.stopped && Quiet(w, p)
    ensures decided && outcome == Expired <==> !p.failed && !p.stopped && !Quiet(w, p) && TimeUp(w, p)
  {
    PollMeans(w, p);
    decided, outcome := true, Failed;
    if p.failed {
      return;
    }
    if p.stopped {
      outcome := Stopped;
      return;
    }
    var changed := p.changed;
    var holding, released := Look(w.held, p.now, p.firstLook);
    if holding {
      assert !ReleasedLongAgo(w.held, p.now, p.firstLook, w.stable, p.now);
      changed := p.now;
    } else {
      assert ReleasedLongAgo(w.held, p.now, p.firstLook, w.stable, p.now) <==> (released == ZERO || released + w.stable <= p.now);
      if released > changed {
        changed := released;
      }
    }
    if p.ready && changed + w.stable <= p.now && w.floor <= p.now {
      outcome := Converged;
      return;
    }
    var deadline := w.start + w.settle;
    if w.floor + w.stable > deadline {
      deadline := w.floor + w.stable;
    }
    if p.owed > deadline {
      deadline := p.owed;
    }
    var end := HeldOpen(w, p, deadline);
    if end <= p.now {
      outcome := Expired;
      return;
    }
    decided, outcome := p.canceled, Canceled;
  }

  // The bound.

  /** Nothing is owed past `owed`, a fault takes a request within `handoff` of its
      arrival, and no hold outlasts `delay`. */
  ghost predicate Bounded(w: Wait, owed: Instant, handoff: Duration, delay: Duration) {
    && handoff >= 0 && delay >= 0
    && (forall i: nat :: w.polls(i).owed <= owed)
    && (forall h :: h in w.held ==> h.taken <= h.arrived + handoff && h.released <= h.taken + delay)
  }

  /** A poll begins no later than a sleep and this much more after the one before. */
  ghost predicate Prompt(w: Wait, slack: Duration) {
    forall i: nat :: NextPrompt(w, slack, i)
  }

  ghost predicate NextPrompt(w: Wait, slack: Duration, i: nat) {
    w.polls(i + 1).now <= w.polls(i).now + w.poll + slack
  }

  function Limit(w: Wait, owed: Instant, handoff: Duration, delay: Duration): Instant {
    Later(Later(w.start + w.settle, w.floor + w.stable), owed) + handoff + delay + w.settle
  }

  /** A poll that may not give up comes before the limit. */
  lemma UndecidedIsEarly(w: Wait, i: nat, owed: Instant, handoff: Duration, delay: Duration)
    requires Clocked(w) && Bounded(w, owed, handoff, delay) && !MayGiveUp(w, w.polls(i))
    ensures w.polls(i).now < Limit(w, owed, handoff, delay)
  {
    var p := w.polls(i);
    assert PollClocked(w, i);
    assert p.owed <= owed;
    var deadline := Deadline(w, p);
    if deadline <= p.now {
      var h :| h in w.held && h.arrived < deadline && h.taken <= p.secondLook && !(h.released <= p.secondLook && h.released + w.settle <= p.now);
      assert h.taken <= h.arrived + handoff && h.released <= h.taken + delay;
    }
  }

  /** The target is ready, nothing changed for the stable window, the floor is past,
      and the proxy had let go, that long ago, of every request it had held that
      arrived by now. */
  ghost predicate Quiet(w: Wait, p: Poll) {
    && p.ready && p.changed + w.stable <= p.now && w.floor <= p.now
    && forall h :: h in w.held && h.arrived < p.now && h.taken <= p.firstLook ==>
         h.released <= p.firstLook && h.released + w.stable <= p.now
  }

  /** The settle timeout from the start, the stable window from the floor and what is
      owed are all up, and the proxy had let go, a settle timeout ago, of every request
      it had held that arrived before the latest of the three. */
  ghost predicate TimeUp(w: Wait, p: Poll) {
    && w.start + w.settle <= p.now && w.floor + w.stable <= p.now && p.owed <= p.now
    && forall h :: h in w.held && h.taken <= p.secondLook &&
                   (h.arrived < w.start + w.settle || h.arrived < w.floor + w.stable || h.arrived < p.owed) ==>
         h.released <= p.secondLook && h.released + w.settle <= p.now
  }

  lemma PollMeans(w: Wait, p: Poll)
    ensures MayConverge(w, p) <==> Quiet(w, p)
    ensures MayGiveUp(w, p) <==> TimeUp(w, p)
  {
  }

  /** The wait returns at the first poll that decides, so it converges at the first
      that may and never gives up on a running target before one may; and it
      always returns, every earlier poll having read the clock before the limit, so
      no later than one poll past it. */
  method Run(w: Wait, ghost owed: Instant, ghost handoff: Duration, ghost delay: Duration, ghost slack: Duration)
    returns (outcome: Outcome, n: nat)
    requires Clocked(w) && Bounded(w, owed, handoff, delay) && Prompt(w, slack)
    ensures forall i: nat :: i < n ==>
              && !w.polls(i).failed && !w.polls(i).stopped && !w.polls(i).canceled
              && !Quiet(w, w.polls(i)) && !TimeUp(w, w.polls(i))
              && w.polls(i).now < Limit(w, owed, handoff, delay)
    ensures n > 0 ==> w.start + (n - 1) * w.poll < Limit(w, owed, handoff, delay)
    ensures n > 0 ==> w.polls(n).now < Limit(w, owed, handoff, delay) + w.poll + slack
    ensures outcome == Failed <==> w.polls(n).failed
    ensures outcome == Stopped <==> !w.polls(n).failed && w.polls(n).stopped
    ensures outcome == Converged <==> !w.polls(n).failed && !w.polls(n).stopped && Quiet(w, w.polls(n))
    ensures outcome == Expired <==>
            !w.polls(n).failed && !w.polls(n).stopped && !Quiet(w, w.polls(n)) && TimeUp(w, w.polls(n))
    ensures outcome == Canceled ==> w.polls(n).canceled
  {
    n := 0;
    while true
      invariant forall i: nat :: i < n ==>
                  && !w.polls(i).failed && !w.polls(i).stopped && !w.polls(i).canceled
                  && !Quiet(w, w.polls(i)) && !TimeUp(w, w.polls(i))
                  && w.polls(i).now < Limit(w, owed, handoff, delay)
      invariant PollClocked(w, n) && w.start + n * w.poll <= w.polls(n).now
      invariant n > 0 ==> w.start + (n - 1) * w.poll < Limit(w, owed, handoff, delay)
      invariant n > 0 ==> w.polls(n).now < Limit(w, owed, handoff, delay) + w.poll + slack
      decreases Limit(w, owed, handoff, delay) - w.polls(n).now
    {
      assert PollClocked(w, n);
      var decided;
      decided, outcome := Turn(w, w.polls(n));
      PollMeans(w, w.polls(n));
      if decided {
        return;
      }
      UndecidedIsEarly(w, n, owed, handoff, delay);
      assert NextPrompt(w, slack, n);
      n := n + 1;
    }
  }
}
