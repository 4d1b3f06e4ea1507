/** The Runner judges a settle wait where it ends, and the engine judges it again
    at every later checkpoint, over a longer recording. This module proves that two
    recordings which hold the same run up to the end of a wait judge it alike.
 */
module VerdictStability {
  import opened Instants
  import opened Recording
  import opened States
  import opened Verdicts

  // ----- recordings that agree up to an instant

  ghost predicate Visible(f: FaultWindow, t: Instant) {
    f.start <= t || ZERO < f.end <= t
  }

  ghost predicate HoldsFault(faults: seq<FaultWindow>, seen: FaultWindow, t: Instant) {
    exists g :: g in faults && g.AsOf(t) == seen
  }

  ghost predicate FaultsIn(a: seq<FaultWindow>, b: seq<FaultWindow>, t: Instant) {
    forall f :: f in a && Visible(f, t) ==> HoldsFault(b, f.AsOf(t), t)
  }

  ghost predicate RequestsIn(a: seq<Request>, b: seq<Request>, t: Instant) {
    forall r :: r in a && r.start <= t ==> r in b
  }

  ghost predicate ExitsIn(a: seq<Exit>, b: seq<Exit>, t: Instant) {
    forall e :: e in a && e.at <= t ==> e in b
  }

  ghost predicate ConvergedIn(a: seq<Checkpoint>, b: seq<Checkpoint>, t: Instant) {
    forall c :: c in a && c.settle == Converged && c.time <= t ==> c in b
  }

  /** But for their requests, the two recordings hold the same run up to t: either
      may add versions, exits, converged checkpoints and fault starts or ends after
      t, and any op at all. */
  ghost predicate AgreeBesides(a: Input, b: Input, t: Instant) {
    && a.Recorded() && b.Recorded()
    && a.declared == b.declared && a.primary == b.primary
    && t <= a.End() && t <= b.End()
    && UpTo(a.history, t) == UpTo(b.history, t)
    && ConvergedIn(a.checkpoints, b.checkpoints, t) && ConvergedIn(b.checkpoints, a.checkpoints, t)
    && FaultsIn(a.faults, b.faults, t) && FaultsIn(b.faults, a.faults, t)
    && ExitsIn(a.exits, b.exits, t) && ExitsIn(b.exits, a.exits, t)
  }

  /** The two recordings hold the same run up to t. Either may add requests after t;
      one logged by t has its status in both. */
  ghost predicate AgreeUpTo(a: Input, b: Input, t: Instant) {
    AgreeBesides(a, b, t) && RequestsIn(a.requests, b.requests, t) && RequestsIn(b.requests, a.requests, t)
  }

  // ----- each verdict reads only what both recordings hold

  lemma LastConvergedAgrees(a: Input, b: Input, t: Instant, x: Instant)
    requires AgreeBesides(a, b, t) && x <= t
    ensures LastConverged(a.checkpoints, x) == LastConverged(b.checkpoints, x)
  {
  }

  lemma FaultedIn(a: seq<FaultWindow>, b: seq<FaultWindow>, t: Instant, from: Instant, to: Instant)
    requires FaultsIn(a, b, t) && from <= t && to <= t && Faulted(a, from, to)
    ensures Faulted(b, from, to)
  {
    var f :| f in a && f.Overlaps(from, to);
    assert HoldsFault(b, f.AsOf(t), t);
    var g :| g in b && g.AsOf(t) == f.AsOf(t);
    assert g.Overlaps(from, to);
  }

  lemma FaultedAgrees(a: Input, b: Input, t: Instant, from: Instant, to: Instant)
    requires AgreeBesides(a, b, t) && from <= t && to <= t
    ensures Faulted(a.faults, from, to) == Faulted(b.faults, from, to)
  {
    if Faulted(a.faults, from, to) {
      FaultedIn(a.faults, b.faults, t, from, to);
    }
    if Faulted(b.faults, from, to) {
      FaultedIn(b.faults, a.faults, t, from, to);
    }
  }

  lemma StoppedIn(a: seq<FaultWindow>, b: seq<FaultWindow>, t: Instant, recovered: Instant, x: Instant)
    requires FaultsIn(a, b, t) && ZERO <= recovered && x <= t
    ensures forall f :: f in a && StoppedSince(f, recovered, x) ==> f in b
  {
    forall f | f in a && StoppedSince(f, recovered, x)
      ensures f in b
    {
      assert Visible(f, t) && HoldsFault(b, f.AsOf(t), t);
    }
  }

  lemma FaultsOwedAgrees(a: Input, b: Input, t: Instant, x: Instant)
    requires AgreeBesides(a, b, t) && x <= t
    ensures FaultsOwed(a, x) == FaultsOwed(b, x)
  {
    LastConvergedAgrees(a, b, t, x);
    var recovered := LastConverged(a.checkpoints, x);
    StoppedSpanIsSpan(a.faults, recovered, x);
    StoppedSpanIsSpan(b.faults, recovered, x);
    StoppedIn(a.faults, b.faults, t, recovered, x);
    StoppedIn(b.faults, a.faults, t, recovered, x);
  }

  lemma FaultsExcuseAgrees(a: Input, b: Input, t: Instant, x: Instant)
    requires AgreeBesides(a, b, t) && x <= t
    ensures FaultsExcuse(a, x) == FaultsExcuse(b, x)
  {
    FaultedAgrees(a, b, t, x, x);
    FaultsOwedAgrees(a, b, t, x);
  }

  /** A sign seen by t is the same in both; one seen later is seen by t in
      neither. */
  lemma FirstAgrees(a: seq<Request>, b: seq<Request>, t: Instant, since: Instant, sign: Sign)
    requires RequestsIn(a, b, t) && RequestsIn(b, a, t) && since >= ZERO
    ensures ZERO < First(a, since, sign) <= t || ZERO < First(b, since, sign) <= t ==>
              First(a, since, sign) == First(b, since, sign)
  {
    FirstIsFirst(a, since, sign);
    FirstIsFirst(b, since, sign);
  }

  lemma BackAgrees(a: seq<Request>, b: seq<Request>, t: Instant, since: Instant)
    requires RequestsIn(a, b, t) && RequestsIn(b, a, t) && since >= ZERO
    requires Electing(a) == Electing(b)
    ensures ZERO < Back(a, since) <= t || ZERO < Back(b, since) <= t ==> Back(a, since) == Back(b, since)
    ensures Back(a, since) == ZERO || Back(a, since) > since
  {
    FirstAgrees(a, b, t, since, Working);
    FirstAgrees(a, b, t, since, Getting);
    FirstIsFirst(a, since, Working);
    FirstIsFirst(a, since, Getting);
    FirstIsFirst(b, since, Getting);
    if First(a, since, Getting) != ZERO {
      FirstIsFirst(a, First(a, since, Getting), Winning);
      FirstAgrees(a, b, t, First(a, since, Getting), Winning);
    }
    if First(b, since, Getting) != ZERO {
      FirstIsFirst(b, First(b, since, Getting), Winning);
    }
  }

  /** Whether t is still before what a restart owes does not depend on what the
      target did after t: a return after t comes too late to shorten the wait. */
  lemma SettledAgrees(a: Input, b: Input, t: Instant, restart: Instant)
    requires AgreeUpTo(a, b, t) && Electing(a.requests) == Electing(b.requests) && restart >= ZERO
    ensures t < SettledBy(a, restart) <==> t < SettledBy(b, restart)
  {
    BackAgrees(a.requests, b.requests, t, restart);
    BackAgrees(b.requests, a.requests, t, restart);
  }

  lemma CountsIn(a: Input, b: Input, t: Instant, e: Exit)
    requires AgreeBesides(a, b, t) && !Faulted(a.faults, t, t)
    requires e in a.exits && Counts(a, e, t)
    ensures e in b.exits && Counts(b, e, t)
  {
    LastConvergedAgrees(a, b, t, t);
    FaultedAgrees(a, b, t, t, t);
    FaultsExcuseAgrees(a, b, t, e.at);
  }

  /** What is left of Recovering once no fault is active at t. */
  ghost predicate OwedPast(input: Input, t: Instant) {
    || t < FaultsOwed(input, t)
    || exists e :: e in input.exits && Counts(input, e, t) && t < SettledBy(input, e.restart)
  }

  lemma RecoveringMeans(input: Input, t: Instant)
    ensures Recovering(input, t) <==> Faulted(input.faults, t, t) || OwedPast(input, t)
  {
    BeforeOwed(input, t, |input.exits|, t);
  }

  lemma RecoveringIn(a: Input, b: Input, t: Instant)
    requires AgreeUpTo(a, b, t) && Electing(a.requests) == Electing(b.requests) && Recovering(a, t)
    ensures Recovering(b, t)
  {
    RecoveringMeans(a, t);
    RecoveringMeans(b, t);
    FaultedAgrees(a, b, t, t, t);
    FaultsOwedAgrees(a, b, t, t);
    if !Faulted(a.faults, t, t) && !(t < FaultsOwed(a, t)) {
      var e :| e in a.exits && Counts(a, e, t) && t < SettledBy(a, e.restart);
      CountsIn(a, b, t, e);
      SettledAgrees(a, b, t, e.restart);
    }
  }

  lemma {:induction false} DeletionsAgree(log: seq<Version>, primary: string, patience: Duration, t: Instant)
    ensures DeletionsBy(log, primary, patience, t) == DeletionsBy(UpTo(log, t), primary, patience, t)
  {
    if log != [] {
      var front, last := log[..|log| - 1], log[|log| - 1];
      DeletionsAgree(front, primary, patience, t);
      assert log == front + [last];
      UpToSnoc(front, last, t);
      if last.time <= t {
        assert UpTo(log, t)[..|UpTo(log, t)| - 1] == UpTo(front, t);
      }
    }
  }

  lemma OverdueIn(a: Input, b: Input, d: Deletion, c: Checkpoint)
    requires AgreeBesides(a, b, c.time) && c.began <= c.time && d.at <= c.time && Overdue(a, d, c)
    ensures Overdue(b, d, c)
  {
    FaultedAgrees(a, b, c.time, d.at, d.deadline);
    StateAgrees(a, b, Later(d.deadline, c.began), c.time);
  }

  lemma SameDeletions(a: Input, b: Input, t: Instant)
    requires AgreeBesides(a, b, t)
    ensures DeletionsBy(a.history, a.primary, a.Delete(), t) == DeletionsBy(b.history, b.primary, b.Delete(), t)
  {
    DeletionsAgree(a.history, a.primary, a.Delete(), t);
    DeletionsAgree(b.history, b.primary, b.Delete(), t);
  }

  lemma DeletionOverdueIn(a: Input, b: Input, c: Checkpoint)
    requires AgreeBesides(a, b, c.time) && c.began <= c.time && DeletionOverdue(a, c)
    ensures DeletionOverdue(b, c)
  {
    SameDeletions(a, b, c.time);
    var d :| d in DeletionsBy(a.history, a.primary, a.Delete(), c.time) && Overdue(a, d, c);
    var p := DeletionsDue(a.history, a.primary, a.Delete(), c.time, d);
    OverdueIn(a, b, d, c);
  }

  lemma AgreeSymmetric(a: Input, b: Input, t: Instant)
    requires AgreeUpTo(a, b, t)
    ensures AgreeUpTo(b, a, t)
  {
  }

  /** The verdict on a wait that expired at t is the same in every recording that
      holds the same run up to t, as long as both show leader election or neither
      does. */
  lemma VerdictStable(a: Input, b: Input, c: Checkpoint)
    requires AgreeUpTo(a, b, c.time) && Electing(a.requests) == Electing(b.requests)
    requires c.began <= c.time
    ensures Excused(a, c) == Excused(b, c)
  {
    AgreeSymmetric(a, b, c.time);
    if Recovering(a, c.time) {
      RecoveringIn(a, b, c.time);
    }
    if Recovering(b, c.time) {
      RecoveringIn(b, a, c.time);
    }
    if DeletionOverdue(a, c) {
      DeletionOverdueIn(a, b, c);
    }
    if DeletionOverdue(b, c) {
      DeletionOverdueIn(b, a, c);
    }
  }

  // ----- a wait that ran until its owed time was up

  /** No fault is active at t, or ended since `read`. */
  ghost predicate NoFaultSince(faults: seq<FaultWindow>, read: Instant, t: Instant) {
    !Faulted(faults, t, t) && forall f :: f in faults ==> !(read < f.end <= t)
  }

  lemma SpanShrinks(faults: seq<FaultWindow>, early: Instant, late: Instant, read: Instant, t: Instant)
    requires ZERO <= early <= late && forall f :: f in faults ==> f.start > ZERO && !(read < f.end <= t)
    ensures var before, after := StoppedSpan(faults, early, read), StoppedSpan(faults, late, t);
            after.last != ZERO ==> before.last != ZERO && before.first <= after.first && after.last <= before.last
  {
    StoppedSpanIsSpan(faults, early, read);
    StoppedSpanIsSpan(faults, late, t);
    var before, after := StoppedSpan(faults, early, read), StoppedSpan(faults, late, t);
    if after.last != ZERO {
      var f :| f in faults && StoppedSince(f, late, t) && f.start == after.first;
      var g :| g in faults && StoppedSince(g, late, t) && g.end == after.last;
      assert StoppedSince(f, early, read) && StoppedSince(g, early, read);
    }
  }

  /** Without a fault ended since `read`, the faults owe nothing at t or no more than
      they did: a later recovery only leaves fewer of them to owe for. */
  lemma FaultsOweNoMore(a: Input, b: Input, read: Instant, t: Instant)
    requires AgreeBesides(a, b, read) && read <= t
    requires forall f :: f in b.faults ==> !(read < f.end <= t)
    ensures FaultsOwed(b, t) == ZERO || FaultsOwed(b, t) <= FaultsOwed(a, read)
  {
    FaultsOwedAgrees(a, b, read, read);
    SpanShrinks(b.faults, LastConverged(b.checkpoints, read), LastConverged(b.checkpoints, t), read, t);
  }

  lemma QuietThroughout(faults: seq<FaultWindow>, x: Instant, read: Instant, t: Instant)
    requires NoFaultSince(faults, read, t) && read <= x <= t
    ensures !Faulted(faults, x, x)
  {
    forall f | f in faults ensures !f.Overlaps(x, x) {
      assert !f.Overlaps(t, t);
    }
  }

  /** An exit that still counts at t had come and counted by `read`. */
  lemma CountedBefore(a: Input, b: Input, read: Instant, t: Instant, e: Exit)
    requires AgreeBesides(a, b, read) && ZERO <= read <= t && NoFaultSince(b.faults, read, t)
    requires FaultsOwed(a, read) <= read
    requires e in b.exits && Counts(b, e, t)
    ensures e in a.exits && Counts(a, e, read)
  {
    if e.at > read {
      QuietThroughout(b.faults, e.at, read, t);
      FaultsOweNoMore(a, b, read, e.at);
      assert false;
    }
    QuietThroughout(b.faults, read, read, t);
    AgreeBesidesSymmetric(a, b, read);
    assert Counts(b, e, read);
    CountsIn(b, a, read, e);
  }

  lemma AgreeBesidesSymmetric(a: Input, b: Input, t: Instant)
    requires AgreeBesides(a, b, t)
    ensures AgreeBesides(b, a, t)
  {
  }

  /** A wait that read at some instant that its owed time was up, and saw no fault
      since, is excused by no fault, in any later recording. */
  lemma WaitedItsTime(a: Input, b: Input, read: Instant, t: Instant)
    requires AgreeUpTo(a, b, read) && Electing(a.requests) == Electing(b.requests)
    requires ZERO <= read <= t && Owed(a, read) <= read && NoFaultSince(b.faults, read, t)
    ensures !Recovering(b, t)
  {
    BeforeOwed(a, read, |a.exits|, read);
    RecoveringMeans(b, t);
    FaultsOweNoMore(a, b, read, t);
    forall e | e in b.exits && Counts(b, e, t) ensures SettledBy(b, e.restart) <= t {
      CountedBefore(a, b, read, t, e);
      SettledAgrees(a, b, read, e.restart);
    }
  }

  /** So only an overdue deletion excuses it. */
  lemma WaitedOnlyDeletionExcuses(a: Input, b: Input, read: Instant, c: Checkpoint)
    requires AgreeUpTo(a, b, read) && Electing(a.requests) == Electing(b.requests)
    requires ZERO <= read <= c.time && Owed(a, read) <= read && NoFaultSince(b.faults, read, c.time)
    ensures Excused(b, c) <==> DeletionOverdue(b, c)
  {
    WaitedItsTime(a, b, read, c.time);
  }
}
