/** What a verdict on a settle wait means, in terms of the recording alone: the
    requests, versions, checkpoints, faults and exits it holds.
 */
module VerdictMeaning {
  import opened Instants
  import opened Recording
  import opened Sorting
  import opened States
  import opened Verdicts
  import opened VerdictStability
  import opened VersionStore

  /** The timeouts a target declares, and what they are where it declares none. */
  lemma TimeoutsMean(input: Input)
    ensures input.Settle() == if input.declared.settle > 0 then input.declared.settle else 30_000_000_000
    ensures input.Delete() == if input.declared.delete > 0 then input.declared.delete else 60_000_000_000
  {
  }

  // ----- faults

  /** A fault is active at t. */
  ghost predicate Active(faults: seq<FaultWindow>, t: Instant) {
    exists f :: f in faults && f.start <= t && (f.end == ZERO || t < f.end)
  }

  /** The latest wait that converged by t ended at r, and r is zero if none did. */
  ghost predicate RecoveredAt(checkpoints: seq<Checkpoint>, t: Instant, r: Instant) {
    && (r == ZERO || exists c :: c in checkpoints && c.settle == Converged && c.time == r <= t)
    && r >= ZERO && forall c :: c in checkpoints && c.settle == Converged && c.time <= t ==> c.time <= r
  }

  /** Of the faults that ended in (r, t], f began first and g ended last. */
  ghost predicate Bounding(faults: seq<FaultWindow>, r: Instant, t: Instant, f: FaultWindow, g: FaultWindow) {
    && f in faults && r < f.end <= t && g in faults && r < g.end <= t
    && forall h :: h in faults && r < h.end <= t ==> f.start <= h.start && h.end <= g.end
  }

  /** x comes before the last of the faults ended, as long again as they lasted since
      the target recovered, and a settle timeout more. */
  ghost predicate Outlasts(input: Input, t: Instant, x: Instant, r: Instant, f: FaultWindow, g: FaultWindow) {
    && RecoveredAt(input.checkpoints, t, r) && Bounding(input.faults, r, t, f, g)
    && x < g.end + (g.end - (if f.start >= r then f.start else r)) + input.Settle()
  }

  ghost predicate OwedByFaults(input: Input, t: Instant, x: Instant) {
    exists r, f, g :: Outlasts(input, t, x, r, f, g)
  }

  lemma RecoveryIsLast(checkpoints: seq<Checkpoint>, t: Instant, r: Instant)
    requires RecoveredAt(checkpoints, t, r)
    ensures r == LastConverged(checkpoints, t)
  {
  }

  lemma ActiveMeans(faults: seq<FaultWindow>, t: Instant)
    ensures Faulted(faults, t, t) <==> Active(faults, t)
  {
    if Active(faults, t) {
      var f :| f in faults && f.start <= t && (f.end == ZERO || t < f.end);
      assert f.Overlaps(t, t);
    }
  }

  lemma FaultsOweMeans(input: Input, t: Instant, x: Instant)
    requires input.Recorded() && x >= ZERO
    ensures x < FaultsOwed(input, t) <==> OwedByFaults(input, t, x)
  {
    var r := LastConverged(input.checkpoints, t);
    assert RecoveredAt(input.checkpoints, t, r);
    StoppedSpanIsSpan(input.faults, r, t);
    var span := StoppedSpan(input.faults, r, t);
    if x < FaultsOwed(input, t) {
      var f :| f in input.faults && StoppedSince(f, r, t) && f.start == span.first;
      var g :| g in input.faults && StoppedSince(g, r, t) && g.end == span.last;
      assert Outlasts(input, t, x, r, f, g);
    }
    if OwedByFaults(input, t, x) {
      var q, f, g :| Outlasts(input, t, x, q, f, g);
      RecoveryIsLast(input.checkpoints, t, q);
      assert StoppedSince(f, r, t) && StoppedSince(g, r, t);
    }
  }

  /** With no exits and no fault active, the faults that ended since the target
      recovered excuse it for as long again as they lasted, and a settle timeout. */
  lemma FaultsOweTheirLength(input: Input, t: Instant, r: Instant, f: FaultWindow, g: FaultWindow)
    requires input.Recorded() && t >= ZERO && input.exits == [] && !Active(input.faults, t)
    requires RecoveredAt(input.checkpoints, t, r) && Bounding(input.faults, r, t, f, g)
    ensures Recovering(input, t) <==> t < g.end + (g.end - Later(f.start, r)) + input.Settle()
  {
    RecoveringMeans(input, t);
    ActiveMeans(input.faults, t);
    FaultsOweMeans(input, t, t);
    if OwedByFaults(input, t, t) {
      var q, p, s :| Outlasts(input, t, t, q, p, s);
      RecoveryIsLast(input.checkpoints, t, q);
      RecoveryIsLast(input.checkpoints, t, r);
    }
    if t < g.end + (g.end - Later(f.start, r)) + input.Settle() {
      assert Outlasts(input, t, t, r, f, g);
    }
  }

  /** Where none ended since, they excuse nothing. */
  lemma NoFaultOwesNothing(input: Input, t: Instant, r: Instant)
    requires input.Recorded() && t >= ZERO && input.exits == [] && !Active(input.faults, t)
    requires RecoveredAt(input.checkpoints, t, r) && forall h :: h in input.faults ==> !(r < h.end <= t)
    ensures !Recovering(input, t)
  {
    RecoveringMeans(input, t);
    ActiveMeans(input.faults, t);
    FaultsOweMeans(input, t, t);
    RecoveryIsLast(input.checkpoints, t, r);
    forall q, p, s ensures !Outlasts(input, t, t, q, p, s) {
      if RecoveredAt(input.checkpoints, t, q) {
        RecoveryIsLast(input.checkpoints, t, q);
      }
    }
  }

  // ----- the target's return

  predicate OnLease(r: Request) { r.group == "coordination.k8s.io" && r.resource == "leases" }

  predicate Reads(r: Request) { OnLease(r) && r.verb == "get" }

  predicate Wins(r: Request) { OnLease(r) && r.verb in {"create", "update", "patch"} && r.status / 100 == 2 }

  predicate Does(r: Request) { r.resource != "" && r.group != "coordination.k8s.io" }

  /** x is when the earliest request after since of this sort started. */
  ghost predicate Earliest(requests: seq<Request>, since: Instant, sort: Request -> bool, x: Instant) {
    && x > since && (exists r :: r in requests && r.start == x && sort(r))
    && forall r :: r in requests && r.start > since && sort(r) ==> x <= r.start
  }

  /** The target came back at x: with the lease it won after it read it, if any request
      reads one, and with the first request outside leader election otherwise. */
  ghost predicate CameBack(requests: seq<Request>, since: Instant, x: Instant) {
    if exists r :: r in requests && Reads(r)
    then exists got :: Earliest(requests, since, Reads, got) && Earliest(requests, got, Wins, x)
    else Earliest(requests, since, Does, x)
  }

  lemma ShowsMeans(r: Request)
    ensures Shows(Getting, r) == Reads(r) && Shows(Winning, r) == Wins(r) && Shows(Working, r) == Does(r)
  {
  }

  function SortOf(sign: Sign): Request -> bool {
    match sign
    case Working => Does
    case Getting => Reads
    case Winning => Wins
  }

  lemma FirstMeans(requests: seq<Request>, since: Instant, sign: Sign, x: Instant)
    requires since >= ZERO && x != ZERO
    ensures First(requests, since, sign) == x <==> Earliest(requests, since, SortOf(sign), x)
  {
    FirstIsFirst(requests, since, sign);
    forall r ensures Shows(sign, r) == SortOf(sign)(r) {
      ShowsMeans(r);
    }
    var first := First(requests, since, sign);
    if Earliest(requests, since, SortOf(sign), x) {
      var r :| r in requests && r.start == x && SortOf(sign)(r);
      assert Shows(sign, r);
      var q :| q in requests && q.start == first && Shows(sign, q);
      assert SortOf(sign)(q);
    }
  }

  lemma BackMeans(requests: seq<Request>, since: Instant, x: Instant)
    requires since >= ZERO && x != ZERO
    ensures Back(requests, since) == x <==> CameBack(requests, since, x)
  {
    forall r ensures GotLease(r) == Reads(r) {
      ShowsMeans(r);
    }
    FirstIsFirst(requests, since, Getting);
    var got := First(requests, since, Getting);
    if Electing(requests) {
      if got != ZERO {
        FirstMeans(requests, since, Getting, got);
        FirstMeans(requests, got, Winning, x);
      }
      if CameBack(requests, since, x) {
        var g :| Earliest(requests, since, Reads, g) && Earliest(requests, g, Wins, x);
        FirstMeans(requests, since, Getting, g);
        FirstMeans(requests, g, Winning, x);
      }
    } else {
      FirstMeans(requests, since, Working, x);
    }
  }

  /** When a target restarted at `restart` is due: a settle timeout after it came back,
      if it did within one, and after the restart otherwise. */
  ghost predicate DueAt(input: Input, restart: Instant, due: Instant) {
    var limit := restart + input.Settle();
    if exists back :: CameBack(input.requests, restart, back) && back < limit
    then CameBack(input.requests, restart, due - input.Settle()) && due - input.Settle() < limit
    else due == limit
  }

  lemma DueMeans(input: Input, restart: Instant, due: Instant)
    requires restart >= ZERO
    ensures SettledBy(input, restart) == due <==> DueAt(input, restart, due)
  {
    var back, limit := Back(input.requests, restart), restart + input.Settle();
    if back != ZERO {
      BackMeans(input.requests, restart, back);
      BackIsLater(input.requests, restart);
    }
    forall x | CameBack(input.requests, restart, x) ensures x == back != ZERO {
      CameBackLater(input.requests, restart, x);
      BackMeans(input.requests, restart, x);
    }
  }

  lemma BackIsLater(requests: seq<Request>, since: Instant)
    requires since >= ZERO
    ensures Back(requests, since) == ZERO || Back(requests, since) > since
  {
    FirstIsFirst(requests, since, Working);
    FirstIsFirst(requests, since, Getting);
    FirstIsFirst(requests, First(requests, since, Getting), Winning);
  }

  lemma CameBackLater(requests: seq<Request>, since: Instant, x: Instant)
    requires since >= ZERO && CameBack(requests, since, x)
    ensures x > since
  {
  }

  // ----- exits

  ghost predicate FaultsExcused(input: Input, t: Instant) {
    Active(input.faults, t) || OwedByFaults(input, t, t)
  }

  lemma ExcusesMeans(input: Input, t: Instant)
    requires input.Recorded() && t >= ZERO
    ensures FaultsExcuse(input, t) <==> FaultsExcused(input, t)
  {
    ActiveMeans(input.faults, t);
    FaultsOweMeans(input, t, t);
  }

  /** The last op of the log stamped before t, or zero when none is. */
  ghost predicate LastOpBefore(ops: seq<Op>, t: Instant, last: Instant) {
    if exists i :: 0 <= i < |ops| && ops[i].time < t
    then exists i :: 0 <= i < |ops| && ops[i].time == last < t && forall j :: i < j < |ops| ==> ops[j].time >= t
    else last == ZERO
  }

  lemma {:induction false} OpBeforeMeans(ops: seq<Op>, t: Instant)
    ensures LastOpBefore(ops, t, OpBefore(ops, t))
    ensures forall last :: LastOpBefore(ops, t, last) ==> last == OpBefore(ops, t)
  {
    if ops != [] && ops[|ops| - 1].time >= t {
      var front := ops[..|ops| - 1];
      OpBeforeMeans(front, t);
      forall last ensures LastOpBefore(ops, t, last) <==> LastOpBefore(front, t, last) {
        OneMoreOp(ops, t, last);
      }
    }
  }

  lemma OneMoreOp(ops: seq<Op>, t: Instant, last: Instant)
    requires ops != [] && ops[|ops| - 1].time >= t
    ensures LastOpBefore(ops, t, last) <==> LastOpBefore(ops[..|ops| - 1], t, last)
  {
    var front := ops[..|ops| - 1];
    assert forall i :: 0 <= i < |front| ==> front[i] == ops[i];
    if i :| 0 <= i < |ops| && ops[i].time < t {
      assert front[i].time < t;
    }
    if LastOpBefore(ops, t, last) && exists i :: 0 <= i < |ops| && ops[i].time < t {
      var i :| 0 <= i < |ops| && ops[i].time == last < t && forall j :: i < j < |ops| ==> ops[j].time >= t;
      assert front[i].time == last;
    }
    if LastOpBefore(front, t, last) && exists i :: 0 <= i < |front| && front[i].time < t {
      var i :| 0 <= i < |front| && front[i].time == last < t && forall j :: i < j < |front| ==> front[j].time >= t;
      forall j | i < j < |ops| ensures ops[j].time >= t {
        assert j < |front| ==> front[j].time >= t;
      }
    }
  }

  /** The exit came since the target recovered, a fault excused it, and, while a fault
      is active, no other excused exit came between the last op before its due time
      and it. */
  ghost predicate Owes(input: Input, e: Exit, t: Instant, r: Instant, due: Instant) {
    && RecoveredAt(input.checkpoints, t, r) && r < e.at <= t && FaultsExcused(input, e.at)
    && DueAt(input, e.restart, due)
    && (Active(input.faults, t) ==>
          exists op :: LastOpBefore(input.ops, due, op) && !exists other ::
            other in input.exits && op <= other.at < e.at && FaultsExcused(input, other.at))
  }

  /** Exits come after the zero time. */
  ghost predicate ExitsStamped(input: Input) {
    input.Recorded() && forall e :: e in input.exits ==> e.at > ZERO
  }

  lemma FirstExcusedMeans(input: Input, op: Instant, e: Exit)
    requires ExitsStamped(input)
    ensures FirstExcusedExitSince(input, op, e) <==>
            !exists other :: other in input.exits && op <= other.at < e.at && FaultsExcused(input, other.at)
  {
    forall other | other in input.exits ensures FaultsExcuse(input, other.at) <==> FaultsExcused(input, other.at) {
      ExcusesMeans(input, other.at);
    }
  }

  lemma CountsMeans(input: Input, e: Exit, t: Instant)
    requires ExitsStamped(input) && e in input.exits
    ensures Counts(input, e, t) <==> Owes(input, e, t, LastConverged(input.checkpoints, t), SettledBy(input, e.restart))
  {
    var due := SettledBy(input, e.restart);
    ActiveMeans(input.faults, t);
    ExcusesMeans(input, e.at);
    DueMeans(input, e.restart, due);
    OpBeforeMeans(input.ops, due);
    FirstExcusedMeans(input, OpBefore(input.ops, due), e);
  }

  /** x comes before what an exit that counts owes. */
  ghost predicate OwedByExit(input: Input, t: Instant, x: Instant) {
    exists e, r, due :: e in input.exits && Owes(input, e, t, r, due) && x < due
  }

  lemma OwedByExitMeans(input: Input, t: Instant, x: Instant)
    requires ExitsStamped(input)
    ensures OwedByExit(input, t, x) <==> exists e :: e in input.exits && Counts(input, e, t) && x < SettledBy(input, e.restart)
  {
    if OwedByExit(input, t, x) {
      var e, r, due :| e in input.exits && Owes(input, e, t, r, due) && x < due;
      RecoveryIsLast(input.checkpoints, t, r);
      DueMeans(input, e.restart, due);
      CountsMeans(input, e, t);
    }
    if e :| e in input.exits && Counts(input, e, t) && x < SettledBy(input, e.restart) {
      CountsMeans(input, e, t);
    }
  }

  /** What is owed, and what excuses a target, in terms of the recording. */
  lemma OwedMeans(input: Input, t: Instant, x: Instant)
    requires ExitsStamped(input) && x >= ZERO
    ensures x < Owed(input, t) <==> OwedByFaults(input, t, x) || OwedByExit(input, t, x)
  {
    BeforeOwed(input, t, |input.exits|, x);
    FaultsOweMeans(input, t, x);
    OwedByExitMeans(input, t, x);
  }

  lemma RecoveringIs(input: Input, t: Instant)
    requires ExitsStamped(input) && t >= ZERO
    ensures Recovering(input, t) <==> Active(input.faults, t) || OwedByFaults(input, t, t) || OwedByExit(input, t, t)
  {
    ActiveMeans(input.faults, t);
    OwedMeans(input, t, t);
  }

  // ----- deletions

  /** The version at i is the newest of its key by x, the last recorded of several at
      one instant. */
  ghost predicate NewestAt(log: seq<Version>, key: Key, x: Instant, i: int) {
    && 0 <= i < |log| && log[i].key == key && ZERO <= log[i].time <= x
    && forall j :: 0 <= j < |log| && log[j].key == key && ZERO <= log[j].time <= x
         ==> log[j].time < log[i].time || (log[j].time == log[i].time && j <= i)
  }

  lemma {:induction false} NewestMeans(log: seq<Version>, key: Key, x: Instant)
    ensures key in NewestOf(Within(log, ZERO, x)) <==> exists i :: NewestAt(log, key, x, i)
    ensures forall i :: NewestAt(log, key, x, i) ==> key in NewestOf(Within(log, ZERO, x)) && NewestOf(Within(log, ZERO, x))[key] == log[i]
  {
    if log != [] {
      var front, last := log[..|log| - 1], log[|log| - 1];
      NewestMeans(front, key, x);
      var w := Within(front, ZERO, x);
      if ZERO <= last.time <= x {
        assert (w + [last])[..|w|] == w;
        assert forall i :: NewestAt(front, key, x, i) ==> front[i] == log[i];
        NewestOneMore(log, key, x, NewestOf(w));
      } else {
        assert w + [] == w;
        NewestNoMore(log, key, x);
        SameNewest(front, log, key, x);
      }
    }
  }

  lemma NewestNoMore(log: seq<Version>, key: Key, x: Instant)
    requires log != [] && !(log[|log| - 1].key == key && ZERO <= log[|log| - 1].time <= x)
    ensures forall i :: NewestAt(log, key, x, i) <==> NewestAt(log[..|log| - 1], key, x, i)
  {
    var front := log[..|log| - 1];
    assert forall i :: 0 <= i < |front| ==> front[i] == log[i];
    forall i ensures NewestAt(log, key, x, i) <==> NewestAt(front, key, x, i) {
      if NewestAt(front, key, x, i) {
        forall j | 0 <= j < |log| && log[j].key == key && ZERO <= log[j].time <= x
          ensures log[j].time < log[i].time || (log[j].time == log[i].time && j <= i)
        {
          assert front[j] == log[j];
        }
      }
      if NewestAt(log, key, x, i) {
        assert front[i] == log[i];
      }
    }
  }

  lemma SameNewest(a: seq<Version>, b: seq<Version>, key: Key, x: Instant)
    requires forall i :: NewestAt(b, key, x, i) <==> NewestAt(a, key, x, i)
    ensures (exists i :: NewestAt(a, key, x, i)) <==> (exists i :: NewestAt(b, key, x, i))
  {
    if i :| NewestAt(a, key, x, i) {
      assert NewestAt(b, key, x, i);
    }
    if i :| NewestAt(b, key, x, i) {
      assert NewestAt(a, key, x, i);
    }
  }

  lemma NewestIsOne(log: seq<Version>, key: Key, x: Instant, i: int, j: int)
    requires NewestAt(log, key, x, i) && NewestAt(log, key, x, j)
    ensures i == j
  {
  }

  /** The last version joins the newest before it. */
  lemma NewestJoins(log: seq<Version>, key: Key, x: Instant, i: int)
    requires log != [] && log[|log| - 1].key == key && ZERO <= log[|log| - 1].time <= x
    requires NewestAt(log[..|log| - 1], key, x, i)
    ensures NewestAt(log, key, x, if log[i].time > log[|log| - 1].time then i else |log| - 1)
  {
    var front, last := log[..|log| - 1], log[|log| - 1];
    assert forall j :: 0 <= j < |front| ==> front[j] == log[j];
    var newest := if log[i].time > last.time then i else |log| - 1;
    forall j | 0 <= j < |log| && log[j].key == key && ZERO <= log[j].time <= x
      ensures log[j].time < log[newest].time || (log[j].time == log[newest].time && j <= newest)
    {
      assert j < |front| ==> front[j] == log[j];
    }
  }

  /** It is the newest where there is none before it. */
  lemma NewestAlone(log: seq<Version>, key: Key, x: Instant)
    requires log != [] && log[|log| - 1].key == key && ZERO <= log[|log| - 1].time <= x
    requires var front := log[..|log| - 1]; !exists i :: NewestAt(front, key, x, i)
    ensures NewestAt(log, key, x, |log| - 1)
    decreases |log| - 1, 1
  {
    var front := log[..|log| - 1];
    forall j | 0 <= j < |log| && log[j].key == key && ZERO <= log[j].time <= x ensures j == |log| - 1 {
      if j < |front| {
        assert front[j] == log[j];
        SomeNewest(front, key, x, j);
      }
    }
  }

  /** If a log holds a version of the key by x, one is the newest. */
  lemma {:induction false} SomeNewest(log: seq<Version>, key: Key, x: Instant, j: int)
    requires 0 <= j < |log| && log[j].key == key && ZERO <= log[j].time <= x
    ensures exists i :: NewestAt(log, key, x, i)
    decreases |log|, 0
  {
    var front, last := log[..|log| - 1], log[|log| - 1];
    if !(last.key == key && ZERO <= last.time <= x) {
      assert front[j] == log[j];
      SomeNewest(front, key, x, j);
      NewestNoMore(log, key, x);
      SameNewest(front, log, key, x);
    } else if i :| NewestAt(front, key, x, i) {
      NewestJoins(log, key, x, i);
    } else {
      NewestAlone(log, key, x);
    }
  }

  /** What the newest are before the last version decides what they are with it. */
  lemma NewestOneMore(log: seq<Version>, key: Key, x: Instant, latest: map<Key, Version>)
    requires log != [] && ZERO <= log[|log| - 1].time <= x
    requires var front := log[..|log| - 1];
             && (key in latest <==> exists i :: NewestAt(front, key, x, i))
             && forall i :: NewestAt(front, key, x, i) ==> key in latest && latest[key] == log[i]
    ensures var after := Newest(latest, log[|log| - 1]);
            && (key in after <==> exists i :: NewestAt(log, key, x, i))
            && forall i :: NewestAt(log, key, x, i) ==> key in after && after[key] == log[i]
  {
    var front, last := log[..|log| - 1], log[|log| - 1];
    if last.key != key {
      NewestNoMore(log, key, x);
      SameNewest(front, log, key, x);
    } else {
      var newest := |log| - 1;
      if i :| NewestAt(front, key, x, i) {
        NewestJoins(log, key, x, i);
        newest := if log[i].time > last.time then i else newest;
      } else {
        NewestAlone(log, key, x);
      }
      assert Newest(latest, last)[key] == log[newest];
      forall k | NewestAt(log, key, x, k) ensures k == newest {
        NewestIsOne(log, key, x, k, newest);
      }
    }
  }

  /** The state at x holds a key exactly where its newest version by x is no deletion,
      and holds that version. */
  lemma StateMeans(input: Input, key: Key, x: Instant)
    requires x <= input.End()
    ensures key in StateAt(input, x) <==> exists i :: NewestAt(input.history, key, x, i) && !input.history[i].deleted
    ensures forall i :: NewestAt(input.history, key, x, i) && key in StateAt(input, x) ==> StateAt(input, x)[key] == input.history[i]
  {
    var log := input.history;
    UpToStableSort(Within(log, ZERO, input.End()), x);
    UpToWithin(log, ZERO, input.End(), x);
    SweepGivesNewest(Within(log, ZERO, x));
    NewestMeans(log, key, x);
  }

  /** The version at p is the first to show its CR going by t. */
  ghost predicate FirstGoing(input: Input, t: Instant, p: int) {
    && 0 <= p < |input.history| && Going(input.primary, input.history[p], t)
    && forall q :: 0 <= q < p && input.history[q].uid == input.history[p].uid ==> !Going(input.primary, input.history[q], t)
  }

  predicate Going(primary: string, v: Version, t: Instant) {
    v.key.kind == primary && v.time <= t && (v.terminating || v.deleted)
  }

  /** The deletion first shown at p ran past the delete timeout by the wait's end with
      no fault over it, and the CR was still held by finalizers then, or where the wait
      began if that was later. */
  ghost predicate OutlivedDeadline(input: Input, c: Checkpoint, p: int) {
    && FirstGoing(input, c.time, p)
    && var v := input.history[p];
       var deadline := v.time + input.Delete();
       var looked := if c.began > deadline then c.began else deadline;
       && deadline <= c.time
       && (forall f :: f in input.faults ==> !(f.start <= deadline && (f.end == ZERO || f.end > v.time)))
       && exists i :: NewestAt(input.history, v.key, looked, i) &&
                      input.history[i].uid == v.uid && input.history[i].finalizers != [] && !input.history[i].deleted
  }

  lemma OverdueMeans(input: Input, c: Checkpoint, p: nat)
    requires c.began <= c.time <= input.End() && FirstGoing(input, c.time, p)
    ensures Overdue(input, DeletionOf(input.history[p], input.Delete()), c) <==> OutlivedDeadline(input, c, p)
  {
    var v := input.history[p];
    var deadline := v.time + input.Delete();
    var looked := Later(deadline, c.began);
    assert Faulted(input.faults, v.time, deadline) <==>
           exists f :: f in input.faults && f.start <= deadline && (f.end == ZERO || f.end > v.time) by {
      if f :| f in input.faults && f.start <= deadline && (f.end == ZERO || f.end > v.time) {
        assert f.Overlaps(v.time, deadline);
      }
    }
    if deadline <= c.time {
      StateMeans(input, v.key, looked);
      if i :| NewestAt(input.history, v.key, looked, i) {
        forall j | NewestAt(input.history, v.key, looked, j) ensures j == i {
        }
      }
    }
  }

  lemma DeletionOverdueMeans(input: Input, c: Checkpoint)
    requires c.began <= c.time <= input.End()
    ensures DeletionOverdue(input, c) <==> exists p :: OutlivedDeadline(input, c, p)
  {
    if DeletionOverdue(input, c) {
      var d :| d in DeletionsBy(input.history, input.primary, input.Delete(), c.time) && Overdue(input, d, c);
      var p := DeletionsDue(input.history, input.primary, input.Delete(), c.time, d);
      assert FirstGoing(input, c.time, p);
      OverdueMeans(input, c, p);
    }
    if p :| OutlivedDeadline(input, c, p) {
      var d := DeletionsCover(input.history, input.primary, input.Delete(), c.time, p);
      var q: nat :| FirstSign(input.history, input.primary, c.time, q) && q <= p && d == DeletionOf(input.history[q], input.Delete());
      assert q == p;
      OverdueMeans(input, c, p);
    }
  }

  // ----- the verdict

  /** A settle wait that expired is excused exactly where a fault is active at its end,
      the faults that ended since the target recovered still owe it time, an exit they
      excused does, or a deletion outlived its deadline. */
  lemma ExcusedIs(input: Input, c: Checkpoint)
    requires ExitsStamped(input) && ZERO <= c.time && c.began <= c.time <= input.End()
    ensures Excused(input, c) <==>
            || Active(input.faults, c.time) || OwedByFaults(input, c.time, c.time) || OwedByExit(input, c.time, c.time)
            || exists p :: OutlivedDeadline(input, c, p)
  {
    RecoveringIs(input, c.time);
    DeletionOverdueMeans(input, c);
  }
}
