/** What a fault, a restart or a deletion excuses.

    The functions below say what each verdict means; the methods compute them with
    the loops the checks run, and are proved to give the same answers.
 */
module Verdicts {
  import opened Instants
  import opened Recording
  import opened States

  // ----- the target's last recovery

  /** When the last settle wait that converged by t ended, or zero. */
  function LastConverged(checkpoints: seq<Checkpoint>, t: Instant): (r: Instant)
    ensures r >= ZERO
    ensures r == ZERO || exists c :: c in checkpoints && c.settle == Converged && c.time == r && r <= t
    ensures forall c :: c in checkpoints && c.settle == Converged && c.time <= t ==> c.time <= r
  {
    if checkpoints == [] then ZERO
    else
      var c := checkpoints[|checkpoints| - 1];
      assert checkpoints == checkpoints[..|checkpoints| - 1] + [c];
      var before := LastConverged(checkpoints[..|checkpoints| - 1], t);
      if c.settle == Converged && c.time <= t && c.time > before then c.time else before
  }

  method ComputeLastConverged(checkpoints: seq<Checkpoint>, t: Instant) returns (converged: Instant)
    ensures converged == LastConverged(checkpoints, t)
  {
    converged := ZERO;
    for i := 0 to |checkpoints|
      invariant converged == LastConverged(checkpoints[..i], t)
    {
      assert checkpoints[..i + 1][..i] == checkpoints[..i];
      var c := checkpoints[i];
      if c.settle == Converged && c.time <= t && c.time > converged {
        converged := c.time;
      }
    }
    assert checkpoints[..|checkpoints|] == checkpoints;
  }

  // ----- faults

  /** Whether a fault was active anywhere in [from, to]. */
  predicate Faulted(faults: seq<FaultWindow>, from: Instant, to: Instant) {
    exists f :: f in faults && f.Overlaps(from, to)
  }

  method ComputeFaulted(faults: seq<FaultWindow>, from: Instant, to: Instant) returns (faulted: bool)
    ensures faulted == Faulted(faults, from, to)
  {
    for i := 0 to |faults|
      invariant forall j :: 0 <= j < i ==> !faults[j].Overlaps(from, to)
    {
      if faults[i].Overlaps(from, to) {
        return true;
      }
    }
    return false;
  }

  /** A fault that stopped by t, and after the target last recovered. */
  predicate StoppedSince(f: FaultWindow, recovered: Instant, t: Instant) {
    recovered < f.end <= t
  }

  /** The first start and the last end of some faults, each zero where there is
      none. */
  datatype Span = Span(first: Instant, last: Instant)

  function StoppedSpan(faults: seq<FaultWindow>, recovered: Instant, t: Instant): Span {
    if faults == [] then Span(ZERO, ZERO)
    else
      var f := faults[|faults| - 1];
      var s := StoppedSpan(faults[..|faults| - 1], recovered, t);
      if !StoppedSince(f, recovered, t) then s
      else Span(if s.first == ZERO || f.start < s.first then f.start else s.first,
                if f.end > s.last then f.end else s.last)
  }

  /** Where faults start above zero, the span is that of exactly the faults that
      stopped since: the earliest start and the latest end, both attained. */
  ghost predicate IsSpan(s: Span, faults: seq<FaultWindow>, recovered: Instant, t: Instant) {
    && (s.last == ZERO <==> s.first == ZERO)
    && (s.last == ZERO ==> forall f :: f in faults ==> !StoppedSince(f, recovered, t))
    && (s.last != ZERO ==>
          && (exists f :: f in faults && StoppedSince(f, recovered, t) && f.start == s.first)
          && (exists f :: f in faults && StoppedSince(f, recovered, t) && f.end == s.last))
    && (forall f :: f in faults && StoppedSince(f, recovered, t) ==> s.first <= f.start && f.end <= s.last)
  }

  lemma {:induction false} StoppedSpanIsSpan(faults: seq<FaultWindow>, recovered: Instant, t: Instant)
    requires recovered >= ZERO && forall f :: f in faults ==> f.start > ZERO
    ensures IsSpan(StoppedSpan(faults, recovered, t), faults, recovered, t)
  {
    if faults != [] {
      var front, f := faults[..|faults| - 1], faults[|faults| - 1];
      assert faults == front + [f];
      StoppedSpanIsSpan(front, recovered, t);
      var s := StoppedSpan(front, recovered, t);
      assert forall g :: g in faults <==> g in front || g == f;
    }
  }

  /** As long after the last of the faults that stopped by t as they lasted since
      the target last recovered, and timeouts.settle more. */
  function FaultsOwed(input: Input, t: Instant): Instant {
    var recovered := LastConverged(input.checkpoints, t);
    var s := StoppedSpan(input.faults, recovered, t);
    if s.last == ZERO then ZERO
    else s.last + (s.last - Later(s.first, recovered)) + input.Settle()
  }

  method ComputeFaultsOwed(input: Input, t: Instant) returns (owed: Instant)
    ensures owed == FaultsOwed(input, t)
  {
    var recovered := ComputeLastConverged(input.checkpoints, t);
    var first, last := ZERO, ZERO;
    for i := 0 to |input.faults|
      invariant Span(first, last) == StoppedSpan(input.faults[..i], recovered, t)
    {
      assert input.faults[..i + 1][..i] == input.faults[..i];
      var fault := input.faults[i];
      if fault.end > t || !(fault.end > recovered) {
        continue;
      }
      if first == ZERO || fault.start < first {
        first := fault.start;
      }
      if fault.end > last {
        last := fault.end;
      }
    }
    assert input.faults[..|input.faults|] == input.faults;
    if last == ZERO {
      return ZERO;
    }
    return last + (last - Later(first, recovered)) + input.Settle();
  }

  /** Whether the faults alone excuse what happened at t. */
  predicate FaultsExcuse(input: Input, t: Instant) {
    Faulted(input.faults, t, t) || t < FaultsOwed(input, t)
  }

  // ----- the target's return after a start

  predicate LeaderElection(r: Request) { r.group == "coordination.k8s.io" }

  predicate IsLease(r: Request) { LeaderElection(r) && r.resource == "leases" }

  predicate GotLease(r: Request) { IsLease(r) && r.verb == "get" }

  predicate Won(r: Request) {
    IsLease(r) && (r.verb == "create" || r.verb == "update" || r.verb == "patch") && 200 <= r.status < 300
  }

  predicate Works(r: Request) { r.resource != "" && !LeaderElection(r) }

  /** The signs of a running target that Back looks for. */
  datatype Sign = Working | Getting | Winning

  predicate Shows(sign: Sign, r: Request) {
    match sign
    case Working => Works(r)
    case Getting => GotLease(r)
    case Winning => Won(r)
  }

  /** When the first request after since that shows the sign started, or zero. */
  function First(requests: seq<Request>, since: Instant, sign: Sign): Instant {
    if requests == [] then ZERO
    else
      var r := requests[|requests| - 1];
      var before := First(requests[..|requests| - 1], since, sign);
      if r.start > since && Shows(sign, r) && (before == ZERO || r.start < before) then r.start else before
  }

  method ComputeFirst(requests: seq<Request>, since: Instant, sign: Sign) returns (earliest: Instant)
    ensures earliest == First(requests, since, sign)
  {
    earliest := ZERO;
    for i := 0 to |requests|
      invariant earliest == First(requests[..i], since, sign)
    {
      assert requests[..i + 1][..i] == requests[..i];
      var r := requests[i];
      if r.start > since && Shows(sign, r) && (earliest == ZERO || r.start < earliest) {
        earliest := r.start;
      }
    }
    assert requests[..|requests|] == requests;
  }

  ghost predicate IsFirst(x: Instant, requests: seq<Request>, since: Instant, sign: Sign) {
    && (x != ZERO ==> x > since && exists r :: r in requests && r.start == x && Shows(sign, r))
    && (forall r :: r in requests && r.start > since && Shows(sign, r) ==> x != ZERO && x <= r.start)
  }

  lemma {:induction false} FirstIsFirst(requests: seq<Request>, since: Instant, sign: Sign)
    requires since >= ZERO
    ensures IsFirst(First(requests, since, sign), requests, since, sign)
  {
    if requests != [] {
      var front, r := requests[..|requests| - 1], requests[|requests| - 1];
      assert requests == front + [r];
      FirstIsFirst(front, since, sign);
    }
  }

  /** Whether the log shows leader election. */
  predicate Electing(requests: seq<Request>) {
    exists r :: r in requests && GotLease(r)
  }

  /** When the target first showed it runs after since, or zero. */
  function Back(requests: seq<Request>, since: Instant): Instant {
    if !Electing(requests) then First(requests, since, Working)
    else
      var got := First(requests, since, Getting);
      if got != ZERO then First(requests, got, Winning) else ZERO
  }

  /** When a target restarted at restart must have converged. */
  function SettledBy(input: Input, restart: Instant): Instant {
    var back := Back(input.requests, restart);
    if back != ZERO && back < restart + input.Settle() then back + input.Settle()
    else restart + input.Settle()
  }

  // ----- what the target is owed

  /** The time of the last op in the log stamped before t, or zero. */
  function OpBefore(ops: seq<Op>, t: Instant): Instant {
    if ops == [] then ZERO
    else if ops[|ops| - 1].time < t then ops[|ops| - 1].time
    else OpBefore(ops[..|ops| - 1], t)
  }

  method ComputeOpBefore(ops: seq<Op>, t: Instant) returns (last: Instant)
    ensures last == OpBefore(ops, t)
  {
    last := ZERO;
    for i := 0 to |ops|
      invariant last == OpBefore(ops[..i], t)
    {
      assert ops[..i + 1][..i] == ops[..i];
      if ops[i].time < t {
        last := ops[i].time;
      }
    }
    assert ops[..|ops|] == ops;
  }

  predicate FirstExcusedExitSince(input: Input, op: Instant, exit: Exit) {
    !exists e :: e in input.exits && op <= e.at < exit.at && FaultsExcuse(input, e.at)
  }

  /** An exit by t, since the target last recovered, that the faults excused. */
  predicate Excusable(input: Input, exit: Exit, t: Instant) {
    LastConverged(input.checkpoints, t) < exit.at <= t && FaultsExcuse(input, exit.at)
  }

  /** Whether the exit is owed its restart's time. While a fault is active, only
      the first excused exit since the last op is. */
  predicate Counts(input: Input, exit: Exit, t: Instant) {
    && Excusable(input, exit, t)
    && (!Faulted(input.faults, t, t) ||
        FirstExcusedExitSince(input, OpBefore(input.ops, SettledBy(input, exit.restart)), exit))
  }

  /** Owed over the first n exits. */
  function OwedOver(input: Input, t: Instant, n: nat): Instant
    requires n <= |input.exits|
  {
    if n == 0 then FaultsOwed(input, t)
    else
      var exit := input.exits[n - 1];
      var owed := OwedOver(input, t, n - 1);
      if Counts(input, exit, t) then Later(owed, SettledBy(input, exit.restart)) else owed
  }

  /** When the target must have converged by, after the faults that stopped by t. */
  function Owed(input: Input, t: Instant): Instant {
    OwedOver(input, t, |input.exits|)
  }

  method ComputeOwed(input: Input, t: Instant) returns (owed: Instant)
    ensures owed == Owed(input, t)
  {
    owed := ComputeFaultsOwed(input, t);
    var recovered := ComputeLastConverged(input.checkpoints, t);
    var active := ComputeFaulted(input.faults, t, t);
    for i := 0 to |input.exits|
      invariant owed == OwedOver(input, t, i)
    {
      var exit := input.exits[i];
      if exit.at > t || !(exit.at > recovered) || !FaultsExcuse(input, exit.at) {
        continue;
      }
      var settled := SettledBy(input, exit.restart);
      var op := ComputeOpBefore(input.ops, settled);
      if !active || FirstExcusedExitSince(input, op, exit) {
        owed := Later(owed, settled);
      }
    }
  }

  /** An instant is before Owed exactly where it is before what the faults owe, or
      before what some counted exit owes: Owed is the latest of them. */
  lemma {:induction false} BeforeOwed(input: Input, t: Instant, n: nat, x: Instant)
    requires n <= |input.exits|
    ensures x < OwedOver(input, t, n) <==>
            || x < FaultsOwed(input, t)
            || exists i :: 0 <= i < n && Counts(input, input.exits[i], t) && x < SettledBy(input, input.exits[i].restart)
  {
    if n > 0 {
      BeforeOwed(input, t, n - 1, x);
    }
  }

  /** Whether the faults excuse a target that has not converged by t. */
  predicate Recovering(input: Input, t: Instant) {
    Faulted(input.faults, t, t) || t < Owed(input, t)
  }

  // ----- deletions

  /** One deletion of a primary CR, as the Observer saw it. */
  datatype Deletion = Deletion(key: Key, uid: string, at: Instant, deadline: Instant)

  predicate IsDeletion(primary: string, v: Version, t: Instant) {
    v.key.kind == primary && v.time <= t && (v.terminating || v.deleted)
  }

  predicate Seen(deletions: seq<Deletion>, uid: string) {
    exists d :: d in deletions && d.uid == uid
  }

  /** The first sign of each primary CR's deletion by t, one per UID. */
  function DeletionsBy(log: seq<Version>, primary: string, patience: Duration, t: Instant): seq<Deletion> {
    if log == [] then []
    else
      var v := log[|log| - 1];
      var before := DeletionsBy(log[..|log| - 1], primary, patience, t);
      if !IsDeletion(primary, v, t) || Seen(before, v.uid) then before
      else before + [Deletion(v.key, v.uid, v.time, v.time + patience)]
  }

  method ComputeDeletionsBy(log: seq<Version>, primary: string, patience: Duration, t: Instant)
    returns (deletions: seq<Deletion>)
    ensures deletions == DeletionsBy(log, primary, patience, t)
  {
    deletions := [];
    var seen: set<string> := {};
    for i := 0 to |log|
      invariant deletions == DeletionsBy(log[..i], primary, patience, t)
      invariant forall uid :: uid in seen <==> Seen(deletions, uid)
    {
      assert log[..i + 1][..i] == log[..i];
      var v := log[i];
      if !IsDeletion(primary, v, t) || v.uid in seen {
        continue;
      }
      seen := seen + {v.uid};
      deletions := RecordDeletion(deletions, v, patience);
    }
    assert log[..|log|] == log;
  }

  function RecordDeletion(deletions: seq<Deletion>, v: Version, patience: Duration): (r: seq<Deletion>)
    ensures forall uid :: Seen(r, uid) <==> Seen(deletions, uid) || uid == v.uid
  {
    var d := Deletion(v.key, v.uid, v.time, v.time + patience);
    var r := deletions + [d];
    assert forall x :: x in r <==> x in deletions || x == d;
    assert d in r;
    r
  }

  function DeletionOf(v: Version, patience: Duration): Deletion {
    Deletion(v.key, v.uid, v.time, v.time + patience)
  }

  /** The version at p is the first in the log that shows its CR going by t. */
  ghost predicate FirstSign(log: seq<Version>, primary: string, t: Instant, p: nat) {
    && p < |log| && IsDeletion(primary, log[p], t)
    && forall q :: 0 <= q < p && log[q].uid == log[p].uid ==> !IsDeletion(primary, log[q], t)
  }

  lemma {:induction false} DeletionsSee(log: seq<Version>, primary: string, patience: Duration, t: Instant, uid: string)
    ensures Seen(DeletionsBy(log, primary, patience, t), uid) <==>
            exists p :: 0 <= p < |log| && log[p].uid == uid && IsDeletion(primary, log[p], t)
  {
    if log != [] {
      var front, v := log[..|log| - 1], log[|log| - 1];
      DeletionsSee(front, primary, patience, t, uid);
      var before, after := DeletionsBy(front, primary, patience, t), DeletionsBy(log, primary, patience, t);
      if exists p :: 0 <= p < |front| && front[p].uid == uid && IsDeletion(primary, front[p], t) {
        var p :| 0 <= p < |front| && front[p].uid == uid && IsDeletion(primary, front[p], t);
        assert log[p] == front[p];
      }
      if IsDeletion(primary, v, t) && v.uid == uid && !Seen(before, uid) {
        assert after[|before|].uid == uid;
      }
      if Seen(before, uid) {
        var d :| d in before && d.uid == uid;
        assert d in after;
      }
    }
  }

  /** Each deletion is that of the first version to show its CR going, so it was seen
      by t and is due patience later. */
  lemma {:induction false} DeletionsDue(log: seq<Version>, primary: string, patience: Duration, t: Instant, d: Deletion)
    returns (p: nat)
    requires d in DeletionsBy(log, primary, patience, t)
    ensures FirstSign(log, primary, t, p) && d == DeletionOf(log[p], patience)
    ensures d.at <= t && d.deadline == d.at + patience
  {
    var front, v := log[..|log| - 1], log[|log| - 1];
    if d in DeletionsBy(front, primary, patience, t) {
      p := DeletionsDue(front, primary, patience, t, d);
      assert log[p] == front[p];
      assert forall q :: 0 <= q < p ==> log[q] == front[q];
    } else {
      p := |log| - 1;
      DeletionsSee(front, primary, patience, t, v.uid);
      assert forall q :: 0 <= q < p ==> log[q] == front[q];
    }
  }

  ghost predicate AllDiffer(deletions: seq<Deletion>) {
    forall i, j :: 0 <= i < j < |deletions| ==> deletions[i].uid != deletions[j].uid
  }

  /** No CR has two. */
  lemma {:induction false} DeletionsDiffer(log: seq<Version>, primary: string, patience: Duration, t: Instant)
    ensures AllDiffer(DeletionsBy(log, primary, patience, t))
  {
    if log != [] {
      var before, v := DeletionsBy(log[..|log| - 1], primary, patience, t), log[|log| - 1];
      DeletionsDiffer(log[..|log| - 1], primary, patience, t);
      if IsDeletion(primary, v, t) && !Seen(before, v.uid) {
        forall i | 0 <= i < |before| ensures before[i].uid != v.uid {
          assert before[i] in before;
        }
      }
    }
  }

  /** The UID's versions were recorded in the order of their times. */
  ghost predicate InOrder(log: seq<Version>, uid: string) {
    forall i, j :: 0 <= i < j < |log| && log[i].uid == uid && log[j].uid == uid ==> log[i].time <= log[j].time
  }

  /** Every CR seen going by t has exactly one deletion, that of the first version
      that shows it, and so stamped no later than any other that does where its
      versions are in order. */
  lemma DeletionsCover(log: seq<Version>, primary: string, patience: Duration, t: Instant, i: nat) returns (d: Deletion)
    requires i < |log| && IsDeletion(primary, log[i], t)
    ensures d in DeletionsBy(log, primary, patience, t) && d.uid == log[i].uid
    ensures forall other :: other in DeletionsBy(log, primary, patience, t) && other.uid == d.uid ==> other == d
    ensures exists p: nat :: FirstSign(log, primary, t, p) && p <= i && d == DeletionOf(log[p], patience)
    ensures InOrder(log, d.uid) ==> d.at <= log[i].time
  {
    DeletionsSee(log, primary, patience, t, log[i].uid);
    var deletions := DeletionsBy(log, primary, patience, t);
    d :| d in deletions && d.uid == log[i].uid;
    DeletionsDiffer(log, primary, patience, t);
    var p := DeletionsDue(log, primary, patience, t, d);
    assert p <= i;
  }

  /** Whether the state still holds the deleted CR by its finalizers. */
  predicate Held(state: map<Key, Version>, d: Deletion) {
    d.key in state && state[d.key].uid == d.uid && state[d.key].finalizers != []
  }

  /** A deletion whose deadline passed with no fault active, where the wait still
      saw the CR held. */
  predicate Overdue(input: Input, d: Deletion, c: Checkpoint) {
    && d.deadline <= c.time
    && !Faulted(input.faults, d.at, d.deadline)
    && Held(StateAt(input, Later(d.deadline, c.began)), d)
  }

  predicate DeletionOverdue(input: Input, c: Checkpoint) {
    exists d :: d in DeletionsBy(input.history, input.primary, input.Delete(), c.time) && Overdue(input, d, c)
  }

  method ComputeDeletionOverdue(input: Input, c: Checkpoint) returns (overdue: bool)
    ensures overdue == DeletionOverdue(input, c)
  {
    var deletions := ComputeDeletionsBy(input.history, input.primary, input.Delete(), c.time);
    overdue := false;
    for i := 0 to |deletions|
      invariant !overdue && forall j :: 0 <= j < i ==> !Overdue(input, deletions[j], c)
    {
      var past := ComputeOverdue(input, deletions[i], c);
      if past {
        return true;
      }
    }
  }

  method ComputeOverdue(input: Input, d: Deletion, c: Checkpoint) returns (overdue: bool)
    ensures overdue == Overdue(input, d, c)
  {
    var faulted := ComputeFaulted(input.faults, d.at, d.deadline);
    if d.deadline > c.time || faulted {
      return false;
    }
    var states := StatesAt(input, [Later(d.deadline, c.began)]);
    return Held(states[0], d);
  }

  // ----- verdicts

  /** Whether a settle wait that expired is not G4's to report. */
  predicate Excused(input: Input, c: Checkpoint) {
    Recovering(input, c.time) || DeletionOverdue(input, c)
  }

  method ComputeExcused(input: Input, c: Checkpoint) returns (excused: bool)
    ensures excused == Excused(input, c)
  {
    var active := ComputeFaulted(input.faults, c.time, c.time);
    var owed := ComputeOwed(input, c.time);
    if active || c.time < owed {
      return true;
    }
    excused := ComputeDeletionOverdue(input, c);
  }

  predicate ExpiredUnexcused(input: Input, c: Checkpoint) {
    c.settle == Expired && !Excused(input, c)
  }

  /** The waits among some checkpoints that ran out unexcused, in their order. */
  ghost function ExpiredWaits(input: Input, checkpoints: seq<Checkpoint>): seq<Checkpoint> {
    if checkpoints == [] then []
    else
      var last := checkpoints[|checkpoints| - 1];
      ExpiredWaits(input, checkpoints[..|checkpoints| - 1]) + if ExpiredUnexcused(input, last) then [last] else []
  }

  /** Reports the settle waits that ran out while nothing excused them, in order, as
      the engine does at every checkpoint. */
  method ReportExpiredWaits(input: Input) returns (reported: seq<Checkpoint>)
    ensures reported == ExpiredWaits(input, input.checkpoints)
  {
    reported := [];
    for i := 0 to |input.checkpoints|
      invariant reported == ExpiredWaits(input, input.checkpoints[..i])
    {
      var c := input.checkpoints[i];
      assert input.checkpoints[..i + 1][..i] == input.checkpoints[..i];
      var excused := ComputeExcused(input, c);
      if c.settle == Expired && !excused {
        reported := reported + [c];
      }
    }
    assert input.checkpoints[..|input.checkpoints|] == input.checkpoints;
  }

  /** Those are exactly the expired waits that nothing excuses. */
  lemma {:induction false} ExpiredWaitsAre(input: Input, checkpoints: seq<Checkpoint>, c: Checkpoint)
    ensures c in ExpiredWaits(input, checkpoints) <==> c in checkpoints && c.settle == Expired && !Excused(input, c)
  {
    if checkpoints != [] {
      var front, last := checkpoints[..|checkpoints| - 1], checkpoints[|checkpoints| - 1];
      assert checkpoints == front + [last];
      ExpiredWaitsAre(input, front, c);
    }
  }
}
