/** Exactly when a later recording of the same run overturns the verdict on a settle
    wait, where nothing stamped by the end of the wait is recorded after the first
    recording was taken.

    The proxy logs a request as it arrives and fills its status in later. So a later
    recording may answer a lease write that was pending as the wait expired, which
    can move the target's return; and it may be the first to show that the target
    elects a leader, which changes what counts as its return.
 */
module VerdictOverturns {
  import opened Instants
  import opened Recording
  import opened States
  import opened Verdicts
  import opened VerdictStability

  // ----- later recordings

  /** The API server has yet to answer the request, and may. */
  predicate Pending(r: Request) { r.status == 0 && !r.dropped }

  predicate Answers(before: Request, after: Request) {
    after == before || (Pending(before) && after == before.(status := after.status))
  }

  /** The same requests, some of them answered since. */
  ghost predicate Answered(before: seq<Request>, after: seq<Request>) {
    |before| == |after| && forall i :: 0 <= i < |before| ==> Answers(before[i], after[i])
  }

  /** b is a later recording of the run that a recorded: each log has grown, and
      requests have been answered. */
  ghost predicate LaterRecording(a: Input, b: Input) {
    && a.Recorded() && b.Recorded() && a.declared == b.declared && a.primary == b.primary && a.End() <= b.End()
    && |a.requests| <= |b.requests| && Answered(a.requests, b.requests[..|a.requests|])
    && a.history <= b.history && a.checkpoints <= b.checkpoints && a.exits <= b.exits
  }

  /** Nothing stamped by t was recorded after a was: what b adds came after t, and
      what it shows of each fault's window by t is what a showed. Requests, versions
      and applications of faults are stamped before they are recorded, so this is a
      premise about the run. */
  ghost predicate NothingLate(a: Input, b: Input, t: Instant) {
    && (forall i :: |a.requests| <= i < |b.requests| ==> b.requests[i].start > t)
    && (forall i :: |a.history| <= i < |b.history| ==> b.history[i].time > t)
    && (forall i :: |a.checkpoints| <= i < |b.checkpoints| ==> b.checkpoints[i].settle != Converged || b.checkpoints[i].time > t)
    && (forall i :: |a.exits| <= i < |b.exits| ==> b.exits[i].at > t)
    && FaultsIn(a.faults, b.faults, t) && FaultsIn(b.faults, a.faults, t)
  }

  ghost predicate Extends(a: Input, b: Input, t: Instant) {
    t <= a.End() && LaterRecording(a, b) && NothingLate(a, b, t)
  }

  lemma {:induction false} UpToPrefix(log: seq<Version>, longer: seq<Version>, t: Instant)
    requires log <= longer && forall i :: |log| <= i < |longer| ==> longer[i].time > t
    ensures UpTo(longer, t) == UpTo(log, t)
    decreases |longer|
  {
    if |log| < |longer| {
      var front := longer[..|longer| - 1];
      assert longer == front + [longer[|longer| - 1]];
      UpToSnoc(front, longer[|longer| - 1], t);
      UpToPrefix(log, front, t);
    } else {
      assert longer == log;
    }
  }

  lemma ExtendsAgree(a: Input, b: Input, t: Instant)
    requires Extends(a, b, t)
    ensures AgreeBesides(a, b, t)
  {
    UpToPrefix(a.history, b.history, t);
    forall c | c in b.checkpoints && c.settle == Converged && c.time <= t ensures c in a.checkpoints {
      var i :| 0 <= i < |b.checkpoints| && b.checkpoints[i] == c;
      assert i < |a.checkpoints| && a.checkpoints[i] == c;
    }
    forall e | e in b.exits && e.at <= t ensures e in a.exits {
      var i :| 0 <= i < |b.exits| && b.exits[i] == e;
      assert i < |a.exits| && a.exits[i] == e;
    }
  }

  /** Some later recording, with nothing late, judges the wait otherwise. */
  ghost predicate Overturned(a: Input, c: Checkpoint) {
    exists b :: Extends(a, b, c.time) && Excused(b, c) != Excused(a, c)
  }

  // ----- what a verdict hangs on

  ghost predicate ElectingBy(requests: seq<Request>, t: Instant) {
    exists r :: r in requests && r.start <= t && GotLease(r)
  }

  ghost predicate ExcusedBesidesExits(input: Input, c: Checkpoint) {
    Faulted(input.faults, c.time, c.time) || c.time < FaultsOwed(input, c.time) || DeletionOverdue(input, c)
  }

  /** Nothing excuses the wait but, perhaps, the target's return after an exit. */
  ghost predicate OnlyReturnsExcuse(input: Input, c: Checkpoint) {
    && !ExcusedBesidesExits(input, c)
    && forall e :: e in input.exits && Counts(input, e, c.time) ==> e.restart + input.Settle() <= c.time
  }

  /** The exit is owed time at t only because the target came back after its
      restart, as a target that elects no leader shows it. */
  ghost predicate OwedItsReturn(input: Input, restart: Instant, t: Instant) {
    var back := First(input.requests, restart, Working);
    ZERO < back <= t && back < restart + input.Settle() && t < back + input.Settle()
  }

  /** The target's return excuses the wait, and no request shows whether it elects a
      leader. */
  ghost predicate HangsOnReturn(input: Input, c: Checkpoint) {
    && !Electing(input.requests)
    && OnlyReturnsExcuse(input, c)
    && exists e :: e in input.exits && Counts(input, e, c.time) && OwedItsReturn(input, e.restart, c.time)
  }

  /** When the target first read a lease after the restart, or zero. */
  function Got(requests: seq<Request>, restart: Instant): Instant { First(requests, restart, Getting) }

  /** The target won a lease after the restart, within the settle timeout of it and
      less than one before t. */
  ghost predicate OwedItsWin(requests: seq<Request>, settle: Duration, restart: Instant, t: Instant) {
    var got := Got(requests, restart);
    got != ZERO && var win := First(requests, got, Winning);
    win != ZERO && win < restart + settle && t < win + settle
  }

  /** A lease write that the API server may yet accept. */
  predicate MayWin(r: Request) { Pending(r) && Won(r.(status := 200)) }

  ghost predicate MayWinIn(requests: seq<Request>, after: Instant, before: Instant) {
    exists r :: r in requests && MayWin(r) && after < r.start < before
  }

  ghost predicate WonIn(requests: seq<Request>, after: Instant, before: Instant) {
    exists r :: r in requests && Won(r) && after < r.start < before
  }

  /** An answer could show that the target came back too long ago to be owed more. */
  ghost predicate WinMayComeEarlier(requests: seq<Request>, settle: Duration, restart: Instant, t: Instant) {
    MayWinIn(requests, Got(requests, restart), t - settle + 1)
  }

  /** An answer could show that the target came back just in time to be owed more. */
  ghost predicate WinMayCome(requests: seq<Request>, settle: Duration, restart: Instant, t: Instant) {
    var got := Got(requests, restart);
    && got != ZERO && !WonIn(requests, got, t - settle + 1)
    && MayWinIn(requests, Later(got, t - settle), restart + settle)
  }

  /** The exits the target is owed time for. */
  ghost function Counted(input: Input, t: Instant): set<Exit> {
    set e | e in input.exits && Counts(input, e, t)
  }

  ghost predicate SomeOwed(exits: set<Exit>, requests: seq<Request>, settle: Duration, t: Instant) {
    exists e :: e in exits && OwedItsWin(requests, settle, e.restart, t)
  }

  ghost predicate ExcusedByWin(input: Input, c: Checkpoint) {
    SomeOwed(Counted(input, c.time), input.requests, input.Settle(), c.time)
  }

  /** The answers could end every excuse there is. */
  ghost predicate ExcusesMayEnd(exits: set<Exit>, requests: seq<Request>, settle: Duration, t: Instant) {
    forall e :: e in exits && OwedItsWin(requests, settle, e.restart, t) ==> WinMayComeEarlier(requests, settle, e.restart, t)
  }

  /** The answers could make an excuse. */
  ghost predicate ExcuseMayStart(exits: set<Exit>, requests: seq<Request>, settle: Duration, t: Instant) {
    exists e :: e in exits && WinMayCome(requests, settle, e.restart, t)
  }

  /** The target elects a leader, and the answers to its pending lease writes decide
      whether its return excuses the wait. */
  ghost predicate HangsOnAnswer(input: Input, c: Checkpoint) {
    && ElectingBy(input.requests, c.time)
    && OnlyReturnsExcuse(input, c)
    && var exits := Counted(input, c.time);
       if ExcusedByWin(input, c) then ExcusesMayEnd(exits, input.requests, input.Settle(), c.time)
       else ExcuseMayStart(exits, input.requests, input.Settle(), c.time)
  }

  // ----- verdicts in these terms

  lemma ExcusedMeans(input: Input, c: Checkpoint)
    ensures Excused(input, c) <==>
            || ExcusedBesidesExits(input, c)
            || exists e :: e in input.exits && Counts(input, e, c.time) && c.time < SettledBy(input, e.restart)
  {
    RecoveringMeans(input, c.time);
  }

  /** A target first seen to elect after t has not returned by t. */
  lemma SettledWhileElecting(input: Input, t: Instant, restart: Instant)
    requires restart >= ZERO && Electing(input.requests) && !ElectingBy(input.requests, t)
    ensures t < SettledBy(input, restart) <==> t < restart + input.Settle()
  {
    FirstIsFirst(input.requests, restart, Getting);
    var got := First(input.requests, restart, Getting);
    if got != ZERO {
      FirstIsFirst(input.requests, got, Winning);
    }
  }

  lemma SettledWithoutElecting(input: Input, t: Instant, restart: Instant)
    requires restart >= ZERO && !Electing(input.requests)
    ensures t < SettledBy(input, restart) <==>
            t < restart + input.Settle() || OwedItsReturn(input, restart, t)
  {
    FirstIsFirst(input.requests, restart, Working);
  }

  lemma SettledByWinning(input: Input, t: Instant, restart: Instant)
    requires restart >= ZERO && Electing(input.requests) && restart + input.Settle() <= t
    ensures t < SettledBy(input, restart) <==> OwedItsWin(input.requests, input.Settle(), restart, t)
  {
  }

  // ----- leader election coming to light

  /** Between a recording that shows election and one that does not, the verdict
      differs exactly where it hangs on a return. */
  lemma ElectionOverturns(quiet: Input, electing: Input, c: Checkpoint)
    requires AgreeUpTo(quiet, electing, c.time) && c.began <= c.time
    requires !Electing(quiet.requests) && Electing(electing.requests)
    requires !ElectingBy(electing.requests, c.time)
    ensures Excused(electing, c) ==> Excused(quiet, c)
    ensures Excused(quiet, c) != Excused(electing, c) <==> HangsOnReturn(quiet, c)
  {
    var t := c.time;
    AgreeSymmetric(quiet, electing, t);
    ExcusedMeans(quiet, c);
    ExcusedMeans(electing, c);
    BesidesExitsAgree(quiet, electing, c);
    if !ExcusedBesidesExits(quiet, c) {
      forall e | e in quiet.exits && Counts(quiet, e, t)
        ensures e in electing.exits && Counts(electing, e, t)
        ensures t < SettledBy(quiet, e.restart) <==> t < e.restart + quiet.Settle() || OwedItsReturn(quiet, e.restart, t)
      {
        CountsIn(quiet, electing, t, e);
        SettledWithoutElecting(quiet, t, e.restart);
      }
      forall e | e in electing.exits && Counts(electing, e, t)
        ensures e in quiet.exits && Counts(quiet, e, t)
        ensures t < SettledBy(electing, e.restart) <==> t < e.restart + quiet.Settle()
      {
        CountsIn(electing, quiet, t, e);
        SettledWhileElecting(electing, t, e.restart);
      }
    }
  }

  lemma BesidesExitsAgree(a: Input, b: Input, c: Checkpoint)
    requires AgreeBesides(a, b, c.time) && c.began <= c.time
    ensures ExcusedBesidesExits(a, c) == ExcusedBesidesExits(b, c)
  {
    AgreeBesidesSymmetric(a, b, c.time);
    FaultedAgrees(a, b, c.time, c.time, c.time);
    FaultsOwedAgrees(a, b, c.time, c.time);
    if DeletionOverdue(a, c) { DeletionOverdueIn(a, b, c); }
    if DeletionOverdue(b, c) { DeletionOverdueIn(b, a, c); }
  }

  // ----- answers coming in

  lemma {:induction false} AnswersShow(before: seq<Request>, after: seq<Request>, since: Instant, sign: Sign)
    requires Answered(before, after) && sign != Winning
    ensures First(after, since, sign) == First(before, since, sign)
  {
    if before != [] {
      var n := |before| - 1;
      assert Answers(before[n], after[n]);
      assert Answered(before[..n], after[..n]) by {
        assert forall i :: 0 <= i < n ==> Answers(before[i], after[i]);
      }
      AnswersShow(before[..n], after[..n], since, sign);
    }
  }

  lemma AnswersElect(before: seq<Request>, after: seq<Request>, t: Instant)
    requires Answered(before, after)
    ensures Electing(after) == Electing(before) && ElectingBy(after, t) == ElectingBy(before, t)
  {
    forall r | r in before && GotLease(r) ensures exists q :: q in after && q.start == r.start && GotLease(q) {
      var i :| 0 <= i < |before| && before[i] == r;
      assert Answers(before[i], after[i]) && after[i] in after;
    }
    forall r | r in after && GotLease(r) ensures exists q :: q in before && q.start == r.start && GotLease(q) {
      var i :| 0 <= i < |after| && after[i] == r;
      assert Answers(before[i], after[i]) && before[i] in before;
    }
  }

  /** Answers can only bring the first win forward, to a write that was pending. */
  lemma AnswersBringWinForward(before: seq<Request>, after: seq<Request>, since: Instant)
    requires Answered(before, after) && since >= ZERO
    ensures var was, now := First(before, since, Winning), First(after, since, Winning);
            && (was != ZERO ==> ZERO != now <= was)
            && (now != was ==> exists r :: r in before && MayWin(r) && r.start == now)
  {
    FirstIsFirst(before, since, Winning);
    FirstIsFirst(after, since, Winning);
    var was, now := First(before, since, Winning), First(after, since, Winning);
    if was != ZERO {
      var r :| r in before && r.start == was && Won(r);
      var i :| 0 <= i < |before| && before[i] == r;
      assert Answers(before[i], after[i]) && after[i] in after;
    }
    if now != was {
      var q :| q in after && q.start == now && Won(q);
      var i :| 0 <= i < |after| && after[i] == q;
      assert Answers(before[i], after[i]) && before[i] in before;
    }
  }

  lemma WinEnds(before: seq<Request>, after: seq<Request>, settle: Duration, restart: Instant, t: Instant)
    requires Answered(before, after) && restart >= ZERO
    requires OwedItsWin(before, settle, restart, t) && !OwedItsWin(after, settle, restart, t)
    ensures WinMayComeEarlier(before, settle, restart, t)
  {
    AnswersShow(before, after, restart, Getting);
    FirstIsFirst(before, restart, Getting);
    FirstIsFirst(after, Got(before, restart), Winning);
    AnswersBringWinForward(before, after, Got(before, restart));
  }

  lemma WinStarts(before: seq<Request>, after: seq<Request>, settle: Duration, restart: Instant, t: Instant)
    requires Answered(before, after) && restart >= ZERO
    requires !OwedItsWin(before, settle, restart, t) && OwedItsWin(after, settle, restart, t)
    ensures WinMayCome(before, settle, restart, t)
  {
    AnswersShow(before, after, restart, Getting);
    FirstIsFirst(before, restart, Getting);
    var got := Got(before, restart);
    FirstIsFirst(before, got, Winning);
    FirstIsFirst(after, got, Winning);
    AnswersBringWinForward(before, after, got);
  }

  // ----- the answers that overturn

  function FilledIn(r: Request, early: bool, cut: Instant): Request {
    if MayWin(r) && (r.start <= cut <==> early) then r.(status := 200) else r
  }

  /** The log with its pending lease writes up to the cut, or after it, accepted. */
  function Filled(requests: seq<Request>, early: bool, cut: Instant): (r: seq<Request>)
    ensures |r| == |requests|
  {
    seq(|requests|, i requires 0 <= i < |requests| => FilledIn(requests[i], early, cut))
  }

  /** What the filled log wins on its side of the cut, and what it leaves alone. */
  lemma FilledWins(requests: seq<Request>, early: bool, cut: Instant)
    ensures Answered(requests, Filled(requests, early, cut))
    ensures forall r :: r in requests && MayWin(r) && (r.start <= cut <==> early)
              ==> exists q :: q in Filled(requests, early, cut) && Won(q) && q.start == r.start
    ensures forall q :: q in Filled(requests, early, cut) && (q.start <= cut <==> !early) ==> q in requests
  {
    var filled := Filled(requests, early, cut);
    forall r | r in requests && MayWin(r) && (r.start <= cut <==> early)
      ensures exists q :: q in filled && Won(q) && q.start == r.start
    {
      var i :| 0 <= i < |requests| && requests[i] == r;
      assert filled[i] in filled && Won(filled[i]);
    }
    forall q | q in filled && (q.start <= cut <==> !early) ensures q in requests {
      var i :| 0 <= i < |filled| && filled[i] == q;
      assert requests[i] in requests;
    }
  }

  lemma EarlyAnswersEnd(requests: seq<Request>, settle: Duration, restart: Instant, t: Instant)
    requires restart >= ZERO
    requires OwedItsWin(requests, settle, restart, t) ==> WinMayComeEarlier(requests, settle, restart, t)
    ensures !OwedItsWin(Filled(requests, true, t - settle), settle, restart, t)
  {
    var filled := Filled(requests, true, t - settle);
    FilledWins(requests, true, t - settle);
    AnswersShow(requests, filled, restart, Getting);
    FirstIsFirst(requests, restart, Getting);
    var got := Got(requests, restart);
    FirstIsFirst(requests, got, Winning);
    FirstIsFirst(filled, got, Winning);
    AnswersBringWinForward(requests, filled, got);
  }

  lemma LateAnswersStart(requests: seq<Request>, settle: Duration, restart: Instant, t: Instant)
    requires restart >= ZERO && WinMayCome(requests, settle, restart, t)
    ensures OwedItsWin(Filled(requests, false, t - settle), settle, restart, t)
  {
    var filled := Filled(requests, false, t - settle);
    FilledWins(requests, false, t - settle);
    AnswersShow(requests, filled, restart, Getting);
    FirstIsFirst(requests, restart, Getting);
    var got := Got(requests, restart);
    FirstIsFirst(filled, got, Winning);
  }

  // ----- the verdict on the same run, answered

  lemma BesidesReflexive(a: Input, requests: seq<Request>, t: Instant)
    requires a.Recorded() && t <= a.End()
    ensures AgreeBesides(a, a.(requests := requests), t)
  {
    forall f | f in a.faults ensures HoldsFault(a.faults, f.AsOf(t), t) {
      assert f.AsOf(t) == f.AsOf(t);
    }
  }

  lemma SettledAtLeast(input: Input, restart: Instant)
    requires restart >= ZERO
    ensures restart + input.Settle() <= SettledBy(input, restart)
  {
    FirstIsFirst(input.requests, restart, Working);
    FirstIsFirst(input.requests, restart, Getting);
    FirstIsFirst(input.requests, First(input.requests, restart, Getting), Winning);
  }

  lemma OnlyReturnsAgree(a: Input, requests: seq<Request>, c: Checkpoint)
    requires a.Recorded() && c.began <= c.time <= a.End()
    ensures OnlyReturnsExcuse(a, c) == OnlyReturnsExcuse(a.(requests := requests), c)
    ensures OnlyReturnsExcuse(a, c) ==> Counted(a, c.time) == Counted(a.(requests := requests), c.time)
  {
    var b := a.(requests := requests);
    BesidesReflexive(a, requests, c.time);
    AgreeBesidesSymmetric(a, b, c.time);
    BesidesExitsAgree(a, b, c);
    if !ExcusedBesidesExits(a, c) {
      forall e | e in a.exits ensures Counts(a, e, c.time) == Counts(b, e, c.time) {
        if Counts(a, e, c.time) { CountsIn(a, b, c.time, e); }
        if Counts(b, e, c.time) { CountsIn(b, a, c.time, e); }
      }
    }
  }

  /** A wait that more than returns excuse is excused however requests turn out. */
  lemma ExcusedAnyway(a: Input, requests: seq<Request>, c: Checkpoint)
    requires a.Recorded() && c.began <= c.time <= a.End() && !OnlyReturnsExcuse(a, c)
    ensures Excused(a.(requests := requests), c)
  {
    var b := a.(requests := requests);
    OnlyReturnsAgree(a, requests, c);
    ExcusedMeans(b, c);
    if !ExcusedBesidesExits(b, c) {
      var e :| e in b.exits && Counts(b, e, c.time) && c.time < e.restart + b.Settle();
      SettledAtLeast(b, e.restart);
    }
  }

  lemma ExcusedNow(a: Input, c: Checkpoint)
    requires a.Recorded() && c.began <= c.time <= a.End() && !OnlyReturnsExcuse(a, c)
    ensures Excused(a, c)
  {
    ExcusedAnyway(a, a.requests, c);
    assert a.(requests := a.requests) == a;
  }

  /** What excuses a wait that only returns may excuse, in a run that elects. */
  lemma ExcusedByWins(input: Input, c: Checkpoint)
    requires input.Recorded() && OnlyReturnsExcuse(input, c) && Electing(input.requests)
    ensures Excused(input, c) <==> ExcusedByWin(input, c)
  {
    ExcusedMeans(input, c);
    forall e | e in input.exits && Counts(input, e, c.time)
      ensures c.time < SettledBy(input, e.restart) <==> OwedItsWin(input.requests, input.Settle(), e.restart, c.time)
    {
      SettledByWinning(input, c.time, e.restart);
    }
  }

  /** Whatever is answered, the exits that count decide. */
  lemma AnsweredVerdict(a: Input, requests: seq<Request>, c: Checkpoint)
    requires a.Recorded() && c.began <= c.time <= a.End() && OnlyReturnsExcuse(a, c)
    requires Answered(a.requests, requests) && ElectingBy(a.requests, c.time)
    ensures Excused(a.(requests := requests), c) <==> SomeOwed(Counted(a, c.time), requests, a.Settle(), c.time)
  {
    OnlyReturnsAgree(a, requests, c);
    AnswersElect(a.requests, requests, c.time);
    ExcusedByWins(a.(requests := requests), c);
  }

  /** Answers overturn the verdict only where it hangs on them. */
  lemma AnswersOverturn(a: Input, requests: seq<Request>, c: Checkpoint)
    requires a.Recorded() && c.began <= c.time <= a.End()
    requires Answered(a.requests, requests) && ElectingBy(a.requests, c.time)
    requires Excused(a, c) != Excused(a.(requests := requests), c)
    ensures HangsOnAnswer(a, c)
  {
    var b, t, settle := a.(requests := requests), c.time, a.Settle();
    if !OnlyReturnsExcuse(a, c) {
      ExcusedAnyway(a, requests, c);
      ExcusedNow(a, c);
      assert false;
    }
    ExcusedByWins(a, c);
    AnsweredVerdict(a, requests, c);
    CountedAfterStart(a, t);
    AnswersTurn(Counted(a, t), a.requests, requests, settle, t);
  }

  lemma CountedAfterStart(a: Input, t: Instant)
    requires a.Recorded()
    ensures forall e :: e in Counted(a, t) ==> e.restart >= ZERO
  {
  }

  lemma AnswersTurn(exits: set<Exit>, before: seq<Request>, after: seq<Request>, settle: Duration, t: Instant)
    requires Answered(before, after) && forall e :: e in exits ==> e.restart >= ZERO
    requires SomeOwed(exits, before, settle, t) != SomeOwed(exits, after, settle, t)
    ensures if SomeOwed(exits, before, settle, t) then ExcusesMayEnd(exits, before, settle, t)
            else ExcuseMayStart(exits, before, settle, t)
  {
    if SomeOwed(exits, before, settle, t) {
      forall e | e in exits && OwedItsWin(before, settle, e.restart, t) ensures WinMayComeEarlier(before, settle, e.restart, t) {
        WinEnds(before, after, settle, e.restart, t);
      }
    } else {
      var e :| e in exits && OwedItsWin(after, settle, e.restart, t);
      WinStarts(before, after, settle, e.restart, t);
    }
  }

  /** Accepting every early lease write that is pending ends every excuse, and
      accepting every late one makes one. */
  lemma FilledTurns(exits: set<Exit>, requests: seq<Request>, settle: Duration, t: Instant)
    requires forall e :: e in exits ==> e.restart >= ZERO
    ensures ExcusesMayEnd(exits, requests, settle, t) ==> !SomeOwed(exits, Filled(requests, true, t - settle), settle, t)
    ensures ExcuseMayStart(exits, requests, settle, t) ==> SomeOwed(exits, Filled(requests, false, t - settle), settle, t)
  {
    if ExcusesMayEnd(exits, requests, settle, t) {
      forall e | e in exits ensures !OwedItsWin(Filled(requests, true, t - settle), settle, e.restart, t) {
        EarlyAnswersEnd(requests, settle, e.restart, t);
      }
    }
    if ExcuseMayStart(exits, requests, settle, t) {
      var e :| e in exits && WinMayCome(requests, settle, e.restart, t);
      LateAnswersStart(requests, settle, e.restart, t);
    }
  }

  /** A log that turns the exits' excuse around. */
  lemma TurningAnswers(exits: set<Exit>, before: seq<Request>, settle: Duration, t: Instant) returns (after: seq<Request>)
    requires forall e :: e in exits ==> e.restart >= ZERO
    requires if SomeOwed(exits, before, settle, t) then ExcusesMayEnd(exits, before, settle, t)
             else ExcuseMayStart(exits, before, settle, t)
    ensures Answered(before, after) && SomeOwed(exits, after, settle, t) != SomeOwed(exits, before, settle, t)
  {
    FilledTurns(exits, before, settle, t);
    if SomeOwed(exits, before, settle, t) {
      after := Filled(before, true, t - settle);
      FilledWins(before, true, t - settle);
    } else {
      after := Filled(before, false, t - settle);
      FilledWins(before, false, t - settle);
    }
  }

  lemma HangingIsOverturned(a: Input, c: Checkpoint) returns (requests: seq<Request>)
    requires a.Recorded() && c.began <= c.time <= a.End() && HangsOnAnswer(a, c)
    ensures Answered(a.requests, requests) && Excused(a.(requests := requests), c) != Excused(a, c)
  {
    ExcusedByWins(a, c);
    CountedAfterStart(a, c.time);
    requests := TurningAnswers(Counted(a, c.time), a.requests, a.Settle(), c.time);
    AnsweredVerdict(a, requests, c);
  }

  lemma ReturnsAgree(a: Input, requests: seq<Request>, t: Instant, restart: Instant)
    requires Answered(a.requests, requests) && !ElectingBy(a.requests, t) && restart >= ZERO
    ensures t < SettledBy(a, restart) <==> t < SettledBy(a.(requests := requests), restart)
    ensures OwedItsReturn(a, restart, t) <==> OwedItsReturn(a.(requests := requests), restart, t)
  {
    var b := a.(requests := requests);
    AnswersElect(a.requests, requests, t);
    AnswersShow(a.requests, requests, restart, Working);
    if Electing(a.requests) {
      SettledWhileElecting(a, t, restart);
      SettledWhileElecting(b, t, restart);
    } else {
      SettledWithoutElecting(a, t, restart);
      SettledWithoutElecting(b, t, restart);
    }
  }

  /** Where election does not show by t, no answer matters. */
  lemma AnswersMeanNothing(a: Input, requests: seq<Request>, c: Checkpoint)
    requires a.Recorded() && c.began <= c.time <= a.End()
    requires Answered(a.requests, requests) && !ElectingBy(a.requests, c.time)
    ensures Excused(a, c) == Excused(a.(requests := requests), c)
    ensures HangsOnReturn(a, c) == HangsOnReturn(a.(requests := requests), c)
  {
    var b, t := a.(requests := requests), c.time;
    AnswersElect(a.requests, requests, t);
    OnlyReturnsAgree(a, requests, c);
    if OnlyReturnsExcuse(a, c) {
      ExcusedMeans(a, c);
      ExcusedMeans(b, c);
      forall e | e in a.exits
        ensures t < SettledBy(a, e.restart) <==> t < SettledBy(b, e.restart)
        ensures OwedItsReturn(a, e.restart, t) <==> OwedItsReturn(b, e.restart, t)
      {
        ReturnsAgree(a, requests, t, e.restart);
      }
    } else {
      ExcusedAnyway(a, requests, c);
      ExcusedNow(a, c);
    }
  }

  // ----- the exact condition

  /** A later recording agrees up to t with the earlier one, answered. */
  lemma ExtendsAnswered(a: Input, b: Input, t: Instant)
    requires Extends(a, b, t)
    ensures AgreeUpTo(a.(requests := b.requests[..|a.requests|]), b, t)
  {
    ExtendsAgree(a, b, t);
    forall r | r in b.requests && r.start <= t ensures r in b.requests[..|a.requests|] {
      var i :| 0 <= i < |b.requests| && b.requests[i] == r;
      assert i < |a.requests| && b.requests[..|a.requests|][i] == r;
    }
  }

  /** A later recording can overturn the verdict only where it hangs on one. */
  lemma OverturnedOnlyWhere(a: Input, b: Input, c: Checkpoint)
    requires c.began <= c.time && Extends(a, b, c.time) && Excused(a, c) != Excused(b, c)
    ensures HangsOnReturn(a, c) || HangsOnAnswer(a, c)
  {
    var t := c.time;
    var requests := b.requests[..|a.requests|];
    var answered := a.(requests := requests);
    ExtendsAnswered(a, b, t);
    AnswersElect(a.requests, requests, t);
    if Electing(answered.requests) == Electing(b.requests) {
      VerdictStable(answered, b, c);
      if ElectingBy(a.requests, t) {
        AnswersOverturn(a, requests, c);
      } else {
        AnswersMeanNothing(a, requests, c);
      }
    } else {
      assert Electing(b.requests) by {
        assert forall r :: r in requests ==> r in b.requests;
      }
      AnswersMeanNothing(a, requests, c);
      ElectionOverturns(answered, b, c);
    }
  }

  const LEASE_READ := Request(0, "get", "coordination.k8s.io", "leases", 200, false)

  /** The run, and a lease read just after t. */
  function ElectingAfter(a: Input, t: Instant): Input {
    a.(requests := a.requests + [LEASE_READ.(start := t + 1)])
  }

  lemma ReturnIsOverturned(a: Input, c: Checkpoint)
    requires a.Recorded() && c.began <= c.time <= a.End() && HangsOnReturn(a, c)
    ensures Extends(a, ElectingAfter(a, c.time), c.time)
    ensures Excused(ElectingAfter(a, c.time), c) != Excused(a, c)
  {
    var t := c.time;
    var b := ElectingAfter(a, t);
    BesidesReflexive(a, b.requests, t);
    assert b.requests[..|a.requests|] == a.requests;
    ExtendsAnswered(a, b, t);
    assert a.(requests := a.requests) == a;
    assert b.requests[|a.requests|] == LEASE_READ.(start := t + 1);
    assert b.requests[|a.requests|] in b.requests;
    ElectionOverturns(a, b, c);
  }

  lemma AnsweredExtends(a: Input, requests: seq<Request>, t: Instant)
    requires a.Recorded() && t <= a.End() && Answered(a.requests, requests)
    ensures Extends(a, a.(requests := requests), t)
  {
    BesidesReflexive(a, requests, t);
    assert requests[..|a.requests|] == requests;
  }

  lemma OverturnedBy(a: Input, b: Input, c: Checkpoint)
    requires Extends(a, b, c.time) && Excused(b, c) != Excused(a, c)
    ensures Overturned(a, c)
  {
  }

  /** Some later recording of the same run overturns the verdict on a wait exactly
      where only the target's return may excuse it and either no request shows
      whether it elects a leader, or the answers to its pending lease writes decide
      when it returned. */
  lemma OverturnedExactlyWhere(a: Input, c: Checkpoint)
    requires a.Recorded() && c.began <= c.time <= a.End()
    ensures Overturned(a, c) <==> HangsOnReturn(a, c) || HangsOnAnswer(a, c)
  {
    if Overturned(a, c) {
      var b :| Extends(a, b, c.time) && Excused(b, c) != Excused(a, c);
      OverturnedOnlyWhere(a, b, c);
    }
    if HangsOnReturn(a, c) {
      ReturnIsOverturned(a, c);
      OverturnedBy(a, ElectingAfter(a, c.time), c);
    }
    if HangsOnAnswer(a, c) {
      var requests := HangingIsOverturned(a, c);
      AnsweredExtends(a, requests, c.time);
      OverturnedBy(a, a.(requests := requests), c);
    }
  }

  // ----- over a whole run

  /** A run as it was recorded at one instant. */
  datatype Snapshot = Snapshot(input: Input, at: Instant)

  /** Each snapshot of a run is a later recording of the one before it. */
  ghost predicate Grows(run: seq<Snapshot>) {
    forall i :: 0 <= i < |run| - 1 ==> LaterSnapshot(run[i], run[i + 1])
  }

  ghost predicate LaterSnapshot(a: Snapshot, b: Snapshot) {
    a.at <= b.at && a.at <= a.input.End() && LaterRecording(a.input, b.input)
  }

  /** Nothing stamped by a snapshot's instant is recorded after it. */
  ghost predicate OnTime(run: seq<Snapshot>) {
    forall i :: 0 <= i < |run| - 1 ==> NothingLate(run[i].input, run[i + 1].input, run[i].at)
  }

  lemma FaultsInEarlier(a: seq<FaultWindow>, b: seq<FaultWindow>, s: Instant, t: Instant)
    requires s <= t && FaultsIn(a, b, t)
    ensures FaultsIn(a, b, s)
  {
    forall f | f in a && Visible(f, s)
      ensures HoldsFault(b, f.AsOf(s), s)
    {
      assert Visible(f, t) && HoldsFault(b, f.AsOf(t), t);
      var g :| g in b && g.AsOf(t) == f.AsOf(t);
      assert g.AsOf(s) == f.AsOf(s);
    }
  }

  lemma ExtendsEarlier(a: Input, b: Input, s: Instant, t: Instant)
    requires s <= t && Extends(a, b, t)
    ensures Extends(a, b, s)
  {
    FaultsInEarlier(a.faults, b.faults, s, t);
    FaultsInEarlier(b.faults, a.faults, s, t);
  }

  lemma FaultsInTransitive(a: seq<FaultWindow>, b: seq<FaultWindow>, c: seq<FaultWindow>, t: Instant)
    requires FaultsIn(a, b, t) && FaultsIn(b, c, t)
    ensures FaultsIn(a, c, t)
  {
    forall f | f in a && Visible(f, t)
      ensures HoldsFault(c, f.AsOf(t), t)
    {
      assert HoldsFault(b, f.AsOf(t), t);
      var g :| g in b && g.AsOf(t) == f.AsOf(t);
      assert Visible(g, t) && HoldsFault(c, g.AsOf(t), t);
    }
  }

  lemma LogGrowsOn(a: seq<Request>, b: seq<Request>, c: seq<Request>, t: Instant)
    requires |a| <= |b| <= |c| && Answered(a, b[..|a|]) && Answered(b, c[..|b|])
    requires forall i :: |a| <= i < |b| ==> b[i].start > t
    requires forall i :: |b| <= i < |c| ==> c[i].start > t
    ensures Answered(a, c[..|a|])
    ensures forall i :: |a| <= i < |c| ==> c[i].start > t
  {
    forall i | 0 <= i < |a| ensures Answers(a[i], c[..|a|][i]) {
      assert Answers(a[i], b[..|a|][i]) && Answers(b[i], c[..|b|][i]);
    }
    forall i | |a| <= i < |b| ensures c[i].start == b[i].start {
      assert Answers(b[i], c[..|b|][i]);
    }
  }

  lemma ExtendsOn(a: Input, b: Input, c: Input, t: Instant)
    requires Extends(a, b, t) && Extends(b, c, t)
    ensures Extends(a, c, t)
  {
    LogGrowsOn(a.requests, b.requests, c.requests, t);
    FaultsInTransitive(a.faults, b.faults, c.faults, t);
    FaultsInTransitive(c.faults, b.faults, a.faults, t);
  }

  lemma {:induction false} SnapshotsExtend(run: seq<Snapshot>, i: nat, j: nat)
    requires Grows(run) && OnTime(run) && i < j < |run|
    ensures run[i].at <= run[j].at && Extends(run[i].input, run[j].input, run[i].at)
    decreases j
  {
    assert LaterSnapshot(run[j - 1], run[j - 1 + 1]) && NothingLate(run[j - 1].input, run[j - 1 + 1].input, run[j - 1].at);
    if i + 1 < j {
      SnapshotsExtend(run, i, j - 1);
      ExtendsEarlier(run[j - 1].input, run[j].input, run[i].at, run[j - 1].at);
      ExtendsOn(run[i].input, run[j - 1].input, run[j].input, run[i].at);
    }
  }

  /** The op of the checkpoint that follows the wait the teardown gives a target
      still owed time to recover. */
  const RECOVERY := -2

  /** The G4 the Runner raises where a wait ends. No fault excuses the wait after
      the last fault stopped. */
  predicate RunnerAccuses(asOf: Input, c: Checkpoint) {
    c.settle == Expired && !(if c.op == RECOVERY then DeletionOverdue(asOf, c) else Excused(asOf, c))
  }

  /** No answer came to a request logged by t, and no election to light. */
  ghost predicate Undisturbed(a: Input, b: Input, t: Instant) {
    && Electing(a.requests) == Electing(b.requests) && |a.requests| <= |b.requests|
    && forall i :: 0 <= i < |a.requests| && a.requests[i].start <= t ==> b.requests[i] == a.requests[i]
  }

  lemma UndisturbedAgree(a: Input, b: Input, t: Instant)
    requires Extends(a, b, t) && Undisturbed(a, b, t)
    ensures AgreeUpTo(a, b, t)
  {
    ExtendsAgree(a, b, t);
    forall r | r in a.requests && r.start <= t ensures r in b.requests {
      var i :| 0 <= i < |a.requests| && a.requests[i] == r;
      assert b.requests[i] == r;
    }
    forall r | r in b.requests && r.start <= t ensures r in a.requests {
      var i :| 0 <= i < |b.requests| && b.requests[i] == r;
      assert i < |a.requests| && Answers(a.requests[i], b.requests[..|a.requests|][i]);
      assert a.requests[i] == r;
    }
  }

  /** Over a whole run with nothing late, where the verdict hangs on neither a return nor an answer, or
      what it could hang on never comes, the engine at every later checkpoint reports
      a wait after an op exactly where the Runner did as it ended. It never reports a
      wait, after an op or after the last fault, that the Runner let pass. */
  lemma RunnerAndEngineAgree(run: seq<Snapshot>, i: nat, j: nat, c: Checkpoint)
    requires Grows(run) && OnTime(run) && i < j < |run|
    requires c.began <= c.time <= run[i].at
    requires || (!HangsOnReturn(run[i].input, c) && !HangsOnAnswer(run[i].input, c))
             || Undisturbed(run[i].input, run[j].input, c.time)
             || c.op == RECOVERY
    ensures c.op != RECOVERY ==> (ExpiredUnexcused(run[j].input, c) <==> RunnerAccuses(run[i].input, c))
    ensures ExpiredUnexcused(run[j].input, c) ==> RunnerAccuses(run[i].input, c)
  {
    var a, b := run[i].input, run[j].input;
    SnapshotsExtend(run, i, j);
    ExtendsEarlier(a, b, c.time, run[i].at);
    if c.op != RECOVERY && Excused(a, c) != Excused(b, c) {
      OverturnedOnlyWhere(a, b, c);
      UndisturbedAgree(a, b, c.time);
      VerdictStable(a, b, c);
      assert false;
    }
    ExtendsAgree(a, b, c.time);
    DeletionVerdictAgrees(a, b, c);
  }

  lemma DeletionVerdictAgrees(a: Input, b: Input, c: Checkpoint)
    requires AgreeBesides(a, b, c.time) && c.began <= c.time
    ensures DeletionOverdue(a, c) == DeletionOverdue(b, c)
  {
    AgreeBesidesSymmetric(a, b, c.time);
    if DeletionOverdue(a, c) { DeletionOverdueIn(a, b, c); }
    if DeletionOverdue(b, c) { DeletionOverdueIn(b, a, c); }
  }

  /** The wait after the last fault stopped gives up only once a snapshot shows that
      the owed time is up. So no fault excuses it later either, and Runner and engine
      agree on it in both directions. */
  lemma RecoveryWaitsAgree(run: seq<Snapshot>, read: nat, i: nat, j: nat, c: Checkpoint)
    requires Grows(run) && OnTime(run) && read < j < |run| && i < j
    requires c.op == RECOVERY && c.began <= c.time <= run[i].at
    requires ZERO <= run[read].at <= c.time && Owed(run[read].input, run[read].at) <= run[read].at
    requires NoFaultSince(run[j].input.faults, run[read].at, c.time)
    requires Undisturbed(run[read].input, run[j].input, run[read].at)
    ensures ExpiredUnexcused(run[j].input, c) <==> RunnerAccuses(run[i].input, c)
  {
    SnapshotsExtend(run, read, j);
    UndisturbedAgree(run[read].input, run[j].input, run[read].at);
    WaitedOnlyDeletionExcuses(run[read].input, run[j].input, run[read].at, c);
    SnapshotsExtend(run, i, j);
    ExtendsEarlier(run[i].input, run[j].input, c.time, run[i].at);
    ExtendsAgree(run[i].input, run[j].input, c.time);
    DeletionVerdictAgrees(run[i].input, run[j].input, c);
  }

  // ----- the claim without its conditions is false

  const TIMEOUTS := Timeouts(10, 5, 20)
  const WAIT := Checkpoint(1, 10, 20, Expired)

  /** A run that converged at 3, with a fault over [4, 6], an exit at 5 restarted at
      8, and this log. */
  function Crashed(requests: seq<Request>): Input {
    Input(TIMEOUTS, "Widget", requests, [], [], [Checkpoint(0, 1, 3, Converged)], [FaultWindow(4, 6)], [Exit(5, 8)], 20)
  }

  lemma CrashedCounts(requests: seq<Request>)
    ensures Crashed(requests).Recorded()
    ensures OnlyReturnsExcuse(Crashed(requests), WAIT) && Counts(Crashed(requests), Exit(5, 8), 20)
  {
    var input := Crashed(requests);
    assert input.exits[0] == Exit(5, 8) && input.faults[0] == FaultWindow(4, 6);
    assert input.checkpoints[..0] == [] && input.faults[..0] == [];
    assert LastConverged(input.checkpoints, 20) == 3;
    assert StoppedSpan(input.faults, 3, 20) == Span(4, 6);
    assert FaultsOwed(input, 20) == 18;
    assert Faulted(input.faults, 5, 5) by { assert FaultWindow(4, 6).Overlaps(5, 5); }
    assert !DeletionOverdue(input, WAIT) by { assert DeletionsBy([], input.primary, input.Delete(), 20) == []; }
  }

  lemma CrashedVerdict(requests: seq<Request>)
    ensures Excused(Crashed(requests), WAIT) <==> 20 < SettledBy(Crashed(requests), 8)
  {
    CrashedCounts(requests);
    ExcusedMeans(Crashed(requests), WAIT);
    assert Crashed(requests).exits[0] == Exit(5, 8);
  }

  lemma FirstOneMore(log: seq<Request>, r: Request, since: Instant, sign: Sign)
    ensures First(log + [r], since, sign) ==
            var before := First(log, since, sign);
            if r.start > since && Shows(sign, r) && (before == ZERO || r.start < before) then r.start else before
  {
    assert (log + [r])[..|log|] == log;
  }

  const LISTED := Request(12, "list", "", "pods", 200, false)

  /** The premise that nothing is late is needed: a request stamped before the wait
      expired and logged after its verdict turns a reported wait into an excused one,
      though the verdict hung on no return and no answer. */
  lemma LateRequestOverturns()
    ensures var before, after := Crashed([]), Crashed([LISTED]);
            && LaterRecording(before, after) && LISTED.start <= WAIT.time && !NothingLate(before, after, WAIT.time)
            && !Excused(before, WAIT) && Excused(after, WAIT)
            && !HangsOnReturn(before, WAIT) && !HangsOnAnswer(before, WAIT)
  {
    var before, after := Crashed([]), Crashed([LISTED]);
    CrashedCounts([]);
    CrashedCounts([LISTED]);
    CrashedVerdict([]);
    CrashedVerdict([LISTED]);
    FirstOneMore([], LISTED, 8, Working);
    assert [] + [LISTED] == [LISTED];
    assert after.requests[0].start == 12;
    assert forall e :: e in before.exits ==> e == Exit(5, 8);
  }

  /** A lease read that first shows after the wait overturns its verdict: excused
      as the wait expired, reported at the next checkpoint. */
  lemma ElectionComingToLightOverturns()
    ensures HangsOnReturn(Crashed([LISTED]), WAIT) && Excused(Crashed([LISTED]), WAIT)
    ensures Extends(Crashed([LISTED]), ElectingAfter(Crashed([LISTED]), 20), 20)
    ensures !Excused(ElectingAfter(Crashed([LISTED]), 20), WAIT)
  {
    var before := Crashed([LISTED]);
    CrashedCounts([LISTED]);
    FirstOneMore([], LISTED, 8, Working);
    assert [] + [LISTED] == [LISTED];
    assert OwedItsReturn(before, 8, 20) && before.exits[0] == Exit(5, 8);
    SettledWithoutElecting(before, 20, 8);
    CrashedVerdict([LISTED]);
    ReturnIsOverturned(before, WAIT);
  }

  const GOT := LEASE_READ.(start := 9)
  const WRITE := Request(0, "update", "coordination.k8s.io", "leases", 0, false)

  /** The log of a target that read its lease at 9, wrote it at some instant and
      renewed it at 12. */
  function Wrote(at: Instant, first: int, renewed: int): seq<Request> {
    [] + [GOT] + [WRITE.(start := at, status := first)] + [WRITE.(start := 12, status := renewed)]
  }

  lemma WroteVerdict(at: Instant, first: int, renewed: int)
    requires 9 < at < 12
    ensures Excused(Crashed(Wrote(at, first, renewed)), WAIT) <==>
            if 200 <= first < 300 then at > 10 else 200 <= renewed < 300
  {
    var one, two := WRITE.(start := at, status := first), WRITE.(start := 12, status := renewed);
    CrashedVerdict(Wrote(at, first, renewed));
    FirstOneMore([], GOT, 8, Getting);
    FirstOneMore([] + [GOT], one, 8, Getting);
    FirstOneMore([] + [GOT] + [one], two, 8, Getting);
    FirstOneMore([], GOT, 9, Winning);
    FirstOneMore([] + [GOT], one, 9, Winning);
    FirstOneMore([] + [GOT] + [one], two, 9, Winning);
    assert Wrote(at, first, renewed)[0] == GOT;
  }

  lemma WroteExtends(before: seq<Request>, after: seq<Request>)
    requires Answered(before, after)
    ensures Extends(Crashed(before), Crashed(after), 20)
  {
    CrashedCounts(before);
    AnsweredExtends(Crashed(before), after, 20);
    assert Crashed(before).(requests := after) == Crashed(after);
  }

  /** A lease write still unanswered as the wait expired overturns its verdict once
      the API server accepts it: reported at first, excused later. */
  lemma PendingWriteOverturns()
    ensures var before, after := Crashed(Wrote(11, 0, 500)), Crashed(Wrote(11, 200, 500));
            !Excused(before, WAIT) && Excused(after, WAIT) && Extends(before, after, 20)
  {
    WroteVerdict(11, 0, 500);
    WroteVerdict(11, 200, 500);
    WroteExtends(Wrote(11, 0, 500), Wrote(11, 200, 500));
  }

  /** So does one that shows the target to have been back earlier than it seemed:
      excused at first, reported later. */
  lemma PendingWriteEndsExcuse()
    ensures var before, after := Crashed(Wrote(10, 0, 200)), Crashed(Wrote(10, 200, 200));
            Excused(before, WAIT) && !Excused(after, WAIT) && Extends(before, after, 20)
  {
    WroteVerdict(10, 0, 200);
    WroteVerdict(10, 200, 200);
    WroteExtends(Wrote(10, 0, 200), Wrote(10, 200, 200));
  }
}
