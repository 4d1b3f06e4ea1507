/** G6, no error loop: the target does not repeat one failing request more than a
    threshold of times within a settle timeout, under an unchanged spec and fixtures
    and with no faults.
 */
module ErrorLoop {
  import opened Instants
  import opened Sorting
  import Recording
  import Verdicts

  datatype RequestKey = RequestKey(
    verb: string, group: string, resource: string, namespace: string, name: string, subresource: string)

  /** `faulted` says the proxy answered it with a fault. */
  datatype Request = Request(start: Instant, key: RequestKey, status: int, faulted: bool)

  /** `gives` says the op changed the CR or a fixture, or restored one. */
  datatype Op = Op(time: Instant, gives: bool)

  datatype Log = Log(
    requests: seq<Request>, ops: seq<Op>, faults: seq<Recording.FaultWindow>, teardown: Instant,
    settle: Duration, threshold: nat)

  /** The requests of one key in one stretch of unchanged spec and fixtures. */
  datatype Group = Group(since: Instant, key: RequestKey)

  predicate Conflicted(r: Request) {
    r.status == 409 && (r.key.verb == "update" || r.key.verb == "patch")
  }

  predicate Failed(r: Request) {
    r.status >= 400 && !Conflicted(r) && !r.faulted
  }

  /** The last op by t, in the order applied, that gave the target anything. */
  function LastGiven(ops: seq<Op>, t: Instant): Instant {
    if ops == [] then ZERO
    else if ops[|ops| - 1].gives && ops[|ops| - 1].time <= t then ops[|ops| - 1].time
    else LastGiven(ops[..|ops| - 1], t)
  }

  function SpecSetAt(log: Log, t: Instant): Instant {
    var since := LastGiven(log.ops, t);
    if log.teardown != ZERO && t > log.teardown && log.teardown > since then log.teardown else since
  }

  /** The last op of the log, in its order, that gave the target anything by t. */
  ghost predicate GivenAt(ops: seq<Op>, t: Instant, i: int) {
    0 <= i < |ops| && ops[i].gives && ops[i].time <= t && forall j :: i < j < |ops| ==> !(ops[j].gives && ops[j].time <= t)
  }

  lemma {:induction false} LastGivenMeans(ops: seq<Op>, t: Instant, i: int)
    requires GivenAt(ops, t, i)
    ensures LastGiven(ops, t) == ops[i].time
    decreases |ops|
  {
    if i < |ops| - 1 {
      var front := ops[..|ops| - 1];
      assert front[i] == ops[i] && forall j :: i < j < |front| ==> front[j] == ops[j];
      LastGivenMeans(front, t, i);
    }
  }

  lemma {:induction false} NoneGivenMeans(ops: seq<Op>, t: Instant)
    requires forall i :: 0 <= i < |ops| ==> !(ops[i].gives && ops[i].time <= t)
    ensures LastGiven(ops, t) == ZERO
    decreases |ops|
  {
    if ops != [] {
      NoneGivenMeans(ops[..|ops| - 1], t);
    }
  }

  method ComputeSpecSetAt(log: Log, t: Instant) returns (since: Instant)
    ensures since == SpecSetAt(log, t)
  {
    since := ZERO;
    for i := 0 to |log.ops|
      invariant since == LastGiven(log.ops[..i], t)
    {
      assert log.ops[..i + 1][..i] == log.ops[..i];
      if log.ops[i].gives && log.ops[i].time <= t {
        since := log.ops[i].time;
      }
    }
    assert log.ops[..|log.ops|] == log.ops;
    if log.teardown != ZERO && t > log.teardown && log.teardown > since {
      since := log.teardown;
    }
  }

  predicate Belongs(log: Log, r: Request, g: Group) {
    && Failed(r) && !Verdicts.Faulted(log.faults, r.start, r.start)
    && g == Group(SpecSetAt(log, r.start), r.key)
  }

  function Members(log: Log, requests: seq<Request>, g: Group): seq<Request> {
    if requests == [] then []
    else
      var last := requests[|requests| - 1];
      Members(log, requests[..|requests| - 1], g) + if Belongs(log, last, g) then [last] else []
  }

  /** How many requests start in the window that begins at `from`. */
  function CountIn(requests: seq<Request>, from: Instant, window: Duration): nat {
    if requests == [] then 0
    else
      CountIn(requests[..|requests| - 1], from, window) +
      if from <= requests[|requests| - 1].start <= from + window then 1 else 0
  }

  function StartOf(r: Request): Instant { r.start }

  lemma CountOneMore(requests: seq<Request>, r: Request, from: Instant, window: Duration)
    ensures CountIn(requests + [r], from, window) == CountIn(requests, from, window) + if from <= r.start <= from + window then 1 else 0
  {
    assert (requests + [r])[..|requests|] == requests;
  }

  // Sorting a group.

  lemma {:induction false} InsertCounts(sorted: seq<Request>, r: Request, from: Instant, window: Duration)
    ensures CountIn(Insert(sorted, r, StartOf), from, window) == CountIn(sorted + [r], from, window)
  {
    if sorted != [] && sorted[|sorted| - 1].start > r.start {
      var front, last := sorted[..|sorted| - 1], sorted[|sorted| - 1];
      InsertCounts(front, r, from, window);
      CountOneMore(Insert(front, r, StartOf), last, from, window);
      CountOneMore(front, r, from, window);
      CountOneMore(sorted, r, from, window);
    }
  }

  lemma {:induction false} SortKeepsCounts(requests: seq<Request>, from: Instant, window: Duration)
    ensures CountIn(StableSort(requests, StartOf), from, window) == CountIn(requests, from, window)
  {
    if requests != [] {
      var front, last := requests[..|requests| - 1], requests[|requests| - 1];
      SortKeepsCounts(front, from, window);
      InsertCounts(StableSort(front, StartOf), last, from, window);
      CountOneMore(StableSort(front, StartOf), last, from, window);
    }
  }

  // The sliding window.

  lemma {:induction false} CountAtMost(requests: seq<Request>, first: nat, from: Instant, window: Duration)
    requires first <= |requests| && forall i :: 0 <= i < first ==> requests[i].start < from
    ensures CountIn(requests, from, window) <= |requests| - first
  {
    if |requests| > 0 {
      CountAtMost(requests[..|requests| - 1], if first < |requests| then first else first - 1, from, window);
    }
  }

  lemma {:induction false} CountAtLeast(requests: seq<Request>, a: nat, b: nat, from: Instant, window: Duration)
    requires a <= b <= |requests| && forall i :: a <= i < b ==> from <= requests[i].start <= from + window
    ensures b - a <= CountIn(requests, from, window)
  {
    if |requests| > 0 && a < |requests| {
      CountAtLeast(requests[..|requests| - 1], a, if b < |requests| then b else b - 1, from, window);
    }
  }

  /** Requests that fit in one window, at any positions, are no more than some
      window holds. */
  lemma {:induction false} SetFits(requests: seq<Request>, positions: set<nat>, from: Instant, window: Duration)
    requires forall p :: p in positions ==> p < |requests| && from <= requests[p].start <= from + window
    ensures |positions| <= CountIn(requests, from, window)
  {
    if requests == [] {
      assert positions == {};
    } else {
      var last := |requests| - 1;
      var rest := positions - {last};
      SetFits(requests[..last], rest, from, window);
      if last in positions {
        assert positions == rest + {last};
      } else {
        assert positions == rest;
      }
    }
  }

  lemma {:induction false} EarliestOf(requests: seq<Request>, positions: set<nat>) returns (e: nat)
    requires positions != {} && forall p :: p in positions ==> p < |requests|
    ensures e in positions && forall p :: p in positions ==> requests[e].start <= requests[p].start
    decreases positions
  {
    var one :| one in positions;
    var rest := positions - {one};
    assert positions == rest + {one};
    e := one;
    if rest != {} {
      var other := EarliestOf(requests, rest);
      if requests[other].start < requests[one].start {
        e := other;
      }
    }
  }

  /** No set of requests, contiguous or not, whose starts all lie within a window of
      each other is larger than the fullest window. */
  lemma NoLargerSet(requests: seq<Request>, window: Duration, most: nat, positions: set<nat>)
    requires forall t :: CountIn(requests, t, window) <= most
    requires forall p :: p in positions ==> p < |requests|
    requires forall p, q :: p in positions && q in positions ==> requests[q].start - requests[p].start <= window
    ensures |positions| <= most
  {
    if positions != {} {
      var e := EarliestOf(requests, positions);
      SetFits(requests, positions, requests[e].start, window);
    }
  }

  /** The burst is a run of neighbours within the window, and no window of that
      length, wherever it begins, holds more requests. */
  method Densest(requests: seq<Request>, window: Duration) returns (from: nat, to: nat)
    requires Sorted(requests, StartOf) && window >= 0
    ensures from <= to <= |requests| && (requests != [] ==> from < to)
    ensures from < to ==> requests[to - 1].start - requests[from].start <= window
    ensures forall t :: CountIn(requests, t, window) <= to - from
  {
    from, to := 0, 0;
    var first := 0;
    assert requests[..0] == [];
    for last := 0 to |requests|
      invariant IsDensest(requests, last, window, from, to) && 0 <= first <= last
      invariant last > 0 ==> forall i :: 0 <= i < first ==> requests[last - 1].start - requests[i].start > window
    {
      first := Slide(requests, window, first, last);
      from, to := Longer(requests, window, first, last, from, to);
    }
    DensestOfAll(requests, window, from, to);
  }

  /** Keeps the burst that ends at the last request, if it is longer. */
  method Longer(requests: seq<Request>, window: Duration, first: nat, last: nat, from: nat, to: nat)
    returns (longerFrom: nat, longerTo: nat)
    requires first <= last < |requests| && IsDensest(requests, last, window, from, to)
    requires requests[last].start - requests[first].start <= window
    requires forall i :: 0 <= i < first ==> requests[last].start - requests[i].start > window
    ensures IsDensest(requests, last + 1, window, longerFrom, longerTo)
  {
    longerFrom, longerTo := from, to;
    if last - first + 1 > to - from {
      longerFrom, longerTo := first, last + 1;
    }
    NoFuller(requests, last, first, window, to - from, longerTo - longerFrom);
  }

  lemma DensestOfAll(requests: seq<Request>, window: Duration, from: nat, to: nat)
    requires IsDensest(requests, |requests|, window, from, to)
    ensures forall t :: CountIn(requests, t, window) <= to - from
  {
    assert requests[..|requests|] == requests;
  }

  /** A burst of the first n requests that no window exceeds. */
  ghost predicate IsDensest(requests: seq<Request>, n: nat, window: Duration, from: nat, to: nat)
    requires n <= |requests|
  {
    && from <= to <= n && (n > 0 ==> from < to)
    && (from < to ==> requests[to - 1].start - requests[from].start <= window)
    && NoneFuller(requests, n, window, to - from)
  }

  /** No window holds more than `most` of the first n requests. */
  ghost predicate NoneFuller(requests: seq<Request>, n: nat, window: Duration, most: int)
    requires n <= |requests|
  {
    var seen := requests[..n];
    forall t :: CountIn(seen, t, window) <= most
  }

  method Slide(requests: seq<Request>, window: Duration, start: nat, last: nat) returns (first: nat)
    requires Sorted(requests, StartOf) && window >= 0 && start <= last < |requests|
    requires last > 0 ==> forall i :: 0 <= i < start ==> requests[last - 1].start - requests[i].start > window
    ensures first <= last && requests[last].start - requests[first].start <= window
    ensures forall i :: 0 <= i < first ==> requests[last].start - requests[i].start > window
  {
    first := start;
    while requests[last].start - requests[first].start > window
      invariant first <= last
      invariant forall i :: 0 <= i < first ==> requests[last].start - requests[i].start > window
      decreases last - first
    {
      first := first + 1;
    }
  }

  lemma OneMoreFits(requests: seq<Request>, last: nat, first: nat, t: Instant, window: Duration)
    requires first <= last < |requests|
    requires forall i :: 0 <= i < first ==> requests[last].start - requests[i].start > window
    ensures CountIn(requests[..last + 1], t, window) == CountIn(requests[..last], t, window)
         || CountIn(requests[..last + 1], t, window) <= last + 1 - first
  {
    assert requests[..last + 1] == requests[..last] + [requests[last]];
    CountOneMore(requests[..last], requests[last], t, window);
    if t <= requests[last].start <= t + window {
      CountAtMost(requests[..last + 1], first, t, window);
    }
  }

  lemma NoFuller(requests: seq<Request>, last: nat, first: nat, window: Duration, before: nat, most: nat)
    requires first <= last < |requests| && before <= most && last + 1 - first <= most
    requires forall i :: 0 <= i < first ==> requests[last].start - requests[i].start > window
    requires NoneFuller(requests, last, window, before)
    ensures NoneFuller(requests, last + 1, window, most)
  {
    var seen := requests[..last + 1];
    forall t ensures CountIn(seen, t, window) <= most {
      assert CountIn(requests[..last], t, window) <= before;
      OneMoreFits(requests, last, first, t, window);
    }
  }

  /** More than the threshold fit in some window exactly where the burst is longer
      than the threshold. */
  lemma BurstDecides(requests: seq<Request>, window: Duration, from: nat, to: nat, threshold: nat)
    requires from <= to <= |requests| && Sorted(requests, StartOf) && window >= 0
    requires from < to ==> requests[to - 1].start - requests[from].start <= window
    requires forall t :: CountIn(requests, t, window) <= to - from
    ensures to - from > threshold <==> Loops(requests, window, threshold)
  {
    if to - from > threshold {
      var t := requests[from].start;
      CountAtLeast(requests, from, to, t, window);
      assert CountIn(requests, t, window) > threshold;
    }
  }

  ghost predicate Loops(requests: seq<Request>, window: Duration, threshold: nat) {
    exists t :: CountIn(requests, t, window) > threshold
  }

  // The check.

  /** The groups that hold any request. */
  method Grouped(log: Log) returns (groups: map<Group, seq<Request>>)
    ensures forall g :: Members(log, log.requests, g) == if g in groups then groups[g] else []
  {
    groups := map[];
    for n := 0 to |log.requests|
      invariant forall g :: GroupedBy(log, n, groups, g)
    {
      groups := GroupOne(log, n, groups);
    }
    assert log.requests[..|log.requests|] == log.requests;
    forall g ensures Members(log, log.requests, g) == if g in groups then groups[g] else [] {
      assert GroupedBy(log, |log.requests|, groups, g);
    }
  }

  ghost predicate GroupedBy(log: Log, n: nat, groups: map<Group, seq<Request>>, g: Group)
    requires n <= |log.requests|
  {
    (if g in groups then groups[g] else []) == Members(log, log.requests[..n], g)
  }

  method GroupOne(log: Log, n: nat, before: map<Group, seq<Request>>) returns (groups: map<Group, seq<Request>>)
    requires n < |log.requests| && forall g :: GroupedBy(log, n, before, g)
    ensures var m := n + 1; forall g :: GroupedBy(log, m, groups, g)
  {
    var r := log.requests[n];
    groups := before;
    var faulted := Verdicts.ComputeFaulted(log.faults, r.start, r.start);
    if Failed(r) && !faulted {
      var since := ComputeSpecSetAt(log, r.start);
      var g := Group(since, r.key);
      groups := groups[g := (if g in groups then groups[g] else []) + [r]];
    }
    var m := n + 1;
    forall g ensures GroupedBy(log, m, groups, g) {
      assert GroupedBy(log, n, before, g);
      assert log.requests[..n + 1][..n] == log.requests[..n];
    }
  }

  /** The burst is a run of neighbours of the requests in time order, within the
      window, and no window holds more. */
  ghost predicate IsBurst(requests: seq<Request>, window: Duration, burst: seq<Request>) {
    && burst != [] && burst[|burst| - 1].start - burst[0].start <= window
    && (exists from, to :: 0 <= from <= to <= |requests| && StableSort(requests, StartOf)[from..to] == burst)
    && forall t :: CountIn(requests, t, window) <= |burst|
  }

  /** When the group's first request started. */
  function FirstStart(log: Log, g: Group): Instant {
    var sorted := StableSort(Members(log, log.requests, g), StartOf);
    if sorted == [] then ZERO else sorted[0].start
  }

  /** A group is reported exactly where more than the threshold of its requests, as
      the run logged them, start within one settle timeout, and with the most that
      do. Each is reported once, in the order their first requests started. */
  method NoErrorLoop(log: Log) returns (violations: map<Group, seq<Request>>, order: seq<Group>)
    requires log.settle >= 0
    ensures forall g :: g in violations <==> Loops(Members(log, log.requests, g), log.settle, log.threshold)
    ensures forall g :: g in violations ==> IsBurst(Members(log, log.requests, g), log.settle, violations[g])
    ensures multiset(order) == multiset(violations.Keys)
    ensures forall i, j :: 0 <= i < j < |order| ==> FirstStart(log, order[i]) <= FirstStart(log, order[j])
  {
    violations := Violations(log);
    order := Listed(violations.Keys);
    var first := (g: Group) => FirstStart(log, g);
    StableSortKeeps(order, first);
    StableSortSorts(order, first);
    order := StableSort(order, first);
    forall i, j | 0 <= i < j < |order| ensures FirstStart(log, order[i]) <= FirstStart(log, order[j]) {
      assert first(order[i]) <= first(order[j]);
    }
  }

  method Listed(groups: set<Group>) returns (listed: seq<Group>)
    ensures multiset(listed) == multiset(groups)
  {
    listed := [];
    var todo := groups;
    while todo != {}
      invariant todo <= groups && multiset(listed) == multiset(groups - todo)
      decreases todo
    {
      var g :| g in todo;
      listed := listed + [g];
      assert groups - (todo - {g}) == (groups - todo) + {g};
      todo := todo - {g};
    }
  }

  method Violations(log: Log) returns (violations: map<Group, seq<Request>>)
    requires log.settle >= 0
    ensures forall g :: g in violations <==> Loops(Members(log, log.requests, g), log.settle, log.threshold)
    ensures forall g :: g in violations ==> IsBurst(Members(log, log.requests, g), log.settle, violations[g])
  {
    var groups := Grouped(log);
    violations := map[];
    var todo := groups.Keys;
    while todo != {}
      invariant todo <= groups.Keys
      invariant violations.Keys <= groups.Keys - todo
      invariant forall g :: g in groups.Keys - todo ==> (g in violations <==> Loops(groups[g], log.settle, log.threshold))
      invariant forall g :: g in violations ==> IsBurst(groups[g], log.settle, violations[g])
      decreases todo
    {
      var g :| g in todo;
      var loops, burst := Judge(groups[g], log.settle, log.threshold);
      if loops {
        violations := violations[g := burst];
      }
      todo := todo - {g};
    }
    forall g | g !in groups ensures !Loops(Members(log, log.requests, g), log.settle, log.threshold) {
      assert Members(log, log.requests, g) == [];
    }
  }

  method Judge(requests: seq<Request>, window: Duration, threshold: nat) returns (loops: bool, burst: seq<Request>)
    requires window >= 0
    ensures loops <==> Loops(requests, window, threshold)
    ensures loops ==> |burst| > threshold && IsBurst(requests, window, burst)
  {
    var sorted := StableSort(requests, StartOf);
    StableSortSorts(requests, StartOf);
    var from, to := Densest(sorted, window);
    BurstDecides(sorted, window, from, to, threshold);
    SortKeepsEveryCount(requests, window);
    loops, burst := to - from > threshold, sorted[from..to];
    if loops {
      assert burst[|burst| - 1] == sorted[to - 1] && burst[0] == sorted[from];
    }
  }

  lemma SortKeepsEveryCount(requests: seq<Request>, window: Duration)
    ensures forall t :: CountIn(StableSort(requests, StartOf), t, window) == CountIn(requests, t, window)
  {
    forall t ensures CountIn(StableSort(requests, StartOf), t, window) == CountIn(requests, t, window) {
      SortKeepsCounts(requests, t, window);
    }
  }
}
