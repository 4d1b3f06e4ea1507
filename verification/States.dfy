/** What the Observer had seen of the run namespace at one instant.

    The recorded order can invert between kinds, so the checks sort a window of
    the log by time, stably, and sweep it once with a cursor.
 */
module States {
  import opened Instants
  import opened Recording
  import opened Sorting

  /** The versions recorded in [from, to], in the order recorded. */
  function Within(log: seq<Version>, from: Instant, to: Instant): seq<Version> {
    if log == [] then []
    else
      var last := log[|log| - 1];
      Within(log[..|log| - 1], from, to) + (if from <= last.time <= to then [last] else [])
  }

  /** The versions recorded by t, in the order recorded. */
  function UpTo(log: seq<Version>, t: Instant): seq<Version> {
    if log == [] then []
    else
      var last := log[|log| - 1];
      UpTo(log[..|log| - 1], t) + (if last.time <= t then [last] else [])
  }

  function TimeOf(v: Version): Instant { v.time }

  /** The last version of each key, later entries winning. */
  function LatestOf(s: seq<Version>): map<Key, Version> {
    if s == [] then map[]
    else LatestOf(s[..|s| - 1])[s[|s| - 1].key := s[|s| - 1]]
  }

  /** The objects that still exist. */
  function Live(latest: map<Key, Version>): (m: map<Key, Version>) {
    map k | k in latest && !latest[k].deleted :: latest[k]
  }

  /** Every version recorded up to the evaluation time, oldest first. */
  function Versions(input: Input): seq<Version> {
    StableSort(Within(input.history, ZERO, input.End()), TimeOf)
  }

  /** The live objects of a sorted log at t. */
  function StateOf(versions: seq<Version>, t: Instant): map<Key, Version> {
    Live(LatestOf(UpTo(versions, t)))
  }

  /** The live objects at t. */
  function StateAt(input: Input, t: Instant): map<Key, Version> {
    StateOf(Versions(input), t)
  }

  /** A sorted log's versions up to t are a prefix of it. */
  lemma {:induction false} SortedPrefix(s: seq<Version>, n: nat, t: Instant)
    requires Sorted(s, TimeOf) && n <= |s|
    requires forall i :: 0 <= i < n ==> s[i].time <= t
    requires n < |s| ==> s[n].time > t
    ensures UpTo(s, t) == s[..n]
  {
    if s == [] {
    } else if n == |s| {
      SortedPrefix(s[..|s| - 1], n - 1, t);
      assert s[..n] == s[..n - 1] + [s[n - 1]];
    } else {
      var front := s[..|s| - 1];
      assert s[|s| - 1].time > t;
      SortedPrefix(front, n, t);
      assert front[..n] == s[..n];
    }
  }

  /** One sweep over the sorted log gives the state at each of several instants
      in order, the same as looking each instant up on its own. */
  method StatesAt(input: Input, times: seq<Instant>) returns (states: seq<map<Key, Version>>)
    requires forall i :: 0 < i < |times| ==> times[i - 1] <= times[i]
    ensures |states| == |times|
    ensures forall i :: 0 <= i < |times| ==> states[i] == StateAt(input, times[i])
  {
    StableSortSorts(Within(input.history, ZERO, input.End()), TimeOf);
    states := Sweep(Versions(input), times);
  }

  method Sweep(versions: seq<Version>, times: seq<Instant>) returns (states: seq<map<Key, Version>>)
    requires Sorted(versions, TimeOf) && forall i :: 0 < i < |times| ==> times[i - 1] <= times[i]
    ensures |states| == |times|
    ensures forall i :: 0 <= i < |times| ==> states[i] == StateOf(versions, times[i])
  {
    var latest: map<Key, Version> := map[];
    states := [];
    var next: nat := 0;
    for n := 0 to |times|
      invariant next <= |versions|
      invariant latest == LatestOf(versions[..next])
      invariant forall i :: 0 <= i < next ==> n > 0 && versions[i].time <= times[n - 1]
      invariant |states| == n
      invariant forall i :: 0 <= i < n ==> states[i] == StateOf(versions, times[i])
    {
      assert n > 0 ==> times[n - 1] <= times[n];
      latest, next := Advance(versions, times[n], latest, next);
      states := states + [Live(latest)];
    }
  }

  /** The inner loop of the sweep: moves the cursor past every version at or
      before t. */
  method Advance(versions: seq<Version>, t: Instant, before: map<Key, Version>, start: nat)
    returns (latest: map<Key, Version>, next: nat)
    requires Sorted(versions, TimeOf) && start <= |versions|
    requires before == LatestOf(versions[..start])
    requires forall i :: 0 <= i < start ==> versions[i].time <= t
    ensures next <= |versions|
    ensures latest == LatestOf(versions[..next]) && versions[..next] == UpTo(versions, t)
    ensures forall i :: 0 <= i < next ==> versions[i].time <= t
  {
    latest, next := before, start;
    while next < |versions| && versions[next].time <= t
      invariant next <= |versions|
      invariant latest == LatestOf(versions[..next])
      invariant forall i :: 0 <= i < next ==> versions[i].time <= t
    {
      latest := latest[versions[next].key := versions[next]];
      assert versions[..next + 1][..next] == versions[..next];
      next := next + 1;
    }
    SortedPrefix(versions, next, t);
  }

  // Sorting and cutting commute, which is what lets a later recording be read at
  // an earlier instant.

  lemma UpToSnoc(s: seq<Version>, v: Version, t: Instant)
    ensures UpTo(s + [v], t) == if v.time <= t then UpTo(s, t) + [v] else UpTo(s, t)
  {
    assert (s + [v])[..|s|] == s;
    assert UpTo(s, t) + [] == UpTo(s, t);
  }

  lemma InsertSnoc(s: seq<Version>, x: Version, v: Version)
    ensures Insert(s + [x], v, TimeOf) == if x.time <= v.time then s + [x, v] else Insert(s, v, TimeOf) + [x]
  {
    assert (s + [x])[..|s|] == s;
    assert s + [x] + [v] == s + [x, v];
  }

  lemma SortedAll(s: seq<Version>, t: Instant)
    requires Sorted(s, TimeOf) && (s != [] ==> s[|s| - 1].time <= t)
    ensures UpTo(s, t) == s
  {
    SortedPrefix(s, |s|, t);
    assert s[..|s|] == s;
  }

  lemma {:induction false} UpToInsert(s: seq<Version>, v: Version, t: Instant)
    requires Sorted(s, TimeOf)
    ensures UpTo(Insert(s, v, TimeOf), t) == if v.time <= t then Insert(UpTo(s, t), v, TimeOf) else UpTo(s, t)
  {
    if s == [] {
      UpToSnoc([], v, t);
    } else {
      var front, last := s[..|s| - 1], s[|s| - 1];
      assert s == front + [last];
      if last.time <= v.time {
        UpToSnoc(s, v, t);
        if v.time <= t {
          SortedAll(s, t);
        }
      } else {
        UpToInsert(front, v, t);
        UpToSnoc(Insert(front, v, TimeOf), last, t);
        UpToSnoc(front, last, t);
        if last.time <= t {
          InsertSnoc(UpTo(front, t), last, v);
        }
      }
    }
  }

  lemma {:induction false} UpToStableSort(s: seq<Version>, t: Instant)
    ensures UpTo(StableSort(s, TimeOf), t) == StableSort(UpTo(s, t), TimeOf)
  {
    if s != [] {
      var front, last := s[..|s| - 1], s[|s| - 1];
      assert s == front + [last];
      UpToStableSort(front, t);
      StableSortSorts(front, TimeOf);
      UpToInsert(StableSort(front, TimeOf), last, t);
      UpToSnoc(front, last, t);
      if last.time <= t {
        assert UpTo(s, t)[..|UpTo(s, t)| - 1] == UpTo(front, t);
      } else {
        assert UpTo(s, t) == UpTo(front, t);
      }
    }
  }

  lemma {:induction false} UpToWithin(log: seq<Version>, from: Instant, to: Instant, t: Instant)
    requires t <= to
    ensures UpTo(Within(log, from, to), t) == Within(log, from, t)
  {
    if log != [] {
      var front, last := log[..|log| - 1], log[|log| - 1];
      UpToWithin(front, from, to, t);
      var w := Within(front, from, to);
      assert (w + [last])[..|w|] == w;
      assert w + [] == w;
    }
  }

  lemma {:induction false} WithinUpTo(log: seq<Version>, from: Instant, t: Instant, cut: Instant)
    requires t <= cut
    ensures Within(UpTo(log, cut), from, t) == Within(log, from, t)
  {
    if log != [] {
      var front, last := log[..|log| - 1], log[|log| - 1];
      WithinUpTo(front, from, t, cut);
      var w := UpTo(front, cut);
      assert (w + [last])[..|w|] == w;
      assert w + [] == w;
    }
  }

  /** The state at t is the same in any two recordings that hold the same versions
      by t, in the same order, and were watched through t. */
  lemma StateAgrees(a: Input, b: Input, t: Instant, cut: Instant)
    requires t <= cut && t <= a.End() && t <= b.End()
    requires UpTo(a.history, cut) == UpTo(b.history, cut)
    ensures StateAt(a, t) == StateAt(b, t)
  {
    UpToStableSort(Within(a.history, ZERO, a.End()), t);
    UpToStableSort(Within(b.history, ZERO, b.End()), t);
    UpToWithin(a.history, ZERO, a.End(), t);
    UpToWithin(b.history, ZERO, b.End(), t);
    WithinUpTo(a.history, ZERO, t, cut);
    WithinUpTo(b.history, ZERO, t, cut);
  }
}
