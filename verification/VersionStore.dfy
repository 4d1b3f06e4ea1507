/** The Observer's version store: a log of every version recorded and, for each
    object, the positions of its versions in the log. The checks do not use the
    index; they sort the log by time and sweep it. This module proves where the two
    readings of a run agree.
 */
module VersionStore {
  import opened Instants
  import opened Options
  import opened Recording
  import opened Sorting
  import opened States

  /** Two deliveries of the same state of an object. */
  predicate Same(a: Version, b: Version) {
    a.uid == b.uid && a.resourceVersion == b.resourceVersion && a.deleted == b.deleted
  }

  /** Where the log holds versions of the key, in order. */
  ghost function Positions(log: seq<Version>, key: Key): seq<nat> {
    if log == [] then []
    else Positions(log[..|log| - 1], key) + if log[|log| - 1].key == key then [|log| - 1] else []
  }

  /** The versions of the key, in the order recorded. */
  ghost function HistoryOf(log: seq<Version>, key: Key): seq<Version> {
    if log == [] then []
    else HistoryOf(log[..|log| - 1], key) + if log[|log| - 1].key == key then [log[|log| - 1]] else []
  }

  ghost predicate NoRepeats(history: seq<Version>) {
    forall i :: 0 < i < |history| ==> !Same(history[i - 1], history[i])
  }

  /** The log once v is delivered. */
  ghost function Delivered(log: seq<Version>, v: Version): seq<Version> {
    var history := HistoryOf(log, v.key);
    if history != [] && Same(history[|history| - 1], v) then log else log + [v]
  }

  lemma HistoryOfOneMore(log: seq<Version>, v: Version, key: Key)
    ensures HistoryOf(log + [v], key) == if v.key == key then HistoryOf(log, key) + [v] else HistoryOf(log, key)
    ensures Positions(log + [v], key) == if v.key == key then Positions(log, key) + [|log|] else Positions(log, key)
  {
    assert (log + [v])[..|log|] == log;
    assert HistoryOf(log, key) + [] == HistoryOf(log, key) && Positions(log, key) + [] == Positions(log, key);
  }

  lemma {:induction false} HistoryIsAtPositions(log: seq<Version>, key: Key)
    ensures |HistoryOf(log, key)| == |Positions(log, key)|
    ensures forall i :: 0 <= i < |Positions(log, key)| ==> Positions(log, key)[i] < |log|
    ensures forall i :: 0 <= i < |Positions(log, key)| ==> log[Positions(log, key)[i]] == HistoryOf(log, key)[i]
  {
    if log != [] {
      HistoryIsAtPositions(log[..|log| - 1], key);
    }
  }

  /** The index lists exactly the positions of the key, each once and in order. */
  lemma {:induction false} PositionsAreExact(log: seq<Version>, key: Key)
    ensures forall p :: p in Positions(log, key) <==> 0 <= p < |log| && log[p].key == key
    ensures forall i, j :: 0 <= i < j < |Positions(log, key)| ==> Positions(log, key)[i] < Positions(log, key)[j]
  {
    if log != [] {
      var front := Positions(log[..|log| - 1], key);
      PositionsAreExact(log[..|log| - 1], key);
      assert forall i :: 0 <= i < |front| ==> front[i] in front;
    }
  }

  /** A delivery the store already holds changes nothing, so a relist does not
      repeat history. */
  lemma DeliveredAgain(log: seq<Version>, v: Version, again: Version)
    requires v.key == again.key && Same(v, again)
    ensures Delivered(Delivered(log, v), again) == Delivered(log, v)
  {
    HistoryOfOneMore(log, v, v.key);
  }

  /** The last version of the key by t, if there is one. */
  ghost function LatestBy(log: seq<Version>, key: Key, t: Instant): Option<Version> {
    var latest := LatestOf(UpTo(log, t));
    if key in latest then Some(latest[key]) else None
  }

  lemma LatestByOneMore(log: seq<Version>, v: Version, key: Key, t: Instant)
    ensures LatestBy(log + [v], key, t) == if v.key == key && v.time <= t then Some(v) else LatestBy(log, key, t)
  {
    UpToSnoc(log, v, t);
    assert (UpTo(log, t) + [v])[..|UpTo(log, t)|] == UpTo(log, t);
  }

  /** Of a history, the last version by t. */
  ghost function LastBy(history: seq<Version>, t: Instant): Option<Version> {
    if history == [] then None
    else if history[|history| - 1].time <= t then Some(history[|history| - 1])
    else LastBy(history[..|history| - 1], t)
  }

  lemma LastByOneMore(history: seq<Version>, v: Version, t: Instant)
    ensures LastBy(history + [v], t) == if v.time <= t then Some(v) else LastBy(history, t)
  {
    assert (history + [v])[..|history|] == history;
  }

  /** Reading one object's history gives what reading the whole log gives. */
  lemma {:induction false} HistoryGivesLatest(log: seq<Version>, key: Key, t: Instant)
    ensures LastBy(HistoryOf(log, key), t) == LatestBy(log, key, t)
  {
    if log != [] {
      var front, v := log[..|log| - 1], log[|log| - 1];
      assert log == front + [v];
      HistoryGivesLatest(front, key, t);
      HistoryOfOneMore(front, v, key);
      LatestByOneMore(front, v, key, t);
      LastByOneMore(HistoryOf(front, key), v, t);
    }
  }

  lemma {:induction false} LatestIsKnown(log: seq<Version>, key: Key, t: Instant)
    ensures LatestBy(log, key, t).Some? ==> Positions(log, key) != []
  {
    if log != [] {
      assert log == log[..|log| - 1] + [log[|log| - 1]];
      LatestIsKnown(log[..|log| - 1], key, t);
      LatestByOneMore(log[..|log| - 1], log[|log| - 1], key, t);
    }
  }

  /** The last version of the key in the log is this delivery. */
  ghost predicate Holds(log: seq<Version>, v: Version) {
    exists p :: LastOf(log, v.key, p)
      && log[p].uid == v.uid && log[p].resourceVersion == v.resourceVersion && log[p].deleted == v.deleted
  }

  /** The version at p is the last of its key in the log. */
  ghost predicate LastOf(log: seq<Version>, key: Key, p: int) {
    0 <= p < |log| && log[p].key == key && forall q :: p < q < |log| ==> log[q].key != key
  }

  lemma {:induction false} HistoryEnds(log: seq<Version>, key: Key)
    ensures forall p :: LastOf(log, key, p) ==> HistoryOf(log, key) != [] && HistoryOf(log, key)[|HistoryOf(log, key)| - 1] == log[p]
    ensures HistoryOf(log, key) != [] ==> exists p :: LastOf(log, key, p)
  {
    if log != [] {
      var front, last := log[..|log| - 1], log[|log| - 1];
      HistoryEnds(front, key);
      if last.key == key {
        assert LastOf(log, key, |log| - 1);
      } else {
        forall p ensures LastOf(log, key, p) <==> LastOf(front, key, p) {
          LastOfFront(log, key, p);
        }
        if p :| LastOf(front, key, p) {
          assert LastOf(log, key, p);
        }
      }
    }
  }

  lemma LastOfFront(log: seq<Version>, key: Key, p: int)
    requires log != [] && log[|log| - 1].key != key
    ensures LastOf(log, key, p) <==> LastOf(log[..|log| - 1], key, p)
  {
    var front := log[..|log| - 1];
    assert forall q :: 0 <= q < |front| ==> front[q] == log[q];
    if LastOf(front, key, p) {
      forall q | p < q < |log| ensures log[q].key != key {
        assert q < |front| ==> front[q] == log[q];
      }
    }
  }

  lemma DeliveredMeans(log: seq<Version>, v: Version)
    ensures Delivered(log, v) == if Holds(log, v) then log else log + [v]
  {
    HistoryEnds(log, v.key);
    if p :| LastOf(log, v.key, p) {
      forall q | LastOf(log, v.key, q) ensures q == p {
      }
    }
  }

  /** The version at p is the last recorded of its key by t. */
  ghost predicate LastRecorded(log: seq<Version>, key: Key, t: Instant, p: int) {
    && 0 <= p < |log| && log[p].key == key && log[p].time <= t
    && forall q :: p < q < |log| ==> !(log[q].key == key && log[q].time <= t)
  }

  lemma {:induction false} LatestByMeans(log: seq<Version>, key: Key, t: Instant)
    ensures forall p :: LastRecorded(log, key, t, p) ==> LatestBy(log, key, t) == Some(log[p])
    ensures LatestBy(log, key, t).Some? <==> exists p :: LastRecorded(log, key, t, p)
  {
    if log != [] {
      var front, v := log[..|log| - 1], log[|log| - 1];
      assert log == front + [v];
      LatestByMeans(front, key, t);
      LatestByOneMore(front, v, key, t);
      if v.key == key && v.time <= t {
        assert LastRecorded(log, key, t, |log| - 1);
      } else {
        forall p ensures LastRecorded(log, key, t, p) <==> LastRecorded(front, key, t, p) {
          LastUnmoved(log, key, t, p);
        }
        if p :| LastRecorded(front, key, t, p) {
          assert LastRecorded(log, key, t, p);
        }
      }
    }
  }

  lemma LastUnmoved(log: seq<Version>, key: Key, t: Instant, p: int)
    requires log != [] && !(log[|log| - 1].key == key && log[|log| - 1].time <= t)
    ensures LastRecorded(log, key, t, p) <==> LastRecorded(log[..|log| - 1], key, t, p)
  {
    var front := log[..|log| - 1];
    assert forall q :: 0 <= q < |front| ==> front[q] == log[q];
    if LastRecorded(front, key, t, p) {
      forall q | p < q < |log| ensures !(log[q].key == key && log[q].time <= t) {
        assert q < |front| ==> front[q] == log[q];
      }
    }
  }

  /** The snapshot holds the last recorded version by t of each key it does not show
      deleted, and nothing else. */
  ghost predicate IsSnapshot(log: seq<Version>, t: Instant, snapshot: map<Key, Version>) {
    && (forall key :: key in snapshot <==> exists p :: LastRecorded(log, key, t, p) && !log[p].deleted)
    && (forall key, p :: LastRecorded(log, key, t, p) && key in snapshot ==> snapshot[key] == log[p])
  }

  lemma StateOfMeans(log: seq<Version>, t: Instant)
    ensures IsSnapshot(log, t, StateOf(log, t))
  {
    var state := StateOf(log, t);
    forall key ensures key in state <==> exists p :: LastRecorded(log, key, t, p) && !log[p].deleted {
      LatestByMeans(log, key, t);
    }
    forall key, p | LastRecorded(log, key, t, p) && key in state ensures state[key] == log[p] {
      LatestByMeans(log, key, t);
    }
  }

  /** The index is exact for the key, and the key's history repeats no delivery. */
  ghost predicate Indexed(log: seq<Version>, byKey: map<Key, seq<nat>>, key: Key) {
    && (key in byKey <==> Positions(log, key) != [])
    && (key in byKey ==> byKey[key] == Positions(log, key))
    && NoRepeats(HistoryOf(log, key))
  }

  lemma AppendKeepsIndex(log: seq<Version>, byKey: map<Key, seq<nat>>, v: Version, positions: seq<nat>)
    requires forall key :: Indexed(log, byKey, key)
    requires positions == if v.key in byKey then byKey[v.key] else []
    requires HistoryOf(log, v.key) != [] ==> !Same(HistoryOf(log, v.key)[|HistoryOf(log, v.key)| - 1], v)
    ensures var longer, index := log + [v], byKey[v.key := positions + [|log|]]; forall key :: Indexed(longer, index, key)
  {
    var longer, index := log + [v], byKey[v.key := positions + [|log|]];
    forall key ensures Indexed(longer, index, key) {
      assert Indexed(log, byKey, key);
      if key == v.key {
        AppendIndexes(log, byKey, v, positions);
      } else {
        AppendElsewhere(log, byKey, v, positions, key);
      }
    }
  }

  lemma AppendIndexes(log: seq<Version>, byKey: map<Key, seq<nat>>, v: Version, positions: seq<nat>)
    requires Indexed(log, byKey, v.key)
    requires positions == if v.key in byKey then byKey[v.key] else []
    requires HistoryOf(log, v.key) != [] ==> !Same(HistoryOf(log, v.key)[|HistoryOf(log, v.key)| - 1], v)
    ensures Indexed(log + [v], byKey[v.key := positions + [|log|]], v.key)
  {
    HistoryOfOneMore(log, v, v.key);
    NoRepeatsWith(HistoryOf(log, v.key), v);
  }

  lemma NoRepeatsWith(history: seq<Version>, v: Version)
    requires NoRepeats(history) && (history != [] ==> !Same(history[|history| - 1], v))
    ensures NoRepeats(history + [v])
  {
  }

  lemma AppendElsewhere(log: seq<Version>, byKey: map<Key, seq<nat>>, v: Version, positions: seq<nat>, key: Key)
    requires Indexed(log, byKey, key) && key != v.key
    ensures Indexed(log + [v], byKey[v.key := positions + [|log|]], key)
  {
    HistoryOfOneMore(log, v, key);
  }

  class Store {
    var versions: seq<Version>
    var byKey: map<Key, seq<nat>>

    ghost predicate Valid()
      reads this
    {
      forall key :: Indexed(versions, byKey, key)
    }

    constructor ()
      ensures Valid() && versions == []
    {
      versions, byKey := [], map[];
    }

    method Record(v: Version)
      requires Valid()
      modifies this
      ensures Valid() && versions == Delivered(old(versions), v)
      ensures versions == if Holds(old(versions), v) then old(versions) else old(versions) + [v]
    {
      DeliveredMeans(versions, v);
      var known, last := Latest(v.key);
      if known && Same(last, v) {
        return;
      }
      Append(v);
    }

    method Append(v: Version)
      requires Valid()
      requires HistoryOf(versions, v.key) != [] ==> !Same(HistoryOf(versions, v.key)[|HistoryOf(versions, v.key)| - 1], v)
      modifies this
      ensures Valid() && versions == old(versions) + [v]
    {
      var positions := if v.key in byKey then byKey[v.key] else [];
      AppendKeepsIndex(versions, byKey, v, positions);
      byKey, versions := byKey[v.key := positions + [|versions|]], versions + [v];
    }

    method Latest(key: Key) returns (known: bool, last: Version)
      requires Valid()
      ensures known <==> HistoryOf(versions, key) != []
      ensures known ==> last == HistoryOf(versions, key)[|HistoryOf(versions, key)| - 1]
    {
      assert Indexed(versions, byKey, key);
      HistoryIsAtPositions(versions, key);
      known := key in byKey;
      last := *;
      if known {
        last := versions[byKey[key][|byKey[key]| - 1]];
      }
    }

    method History(key: Key) returns (history: seq<Version>)
      requires Valid()
      ensures history == HistoryOf(versions, key) && NoRepeats(history)
    {
      assert Indexed(versions, byKey, key);
      HistoryIsAtPositions(versions, key);
      var positions := if key in byKey then byKey[key] else [];
      history := [];
      for i := 0 to |positions|
        invariant history == HistoryOf(versions, key)[..i]
      {
        history := history + [versions[positions[i]]];
      }
    }

    method LatestAt(key: Key, t: Instant) returns (latest: Option<Version>)
      requires Valid()
      ensures latest == LatestBy(versions, key, t)
    {
      assert Indexed(versions, byKey, key);
      HistoryIsAtPositions(versions, key);
      var positions := if key in byKey then byKey[key] else [];
      ghost var history := HistoryOf(versions, key);
      latest := None;
      for i := 0 to |positions|
        invariant latest == LastBy(history[..i], t)
      {
        assert history[..i + 1][..i] == history[..i];
        if versions[positions[i]].time <= t {
          latest := Some(versions[positions[i]]);
        }
      }
      assert history[..|positions|] == history;
      HistoryGivesLatest(versions, key, t);
    }

    /** The objects live at t. */
    method SnapshotAt(t: Instant) returns (snapshot: map<Key, Version>)
      requires Valid()
      ensures snapshot == StateOf(versions, t) && IsSnapshot(versions, t, snapshot)
    {
      StateOfMeans(versions, t);
      snapshot := map[];
      var todo := byKey.Keys;
      while todo != {}
        invariant todo <= byKey.Keys
        invariant snapshot.Keys <= byKey.Keys - todo
        invariant forall key :: key in byKey.Keys - todo ==> Shown(versions, t, key, snapshot)
        decreases todo
      {
        var key :| key in todo;
        var latest := LatestAt(key, t);
        ghost var before := snapshot;
        if latest.Some? && !latest.value.deleted {
          snapshot := snapshot[key := latest.value];
        }
        forall k | k in byKey.Keys - (todo - {key}) ensures Shown(versions, t, k, snapshot) {
          assert k != key ==> Shown(versions, t, k, before);
        }
        todo := todo - {key};
      }
      forall key ensures Shown(versions, t, key, snapshot) {
        LatestIsKnown(versions, key, t);
        assert Indexed(versions, byKey, key);
      }
      ShownIsState(versions, t, snapshot);
    }
  }

  /** The snapshot holds the key exactly when it is live, with its latest version. */
  ghost predicate Shown(log: seq<Version>, t: Instant, key: Key, snapshot: map<Key, Version>) {
    var latest := LatestBy(log, key, t);
    if latest.Some? && !latest.value.deleted then key in snapshot && snapshot[key] == latest.value else key !in snapshot
  }

  lemma ShownIsState(log: seq<Version>, t: Instant, snapshot: map<Key, Version>)
    requires forall key :: Shown(log, t, key, snapshot)
    ensures snapshot == StateOf(log, t)
  {
    var state := StateOf(log, t);
    assert forall key :: Shown(log, t, key, state);
    forall key ensures key in snapshot <==> key in state {
      assert Shown(log, t, key, snapshot) && Shown(log, t, key, state);
    }
    forall key | key in snapshot ensures snapshot[key] == state[key] {
      assert Shown(log, t, key, snapshot) && Shown(log, t, key, state);
    }
    assert snapshot.Keys == state.Keys;
  }

  // The index against the sweep of the sorted log.

  /** The latest versions once v, delivered last, is read as part of a timeline: an
      older version does not replace a newer one. */
  function Newest(latest: map<Key, Version>, v: Version): map<Key, Version> {
    if v.key in latest && latest[v.key].time > v.time then latest else latest[v.key := v]
  }

  function NewestOf(log: seq<Version>): map<Key, Version> {
    if log == [] then map[] else Newest(NewestOf(log[..|log| - 1]), log[|log| - 1])
  }

  lemma {:induction false} LatestOfSorted(s: seq<Version>, key: Key)
    requires Sorted(s, TimeOf) && key in LatestOf(s)
    ensures s != [] && LatestOf(s)[key].time <= s[|s| - 1].time
  {
    if s != [] && s[|s| - 1].key != key {
      LatestOfSorted(s[..|s| - 1], key);
    }
  }

  lemma LatestOfOneMore(s: seq<Version>, v: Version)
    ensures LatestOf(s + [v]) == LatestOf(s)[v.key := v]
  {
    assert (s + [v])[..|s|] == s;
  }

  lemma NewestBelow(latest: map<Key, Version>, v: Version, last: Version)
    requires v.time < last.time
    ensures Newest(latest, v)[last.key := last] == Newest(latest[last.key := last], v)
  {
  }

  lemma {:induction false} LatestOfInsert(s: seq<Version>, v: Version)
    requires Sorted(s, TimeOf)
    ensures LatestOf(Insert(s, v, TimeOf)) == Newest(LatestOf(s), v)
  {
    if s == [] || s[|s| - 1].time <= v.time {
      LatestOfOneMore(s, v);
      if v.key in LatestOf(s) {
        LatestOfSorted(s, v.key);
      }
    } else {
      var front, last := s[..|s| - 1], s[|s| - 1];
      LatestOfInsert(front, v);
      LatestOfOneMore(Insert(front, v, TimeOf), last);
      assert LatestOf(s) == LatestOf(front)[last.key := last];
      NewestBelow(LatestOf(front), v, last);
    }
  }

  /** Sorting the log and sweeping it gives, for each object, its newest version,
      the last recorded of several at one instant. */
  lemma {:induction false} SweepGivesNewest(log: seq<Version>)
    ensures LatestOf(StableSort(log, TimeOf)) == NewestOf(log)
  {
    if log != [] {
      SweepGivesNewest(log[..|log| - 1]);
      StableSortSorts(log[..|log| - 1], TimeOf);
      LatestOfInsert(StableSort(log[..|log| - 1], TimeOf), log[|log| - 1]);
    }
  }

  lemma {:induction false} NewestIsNewest(log: seq<Version>, key: Key)
    ensures key in NewestOf(log) <==> key in LatestOf(log)
    ensures key in NewestOf(log) ==> NewestOf(log)[key] in log && NewestOf(log)[key].key == key
    ensures key in LatestOf(log) ==> LatestOf(log)[key] in log && LatestOf(log)[key].key == key
    ensures forall v :: v in log && v.key == key ==> key in NewestOf(log) && v.time <= NewestOf(log)[key].time
    ensures key in NewestOf(log) && LatestOf(log)[key].time == NewestOf(log)[key].time ==> LatestOf(log)[key] == NewestOf(log)[key]
  {
    if log != [] {
      NewestIsNewest(log[..|log| - 1], key);
      assert log == log[..|log| - 1] + [log[|log| - 1]];
    }
  }

  /** The last recorded version of the key by t is also its newest. */
  ghost predicate LastIsNewest(log: seq<Version>, key: Key, t: Instant) {
    forall last, v :: LatestBy(log, key, t) == Some(last) && v in UpTo(log, t) && v.key == key ==> v.time <= last.time
  }

  /** The store and the sweep see the same version of an object at t exactly where
      its last recorded version by t is its newest. */
  lemma AgreeExactlyWhere(log: seq<Version>, key: Key, t: Instant)
    ensures LatestBy(log, key, t) == LatestBy(StableSort(log, TimeOf), key, t) <==> LastIsNewest(log, key, t)
  {
    UpToStableSort(log, t);
    SweepGivesNewest(UpTo(log, t));
    NewestIsNewest(UpTo(log, t), key);
  }

  /** Each key's times never decrease along the log. */
  ghost predicate TimesInOrder(log: seq<Version>) {
    forall i, j :: 0 <= i < j < |log| && log[i].key == log[j].key ==> log[i].time <= log[j].time
  }

  lemma {:induction false} InOrderLastIsNewest(log: seq<Version>, key: Key, t: Instant)
    requires TimesInOrder(log)
    ensures LastIsNewest(log, key, t)
  {
    if log != [] {
      var front, last := log[..|log| - 1], log[|log| - 1];
      assert log == front + [last];
      InOrderLastIsNewest(front, key, t);
      LatestByOneMore(front, last, key, t);
      UpToSnoc(front, last, t);
      UpToIsOfLog(front, t);
    }
  }

  lemma {:induction false} UpToIsOfLog(log: seq<Version>, t: Instant)
    ensures forall v :: v in UpTo(log, t) ==> v in log && v.time <= t
  {
    if log != [] {
      UpToIsOfLog(log[..|log| - 1], t);
    }
  }

  lemma {:induction false} WithinIsUpTo(log: seq<Version>, t: Instant)
    requires forall v :: v in log ==> v.time >= ZERO
    ensures Within(log, ZERO, t) == UpTo(log, t)
  {
    if log != [] {
      assert log[|log| - 1] in log;
      WithinIsUpTo(log[..|log| - 1], t);
    }
  }

  /** Where each key's times never decrease, the checks' sweep over the time-sorted
      log and the store's snapshot show the same live objects at every instant the
      run was watched through. */
  lemma SweepAgreesWithSnapshot(input: Input, t: Instant)
    requires TimesInOrder(input.history) && t <= input.End()
    requires forall v :: v in input.history ==> v.time >= ZERO
    ensures StateAt(input, t) == StateOf(input.history, t)
  {
    var log := input.history;
    UpToStableSort(Within(log, ZERO, input.End()), t);
    UpToWithin(log, ZERO, input.End(), t);
    WithinIsUpTo(log, t);
    UpToStableSort(log, t);
    assert StateAt(input, t) == Live(LatestOf(UpTo(StableSort(log, TimeOf), t)));
    forall key ensures Shown(log, t, key, StateAt(input, t)) {
      AgreeExactlyWhere(log, key, t);
      InOrderLastIsNewest(log, key, t);
    }
    ShownIsState(log, t, StateAt(input, t));
  }
}
