/** Drawing a test sequence: which ops a draw may make next, the settle waits that
    leave them judged, and the fault inserted among them.
 */
module Generator {
  import opened Instants
  import opened Options
  import opened Sequences
  import opened Names

  const DEFAULT_STABLE: Duration := 10_000 * MILLISECOND

  datatype Fixture = Fixture(kind: string, name: string)

  /** What the generator reads of a target. `updates` says the CRD has a field that
      an update may change. `faultables` are the plurals a fault may match. */
  datatype Target = Target(
    sample: string, updates: bool, managed: seq<string>, fixtures: seq<Fixture>, updatable: seq<Fixture>,
    faultables: seq<string>, stable: Duration, maxOps: nat, maxCRs: nat)

  /** What loading a target promises: named samples, kinds and fixtures, plurals
      with no subresource, and timeouts that are positive or left to their
      defaults. */
  ghost predicate Loaded(t: Target) {
    && t.sample != "" && t.maxOps >= 1 && t.maxCRs >= 1 && t.stable >= 0
    && (forall k :: k in t.managed ==> k != "")
    && (forall f :: f in t.fixtures || f in t.updatable ==> f.kind != "" && f.name != "")
    && (forall p :: p in t.faultables ==> '/' !in p)
  }

  // ----- the ops a draw makes

  /** One op as the random source draws it. A patch the CRD always refused, or that
      always gave the CR another's value, is None. */
  datatype Draw =
    | DrawCreate(rest: string, noSettle: bool)
    | DrawUpdate(cr: nat, patch: Option<string>, noSettle: bool)
    | DrawDelete(cr: nat, noSettle: bool)
    | DrawRecreate(cr: nat, rest: string, noSettle: bool)
    | DrawSettle
    | DrawRestart
    | DrawDeleteManaged(managed: string)
    | DrawUpdateFixture(fixture: Fixture, change: string)
    | DrawDeleteFixture(fixture: Fixture)

  /** What the sequence so far leaves the run in: whether each CR it created is live,
      and the fixtures deleted since the last op that settles. */
  datatype State = State(live: seq<bool>, gone: seq<string>)

  const FRESH := State([], [])

  predicate AnyLive(at: State) { exists n :: 0 <= n < |at.live| && at.live[n] }

  predicate IsLive(at: State, n: nat) { n < |at.live| && at.live[n] }

  /** Whether the state allows the op. */
  predicate Legal(t: Target, at: State, d: Draw) {
    match d
    case DrawCreate(_, _) => |at.live| < t.maxCRs
    case DrawUpdate(n, _, _) => t.updates && IsLive(at, n)
    case DrawDelete(n, _) => IsLive(at, n)
    case DrawRecreate(n, _, _) => n < |at.live|
    case DrawSettle => true
    case DrawRestart => true
    case DrawDeleteManaged(kind) => AnyLive(at) && kind in t.managed
    case DrawUpdateFixture(f, _) => f in t.updatable
    case DrawDeleteFixture(f) => f in t.fixtures && f.kind + " " + f.name !in at.gone
  }

  function Blank(kind: OpType): Op {
    Op(0, kind, "", "", None, "", None, None, None, None, false)
  }

  const SETTLE := Blank(Settle)

  /** How an op names the n-th CR: the sample's goes unnamed. */
  function CRFor(t: Target, n: nat): string { if n == 0 then "" else Name(t.sample, n) }

  function Make(t: Target, at: State, d: Draw): Op {
    match d
    case DrawCreate(rest, noSettle) =>
      Blank(Create).(obj := Some(Manifest(Name(t.sample, |at.live|), rest)), noSettle := noSettle)
    case DrawUpdate(n, patch, noSettle) =>
      if patch.None? then SETTLE
      else Blank(Update).(cr := CRFor(t, n), patch := patch, noSettle := noSettle)
    case DrawDelete(n, noSettle) => Blank(Delete).(cr := CRFor(t, n), noSettle := noSettle)
    case DrawRecreate(n, rest, noSettle) =>
      Blank(Recreate).(cr := CRFor(t, n), obj := Some(Manifest(Name(t.sample, n), rest)), noSettle := noSettle)
    case DrawSettle => SETTLE
    case DrawRestart => Blank(Restart)
    case DrawDeleteManaged(kind) => Blank(DeleteManaged).(selects := kind, nth := Some(0))
    case DrawUpdateFixture(f, change) => Blank(UpdateFixture).(selects := f.kind, name := f.name, patch := Some(change))
    case DrawDeleteFixture(f) => Blank(DeleteFixture).(selects := f.kind, name := f.name)
  }

  /** Follows the op that the draw made. */
  function Advance(t: Target, at: State, d: Draw): State
    requires Legal(t, at, d)
  {
    var acted := match d
      case DrawCreate(_, _) => at.(live := at.live + [true])
      case DrawDelete(n, _) => at.(live := at.live[n := false])
      case DrawRecreate(n, _, _) => at.(live := at.live[n := true])
      case DrawDeleteFixture(f) => at.(gone := at.gone + [f.kind + " " + f.name])
      case _ => at;
    if Make(t, at, d).Settles() then acted.(gone := []) else acted
  }

  /** The state after the first n draws, or None where one of them is not legal. */
  function After(t: Target, draws: seq<Draw>, n: nat): Option<State>
    requires n <= |draws|
  {
    if n == 0 then Some(FRESH)
    else
      var at := After(t, draws, n - 1);
      if at.Some? && Legal(t, at.value, draws[n - 1]) then Some(Advance(t, at.value, draws[n - 1])) else None
  }

  /** A sequence opens with the create of the sample, and holds at least one more op
      unless it may hold only one. */
  ghost predicate Drawable(t: Target, draws: seq<Draw>) {
    && 1 <= |draws| <= t.maxOps && (t.maxOps > 1 ==> |draws| > 1)
    && draws[0].DrawCreate?
    && After(t, draws, |draws|).Some?
  }

  /** The op that a draw makes of the state the draws before it leave. */
  function OpOf(t: Target, draws: seq<Draw>, i: nat): Op
    requires i < |draws|
  {
    var at := After(t, draws, i);
    if at.Some? then Make(t, at.value, draws[i]) else SETTLE
  }

  /** The ops the draws make. */
  function OpsOf(t: Target, draws: seq<Draw>): (ops: seq<Op>)
    ensures |ops| == |draws|
  {
    seq(|draws|, i requires 0 <= i < |draws| => OpOf(t, draws, i))
  }

  // ----- the settle waits that leave the drawn ops judged

  function Emit(judged: seq<Op>, op: Op): seq<Op> {
    judged + [op.(index := |judged|)]
  }

  predicate EndsSettled(judged: seq<Op>) {
    judged != [] && judged[|judged| - 1].Settles()
  }

  predicate NeedsSettled(op: Op) { op.kind.Restart? || op.kind.DeleteManaged? }

  function Before(judged: seq<Op>, op: Op): seq<Op> {
    if NeedsSettled(op) && !EndsSettled(judged) then Emit(judged, SETTLE) else judged
  }

  /** The first n drawn ops, with the waits inserted. */
  function Judged(ops: seq<Op>, n: nat): seq<Op>
    requires n <= |ops|
  {
    if n == 0 then []
    else
      var judged := Emit(Before(Judged(ops, n - 1), ops[n - 1]), ops[n - 1]);
      if ops[n - 1].kind.Restart? && !(n < |ops| && ops[n].kind.Settle?) then Emit(judged, SETTLE)
      else if n == |ops| && !EndsSettled(judged) then Emit(judged, SETTLE)
      else judged
  }

  /** The first op at or after from that settles, or the length if none does. */
  function FirstSettling(ops: seq<Op>, from: nat): (i: nat)
    requires from <= |ops|
    ensures from <= i <= |ops|
    ensures i < |ops| ==> ops[i].Settles()
    ensures forall k :: from <= k < i ==> !ops[k].Settles()
    decreases |ops| - from
  {
    if from == |ops| || ops[from].Settles() then from else FirstSettling(ops, from + 1)
  }

  /** A deleted fixture comes back before the next op that settles. */
  function BackBySettling(ops: seq<Op>, i: nat): Op
    requires i < |ops|
  {
    if ops[i].kind.DeleteFixture? && FirstSettling(ops, i + 1) < |ops|
    then ops[i].(until := Some(FirstSettling(ops, i + 1)))
    else ops[i]
  }

  function WithUntils(ops: seq<Op>): (r: seq<Op>)
    ensures |r| == |ops|
    ensures forall i :: 0 <= i < |r| ==> r[i] == BackBySettling(ops, i)
  {
    seq(|ops|, i requires 0 <= i < |ops| => BackBySettling(ops, i))
  }

  function Checkpointed(ops: seq<Op>): seq<Op> {
    WithUntils(Judged(ops, |ops|))
  }

  /** Brings each deleted fixture back, in place. */
  method BringBack(ops: seq<Op>) returns (r: seq<Op>)
    ensures r == WithUntils(ops)
  {
    r := ops;
    for i := 0 to |ops|
      invariant |r| == |ops|
      invariant forall k :: 0 <= k < i ==> r[k] == BackBySettling(ops, k)
      invariant forall k :: i <= k < |ops| ==> r[k] == ops[k]
    {
      if r[i].kind.DeleteFixture? {
        var j := i + 1;
        while j < |ops| && !ops[j].Settles()
          invariant i < j <= |ops|
          invariant FirstSettling(ops, i + 1) == FirstSettling(ops, j)
        {
          j := j + 1;
        }
        if j < |ops| {
          r := r[i := r[i].(until := Some(j))];
        }
      }
    }
  }

  // What the waits and the returns come to, without saying how they are put in.

  /** An added settle stands between drawn ops k - 1 and k: right before a restart or
      deleteManaged that no settling op precedes, right after a restart that no settle
      is drawn after, or last, after an op that does not settle. */
  ghost predicate AddedAt(ops: seq<Op>, judged: seq<Op>, places: seq<int>, j: int, k: int) {
    && 0 <= j < |judged| && 0 <= k <= |places| <= |ops| && (k > 0 ==> places[k - 1] < j) && (k < |places| ==> j < places[k])
    && (|| (k < |places| && places[k] == j + 1 && (ops[k].kind.Restart? || ops[k].kind.DeleteManaged?)
            && (j == 0 || !judged[j - 1].Settles()))
        || (0 < k && places[k - 1] == j - 1 && ops[k - 1].kind.Restart? && !(k < |ops| && ops[k].kind.Settle?))
        || (k == |ops| && j == |judged| - 1 && 0 < j && !judged[j - 1].Settles()))
  }

  /** Op j is drawn, and stands at its place, or is a settle that was added. */
  ghost predicate DrawnOrAdded(ops: seq<Op>, judged: seq<Op>, places: seq<int>, j: int)
    requires 0 <= j < |judged|
  {
    || j in places
    || (judged[j] == Op(j, Settle, "", "", None, "", None, None, None, None, false)
        && exists k :: AddedAt(ops, judged, places, j, k))
  }

  /** The op at place p is the one drawn, up to its index and what brings its fixture
      back, with the settles it needs beside it. */
  ghost predicate DrawnAt(op: Op, judged: seq<Op>, p: int) {
    && 0 <= p < |judged|
    && judged[p] == op.(index := p, until := judged[p].until)
    && (op.kind.Restart? || op.kind.DeleteManaged? ==> 0 < p && judged[p - 1].Settles())
  }

  /** The drawn ops in order, and added settles. */
  ghost predicate Spread(ops: seq<Op>, judged: seq<Op>, places: seq<int>) {
    && |places| <= |ops|
    && (forall k, m :: 0 <= k < m < |places| ==> places[k] < places[m])
    && (forall k :: 0 <= k < |places| ==> DrawnAt(ops[k], judged, places[k]))
    && (forall j :: 0 <= j < |judged| ==> DrawnOrAdded(ops, judged, places, j))
  }

  /** A deleted fixture comes back at the first op after it that settles. */
  ghost predicate Returns(judged: seq<Op>, j: int, drawn: Option<int>)
    requires 0 <= j < |judged|
  {
    if judged[j].kind.DeleteFixture? && exists m :: j < m < |judged| && judged[m].Settles()
    then judged[j].until.Some? && j < judged[j].until.value < |judged| && judged[judged[j].until.value].Settles()
         && forall m :: j < m < judged[j].until.value ==> !judged[m].Settles()
    else judged[j].until == drawn
  }

  /** What checkpointing does to the drawn ops: each restart is followed by a settle,
      the last op settles, and fixtures come back. */
  ghost predicate IsCheckpointed(ops: seq<Op>, judged: seq<Op>, places: seq<int>) {
    && |places| == |ops| && Spread(ops, judged, places)
    && (forall k :: 0 <= k < |ops| && ops[k].kind.Restart? ==> places[k] + 1 < |judged| && judged[places[k] + 1].kind.Settle?)
    && (judged != [] ==> judged[|judged| - 1].Settles())
    && (forall k :: 0 <= k < |ops| ==> Returns(judged, places[k], ops[k].until))
  }

  function AddedSettle(j: int): Op { Op(j, Settle, "", "", None, "", None, None, None, None, false) }

  /** What one more drawn op, with the waits around it, adds to the ops before it. */
  ghost predicate Joins(ops: seq<Op>, n: nat, judged: seq<Op>, before: seq<Op>, out: seq<Op>)
    requires n < |ops|
  {
    var op := ops[n];
    var needs := op.kind.Restart? || op.kind.DeleteManaged?;
    var emitted := before + [op.(index := |before|)];
    && (before == judged || (before == judged + [AddedSettle(|judged|)] && needs && (judged == [] || !judged[|judged| - 1].Settles())))
    && (needs ==> before != [] && before[|before| - 1].Settles())
    && var closes := (op.kind.Restart? && !(n + 1 < |ops| && ops[n + 1].kind.Settle?)) || (n + 1 == |ops| && !op.Settles());
       out == if closes then emitted + [AddedSettle(|emitted|)] else emitted
  }

  lemma OldStaysSpread(ops: seq<Op>, judged: seq<Op>, places: seq<int>, out: seq<Op>, p: int, j: int)
    requires Spread(ops, judged, places) && |places| < |ops| && judged <= out && 0 <= j < |judged| <= p
    ensures DrawnOrAdded(ops, out, places + [p], j)
  {
    assert DrawnOrAdded(ops, judged, places, j);
    if j in places {
      assert j in places + [p];
    } else {
      var k :| AddedAt(ops, judged, places, j, k);
      assert AddedAt(ops, out, places + [p], j, k);
    }
  }

  lemma NewIsSpread(ops: seq<Op>, judged: seq<Op>, places: seq<int>, before: seq<Op>, out: seq<Op>, j: int)
    requires Spread(ops, judged, places) && |places| < |ops| && Joins(ops, |places|, judged, before, out)
    requires |judged| <= j < |out|
    ensures DrawnOrAdded(ops, out, places + [|before|], j)
  {
    var n, all := |places|, places + [|before|];
    forall k | 0 <= k < n ensures places[k] < |judged| {
      assert DrawnAt(ops[k], judged, places[k]);
    }
    if j < |before| {
      assert AddedAt(ops, out, all, j, n);
    } else if j == |before| {
      assert all[n] == j;
    } else {
      assert AddedAt(ops, out, all, j, n + 1);
    }
  }

  lemma JoinedIsSpread(ops: seq<Op>, judged: seq<Op>, places: seq<int>, before: seq<Op>, out: seq<Op>)
    requires Spread(ops, judged, places) && |places| < |ops| && Joins(ops, |places|, judged, before, out)
    ensures Spread(ops, out, places + [|before|])
  {
    var all := places + [|before|];
    assert judged <= out;
    forall k | 0 <= k < |all| ensures DrawnAt(ops[k], out, all[k]) && (k < |places| ==> all[k] < |before|) {
      if k < |places| {
        assert DrawnAt(ops[k], judged, places[k]);
      }
    }
    forall j | 0 <= j < |out| ensures DrawnOrAdded(ops, out, all, j) {
      if j < |judged| {
        OldStaysSpread(ops, judged, places, out, |before|, j);
      } else {
        NewIsSpread(ops, judged, places, before, out, j);
      }
    }
  }

  /** The n-th drawn restart has its settle after it, or it is drawn next. */
  ghost predicate Followed(ops: seq<Op>, judged: seq<Op>, places: seq<int>, k: int) {
    0 <= k < |places| <= |ops| && ops[k].kind.Restart? ==>
      if places[k] + 1 < |judged| && places[k] >= 0 then judged[places[k] + 1].kind.Settle?
      else places[k] + 1 == |judged| && k + 1 == |places| < |ops| && ops[k + 1].kind.Settle?
  }

  lemma BeforeJoins(judged: seq<Op>, op: Op)
    ensures var before, needs := Before(judged, op), op.kind.Restart? || op.kind.DeleteManaged?;
            && (before == judged || (before == judged + [AddedSettle(|judged|)] && needs && (judged == [] || !judged[|judged| - 1].Settles())))
            && (needs ==> before != [] && before[|before| - 1].Settles())
  {
  }

  lemma JudgedCloses(ops: seq<Op>, n: nat)
    requires n < |ops|
    ensures var op := ops[n];
            var emitted := Before(Judged(ops, n), op) + [op.(index := |Before(Judged(ops, n), op)|)];
            var closes := (op.kind.Restart? && !(n + 1 < |ops| && ops[n + 1].kind.Settle?)) || (n + 1 == |ops| && !op.Settles());
            Judged(ops, n + 1) == if closes then emitted + [AddedSettle(|emitted|)] else emitted
  {
  }

  lemma JudgedJoins(ops: seq<Op>, n: nat)
    requires n < |ops|
    ensures Joins(ops, n, Judged(ops, n), Before(Judged(ops, n), ops[n]), Judged(ops, n + 1))
  {
    BeforeJoins(Judged(ops, n), ops[n]);
    JudgedCloses(ops, n);
  }

  lemma JoinedIsFollowed(ops: seq<Op>, judged: seq<Op>, places: seq<int>, before: seq<Op>, out: seq<Op>, k: int)
    requires Spread(ops, judged, places) && |places| < |ops| && Joins(ops, |places|, judged, before, out)
    requires Followed(ops, judged, places, k)
    ensures Followed(ops, out, places + [|before|], k)
  {
    if 0 <= k < |places| {
      assert DrawnAt(ops[k], judged, places[k]);
    }
  }

  /** The op at its place still says what it was drawn to about its fixture. */
  ghost predicate KeepsUntil(ops: seq<Op>, judged: seq<Op>, places: seq<int>, k: int) {
    0 <= k < |places| <= |ops| && 0 <= places[k] < |judged| ==> judged[places[k]].until == ops[k].until
  }

  lemma JoinedKeepsUntil(ops: seq<Op>, judged: seq<Op>, places: seq<int>, before: seq<Op>, out: seq<Op>, k: int)
    requires Spread(ops, judged, places) && |places| < |ops| && Joins(ops, |places|, judged, before, out)
    requires KeepsUntil(ops, judged, places, k)
    ensures KeepsUntil(ops, out, places + [|before|], k)
  {
    if 0 <= k < |places| {
      assert DrawnAt(ops[k], judged, places[k]);
    }
  }

  /** All of that. */
  ghost predicate Placed(ops: seq<Op>, judged: seq<Op>, places: seq<int>) {
    && Spread(ops, judged, places)
    && (forall k :: 0 <= k < |places| ==> Followed(ops, judged, places, k))
    && (forall k :: 0 <= k < |places| ==> KeepsUntil(ops, judged, places, k))
  }

  lemma JoinedIsPlaced(ops: seq<Op>, judged: seq<Op>, places: seq<int>, before: seq<Op>, out: seq<Op>)
    requires Placed(ops, judged, places) && |places| < |ops| && Joins(ops, |places|, judged, before, out)
    ensures Placed(ops, out, places + [|before|])
  {
    JoinedIsSpread(ops, judged, places, before, out);
    forall k | 0 <= k < |places| + 1
      ensures Followed(ops, out, places + [|before|], k) && KeepsUntil(ops, out, places + [|before|], k)
    {
      JoinedIsFollowed(ops, judged, places, before, out, k);
      JoinedKeepsUntil(ops, judged, places, before, out, k);
    }
  }

  lemma NextPlaced(ops: seq<Op>, n: nat, places: seq<int>) returns (more: seq<int>)
    requires n < |ops| && |places| == n && Placed(ops, Judged(ops, n), places)
    ensures |more| == n + 1 && Placed(ops, Judged(ops, n + 1), more)
  {
    var before := Before(Judged(ops, n), ops[n]);
    JudgedJoins(ops, n);
    JoinedIsPlaced(ops, Judged(ops, n), places, before, Judged(ops, n + 1));
    more := places + [|before|];
  }

  lemma {:induction false} JudgedIsPlaced(ops: seq<Op>, n: nat) returns (places: seq<int>)
    requires n <= |ops|
    ensures |places| == n && Placed(ops, Judged(ops, n), places)
  {
    if n == 0 {
      places := [];
    } else {
      var earlier := JudgedIsPlaced(ops, n - 1);
      places := NextPlaced(ops, n - 1, earlier);
    }
  }

  lemma JudgedEndsSettled(ops: seq<Op>)
    ensures ops == [] || EndsSettled(Judged(ops, |ops|))
  {
    if ops != [] {
      JudgedJoins(ops, |ops| - 1);
    }
  }

  lemma SpreadWithUntils(ops: seq<Op>, judged: seq<Op>, places: seq<int>)
    requires Spread(ops, judged, places)
    ensures Spread(ops, WithUntils(judged), places)
  {
    var out := WithUntils(judged);
    forall k | 0 <= k < |places| ensures DrawnAt(ops[k], out, places[k]) {
      assert DrawnAt(ops[k], judged, places[k]);
    }
    forall j | 0 <= j < |out| ensures DrawnOrAdded(ops, out, places, j) {
      assert DrawnOrAdded(ops, judged, places, j);
      if j !in places {
        var k :| AddedAt(ops, judged, places, j, k);
        assert AddedAt(ops, out, places, j, k);
      }
    }
  }

  lemma UntilsReturn(judged: seq<Op>, j: nat)
    requires j < |judged|
    ensures Returns(WithUntils(judged), j, judged[j].until)
  {
    var out := WithUntils(judged);
    forall m | 0 <= m < |out| ensures out[m].Settles() == judged[m].Settles() {
    }
    var first := FirstSettling(judged, j + 1);
    if m :| j < m < |out| && out[m].Settles() {
      assert judged[m].Settles() && first <= m;
    }
  }

  lemma PlacedReturns(ops: seq<Op>, judged: seq<Op>, places: seq<int>, k: nat)
    requires Placed(ops, judged, places) && k < |places| == |ops|
    ensures 0 <= places[k] < |WithUntils(judged)| && Returns(WithUntils(judged), places[k], ops[k].until)
  {
    assert DrawnAt(ops[k], judged, places[k]) && KeepsUntil(ops, judged, places, k);
    UntilsReturn(judged, places[k]);
  }

  lemma PlacedFollowed(ops: seq<Op>, judged: seq<Op>, places: seq<int>, k: nat)
    requires Placed(ops, judged, places) && k < |places| == |ops| && ops[k].kind.Restart?
    ensures 0 <= places[k] && places[k] + 1 < |judged| && WithUntils(judged)[places[k] + 1].kind.Settle?
  {
    assert Followed(ops, judged, places, k) && DrawnAt(ops[k], judged, places[k]);
  }

  lemma PlacedIsCheckpointed(ops: seq<Op>, judged: seq<Op>, places: seq<int>)
    requires Placed(ops, judged, places) && |places| == |ops| && (judged == [] || EndsSettled(judged))
    ensures IsCheckpointed(ops, WithUntils(judged), places)
  {
    SpreadWithUntils(ops, judged, places);
    forall k | 0 <= k < |ops| ensures Returns(WithUntils(judged), places[k], ops[k].until) {
      PlacedReturns(ops, judged, places, k);
    }
    forall k | 0 <= k < |ops| && ops[k].kind.Restart?
      ensures places[k] + 1 < |judged| && WithUntils(judged)[places[k] + 1].kind.Settle?
    {
      PlacedFollowed(ops, judged, places, k);
    }
  }

  /** Checkpointing keeps the drawn ops in order and adds settles exactly where they
      are needed. */
  lemma CheckpointedMeans(ops: seq<Op>) returns (places: seq<int>)
    ensures IsCheckpointed(ops, Checkpointed(ops), places)
  {
    places := JudgedIsPlaced(ops, |ops|);
    JudgedEndsSettled(ops);
    PlacedIsCheckpointed(ops, Judged(ops, |ops|), places);
  }

  /** Emits the ops under a flag that says whether the last one settled. */
  method Checkpoint(ops: seq<Op>) returns (judged: seq<Op>)
    ensures judged == Checkpointed(ops)
    ensures exists places :: IsCheckpointed(ops, judged, places)
  {
    judged := [];
    var settled := false;
    for i := 0 to |ops|
      invariant judged == Judged(ops, i) && settled == EndsSettled(judged)
    {
      judged, settled := CheckpointOne(ops, i, judged, settled);
    }
    judged := BringBack(judged);
    ghost var places := CheckpointedMeans(ops);
  }

  /** The loop's body: one drawn op, with the waits around it. */
  method CheckpointOne(ops: seq<Op>, i: nat, before: seq<Op>, wasSettled: bool) returns (judged: seq<Op>, settled: bool)
    requires i < |ops| && before == Judged(ops, i) && wasSettled == EndsSettled(before)
    ensures judged == Judged(ops, i + 1) && settled == EndsSettled(judged)
  {
    var op := ops[i];
    judged, settled := before, wasSettled;
    if (op.kind.Restart? || op.kind.DeleteManaged?) && !settled {
      judged, settled := Emit(judged, SETTLE), true;
    }
    assert judged == Before(before, op);
    judged, settled := Emit(judged, op), op.Settles();
    if op.kind.Restart? && !(i + 1 < |ops| && ops[i + 1].kind.Settle?) {
      judged, settled := Emit(judged, SETTLE), true;
    } else if i == |ops| - 1 && !settled {
      judged, settled := Emit(judged, SETTLE), true;
    }
  }

  // ----- the fault inserted among them

  const FAULT_VERBS := ["", "get", "create", "update", "patch", "delete"]
  const FAULT_ERRORS := [500, 503, 429]

  /** A quarter, a half and the whole of the stable window. */
  const DELAY_QUARTERS := [1, 2, 4]

  function StableOf(t: Target): Duration { if t.stable == 0 then DEFAULT_STABLE else t.stable }

  /** So many quarters of the stable window, to the nearest millisecond, halves up. */
  function DelayOf(stable: Duration, quarters: nat): Duration {
    (2 * stable * quarters + 4 * MILLISECOND) / (8 * MILLISECOND) * MILLISECOND
  }

  predicate DrawsAction(t: Target, action: Action) {
    || (action.error in FAULT_ERRORS && action == Action(action.error, 0, false))
    || exists quarters :: quarters in DELAY_QUARTERS && action == Action(0, DelayOf(StableOf(t), quarters), false)
  }

  ghost predicate DrawsFault(t: Target, f: Fault) {
    && f.matching.verb in FAULT_VERBS
    && f.matching.resource in t.faultables
    && f.matching.name == Glob("", true)
    && (f.matching.fraction == None || f.matching.fraction == Some(0.5))
    && DrawsAction(t, f.action)
    && f.until == NO_TRIGGER
  }

  /** A fault may start where the op before settles and the op is not one that a
      fault would leave unjudged. */
  predicate MayStart(ops: seq<Op>, s: nat) {
    && 1 <= s < |ops| && ops[s - 1].Settles()
    && !ops[s].kind.Settle? && !ops[s].kind.Restart? && !ops[s].kind.DeleteManaged?
  }

  method EligibleStarts(ops: seq<Op>) returns (starts: seq<nat>)
    ensures forall s: nat :: s in starts <==>
              && 1 <= s < |ops| && ops[s - 1].Settles()
              && ops[s].kind != Settle && ops[s].kind != Restart && ops[s].kind != DeleteManaged
  {
    starts := [];
    var s := 1;
    while s < |ops|
      invariant 1 <= s && (s <= |ops| || starts == [])
      invariant forall r: nat :: r in starts <==> r < s && MayStart(ops, r)
    {
      if MayStart(ops, s) {
        starts := starts + [s];
      }
      s := s + 1;
    }
  }

  /** Where op k of the ops stands once a fault has gone in at s and a settle after
      end. */
  function NewPlace(k: nat, s: nat, end: nat): nat {
    if k < s then k else if k <= end then k + 1 else k + 2
  }

  /** What stands at place i once a fault has gone in at s and a settle after end. */
  function At(ops: seq<Op>, s: nat, end: nat, injected: Op, i: nat): Op
    requires s <= end < |ops| && i < |ops| + 2
  {
    if i < s then ops[i]
    else if i == s then injected
    else if i <= end + 1 then ops[i - 1]
    else if i == end + 2 then SETTLE
    else ops[i - 2]
  }

  /** The ops with the fault at s, and a settle after the first op from s on that
      settles, where the fault ends. */
  function Inserted(ops: seq<Op>, s: nat, f: Fault): (out: seq<Op>)
    requires s < |ops| && FirstSettling(ops, s) < |ops|
    ensures |out| == |ops| + 2
  {
    var end := FirstSettling(ops, s);
    var injected := Blank(Inject).(fault := Some(f.(until := NO_TRIGGER.(op := Some(end + 2)))));
    seq(|ops| + 2, i requires 0 <= i < |ops| + 2 => At(ops, s, end, injected, i).(index := i))
  }

  function Faulted(ops: seq<Op>, s: nat, f: Fault): seq<Op>
    requires s < |ops| && FirstSettling(ops, s) < |ops|
  {
    WithUntils(Inserted(ops, s, f))
  }

  /** Where op i of the ops stands once a fault has gone in at s and a settle after
      `end`, and what it then says. */
  ghost predicate StandsAt(ops: seq<Op>, s: int, end: int, out: seq<Op>, i: int)
    requires 0 <= i < |ops| && |out| == |ops| + 2 && 0 <= s <= end < |ops|
  {
    var p := if i < s then i else if i <= end then i + 1 else i + 2;
    out[p] == ops[i].(index := p, until := out[p].until) && Returns(out, p, ops[i].until)
  }

  /** The fault stands at s and ends at a settle put in right after the first op from s
      on that settles; every other op is where it was among the others. */
  ghost predicate IsInserted(ops: seq<Op>, s: int, f: Fault, out: seq<Op>, end: int) {
    && 0 <= s <= end < |ops| && ops[end].Settles() && (forall k :: s <= k < end ==> !ops[k].Settles())
    && |out| == |ops| + 2
    && out[s] == Op(s, Inject, "", "", None, "", None, None, Some(f.(until := Trigger(Some(end + 2), 0, 0))), None, false)
    && out[end + 2] == AddedSettle(end + 2)
    && forall i :: 0 <= i < |ops| ==> StandsAt(ops, s, end, out, i)
  }

  lemma InsertedMeans(ops: seq<Op>, s: nat, f: Fault)
    requires s < |ops| && FirstSettling(ops, s) < |ops|
    ensures IsInserted(ops, s, f, Faulted(ops, s, f), FirstSettling(ops, s))
  {
    var end := FirstSettling(ops, s);
    var inserted := Inserted(ops, s, f);
    forall i | 0 <= i < |ops| ensures StandsAt(ops, s, end, Faulted(ops, s, f), i) {
      var p := NewPlace(i, s, end);
      assert inserted[p] == ops[i].(index := p);
      UntilsReturn(inserted, p);
    }
    assert inserted[s].kind.Inject? && inserted[end + 2] == AddedSettle(end + 2);
  }

  /** Builds the new ops from slices, renumbers them and sets what ends the fault. */
  method InsertFault(ops: seq<Op>, s: nat, f: Fault) returns (out: seq<Op>)
    requires s < |ops|
    ensures FirstSettling(ops, s) < |ops| ==> out == Faulted(ops, s, f)
    ensures FirstSettling(ops, s) == |ops| ==> out == ops
    ensures if exists k :: s <= k < |ops| && ops[k].Settles() then exists end :: IsInserted(ops, s, f, out, end) else out == ops
  {
    var end := s;
    while end < |ops| && !ops[end].Settles()
      invariant s <= end <= |ops| && FirstSettling(ops, s) == FirstSettling(ops, end)
    {
      end := end + 1;
    }
    if end >= |ops| {
      return ops;
    }
    out := Splice(ops, s, end, Blank(Inject).(fault := Some(f)));
    out := Renumber(out);
    var settleIndex := s + 1 + (end - s + 1);
    out := out[s := out[s].(fault := Some(f.(until := NO_TRIGGER.(op := Some(settleIndex)))))];
    assert out == Inserted(ops, s, f);
    out := BringBack(out);
    InsertedMeans(ops, s, f);
  }

  method Splice(ops: seq<Op>, s: nat, end: nat, injected: Op) returns (out: seq<Op>)
    requires s <= end < |ops|
    ensures |out| == |ops| + 2 && forall i :: 0 <= i < |out| ==> out[i] == At(ops, s, end, injected, i)
  {
    out := ops[..s] + [injected];
    out := out + ops[s..end + 1];
    out := out + [SETTLE];
    if end + 1 < |ops| {
      out := out + ops[end + 1..];
    }
  }

  method Renumber(ops: seq<Op>) returns (out: seq<Op>)
    ensures |out| == |ops| && forall k :: 0 <= k < |out| ==> out[k] == ops[k].(index := k)
  {
    out := ops;
    for i := 0 to |out|
      invariant |out| == |ops|
      invariant forall k :: 0 <= k < i ==> out[k] == ops[k].(index := k)
      invariant forall k :: i <= k < |out| ==> out[k] == ops[k]
    {
      out := out[i := out[i].(index := i)];
    }
  }

  /** Every sequence the generator can draw. */
  ghost predicate Generates(t: Target, sequence: seq<Op>) {
    exists draws :: Drawable(t, draws) && GeneratesFrom(t, draws, sequence)
  }

  ghost predicate GeneratesFrom(t: Target, draws: seq<Draw>, sequence: seq<Op>)
    requires Drawable(t, draws)
  {
    var judged := Checkpointed(OpsOf(t, draws));
    || sequence == judged
    || exists s: nat, f :: MayStart(judged, s) && FirstSettling(judged, s) < |judged| &&
                           DrawsFault(t, f) && sequence == Faulted(judged, s, f)
  }
}
