/** Everything the generator can draw is a well-formed sequence whose ops act on CRs
    that are there, whose restarts and deletes of managed objects are judged, and
    whose length is bounded; and exactly which targets this holds of.
 */
module GeneratorSoundness {
  import opened Instants
  import opened Options
  import opened Sequences
  import opened Names
  import opened Generator

  // ----- shapes that become well formed once fixtures come back

  /** A well-formed op, whatever op its fixture comes back at. */
  ghost predicate Shaped(op: Op, position: int) {
    && (!op.kind.DeleteFixture? ==> op.until.None?)
    && op.(until := if op.kind.DeleteFixture? then Some(0) else None).Valid(position)
  }

  ghost predicate ShapedAt(op: Op, position: nat) { Shaped(op.(index := position), position) }

  ghost predicate ShapedAnywhere(op: Op) { forall position: nat :: ShapedAt(op, position) }

  ghost predicate AllShaped(ops: seq<Op>) {
    forall k :: 0 <= k < |ops| ==> Shaped(ops[k], k)
  }

  /** A restart stands between ops that settle; the last op may be one whose settle
      is yet to come, if open. A deleteManaged follows an op that settles. */
  ghost predicate BracketedAt(ops: seq<Op>, k: int, open: bool)
    requires 0 <= k < |ops|
  {
    && (NeedsSettled(ops[k]) ==> 0 < k && ops[k - 1].Settles())
    && (ops[k].kind.Restart? ==> if k + 1 < |ops| then ops[k + 1].Settles() else open)
  }

  ghost predicate Bracketed(ops: seq<Op>, open: bool) {
    forall k :: 0 <= k < |ops| ==> BracketedAt(ops, k, open)
  }

  /** Between two deletes of one fixture stands an op that settles. */
  ghost predicate SettlesBetween(ops: seq<Op>, i: int, j: int)
    requires 0 <= i < j < |ops|
  {
    ops[i].kind.DeleteFixture? && ops[j].kind.DeleteFixture? && ops[i].Fixture() == ops[j].Fixture() ==>
      FirstSettling(ops, i + 1) <= j
  }

  ghost predicate NoRedelete(ops: seq<Op>) {
    forall i, j :: 0 <= i < j < |ops| ==> SettlesBetween(ops, i, j)
  }

  ghost predicate Judgeable(ops: seq<Op>) {
    EndsSettled(ops) && AllShaped(ops) && Bracketed(ops, false) && NoRedelete(ops)
  }

  lemma ShapedIsValid(op: Op, position: int, back: int)
    requires Shaped(op, position)
    ensures op.(until := if op.kind.DeleteFixture? then Some(back) else op.until).Valid(position)
  {
  }

  lemma UntilIsValid(ops: seq<Op>, i: nat)
    requires EndsSettled(ops) && i < |ops| && Shaped(ops[i], i)
    ensures BackBySettling(ops, i).Valid(i)
  {
    ShapedIsValid(ops[i], i, FirstSettling(ops, i + 1));
  }

  lemma UntilsAreValid(ops: seq<Op>)
    requires Judgeable(ops)
    ensures ValidOps(WithUntils(ops))
  {
    forall i | 0 <= i < |ops| ensures BackBySettling(ops, i).Valid(i) {
      UntilIsValid(ops, i);
    }
  }

  lemma UntilsKeepOff(ops: seq<Op>, i: nat, j: nat)
    requires Judgeable(ops) && ValidOps(WithUntils(ops)) && i < j < |ops|
    ensures KeepsOff(WithUntils(ops), i, j)
  {
    assert Shaped(ops[i], i) && Shaped(ops[j], j) && SettlesBetween(ops, i, j);
  }

  /** Once each deleted fixture comes back before the next op that settles, the
      sequence is well formed. */
  lemma UntilsMakeValid(ops: seq<Op>)
    requires Judgeable(ops)
    ensures Valid(WithUntils(ops))
  {
    var r := WithUntils(ops);
    UntilsAreValid(ops);
    forall i | 0 <= i < |r|
      ensures ComesBack(r, i)
    {
      assert Shaped(ops[i], i);
    }
    forall i, j | 0 <= i < j < |r|
      ensures KeepsOff(r, i, j)
    {
      UntilsKeepOff(ops, i, j);
    }
  }

  // ----- inserting the settle waits

  lemma {:induction false} FirstSettlingAppend(ops: seq<Op>, x: Op, from: nat)
    requires from <= |ops|
    ensures FirstSettling(ops + [x], from) ==
            if FirstSettling(ops, from) < |ops| then FirstSettling(ops, from)
            else if x.Settles() then |ops| else |ops| + 1
    decreases |ops| - from
  {
    if from < |ops| && !ops[from].Settles() {
      FirstSettlingAppend(ops, x, from + 1);
    }
  }

  /** The fixtures deleted with no op that settles after are among these. */
  ghost predicate OnlyGone(ops: seq<Op>, gone: seq<string>) {
    forall i :: 0 <= i < |ops| && ops[i].kind.DeleteFixture? && FirstSettling(ops, i + 1) == |ops| ==>
      ops[i].Fixture() in gone
  }

  /** No fault has gone in yet. */
  ghost predicate Unfaulted(ops: seq<Op>) {
    forall k :: 0 <= k < |ops| ==> !ops[k].kind.Inject?
  }

  ghost predicate Partial(ops: seq<Op>, open: bool, gone: seq<string>) {
    AllShaped(ops) && Bracketed(ops, open) && NoRedelete(ops) && OnlyGone(ops, gone) && Unfaulted(ops)
  }

  lemma EmitKeepsNoRedelete(ops: seq<Op>, gone: seq<string>, op: Op)
    requires NoRedelete(ops) && OnlyGone(ops, gone)
    requires op.kind.DeleteFixture? ==> op.Fixture() !in gone
    ensures NoRedelete(Emit(ops, op))
  {
    var out := Emit(ops, op);
    forall i, j | 0 <= i < j < |out|
      ensures SettlesBetween(out, i, j)
    {
      FirstSettlingAppend(ops, op.(index := |ops|), i + 1);
      if j < |ops| { assert SettlesBetween(ops, i, j); }
    }
  }

  lemma EmitKeepsPartial(ops: seq<Op>, open: bool, gone: seq<string>, op: Op, after: seq<string>)
    requires Partial(ops, open, gone)
    requires open ==> op.Settles()
    requires Shaped(op.(index := |ops|), |ops|)
    requires NeedsSettled(op) ==> EndsSettled(ops)
    requires op.kind.DeleteFixture? ==> op.Fixture() !in gone && op.Fixture() in after
    requires op.Settles() || forall f :: f in gone ==> f in after
    requires !op.kind.Inject?
    ensures Partial(Emit(ops, op), op.kind.Restart?, after)
  {
    var out := Emit(ops, op);
    forall k | 0 <= k < |out|
      ensures BracketedAt(out, k, op.kind.Restart?)
    {
      if k < |ops| { assert BracketedAt(ops, k, open); }
    }
    EmitKeepsNoRedelete(ops, gone, op);
    forall i | 0 <= i < |out| && out[i].kind.DeleteFixture? && FirstSettling(out, i + 1) == |out|
      ensures out[i].Fixture() in after
    {
      if i < |ops| { FirstSettlingAppend(ops, op.(index := |ops|), i + 1); }
    }
  }

  lemma SettleKeepsPartial(ops: seq<Op>, open: bool, gone: seq<string>, after: seq<string>)
    requires Partial(ops, open, gone)
    ensures Partial(Emit(ops, SETTLE), false, after)
  {
    EmitKeepsPartial(ops, open, gone, SETTLE, after);
  }

  lemma MadeIsShaped(t: Target, at: State, d: Draw, position: nat)
    requires Loaded(t) && Legal(t, at, d)
    ensures Shaped(Make(t, at, d).(index := position), position)
  {
    match d
    case DrawUpdate(n, patch, noSettle) =>
      if n > 0 { assert |Name(t.sample, n)| > 0; }
    case DrawDelete(n, noSettle) =>
      if n > 0 { assert |Name(t.sample, n)| > 0; }
    case _ =>
  }

  /** The op leaves these fixtures gone of those that were. */
  ghost predicate Follows(op: Op, gone: seq<string>, after: seq<string>) {
    && !op.kind.Inject?
    && (op.kind.DeleteFixture? ==> op.Fixture() !in gone && op.Fixture() in after)
    && (op.Settles() || forall f :: f in gone ==> f in after)
  }

  lemma MadeFollows(t: Target, at: State, d: Draw)
    requires Loaded(t) && Legal(t, at, d)
    ensures Follows(Make(t, at, d), at.gone, Advance(t, at, d).gone)
    ensures ShapedAnywhere(Make(t, at, d))
  {
    forall position: nat
      ensures ShapedAt(Make(t, at, d), position)
    {
      MadeIsShaped(t, at, d, position);
    }
  }

  lemma {:induction false} AfterEarlier(t: Target, draws: seq<Draw>, n: nat, m: nat)
    requires n <= m <= |draws| && After(t, draws, m).Some?
    ensures After(t, draws, n).Some?
    decreases m
  {
    if n < m { AfterEarlier(t, draws, n, m - 1); }
  }

  /** Each draw is legal where it stands, and moves the state on. */
  lemma DrawAt(t: Target, draws: seq<Draw>, i: nat)
    requires i < |draws| && After(t, draws, |draws|).Some?
    ensures After(t, draws, i).Some? && Legal(t, After(t, draws, i).value, draws[i])
    ensures After(t, draws, i + 1) == Some(Advance(t, After(t, draws, i).value, draws[i]))
    ensures OpsOf(t, draws)[i] == Make(t, After(t, draws, i).value, draws[i])
  {
    AfterEarlier(t, draws, i + 1, |draws|);
  }

  predicate NextSettles(ops: seq<Op>, n: nat) { n < |ops| && ops[n].kind.Settle? }

  /** One more drawn op, with the waits around it. */
  lemma JudgedStep(ops: seq<Op>, n: nat, gone: seq<string>, after: seq<string>)
    requires 0 < n <= |ops| && Partial(Judged(ops, n - 1), NextSettles(ops, n - 1), gone)
    requires ShapedAnywhere(ops[n - 1])
    requires Follows(ops[n - 1], gone, after)
    ensures Partial(Judged(ops, n), NextSettles(ops, n), after)
    ensures n == |ops| ==> EndsSettled(Judged(ops, n))
  {
    var op, judged := ops[n - 1], Judged(ops, n - 1);
    var before := Before(judged, op);
    if before != judged {
      SettleKeepsPartial(judged, NextSettles(ops, n - 1), gone, gone);
      PartialWider(before, false, op.kind.Settle?, gone);
    }
    assert ShapedAt(op, |before|);
    EmitKeepsPartial(before, op.kind.Settle?, gone, op, after);
    var emitted := Emit(before, op);
    if Judged(ops, n) == emitted {
      PartialWider(emitted, op.kind.Restart?, NextSettles(ops, n), after);
    } else {
      SettleKeepsPartial(emitted, op.kind.Restart?, after, after);
      PartialWider(Judged(ops, n), false, NextSettles(ops, n), after);
    }
  }

  /** Any ops that leave these fixtures gone, one after another, and are well formed
      wherever they stand, are partly judged at every point once the waits are in. */
  lemma {:induction false} JudgedIsPartial(ops: seq<Op>, gone: seq<seq<string>>, n: nat)
    requires n <= |ops| && AllFollow(ops, gone)
    ensures Partial(Judged(ops, n), NextSettles(ops, n), gone[n])
    ensures 0 < n == |ops| ==> EndsSettled(Judged(ops, n))
  {
    if n > 0 {
      JudgedIsPartial(ops, gone, n - 1);
      JudgedStep(ops, n, gone[n - 1], gone[n]);
    }
  }

  /** The fixtures gone after the first n draws. */
  ghost function GoneAt(t: Target, draws: seq<Draw>, n: nat): seq<string>
    requires n <= |draws|
  {
    var at := After(t, draws, n);
    if at.Some? then at.value.gone else []
  }

  lemma DrawnFollows(t: Target, draws: seq<Draw>, i: nat)
    requires Loaded(t) && i < |draws| && After(t, draws, |draws|).Some?
    ensures ShapedAnywhere(OpsOf(t, draws)[i])
    ensures Follows(OpsOf(t, draws)[i], GoneAt(t, draws, i), GoneAt(t, draws, i + 1))
  {
    DrawAt(t, draws, i);
    MadeFollows(t, After(t, draws, i).value, draws[i]);
  }

  ghost predicate AllFollow(ops: seq<Op>, gone: seq<seq<string>>) {
    && |gone| == |ops| + 1
    && (forall i :: 0 <= i < |ops| ==> ShapedAnywhere(ops[i]))
    && (forall i :: 0 <= i < |ops| ==> Follows(ops[i], gone[i], gone[i + 1]))
  }

  lemma DrawnAllShaped(t: Target, draws: seq<Draw>)
    requires Loaded(t) && After(t, draws, |draws|).Some?
    ensures var ops := OpsOf(t, draws); forall i :: 0 <= i < |ops| ==> ShapedAnywhere(ops[i])
  {
    var ops := OpsOf(t, draws);
    forall i | 0 <= i < |ops| ensures ShapedAnywhere(ops[i]) {
      DrawnFollows(t, draws, i);
    }
  }

  lemma DrawnAllFollow(t: Target, draws: seq<Draw>) returns (gone: seq<seq<string>>)
    requires Loaded(t) && After(t, draws, |draws|).Some?
    ensures AllFollow(OpsOf(t, draws), gone)
  {
    gone := seq(|draws| + 1, n requires 0 <= n <= |draws| => GoneAt(t, draws, n));
    var ops := OpsOf(t, draws);
    DrawnAllShaped(t, draws);
    forall i | 0 <= i < |ops| ensures Follows(ops[i], gone[i], gone[i + 1]) {
      DrawnFollows(t, draws, i);
    }
  }

  lemma PartialWider(ops: seq<Op>, open: bool, wider: bool, gone: seq<string>)
    requires Partial(ops, open, gone) && (open ==> wider)
    ensures Partial(ops, wider, gone)
  {
    forall k | 0 <= k < |ops|
      ensures BracketedAt(ops, k, wider)
    {
      assert BracketedAt(ops, k, open);
    }
  }

  lemma EndsSettledCloses(ops: seq<Op>, open: bool, gone: seq<string>)
    requires Partial(ops, open, gone) && EndsSettled(ops)
    ensures Judgeable(ops)
  {
    forall k | 0 <= k < |ops|
      ensures BracketedAt(ops, k, false)
    {
      assert BracketedAt(ops, k, open);
    }
  }

  lemma UntilsKeepSettling(ops: seq<Op>, from: nat)
    requires from <= |ops|
    ensures FirstSettling(WithUntils(ops), from) == FirstSettling(ops, from)
    decreases |ops| - from
  {
    if from < |ops| && !ops[from].Settles() {
      UntilsKeepSettling(ops, from + 1);
    }
  }

  /** Bringing fixtures back changes nothing else. */
  lemma UntilsKeepJudgeable(ops: seq<Op>)
    requires Judgeable(ops)
    ensures Judgeable(WithUntils(ops))
  {
    var r := WithUntils(ops);
    forall k | 0 <= k < |r|
      ensures Shaped(r[k], k) && BracketedAt(r, k, false)
    {
      assert Shaped(ops[k], k) && BracketedAt(ops, k, false);
    }
    forall i, j | 0 <= i < j < |r|
      ensures SettlesBetween(r, i, j)
    {
      assert SettlesBetween(ops, i, j);
      UntilsKeepSettling(ops, i + 1);
    }
  }

  lemma PartialIsJudgeable(judged: seq<Op>, open: bool, gone: seq<string>)
    requires Partial(judged, open, gone) && EndsSettled(judged)
    ensures Judgeable(judged) && Judgeable(WithUntils(judged)) && Unfaulted(WithUntils(judged))
  {
    EndsSettledCloses(judged, open, gone);
    UntilsKeepJudgeable(judged);
  }

  lemma FollowingIsJudgeable(ops: seq<Op>, gone: seq<seq<string>>)
    requires ops != [] && AllFollow(ops, gone)
    ensures Judgeable(Judged(ops, |ops|)) && Judgeable(Checkpointed(ops)) && Unfaulted(Checkpointed(ops))
  {
    JudgedIsPartial(ops, gone, |ops|);
    PartialIsJudgeable(Judged(ops, |ops|), NextSettles(ops, |ops|), gone[|ops|]);
  }

  lemma CheckpointedIsJudgeable(t: Target, draws: seq<Draw>)
    requires Loaded(t) && Drawable(t, draws)
    ensures Judgeable(Judged(OpsOf(t, draws), |draws|))
    ensures Judgeable(Checkpointed(OpsOf(t, draws)))
    ensures Unfaulted(Checkpointed(OpsOf(t, draws)))
  {
    var gone := DrawnAllFollow(t, draws);
    FollowingIsJudgeable(OpsOf(t, draws), gone);
  }

  // ----- inserting the fault

  /** The stable window is long enough that no drawn delay rounds to nothing. */
  predicate DelaysCount(t: Target) { StableOf(t) >= 2 * MILLISECOND }

  predicate HasAction(f: Fault) { f.action.error != 0 || f.action.delay != 0 || f.action.drop }

  lemma DelayCounts(stable: Duration, quarters: nat)
    requires stable >= 0 && quarters in DELAY_QUARTERS
    ensures DelayOf(stable, quarters) >= 0
    ensures stable >= 2 * MILLISECOND ==> DelayOf(stable, quarters) > 0
    ensures stable < 2 * MILLISECOND && quarters == 1 ==> DelayOf(stable, quarters) == 0
  {
    var sum := 2 * stable * quarters + 4 * MILLISECOND;
    if stable >= 2 * MILLISECOND {
      assert sum >= 8 * MILLISECOND;
    }
  }

  lemma DrawnFaultIsValid(t: Target, f: Fault, position: int, end: int)
    requires Loaded(t) && HasAction(f) && DrawsFault(t, f) && end > position
    ensures ValidFault(f.(until := NO_TRIGGER.(op := Some(end))), position)
  {
    if f.action.error == 0 {
      var quarters :| quarters in DELAY_QUARTERS && f.action == Action(0, DelayOf(StableOf(t), quarters), false);
      DelayCounts(StableOf(t), quarters);
    }
  }

  /** An op of the original and where it stands in the result. */
  lemma PlaceOf(ops: seq<Op>, s: nat, f: Fault, k: nat)
    requires s < |ops| && FirstSettling(ops, s) < |ops| && k < |ops|
    ensures
      var place := NewPlace(k, s, FirstSettling(ops, s));
      place < |ops| + 2 && Inserted(ops, s, f)[place] == ops[k].(index := place)
  {
  }

  /** Every op of the result but the fault and the settle that ends it is one of the
      original. */
  lemma PlacedFrom(ops: seq<Op>, s: nat, f: Fault, i: nat) returns (k: nat)
    requires s < |ops| && FirstSettling(ops, s) < |ops| && i < |ops| + 2
    requires i != s && i != FirstSettling(ops, s) + 2
    ensures k < |ops| && NewPlace(k, s, FirstSettling(ops, s)) == i
    ensures Inserted(ops, s, f)[i] == ops[k].(index := i)
  {
    k := if i < s then i else if i <= FirstSettling(ops, s) + 1 then i - 1 else i - 2;
  }

  lemma {:induction false} FirstSettlingBy(ops: seq<Op>, from: nat, m: nat)
    requires from <= m < |ops| && ops[m].Settles()
    ensures FirstSettling(ops, from) <= m
  {
  }

  lemma ShapedMoves(op: Op, position: nat, moved: nat)
    requires Shaped(op, position) && !op.kind.Inject?
    ensures Shaped(op.(index := moved), moved)
  {
  }

  lemma FaultIsShaped(f: Fault, position: nat)
    requires ValidFault(f, position)
    ensures Shaped(Blank(Inject).(fault := Some(f), index := position), position)
  {
  }

  lemma InsertedShapedAt(t: Target, ops: seq<Op>, s: nat, f: Fault, i: nat)
    requires Loaded(t) && HasAction(f) && DrawsFault(t, f)
    requires Judgeable(ops) && Unfaulted(ops) && MayStart(ops, s) && i < |ops| + 2
    requires FirstSettling(ops, s) < |ops|
    ensures Shaped(Inserted(ops, s, f)[i], i)
  {
    var end := FirstSettling(ops, s);
    InsertedEnds(ops, s, f);
    if i == s {
      DrawnFaultIsValid(t, f, s, end + 2);
      FaultIsShaped(f.(until := NO_TRIGGER.(op := Some(end + 2))), s);
    } else if i != end + 2 {
      var k := PlacedFrom(ops, s, f, i);
      ShapedMoves(ops[k], k, i);
    }
  }

  /** What settles before op k still does, or the settle that ends the fault does. */
  lemma InsertedFollows(ops: seq<Op>, s: nat, f: Fault, k: nat)
    requires MayStart(ops, s) && FirstSettling(ops, s) < |ops|
    requires 0 < k < |ops| && k != s && ops[k - 1].Settles()
    ensures
      var i := NewPlace(k, s, FirstSettling(ops, s));
      0 < i < |ops| + 2 && Inserted(ops, s, f)[i - 1].Settles()
  {
    PlaceOf(ops, s, f, k - 1);
  }

  /** What settles after a restart still does: no fault goes in there. */
  lemma InsertedPrecedes(ops: seq<Op>, s: nat, f: Fault, k: nat)
    requires MayStart(ops, s) && FirstSettling(ops, s) < |ops|
    requires k + 1 < |ops| && !ops[k].Settles() && ops[k + 1].Settles()
    ensures
      var i := NewPlace(k, s, FirstSettling(ops, s));
      i + 1 < |ops| + 2 && Inserted(ops, s, f)[i + 1].Settles()
  {
    PlaceOf(ops, s, f, k + 1);
  }

  lemma PlacedBracketed(ops: seq<Op>, s: nat, f: Fault, k: nat)
    requires MayStart(ops, s) && FirstSettling(ops, s) < |ops| && k < |ops| && BracketedAt(ops, k, false)
    ensures
      var i := NewPlace(k, s, FirstSettling(ops, s));
      i < |ops| + 2 && BracketedAt(Inserted(ops, s, f), i, false)
  {
    PlaceOf(ops, s, f, k);
    if NeedsSettled(ops[k]) { InsertedFollows(ops, s, f, k); }
    if ops[k].kind.Restart? { InsertedPrecedes(ops, s, f, k); }
  }

  lemma InsertedBracketedAt(ops: seq<Op>, s: nat, f: Fault, i: nat)
    requires Bracketed(ops, false) && MayStart(ops, s) && i < |ops| + 2 && FirstSettling(ops, s) < |ops|
    ensures BracketedAt(Inserted(ops, s, f), i, false)
  {
    if i != s && i != FirstSettling(ops, s) + 2 {
      var k := PlacedFrom(ops, s, f, i);
      PlacedBracketed(ops, s, f, k);
    }
  }

  lemma PlacedSettling(ops: seq<Op>, s: nat, f: Fault, k: nat, l: nat)
    requires s < |ops| && FirstSettling(ops, s) < |ops| && k < l < |ops| && FirstSettling(ops, k + 1) <= l
    ensures
      var end := FirstSettling(ops, s);
      && NewPlace(k, s, end) + 1 <= |ops| + 2
      && FirstSettling(Inserted(ops, s, f), NewPlace(k, s, end) + 1) <= NewPlace(l, s, end)
  {
    var end, m := FirstSettling(ops, s), FirstSettling(ops, k + 1);
    PlaceOf(ops, s, f, m);
    FirstSettlingBy(Inserted(ops, s, f), NewPlace(k, s, end) + 1, NewPlace(m, s, end));
  }

  lemma InsertedSettlesBetween(ops: seq<Op>, s: nat, f: Fault, i: nat, j: nat)
    requires NoRedelete(ops) && MayStart(ops, s) && i < j < |ops| + 2 && FirstSettling(ops, s) < |ops|
    ensures SettlesBetween(Inserted(ops, s, f), i, j)
  {
    var out := Inserted(ops, s, f);
    if out[i].kind.DeleteFixture? && out[j].kind.DeleteFixture? && out[i].Fixture() == out[j].Fixture() {
      var k := PlacedFrom(ops, s, f, i);
      var l := PlacedFrom(ops, s, f, j);
      assert SettlesBetween(ops, k, l);
      PlacedSettling(ops, s, f, k, l);
    }
  }

  lemma InsertedNoRedelete(ops: seq<Op>, s: nat, f: Fault)
    requires Judgeable(ops) && MayStart(ops, s) && FirstSettling(ops, s) < |ops|
    ensures NoRedelete(Inserted(ops, s, f))
  {
    var out := Inserted(ops, s, f);
    forall i, j | 0 <= i < j < |out|
      ensures SettlesBetween(out, i, j)
    {
      InsertedSettlesBetween(ops, s, f, i, j);
    }
  }

  lemma InsertedAllShaped(t: Target, ops: seq<Op>, s: nat, f: Fault)
    requires Loaded(t) && HasAction(f) && DrawsFault(t, f)
    requires Judgeable(ops) && Unfaulted(ops) && MayStart(ops, s) && FirstSettling(ops, s) < |ops|
    ensures AllShaped(Inserted(ops, s, f))
  {
    forall i | 0 <= i < |ops| + 2 ensures Shaped(Inserted(ops, s, f)[i], i) {
      InsertedShapedAt(t, ops, s, f, i);
    }
  }

  lemma InsertedBracketed(ops: seq<Op>, s: nat, f: Fault)
    requires Judgeable(ops) && MayStart(ops, s) && FirstSettling(ops, s) < |ops|
    ensures Bracketed(Inserted(ops, s, f), false)
  {
    forall i | 0 <= i < |ops| + 2 ensures BracketedAt(Inserted(ops, s, f), i, false) {
      InsertedBracketedAt(ops, s, f, i);
    }
  }

  lemma InsertedIsJudgeable(t: Target, ops: seq<Op>, s: nat, f: Fault)
    requires Loaded(t) && HasAction(f) && DrawsFault(t, f)
    requires Judgeable(ops) && Unfaulted(ops) && MayStart(ops, s)
    ensures FirstSettling(ops, s) < |ops| && Judgeable(Inserted(ops, s, f))
  {
    FirstSettlingBy(ops, s, |ops| - 1);
    InsertedAllShaped(t, ops, s, f);
    InsertedBracketed(ops, s, f);
    InsertedNoRedelete(ops, s, f);
    PlaceOf(ops, s, f, |ops| - 1);
  }

  /** Between a fault's start and the settle that ends it, no op needed one before. */
  lemma SpanNeedsNoSettle(ops: seq<Op>, s: nat, k: nat)
    requires Judgeable(ops) && MayStart(ops, s) && s <= k <= FirstSettling(ops, s) && k < |ops|
    ensures !NeedsSettled(ops[k])
  {
    assert BracketedAt(ops, k, false);
  }

  lemma InsertedSpan(ops: seq<Op>, s: nat, f: Fault, i: nat)
    requires s < |ops| && s < i < FirstSettling(ops, s) + 2 && FirstSettling(ops, s) < |ops|
    ensures Inserted(ops, s, f)[i] == ops[i - 1].(index := i)
  {
  }

  lemma UntilsLeave(ops: seq<Op>, k: nat)
    requires k < |ops|
    ensures WithUntils(ops)[k].Settles() == ops[k].Settles() && WithUntils(ops)[k].kind == ops[k].kind
    ensures !ops[k].kind.DeleteFixture? ==> WithUntils(ops)[k] == ops[k]
  {
  }

  lemma InsertedEnds(ops: seq<Op>, s: nat, f: Fault)
    requires s < |ops| && FirstSettling(ops, s) < |ops|
    ensures var out, end := Inserted(ops, s, f), FirstSettling(ops, s) + 2;
            && out[s] == Blank(Inject).(fault := Some(f.(until := NO_TRIGGER.(op := Some(end)))), index := s)
            && out[end] == SETTLE.(index := end)
  {
  }

  lemma InsertedEndSettles(ops: seq<Op>, s: nat, f: Fault)
    requires s < |ops| && FirstSettling(ops, s) < |ops|
    ensures Inserted(ops, s, f)[FirstSettling(ops, s) + 1].Settles()
  {
    InsertedSpan(ops, s, f, FirstSettling(ops, s) + 1);
  }

  lemma UntilsLeaveThree(ops: seq<Op>, i: nat, j: nat, k: nat)
    requires i < |ops| && j < |ops| && k < |ops|
    requires ops[i].kind.Inject? && ops[j].Settles() && ops[k].kind.Settle?
    ensures WithUntils(ops)[i] == ops[i] && WithUntils(ops)[j].Settles() && WithUntils(ops)[k].kind.Settle?
  {
    UntilsLeave(ops, i);
    UntilsLeave(ops, j);
    UntilsLeave(ops, k);
  }

  /** The fault ends at the settle inserted for it, right after an op that settles. */
  lemma FaultEndsAtItsSettle(ops: seq<Op>, s: nat, f: Fault)
    requires MayStart(ops, s) && FirstSettling(ops, s) < |ops|
    ensures
      var out, end := Faulted(ops, s, f), FirstSettling(ops, s) + 2;
      && s < end < |out| && out[end].kind.Settle? && out[end - 1].Settles()
      && out[s].kind.Inject? && out[s].fault == Some(f.(until := NO_TRIGGER.(op := Some(end))))
  {
    InsertedEnds(ops, s, f);
    InsertedEndSettles(ops, s, f);
    UntilsLeaveThree(Inserted(ops, s, f), s, FirstSettling(ops, s) + 1, FirstSettling(ops, s) + 2);
  }

  /** No restart or deleteManaged runs while the fault may stand. */
  lemma NothingUnjudgedUnderAFault(ops: seq<Op>, s: nat, f: Fault, i: nat)
    requires Judgeable(ops) && MayStart(ops, s) && FirstSettling(ops, s) < |ops|
    requires s < i < FirstSettling(ops, s) + 2
    ensures !NeedsSettled(Faulted(ops, s, f)[i])
  {
    SpanNeedsNoSettle(ops, s, i - 1);
    InsertedSpan(ops, s, f, i);
  }

  // ----- the CRs the ops act on

  /** The CRs created so far, and those of them that are live. */
  datatype Roster = Roster(created: set<string>, live: set<string>)

  function Note(r: Option<Roster>, op: Op, sample: string): Option<Roster> {
    if r.None? || !op.OnCR() then r
    else if op.kind.Create? || op.kind.Recreate? then
      if op.obj.None? || op.obj.value.name == "" then None
      else
        var name := op.CRName(sample);
        if op.kind.Create? && name in r.value.created then None
        else if op.kind.Recreate? && (name !in r.value.created || op.obj.value.name != name) then None
        else Some(Roster(r.value.created + {name}, r.value.live + {name}))
    else
      var name := op.CRName(sample);
      if name !in r.value.live || op.obj.Some? then None
      else if op.kind.Delete? then Some(r.value.(live := r.value.live - {name}))
      else r
  }

  function RosterOf(ops: seq<Op>, sample: string): Option<Roster> {
    if ops == [] then Some(Roster({}, {}))
    else Note(RosterOf(ops[..|ops| - 1], sample), ops[|ops| - 1], sample)
  }

  lemma RosterSnoc(ops: seq<Op>, op: Op, sample: string)
    ensures RosterOf(ops + [op], sample) == Note(RosterOf(ops, sample), op, sample)
  {
    assert (ops + [op])[..|ops|] == ops;
  }

  /** The roster says of a CR what its last touch among the first n ops says. */
  ghost predicate Shows(r: Roster, ops: seq<Op>, n: nat, name: string, sample: string)
    requires ValidOps(ops) && n <= |ops|
  {
    var last := LastTouch(ops, n, name, sample);
    && (name in r.created <==> last.Some?)
    && (name in r.live <==> last.Some? && !ops[last.value].kind.Delete?)
  }

  lemma NoteShows(before: Roster, after: Roster, ops: seq<Op>, i: nat, sample: string)
    requires ValidOps(ops) && i < |ops| && Note(Some(before), ops[i], sample) == Some(after)
    requires forall name :: Shows(before, ops, i, name, sample)
    ensures ActsOnCR(ops, i, sample)
    ensures var n := i + 1; forall name :: Shows(after, ops, n, name, sample)
  {
    assert ops[i].Valid(i);
    assert Shows(before, ops, i, ops[i].CRName(sample), sample);
    var n := i + 1;
    forall name ensures Shows(after, ops, n, name, sample) {
      assert Shows(before, ops, i, name, sample);
    }
  }

  /** A sequence that never creates a CR twice, and acts only on CRs it created,
      passes the check. */
  lemma {:induction false} RosterImpliesCRs(ops: seq<Op>, n: nat, sample: string)
    requires ValidOps(ops) && n <= |ops| && RosterOf(ops[..n], sample).Some?
    ensures forall i :: 0 <= i < n ==> ActsOnCR(ops, i, sample)
    ensures var r := RosterOf(ops[..n], sample).value; forall name :: Shows(r, ops, n, name, sample)
  {
    if n > 0 {
      RosterNext(ops, n - 1, sample);
      RosterImpliesCRs(ops, n - 1, sample);
      NoteShows(RosterOf(ops[..n - 1], sample).value, RosterOf(ops[..n], sample).value, ops, n - 1, sample);
    } else {
      assert ops[..0] == [];
    }
  }

  /** The roster holds the CRs under their names, and marks those that are live. */
  ghost predicate Numbers(r: Roster, live: seq<bool>, name: nat -> string) {
    && (forall m: nat :: m < |live| ==> name(m) in r.created && (name(m) in r.live <==> live[m]))
    && (forall created :: created in r.created ==> exists m: nat :: m < |live| && name(m) == created)
    && r.live <= r.created
  }

  ghost predicate Distinct(name: nat -> string) {
    forall m: nat, n: nat :: name(m) == name(n) ==> m == n
  }

  /** A CR written under the n-th name is created and live. */
  lemma WroteNumbers(r: Roster, live: seq<bool>, name: nat -> string, n: nat)
    requires Distinct(name) && Numbers(r, live, name) && n <= |live|
    ensures Numbers(Roster(r.created + {name(n)}, r.live + {name(n)}),
                    if n < |live| then live[n := true] else live + [true], name)
  {
    var after := if n < |live| then live[n := true] else live + [true];
    forall created | created in r.created + {name(n)} ensures exists m: nat :: m < |after| && name(m) == created {
      if created in r.created {
        var m: nat :| m < |live| && name(m) == created;
        assert m < |after|;
      } else {
        assert n < |after|;
      }
    }
  }

  lemma DeletedNumbers(r: Roster, live: seq<bool>, name: nat -> string, n: nat)
    requires Distinct(name) && Numbers(r, live, name) && n < |live|
    ensures Numbers(r.(live := r.live - {name(n)}), live[n := false], name)
  {
    var after := live[n := false];
    forall created | created in r.created ensures exists m: nat :: m < |after| && name(m) == created {
      var m: nat :| m < |live| && name(m) == created;
      assert m < |after|;
    }
  }

  ghost function NamesOf(sample: string): nat -> string {
    (n: nat) => Name(sample, n)
  }

  lemma NamesAreDistinct(sample: string)
    ensures Distinct(NamesOf(sample))
  {
    forall m: nat, n: nat | NamesOf(sample)(m) == NamesOf(sample)(n) ensures m == n {
      NamesDiffer(sample, m, n);
    }
  }

  ghost predicate Tracks(r: Roster, at: State, sample: string) {
    Numbers(r, at.live, NamesOf(sample))
  }

  /** A new CR's name is no other's. */
  lemma NewNameIsNew(sample: string, r: Roster, at: State)
    requires Tracks(r, at, sample)
    ensures Name(sample, |at.live|) !in r.created
  {
    if Name(sample, |at.live|) in r.created {
      var m: nat :| m < |at.live| && NamesOf(sample)(m) == Name(sample, |at.live|);
      NamesDiffer(sample, m, |at.live|);
    }
  }

  /** The roster once the draw's op has run. */
  function Noted(t: Target, at: State, d: Draw, r: Roster): Roster {
    match d
    case DrawCreate(_, _) => Roster(r.created + {Name(t.sample, |at.live|)}, r.live + {Name(t.sample, |at.live|)})
    case DrawRecreate(n, _, _) => Roster(r.created + {Name(t.sample, n)}, r.live + {Name(t.sample, n)})
    case DrawDelete(n, _) => r.(live := r.live - {Name(t.sample, n)})
    case _ => r
  }

  /** A drawn op names the CR it was drawn for, which is there for it. */
  lemma MadeIsNoted(t: Target, at: State, d: Draw, r: Roster)
    requires Loaded(t) && Legal(t, at, d) && Tracks(r, at, t.sample)
    ensures Note(Some(r), Make(t, at, d), t.sample) == Some(Noted(t, at, d, r))
  {
    NewNameIsNew(t.sample, r, at);
    var names := NamesOf(t.sample);
    match d
    case DrawUpdate(n, _, _) => assert names(n) == Name(t.sample, n);
    case DrawDelete(n, _) => assert names(n) == Name(t.sample, n);
    case DrawRecreate(n, _, _) => assert names(n) == Name(t.sample, n);
    case _ =>
  }

  lemma NotedTracks(t: Target, at: State, d: Draw, r: Roster)
    requires Legal(t, at, d) && Tracks(r, at, t.sample)
    ensures Tracks(Noted(t, at, d, r), Advance(t, at, d), t.sample)
  {
    var names := NamesOf(t.sample);
    NamesAreDistinct(t.sample);
    match d
    case DrawCreate(_, _) => WroteNumbers(r, at.live, names, |at.live|);
    case DrawRecreate(n, _, _) => WroteNumbers(r, at.live, names, n);
    case DrawDelete(n, _) => DeletedNumbers(r, at.live, names, n);
    case _ =>
  }

  lemma NoteTracks(t: Target, at: State, d: Draw, r: Roster)
    requires Loaded(t) && Legal(t, at, d) && Tracks(r, at, t.sample)
    ensures Note(Some(r), Make(t, at, d), t.sample).Some?
    ensures Tracks(Note(Some(r), Make(t, at, d), t.sample).value, Advance(t, at, d), t.sample)
  {
    MadeIsNoted(t, at, d, r);
    NotedTracks(t, at, d, r);
  }

  /** The roster of the ops made so far follows the state of the draw. */
  ghost predicate Rostered(ops: seq<Op>, at: State, sample: string) {
    RosterOf(ops, sample).Some? && Tracks(RosterOf(ops, sample).value, at, sample)
  }

  lemma RosterFollows(t: Target, ops: seq<Op>, at: State, d: Draw)
    requires Loaded(t) && Legal(t, at, d) && Rostered(ops, at, t.sample)
    ensures Rostered(ops + [Make(t, at, d)], Advance(t, at, d), t.sample)
  {
    RosterSnoc(ops, Make(t, at, d), t.sample);
    NoteTracks(t, at, d, RosterOf(ops, t.sample).value);
  }

  /** Where each op keeps what the ops before it had, all of them have it. */
  lemma {:induction false} PrefixesKeep(ops: seq<Op>, states: seq<State>, n: nat, kept: (seq<Op>, State) -> bool)
    requires n <= |ops| && |states| == |ops| + 1
    requires kept([], states[0])
    requires forall i :: 0 <= i < |ops| && kept(ops[..i], states[i]) ==> kept(ops[..i + 1], states[i + 1])
    ensures kept(ops[..n], states[n])
  {
    if n > 0 {
      PrefixesKeep(ops, states, n - 1, kept);
    } else {
      assert ops[..0] == [];
    }
  }

  ghost function StateAt(t: Target, draws: seq<Draw>, n: nat): State
    requires n <= |draws|
  {
    var at := After(t, draws, n);
    if at.Some? then at.value else FRESH
  }

  lemma RosterAt(t: Target, draws: seq<Draw>, i: nat)
    requires Loaded(t) && i < |draws| && After(t, draws, |draws|).Some?
    requires Rostered(OpsOf(t, draws)[..i], StateAt(t, draws, i), t.sample)
    ensures Rostered(OpsOf(t, draws)[..i + 1], StateAt(t, draws, i + 1), t.sample)
  {
    DrawAt(t, draws, i);
    RosterFollows(t, OpsOf(t, draws)[..i], StateAt(t, draws, i), draws[i]);
    assert OpsOf(t, draws)[..i + 1] == OpsOf(t, draws)[..i] + [OpsOf(t, draws)[i]];
  }

  lemma DrawnRoster(t: Target, draws: seq<Draw>)
    requires Loaded(t) && After(t, draws, |draws|).Some?
    ensures RosterOf(OpsOf(t, draws), t.sample).Some?
  {
    var ops := OpsOf(t, draws);
    var states := seq(|draws| + 1, n requires 0 <= n <= |draws| => StateAt(t, draws, n));
    forall i | 0 <= i < |ops| && Rostered(ops[..i], states[i], t.sample)
      ensures Rostered(ops[..i + 1], states[i + 1], t.sample)
    {
      RosterAt(t, draws, i);
    }
    PrefixesKeep(ops, states, |ops|, (made, at) => Rostered(made, at, t.sample));
    assert ops[..|ops|] == ops;
  }

  lemma EmitRoster(ops: seq<Op>, op: Op, sample: string)
    ensures RosterOf(Emit(ops, op), sample) == Note(RosterOf(ops, sample), op, sample)
  {
    RosterSnoc(ops, op.(index := |ops|), sample);
  }

  lemma SettleRoster(ops: seq<Op>, sample: string)
    ensures RosterOf(Emit(ops, SETTLE), sample) == RosterOf(ops, sample)
  {
    EmitRoster(ops, SETTLE, sample);
  }

  /** A drawn op comes out after a settle it needs, and before one it leaves owing. */
  lemma JudgedNext(ops: seq<Op>, n: nat)
    requires 0 < n <= |ops|
    ensures var emitted := Emit(Before(Judged(ops, n - 1), ops[n - 1]), ops[n - 1]);
            Judged(ops, n) == emitted || Judged(ops, n) == Emit(emitted, SETTLE)
  {
  }

  /** Whatever settle ops leave as it is, and each op moves on the same way wherever
      it stands, the inserted waits leave as it is. */
  lemma {:induction false} WaitsLeave<X>(ops: seq<Op>, n: nat, of: seq<Op> -> X, note: (X, Op) -> X)
    requires n <= |ops|
    requires forall before, op :: of(Emit(before, op)) == note(of(before), op)
    requires forall before :: of(Emit(before, SETTLE)) == of(before)
    requires forall i {:trigger ops[i]} :: 0 <= i < |ops| ==> of(ops[..i + 1]) == note(of(ops[..i]), ops[i])
    ensures of(Judged(ops, n)) == of(ops[..n])
  {
    if n > 0 {
      WaitsLeave(ops, n - 1, of, note);
      JudgedNext(ops, n);
      var judged := Judged(ops, n - 1);
      assert of(Before(judged, ops[n - 1])) == of(judged);
      var emitted := Emit(Before(judged, ops[n - 1]), ops[n - 1]);
      assert of(emitted) == note(of(judged), ops[n - 1]);
      assert of(Judged(ops, n)) == of(emitted);
    } else {
      assert ops[..0] == [];
    }
  }

  /** Settle waits create no CR. */
  lemma JudgedRoster(ops: seq<Op>, sample: string)
    ensures RosterOf(Judged(ops, |ops|), sample) == RosterOf(ops, sample)
  {
    forall before, op ensures RosterOf(Emit(before, op), sample) == Note(RosterOf(before, sample), op, sample) {
      EmitRoster(before, op, sample);
    }
    forall before ensures RosterOf(Emit(before, SETTLE), sample) == RosterOf(before, sample) {
      SettleRoster(before, sample);
    }
    forall i | 0 <= i < |ops| ensures RosterOf(ops[..i + 1], sample) == Note(RosterOf(ops[..i], sample), ops[i], sample) {
      RosterNext(ops, i, sample);
    }
    WaitsLeave(ops, |ops|, made => RosterOf(made, sample), (r, op) => Note(r, op, sample));
    assert ops[..|ops|] == ops;
  }

  ghost predicate SameCRs(a: Op, b: Op) { a.kind == b.kind && a.cr == b.cr && a.obj == b.obj }

  lemma {:induction false} SameRoster(a: seq<Op>, b: seq<Op>, sample: string)
    requires |a| == |b| && forall i :: 0 <= i < |a| ==> SameCRs(a[i], b[i])
    ensures RosterOf(a, sample) == RosterOf(b, sample)
  {
    if a != [] {
      SameRoster(a[..|a| - 1], b[..|b| - 1], sample);
      assert SameCRs(a[|a| - 1], b[|b| - 1]);
    }
  }

  /** What an op does to the roster does not depend on where it stands. */
  lemma NoteReads(r: Option<Roster>, a: Op, b: Op, sample: string)
    requires SameCRs(a, b)
    ensures Note(r, a, sample) == Note(r, b, sample)
  {
  }

  lemma RosterNext(ops: seq<Op>, n: nat, sample: string)
    requires n < |ops|
    ensures RosterOf(ops[..n + 1], sample) == Note(RosterOf(ops[..n], sample), ops[n], sample)
  {
    assert ops[..n + 1] == ops[..n] + [ops[n]];
    RosterSnoc(ops[..n], ops[n], sample);
  }

  /** Where op i stood before two ops went in, at p and q. */
  function Source(i: int, p: int, q: int): int {
    if i < p then i else if i < q then i - 1 else i - 2
  }

  /** Two ops more, neither on a CR, leave the roster as it was. */
  lemma {:induction false} TwoMoreRoster(out: seq<Op>, ops: seq<Op>, p: nat, q: nat, n: nat, sample: string)
    requires p < q < |out| && |out| == |ops| + 2 && n <= |out|
    requires !out[p].OnCR() && !out[q].OnCR()
    requires forall i :: 0 <= i < |out| && i != p && i != q ==> SameCRs(out[i], ops[Source(i, p, q)])
    ensures RosterOf(out[..n], sample) == RosterOf(ops[..if n <= p then n else if n <= q then n - 1 else n - 2], sample)
  {
    if n > 0 {
      TwoMoreRoster(out, ops, p, q, n - 1, sample);
      RosterNext(out, n - 1, sample);
      if n - 1 != p && n - 1 != q {
        var k := Source(n - 1, p, q);
        RosterNext(ops, k, sample);
        NoteReads(RosterOf(ops[..k], sample), out[n - 1], ops[k], sample);
      }
    }
  }

  lemma InsertedSameCRs(ops: seq<Op>, s: nat, f: Fault, i: nat)
    requires s < |ops| && FirstSettling(ops, s) < |ops| && i < |ops| + 2
    requires i != s && i != FirstSettling(ops, s) + 2
    ensures SameCRs(Inserted(ops, s, f)[i], ops[Source(i, s, FirstSettling(ops, s) + 2)])
  {
    var k := PlacedFrom(ops, s, f, i);
  }

  lemma InsertedRoster(ops: seq<Op>, s: nat, f: Fault, sample: string)
    requires s < |ops| && FirstSettling(ops, s) < |ops|
    ensures RosterOf(Inserted(ops, s, f), sample) == RosterOf(ops, sample)
  {
    var out, end := Inserted(ops, s, f), FirstSettling(ops, s) + 2;
    forall i | 0 <= i < |out| && i != s && i != end
      ensures SameCRs(out[i], ops[Source(i, s, end)])
    {
      InsertedSameCRs(ops, s, f, i);
    }
    TwoMoreRoster(out, ops, s, end, |out|, sample);
    assert out[..|out|] == out && ops[..|ops|] == ops;
  }

  lemma UntilsRoster(ops: seq<Op>, sample: string)
    ensures RosterOf(WithUntils(ops), sample) == RosterOf(ops, sample)
  {
    SameRoster(WithUntils(ops), ops, sample);
  }

  /** Neither the settle waits nor the fixtures coming back touch a CR. */
  lemma CheckpointsKeepRoster(ops: seq<Op>, sample: string)
    ensures RosterOf(Checkpointed(ops), sample) == RosterOf(ops, sample)
  {
    JudgedRoster(ops, sample);
    assert ops[..|ops|] == ops;
    UntilsRoster(Judged(ops, |ops|), sample);
  }

  lemma CheckpointedRoster(t: Target, draws: seq<Draw>)
    requires Loaded(t) && Drawable(t, draws)
    ensures RosterOf(Checkpointed(OpsOf(t, draws)), t.sample).Some?
  {
    DrawnRoster(t, draws);
    CheckpointsKeepRoster(OpsOf(t, draws), t.sample);
  }

  /** Neither a fault nor the settle that ends it touches a CR. */
  lemma FaultedRoster(ops: seq<Op>, s: nat, f: Fault, sample: string)
    requires s < |ops| && FirstSettling(ops, s) < |ops|
    ensures RosterOf(Faulted(ops, s, f), sample) == RosterOf(ops, sample)
  {
    InsertedRoster(ops, s, f, sample);
    UntilsRoster(Inserted(ops, s, f), sample);
  }

  // ----- how long a sequence can be

  lemma {:induction false} JudgedLength(ops: seq<Op>, n: nat)
    requires 1 <= n <= |ops| && ops[0].kind.Create?
    ensures |Judged(ops, n)| <= if |ops| == 1 then 2 else 3 * n - 2
  {
    if n > 1 { JudgedLength(ops, n - 1); }
  }

  /** A draw of the create alone leaves a fault nowhere to start. */
  lemma LoneCreateIsUnfaulted(ops: seq<Op>, s: nat)
    requires |ops| == 1 && ops[0].kind.Create?
    ensures !MayStart(Checkpointed(ops), s)
  {
    assert Judged(ops, 0) == [];
  }

  lemma FirstOpCreates(t: Target, draws: seq<Draw>)
    requires Drawable(t, draws)
    ensures OpsOf(t, draws)[0].kind.Create?
  {
    DrawAt(t, draws, 0);
  }

  lemma LengthBounded(t: Target, draws: seq<Draw>, sequence: seq<Op>)
    requires Loaded(t) && Drawable(t, draws) && GeneratesFrom(t, draws, sequence)
    ensures |sequence| <= 3 * t.maxOps
  {
    var ops := OpsOf(t, draws);
    FirstOpCreates(t, draws);
    JudgedLength(ops, |ops|);
    if |ops| == 1 {
      forall s: nat
        ensures !MayStart(Checkpointed(ops), s)
      {
        LoneCreateIsUnfaulted(ops, s);
      }
    }
  }

  // ----- the main results

  /** What the Runner asks of a sequence before it runs one. */
  ghost predicate Runnable(t: Target, sequence: seq<Op>) {
    Valid(sequence) && CRsExist(sequence, t.sample)
  }

  lemma CheckpointedIsRunnable(t: Target, draws: seq<Draw>)
    requires Loaded(t) && Drawable(t, draws)
    ensures
      var sequence := Checkpointed(OpsOf(t, draws));
      Runnable(t, sequence) && Bracketed(sequence, false)
  {
    CheckpointedIsJudgeable(t, draws);
    var ops := OpsOf(t, draws);
    var sequence := Checkpointed(ops);
    UntilsMakeValid(Judged(ops, |ops|));
    CheckpointedRoster(t, draws);
    RosterMakesRunnable(t, sequence);
  }

  lemma FaultingKeepsRunnable(t: Target, judged: seq<Op>, s: nat, f: Fault)
    requires Loaded(t) && HasAction(f) && DrawsFault(t, f)
    requires Judgeable(judged) && Unfaulted(judged) && RosterOf(judged, t.sample).Some?
    requires MayStart(judged, s) && FirstSettling(judged, s) < |judged|
    ensures Runnable(t, Faulted(judged, s, f)) && Bracketed(Faulted(judged, s, f), false)
  {
    InsertedIsJudgeable(t, judged, s, f);
    UntilsMakeValid(Inserted(judged, s, f));
    UntilsKeepJudgeable(Inserted(judged, s, f));
    FaultedRoster(judged, s, f, t.sample);
    RosterMakesRunnable(t, Faulted(judged, s, f));
  }

  lemma RosterMakesRunnable(t: Target, sequence: seq<Op>)
    requires Valid(sequence) && RosterOf(sequence, t.sample).Some?
    ensures Runnable(t, sequence)
  {
    assert sequence[..|sequence|] == sequence;
    RosterImpliesCRs(sequence, |sequence|, t.sample);
  }

  lemma FaultedIsRunnable(t: Target, draws: seq<Draw>, s: nat, f: Fault)
    requires Loaded(t) && HasAction(f) && Drawable(t, draws) && DrawsFault(t, f)
    requires MayStart(Checkpointed(OpsOf(t, draws)), s)
    requires FirstSettling(Checkpointed(OpsOf(t, draws)), s) < |Checkpointed(OpsOf(t, draws))|
    ensures
      var sequence := Faulted(Checkpointed(OpsOf(t, draws)), s, f);
      Runnable(t, sequence) && Bracketed(sequence, false)
  {
    CheckpointedIsJudgeable(t, draws);
    CheckpointedRoster(t, draws);
    FaultingKeepsRunnable(t, Checkpointed(OpsOf(t, draws)), s, f);
  }

  lemma DrawnFaultActs(t: Target, f: Fault)
    requires Loaded(t) && DelaysCount(t) && DrawsFault(t, f)
    ensures HasAction(f)
  {
    if f.action.error == 0 {
      var quarters :| quarters in DELAY_QUARTERS && f.action == Action(0, DelayOf(StableOf(t), quarters), false);
      DelayCounts(StableOf(t), quarters);
    }
  }

  /** Where restarts are bracketed does not depend on what the fault does. */
  lemma FaultedIsBracketed(t: Target, draws: seq<Draw>, s: nat, f: Fault)
    requires Loaded(t) && Drawable(t, draws) && DrawsFault(t, f)
    requires MayStart(Checkpointed(OpsOf(t, draws)), s)
    requires FirstSettling(Checkpointed(OpsOf(t, draws)), s) < |Checkpointed(OpsOf(t, draws))|
    ensures Bracketed(Faulted(Checkpointed(OpsOf(t, draws)), s, f), false)
  {
    var other := f.(action := Action(500, 0, false));
    assert 500 in FAULT_ERRORS by { assert FAULT_ERRORS[0] == 500; }
    FaultedIsRunnable(t, draws, s, other);
    SameBrackets(Checkpointed(OpsOf(t, draws)), s, f, other);
  }

  ghost predicate Alike(a: Op, b: Op) { a.kind == b.kind && a.Settles() == b.Settles() }

  lemma FaultedAlike(ops: seq<Op>, s: nat, f: Fault, other: Fault, k: nat)
    requires s < |ops| && FirstSettling(ops, s) < |ops| && k < |ops| + 2
    ensures Alike(Faulted(ops, s, f)[k], Faulted(ops, s, other)[k])
  {
    var a, b := Inserted(ops, s, f), Inserted(ops, s, other);
    assert Alike(a[k], b[k]);
    UntilsLeave(a, k);
    UntilsLeave(b, k);
  }

  lemma AlikeBracketed(a: seq<Op>, b: seq<Op>)
    requires |a| == |b| && Bracketed(a, false) && forall k :: 0 <= k < |a| ==> Alike(a[k], b[k])
    ensures Bracketed(b, false)
  {
    forall k | 0 <= k < |b| ensures BracketedAt(b, k, false) {
      assert BracketedAt(a, k, false) && Alike(a[k], b[k]);
    }
  }

  lemma SameBrackets(ops: seq<Op>, s: nat, f: Fault, other: Fault)
    requires s < |ops| && FirstSettling(ops, s) < |ops|
    requires Bracketed(Faulted(ops, s, other), false)
    ensures Bracketed(Faulted(ops, s, f), false)
  {
    var a, b := Faulted(ops, s, other), Faulted(ops, s, f);
    forall k | 0 <= k < |a| ensures Alike(a[k], b[k]) {
      FaultedAlike(ops, s, other, f, k);
    }
    AlikeBracketed(a, b);
  }

  /** Every fault among the ops does something. */
  ghost predicate FaultsAct(sequence: seq<Op>) {
    forall i :: 0 <= i < |sequence| && sequence[i].fault.Some? ==> HasAction(sequence[i].fault.value)
  }

  lemma ValidFaultsAct(sequence: seq<Op>)
    requires ValidOps(sequence)
    ensures FaultsAct(sequence)
  {
    forall i | 0 <= i < |sequence| && sequence[i].fault.Some? ensures HasAction(sequence[i].fault.value) {
      assert sequence[i].Valid(i);
    }
  }

  ghost predicate Sound(t: Target, sequence: seq<Op>) {
    (Runnable(t, sequence) <==> FaultsAct(sequence)) && Bracketed(sequence, false)
  }

  /** The fault that was inserted is the one that must act. */
  lemma FaultMustAct(ops: seq<Op>, s: nat, f: Fault)
    requires MayStart(ops, s) && FirstSettling(ops, s) < |ops| && FaultsAct(Faulted(ops, s, f))
    ensures HasAction(f)
  {
    FaultEndsAtItsSettle(ops, s, f);
    assert Faulted(ops, s, f)[s].fault.Some?;
  }

  lemma FaultedIsSound(t: Target, draws: seq<Draw>, s: nat, f: Fault)
    requires Loaded(t) && Drawable(t, draws) && DrawsFault(t, f)
    requires MayStart(Checkpointed(OpsOf(t, draws)), s)
    requires FirstSettling(Checkpointed(OpsOf(t, draws)), s) < |Checkpointed(OpsOf(t, draws))|
    ensures Sound(t, Faulted(Checkpointed(OpsOf(t, draws)), s, f))
  {
    var judged := Checkpointed(OpsOf(t, draws));
    FaultedIsBracketed(t, draws, s, f);
    if FaultsAct(Faulted(judged, s, f)) {
      FaultMustAct(judged, s, f);
      FaultedIsRunnable(t, draws, s, f);
    } else if Runnable(t, Faulted(judged, s, f)) {
      ValidFaultsAct(Faulted(judged, s, f));
    }
  }

  lemma CheckpointedIsSound(t: Target, draws: seq<Draw>)
    requires Loaded(t) && Drawable(t, draws)
    ensures Sound(t, Checkpointed(OpsOf(t, draws)))
  {
    CheckpointedIsRunnable(t, draws);
    ValidFaultsAct(Checkpointed(OpsOf(t, draws)));
  }

  /** Every sequence the generator can draw brackets each restart with ops that
      settle, follows one with each deleteManaged and holds at most three ops for
      each op it may draw. It is well formed and acts only on CRs that are there
      exactly where the fault drawn for it, if any, does something. */
  lemma EveryDrawIsSound(t: Target, sequence: seq<Op>)
    requires Loaded(t) && Generates(t, sequence)
    ensures Runnable(t, sequence) <==> FaultsAct(sequence)
    ensures Bracketed(sequence, false)
    ensures |sequence| <= 3 * t.maxOps
  {
    var draws :| Drawable(t, draws) && GeneratesFrom(t, draws, sequence);
    LengthBounded(t, draws, sequence);
    var judged := Checkpointed(OpsOf(t, draws));
    if sequence == judged {
      CheckpointedIsSound(t, draws);
    } else {
      var s: nat, f :| MayStart(judged, s) && FirstSettling(judged, s) < |judged| &&
                       DrawsFault(t, f) && sequence == Faulted(judged, s, f);
      FaultedIsSound(t, draws, s, f);
    }
  }

  lemma ActingDrawIsRunnable(t: Target, draws: seq<Draw>, sequence: seq<Op>)
    requires Loaded(t) && DelaysCount(t) && Drawable(t, draws) && GeneratesFrom(t, draws, sequence)
    ensures Runnable(t, sequence)
  {
    CheckpointedIsRunnable(t, draws);
    var judged := Checkpointed(OpsOf(t, draws));
    if sequence != judged {
      var s: nat, f :| MayStart(judged, s) && FirstSettling(judged, s) < |judged| &&
                       DrawsFault(t, f) && sequence == Faulted(judged, s, f);
      DrawnFaultActs(t, f);
      FaultedIsRunnable(t, draws, s, f);
    }
  }

  const TWO_DRAWS := [DrawCreate("", false), DrawRecreate(0, "", false)]

  lemma TwoDrawsAreDrawable(t: Target)
    requires Loaded(t) && t.maxOps > 1
    ensures Drawable(t, TWO_DRAWS)
  {
    assert After(t, TWO_DRAWS, 0) == Some(FRESH);
    var at := Advance(t, FRESH, TWO_DRAWS[0]);
    assert Legal(t, FRESH, TWO_DRAWS[0]) && at.live == [true];
    assert After(t, TWO_DRAWS, 1) == Some(at) && Legal(t, at, TWO_DRAWS[1]);
    assert After(t, TWO_DRAWS, 2).Some?;
  }

  /** Two ops that settle need no waits between them. */
  lemma TwoSettlingOps(ops: seq<Op>)
    requires |ops| == 2 && ops[0].kind.Create? && ops[1].kind.Recreate? && ops[0].Settles() && ops[1].Settles()
    ensures MayStart(Checkpointed(ops), 1) && FirstSettling(Checkpointed(ops), 1) == 1
  {
    assert Judged(ops, 0) == [];
    assert Judged(ops, 1) == [ops[0].(index := 0)];
    assert Judged(ops, 2) == [ops[0].(index := 0), ops[1].(index := 1)];
  }

  lemma ShortDelayIsDrawn(t: Target) returns (f: Fault)
    requires t.faultables != [] && StableOf(t) >= 0 && !DelaysCount(t)
    ensures DrawsFault(t, f) && forall position: nat, until :: !ValidFault(f.(until := until), position)
  {
    f := Fault(Match("", t.faultables[0], Glob("", true), None), Action(0, DelayOf(StableOf(t), 1), false), NO_TRIGGER);
    DelayCounts(StableOf(t), 1);
    assert 1 in DELAY_QUARTERS by { assert DELAY_QUARTERS[0] == 1; }
    assert "" in FAULT_VERBS by { assert FAULT_VERBS[0] == ""; }
  }

  lemma InvalidFaultIsRefused(ops: seq<Op>, s: nat, f: Fault)
    requires MayStart(ops, s) && FirstSettling(ops, s) < |ops|
    requires forall position: nat, until :: !ValidFault(f.(until := until), position)
    ensures !Valid(Faulted(ops, s, f))
  {
    FaultEndsAtItsSettle(ops, s, f);
    assert !Faulted(ops, s, f)[s].Valid(s);
  }

  /** A target with a stable window under two milliseconds can draw a delay that
      rounds to none, which makes a fault of no action. */
  lemma ShortWindowDrawsNoAction(t: Target) returns (sequence: seq<Op>)
    requires Loaded(t) && t.faultables != [] && t.maxOps > 1 && !DelaysCount(t)
    ensures Generates(t, sequence) && !Valid(sequence)
  {
    TwoDrawsAreDrawable(t);
    var ops := OpsOf(t, TWO_DRAWS);
    DrawAt(t, TWO_DRAWS, 0);
    DrawAt(t, TWO_DRAWS, 1);
    TwoSettlingOps(ops);
    var f := ShortDelayIsDrawn(t);
    sequence := Faulted(Checkpointed(ops), 1, f);
    InvalidFaultIsRefused(Checkpointed(ops), 1, f);
  }

  /** Everything the generator can draw for a target passes the Runner's checks
      exactly where it draws no faults, draws only the create, or the stable window
      is at least two milliseconds. */
  lemma SoundExactlyWhere(t: Target)
    requires Loaded(t)
    ensures (forall sequence :: Generates(t, sequence) ==> Runnable(t, sequence)) <==>
            t.faultables == [] || t.maxOps == 1 || DelaysCount(t)
  {
    if t.faultables == [] || t.maxOps == 1 || DelaysCount(t) {
      forall sequence | Generates(t, sequence)
        ensures Runnable(t, sequence)
      {
        var draws :| Drawable(t, draws) && GeneratesFrom(t, draws, sequence);
        CheckpointedIsRunnable(t, draws);
        if DelaysCount(t) {
          ActingDrawIsRunnable(t, draws, sequence);
        } else if t.maxOps == 1 {
          FirstOpCreates(t, draws);
          forall s: nat
            ensures !MayStart(Checkpointed(OpsOf(t, draws)), s)
          {
            LoneCreateIsUnfaulted(OpsOf(t, draws), s);
          }
        }
      }
    } else {
      var sequence := ShortWindowDrawsNoAction(t);
    }
  }
}
