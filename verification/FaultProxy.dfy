/** The proxy's fault records: what a request, a removal and a release do to them,
    and the window each fault is reported over.

    Every method takes the clock as a parameter. `FaultFor` and `Window` read it
    before they take the proxy's lock, so their reading may be older than one
    another call made under the lock; the others read it under the lock.
 */
module FaultProxy {
  import opened Instants

  datatype Action = Error(code: int) | Delay(hold: Duration) | Drop

  /** An empty field matches every request. */
  datatype Matcher = Matcher(verb: string, resource: string, name: string, fraction: real)

  /** `patterns` holds the name patterns that the request's name matches. */
  datatype Request = Request(start: Instant, verb: string, resource: string, patterns: set<string>)

  /** A fault ends after `count` applications or `span` from its injection, where
      either is positive. */
  datatype Spec = Spec(matcher: Matcher, action: Action, count: int, span: Duration)

  /** The release is zero while the hold lasts. */
  datatype Hold = Hold(arrived: Instant, released: Instant)

  datatype Injected = Injected(
    spec: Spec, since: Instant, applied: nat,
    first: Instant, spent: Instant, removed: Instant, holds: seq<Hold>)
  {
    /** When the fault's own clock runs out. */
    function WindowEnd(): Instant { since + spec.span }

    /** When a count or a removal stopped the fault, and zero until then. */
    function Stopped(): Instant { Earliest(spent, removed) }

    function RetiredBy(now: Instant): Instant {
      if spec.span > 0 && WindowEnd() <= now then Earliest(Stopped(), WindowEnd()) else Stopped()
    }

    predicate Expired(now: Instant) { RetiredBy(now) != ZERO }

    predicate Holding() { exists i :: 0 <= i < |holds| && holds[i].released == ZERO }

    function EndedBy(now: Instant): Instant {
      if !Expired(now) || Holding() then ZERO else LastRelease(holds, RetiredBy(now))
    }

    /** Whether the fault takes the request, given its next fraction draw. */
    predicate Hits(r: Request, draw: real) {
      && (spec.matcher.verb == "" || spec.matcher.verb == r.verb)
      && (spec.matcher.resource == "" || spec.matcher.resource == r.resource)
      && (spec.matcher.name == "" || spec.matcher.name in r.patterns)
      && (0.0 < spec.matcher.fraction < 1.0 ==> draw < spec.matcher.fraction)
    }

    /** The fault once it has taken a request read at `now`. */
    function Taken(r: Request, now: Instant): Injected {
      this.(applied := applied + 1,
            first := if applied == 0 then now else first,
            spent := if 0 < spec.count <= applied + 1 then now else spent,
            holds := if spec.action.Delay? then holds + [Hold(r.start, ZERO)] else holds)
    }

    function Removed(now: Instant): Injected {
      if removed == ZERO then this.(removed := now) else this
    }

    function Released(k: nat, now: Instant): Injected
      requires k < |holds|
    {
      this.(holds := holds[k := holds[k].(released := now)])
    }
  }

  /** The earlier of two instants, where a zero one has not come. */
  function Earliest(a: Instant, b: Instant): (r: Instant)
    ensures r == ZERO <==> a == ZERO && b == ZERO
    ensures r == a || r == b
    ensures a != ZERO ==> r <= a
    ensures b != ZERO ==> r <= b
  {
    if a == ZERO || (b != ZERO && b < a) then b else a
  }

  /** The latest release, if it is after t. */
  function LastRelease(holds: seq<Hold>, t: Instant): (r: Instant) {
    if holds == [] then t
    else Later(LastRelease(holds[..|holds| - 1], t), holds[|holds| - 1].released)
  }

  lemma {:induction false} LastReleaseIsLast(holds: seq<Hold>, t: Instant)
    ensures t <= LastRelease(holds, t)
    ensures forall h :: h in holds ==> h.released <= LastRelease(holds, t)
    ensures LastRelease(holds, t) == t || exists h :: h in holds && h.released == LastRelease(holds, t)
  {
    if holds != [] {
      LastReleaseIsLast(holds[..|holds| - 1], t);
      assert holds == holds[..|holds| - 1] + [holds[|holds| - 1]];
    }
  }

  /** The first fault that is active at `now` and takes the request, or the number
      of faults when none does. */
  predicate Chosen(faults: seq<Injected>, r: Request, draws: seq<real>, now: Instant, k: nat)
    requires |draws| == |faults|
  {
    && k <= |faults|
    && (forall i :: 0 <= i < k ==> !Takes(faults[i], r, draws[i], now))
    && (k < |faults| ==> Takes(faults[k], r, draws[k], now))
  }

  predicate Takes(f: Injected, r: Request, draw: real, now: Instant) {
    !f.Expired(now) && f.Hits(r, draw)
  }

  // What these come to, from the fault's fields alone.

  /** Something that stops the fault had come by `now`, and x is when the first did. */
  ghost predicate StoppedAt(f: Injected, now: Instant, x: Instant) {
    && (x == f.spent || x == f.removed || (f.spec.span > 0 && x == f.since + f.spec.span <= now))
    && (f.spent != ZERO ==> x <= f.spent) && (f.removed != ZERO ==> x <= f.removed)
    && (f.spec.span > 0 && f.since + f.spec.span <= now ==> x <= f.since + f.spec.span)
  }

  /** Every request the fault held was released, and x is the later of when it stopped
      and the last release. */
  ghost predicate OverAt(f: Injected, now: Instant, x: Instant) {
    exists stop :: stop != ZERO && StoppedAt(f, now, stop) && stop <= x
      && (forall h :: h in f.holds ==> h.released != ZERO && h.released <= x)
      && (x == stop || exists h :: h in f.holds && h.released == x)
  }

  lemma RetirementMeans(f: Injected, now: Instant, x: Instant)
    requires f.since > ZERO && x != ZERO
    ensures f.RetiredBy(now) == x <==> StoppedAt(f, now, x)
    ensures f.RetiredBy(now) == ZERO <==>
            f.spent == ZERO && f.removed == ZERO && !(f.spec.span > 0 && f.since + f.spec.span <= now)
  {
  }

  lemma EndMeans(f: Injected, now: Instant, x: Instant)
    requires f.since > ZERO && x > ZERO
    ensures f.EndedBy(now) == x <==> OverAt(f, now, x)
  {
    var stop := f.RetiredBy(now);
    LastReleaseIsLast(f.holds, stop);
    if stop != ZERO {
      RetirementMeans(f, now, stop);
    }
    if f.EndedBy(now) == x {
      forall h | h in f.holds ensures h.released != ZERO {
        var i :| 0 <= i < |f.holds| && f.holds[i] == h;
      }
      assert StoppedAt(f, now, stop);
    }
    if OverAt(f, now, x) {
      var s :| s != ZERO && StoppedAt(f, now, s) && s <= x
        && (forall h :: h in f.holds ==> h.released != ZERO && h.released <= x)
        && (x == s || exists h :: h in f.holds && h.released == x);
      RetirementMeans(f, now, s);
      assert !f.Holding();
    }
  }

  /** The fault has not stopped by `now`, and its matcher takes the request. */
  ghost predicate ActiveOn(f: Injected, r: Request, draw: real, now: Instant) {
    && f.spent == ZERO && f.removed == ZERO && !(f.spec.span > 0 && f.since + f.spec.span <= now)
    && (f.spec.matcher.verb == "" || f.spec.matcher.verb == r.verb)
    && (f.spec.matcher.resource == "" || f.spec.matcher.resource == r.resource)
    && (f.spec.matcher.name == "" || f.spec.matcher.name in r.patterns)
    && (f.spec.matcher.fraction <= 0.0 || f.spec.matcher.fraction >= 1.0 || draw < f.spec.matcher.fraction)
  }

  lemma TakesMeans(f: Injected, r: Request, draw: real, now: Instant)
    requires f.since > ZERO
    ensures Takes(f, r, draw, now) <==> ActiveOn(f, r, draw, now)
  {
    RetirementMeans(f, now, 1);
  }

  lemma FirstActive(faults: seq<Injected>, r: Request, draws: seq<real>, now: Instant, k: nat)
    requires |draws| == |faults| && Chosen(faults, r, draws, now, k)
    ensures (forall f :: f in faults ==> f.since > ZERO) ==>
              && (forall i :: 0 <= i < k ==> !ActiveOn(faults[i], r, draws[i], now))
              && (k < |faults| ==> ActiveOn(faults[k], r, draws[k], now))
  {
    if forall f :: f in faults ==> f.since > ZERO {
      forall i | 0 <= i < |faults| ensures Takes(faults[i], r, draws[i], now) <==> ActiveOn(faults[i], r, draws[i], now) {
        assert faults[i] in faults;
        TakesMeans(faults[i], r, draws[i], now);
      }
    }
  }

  lemma WindowMeans(f: Injected, now: Instant)
    ensures f.since > ZERO ==> forall x :: x > ZERO ==> (f.EndedBy(now) == x <==> OverAt(f, now, x))
  {
    if f.since > ZERO {
      forall x | x > ZERO ensures f.EndedBy(now) == x <==> OverAt(f, now, x) {
        EndMeans(f, now, x);
      }
    }
  }

  /** What one application changes. */
  ghost predicate AppliedOnce(f: Injected, g: Injected, r: Request, now: Instant) {
    && g.spec == f.spec && g.since == f.since && g.removed == f.removed && g.applied == f.applied + 1
    && g.first == (if f.applied == 0 then now else f.first)
    && g.spent == (if f.spec.count > 0 && f.applied + 1 >= f.spec.count then now else f.spent)
    && (match f.spec.action
        case Delay(_) => |g.holds| == |f.holds| + 1 && f.holds <= g.holds && g.holds[|f.holds|] == Hold(r.start, ZERO)
        case _ => g.holds == f.holds)
  }

  class Proxy {
    var faults: seq<Injected>

    constructor ()
      ensures faults == []
    {
      faults := [];
    }

    method AddFault(spec: Spec, now: Instant) returns (id: nat)
      modifies this
      ensures id == |old(faults)|
      ensures faults == old(faults) + [Injected(spec, now, 0, ZERO, ZERO, ZERO, [])]
    {
      id := |faults|;
      faults := faults + [Injected(spec, now, 0, ZERO, ZERO, ZERO, [])];
    }

    method RemoveFault(id: nat, now: Instant)
      requires id < |faults|
      modifies this
      ensures faults == old(faults)[id := old(faults)[id].Removed(now)]
    {
      if faults[id].removed == ZERO {
        faults := faults[id := faults[id].(removed := now)];
      }
    }

    /** Reads the clock once for each fault. */
    method ClearFaults(clock: seq<Instant>)
      requires |clock| == |faults|
      modifies this
      ensures |faults| == |old(faults)|
      ensures forall i :: 0 <= i < |faults| ==> faults[i] == old(faults)[i].Removed(clock[i])
    {
      for id := 0 to |faults|
        invariant |faults| == |old(faults)|
        invariant forall i :: 0 <= i < id ==> faults[i] == old(faults)[i].Removed(clock[i])
        invariant forall i :: id <= i < |faults| ==> faults[i] == old(faults)[i]
      {
        RemoveFault(id, clock[id]);
      }
    }

    /** Only the first active fault that takes the request changes, and it keeps
        its hold before the lock is given up. */
    method FaultFor(r: Request, draws: seq<real>, now: Instant) returns (k: nat)
      requires |draws| == |faults|
      modifies this
      ensures Chosen(old(faults), r, draws, now, k)
      ensures faults == if k < |old(faults)| then old(faults)[k := old(faults)[k].Taken(r, now)] else old(faults)
      ensures (forall f :: f in old(faults) ==> f.since > ZERO) ==>
                && (forall i :: 0 <= i < k ==> !ActiveOn(old(faults)[i], r, draws[i], now))
                && (k < |old(faults)| ==> ActiveOn(old(faults)[k], r, draws[k], now) && AppliedOnce(old(faults)[k], faults[k], r, now))
    {
      k := 0;
      while k < |faults|
        invariant k <= |faults| && faults == old(faults)
        invariant forall i :: 0 <= i < k ==> !Takes(faults[i], r, draws[i], now)
      {
        if Takes(faults[k], r, draws[k], now) {
          FirstActive(faults, r, draws, now, k);
          Apply(k, r, now);
          return;
        }
        k := k + 1;
      }
      FirstActive(faults, r, draws, now, k);
    }

    method Apply(k: nat, r: Request, now: Instant)
      requires k < |faults|
      modifies this
      ensures faults == old(faults)[k := old(faults)[k].Taken(r, now)]
    {
      var f := faults[k];
      f := f.(applied := f.applied + 1);
      if f.applied == 1 {
        f := f.(first := now);
      }
      if f.spec.count > 0 && f.applied >= f.spec.count {
        f := f.(spent := now);
      }
      if f.spec.action.Delay? {
        f := f.(holds := f.holds + [Hold(r.start, ZERO)]);
      }
      faults := faults[k := f];
    }

    /** The end of a held request's wait. */
    method Release(id: nat, k: nat, now: Instant)
      requires id < |faults| && k < |faults[id].holds|
      modifies this
      ensures faults == old(faults)[id := old(faults)[id].Released(k, now)]
    {
      faults := faults[id := faults[id].Released(k, now)];
    }

    /** A fault that still holds a request has not ended; otherwise it ended when
        it was retired or at the last release, whichever is later. */
    method Window(id: nat, now: Instant) returns (first: Instant, retired: Instant)
      requires id < |faults|
      ensures first == faults[id].first && retired == faults[id].EndedBy(now)
      ensures faults[id].since > ZERO ==> forall x :: x > ZERO ==> (retired == x <==> OverAt(faults[id], now, x))
    {
      WindowMeans(faults[id], now);
      var f := faults[id];
      first, retired := f.first, f.RetiredBy(now);
      if retired == ZERO {
        return;
      }
      var n := 0;
      while n < |f.holds|
        invariant 0 <= n <= |f.holds|
        invariant retired == LastRelease(f.holds[..n], f.RetiredBy(now))
        invariant forall i :: 0 <= i < n ==> f.holds[i].released != ZERO
      {
        if f.holds[n].released == ZERO {
          retired := ZERO;
          return;
        }
        assert f.holds[..n + 1][..n] == f.holds[..n];
        retired := Later(retired, f.holds[n].released);
        n := n + 1;
      }
      assert f.holds[..n] == f.holds;
    }

    /** Of the requests that arrived before t: whether one is still held, and the
        latest release, zero when there is none. */
    method Held(t: Instant) returns (holding: bool, released: Instant)
      ensures holding <==> exists i :: 0 <= i < |faults| && HoldsOpen(faults[i].holds, t)
      ensures forall i :: 0 <= i < |faults| ==> ReleasedBy(faults[i].holds, t, released)
      ensures released >= ZERO
      ensures released != ZERO ==> exists i :: 0 <= i < |faults| && ReleasedAt(faults[i].holds, t, released)
    {
      holding, released := false, ZERO;
      for n := 0 to |faults|
        invariant holding <==> exists i :: 0 <= i < n && HoldsOpen(faults[i].holds, t)
        invariant forall i :: 0 <= i < n ==> ReleasedBy(faults[i].holds, t, released)
        invariant released >= ZERO
        invariant released != ZERO ==> exists i :: 0 <= i < n && ReleasedAt(faults[i].holds, t, released)
      {
        var open, latest := HeldBy(faults[n].holds, t, released);
        holding, released := holding || open, latest;
      }
    }
  }

  /** One fault's part of `Held`. */
  method HeldBy(holds: seq<Hold>, t: Instant, before: Instant) returns (open: bool, released: Instant)
    ensures open <==> HoldsOpen(holds, t)
    ensures released >= before && ReleasedBy(holds, t, released)
    ensures released == before || ReleasedAt(holds, t, released)
  {
    open, released := false, before;
    for n := 0 to |holds|
      invariant open <==> HoldsOpen(holds[..n], t)
      invariant released >= before && ReleasedBy(holds[..n], t, released)
      invariant released == before || ReleasedAt(holds[..n], t, released)
    {
      var h := holds[n];
      assert holds[..n + 1] == holds[..n] + [h];
      if h.arrived >= t {
      } else if h.released == ZERO {
        open := true;
      } else if h.released > released {
        released := h.released;
      }
    }
    assert holds[..|holds|] == holds;
  }

  predicate HoldsOpen(holds: seq<Hold>, t: Instant) {
    exists h :: h in holds && h.arrived < t && h.released == ZERO
  }

  predicate ReleasedBy(holds: seq<Hold>, t: Instant, released: Instant) {
    forall h :: h in holds && h.arrived < t && h.released != ZERO ==> h.released <= released
  }

  predicate ReleasedAt(holds: seq<Hold>, t: Instant, released: Instant) {
    exists h :: h in holds && h.arrived < t && h.released == released
  }
}
