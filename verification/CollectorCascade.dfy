/** What repeated sweeps leave where nobody else writes: each sweep frees the
    children of what it collected, and the cascade ends at the greatest set of
    objects that keep each other alive.
 */
module CollectorCascade {
  import opened Owners

  type Objects = map<Key, Object>

  /** The API server refuses a reference with no UID. */
  ghost predicate Admitted(objects: Objects) {
    forall k, ref :: k in objects && ref in objects[k].refs ==> ref.uid != 0
  }

  /** Every owner the object names is resolvable and gone, and it names one. An
      object already marked for deletion is left out of a sweep. */
  predicate Doomed(scheme: Scheme, objects: Objects, k: Key)
    requires k in objects
  {
    && !objects[k].deleting
    && objects[k].refs != []
    && forall ref :: ref in objects[k].refs ==> scheme.Resolvable(ref) && !Exists(objects, ref)
  }

  /** The objects as an accepted delete leaves them: a finalizer holds an object. */
  function AfterDelete(objects: Objects, k: Key): Objects
    requires k in objects
  {
    if objects[k].finalizers then objects[k := objects[k].(deleting := true)] else objects - {k}
  }

  /** One sweep: every doomed object goes, or is marked where a finalizer holds it,
      and nothing else changes. */
  ghost predicate IsSweep(scheme: Scheme, before: Objects, after: Objects) {
    && (forall k :: k in after <==> k in before && !(Doomed(scheme, before, k) && !before[k].finalizers))
    && (forall k :: k in after ==>
          after[k] == if Doomed(scheme, before, k) then before[k].(deleting := true) else before[k])
  }

  // ----- the sweep's two loops

  /** What live reads of every owner some references name would find. */
  ghost predicate IsRead(objects: Objects, found: Reads) {
    forall key :: key in found ==>
      !found[key].unreadable && found[key].uid == if key in objects then objects[key].uid else 0
  }

  /** Reads each resolvable owner the objects name, once. */
  method LiveOwners(scheme: Scheme, server: Objects, listed: seq<Cached>) returns (found: Reads)
    ensures IsRead(server, found)
    ensures forall c, ref :: c in listed && ref in c.item.refs && scheme.Resolvable(ref) ==> ref.Owner() in found
  {
    found := map[];
    for i := 0 to |listed|
      invariant IsRead(server, found)
      invariant forall c, ref :: c in listed[..i] && ref in c.item.refs && scheme.Resolvable(ref) ==> ref.Owner() in found
    {
      var refs := listed[i].item.refs;
      ghost var before := found;
      for j := 0 to |refs|
        invariant IsRead(server, found)
        invariant forall key :: key in before ==> key in found
        invariant forall n :: 0 <= n < j && scheme.Resolvable(refs[n]) ==> refs[n].Owner() in found
      {
        var key := refs[j].Owner();
        if scheme.Resolvable(refs[j]) && key !in found {
          found := found[key := Read(if key in server then server[key].uid else 0, false)];
        }
      }
      assert listed[..i + 1] == listed[..i] + [listed[i]];
    }
    assert listed[..|listed|] == listed;
  }

  /** The watches are up to date: they list each object not marked for deletion,
      once, in any order. */
  ghost predicate Lists(listed: seq<Cached>, objects: Objects) {
    && (forall c :: c in listed ==> c.key in objects && objects[c.key] == c.item && !c.item.deleting)
    && (forall k :: k in objects && !objects[k].deleting ==> Cached(k, objects[k]) in listed)
    && (forall i, j :: 0 <= i < j < |listed| ==> listed[i].key != listed[j].key)
  }

  lemma JudgedDoomed(scheme: Scheme, objects: Objects, found: Reads, c: Cached)
    requires Admitted(objects) && IsRead(objects, found)
    requires c.key in objects && objects[c.key] == c.item && !c.item.deleting
    requires forall ref :: ref in c.item.refs && scheme.Resolvable(ref) ==> ref.Owner() in found
    ensures Collectible(scheme, found, c.item.refs) <==> Doomed(scheme, objects, c.key)
  {
    forall ref | ref in c.item.refs
      ensures FoundGone(scheme, found, ref) <==> scheme.Resolvable(ref) && !Exists(objects, ref)
    {
    }
  }

  /** Part of a sweep: the listed objects from the n-th on are yet to be tried. */
  ghost predicate Swept(scheme: Scheme, before: Objects, listed: seq<Cached>, n: nat, now: Objects)
    requires n <= |listed| && Lists(listed, before)
  {
    && (forall k :: k in now ==> k in before)
    && (forall i :: n <= i < |listed| ==> listed[i].key in now && now[listed[i].key] == listed[i].item)
    && (forall k :: k in before && before[k].deleting ==> k in now && now[k] == before[k])
    && (forall i :: 0 <= i < n ==>
          var k := listed[i].key;
          && (k in now <==> !(Doomed(scheme, before, k) && !before[k].finalizers))
          && (k in now ==> now[k] == if Doomed(scheme, before, k) then before[k].(deleting := true) else before[k]))
  }

  /** One sweep with no other writer, whatever order the watches list objects in. */
  method Sweep(scheme: Scheme, server: Objects, listed: seq<Cached>) returns (after: Objects, tried: seq<Key>)
    requires Admitted(server) && Lists(listed, server)
    ensures IsSweep(scheme, server, after)
    ensures forall k :: k in tried <==> k in server && Doomed(scheme, server, k)
  {
    var found := LiveOwners(scheme, server, listed);
    after := server;
    tried := [];
    for i := 0 to |listed|
      invariant Swept(scheme, server, listed, i, after)
      invariant forall k :: k in tried <==> exists n :: 0 <= n < i && listed[n].key == k && Doomed(scheme, server, k)
    {
      var c := listed[i];
      assert c in listed;
      var collect, unresolved := ComputeCollectible(scheme, found, c.item.refs);
      JudgedDoomed(scheme, server, found, c);
      ghost var was := after;
      if collect {
        after := AfterDelete(after, c.key);
        tried := tried + [c.key];
      }
      SweptStep(scheme, server, listed, i, was, after);
    }
    SweptAll(scheme, server, listed, after);
    forall k | k in server && Doomed(scheme, server, k)
      ensures k in tried
    {
      assert Cached(k, server[k]) in listed;
    }
  }

  lemma SweptStep(scheme: Scheme, before: Objects, listed: seq<Cached>, n: nat, was: Objects, now: Objects)
    requires Lists(listed, before) && n < |listed| && Swept(scheme, before, listed, n, was)
    requires listed[n].key in before && listed[n].key in was
    requires now == if Doomed(scheme, before, listed[n].key) then AfterDelete(was, listed[n].key) else was
    ensures Swept(scheme, before, listed, n + 1, now)
  {
    assert listed[n] in listed;
  }

  lemma SweptAll(scheme: Scheme, before: Objects, listed: seq<Cached>, after: Objects)
    requires Lists(listed, before) && Swept(scheme, before, listed, |listed|, after)
    ensures IsSweep(scheme, before, after)
  {
    forall k | k in before
      ensures k in after <==> !(Doomed(scheme, before, k) && !before[k].finalizers)
      ensures k in after ==> after[k] == if Doomed(scheme, before, k) then before[k].(deleting := true) else before[k]
    {
      if !before[k].deleting {
        assert Cached(k, before[k]) in listed;
        var i :| 0 <= i < |listed| && listed[i] == Cached(k, before[k]);
      }
    }
  }

  // ----- the greatest set that keeps itself alive

  /** Something other than the sweep's own work keeps the object, if exactly the
      objects of kept remain. */
  ghost predicate Kept(scheme: Scheme, objects: Objects, kept: set<Key>, k: Key)
    requires k in objects
  {
    || objects[k].refs == []
    || objects[k].finalizers
    || objects[k].deleting
    || (exists ref :: ref in objects[k].refs && !(ref.kind in scheme.watched && (ref.kind, ref.version) in scheme.served))
    || (exists ref :: ref in objects[k].refs && OwnedIn(objects, kept, ref))
  }

  /** The owner the reference names by kind, name and UID is among those kept. */
  ghost predicate OwnedIn(objects: Objects, kept: set<Key>, ref: Reference) {
    var owner := Key(ref.kind, ref.name);
    owner in kept && owner in objects && objects[owner].uid == ref.uid
  }

  ghost predicate KeepsItself(scheme: Scheme, objects: Objects, kept: set<Key>) {
    kept <= objects.Keys && forall k :: k in kept ==> Kept(scheme, objects, kept, k)
  }

  ghost predicate GreatestKept(scheme: Scheme, objects: Objects, kept: set<Key>) {
    KeepsItself(scheme, objects, kept) && forall other :: KeepsItself(scheme, objects, other) ==> other <= kept
  }

  /** The objects left are the same ones, marked for deletion only where a
      finalizer holds them. */
  ghost predicate Remains(start: Objects, now: Objects) {
    forall k :: k in now ==>
      && k in start
      && (now[k] == start[k] || (start[k].finalizers && now[k] == start[k].(deleting := true)))
  }

  lemma SweepRemains(scheme: Scheme, start: Objects, before: Objects, after: Objects)
    requires Remains(start, before) && IsSweep(scheme, before, after)
    ensures Remains(start, after)
  {
    forall k | k in after
      ensures k in start
      ensures after[k] == start[k] || (start[k].finalizers && after[k] == start[k].(deleting := true))
    {
      assert k in before;
    }
  }

  /** No sweep takes an object from a set that keeps itself. */
  lemma SweepSpares(scheme: Scheme, start: Objects, before: Objects, after: Objects, kept: set<Key>)
    requires Remains(start, before) && IsSweep(scheme, before, after)
    requires KeepsItself(scheme, start, kept) && kept <= before.Keys
    ensures kept <= after.Keys
  {
    forall k | k in kept
      ensures k in after
    {
      assert Kept(scheme, start, kept, k) && k in before;
      if exists ref :: ref in start[k].refs && ref.Owner() in kept && Exists(start, ref) {
        var ref :| ref in start[k].refs && ref.Owner() in kept && Exists(start, ref);
        assert ref.Owner() in before && Exists(before, ref);
      }
    }
  }

  /** Where a sweep finds nothing to do, what is left keeps itself. */
  lemma QuietKeepsItself(scheme: Scheme, start: Objects, now: Objects)
    requires Remains(start, now)
    requires forall k :: k in now ==> !Doomed(scheme, now, k)
    ensures KeepsItself(scheme, start, now.Keys)
  {
    forall k | k in now
      ensures Kept(scheme, start, now.Keys, k)
    {
      assert !Doomed(scheme, now, k);
      if !now[k].deleting && now[k].refs != [] {
        var ref :| ref in now[k].refs && !(scheme.Resolvable(ref) && !Exists(now, ref));
        if scheme.Resolvable(ref) {
          assert Exists(now, ref) && ref.Owner() in start;
          assert Exists(start, ref);
        }
      }
    }
  }

  // ----- how many sweeps it takes

  /** The objects a sweep may still collect. */
  ghost function Unmarked(objects: Objects): set<Key> {
    set k | k in objects && !objects[k].deleting
  }

  lemma SweepShrinks(scheme: Scheme, before: Objects, after: Objects, k: Key)
    requires IsSweep(scheme, before, after) && k in before && Doomed(scheme, before, k)
    ensures Unmarked(after) < Unmarked(before) && |Unmarked(after)| < |Unmarked(before)|
  {
    forall x | x in Unmarked(after)
      ensures x in Unmarked(before)
    {
      assert x in after && x in before;
    }
    assert k in Unmarked(before) && k !in Unmarked(after);
    ProperSubsetSmaller(Unmarked(after), Unmarked(before));
  }

  lemma ProperSubsetSmaller<T>(a: set<T>, b: set<T>)
    requires a < b
    ensures |a| < |b|
  {
    assert b == a + (b - a);
    assert b - a != {};
  }

  lemma SubsetNotLarger<T>(a: set<T>, b: set<T>)
    requires a <= b
    ensures |a| <= |b|
  {
    if a != b { ProperSubsetSmaller(a, b); }
  }

  /** Lists every object not marked for deletion, in some order. */
  method List(objects: Objects) returns (listed: seq<Cached>)
    ensures Lists(listed, objects)
  {
    listed := [];
    var todo := objects.Keys;
    while todo != {}
      invariant todo <= objects.Keys
      invariant forall c :: c in listed ==> c.key in objects && c.key !in todo && objects[c.key] == c.item && !c.item.deleting
      invariant forall k :: k in objects && k !in todo && !objects[k].deleting ==> Cached(k, objects[k]) in listed
      invariant forall i, j :: 0 <= i < j < |listed| ==> listed[i].key != listed[j].key
      decreases todo
    {
      var k :| k in todo;
      todo := todo - {k};
      if !objects[k].deleting {
        assert forall i :: 0 <= i < |listed| ==> listed[i] in listed;
        listed := listed + [Cached(k, objects[k])];
      }
    }
  }

  /** With no other writers and successful calls, the sweeps a deletion sets off end
      after at most one more than there are objects, and leave exactly the greatest
      set in which each object has no ownerReference, a finalizer, a deletion already
      under way, an owner the collector cannot resolve, or an owner in the set. */
  method Cascade(scheme: Scheme, start: Objects) returns (left: Objects, sweeps: nat)
    requires Admitted(start)
    ensures GreatestKept(scheme, start, left.Keys) && Remains(start, left)
    ensures sweeps <= |start| + 1
  {
    left := start;
    sweeps := 0;
    SubsetNotLarger(Unmarked(start), start.Keys);
    assert |start| == |start.Keys|;
    var worked := true;
    while worked
      invariant Remains(start, left)
      invariant forall kept :: KeepsItself(scheme, start, kept) ==> kept <= left.Keys
      invariant worked ==> sweeps + |Unmarked(left)| <= |start|
      invariant !worked ==> sweeps <= |start| + 1 && forall k :: k in left ==> !Doomed(scheme, left, k)
      decreases worked, |Unmarked(left)|
    {
      var listed := List(left);
      ghost var before := left;
      var tried;
      left, tried := Sweep(scheme, left, listed);
      sweeps := sweeps + 1;
      worked := tried != [];
      SweepRemains(scheme, start, before, left);
      forall kept | KeepsItself(scheme, start, kept)
        ensures kept <= left.Keys
      {
        SweepSpares(scheme, start, before, left, kept);
      }
      if worked {
        SweepShrinks(scheme, before, left, tried[0]);
      } else {
        assert left == before;
      }
    }
    QuietKeepsItself(scheme, start, left);
  }
}
