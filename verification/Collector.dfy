/** The garbage-collector emulation as a protocol against an API server that other
    writers use at the same time.

    A sweep works on objects its watches delivered at some time in the past. It
    reads each owner they name, live, and then sends deletes that name the UID and
    resourceVersion it read. Between any two of these calls any other writer may
    create, change or remove any object. The model takes each API call as one step.
 */
module Collector {
  import opened Owners

  datatype Server = Server(objects: map<Key, Object>, nextUid: Uid, nextVersion: nat)

  /** A sweep reads owners, then tries deletes. `todo` holds the references still
      to look up; `next` is the item to try next. */
  datatype Sweep =
    | Idle
    | Reading(objects: seq<Cached>, todo: seq<Reference>, found: Reads)
    | Deleting(objects: seq<Cached>, next: nat, found: Reads)

  /** `past` holds every version of every object the API server ever stored, which
      is all that a watch can have delivered. */
  datatype State = State(server: Server, past: set<Cached>, sweep: Sweep)

  datatype Step =
    | Create(key: Key, refs: seq<Reference>, finalizers: bool)
    | Update(key: Key, refs: seq<Reference>, finalizers: bool, deleting: bool)
    | Remove(key: Key)
    | Begin(objects: seq<Cached>)
    | ReadOwner(unreadable: bool)
    | FinishReading
    | Delete(lost: bool)
    | Finish
    | Abandon

  predicate Init(s: State) {
    s.server.objects == map[] && s.server.nextUid == 1 && s.past == {} && s.sweep == Idle
  }

  /** A UID is issued before it is referenced. */
  predicate Issued(server: Server, refs: seq<Reference>) {
    forall ref :: ref in refs ==> ref.uid < server.nextUid
  }

  function Store(s: State, key: Key, item: Object, nextUid: Uid): State {
    s.(server := Server(s.server.objects[key := item], nextUid, s.server.nextVersion + 1),
       past := s.past + {Cached(key, item)})
  }

  function AllRefs(objects: seq<Cached>): seq<Reference> {
    if objects == [] then [] else objects[0].item.refs + AllRefs(objects[1..])
  }

  /** The live read of an owner, which may fail. */
  function Look(server: Server, key: Key, unreadable: bool): Read {
    if unreadable then Read(0, true)
    else if key in server.objects then Read(server.objects[key].uid, false)
    else Read(0, false)
  }

  /** Whether the API server accepts a delete with these preconditions. */
  predicate Accepts(server: Server, c: Cached) {
    && c.key in server.objects
    && server.objects[c.key].uid == c.item.uid
    && server.objects[c.key].resourceVersion == c.item.resourceVersion
  }

  /** A finalizer holds an object whose delete was accepted. */
  function Accepted(s: State, c: Cached): State
    requires Accepts(s.server, c)
  {
    var item := s.server.objects[c.key];
    if item.finalizers
    then Store(s, c.key, item.(deleting := true, resourceVersion := s.server.nextVersion), s.server.nextUid)
    else s.(server := s.server.(objects := s.server.objects - {c.key}))
  }

  /** Whether this step is a collector's delete that the API server accepts. */
  predicate Collects(scheme: Scheme, s: State, step: Step) {
    && step.Delete? && !step.lost
    && s.sweep.Deleting? && s.sweep.next < |s.sweep.objects|
    && Collectible(scheme, s.sweep.found, s.sweep.objects[s.sweep.next].item.refs)
    && Accepts(s.server, s.sweep.objects[s.sweep.next])
  }

  ghost predicate Next(scheme: Scheme, s: State, step: Step, s': State) {
    match step
    case Create(key, refs, finalizers) =>
      && key !in s.server.objects && Issued(s.server, refs)
      && s' == Store(s, key, Object(s.server.nextUid, s.server.nextVersion, refs, finalizers, false), s.server.nextUid + 1)
    case Update(key, refs, finalizers, deleting) =>
      && key in s.server.objects && Issued(s.server, refs)
      && s' == Store(s, key, Object(s.server.objects[key].uid, s.server.nextVersion, refs, finalizers, deleting), s.server.nextUid)
    case Remove(key) =>
      && key in s.server.objects
      && s' == s.(server := s.server.(objects := s.server.objects - {key}))
    case Begin(objects) =>
      && s.sweep.Idle?
      && (forall c :: c in objects ==> c in s.past && !c.item.deleting)
      && s' == s.(sweep := Reading(objects, AllRefs(objects), map[]))
    case ReadOwner(unreadable) =>
      && s.sweep.Reading? && s.sweep.todo != []
      && var ref := s.sweep.todo[0];
         s' == s.(sweep := Reading(s.sweep.objects, s.sweep.todo[1..],
                                   if !scheme.Resolvable(ref) || ref.Owner() in s.sweep.found then s.sweep.found
                                   else s.sweep.found[ref.Owner() := Look(s.server, ref.Owner(), unreadable)]))
    case FinishReading =>
      && s.sweep.Reading? && s.sweep.todo == []
      && s' == s.(sweep := Deleting(s.sweep.objects, 0, s.sweep.found))
    case Delete(lost) =>
      && s.sweep.Deleting? && s.sweep.next < |s.sweep.objects|
      && var c := s.sweep.objects[s.sweep.next];
         var called := if Collects(scheme, s, step) then Accepted(s, c) else s;
         s' == called.(sweep := Deleting(s.sweep.objects, s.sweep.next + 1, s.sweep.found))
    case Finish =>
      && s.sweep.Deleting? && s.sweep.next == |s.sweep.objects|
      && s' == s.(sweep := Idle)
    case Abandon =>
      s' == s.(sweep := Idle)
  }

  // ----- what every step keeps

  ghost predicate ServerInv(s: State) {
    && s.server.nextUid > 0
    && (forall k :: k in s.server.objects ==> Cached(k, s.server.objects[k]) in s.past)
    && (forall c :: c in s.past ==>
          && 0 < c.item.uid < s.server.nextUid
          && c.item.resourceVersion < s.server.nextVersion
          && Issued(s.server, c.item.refs))
    && (forall c, d :: c in s.past && d in s.past && c.item.resourceVersion == d.item.resourceVersion ==> c == d)
  }

  /** No owner the sweep found gone exists, whatever has been written since. */
  ghost predicate StillGone(s: State, objects: seq<Cached>, found: Reads) {
    forall c, ref :: c in objects && ref in c.item.refs && ref.Owner() in found &&
                     !found[ref.Owner()].unreadable && found[ref.Owner()].uid != ref.uid ==>
                       !Exists(s.server.objects, ref)
  }

  ghost predicate SweepInv(s: State) {
    s.sweep.Idle? ||
    (&& (forall c :: c in s.sweep.objects ==> c in s.past)
     && StillGone(s, s.sweep.objects, s.sweep.found))
  }

  ghost predicate Inv(s: State) {
    ServerInv(s) && SweepInv(s)
  }

  lemma StoreKeepsInv(s: State, key: Key, item: Object, nextUid: Uid)
    requires Inv(s) && nextUid >= s.server.nextUid
    requires item.resourceVersion == s.server.nextVersion && 0 < item.uid < nextUid && Issued(s.server, item.refs)
    requires key in s.server.objects ==> item.uid == s.server.objects[key].uid
    requires key !in s.server.objects ==> item.uid == s.server.nextUid
    ensures Inv(Store(s, key, item, nextUid))
  {
  }

  lemma RemoveKeepsInv(s: State, key: Key)
    requires Inv(s)
    ensures Inv(s.(server := s.server.(objects := s.server.objects - {key})))
  {
  }

  lemma NextKeepsInv(scheme: Scheme, s: State, step: Step, s': State)
    requires Inv(s) && Next(scheme, s, step, s')
    ensures Inv(s')
  {
    match step
    case Create(key, refs, finalizers) =>
      StoreKeepsInv(s, key, Object(s.server.nextUid, s.server.nextVersion, refs, finalizers, false), s.server.nextUid + 1);
    case Update(key, refs, finalizers, deleting) =>
      assert Cached(key, s.server.objects[key]) in s.past;
      StoreKeepsInv(s, key, Object(s.server.objects[key].uid, s.server.nextVersion, refs, finalizers, deleting), s.server.nextUid);
    case Remove(key) =>
      RemoveKeepsInv(s, key);
    case Delete(lost) =>
      if Collects(scheme, s, step) {
        var c := s.sweep.objects[s.sweep.next];
        var item := s.server.objects[c.key];
        assert Cached(c.key, item) in s.past;
        if item.finalizers {
          StoreKeepsInv(s, c.key, item.(deleting := true, resourceVersion := s.server.nextVersion), s.server.nextUid);
        } else {
          RemoveKeepsInv(s, c.key);
        }
      }
    case _ =>
  }

  // ----- safety over every run

  ghost predicate Run(scheme: Scheme, states: seq<State>, steps: seq<Step>) {
    && |states| == |steps| + 1
    && Init(states[0])
    && forall i :: 0 <= i < |steps| ==> Next(scheme, states[i], steps[i], states[i + 1])
  }

  lemma {:induction false} RunKeepsInv(scheme: Scheme, states: seq<State>, steps: seq<Step>, i: nat)
    requires Run(scheme, states, steps) && i < |states|
    ensures Inv(states[i])
  {
    if i > 0 {
      RunKeepsInv(scheme, states, steps, i - 1);
      NextKeepsInv(scheme, states[i - 1], steps[i - 1], states[i]);
    }
  }

  /** Whenever the API server accepts a collector's delete, in any interleaving
      with other writers: the object is exactly the one the sweep judged, it names
      at least one owner, every owner it names is of a kind the collector watches at
      a version the API server serves, and no object of that kind and name with that
      UID exists at that instant. Nothing but the object changes: it goes, or is
      marked where a finalizer holds it. */
  lemma CollectsOnlyOrphans(scheme: Scheme, states: seq<State>, steps: seq<Step>, i: nat)
    requires Run(scheme, states, steps) && i < |steps| && Collects(scheme, states[i], steps[i])
    ensures
      var c := states[i].sweep.objects[states[i].sweep.next];
      var before, after := states[i].server.objects, states[i + 1].server.objects;
      && c.key in before && before[c.key] == c.item
      && c.item.refs != []
      && (forall ref :: ref in c.item.refs ==>
            && ref.kind in scheme.watched && (ref.kind, ref.version) in scheme.served
            && !(Key(ref.kind, ref.name) in before && before[Key(ref.kind, ref.name)].uid == ref.uid))
      && (forall key :: key != c.key ==> (key in after <==> key in before) && (key in after ==> after[key] == before[key]))
      && (if c.item.finalizers then c.key in after && after[c.key].deleting && after[c.key].uid == c.item.uid
          else c.key !in after)
  {
    RunKeepsInv(scheme, states, steps, i);
    var s := states[i];
    var c := s.sweep.objects[s.sweep.next];
    assert c in s.sweep.objects;
    assert Cached(c.key, s.server.objects[c.key]) in s.past && c in s.past;
    assert Next(scheme, s, steps[i], states[i + 1]);
  }

  // ----- a run in which the collector deletes an orphan

  const SET := Key("ReplicaSet", "web")
  const POD := Key("Pod", "web-1")
  const OWNED := [Reference("ReplicaSet", "v1", "web", 1)]
  const WATCHED := Scheme({"Pod", "ReplicaSet"}, {("Pod", "v1"), ("ReplicaSet", "v1")})
  const OWNER := Object(1, 1, [], false, false)
  const ORPHAN := Object(2, 2, OWNED, false, false)
  const LISTED := [Cached(POD, ORPHAN)]
  const MISSING := map[SET := Read(0, false)]

  const EMPTY := State(Server(map[], 1, 1), {}, Idle)
  const PARENT := State(Server(map[SET := OWNER], 2, 2), {Cached(SET, OWNER)}, Idle)
  const FAMILY := State(Server(map[SET := OWNER, POD := ORPHAN], 3, 3), {Cached(SET, OWNER), Cached(POD, ORPHAN)}, Idle)
  const ORPHANED := FAMILY.(server := Server(map[POD := ORPHAN], 3, 3))
  const BEGUN := ORPHANED.(sweep := Reading(LISTED, OWNED, map[]))
  const LOOKED := ORPHANED.(sweep := Reading(LISTED, [], MISSING))
  const JUDGED := ORPHANED.(sweep := Deleting(LISTED, 0, MISSING))
  const COLLECTED := FAMILY.(server := Server(map[], 3, 3), sweep := Deleting(LISTED, 1, MISSING))

  /** An owner and its object are created, another writer removes the owner, and a
      sweep reads that it is gone and deletes the object. */
  const STATES := [EMPTY, PARENT, FAMILY, ORPHANED, BEGUN, LOOKED, JUDGED, COLLECTED]
  const STEPS := [Create(SET, [], false), Create(POD, OWNED, false), Remove(SET), Begin(LISTED), ReadOwner(false), FinishReading, Delete(false)]

  lemma FamilyIsOrphaned()
    ensures Next(WATCHED, EMPTY, Create(SET, [], false), PARENT) && Next(WATCHED, PARENT, Create(POD, OWNED, false), FAMILY)
    ensures Next(WATCHED, FAMILY, Remove(SET), ORPHANED)
  {
    assert map[SET := OWNER, POD := ORPHAN] - {SET} == map[POD := ORPHAN];
  }

  lemma OrphanIsSwept()
    ensures Next(WATCHED, ORPHANED, Begin(LISTED), BEGUN) && Next(WATCHED, BEGUN, ReadOwner(false), LOOKED)
    ensures Next(WATCHED, LOOKED, FinishReading, JUDGED)
    ensures Collects(WATCHED, JUDGED, Delete(false)) && Next(WATCHED, JUDGED, Delete(false), COLLECTED)
  {
    assert AllRefs(LISTED[1..]) == [] && AllRefs(LISTED) == OWNED + [] == OWNED;
    assert OWNED[0].Owner() == SET && OWNED[1..] == [];
    assert map[POD := ORPHAN] - {POD} == map[];
  }

  /** The collector does collect: in this run it deletes the orphan. */
  lemma OrphanIsCollected()
    ensures Run(WATCHED, STATES, STEPS) && Collects(WATCHED, STATES[6], STEPS[6])
    ensures POD in STATES[6].server.objects && POD !in STATES[7].server.objects
  {
    FamilyIsOrphaned();
    OrphanIsSwept();
    forall i | 0 <= i < |STEPS| ensures Next(WATCHED, STATES[i], STEPS[i], STATES[i + 1]) {
      assert i == 0 || i == 1 || i == 2 || i == 3 || i == 4 || i == 5 || i == 6;
    }
  }
}
