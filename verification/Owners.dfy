/** What the garbage-collector emulation knows of an object and its owners, and
    when it holds an object collectible.
 */
module Owners {
  /** A UID the API server issued. 0 stands for the empty UID. */
  type Uid = nat

  /** An owner within the run namespace. A reference may name the owner at any
      served version, so the key holds none. */
  datatype Key = Key(kind: string, name: string)

  datatype Reference = Reference(kind: string, version: string, name: string, uid: Uid) {
    function Owner(): Key { Key(kind, name) }
  }

  datatype Object = Object(uid: Uid, resourceVersion: nat, refs: seq<Reference>, finalizers: bool, deleting: bool)

  /** A watched object as a watch delivered it. */
  datatype Cached = Cached(key: Key, item: Object)

  /** The kinds the collector watches and the versions the API server serves. */
  datatype Scheme = Scheme(watched: set<string>, served: set<(string, string)>) {
    predicate Resolvable(ref: Reference) {
      ref.kind in watched && (ref.kind, ref.version) in served
    }
  }

  /** What one live read found. UID 0 says the owner is gone. */
  datatype Read = Read(uid: Uid, unreadable: bool)

  type Reads = map<Key, Read>

  /** Only an owner read and found missing, or found under another UID, is gone. */
  predicate FoundGone(scheme: Scheme, found: Reads, ref: Reference) {
    && scheme.Resolvable(ref)
    && ref.Owner() in found
    && !found[ref.Owner()].unreadable
    && found[ref.Owner()].uid != ref.uid
  }

  predicate Collectible(scheme: Scheme, found: Reads, refs: seq<Reference>) {
    refs != [] && forall ref :: ref in refs ==> FoundGone(scheme, found, ref)
  }

  /** The loop that decides whether an object must be deleted, and names the
      owners it cannot resolve. An object is collectible only where it names none. */
  method ComputeCollectible(scheme: Scheme, found: Reads, refs: seq<Reference>)
    returns (collect: bool, unresolved: seq<Reference>)
    ensures collect == Collectible(scheme, found, refs)
    ensures forall ref :: ref in unresolved <==> ref in refs && !scheme.Resolvable(ref)
  {
    collect := |refs| > 0;
    unresolved := [];
    for i := 0 to |refs|
      invariant collect == (|refs| > 0 && forall j :: 0 <= j < i ==> FoundGone(scheme, found, refs[j]))
      invariant forall ref :: ref in unresolved <==> ref in refs[..i] && !scheme.Resolvable(ref)
    {
      var ref := refs[i];
      assert refs[..i + 1] == refs[..i] + [ref];
      if !scheme.Resolvable(ref) {
        unresolved := unresolved + [ref];
        collect := false;
        continue;
      }
      if ref.Owner() !in found || found[ref.Owner()].unreadable || found[ref.Owner()].uid == ref.uid {
        collect := false;
      }
    }
    assert refs[..|refs|] == refs;
  }

  /** Whether the object a reference names by kind, name and UID exists. */
  predicate Exists(objects: map<Key, Object>, ref: Reference) {
    ref.Owner() in objects && objects[ref.Owner()].uid == ref.uid
  }
}
