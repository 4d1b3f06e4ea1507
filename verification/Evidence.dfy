/** The evidence a restart's report quotes: at most a bound of differences, taken
    from the changed objects in turn.
 */
module Evidence {
  const MAX_EVIDENCE: nat := 20

  function Sum(s: seq<nat>): nat {
    if s == [] then 0 else Sum(s[..|s| - 1]) + s[|s| - 1]
  }

  function Least(a: int, b: int): int {
    if a < b then a else b
  }

  /** After `rounds` whole turns and one that has passed the objects before `next`,
      each object has given one difference a turn until it ran out. */
  ghost predicate Dealt(kept: seq<nat>, sizes: seq<nat>, rounds: nat, next: nat) {
    && |kept| == |sizes|
    && forall i :: 0 <= i < |sizes| ==> kept[i] == Least(sizes[i], if i < next then rounds + 1 else rounds)
  }

  /** Max-min fairness: an object with some left out keeps no fewer than any object
      after it, and at most one fewer than any object before it. */
  ghost predicate Fair(kept: seq<nat>, sizes: seq<nat>) {
    && |kept| == |sizes|
    && (forall i :: 0 <= i < |sizes| ==> kept[i] <= sizes[i])
    && (forall i, j :: 0 <= i < |sizes| && 0 <= j < |sizes| && kept[i] < sizes[i] ==> kept[j] <= kept[i] + if j < i then 1 else 0)
  }

  lemma DealtIsFair(kept: seq<nat>, sizes: seq<nat>, rounds: nat, next: nat)
    requires Dealt(kept, sizes, rounds, next)
    ensures Fair(kept, sizes)
  {
  }

  lemma {:induction false} SumOfUpdate(s: seq<nat>, i: nat, n: nat)
    requires i < |s|
    ensures Sum(s[i := n]) == Sum(s) - s[i] + n
  {
    var t := s[i := n];
    if i < |s| - 1 {
      SumOfUpdate(s[..|s| - 1], i, n);
      assert t[..|s| - 1] == s[..|s| - 1][i := n];
    } else {
      assert t[..|s| - 1] == s[..|s| - 1];
    }
  }

  lemma {:induction false} SumBelow(s: seq<nat>, t: seq<nat>)
    requires |s| == |t| && forall i :: 0 <= i < |s| ==> s[i] <= t[i]
    ensures Sum(s) <= Sum(t)
    ensures Sum(s) == Sum(t) ==> s == t
  {
    if s != [] {
      SumBelow(s[..|s| - 1], t[..|t| - 1]);
      assert s == s[..|s| - 1] + [s[|s| - 1]] && t == t[..|t| - 1] + [t[|t| - 1]];
    }
  }

  lemma {:induction false} SumOfNothing(s: seq<nat>)
    requires forall i :: 0 <= i < |s| ==> s[i] == 0
    ensures Sum(s) == 0
  {
    if s != [] {
      SumOfNothing(s[..|s| - 1]);
    }
  }

  /** One turn over the objects. It keeps one more of at least one object. */
  method Turn(kept: array<nat>, sizes: seq<nat>, n0: nat, ghost rounds: nat) returns (n: nat, ghost next: nat)
    requires kept.Length == |sizes| && Dealt(kept[..], sizes, rounds, 0)
    requires n0 == Sum(kept[..]) < MAX_EVIDENCE && n0 < Sum(sizes)
    modifies kept
    ensures n == Sum(kept[..]) && n0 < n <= MAX_EVIDENCE
    ensures Dealt(kept[..], sizes, rounds, next)
    ensures n < MAX_EVIDENCE ==> next == |sizes|
  {
    n, next := n0, 0;
    ghost var before := kept[..];
    for i := 0 to |sizes|
      invariant n == Sum(kept[..]) && n0 <= n <= MAX_EVIDENCE
      invariant next <= i && Dealt(kept[..], sizes, rounds, next)
      invariant n < MAX_EVIDENCE ==> next == i
      invariant n == n0 ==> kept[..] == before && forall j :: 0 <= j < i ==> before[j] == sizes[j]
    {
      ghost var was := kept[..];
      if kept[i] < sizes[i] && n < MAX_EVIDENCE {
        SumOfUpdate(was, i, kept[i] + 1);
        kept[i] := kept[i] + 1;
        n := n + 1;
        assert kept[..] == was[i := was[i] + 1];
        next := i + 1;
      } else if n < MAX_EVIDENCE {
        next := i + 1;
      }
    }
    assert n == n0 ==> before == sizes;
  }

  /** How many differences of each object are kept: as many in all as the bound
      allows, never more than the object has, shared out fairly. */
  method Allot(sizes: seq<nat>) returns (kept: seq<nat>)
    ensures Sum(kept) == Least(Sum(sizes), MAX_EVIDENCE)
    ensures Fair(kept, sizes)
  {
    var a := new nat[|sizes|](i => 0);
    var n: nat := 0;
    ghost var rounds: nat, next: nat := 0, 0;
    SumOfNothing(a[..]);
    while n < Least(Sum(sizes), MAX_EVIDENCE)
      invariant n == Sum(a[..]) && n <= MAX_EVIDENCE
      invariant Dealt(a[..], sizes, rounds, next)
      invariant n < MAX_EVIDENCE ==> next == 0
      decreases MAX_EVIDENCE - n
    {
      n, next := Turn(a, sizes, n, rounds);
      if n < MAX_EVIDENCE {
        rounds, next := rounds + 1, 0;
      }
    }
    kept := a[..];
    DealtIsFair(kept, sizes, rounds, next);
    SumBelow(kept, sizes);
  }

  function Sizes<T>(changed: seq<seq<T>>): (sizes: seq<nat>)
    ensures |sizes| == |changed|
  {
    seq(|changed|, i requires 0 <= i < |changed| => |changed[i]|)
  }

  function Concat<T>(parts: seq<seq<T>>): seq<T> {
    if parts == [] then [] else Concat(parts[..|parts| - 1]) + parts[|parts| - 1]
  }

  /** The first `kept` differences of each object. */
  function Cut<T>(changed: seq<seq<T>>, kept: seq<nat>): (parts: seq<seq<T>>)
    requires |kept| == |changed| && forall i :: 0 <= i < |changed| ==> kept[i] <= |changed[i]|
    ensures |parts| == |changed|
  {
    seq(|changed|, i requires 0 <= i < |changed| => changed[i][..kept[i]])
  }

  /** The excerpt quotes a fair share of each object's differences, the first ones
      in order, and says how many there were. */
  method Spread<T>(changed: seq<seq<T>>) returns (quoted: seq<T>, total: nat, kept: seq<nat>)
    ensures total == Sum(Sizes(changed))
    ensures Sum(kept) == Least(total, MAX_EVIDENCE) && Fair(kept, Sizes(changed))
    ensures |quoted| == Sum(kept) && quoted == Concat(Cut(changed, kept))
  {
    var sizes := Sizes(changed);
    total := 0;
    for i := 0 to |changed|
      invariant total == Sum(sizes[..i])
    {
      assert sizes[..i + 1][..i] == sizes[..i];
      total := total + |changed[i]|;
    }
    assert sizes[..|changed|] == sizes;
    kept := Allot(sizes);
    quoted := Quote(changed, kept);
  }

  method Quote<T>(changed: seq<seq<T>>, kept: seq<nat>) returns (quoted: seq<T>)
    requires |kept| == |changed| && forall i :: 0 <= i < |changed| ==> kept[i] <= |changed[i]|
    ensures |quoted| == Sum(kept) && quoted == Concat(Cut(changed, kept))
  {
    quoted := [];
    ghost var parts := Cut(changed, kept);
    for i := 0 to |changed|
      invariant quoted == Concat(parts[..i]) && |quoted| == Sum(kept[..i])
    {
      assert parts[..i + 1][..i] == parts[..i] && kept[..i + 1][..i] == kept[..i];
      quoted := quoted + changed[i][..kept[i]];
    }
    assert parts[..|changed|] == parts && kept[..|changed|] == kept;
  }
}
