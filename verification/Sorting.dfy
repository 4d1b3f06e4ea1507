/** The stable sort by instant that the checks read a log through. */
module Sorting {
  import opened Instants

  ghost predicate Sorted<T>(s: seq<T>, at: T -> Instant) {
    forall i, j :: 0 <= i < j < |s| ==> at(s[i]) <= at(s[j])
  }

  /** Puts v after every element that is not later than it. */
  function Insert<T>(s: seq<T>, v: T, at: T -> Instant): (r: seq<T>)
    ensures |r| == |s| + 1
  {
    if s == [] then [v]
    else if at(s[|s| - 1]) <= at(v) then s + [v]
    else Insert(s[..|s| - 1], v, at) + [s[|s| - 1]]
  }

  function StableSort<T>(s: seq<T>, at: T -> Instant): (r: seq<T>)
    ensures |r| == |s|
  {
    if s == [] then [] else Insert(StableSort(s[..|s| - 1], at), s[|s| - 1], at)
  }

  lemma {:induction false} InsertSorts<T>(s: seq<T>, v: T, at: T -> Instant)
    requires Sorted(s, at)
    ensures Sorted(Insert(s, v, at), at)
    ensures forall x :: x in Insert(s, v, at) ==> x in s || x == v
  {
    if s != [] && at(s[|s| - 1]) > at(v) {
      var front, last := s[..|s| - 1], s[|s| - 1];
      InsertSorts(front, v, at);
      var r := Insert(front, v, at);
      forall i | 0 <= i < |r| ensures at(r[i]) <= at(last) {
        assert r[i] in r;
        if r[i] != v {
          var k :| 0 <= k < |front| && front[k] == r[i];
          assert s[k] == front[k];
        }
      }
    }
  }

  lemma {:induction false} StableSortSorts<T>(s: seq<T>, at: T -> Instant)
    ensures Sorted(StableSort(s, at), at)
  {
    if s != [] {
      StableSortSorts(s[..|s| - 1], at);
      InsertSorts(StableSort(s[..|s| - 1], at), s[|s| - 1], at);
    }
  }

  lemma {:induction false} InsertKeeps<T>(s: seq<T>, v: T, at: T -> Instant)
    ensures multiset(Insert(s, v, at)) == multiset(s) + multiset{v}
  {
    if s != [] && at(s[|s| - 1]) > at(v) {
      InsertKeeps(s[..|s| - 1], v, at);
      assert s == s[..|s| - 1] + [s[|s| - 1]];
    }
  }

  lemma {:induction false} StableSortKeeps<T>(s: seq<T>, at: T -> Instant)
    ensures multiset(StableSort(s, at)) == multiset(s)
  {
    if s != [] {
      var front, last := s[..|s| - 1], s[|s| - 1];
      assert s == front + [last];
      StableSortKeeps(front, at);
      InsertKeeps(StableSort(front, at), last, at);
      calc {
        multiset(StableSort(s, at));
        multiset(Insert(StableSort(front, at), last, at));
        multiset(StableSort(front, at)) + multiset{last};
        multiset(front) + multiset{last};
        multiset(front + [last]);
      }
    }
  }
}
