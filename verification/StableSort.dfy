/**
  Python's `sorted(xs, key=...)` for keys that are pairs of integers compared
  lexicographically: a stable sort.
 */
module StableSort {
  import opened Collections

  type Key = (int, int)

  predicate Leq(a: Key, b: Key) {
    a.0 < b.0 || (a.0 == b.0 && a.1 <= b.1)
  }

  ghost predicate Sorted<T>(key: T -> Key, s: seq<T>) {
    forall i, j :: 0 <= i < j < |s| ==> Leq(key(s[i]), key(s[j]))
  }

  /** Put `x` behind everything whose key is not larger. */
  function Insert<T>(key: T -> Key, x: T, s: seq<T>): (r: seq<T>)
    ensures multiset(r) == multiset(s) + multiset{x}
    ensures |r| == |s| + 1
  {
    if s == [] then [x]
    else
      var k := |s| - 1;
      assert s == s[..k] + [s[k]];
      if Leq(key(s[k]), key(x)) then s + [x] else Insert(key, x, s[..k]) + [s[k]]
  }

  function Sort<T>(key: T -> Key, s: seq<T>): (r: seq<T>)
    ensures multiset(r) == multiset(s)
    ensures |r| == |s|
  {
    if s == [] then []
    else
      var k := |s| - 1;
      assert s == s[..k] + [s[k]];
      Insert(key, s[k], Sort(key, s[..k]))
  }

  lemma {:induction false} InsertedFrom<T>(key: T -> Key, x: T, s: seq<T>, i: nat)
    requires i <= |s|
    ensures Insert(key, x, s)[i] == x || Insert(key, x, s)[i] in s
  {
    var r := Insert(key, x, s);
    assert r[i] in multiset(r);
  }

  lemma {:induction false} InsertKeepsSorted<T>(key: T -> Key, x: T, s: seq<T>)
    requires Sorted(key, s)
    ensures Sorted(key, Insert(key, x, s))
  {
    if s != [] {
      var k := |s| - 1;
      if !Leq(key(s[k]), key(x)) {
        InsertKeepsSorted(key, x, s[..k]);
        var front := Insert(key, x, s[..k]);
        forall i | 0 <= i < |front|
          ensures Leq(key(front[i]), key(s[k]))
        {
          InsertedFrom(key, x, s[..k], i);
        }
      }
    }
  }

  lemma {:induction false} SortSorts<T>(key: T -> Key, s: seq<T>)
    ensures Sorted(key, Sort(key, s))
  {
    if s != [] {
      SortSorts(key, s[..|s| - 1]);
      InsertKeepsSorted(key, s[|s| - 1], Sort(key, s[..|s| - 1]));
    }
  }

  lemma {:induction false} DistinctCounts<T>(s: seq<T>)
    requires Distinct(s)
    ensures forall x :: x in s ==> multiset(s)[x] == 1
  {
    if s != [] {
      var k := |s| - 1;
      DistinctCounts(s[..k]);
      assert s == s[..k] + [s[k]];
      assert s[k] !in s[..k];
      assert s[k] !in multiset(s[..k]);
    }
  }

  lemma CountedTwice<T>(r: seq<T>, i: nat, j: nat)
    requires i < j < |r| && r[i] == r[j]
    ensures multiset(r)[r[i]] >= 2
  {
    assert r == r[..i] + [r[i]] + r[i + 1..j] + [r[j]] + r[j + 1..];
  }

  /** Rearranging a sequence keeps its members and its distinctness. */
  lemma PermutationFacts<T>(s: seq<T>, r: seq<T>)
    requires multiset(s) == multiset(r)
    ensures forall x :: x in s <==> x in r
    ensures Distinct(s) ==> Distinct(r)
  {
    forall x
      ensures x in s <==> x in r
    {
      assert x in s <==> x in multiset(s);
      assert x in r <==> x in multiset(r);
    }
    if Distinct(s) {
      DistinctCounts(s);
      forall i, j | 0 <= i < j < |r|
        ensures r[i] != r[j]
      {
        if r[i] == r[j] {
          CountedTwice(r, i, j);
        }
      }
    }
  }
}
