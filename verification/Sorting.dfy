/** Stable sorting by an integer key: what `sort_by_key`, `sort_by` with `Reverse`
    and `sort_by` with a distance comparator all compute. */
module Sorting {

  ghost predicate Sorted<T(!new)>(key: T -> int, s: seq<T>) {
    forall i, j :: 0 <= i < j < |s| ==> key(s[i]) <= key(s[j])
  }

  function Insert<T(!new)>(key: T -> int, x: T, s: seq<T>): (r: seq<T>)
    ensures |r| == |s| + 1
  {
    if s == [] || key(x) <= key(s[0]) then [x] + s else [s[0]] + Insert(key, x, s[1..])
  }

  function Sort<T(!new)>(key: T -> int, s: seq<T>): (r: seq<T>)
    ensures |r| == |s|
  {
    if s == [] then [] else Insert(key, s[0], Sort(key, s[1..]))
  }

  /** The subsequence of elements that satisfy p (`Vec::retain`, `Iterator::filter`). */
  function Filter<T(!new)>(p: T -> bool, s: seq<T>): (r: seq<T>)
    ensures |r| <= |s|
    ensures forall x :: x in r <==> x in s && p(x)
  {
    if s == [] then []
    else if p(s[0]) then [s[0]] + Filter(p, s[1..])
    else Filter(p, s[1..])
  }

  /** The first position whose element satisfies p, or |s| (`Iterator::position`). */
  function Position<T(!new)>(p: T -> bool, s: seq<T>): (i: nat)
    ensures i <= |s|
    ensures i < |s| ==> p(s[i])
    ensures forall j :: 0 <= j < i ==> !p(s[j])
  {
    if s == [] || p(s[0]) then 0 else 1 + Position(p, s[1..])
  }

  lemma PositionUnique<T(!new)>(p: T -> bool, s: seq<T>, i: nat)
    requires i <= |s| && (forall j :: 0 <= j < i ==> !p(s[j])) && (i < |s| ==> p(s[i]))
    ensures Position(p, s) == i
  {}

  function Take<T(!new)>(n: nat, s: seq<T>): (r: seq<T>) {
    if |s| <= n then s else s[..n]
  }

  /** The elements whose key is k, in order: two sequences that agree on every such
      class differ only in how the classes interleave. */
  function WithKey<T(!new)>(key: T -> int, k: int, s: seq<T>): seq<T> {
    if s == [] then []
    else (if key(s[0]) == k then [s[0]] else []) + WithKey(key, k, s[1..])
  }

  lemma {:induction false} InsertPermutes<T(!new)>(key: T -> int, x: T, s: seq<T>)
    ensures multiset(Insert(key, x, s)) == multiset{x} + multiset(s)
    ensures forall y :: y in Insert(key, x, s) <==> y == x || y in s
  {
    if s == [] || key(x) <= key(s[0]) {
    } else {
      InsertPermutes(key, x, s[1..]);
      assert s == [s[0]] + s[1..];
    }
  }

  lemma {:induction false} InsertSorts<T(!new)>(key: T -> int, x: T, s: seq<T>)
    requires Sorted(key, s)
    ensures Sorted(key, Insert(key, x, s))
  {
    if s == [] || key(x) <= key(s[0]) {
    } else {
      InsertSorts(key, x, s[1..]);
      InsertPermutes(key, x, s[1..]);
      var r := Insert(key, x, s[1..]);
      forall y | y in r
        ensures key(s[0]) <= key(y)
      {
        assert y == x || y in s[1..];
      }
    }
  }

  lemma {:induction false} InsertStable<T(!new)>(key: T -> int, x: T, s: seq<T>, k: int)
    requires Sorted(key, s)
    ensures WithKey(key, k, Insert(key, x, s)) == WithKey(key, k, [x] + s)
  {
    if s == [] || key(x) <= key(s[0]) {
    } else {
      InsertStable(key, x, s[1..], k);
      var r := Insert(key, x, s);
      assert r[1..] == Insert(key, x, s[1..]) && r[0] == s[0];
      assert ([x] + s)[1..] == s && ([x] + s[1..])[1..] == s[1..];
    }
  }

  /** Sorting permutes, orders, and keeps the relative order of equal keys. */
  lemma {:induction false} SortIsStableSort<T(!new)>(key: T -> int, s: seq<T>)
    ensures Sorted(key, Sort(key, s))
    ensures multiset(Sort(key, s)) == multiset(s)
    ensures forall k :: WithKey(key, k, Sort(key, s)) == WithKey(key, k, s)
  {
    if s == [] {
    } else {
      SortIsStableSort(key, s[1..]);
      var t := Sort(key, s[1..]);
      InsertSorts(key, s[0], t);
      InsertPermutes(key, s[0], t);
      assert s == [s[0]] + s[1..];
      forall k
        ensures WithKey(key, k, Sort(key, s)) == WithKey(key, k, s)
      {
        InsertStable(key, s[0], t, k);
        WithKeyCons(key, k, s[0], t);
      }
    }
  }

  lemma WithKeyCons<T(!new)>(key: T -> int, k: int, x: T, t: seq<T>)
    ensures WithKey(key, k, [x] + t) == (if key(x) == k then [x] else []) + WithKey(key, k, t)
  {
    assert ([x] + t)[1..] == t;
  }

  lemma {:induction false} WithKeyMembers<T(!new)>(key: T -> int, k: int, s: seq<T>)
    ensures forall x :: x in WithKey(key, k, s) <==> x in s && key(x) == k
  {
    if s == [] {
    } else {
      WithKeyMembers(key, k, s[1..]);
      assert s == [s[0]] + s[1..];
    }
  }

  lemma SameEmptiness<T(!new)>(key: T -> int, s: seq<T>, t: seq<T>)
    requires forall k :: WithKey(key, k, s) == WithKey(key, k, t)
    ensures s == [] <==> t == []
  {
    var a := if s == [] then [] else WithKey(key, key(s[0]), s);
    var b := if t == [] then [] else WithKey(key, key(t[0]), t);
  }

  /** There is only one stable sort: order plus class-wise agreement determines the result. */
  lemma {:induction false} StableSortUnique<T(!new)>(key: T -> int, s: seq<T>, t: seq<T>)
    requires Sorted(key, s) && Sorted(key, t)
    requires forall k :: WithKey(key, k, s) == WithKey(key, k, t)
    ensures s == t
  {
    SameEmptiness(key, s, t);
    if s == [] {
    } else {
      WithKeyMembers(key, key(t[0]), s);
      WithKeyMembers(key, key(t[0]), t);
      WithKeyMembers(key, key(s[0]), s);
      WithKeyMembers(key, key(s[0]), t);
      assert s[0] in WithKey(key, key(s[0]), t);
      assert t[0] in WithKey(key, key(t[0]), s);
      assert key(s[0]) == key(t[0]);
      var k0 := key(s[0]);
      assert WithKey(key, k0, s)[0] == s[0];
      assert WithKey(key, k0, t)[0] == t[0];
      forall k
        ensures WithKey(key, k, s[1..]) == WithKey(key, k, t[1..])
      {
        assert WithKey(key, k, s) == WithKey(key, k, t);
        if k == k0 {
          assert WithKey(key, k, s)[1..] == WithKey(key, k, s[1..]);
          assert WithKey(key, k, t)[1..] == WithKey(key, k, t[1..]);
        } else {
          assert WithKey(key, k, s) == WithKey(key, k, s[1..]);
          assert WithKey(key, k, t) == WithKey(key, k, t[1..]);
        }
      }
      StableSortUnique(key, s[1..], t[1..]);
      assert s == [s[0]] + s[1..] && t == [t[0]] + t[1..];
    }
  }

  lemma SortMembers<T(!new)>(key: T -> int, s: seq<T>)
    ensures forall x :: x in Sort(key, s) <==> x in s
  {
    SortIsStableSort(key, s);
    forall x
      ensures x in Sort(key, s) <==> x in s
    {
      assert x in Sort(key, s) <==> x in multiset(Sort(key, s));
      assert x in s <==> x in multiset(s);
    }
  }

  lemma {:induction false} FilterConcat<T(!new)>(p: T -> bool, s: seq<T>, t: seq<T>)
    ensures Filter(p, s + t) == Filter(p, s) + Filter(p, t)
  {
    if s == [] {
      assert s + t == t;
    } else {
      assert (s + t)[1..] == s[1..] + t;
      FilterConcat(p, s[1..], t);
    }
  }

  /** Filtering by two complementary properties splits a sequence into two multisets. */
  lemma {:induction false} FilterSplits<T(!new)>(p: T -> bool, q: T -> bool, s: seq<T>)
    requires forall x :: x in s ==> (p(x) <==> !q(x))
    ensures multiset(Filter(p, s)) + multiset(Filter(q, s)) == multiset(s)
  {
    if s == [] {
    } else {
      FilterSplits(p, q, s[1..]);
      assert s == [s[0]] + s[1..];
    }
  }

  lemma {:induction false} FilterAll<T(!new)>(p: T -> bool, s: seq<T>)
    requires forall x :: x in s ==> p(x)
    ensures Filter(p, s) == s
  {
    if s == [] {
    } else {
      FilterAll(p, s[1..]);
      assert s == [s[0]] + s[1..];
    }
  }

  /** Whoever fails the property is missing. */
  lemma {:induction false} FilterSome<T(!new)>(p: T -> bool, s: seq<T>, x: T)
    requires x in s && !p(x)
    ensures |Filter(p, s)| < |s|
  {
    if x == s[0] {
    } else {
      FilterSome(p, s[1..], x);
    }
  }

  lemma {:induction false} FilterSorted<T(!new)>(p: T -> bool, key: T -> int, s: seq<T>)
    requires Sorted(key, s)
    ensures Sorted(key, Filter(p, s))
  {
    if s == [] {
    } else {
      FilterSorted(p, key, s[1..]);
      forall x | x in Filter(p, s[1..])
        ensures key(s[0]) <= key(x)
      {
        assert x in s[1..];
      }
    }
  }

  /** Replacing one element trades it for the new one. */
  lemma UpdatePermutes<T(!new)>(s: seq<T>, i: nat, x: T)
    requires i < |s|
    ensures multiset(s[i := x]) + multiset{s[i]} == multiset(s) + multiset{x}
  {}

  /** Removing one element. */
  function Without<T(!new)>(s: seq<T>, i: nat): (r: seq<T>)
    requires i < |s|
    ensures |r| == |s| - 1
    ensures multiset(r) + multiset{s[i]} == multiset(s)
  {
    assert s == s[..i] + [s[i]] + s[i + 1..];
    s[..i] + s[i + 1..]
  }

  // ---- distinctness of an attribute ----

  ghost predicate DistinctBy<T(!new), A>(f: T -> A, s: seq<T>) {
    forall i, j :: 0 <= i < j < |s| ==> f(s[i]) != f(s[j])
  }

  lemma {:induction false} InsertKeepsDistinct<T(!new), A>(f: T -> A, key: T -> int, x: T, s: seq<T>)
    requires DistinctBy(f, s) && forall y :: y in s ==> f(y) != f(x)
    ensures DistinctBy(f, Insert(key, x, s))
  {
    if s == [] || key(x) <= key(s[0]) {
    } else {
      InsertKeepsDistinct(f, key, x, s[1..]);
      InsertPermutes(key, x, s[1..]);
      var r := Insert(key, x, s[1..]);
      forall y | y in r
        ensures f(y) != f(s[0])
      {
        assert y == x || y in s[1..];
      }
    }
  }

  lemma {:induction false} SortKeepsDistinct<T(!new), A>(f: T -> A, key: T -> int, s: seq<T>)
    requires DistinctBy(f, s)
    ensures DistinctBy(f, Sort(key, s))
  {
    if s == [] {
    } else {
      SortKeepsDistinct(f, key, s[1..]);
      SortMembers(key, s[1..]);
      InsertKeepsDistinct(f, key, s[0], Sort(key, s[1..]));
    }
  }

  lemma {:induction false} FilterKeepsDistinct<T(!new), A>(f: T -> A, p: T -> bool, s: seq<T>)
    requires DistinctBy(f, s)
    ensures DistinctBy(f, Filter(p, s))
  {
    if s == [] {
    } else {
      FilterKeepsDistinct(f, p, s[1..]);
      forall x | x in Filter(p, s[1..])
        ensures f(x) != f(s[0])
      {
        assert x in s[1..];
      }
    }
  }
}
