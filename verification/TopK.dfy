/** Selecting the k smallest elements by an integer key: nearest nodes, best peers, oldest peers. */
module TopK {
  import opened Sorting

  function Min(a: nat, b: nat): nat {
    if a <= b then a else b
  }

  /** r lists, in key order, min(count, |all|) elements of all, and no element left out has a
      smaller key than one listed. */
  ghost predicate KSmallest<T(!new)>(key: T -> int, all: multiset<T>, count: nat, r: seq<T>) {
    && |r| == Min(count, |all|)
    && multiset(r) <= all
    && Sorted(key, r)
    && forall x, y :: x in all - multiset(r) && y in r ==> key(y) <= key(x)
  }

  lemma SplitMultiset<T(!new)>(s: seq<T>, n: nat)
    requires n <= |s|
    ensures multiset(s) - multiset(s[..n]) == multiset(s[n..])
  {
    assert s == s[..n] + s[n..];
  }

  lemma SortedHalves<T(!new)>(key: T -> int, s: seq<T>, n: nat)
    requires Sorted(key, s) && n <= |s|
    ensures forall x, y :: x in s[n..] && y in s[..n] ==> key(y) <= key(x)
  {}

  /** Sorting and truncating selects the k smallest. */
  lemma TakeSortIsKSmallest<T(!new)>(key: T -> int, all: seq<T>, count: nat)
    ensures KSmallest(key, multiset(all), count, Take(count, Sort(key, all)))
  {
    var sorted := Sort(key, all);
    SortIsStableSort(key, all);
    if |sorted| > count {
      SplitMultiset(sorted, count);
      SortedHalves(key, sorted, count);
    }
  }

  lemma FirstIsSmallest<T(!new)>(key: T -> int, all: multiset<T>, count: nat, r: seq<T>, x: T)
    requires KSmallest(key, all, count, r) && x in all && count > 0
    ensures r != [] && r[0] in all && key(r[0]) <= key(x)
  {
    assert r[0] in multiset(r);
    if x in r {
      var j :| 0 <= j < |r| && r[j] == x;
    } else {
      assert x !in multiset(r) && x in all - multiset(r) && r[0] in r;
    }
  }

  /** An element is listed, unless as many are as asked for and none of them has a larger key. */
  lemma SmallestOrFull<T(!new)>(key: T -> int, all: multiset<T>, count: nat, r: seq<T>, x: T)
    requires KSmallest(key, all, count, r) && x in all
    ensures x in r || (|r| == count < |all| && forall y :: y in r ==> key(y) <= key(x))
  {
    if x !in r {
      assert x !in multiset(r) && x in all - multiset(r);
      assert |all| == |all - multiset(r)| + |multiset(r)| by {
        assert all == (all - multiset(r)) + multiset(r);
      }
      assert |all - multiset(r)| > 0;
    }
  }

  /** r lists elements of s that satisfy q, by key, at most n, and leaves one out only when it lists n, none of them
      with
      a larger key. */
  ghost predicate FirstOf<T(!new)>(q: T -> bool, key: T -> int, s: seq<T>, n: nat, r: seq<T>) {
    && |r| <= n && multiset(r) <= multiset(s) && Sorted(key, r) && (forall x :: x in r ==> q(x))
    && (forall x :: x in s && q(x) && x !in r ==> |r| == n)
    && forall x, y :: x in s && q(x) && x !in r && y in r ==> key(y) <= key(x)
  }

  lemma FirstOfHas<T(!new)>(q: T -> bool, key: T -> int, s: seq<T>, n: nat, r: seq<T>, x: T)
    requires FirstOf(q, key, s, n, r) && x in s && q(x)
    ensures x in r || (|r| == n && forall y :: y in r ==> key(y) <= key(x))
  {}

  lemma TakeFilterIsFirst<T(!new)>(q: T -> bool, key: T -> int, s: seq<T>, n: nat)
    requires Sorted(key, s)
    ensures FirstOf(q, key, s, n, Take(n, Filter(q, s)))
  {
    FilterSorted(q, key, s);
    FilterWithin(q, s);
    PrefixIsSmallest(key, Filter(q, s), n);
    hide Filter, Sorted, Take;
  }

  lemma PrefixIsSmallest<T(!new)>(key: T -> int, s: seq<T>, n: nat)
    requires Sorted(key, s)
    ensures var r := Take(n, s);
      |r| <= n && Sorted(key, r) && multiset(r) <= multiset(s) && (forall x :: x in r ==> x in s) &&
      forall x, y :: x in s && x !in r && y in r ==> key(y) <= key(x)
    ensures forall x :: x in s && x !in Take(n, s) ==> |Take(n, s)| == n
  {
    var r := Take(n, s);
    assert s == r + s[|r|..];
    forall x, y | x in s && x !in r && y in r
      ensures key(y) <= key(x)
    {
      var i :| 0 <= i < |r| && r[i] == y;
      var j :| 0 <= j < |s| && s[j] == x;
      assert s[i] == y;
    }
  }

  lemma {:induction false} FilterWithin<T(!new)>(q: T -> bool, s: seq<T>)
    ensures multiset(Filter(q, s)) <= multiset(s)
  {
    if s == [] {
    } else {
      FilterWithin(q, s[1..]);
      assert s == [s[0]] + s[1..];
    }
  }

  /** The only two smallest elements come first. */
  lemma TwoSmallestFirst<T(!new)>(key: T -> int, all: multiset<T>, count: nat, r: seq<T>, a: T, b: T)
    requires KSmallest(key, all, count, r) && count >= 2
    requires a != b && b in all && all[a] == 1 && key(a) < key(b)
    requires forall x :: x in all && x != a && x != b ==> key(b) < key(x)
    ensures |r| >= 2 && r[0] == a && r[1] == b
  {
    FirstIsSmallest(key, all, count, r, a);
    AtLeastTwo(all, a, b);
    assert r[1] in multiset(r);
    assert multiset(r)[a] <= 1;
    NotAgain(r, a);
    SecondAtMost(key, all, count, r, b);
  }

  lemma AtLeastTwo<T(!new)>(all: multiset<T>, a: T, b: T)
    requires a != b && a in all && b in all
    ensures |all| >= 2
  {
    assert all == (all - multiset{a, b}) + multiset{a, b};
  }

  lemma NotAgain<T(!new)>(r: seq<T>, a: T)
    requires |r| >= 2 && r[0] == a && multiset(r)[a] <= 1
    ensures r[1] != a
  {
    assert r == [r[0], r[1]] + r[2..];
  }

  lemma SecondAtMost<T(!new)>(key: T -> int, all: multiset<T>, count: nat, r: seq<T>, x: T)
    requires KSmallest(key, all, count, r) && |r| >= 2 && x in all && r[0] != x
    ensures key(r[1]) <= key(x)
  {
    if x in r {
      var j :| 0 <= j < |r| && r[j] == x;
    } else {
      assert x in all - multiset(r) && r[1] in r;
    }
  }

  lemma SubMultisetSize<T(!new)>(a: multiset<T>, b: multiset<T>)
    requires a <= b
    ensures |a| <= |b|
  {
    assert b == a + (b - a);
  }

  /** Any two selections over the same multiset list the same keys in the same order. */
  lemma KSmallestUnique<T(!new)>(key: T -> int, all: multiset<T>, count: nat, r: seq<T>, s: seq<T>)
    requires KSmallest(key, all, count, r) && KSmallest(key, all, count, s)
    ensures |r| == |s|
    ensures forall i :: 0 <= i < |r| ==> key(r[i]) == key(s[i])
  {
    forall i | 0 <= i < |r|
      ensures key(r[i]) == key(s[i])
    {
      NotSmaller(key, all, count, r, s, i);
      NotSmaller(key, all, count, s, r, i);
    }
  }

  /** Position i of one selection is no smaller than position i of another: otherwise the first
      i + 1 elements of r would all have to sit among the first i elements of s. */
  lemma NotSmaller<T(!new)>(key: T -> int, all: multiset<T>, count: nat, r: seq<T>, s: seq<T>, i: nat)
    requires KSmallest(key, all, count, r) && KSmallest(key, all, count, s) && i < |r|
    ensures key(r[i]) >= key(s[i])
  {
    if key(r[i]) < key(s[i]) {
      forall x
        ensures multiset(r[..i + 1])[x] <= multiset(s[..i])[x]
      {
        if x in r[..i + 1] {
          CrowdsIn(key, all, count, r, s, i, x);
        }
      }
      SubMultisetSize(multiset(r[..i + 1]), multiset(s[..i]));
    }
  }

  lemma CountHalves<T(!new)>(s: seq<T>, n: nat, x: T)
    requires n <= |s|
    ensures multiset(s)[x] == multiset(s[..n])[x] + multiset(s[n..])[x]
  {
    assert s == s[..n] + s[n..];
  }

  /** What is smaller than s[i] can only stand before it. */
  lemma SmallerStandsBefore<T(!new)>(key: T -> int, s: seq<T>, i: nat, x: T)
    requires Sorted(key, s) && i < |s| && key(x) < key(s[i])
    ensures multiset(s)[x] == multiset(s[..i])[x]
  {
    CountHalves(s, i, x);
    forall k | 0 <= k < |s[i..]|
      ensures s[i..][k] != x
    {
      assert key(s[i]) <= key(s[i + k]);
    }
    assert x !in s[i..];
  }

  /** What is smaller than a selected element is selected too. */
  lemma SmallerIsSelected<T(!new)>(key: T -> int, all: multiset<T>, count: nat, s: seq<T>, i: nat, x: T)
    requires KSmallest(key, all, count, s) && i < |s| && key(x) < key(s[i])
    ensures all[x] <= multiset(s)[x]
  {}

  lemma FrontIsSmaller<T(!new)>(key: T -> int, r: seq<T>, i: nat, x: T)
    requires Sorted(key, r) && i < |r| && x in r[..i + 1]
    ensures key(x) <= key(r[i])
  {}

  lemma SelectedAtMost<T(!new)>(key: T -> int, all: multiset<T>, count: nat, r: seq<T>, x: T)
    requires KSmallest(key, all, count, r)
    ensures multiset(r)[x] <= all[x]
  {}

  lemma CrowdsIn<T(!new)>(key: T -> int, all: multiset<T>, count: nat, r: seq<T>, s: seq<T>, i: nat, x: T)
    requires KSmallest(key, all, count, r) && KSmallest(key, all, count, s) && i < |r|
    requires key(r[i]) < key(s[i]) && x in r[..i + 1]
    ensures multiset(r[..i + 1])[x] <= multiset(s[..i])[x]
  {
    FrontIsSmaller(key, r, i, x);
    assert Sorted(key, s);
    SelectedAtMost(key, all, count, r, x);
    hide KSmallest, Sorted;
    CountHalves(r, i + 1, x);
    SmallerStandsBefore(key, s, i, x);
    SmallerIsSelected(key, all, count, s, i, x);
  }
}
