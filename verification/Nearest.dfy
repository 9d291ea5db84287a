/** Exact k-nearest queries under the XOR metric. */
module Nearest {
  import opened XorMetric
  import opened Sorting
  import opened TopK

  /** The sort key of a query: how far an element's id is from the target. */
  function DistanceTo<T>(idOf: T -> NodeId, target: NodeId): T -> int {
    (x: T) => Distance(idOf(x), target)
  }

  /** Keep the healthy elements, order them by distance, cut to count. The comparator of the source
      never answers "equal"; a sort only asks it whether it answers "less", so the order is the
      stable order by distance. */
  function Closest<T(!new)>(idOf: T -> NodeId, healthy: T -> bool, all: seq<T>, target: NodeId, count: nat): seq<T> {
    Take(count, Sort(DistanceTo(idOf, target), Filter(healthy, all)))
  }

  /** r answers the query "the count healthy elements nearest to the target". */
  ghost predicate KNearest<T(!new)>(idOf: T -> NodeId, healthy: T -> bool, all: seq<T>,
                                    target: NodeId, count: nat, r: seq<T>) {
    KSmallest(DistanceTo(idOf, target), multiset(Filter(healthy, all)), count, r)
  }

  lemma ClosestIsKNearest<T(!new)>(idOf: T -> NodeId, healthy: T -> bool, all: seq<T>, target: NodeId, count: nat)
    ensures KNearest(idOf, healthy, all, target, count, Closest(idOf, healthy, all, target, count))
  {
    TakeSortIsKSmallest(DistanceTo(idOf, target), Filter(healthy, all), count);
  }

  /** No healthy element is nearer than the first one answered. */
  lemma FirstIsNearest<T(!new)>(idOf: T -> NodeId, healthy: T -> bool, all: seq<T>, target: NodeId, count: nat,
                         r: seq<T>, x: T)
    requires KNearest(idOf, healthy, all, target, count, r) && x in all && healthy(x) && count > 0
    ensures r != [] && r[0] in all && Distance(idOf(r[0]), target) <= Distance(idOf(x), target)
  {
    var among := multiset(Filter(healthy, all));
    assert x in Filter(healthy, all) && x in among;
    FirstIsSmallest(DistanceTo(idOf, target), among, count, r, x);
    assert r[0] in Filter(healthy, all);
  }

  /** A healthy element is among those answered, unless the answer is full of elements at least as near; so surely when
      there is room for all. */
  lemma NearestOrFull<T(!new)>(idOf: T -> NodeId, healthy: T -> bool, all: seq<T>, target: NodeId, count: nat,
                               r: seq<T>, x: T)
    requires KNearest(idOf, healthy, all, target, count, r) && x in all && healthy(x)
    ensures x in r || (|r| == count && forall y :: y in r ==> Distance(idOf(y), target) <= Distance(idOf(x), target))
    ensures |all| <= count ==> x in r
  {
    var some := Filter(healthy, all);
    hide Filter;
    assert x in multiset(some) by {
      assert x in some;
    }
    SmallestOrFull(DistanceTo(idOf, target), multiset(some), count, r, x);
    forall y | y in r && x !in r
      ensures Distance(idOf(y), target) <= Distance(idOf(x), target)
    {
      assert DistanceTo(idOf, target)(y) <= DistanceTo(idOf, target)(x);
    }
  }

  /** The two nearest elements, when they are the only ones so near, are answered first. */
  lemma TwoNearestFirst<T(!new)>(idOf: T -> NodeId, healthy: T -> bool, all: seq<T>, target: NodeId, count: nat,
                                 r: seq<T>, a: T, b: T)
    requires KNearest(idOf, healthy, all, target, count, r) && count >= 2
    requires a != b && b in all && multiset(all)[a] == 1 && forall x :: x in all ==> healthy(x)
    requires Distance(idOf(a), target) < Distance(idOf(b), target)
    requires forall x :: x in all && x != a && x != b ==> Distance(idOf(b), target) < Distance(idOf(x), target)
    ensures |r| >= 2 && r[0] == a && r[1] == b
  {
    hide Distance;
    FilterAll(healthy, all);
    TwoSmallestFirst(DistanceTo(idOf, target), multiset(all), count, r, a, b);
  }

  lemma {:induction false} FilterRespectsMultiset<T(!new)>(p: T -> bool, s: seq<T>, t: seq<T>)
    requires multiset(s) == multiset(t)
    ensures multiset(Filter(p, s)) == multiset(Filter(p, t))
  {
    forall x
      ensures multiset(Filter(p, s))[x] == multiset(Filter(p, t))[x]
    {
      FilterCounts(p, s, x);
      FilterCounts(p, t, x);
    }
  }

  lemma {:induction false} FilterCounts<T(!new)>(p: T -> bool, s: seq<T>, x: T)
    ensures multiset(Filter(p, s))[x] == if p(x) then multiset(s)[x] else 0
  {
    if s == [] {
    } else {
      FilterCounts(p, s[1..], x);
      assert s == [s[0]] + s[1..];
    }
  }

  /** The answer does not depend on how the entries are laid out in buckets: two collections with
      the same multiset of entries give answers with the same ids in the same order. */
  lemma KNearestIgnoresLayout<T(!new)>(idOf: T -> NodeId, healthy: T -> bool, all: seq<T>, other: seq<T>,
                                       target: NodeId, count: nat, r: seq<T>, s: seq<T>)
    requires multiset(all) == multiset(other)
    requires KNearest(idOf, healthy, all, target, count, r)
    requires KNearest(idOf, healthy, other, target, count, s)
    ensures |r| == |s|
    ensures forall i :: 0 <= i < |r| ==> idOf(r[i]) == idOf(s[i])
  {
    FilterRespectsMultiset(healthy, all, other);
    KSmallestUnique(DistanceTo(idOf, target), multiset(Filter(healthy, all)), count, r, s);
    forall i | 0 <= i < |r|
      ensures idOf(r[i]) == idOf(s[i])
    {
      assert DistanceTo(idOf, target)(r[i]) == DistanceTo(idOf, target)(s[i]);
      DistanceDeterminesId(idOf(r[i]), idOf(s[i]), target);
    }
  }
}
