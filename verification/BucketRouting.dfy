/** Which bucket a node goes to, and which entries the operations of the routing table change, without reference to
    how they look for them. */
module BucketRouting {
  import opened Bytes
  import opened Addresses
  import opened XorMetric
  import opened Sorting
  import opened Buckets

  // ---- splitting ----

  /** The members of a bucket with at least q leading bits in common with us, or with fewer. */
  ghost predicate Half(own: NodeId, es: seq<RoutingEntry>, q: nat, near: bool, half: Bucket) {
    half.prefixLen == q && BucketOk(half.entries) &&
    forall e :: e in half.entries <==> e in es && (PrefixLen(own, e.id) >= q) == near
  }

  /** cs is bs with bucket i cut in two by one more leading bit: the far half stays, the near half stands before the
      first longer prefix, and both carry the longer one. */
  ghost predicate CutInTwo(own: NodeId, bs: seq<Bucket>, i: nat, cs: seq<Bucket>)
    requires i < |bs|
  {
    exists k: nat, far, near :: CutAt(own, bs, i, k, far, near, cs)
  }

  ghost predicate CutAt(own: NodeId, bs: seq<Bucket>, i: nat, k: nat, far: Bucket, near: Bucket, cs: seq<Bucket>)
    requires i < |bs|
  {
    var q := bs[i].prefixLen + 1;
    && k <= |bs| && (forall j :: 0 <= j < k ==> bs[j].prefixLen <= q) && (k < |bs| ==> bs[k].prefixLen > q)
    && Half(own, bs[i].entries, q, false, far) && Half(own, bs[i].entries, q, true, near)
    && cs == bs[i := far][..k] + [near] + bs[i := far][k..]
  }

  /** A split cuts the bucket in two, unless its prefix has 159 bits already. */
  lemma SplitCutsInTwo(own: NodeId, bs: seq<Bucket>, i: nat)
    requires TableOk(bs) && i < |bs|
    ensures if bs[i].prefixLen < MAX_BUCKETS - 1 then CutInTwo(own, bs, i, Split(own, bs, i))
            else Split(own, bs, i) == bs
  {
    SplitIsHalve(own, bs, i);
    if bs[i].prefixLen < MAX_BUCKETS - 1 {
      var far, near := FarHalf(own, bs[i]), NearHalf(own, bs[i]);
      HalvesAre(own, bs[i], far, near);
      hide TableOk, Half, FarHalf, NearHalf, Halve, CutAt;
      HalveCuts(own, bs, i, far, near);
    }
  }

  lemma HalveCuts(own: NodeId, bs: seq<Bucket>, i: nat, far: Bucket, near: Bucket)
    requires i < |bs| && far.prefixLen == near.prefixLen == bs[i].prefixLen + 1
    requires Half(own, bs[i].entries, bs[i].prefixLen + 1, false, far)
    requires Half(own, bs[i].entries, bs[i].prefixLen + 1, true, near)
    ensures var k := Position(Deeper(near.prefixLen), bs[i := far]);
      CutAt(own, bs, i, k, far, near, Halve(bs, i, far, near))
  {
    hide Half;
    var q := near.prefixLen;
    forall j | 0 <= j < |bs|
      ensures bs[j].prefixLen > q <==> Deeper(q)(bs[i := far][j])
    {}
  }

  lemma HalvesAre(own: NodeId, b: Bucket, far: Bucket, near: Bucket)
    requires BucketOk(b.entries) && far == FarHalf(own, b) && near == NearHalf(own, b)
    ensures Half(own, b.entries, b.prefixLen + 1, false, far) && Half(own, b.entries, b.prefixLen + 1, true, near)
    ensures far.prefixLen == b.prefixLen + 1 && near.prefixLen == b.prefixLen + 1
  {
    SplitHalves(own, b.prefixLen + 1, b.entries);
  }

  // ---- placing ----

  /** What an insertion makes of a bucket that takes the entry: it replaces the one at its address, else it takes free
      room, else it replaces a least recently seen one among the failed and expired. */
  ghost predicate Takes(es: seq<RoutingEntry>, e: RoutingEntry, out: seq<RoutingEntry>, fs: seq<RoutingEntry>) {
    && BucketOk(fs) && multiset(fs) + multiset(out) == multiset(es) + multiset{e}
    && (out == [] ==> |es| < K && forall x :: x in es ==> x.addr != e.addr)
    && (out != [] ==> |out| == 1 && out[0] in es && (out[0].addr == e.addr || ReplacesOldest(es, e, out[0])))
  }

  ghost predicate ReplacesOldest(es: seq<RoutingEntry>, e: RoutingEntry, d: RoutingEntry) {
    && |es| == K && (forall x :: x in es ==> x.addr != e.addr)
    && Stale(d, e) && forall x :: x in es && Stale(x, e) ==> d.lastSeen <= x.lastSeen
  }

  ghost predicate Stale(x: RoutingEntry, e: RoutingEntry) {
    x.failures >= MAX_FAILURES || e.lastSeen > x.lastSeen + NODE_TTL_SECS
  }

  lemma PlaceTakes(es: seq<RoutingEntry>, e: RoutingEntry)
    requires BucketOk(es)
    ensures var p := Place(es, e);
      if FullOfOthers(es, e) then p == Full else p.Placed? && Takes(es, e, p.displaced, p.entries)
  {
    PlaceEffect(es, e);
    var i, j := Position(HasAddr(e.addr), es), Position(Replaceable(e.lastSeen), es);
    if i < |es| {
      assert HasAddr(e.addr)(es[i]) && es[i] in es;
    } else {
      forall x | x in es
        ensures x.addr != e.addr
      {
        var k :| 0 <= k < |es| && es[k] == x;
        assert !HasAddr(e.addr)(es[k]);
      }
      if |es| >= K && j < |es| {
        FirstStaleIsOldest(es, e, j);
        hide BucketOk;
      }
    }
  }

  lemma FirstStaleIsOldest(es: seq<RoutingEntry>, e: RoutingEntry, j: nat)
    requires Sorted(LastSeen, es) && j == Position(Replaceable(e.lastSeen), es) < |es|
    ensures es[j] in es && Stale(es[j], e) && forall x :: x in es && Stale(x, e) ==> es[j].lastSeen <= x.lastSeen
  {
    StaleIsReplaceable(e);
    hide Stale, Replaceable, Position, Sorted;
    OldestOfThese(es, Replaceable(e.lastSeen), j);
  }

  lemma StaleIsReplaceable(e: RoutingEntry)
    ensures forall x :: Stale(x, e) <==> Replaceable(e.lastSeen)(x)
  {}

  lemma OldestOfThese(es: seq<RoutingEntry>, p: RoutingEntry -> bool, j: nat)
    requires Sorted(LastSeen, es) && j < |es| && p(es[j]) && forall i :: 0 <= i < j ==> !p(es[i])
    ensures es[j] in es && forall x :: x in es && p(x) ==> es[j].lastSeen <= x.lastSeen
  {
    forall x | x in es && p(x)
      ensures es[j].lastSeen <= x.lastSeen
    {
      var k :| 0 <= k < |es| && es[k] == x;
      assert LastSeen(es[j]) <= LastSeen(es[k]);
    }
  }

  /** The insertion succeeds in bucket i and leaves every other bucket alone. */
  ghost predicate PutInto(bs: seq<Bucket>, i: nat, e: RoutingEntry, r: Insertion)
    requires i < |bs|
  {
    && r.ok && |r.buckets| == |bs|
    && (forall j :: 0 <= j < |bs| && j != i ==> r.buckets[j] == bs[j])
    && r.buckets[i].prefixLen == bs[i].prefixLen && Takes(bs[i].entries, e, r.displaced, r.buckets[i].entries)
  }

  lemma AttemptTakes(bs: seq<Bucket>, i: nat, e: RoutingEntry)
    requires TableOk(bs) && i < |bs|
    ensures if FullOfOthers(bs[i].entries, e) then Attempt(bs, i, e) == Insertion(bs, false, [])
            else PutInto(bs, i, e, Attempt(bs, i, e))
  {
    PlaceTakes(bs[i].entries, e);
    hide Takes, Place, BucketOk, FullOfOthers;
  }

  /** An insertion goes to the bucket where the node belongs. When that is full of live others it is split, and the
      node goes to the bucket where it belongs then, or is refused by that one for the same reason. */
  lemma InsertionGoesWhereItBelongs(own: NodeId, bs: seq<Bucket>, e: RoutingEntry, i: nat, j: nat)
    requires TableOk(bs) && Belongs(bs, PrefixLen(own, e.id), i)
    requires Belongs(Split(own, bs, i), PrefixLen(own, e.id), j)
    ensures var r, cs := InsertEntry(own, bs, e), Split(own, bs, i);
      if !FullOfOthers(bs[i].entries, e) then PutInto(bs, i, e, r)
      else if !FullOfOthers(cs[j].entries, e) then PutInto(cs, j, e, r)
      else r == Insertion(cs, false, [])
  {
    FoundWhereItBelongs(own, bs, e.id, i);
    EveryBucketContainsOwnId(own, bs[i]);
    SplitConserves(own, bs, i);
    var cs := Split(own, bs, i);
    FoundWhereItBelongs(own, cs, e.id, j);
    AttemptTakes(bs, i, e);
    AttemptTakes(cs, j, e);
    hide TableOk, Flat, Split, FindBucket, Contains, Attempt, Belongs, PutInto, FullOfOthers;
  }

  // ---- what the whole table gains and loses ----

  ghost predicate Live(x: RoutingEntry, now: U32) {
    x.failures < MAX_FAILURES && now <= x.lastSeen + NODE_TTL_SECS
  }

  /** A table after an insertion: the entry is held, or its bucket is full of live others; no live entry at another
      address is gone; and nothing else came in. */
  ghost predicate Landed(own: NodeId, bs: seq<Bucket>, e: RoutingEntry, cs: seq<Bucket>) {
    && TableOk(cs)
    && (e in Flat(cs) || RefusedBy(cs, PrefixLen(own, e.id), e))
    && (forall x :: x in Flat(bs) && Live(x, e.lastSeen) && (x.addr != e.addr || e !in Flat(cs)) ==> x in Flat(cs))
    && forall x :: x in Flat(cs) ==> x in Flat(bs) || x == e
  }

  lemma InsertionLands(own: NodeId, bs: seq<Bucket>, e: RoutingEntry)
    requires TableOk(bs)
    ensures Landed(own, bs, e, InsertEntry(own, bs, e).buckets)
  {
    var r := InsertEntry(own, bs, e);
    InsertEntryConserves(own, bs, e);
    if !r.ok {
      InsertEntryRefusal(own, bs, e);
    }
    hide TableOk, Flat, InsertEntry, PrefixLen, RefusedBy;
    Exchanged(Flat(bs), Flat(r.buckets), r.displaced, e, r.ok);
    forall x | x in Flat(bs) && Live(x, e.lastSeen) && (x.addr != e.addr || e !in Flat(r.buckets))
      ensures x !in r.displaced
    {
      assert x in r.displaced ==> MayDisplace(x, e);
      assert !r.ok ==> r.displaced == [];
    }
  }

  /** What an exchange of multisets means for membership. */
  lemma Exchanged(was: seq<RoutingEntry>, now: seq<RoutingEntry>, out: seq<RoutingEntry>, e: RoutingEntry, ok: bool)
    requires multiset(now) + multiset(out) == multiset(was) + (if ok then multiset{e} else multiset{})
    requires |out| <= 1 && forall d :: d in out ==> d in was
    ensures ok ==> e in now
    ensures forall x :: x in was && x !in out ==> x in now
    ensures forall x :: x in now ==> x in was || (ok && x == e)
  {
    var total := multiset(was) + (if ok then multiset{e} else multiset{});
    forall x
      ensures x in was && x !in out ==> x in now
      ensures x in now ==> x in was || (ok && x == e)
    {
      assert (multiset(now) + multiset(out))[x] == total[x];
      assert (x in was <==> x in multiset(was)) && (x in now <==> x in multiset(now));
      assert x in out <==> x in multiset(out);
    }
    if ok {
      assert (multiset(now) + multiset(out))[e] == total[e];
      assert e in out ==> out == [e] && multiset(out)[e] == 1 && e in multiset(was);
      assert e in now <==> e in multiset(now);
    }
  }

  /** While the whole table would fit one bucket, an insertion never fails and costs nobody else a place. */
  lemma RoomForOne(own: NodeId, bs: seq<Bucket>, e: RoutingEntry)
    requires TableOk(bs) && |Flat(bs)| < K
    ensures var r := InsertEntry(own, bs, e);
      TableOk(r.buckets) && r.ok && e in Flat(r.buckets) && |Flat(r.buckets)| <= |Flat(bs)| + 1 &&
      forall x :: x in Flat(bs) && x.addr != e.addr ==> x in Flat(r.buckets)
  {
    var r := InsertEntry(own, bs, e);
    InsertEntryConserves(own, bs, e);
    RoomyInsertion(own, bs, e);
    hide Flat, InsertEntry, TableOk;
    Exchanged(Flat(bs), Flat(r.buckets), r.displaced, e, true);
    assert |multiset(Flat(r.buckets)) + multiset(r.displaced)| == |Flat(r.buckets)| + |r.displaced|;
  }

  lemma RoomyInsertion(own: NodeId, bs: seq<Bucket>, e: RoutingEntry)
    requires TableOk(bs) && |Flat(bs)| < K
    ensures var r := InsertEntry(own, bs, e);
      r.ok && forall d :: d in r.displaced ==> d.addr == e.addr
  {
    var i := FindBucket(own, bs, e.id);
    SmallerThanTable(bs, i);
    hide Flat, FindBucket, Place;
    PlaceTakes(bs[i].entries, e);
  }

  lemma SmallerThanTable(bs: seq<Bucket>, i: nat)
    requires i < |bs|
    ensures |bs[i].entries| <= |Flat(bs)|
  {
    FlatAround(bs, i);
  }

  // ---- many insertions ----

  function InsertAll(own: NodeId, bs: seq<Bucket>, es: seq<RoutingEntry>): (r: seq<Bucket>)
    requires |bs| > 0
    ensures |r| > 0
    decreases |es|
  {
    if es == [] then bs
    else
      var n := |es| - 1;
      InsertEntry(own, InsertAll(own, bs, es[..n]), es[n]).buckets
  }

  ghost predicate Holds(bs: seq<Bucket>, addr: CompactAddr) {
    exists x :: x in Flat(bs) && x.addr == addr
  }

  /** The address is held by a live entry, as old as e. */
  ghost predicate LandsAt(bs: seq<Bucket>, e: RoutingEntry) {
    exists x :: x in Flat(bs) && x.addr == e.addr && x.lastSeen == e.lastSeen && x.failures == 0
  }

  lemma LandingStays(own: NodeId, bs: seq<Bucket>, e: RoutingEntry, cs: seq<Bucket>, f: RoutingEntry)
    requires Landed(own, bs, e, cs) && LandsAt(bs, f) && f.lastSeen == e.lastSeen && e.failures == 0
    ensures LandsAt(cs, f)
  {
    var x :| x in Flat(bs) && x.addr == f.addr && x.lastSeen == f.lastSeen && x.failures == 0;
    if f.addr != e.addr || e !in Flat(cs) {
      assert x in Flat(cs);
    }
  }

  ghost predicate AllAt(es: seq<RoutingEntry>, now: U32) {
    forall e :: e in es ==> e.lastSeen == now && e.failures == 0
  }

  lemma {:induction false} OnlyTheseComeIn(own: NodeId, bs: seq<Bucket>, es: seq<RoutingEntry>)
    requires TableOk(bs)
    ensures var r := InsertAll(own, bs, es);
      TableOk(r) && forall x :: x in Flat(r) ==> x in Flat(bs) || x in es
    decreases |es|
  {
    assert |bs| > 0;
    hide TableOk, Flat, RefusedBy, PrefixLen, InsertEntry;
    if es == [] {
    } else {
      var n := |es| - 1;
      OnlyTheseComeIn(own, bs, es[..n]);
      InsertionLands(own, InsertAll(own, bs, es[..n]), es[n]);
    }
  }

  /** The k-th entry was refused by a full bucket of live others when its turn came, or its address is held ever
      after. */
  ghost predicate LandedOrRefused(own: NodeId, bs: seq<Bucket>, es: seq<RoutingEntry>, k: nat)
    requires |bs| > 0 && k < |es|
  {
    LandsAt(InsertAll(own, bs, es), es[k]) ||
    RefusedBy(InsertAll(own, bs, es[..k + 1]), PrefixLen(own, es[k].id), es[k])
  }

  /** So it is for each of live entries inserted at one time. */
  lemma {:induction false} EachLands(own: NodeId, bs: seq<Bucket>, es: seq<RoutingEntry>, now: U32, k: nat)
    requires |bs| > 0 && TableOk(bs) && AllAt(es, now) && k < |es|
    ensures LandedOrRefused(own, bs, es, k)
    decreases |es|
  {
    hide TableOk, AllAt, LandedOrRefused, InsertAll;
    var n := |es| - 1;
    LastAt(es, now, k);
    OnlyTheseComeIn(own, bs, es[..n]);
    if k < n {
      EachLands(own, bs, es[..n], now, k);
    }
    OneMoreLanded(own, bs, es, k);
  }

  lemma OneMoreLanded(own: NodeId, bs: seq<Bucket>, es: seq<RoutingEntry>, k: nat)
    requires |bs| > 0 && k < |es| && es[|es| - 1].failures == 0 && es[k].lastSeen == es[|es| - 1].lastSeen
    requires TableOk(InsertAll(own, bs, es[..|es| - 1]))
    requires k < |es| - 1 ==> LandedOrRefused(own, bs, es[..|es| - 1], k)
    ensures LandedOrRefused(own, bs, es, k)
  {
    hide TableOk, RefusedBy, PrefixLen, InsertEntry, LandsAt;
    var n := |es| - 1;
    var mid := InsertAll(own, bs, es[..n]);
    assert InsertAll(own, bs, es) == InsertEntry(own, mid, es[n]).buckets;
    hide InsertAll;
    OneMoreLands(own, mid, es[n], es[k]);
    if k == n {
      assert es[..k + 1] == es;
    } else {
      assert es[..n][k] == es[k] && es[..n][..k + 1] == es[..k + 1];
    }
  }

  lemma LastAt(es: seq<RoutingEntry>, now: U32, k: nat)
    requires AllAt(es, now) && k < |es|
    ensures var n := |es| - 1;
      AllAt(es[..n], now) && es[n].lastSeen == now == es[k].lastSeen && es[n].failures == 0 &&
      (k < n ==> es[..n][k] == es[k])
  {}

  lemma OneMoreLands(own: NodeId, bs: seq<Bucket>, e: RoutingEntry, f: RoutingEntry)
    requires TableOk(bs) && e.failures == 0 && f.lastSeen == e.lastSeen
    ensures var r := InsertEntry(own, bs, e).buckets;
      (LandsAt(r, e) || RefusedBy(r, PrefixLen(own, e.id), e)) && (LandsAt(bs, f) ==> LandsAt(r, f))
  {
    InsertionLands(own, bs, e);
    hide TableOk, Flat, RefusedBy, PrefixLen, InsertEntry, LandsAt;
    var r := InsertEntry(own, bs, e).buckets;
    if e in Flat(r) {
      JustLanded(r, e);
    }
    if LandsAt(bs, f) {
      LandingStays(own, bs, e, r, f);
    }
  }

  /** As long as the whole table would fit one bucket, nobody else is gone. */
  lemma {:induction false} OthersStay(own: NodeId, bs: seq<Bucket>, es: seq<RoutingEntry>)
    requires TableOk(bs) && |Flat(bs)| + |es| <= K
    ensures var r := InsertAll(own, bs, es);
      TableOk(r) && |Flat(r)| <= |Flat(bs)| + |es| &&
      forall x :: x in Flat(bs) && (forall e :: e in es ==> e.addr != x.addr) ==> x in Flat(r)
    decreases |es|
  {
    assert |bs| > 0;
    hide TableOk, Flat, InsertEntry;
    if es == [] {
    } else {
      var n := |es| - 1;
      OthersStay(own, bs, es[..n]);
      RoomForOne(own, InsertAll(own, bs, es[..n]), es[n]);
    }
  }

  lemma StillLands(bs: seq<Bucket>, cs: seq<Bucket>, e: RoutingEntry, f: RoutingEntry)
    requires e in Flat(cs) && forall x :: x in Flat(bs) && x.addr != e.addr ==> x in Flat(cs)
    requires LandsAt(bs, f) && f.lastSeen == e.lastSeen && e.failures == 0
    ensures LandsAt(cs, f)
  {
    hide Flat;
  }

  /** And every one of the entries is held. */
  lemma {:induction false} EachFits(own: NodeId, bs: seq<Bucket>, es: seq<RoutingEntry>, now: U32, k: nat)
    requires TableOk(bs) && |Flat(bs)| + |es| <= K && AllAt(es, now) && k < |es|
    ensures LandsAt(InsertAll(own, bs, es), es[k])
    decreases |es|
  {
    assert |bs| > 0;
    hide TableOk, Flat, InsertEntry, LandsAt, AllAt;
    var n := |es| - 1;
    var mid := InsertAll(own, bs, es[..n]);
    assert InsertAll(own, bs, es) == InsertEntry(own, mid, es[n]).buckets;
    LastAt(es, now, k);
    OthersStay(own, bs, es[..n]);
    hide InsertAll;
    OneMoreFits(own, mid, es[n], es[k]);
    if k < n {
      EachFits(own, bs, es[..n], now, k);
    }
  }

  lemma OneMoreFits(own: NodeId, bs: seq<Bucket>, e: RoutingEntry, f: RoutingEntry)
    requires TableOk(bs) && |Flat(bs)| < K && e.failures == 0 && f.lastSeen == e.lastSeen
    ensures var r := InsertEntry(own, bs, e).buckets;
      LandsAt(r, e) && (LandsAt(bs, f) ==> LandsAt(r, f))
  {
    RoomForOne(own, bs, e);
    hide TableOk, Flat, InsertEntry, LandsAt;
    var r := InsertEntry(own, bs, e).buckets;
    JustLanded(r, e);
    if LandsAt(bs, f) {
      StillLands(bs, r, e, f);
    }
  }

  lemma JustLanded(bs: seq<Bucket>, e: RoutingEntry)
    requires e in Flat(bs) && e.failures == 0
    ensures LandsAt(bs, e)
  {}

  // ---- an example ----

  /** Two splits of a bucket of nodes that share no bit with us leave them first, under a longer prefix than the
      empty bucket behind. */
  lemma TwoSplits(own: NodeId, es: seq<RoutingEntry>)
    requires BucketOk(es) && forall e :: e in es ==> PrefixLen(own, e.id) == 0
    ensures Split(own, Split(own, [Bucket(0, es)], 0), 0) == [Bucket(2, es), Bucket(1, []), Bucket(2, [])]
  {
    NoneNear(own, es, 1);
    NoneNear(own, es, 2);
    OneSplit(own, es);
    var bs := [Bucket(1, es), Bucket(1, [])];
    SplitIsHalve(own, bs, 0);
    var far := FarHalf(own, bs[0]);
    PositionUnique(Deeper(2), bs[0 := far], 2);
    assert bs[0 := far] == [Bucket(2, es), Bucket(1, [])];
    hide Filter, PrefixLen;
  }

  lemma OneSplit(own: NodeId, es: seq<RoutingEntry>)
    requires BucketOk(es) && forall e :: e in es ==> PrefixLen(own, e.id) == 0
    ensures Split(own, [Bucket(0, es)], 0) == [Bucket(1, es), Bucket(1, [])]
  {
    NoneNear(own, es, 1);
    var bs := [Bucket(0, es)];
    SplitIsHalve(own, bs, 0);
    var far := FarHalf(own, bs[0]);
    PositionUnique(Deeper(1), bs[0 := far], 1);
    assert bs[0 := far] == [Bucket(1, es)];
    hide Filter, PrefixLen;
  }

  lemma NoneNear(own: NodeId, es: seq<RoutingEntry>, q: nat)
    requires q > 0 && forall e :: e in es ==> PrefixLen(own, e.id) == 0
    ensures Filter(Far(own, q), es) == es && Filter(Near(own, q), es) == []
  {
    hide PrefixLen;
    FilterAll(Far(own, q), es);
    assert forall e :: e in es ==> !Near(own, q)(e);
  }

  /** In that layout a node that shares exactly one bit goes into the middle bucket, however full the first one is. */
  lemma MiddleBucketTakes(own: NodeId, far: seq<RoutingEntry>, e: RoutingEntry)
    requires BucketOk(far) && PrefixLen(own, e.id) == 1
    ensures InsertEntry(own, [Bucket(2, far), Bucket(1, []), Bucket(2, [])], e) ==
      Insertion([Bucket(2, far), Bucket(1, [e]), Bucket(2, [])], true, [])
  {
    var bs := [Bucket(2, far), Bucket(1, []), Bucket(2, [])];
    assert Belongs(bs, 1, 1);
    FoundWhereItBelongs(own, bs, e.id, 1);
    assert Place([], e) == Placed([e], []);
    hide FindBucket, PrefixLen, Place;
    assert bs[1 := Bucket(1, [e])] == [Bucket(2, far), Bucket(1, [e]), Bucket(2, [])];
  }

  // ---- touching, failing, removing ----

  /** The first entry at an address, in bucket order. */
  function FirstHeld(bs: seq<Bucket>, addr: CompactAddr): nat {
    Position(HasAddr(addr), Flat(bs))
  }

  /** Of the whole table exactly the first entry at the address becomes another one. */
  ghost predicate Becomes(bs: seq<Bucket>, addr: CompactAddr, now: seq<RoutingEntry>, r: seq<Bucket>) {
    var k := FirstHeld(bs, addr);
    if k < |Flat(bs)| then multiset(Flat(r)) + multiset{Flat(bs)[k]} == multiset(Flat(bs)) + multiset(now) else r == bs
  }

  lemma FirstHolder(bs: seq<Bucket>, addr: CompactAddr, i: nat, p: nat)
    requires i == Position(HoldsAddr(addr), bs) < |bs| && p == Position(HasAddr(addr), bs[i].entries)
    ensures p < |bs[i].entries| && FirstHeld(bs, addr) < |Flat(bs)| && Flat(bs)[FirstHeld(bs, addr)] == bs[i].entries[p]
  {
    assert HoldsAddr(addr)(bs[i]);
    FlatAround(bs, i);
    FlatHolds(bs[..i], addr);
    var front, es := Flat(bs[..i]), bs[i].entries;
    assert Position(HoldsAddr(addr), bs[..i]) == i by {
      PositionUnique(HoldsAddr(addr), bs[..i], i);
    }
    forall j | 0 <= j < |front| + p
      ensures !HasAddr(addr)(Flat(bs)[j])
    {
      if j < |front| {
        assert Flat(bs)[j] == front[j] && front[j] in front;
      } else {
        assert Flat(bs)[j] == es[j - |front|];
      }
    }
    assert HasAddr(addr)(es[p]) && Flat(bs)[|front| + p] == es[p];
    PositionUnique(HasAddr(addr), Flat(bs), |front| + p);
  }

  lemma NoHolder(bs: seq<Bucket>, addr: CompactAddr)
    requires Position(HoldsAddr(addr), bs) == |bs|
    ensures FirstHeld(bs, addr) == |Flat(bs)|
  {
    FlatHolds(bs, addr);
    assert forall e :: e in Flat(bs) ==> !HasAddr(addr)(e);
  }

  /** Rewriting one bucket changes the table by what it changes there. */
  lemma BecomesAt(bs: seq<Bucket>, addr: CompactAddr, i: nat, p: nat, es: seq<RoutingEntry>, now: seq<RoutingEntry>)
    requires i == Position(HoldsAddr(addr), bs) < |bs| && p == Position(HasAddr(addr), bs[i].entries)
    requires p < |bs[i].entries|
    requires multiset(es) + multiset{bs[i].entries[p]} == multiset(bs[i].entries) + multiset(now)
    ensures Becomes(bs, addr, now, bs[i := bs[i].(entries := es)])
  {
    FirstHolder(bs, addr, i, p);
    FlatUpdate(bs, i, bs[i].(entries := es));
    var r := bs[i := bs[i].(entries := es)];
    hide Flat, FirstHeld;
    BalanceAll(multiset(Flat(r)), multiset(Flat(bs)), multiset(bs[i].entries), multiset(es),
               multiset{bs[i].entries[p]}, multiset(now));
  }

  lemma BalanceAll(now: multiset<RoutingEntry>, was: multiset<RoutingEntry>, before: multiset<RoutingEntry>,
                   after: multiset<RoutingEntry>, out: multiset<RoutingEntry>, added: multiset<RoutingEntry>)
    requires now + before == was + after && after + out == before + added
    ensures now + out == was + added
  {
    Balance(now, was, before, after, out, added);
  }

  /** A touched node was seen now and has no failures; nothing else changes. */
  lemma TouchEffect(bs: seq<Bucket>, addr: CompactAddr, now: U32)
    ensures var k := FirstHeld(bs, addr);
      Becomes(bs, addr, if k < |Flat(bs)| then [Flat(bs)[k].(lastSeen := now, failures := 0)] else [],
              AtFirstHolder(bs, addr, Touching(addr, now)))
  {
    var i := Position(HoldsAddr(addr), bs);
    if i < |bs| {
      var es := bs[i].entries;
      var p := Position(HasAddr(addr), es);
      FirstHolder(bs, addr, i, p);
      TouchOne(es, addr, now, p);
      hide Becomes, Touch, Flat, FirstHeld;
      BecomesAt(bs, addr, i, p, Touch(es, addr, now), [es[p].(lastSeen := now, failures := 0)]);
    } else {
      NoHolder(bs, addr);
    }
  }

  lemma TouchOne(es: seq<RoutingEntry>, addr: CompactAddr, now: U32, p: nat)
    requires p == Position(HasAddr(addr), es) < |es|
    ensures multiset(Touch(es, addr, now)) + multiset{es[p]} ==
      multiset(es) + multiset([es[p].(lastSeen := now, failures := 0)])
  {
    var e := es[p].(lastSeen := now, failures := 0);
    UpdatePermutes(es, p, e);
    SortIsStableSort(LastSeen, es[p := e]);
    hide Sort, Position;
  }

  /** A failed node has one failure more, up to 255; nothing else changes. */
  lemma FailEffect(bs: seq<Bucket>, addr: CompactAddr)
    ensures var k := FirstHeld(bs, addr);
      Becomes(bs, addr, if k < |Flat(bs)| then [OneMoreFailure(Flat(bs)[k])] else [],
              AtFirstHolder(bs, addr, Failing(addr)))
  {
    var i := Position(HoldsAddr(addr), bs);
    if i < |bs| {
      var es := bs[i].entries;
      var p := Position(HasAddr(addr), es);
      FirstHolder(bs, addr, i, p);
      FailOne(es, addr, p);
      hide Becomes, Fail, Flat, FirstHeld, OneMoreFailure;
      BecomesAt(bs, addr, i, p, Fail(es, addr), [OneMoreFailure(es[p])]);
    } else {
      NoHolder(bs, addr);
    }
  }

  lemma FailOne(es: seq<RoutingEntry>, addr: CompactAddr, p: nat)
    requires p == Position(HasAddr(addr), es) < |es|
    ensures multiset(Fail(es, addr)) + multiset{es[p]} == multiset(es) + multiset([OneMoreFailure(es[p])])
  {
    hide Position, OneMoreFailure;
    assert Fail(es, addr) == es[p := OneMoreFailure(es[p])] by { FailIsUpdate(es, addr, p); }
    UpdatePermutes(es, p, OneMoreFailure(es[p]));
    hide Fail;
  }

  lemma FailIsUpdate(es: seq<RoutingEntry>, addr: CompactAddr, p: nat)
    requires p == Position(HasAddr(addr), es) < |es|
    ensures Fail(es, addr) == es[p := OneMoreFailure(es[p])]
  {
    hide Position;
  }

  function OneMoreFailure(e: RoutingEntry): (r: RoutingEntry)
    ensures r.id == e.id && r.addr == e.addr && r.lastSeen == e.lastSeen
    ensures r.failures > e.failures || r.failures == e.failures == 255
  {
    e.(failures := if e.failures < 255 then e.failures + 1 else 255)
  }

  /** Three failures in a row, with nothing in between, make a node unhealthy, so no query answers with it. */
  lemma ThreeFailures(e: RoutingEntry)
    requires e.failures == 0
    ensures OneMoreFailure(OneMoreFailure(e)).Healthy() && !OneMoreFailure(OneMoreFailure(OneMoreFailure(e))).Healthy()
  {}

  /** Removal takes out the first entry at the address; nothing else changes. */
  lemma RemovalEffect(bs: seq<Bucket>, addr: CompactAddr)
    ensures Becomes(bs, addr, [], AtFirstHolder(bs, addr, Dropping(addr)))
  {
    var i := Position(HoldsAddr(addr), bs);
    if i < |bs| {
      var es := bs[i].entries;
      var p := Position(HasAddr(addr), es);
      FirstHolder(bs, addr, i, p);
      DropOne(es, addr, p);
      hide Becomes, DropAddr, Flat, FirstHeld;
      BecomesAt(bs, addr, i, p, DropAddr(es, addr), []);
    } else {
      NoHolder(bs, addr);
    }
  }

  lemma DropOne(es: seq<RoutingEntry>, addr: CompactAddr, p: nat)
    requires p == Position(HasAddr(addr), es) < |es|
    ensures multiset(DropAddr(es, addr)) + multiset{es[p]} == multiset(es) + multiset([])
  {
    hide Position, Without;
    assert DropAddr(es, addr) == Without(es, p);
  }

  // ---- refresh ----

  /** The entry a bucket wants refreshed: its least recently seen healthy one, when that was seen more than 300 seconds
      ago. */
  ghost predicate WantsRefresh(es: seq<RoutingEntry>, now: U32, e: RoutingEntry) {
    e in es && e.Healthy() && now > e.lastSeen + 300 &&
    forall x :: x in es && x.Healthy() ==> e.lastSeen <= x.lastSeen
  }

  ghost predicate HasStale(es: seq<RoutingEntry>, now: U32) {
    exists x :: x in es && x.Healthy() && now > x.lastSeen + 300
  }

  /** Every bucket with a stale healthy entry offers the address of one it wants refreshed, no other does, and the
      offers follow the order of the buckets. */
  ghost predicate Offers(bs: seq<Bucket>, now: U32, cs: seq<CompactAddr>)
    decreases |bs|
  {
    if bs == [] then cs == []
    else if HasStale(bs[0].entries, now) then
      cs != [] && (exists e :: WantsRefresh(bs[0].entries, now, e) && e.addr == cs[0]) && Offers(bs[1..], now, cs[1..])
    else Offers(bs[1..], now, cs)
  }

  lemma {:induction false} RefreshOffers(bs: seq<Bucket>, now: U32)
    requires forall i :: 0 <= i < |bs| ==> BucketOk(bs[i].entries)
    ensures Offers(bs, now, RefreshCandidates(bs, now))
    decreases |bs|
  {
    if bs == [] {
    } else {
      RefreshOffers(bs[1..], now);
      var es := bs[0].entries;
      var p := Position(RefreshDue(now), es);
      RefreshPicksOldest(es, now);
      if p < |es| {
        var cs := RefreshCandidates(bs, now);
        assert RefreshDue(now)(es[p]) && es[p] in es;
        assert WantsRefresh(es, now, es[p]) && HasStale(es, now);
        assert cs[0] == es[p].addr && cs[1..] == RefreshCandidates(bs[1..], now);
      } else {
        assert !HasStale(es, now);
        assert [] + RefreshCandidates(bs[1..], now) == RefreshCandidates(bs[1..], now);
      }
    }
  }
}
