/** The k-bucket routing table, updated in place. */
module RoutingTable {
  import opened Bytes
  import opened Addresses
  import opened XorMetric
  import opened Sorting
  import opened Buckets
  import opened Nearest

  class KBucket {
    var prefixLen: nat
    var entries: seq<RoutingEntry>

    function View(): Bucket
      reads this
    {
      Bucket(prefixLen, entries)
    }

    constructor (prefixLen: nat, entries: seq<RoutingEntry>)
      ensures View() == Bucket(prefixLen, entries)
    {
      this.prefixLen := prefixLen;
      this.entries := entries;
    }

    method Insert(entry: RoutingEntry) returns (ok: bool)
      modifies this`entries
      ensures ok == Place(old(entries), entry).Placed?
      ensures entries == if ok then Place(old(entries), entry).entries else old(entries)
    {
      var i := Position(HasAddr(entry.addr), entries);
      if i < |entries| {
        entries := entries[i := entry];
        entries := Sort(LastSeen, entries);
        return true;
      }
      if |entries| < K {
        entries := entries + [entry];
        entries := Sort(LastSeen, entries);
        return true;
      }
      var j := Position(Replaceable(entry.lastSeen), entries);
      if j < |entries| {
        entries := entries[j := entry];
        entries := Sort(LastSeen, entries);
        return true;
      }
      return false;
    }

    method Remove(addr: CompactAddr) returns (found: bool)
      modifies this`entries
      ensures found == HoldsAddr(addr)(old(View()))
      ensures entries == DropAddr(old(entries), addr)
    {
      var p := Position(HasAddr(addr), entries);
      if p < |entries| {
        entries := Without(entries, p);
        return true;
      }
      return false;
    }

    method Touch(addr: CompactAddr, now: U32) returns (found: bool)
      modifies this`entries
      ensures found == HoldsAddr(addr)(old(View()))
      ensures entries == Buckets.Touch(old(entries), addr, now)
    {
      var p := Position(HasAddr(addr), entries);
      if p < |entries| {
        entries := entries[p := entries[p].(lastSeen := now, failures := 0)];
        entries := Sort(LastSeen, entries);
        return true;
      }
      return false;
    }

    method MarkFailed(addr: CompactAddr) returns (found: bool)
      modifies this`entries
      ensures found == HoldsAddr(addr)(old(View()))
      ensures entries == Fail(old(entries), addr)
    {
      var p := Position(HasAddr(addr), entries);
      if p < |entries| {
        var f := entries[p].failures;
        entries := entries[p := entries[p].(failures := if f == 255 then 255 else f + 1)];
        return true;
      }
      return false;
    }

    method Evict(now: U32) returns (removed: nat)
      modifies this`entries
      ensures entries == Filter(Retained(now), old(entries))
      ensures removed == |old(entries)| - |entries|
    {
      var before := |entries|;
      entries := Filter(Retained(now), entries);
      removed := before - |entries|;
    }
  }

  function Views(bs: seq<KBucket>): (r: seq<Bucket>)
    reads bs
    ensures |r| == |bs|
  {
    seq(|bs|, i requires 0 <= i < |bs| reads bs => bs[i].View())
  }

  class RoutingTable {
    const ownId: NodeId
    var buckets: seq<KBucket>
    var totalNodes: nat

    /** How many insertions so far refreshed or replaced an entry and were counted all the same. */
    ghost var surplus: nat

    function Layout(): (bs: seq<Bucket>)
      reads this`buckets, buckets
      ensures |bs| == |buckets|
    {
      Views(buckets)
    }

    ghost predicate Separate()
      reads this`buckets
    {
      forall i, j :: 0 <= i < j < |buckets| ==> buckets[i] != buckets[j]
    }

    /** The buckets are separate objects and well-formed, and the cached total exceeds the number
        of entries by exactly the surplus. */
    ghost predicate Valid()
      reads this, buckets
    {
      && Separate()
      && TableOk(Layout())
      && totalNodes == |Flat(Layout())| + surplus
    }

    constructor (ownId: NodeId)
      ensures Valid() && fresh(buckets)
      ensures this.ownId == ownId && Layout() == [Bucket(0, [])] && totalNodes == 0 && surplus == 0
    {
      this.ownId := ownId;
      var root := new KBucket(0, []);
      buckets := [root];
      totalNodes := 0;
      surplus := 0;
      new;
      assert Layout() == [Bucket(0, [])];
    }

    method BucketContains(i: nat, target: NodeId) returns (b: bool)
      requires i < |buckets|
      ensures b == Contains(ownId, buckets[i].View(), target)
    {
      if buckets[i].prefixLen == 0 {
        return true;
      }
      var p := CommonPrefixLen(ownId, target);
      return p >= buckets[i].prefixLen;
    }

    method LocateBucket(target: NodeId) returns (idx: nat)
      requires |buckets| > 0
      ensures idx < |buckets|
      ensures idx == FindBucket(ownId, Layout(), target)
      ensures Belongs(Layout(), PrefixLen(ownId, target), idx)
    {
      var targetPrefix := CommonPrefixLen(ownId, target);
      var i := 0;
      while i < |buckets|
        invariant 0 <= i <= |buckets|
        invariant forall j :: 0 <= j < i ==> !Covers(ownId, target)(Layout()[j])
      {
        if buckets[i].prefixLen <= targetPrefix {
          var inside := BucketContains(i, target);
          if inside {
            PositionUnique(Covers(ownId, target), Layout(), i);
            FoundWhereItBelongs(ownId, Layout(), target, i);
            return i;
          }
        }
        i := i + 1;
      }
      PositionUnique(Covers(ownId, target), Layout(), |buckets|);
      FoundWhereItBelongs(ownId, Layout(), target, 0);
      return 0;
    }

    /** The distributing loop of `split_bucket`: ids sharing the longer prefix, and the rest. */
    method Distribute(oldEntries: seq<RoutingEntry>, newPrefix: nat)
      returns (near: seq<RoutingEntry>, far: seq<RoutingEntry>)
      ensures near == Filter(Near(ownId, newPrefix), oldEntries)
      ensures far == Filter(Far(ownId, newPrefix), oldEntries)
    {
      near, far := [], [];
      for k := 0 to |oldEntries|
        invariant near == Filter(Near(ownId, newPrefix), oldEntries[..k])
        invariant far == Filter(Far(ownId, newPrefix), oldEntries[..k])
      {
        var e := oldEntries[k];
        var p := CommonPrefixLen(ownId, e.id);
        FilterExtend(Near(ownId, newPrefix), oldEntries, k);
        FilterExtend(Far(ownId, newPrefix), oldEntries, k);
        if p >= newPrefix {
          near := near + [e];
        } else {
          far := far + [e];
        }
      }
      assert oldEntries[..|oldEntries|] == oldEntries;
    }

    /** Split a bucket that contains our own id, if it may still get a longer prefix. */
    method SplitBucket(idx: nat)
      requires Separate() && idx < |buckets|
      modifies this`buckets, buckets
      ensures Separate() && (forall b :: b in buckets ==> b in old(buckets) || fresh(b))
      ensures Layout() == Split(ownId, old(Layout()), idx)
    {
      var contains := BucketContains(idx, ownId);
      if contains && buckets[idx].prefixLen < MAX_BUCKETS - 1 {
        HalveBucket(idx);
      }
    }

    method HalveBucket(idx: nat)
      requires Separate() && idx < |buckets|
      modifies this`buckets, buckets
      ensures Separate() && (forall b :: b in buckets ==> b in old(buckets) || fresh(b))
      ensures var was := old(Layout());
        Layout() == Halve(was, idx, FarHalf(ownId, was[idx]), NearHalf(ownId, was[idx]))
    {
      ghost var was := Layout();
      var newPrefix := buckets[idx].prefixLen + 1;
      var nearEntries, farEntries := Distribute(buckets[idx].entries, newPrefix);
      assert FarHalf(ownId, was[idx]) == Bucket(newPrefix, farEntries);
      assert NearHalf(ownId, was[idx]) == Bucket(newPrefix, nearEntries);
      Rewrite(idx, newPrefix, farEntries);
      var near := new KBucket(newPrefix, nearEntries);
      InsertBucket(near);
    }

    /** Overwrite bucket idx. */
    method Rewrite(idx: nat, prefixLen: nat, entries: seq<RoutingEntry>)
      requires Separate() && idx < |buckets|
      modifies buckets[idx]
      ensures Layout() == old(Layout())[idx := Bucket(prefixLen, entries)]
    {
      buckets[idx].prefixLen := prefixLen;
      buckets[idx].entries := entries;
    }

    /** Put a bucket before the first one with a longer prefix. */
    method InsertBucket(b: KBucket)
      requires Separate() && b !in buckets
      modifies this`buckets
      ensures Separate()
      ensures Layout() == InsertAt(old(Layout()), Position(Deeper(b.prefixLen), old(Layout())), b.View())
      ensures forall x :: x in buckets <==> x in old(buckets) || x == b
    {
      var pos := Position(Deeper(b.prefixLen), Layout());
      buckets := InsertAt(buckets, pos, b);
    }

    /** `insert_entry`, with its bookkeeping. */
    method InsertEntry(entry: RoutingEntry) returns (ok: bool)
      requires Valid()
      modifies this, buckets
      ensures Valid() && (forall b :: b in buckets ==> b in old(buckets) || fresh(b))
      ensures var r := Buckets.InsertEntry(ownId, old(Layout()), entry);
        Layout() == r.buckets && ok == r.ok &&
        totalNodes == old(totalNodes) + (if ok then 1 else 0) &&
        surplus == old(surplus) + |r.displaced|
    {
      ghost var plan := Buckets.InsertEntry(ownId, Layout(), entry);
      InsertEntrySize(ownId, Layout(), entry);
      hide TableOk, Flat, Layout, Buckets.InsertEntry;
      ok := PlaceOrSplit(entry);
      CountInsertion(ok, |plan.displaced|);
    }

    method CountInsertion(ok: bool, ghost displaced: nat)
      requires Separate() && TableOk(Layout())
      requires totalNodes + (if ok then 1 else 0) == |Flat(Layout())| + surplus + displaced
      modifies this`totalNodes, this`surplus
      ensures Valid() && Layout() == old(Layout())
      ensures totalNodes == old(totalNodes) + (if ok then 1 else 0) && surplus == old(surplus) + displaced
    {
      hide TableOk, Flat;
      totalNodes := if ok then totalNodes + 1 else totalNodes;
      surplus := surplus + displaced;
    }

    /** Place directly, else split the bucket and place again. */
    method PlaceOrSplit(entry: RoutingEntry) returns (ok: bool)
      requires Separate() && |buckets| > 0
      modifies this`buckets, buckets
      ensures Separate() && (forall b :: b in buckets ==> b in old(buckets) || fresh(b))
      ensures var r := Buckets.InsertEntry(ownId, old(Layout()), entry);
        Layout() == r.buckets && ok == r.ok
    {
      hide Belongs, FindBucket, Split, Place, Contains, PrefixLen;
      var idx := LocateBucket(entry.id);
      ok := PlaceAt(idx, entry);
      if !ok {
        var contains := BucketContains(idx, ownId);
        if contains {
          ok := SplitAndPlace(idx, entry);
        }
      }
    }

    method SplitAndPlace(idx: nat, entry: RoutingEntry) returns (ok: bool)
      requires Separate() && idx < |buckets|
      modifies this`buckets, buckets
      ensures Separate() && (forall b :: b in buckets ==> b in old(buckets) || fresh(b))
      ensures var cs := Split(ownId, old(Layout()), idx);
        Layout() == Attempt(cs, FindBucket(ownId, cs, entry.id), entry).buckets &&
        ok == Attempt(cs, FindBucket(ownId, cs, entry.id), entry).ok
    {
      hide Belongs, FindBucket, Split, Attempt, PrefixLen;
      SplitBucket(idx);
      var newIdx := LocateBucket(entry.id);
      assert buckets[newIdx] in buckets;
      ok := PlaceAt(newIdx, entry);
    }

    /** Call `KBucket::insert` on one bucket. */
    method PlaceAt(idx: nat, entry: RoutingEntry) returns (ok: bool)
      requires Separate() && idx < |buckets|
      modifies buckets[idx]
      ensures ok == Attempt(old(Layout()), idx, entry).ok
      ensures Layout() == Attempt(old(Layout()), idx, entry).buckets
    {
      ok := buckets[idx].Insert(entry);
    }

    /** `insert`: a node seen now, with no failures. */
    method Insert(id: NodeId, addr: CompactAddr, now: U32) returns (ok: bool)
      requires Valid()
      modifies this, buckets
      ensures Valid() && (forall b :: b in buckets ==> b in old(buckets) || fresh(b))
      ensures var r := Buckets.InsertEntry(ownId, old(Layout()), RoutingEntry(id, addr, now, 0));
        Layout() == r.buckets && ok == r.ok &&
        totalNodes == old(totalNodes) + (if ok then 1 else 0) &&
        surplus == old(surplus) + |r.displaced|
    {
      ok := InsertEntry(RoutingEntry(id, addr, now, 0));
    }

    method Remove(addr: CompactAddr) returns (found: bool)
      requires Valid()
      modifies this`totalNodes, buckets
      ensures Valid()
      ensures Layout() == AtFirstHolder(old(Layout()), addr, Dropping(addr))
      ensures found == (Position(HoldsAddr(addr), old(Layout())) < |buckets|)
      ensures totalNodes == old(totalNodes) - (if found then 1 else 0)
    {
      RemoveSize(Layout(), addr);
      found := RemoveFromFirst(addr);
      if found {
        totalNodes := SaturatingSub(totalNodes, 1);
      }
    }

    method RemoveAt(i: nat, addr: CompactAddr) returns (here: bool)
      requires Separate() && i < |buckets|
      modifies buckets[i]
      ensures here == HoldsAddr(addr)(old(Layout())[i])
      ensures Layout() ==
              if here then old(Layout())[i := old(Layout())[i].(entries := DropAddr(old(Layout())[i].entries, addr))]
                          else old(Layout())
    {
      here := buckets[i].Remove(addr);
    }

    method RemoveFromFirst(addr: CompactAddr) returns (found: bool)
      requires Separate()
      modifies buckets
      ensures Layout() == AtFirstHolder(old(Layout()), addr, Dropping(addr))
      ensures found == (Position(HoldsAddr(addr), old(Layout())) < |buckets|)
    {
      for i := 0 to |buckets|
        invariant Layout() == old(Layout())
        invariant forall j :: 0 <= j < i ==> !HoldsAddr(addr)(Layout()[j])
      {
        var here := RemoveAt(i, addr);
        if here {
          PositionUnique(HoldsAddr(addr), old(Layout()), i);
          return true;
        }
      }
      PositionUnique(HoldsAddr(addr), Layout(), |buckets|);
      return false;
    }

    method TouchAt(i: nat, addr: CompactAddr, now: U32) returns (here: bool)
      requires Separate() && i < |buckets|
      modifies buckets[i]
      ensures here == HoldsAddr(addr)(old(Layout())[i])
      ensures Layout() ==
              if here
              then old(Layout())[i := old(Layout())[i].(entries := Buckets.Touch(old(Layout())[i].entries, addr, now))]
                          else old(Layout())
    {
      here := buckets[i].Touch(addr, now);
    }

    method Touch(addr: CompactAddr, now: U32) returns (found: bool)
      requires Valid()
      modifies buckets
      ensures Valid()
      ensures Layout() == AtFirstHolder(old(Layout()), addr, Touching(addr, now))
      ensures found == (Position(HoldsAddr(addr), old(Layout())) < |buckets|)
    {
      RewriteEffect(Layout(), addr, now);
      found := TouchFirst(addr, now);
    }

    method TouchFirst(addr: CompactAddr, now: U32) returns (found: bool)
      requires Separate()
      modifies buckets
      ensures Layout() == AtFirstHolder(old(Layout()), addr, Touching(addr, now))
      ensures found == (Position(HoldsAddr(addr), old(Layout())) < |buckets|)
    {
      for i := 0 to |buckets|
        invariant Layout() == old(Layout())
        invariant forall j :: 0 <= j < i ==> !HoldsAddr(addr)(Layout()[j])
      {
        var here := TouchAt(i, addr, now);
        if here {
          PositionUnique(HoldsAddr(addr), old(Layout()), i);
          return true;
        }
      }
      PositionUnique(HoldsAddr(addr), Layout(), |buckets|);
      return false;
    }

    method MarkFailedAt(i: nat, addr: CompactAddr) returns (here: bool)
      requires Separate() && i < |buckets|
      modifies buckets[i]
      ensures here == HoldsAddr(addr)(old(Layout())[i])
      ensures Layout() ==
              if here then old(Layout())[i := old(Layout())[i].(entries := Fail(old(Layout())[i].entries, addr))]
                          else old(Layout())
    {
      here := buckets[i].MarkFailed(addr);
    }

    method MarkFailed(addr: CompactAddr) returns (found: bool)
      requires Valid()
      modifies buckets
      ensures Valid()
      ensures Layout() == AtFirstHolder(old(Layout()), addr, Failing(addr))
      ensures found == (Position(HoldsAddr(addr), old(Layout())) < |buckets|)
    {
      RewriteEffect(Layout(), addr, 0);
      found := MarkFailedFirst(addr);
    }

    method MarkFailedFirst(addr: CompactAddr) returns (found: bool)
      requires Separate()
      modifies buckets
      ensures Layout() == AtFirstHolder(old(Layout()), addr, Failing(addr))
      ensures found == (Position(HoldsAddr(addr), old(Layout())) < |buckets|)
    {
      for i := 0 to |buckets|
        invariant Layout() == old(Layout())
        invariant forall j :: 0 <= j < i ==> !HoldsAddr(addr)(Layout()[j])
      {
        var here := MarkFailedAt(i, addr);
        if here {
          PositionUnique(HoldsAddr(addr), old(Layout()), i);
          return true;
        }
      }
      PositionUnique(HoldsAddr(addr), Layout(), |buckets|);
      return false;
    }

    method EvictExpired(now: U32) returns (evicted: nat)
      requires Valid()
      modifies this`totalNodes, buckets
      ensures Valid()
      ensures Layout() == EvictAll(old(Layout()), now)
      ensures evicted == |Flat(old(Layout()))| - |Flat(Layout())|
      ensures totalNodes == old(totalNodes) - evicted
    {
      ghost var was := Layout();
      EvictKeepsTableOk(was, now);
      EvictFilters(was, now);
      evicted := EvictBuckets(now);
      totalNodes := SaturatingSub(totalNodes, evicted);
    }

    /** `find_closest` over the flattened table. */
    method FindClosest(target: NodeId, count: nat) returns (r: seq<RoutingEntry>)
      ensures KNearest(IdOf, IsHealthy, Flat(Layout()), target, count, r)
      ensures r == Closest(IdOf, IsHealthy, Flat(Layout()), target, count)
    {
      var all := Filter(IsHealthy, Flat(Layout()));
      all := Sort(DistanceTo(IdOf, target), all);
      r := Take(count, all);
      ClosestIsKNearest(IdOf, IsHealthy, Flat(Layout()), target, count);
    }

    method RefreshList(now: U32) returns (candidates: seq<CompactAddr>)
      ensures candidates == RefreshCandidates(Layout(), now)
    {
      candidates := [];
      for i := 0 to |buckets|
        invariant candidates == RefreshCandidates(Layout()[..i], now)
      {
        var es := buckets[i].entries;
        var p := Position(RefreshDue(now), es);
        RefreshOneMore(Layout(), i, now);
        if p < |es| {
          candidates := candidates + [es[p].addr];
        }
      }
      assert Layout()[..|buckets|] == Layout();
    }

    method EvictAt(i: nat, now: U32) returns (removed: nat)
      requires Separate() && i < |buckets|
      modifies buckets[i]
      ensures Layout() == old(Layout())[i := Evict(old(Layout())[i], now)]
      ensures removed == |old(Layout())[i].entries| - |Evict(old(Layout())[i], now).entries|
    {
      removed := buckets[i].Evict(now);
    }

    method EvictBuckets(now: U32) returns (evicted: nat)
      requires Separate()
      modifies buckets
      ensures Layout() == EvictAll(old(Layout()), now)
      ensures evicted == |Flat(old(Layout()))| - |Flat(Layout())|
    {
      evicted := 0;
      for i := 0 to |buckets|
        invariant Layout() == EvictFirst(old(Layout()), i, now)
        invariant evicted == |Flat(old(Layout()))| - |Flat(Layout())|
      {
        EvictOneMore(old(Layout()), i, now);
        var n := EvictAt(i, now);
        evicted := evicted + n;
      }
    }
  }

  lemma InsertEntrySize(own: NodeId, bs: seq<Bucket>, e: RoutingEntry)
    requires TableOk(bs)
    ensures var r := Buckets.InsertEntry(own, bs, e);
      TableOk(r.buckets) && |Flat(r.buckets)| + |r.displaced| == |Flat(bs)| + (if r.ok then 1 else 0)
  {
    var r := Buckets.InsertEntry(own, bs, e);
    InsertEntryConserves(own, bs, e);
    assert |multiset(Flat(r.buckets)) + multiset(r.displaced)| == |Flat(r.buckets)| + |r.displaced|;
  }

  lemma EvictOneMore(bs: seq<Bucket>, i: nat, now: U32)
    requires i < |bs|
    ensures EvictFirst(bs, i + 1, now) == EvictFirst(bs, i, now)[i := Evict(bs[i], now)]
    ensures EvictFirst(bs, i, now)[i] == bs[i]
    ensures |Flat(EvictFirst(bs, i + 1, now))| + |bs[i].entries| == |Flat(EvictFirst(bs, i, now))| +
      |Evict(bs[i], now).entries|
  {
    var cs := EvictFirst(bs, i, now);
    var ds := cs[i := Evict(bs[i], now)];
    assert EvictFirst(bs, i + 1, now) == ds;
    FlatAround(cs, i);
    FlatAround(ds, i);
    assert cs[..i] == ds[..i] && cs[i + 1..] == ds[i + 1..];
  }

  lemma RefreshOneMore(bs: seq<Bucket>, i: nat, now: U32)
    requires i < |bs|
    ensures var p := Position(RefreshDue(now), bs[i].entries);
      RefreshCandidates(bs[..i + 1], now) ==
        RefreshCandidates(bs[..i], now) + (if p < |bs[i].entries| then [bs[i].entries[p].addr] else [])
  {
    assert bs[..i + 1] == bs[..i] + [bs[i]];
    RefreshConcat(bs[..i], [bs[i]], now);
    assert RefreshCandidates([], now) == [];
  }

  lemma {:induction false} RefreshConcat(bs: seq<Bucket>, cs: seq<Bucket>, now: U32)
    ensures RefreshCandidates(bs + cs, now) == RefreshCandidates(bs, now) + RefreshCandidates(cs, now)
  {
    if bs == [] {
      assert bs + cs == cs;
    } else {
      assert (bs + cs)[1..] == bs[1..] + cs;
      RefreshConcat(bs[1..], cs, now);
    }
  }

  lemma RemoveSize(bs: seq<Bucket>, addr: CompactAddr)
    requires TableOk(bs)
    ensures var r := AtFirstHolder(bs, addr, Dropping(addr));
      TableOk(r) && |Flat(r)| + (if Position(HoldsAddr(addr), bs) < |bs| then 1 else 0) == |Flat(bs)|
  {
    RemoveEffect(bs, addr);
    FlatHolds(bs, addr);
    var r := AtFirstHolder(bs, addr, Dropping(addr));
    if Position(HoldsAddr(addr), bs) < |bs| {
      var e: RoutingEntry :| e.addr == addr && multiset(Flat(r)) + multiset{e} == multiset(Flat(bs));
      assert |multiset(Flat(r)) + multiset{e}| == |Flat(r)| + 1;
    }
  }

  lemma FilterExtend(p: RoutingEntry -> bool, s: seq<RoutingEntry>, k: nat)
    requires k < |s|
    ensures Filter(p, s[..k + 1]) == if p(s[k]) then Filter(p, s[..k]) + [s[k]] else Filter(p, s[..k])
  {
    assert s[..k + 1] == s[..k] + [s[k]];
    FilterConcat(p, s[..k], [s[k]]);
  }
}
