/** The k-bucket layout of the routing table as plain values, and the laws of its operations. */
module Buckets {
  import opened Bytes
  import opened Addresses
  import opened XorMetric
  import opened Sorting

  const K: nat := 20
  const MAX_BUCKETS: nat := 160
  const NODE_TTL_SECS: nat := 3600
  const MAX_FAILURES: nat := 3

  datatype RoutingEntry = RoutingEntry(id: NodeId, addr: CompactAddr, lastSeen: U32, failures: Byte)
  {
    predicate Healthy() {
      failures < MAX_FAILURES
    }

    /** `now.saturating_sub(last_seen) > TTL`. */
    predicate Expired(now: U32) {
      now > lastSeen + NODE_TTL_SECS
    }
  }

  function LastSeen(e: RoutingEntry): int {
    e.lastSeen
  }

  function AddrOf(e: RoutingEntry): CompactAddr {
    e.addr
  }

  function IdOf(e: RoutingEntry): NodeId {
    e.id
  }

  predicate IsHealthy(e: RoutingEntry) {
    e.Healthy()
  }

  function HasAddr(addr: CompactAddr): RoutingEntry -> bool {
    (e: RoutingEntry) => e.addr == addr
  }

  function Replaceable(now: U32): RoutingEntry -> bool {
    (e: RoutingEntry) => !e.Healthy() || e.Expired(now)
  }

  function Retained(now: U32): RoutingEntry -> bool {
    (e: RoutingEntry) => e.Healthy() && !e.Expired(now)
  }

  // ---- one bucket ----

  /** What every bucket keeps: capacity, least recently seen first, one entry per address. */
  ghost predicate BucketOk(es: seq<RoutingEntry>) {
    |es| <= K && Sorted(LastSeen, es) && DistinctBy(AddrOf, es)
  }

  datatype Placement = Placed(entries: seq<RoutingEntry>, displaced: seq<RoutingEntry>) | Full

  /** `KBucket::insert`: refresh, append, or replace the first stale entry. */
  function Place(es: seq<RoutingEntry>, e: RoutingEntry): Placement {
    var i := Position(HasAddr(e.addr), es);
    if i < |es| then Placed(Sort(LastSeen, es[i := e]), [es[i]])
    else if |es| < K then Placed(Sort(LastSeen, es + [e]), [])
    else
      var j := Position(Replaceable(e.lastSeen), es);
      if j < |es| then Placed(Sort(LastSeen, es[j := e]), [es[j]]) else Full
  }

  /** A live entry at another address is never lost to an insertion. */
  ghost predicate MayDisplace(d: RoutingEntry, e: RoutingEntry) {
    d.addr == e.addr || !d.Healthy() || d.Expired(e.lastSeen)
  }

  lemma SortsIntoBucket(es: seq<RoutingEntry>)
    requires |es| <= K && DistinctBy(AddrOf, es)
    ensures BucketOk(Sort(LastSeen, es)) && multiset(Sort(LastSeen, es)) == multiset(es)
  {
    SortIsStableSort(LastSeen, es);
    SortKeepsDistinct(AddrOf, LastSeen, es);
  }

  /** Overwriting position i, when no other position holds the address of e. */
  lemma OverwriteEffect(es: seq<RoutingEntry>, i: nat, e: RoutingEntry)
    requires BucketOk(es) && i < |es|
    requires forall j :: 0 <= j < |es| && j != i ==> es[j].addr != e.addr
    ensures BucketOk(Sort(LastSeen, es[i := e]))
    ensures multiset(Sort(LastSeen, es[i := e])) + multiset{es[i]} == multiset(es) + multiset{e}
  {
    UpdatePermutes(es, i, e);
    SortsIntoBucket(es[i := e]);
  }

  /** One insertion into a well-formed bucket: it keeps the bucket well-formed, adds exactly
      the new entry, displaces at most one entry that may be displaced, and refuses exactly
      when the bucket is full of live entries at other addresses. */
  lemma PlaceEffect(es: seq<RoutingEntry>, e: RoutingEntry)
    requires BucketOk(es)
    ensures Place(es, e).Placed? ==>
      var p := Place(es, e);
      BucketOk(p.entries) && |p.displaced| <= 1 &&
      multiset(p.entries) + multiset(p.displaced) == multiset(es) + multiset{e} &&
      (forall d :: d in p.displaced ==> d in es && MayDisplace(d, e))
    ensures Place(es, e).Full? <==>
      |es| == K && forall x :: x in es ==> x.addr != e.addr && x.Healthy() && !x.Expired(e.lastSeen)
  {
    var i := Position(HasAddr(e.addr), es);
    var j := Position(Replaceable(e.lastSeen), es);
    if i < |es| {
      assert AddrOf(es[i]) == e.addr;
      forall k | 0 <= k < |es| && k != i
        ensures es[k].addr != e.addr
      {
        assert AddrOf(es[k]) != AddrOf(es[i]);
      }
      OverwriteEffect(es, i, e);
    } else if |es| < K {
      assert forall k :: 0 <= k < |es| ==> !HasAddr(e.addr)(es[k]);
      SortsIntoBucket(es + [e]);
    } else if j < |es| {
      assert forall k :: 0 <= k < |es| ==> !HasAddr(e.addr)(es[k]);
      OverwriteEffect(es, j, e);
    } else {
      assert forall k :: 0 <= k < |es| ==> !HasAddr(e.addr)(es[k]) && !Replaceable(e.lastSeen)(es[k]);
    }
  }

  // ---- the table ----

  datatype Bucket = Bucket(prefixLen: nat, entries: seq<RoutingEntry>)

  /** Every entry, bucket after bucket. */
  function Flat(bs: seq<Bucket>): seq<RoutingEntry> {
    if bs == [] then [] else bs[0].entries + Flat(bs[1..])
  }

  ghost predicate TableOk(bs: seq<Bucket>) {
    |bs| > 0 && forall i :: 0 <= i < |bs| ==> BucketOk(bs[i].entries) && bs[i].prefixLen < MAX_BUCKETS
  }

  predicate Contains(own: NodeId, b: Bucket, target: NodeId) {
    b.prefixLen == 0 || PrefixLen(own, target) >= b.prefixLen
  }

  function Covers(own: NodeId, target: NodeId): Bucket -> bool {
    (b: Bucket) => b.prefixLen <= PrefixLen(own, target) && Contains(own, b, target)
  }

  /** `find_bucket`: the first bucket that covers the target, or the first bucket. */
  function FindBucket(own: NodeId, bs: seq<Bucket>, target: NodeId): (i: nat)
    requires |bs| > 0
    ensures i < |bs|
  {
    var i := Position(Covers(own, target), bs);
    if i < |bs| then i else 0
  }

  /** Bucket i is the place of a node that shares p leading bits with us: the first one whose prefix is no longer
      than p, or the first of all when every prefix is longer. */
  ghost predicate Belongs(bs: seq<Bucket>, p: nat, i: nat) {
    i < |bs| &&
    if exists j :: 0 <= j < |bs| && bs[j].prefixLen <= p
    then bs[i].prefixLen <= p && forall j :: 0 <= j < i ==> bs[j].prefixLen > p
    else i == 0
  }

  /** A node has one place, and that is where it is looked for. */
  lemma FoundWhereItBelongs(own: NodeId, bs: seq<Bucket>, target: NodeId, i: nat)
    requires |bs| > 0
    ensures Belongs(bs, PrefixLen(own, target), i) <==> i == FindBucket(own, bs, target)
  {
    hide PrefixLen;
    var p, k := PrefixLen(own, target), Position(Covers(own, target), bs);
    forall j | 0 <= j < |bs|
      ensures bs[j].prefixLen <= p <==> Covers(own, target)(bs[j])
    {}
    if i < |bs| && i < k && Belongs(bs, p, i) {
      assert !Covers(own, target)(bs[i]);
    }
  }

  function Near(own: NodeId, prefix: nat): RoutingEntry -> bool {
    (e: RoutingEntry) => PrefixLen(own, e.id) >= prefix
  }

  function Far(own: NodeId, prefix: nat): RoutingEntry -> bool {
    (e: RoutingEntry) => PrefixLen(own, e.id) < prefix
  }

  function Deeper(prefix: nat): Bucket -> bool {
    (b: Bucket) => b.prefixLen > prefix
  }

  function InsertAt<T>(s: seq<T>, i: nat, x: T): (r: seq<T>)
    requires i <= |s|
    ensures |r| == |s| + 1
  {
    s[..i] + [x] + s[i..]
  }

  /** The two halves of a bucket: ids that share the longer prefix with our own, and the rest.
      Both halves carry the longer prefix length. */
  function NearHalf(own: NodeId, b: Bucket): Bucket {
    Bucket(b.prefixLen + 1, Filter(Near(own, b.prefixLen + 1), b.entries))
  }

  function FarHalf(own: NodeId, b: Bucket): Bucket {
    Bucket(b.prefixLen + 1, Filter(Far(own, b.prefixLen + 1), b.entries))
  }

  /** Replace bucket i by its far half and put the near half before the first deeper bucket. */
  function Halve(bs: seq<Bucket>, i: nat, far: Bucket, near: Bucket): (r: seq<Bucket>)
    requires i < |bs|
    ensures |r| == |bs| + 1
  {
    InsertAt(bs[i := far], Position(Deeper(near.prefixLen), bs[i := far]), near)
  }

  /** `split_bucket`. */
  function Split(own: NodeId, bs: seq<Bucket>, i: nat): (r: seq<Bucket>)
    requires i < |bs|
    ensures |r| > 0
  {
    if !Contains(own, bs[i], own) || bs[i].prefixLen >= MAX_BUCKETS - 1 then bs
    else Halve(bs, i, FarHalf(own, bs[i]), NearHalf(own, bs[i]))
  }

  datatype Insertion = Insertion(buckets: seq<Bucket>, ok: bool, displaced: seq<RoutingEntry>)

  /** Place into bucket i. */
  function Attempt(bs: seq<Bucket>, i: nat, e: RoutingEntry): (r: Insertion)
    requires i < |bs|
    ensures |r.buckets| == |bs|
  {
    match Place(bs[i].entries, e)
    case Placed(es, d) => Insertion(bs[i := bs[i].(entries := es)], true, d)
    case Full => Insertion(bs, false, [])
  }

  /** `insert_entry`: place directly, else split and place again. */
  function InsertEntry(own: NodeId, bs: seq<Bucket>, e: RoutingEntry): Insertion
    requires |bs| > 0
  {
    var i := FindBucket(own, bs, e.id);
    var first := Attempt(bs, i, e);
    if first.ok then first
    else if Contains(own, bs[i], own) then
      var cs := Split(own, bs, i);
      Attempt(cs, FindBucket(own, cs, e.id), e)
    else first
  }

  lemma {:induction false} FlatConcat(bs: seq<Bucket>, cs: seq<Bucket>)
    ensures Flat(bs + cs) == Flat(bs) + Flat(cs)
  {
    if bs == [] {
      assert bs + cs == cs;
    } else {
      assert (bs + cs)[1..] == bs[1..] + cs;
      FlatConcat(bs[1..], cs);
    }
  }

  lemma FlatAround(bs: seq<Bucket>, i: nat)
    requires i < |bs|
    ensures Flat(bs) == Flat(bs[..i]) + (bs[i].entries + Flat(bs[i + 1..]))
  {
    var tail := bs[i..];
    assert bs == bs[..i] + tail;
    FlatConcat(bs[..i], tail);
    assert tail[0] == bs[i] && tail[1..] == bs[i + 1..];
  }

  lemma FlatUpdate(bs: seq<Bucket>, i: nat, b: Bucket)
    requires i < |bs|
    ensures multiset(Flat(bs[i := b])) + multiset(bs[i].entries) == multiset(Flat(bs)) + multiset(b.entries)
  {
    FlatAround(bs, i);
    FlatAround(bs[i := b], i);
    assert bs[i := b][..i] == bs[..i] && bs[i := b][i + 1..] == bs[i + 1..];
  }

  lemma InsertMiddle<T(!new)>(front: seq<T>, middle: seq<T>, back: seq<T>)
    ensures multiset(front + (middle + back)) == multiset(front + back) + multiset(middle)
  {}

  lemma FlatOfInsertAt(bs: seq<Bucket>, i: nat, b: Bucket)
    requires i <= |bs|
    ensures Flat(InsertAt(bs, i, b)) == Flat(bs[..i]) + (b.entries + Flat(bs[i..]))
  {
    var back := [b] + bs[i..];
    assert InsertAt(bs, i, b) == bs[..i] + back;
    FlatConcat(bs[..i], back);
    assert back[0] == b && back[1..] == bs[i..];
  }

  lemma FlatInsertAt(bs: seq<Bucket>, i: nat, b: Bucket)
    requires i <= |bs|
    ensures multiset(Flat(InsertAt(bs, i, b))) == multiset(Flat(bs)) + multiset(b.entries)
  {
    FlatOfInsertAt(bs, i, b);
    FlatConcat(bs[..i], bs[i..]);
    assert bs == bs[..i] + bs[i..];
    InsertMiddle(Flat(bs[..i]), b.entries, Flat(bs[i..]));
  }

  lemma {:induction false} FlatMembers(bs: seq<Bucket>)
    ensures forall i, e :: 0 <= i < |bs| && e in bs[i].entries ==> e in Flat(bs)
  {
    if bs == [] {
    } else {
      FlatMembers(bs[1..]);
      forall i, e | 0 <= i < |bs| && e in bs[i].entries
        ensures e in Flat(bs)
      {
        if i > 0 {
          assert bs[i] == bs[1..][i - 1];
        }
      }
    }
  }

  lemma FilterPartition(own: NodeId, prefix: nat, es: seq<RoutingEntry>)
    ensures multiset(Filter(Near(own, prefix), es)) + multiset(Filter(Far(own, prefix), es)) == multiset(es)
  {
    hide PrefixLen, Filter;
    FilterSplits(Near(own, prefix), Far(own, prefix), es);
  }

  lemma FilterKeepsBucketOk(p: RoutingEntry -> bool, es: seq<RoutingEntry>)
    requires BucketOk(es)
    ensures BucketOk(Filter(p, es))
  {
    FilterSorted(p, LastSeen, es);
    FilterKeepsDistinct(AddrOf, p, es);
  }

  /** `bucket_contains(_, own_id)` never fails on a table the code can build. */
  lemma EveryBucketContainsOwnId(own: NodeId, b: Bucket)
    requires b.prefixLen < MAX_BUCKETS
    ensures Contains(own, b, own)
  {
    PrefixLenBoundsDistance(own, own, own, own);
  }

  lemma SplitHalves(own: NodeId, prefix: nat, es: seq<RoutingEntry>)
    requires BucketOk(es)
    ensures multiset(Filter(Near(own, prefix), es)) + multiset(Filter(Far(own, prefix), es)) == multiset(es)
    ensures BucketOk(Filter(Near(own, prefix), es)) && BucketOk(Filter(Far(own, prefix), es))
  {
    FilterPartition(own, prefix, es);
    FilterKeepsBucketOk(Far(own, prefix), es);
    FilterKeepsBucketOk(Near(own, prefix), es);
  }

  lemma HalveConserves(bs: seq<Bucket>, i: nat, far: Bucket, near: Bucket)
    requires i < |bs|
    requires multiset(near.entries) + multiset(far.entries) == multiset(bs[i].entries)
    ensures multiset(Flat(Halve(bs, i, far, near))) == multiset(Flat(bs))
  {
    FlatUpdate(bs, i, far);
    FlatInsertAt(bs[i := far], Position(Deeper(near.prefixLen), bs[i := far]), near);
    Balance(multiset(Flat(bs[i := far])), multiset(Flat(bs)), multiset(bs[i].entries),
            multiset(far.entries), multiset(near.entries), multiset{});
  }

  lemma HalveOk(bs: seq<Bucket>, i: nat, far: Bucket, near: Bucket)
    requires TableOk(bs) && i < |bs|
    requires BucketOk(far.entries) && far.prefixLen < MAX_BUCKETS
    requires BucketOk(near.entries) && near.prefixLen < MAX_BUCKETS
    ensures TableOk(Halve(bs, i, far, near))
  {}

  lemma SplitIsHalve(own: NodeId, bs: seq<Bucket>, i: nat)
    requires i < |bs| && bs[i].prefixLen < MAX_BUCKETS
    ensures Split(own, bs, i) ==
      if bs[i].prefixLen < MAX_BUCKETS - 1 then Halve(bs, i, FarHalf(own, bs[i]), NearHalf(own, bs[i])) else bs
  {
    EveryBucketContainsOwnId(own, bs[i]);
  }

  lemma HalvesConserve(own: NodeId, bs: seq<Bucket>, i: nat)
    requires TableOk(bs) && i < |bs| && bs[i].prefixLen < MAX_BUCKETS - 1
    ensures multiset(Flat(Halve(bs, i, FarHalf(own, bs[i]), NearHalf(own, bs[i])))) == multiset(Flat(bs))
    ensures TableOk(Halve(bs, i, FarHalf(own, bs[i]), NearHalf(own, bs[i])))
  {
    SplitHalves(own, bs[i].prefixLen + 1, bs[i].entries);
    HalveConserves(bs, i, FarHalf(own, bs[i]), NearHalf(own, bs[i]));
    HalveOk(bs, i, FarHalf(own, bs[i]), NearHalf(own, bs[i]));
  }

  /** A split moves entries between buckets and loses or invents none. */
  lemma SplitConserves(own: NodeId, bs: seq<Bucket>, i: nat)
    requires TableOk(bs) && i < |bs|
    ensures multiset(Flat(Split(own, bs, i))) == multiset(Flat(bs))
    ensures TableOk(Split(own, bs, i))
    ensures |Split(own, bs, i)| == |bs| + (if bs[i].prefixLen < MAX_BUCKETS - 1 then 1 else 0)
  {
    SplitIsHalve(own, bs, i);
    if bs[i].prefixLen < MAX_BUCKETS - 1 {
      HalvesConserve(own, bs, i);
    }
  }

  lemma Balance(now: multiset<RoutingEntry>, was: multiset<RoutingEntry>, before: multiset<RoutingEntry>,
                after: multiset<RoutingEntry>, out: multiset<RoutingEntry>, added: multiset<RoutingEntry>)
    requires now + before == was + after
    requires after + out == before + added
    ensures now + out == was + added
  {
    forall x
      ensures (now + out)[x] == (was + added)[x]
    {
      assert (now + before)[x] == (was + after)[x];
      assert (after + out)[x] == (before + added)[x];
    }
  }

  /** Placing into bucket i of a well-formed table. */
  lemma AttemptConserves(bs: seq<Bucket>, i: nat, e: RoutingEntry)
    requires TableOk(bs) && i < |bs|
    ensures Conserves(bs, e, Attempt(bs, i, e))
  {
    PlaceEffect(bs[i].entries, e);
    if Place(bs[i].entries, e).Placed? {
      var p := Place(bs[i].entries, e);
      var b := bs[i].(entries := p.entries);
      FlatUpdate(bs, i, b);
      FlatMembers(bs);
      Balance(multiset(Flat(bs[i := b])), multiset(Flat(bs)), multiset(bs[i].entries),
              multiset(p.entries), multiset(p.displaced), multiset{e});
    }
  }

  /** What an insertion may do: keep the table well-formed and, when it succeeds, add exactly the new
      entry and displace at most one, never a live one at another address; when it fails, leave the
      multiset of entries unchanged. */
  ghost predicate Conserves(bs: seq<Bucket>, e: RoutingEntry, r: Insertion) {
    && TableOk(r.buckets)
    && |r.displaced| <= 1
    && (forall d :: d in r.displaced ==> d in Flat(bs) && MayDisplace(d, e))
    && multiset(Flat(r.buckets)) + multiset(r.displaced) ==
         multiset(Flat(bs)) + (if r.ok then multiset{e} else multiset{})
  }

  lemma ConservesAfterSplit(bs: seq<Bucket>, cs: seq<Bucket>, e: RoutingEntry, r: Insertion)
    requires multiset(Flat(bs)) == multiset(Flat(cs)) && Conserves(cs, e, r)
    ensures Conserves(bs, e, r)
  {
    forall d | d in r.displaced
      ensures d in Flat(bs)
    {
      assert d in multiset(Flat(cs));
    }
  }

  /** Every insertion conserves entries. */
  lemma InsertEntryConserves(own: NodeId, bs: seq<Bucket>, e: RoutingEntry)
    requires TableOk(bs)
    ensures Conserves(bs, e, InsertEntry(own, bs, e))
  {
    var i := FindBucket(own, bs, e.id);
    AttemptConserves(bs, i, e);
    if !Attempt(bs, i, e).ok && Contains(own, bs[i], own) {
      var cs := Split(own, bs, i);
      SplitConserves(own, bs, i);
      AttemptConserves(cs, FindBucket(own, cs, e.id), e);
      ConservesAfterSplit(bs, cs, e, InsertEntry(own, bs, e));
    }
  }

  /** A bucket that refuses an entry: it is full of live entries at other addresses. */
  ghost predicate FullOfOthers(es: seq<RoutingEntry>, e: RoutingEntry) {
    |es| == K && forall x :: x in es ==> x.addr != e.addr && x.Healthy() && !x.Expired(e.lastSeen)
  }

  ghost predicate RefusedBy(bs: seq<Bucket>, p: nat, e: RoutingEntry) {
    exists j: nat :: Belongs(bs, p, j) && FullOfOthers(bs[j].entries, e)
  }

  /** The insertion fails only at the node's own place, as it is after the split, and only when that is full of live
      entries at other addresses. */
  lemma InsertEntryRefusal(own: NodeId, bs: seq<Bucket>, e: RoutingEntry)
    requires TableOk(bs) && !InsertEntry(own, bs, e).ok
    ensures RefusedBy(InsertEntry(own, bs, e).buckets, PrefixLen(own, e.id), e)
  {
    var i := FindBucket(own, bs, e.id);
    EveryBucketContainsOwnId(own, bs[i]);
    SplitConserves(own, bs, i);
    var cs := Split(own, bs, i);
    var j := FindBucket(own, cs, e.id);
    FoundWhereItBelongs(own, cs, e.id, j);
    hide Split, FindBucket, Contains, Flat, BucketOk, Place, Belongs;
    RefusedAt(cs, j, e);
  }

  lemma RefusedAt(cs: seq<Bucket>, j: nat, e: RoutingEntry)
    requires TableOk(cs) && j < |cs| && !Attempt(cs, j, e).ok
    ensures Attempt(cs, j, e).buckets == cs && FullOfOthers(cs[j].entries, e)
  {
    PlaceEffect(cs[j].entries, e);
  }

  /** Whether a bucket trades an entry for the new one: it holds the address, or is full and has somebody to
      replace. */
  predicate Trades(es: seq<RoutingEntry>, e: RoutingEntry) {
    (exists x :: x in es && x.addr == e.addr) || (|es| >= K && exists x :: x in es && Replaceable(e.lastSeen)(x))
  }

  predicate Refuses(es: seq<RoutingEntry>, e: RoutingEntry) {
    |es| >= K && !Trades(es, e)
  }

  lemma PlaceTrades(es: seq<RoutingEntry>, e: RoutingEntry)
    ensures Place(es, e).Placed? <==> !Refuses(es, e)
    ensures Place(es, e).Placed? ==> (Place(es, e).displaced != [] <==> Trades(es, e))
  {
    var i, j := Position(HasAddr(e.addr), es), Position(Replaceable(e.lastSeen), es);
    assert forall k :: 0 <= k < |es| ==> (HasAddr(e.addr)(es[k]) <==> es[k].addr == e.addr);
    if i < |es| {
      assert es[i] in es;
    } else if j < |es| {
      assert es[j] in es;
    }
  }

  /** When an insertion displaces an entry, and so makes the cached count run ahead of the true one: exactly when the
      bucket where the node belongs trades, or refuses and the one where it belongs after the split trades. */
  lemma DisplacesExactly(own: NodeId, bs: seq<Bucket>, e: RoutingEntry, i: nat, j: nat)
    requires TableOk(bs) && Belongs(bs, PrefixLen(own, e.id), i)
    requires Belongs(Split(own, bs, i), PrefixLen(own, e.id), j)
    ensures InsertEntry(own, bs, e).displaced != [] <==>
      Trades(bs[i].entries, e) || (Refuses(bs[i].entries, e) && Trades(Split(own, bs, i)[j].entries, e))
  {
    FoundWhereItBelongs(own, bs, e.id, i);
    EveryBucketContainsOwnId(own, bs[i]);
    var cs := Split(own, bs, i);
    FoundWhereItBelongs(own, cs, e.id, j);
    PlaceTrades(bs[i].entries, e);
    PlaceTrades(cs[j].entries, e);
    hide Split, FindBucket, Contains, Place, Trades, Belongs;
  }

  /** One such insertion: a table of one entry, refreshed, displaces its old copy; there is one entry still, and the
      cached count has grown. */
  lemma RefreshDisplaces(own: NodeId, e: RoutingEntry, now: U32)
    ensures var r := InsertEntry(own, [Bucket(0, [e])], e.(lastSeen := now));
      r.ok && r.displaced == [e] && |Flat(r.buckets)| == 1
  {
    var r := InsertEntry(own, [Bucket(0, [e])], e.(lastSeen := now));
    PositionUnique(HasAddr(e.addr), [e], 0);
    assert r.buckets[1..] == [];
  }

  // ---- removal, refresh, failure marks and eviction ----

  function HoldsAddr(addr: CompactAddr): Bucket -> bool {
    (b: Bucket) => Position(HasAddr(addr), b.entries) < |b.entries|
  }

  /** What removing an address leaves of one bucket. */
  function DropAddr(es: seq<RoutingEntry>, addr: CompactAddr): seq<RoutingEntry> {
    var p := Position(HasAddr(addr), es);
    if p < |es| then Without(es, p) else es
  }

  function Touch(es: seq<RoutingEntry>, addr: CompactAddr, now: U32): seq<RoutingEntry> {
    var p := Position(HasAddr(addr), es);
    if p < |es| then Sort(LastSeen, es[p := es[p].(lastSeen := now, failures := 0)]) else es
  }

  function Fail(es: seq<RoutingEntry>, addr: CompactAddr): seq<RoutingEntry> {
    var p := Position(HasAddr(addr), es);
    if p < |es| then es[p := es[p].(failures := if es[p].failures == 255 then 255 else es[p].failures + 1)] else es
  }

  /** Apply an update to the first bucket that holds the address. */
  function AtFirstHolder(bs: seq<Bucket>, addr: CompactAddr,
                         update: seq<RoutingEntry> -> seq<RoutingEntry>): seq<Bucket> {
    var i := Position(HoldsAddr(addr), bs);
    if i < |bs| then bs[i := bs[i].(entries := update(bs[i].entries))] else bs
  }

  function Dropping(addr: CompactAddr): seq<RoutingEntry> -> seq<RoutingEntry> {
    es => DropAddr(es, addr)
  }

  function Touching(addr: CompactAddr, now: U32): seq<RoutingEntry> -> seq<RoutingEntry> {
    es => Touch(es, addr, now)
  }

  function Failing(addr: CompactAddr): seq<RoutingEntry> -> seq<RoutingEntry> {
    es => Fail(es, addr)
  }

  function Evict(b: Bucket, now: U32): Bucket {
    b.(entries := Filter(Retained(now), b.entries))
  }

  /** The table after the first n buckets have been cleaned. */
  function EvictFirst(bs: seq<Bucket>, n: nat, now: U32): (r: seq<Bucket>)
    requires n <= |bs|
    ensures |r| == |bs|
  {
    seq(|bs|, i requires 0 <= i < |bs| => if i < n then Evict(bs[i], now) else bs[i])
  }

  function EvictAll(bs: seq<Bucket>, now: U32): (r: seq<Bucket>)
    ensures |r| == |bs|
  {
    EvictFirst(bs, |bs|, now)
  }

  lemma {:induction false} FlatHolds(bs: seq<Bucket>, addr: CompactAddr)
    ensures Position(HoldsAddr(addr), bs) < |bs| <==> exists e :: e in Flat(bs) && e.addr == addr
  {
    if bs == [] {
    } else {
      FlatHolds(bs[1..], addr);
      var p := Position(HasAddr(addr), bs[0].entries);
      if p < |bs[0].entries| {
        assert bs[0].entries[p] in Flat(bs) && HasAddr(addr)(bs[0].entries[p]);
      } else {
        assert forall j :: 0 <= j < |bs[0].entries| ==> !HasAddr(addr)(bs[0].entries[j]);
        assert forall e :: e in Flat(bs) && e.addr == addr <==> e in Flat(bs[1..]) && e.addr == addr;
      }
    }
  }

  /** Removal takes out exactly one entry of that address, when there is one. */
  lemma RemoveEffect(bs: seq<Bucket>, addr: CompactAddr)
    requires TableOk(bs)
    ensures var r := AtFirstHolder(bs, addr, Dropping(addr));
      TableOk(r) &&
      if exists e :: e in Flat(bs) && e.addr == addr
      then exists e: RoutingEntry :: e.addr == addr && multiset(Flat(r)) + multiset{e} == multiset(Flat(bs))
      else r == bs
  {
    FlatHolds(bs, addr);
    var i := Position(HoldsAddr(addr), bs);
    if i < |bs| {
      var es := bs[i].entries;
      var p := Position(HasAddr(addr), es);
      assert HoldsAddr(addr)(bs[i]);
      DropEffect(bs, i, p);
      assert HasAddr(addr)(es[p]);
      assert AtFirstHolder(bs, addr, Dropping(addr)) == bs[i := bs[i].(entries := Without(es, p))];
    }
  }

  lemma DropEffect(bs: seq<Bucket>, i: nat, p: nat)
    requires TableOk(bs) && i < |bs| && p < |bs[i].entries|
    ensures var b := bs[i].(entries := Without(bs[i].entries, p));
      TableOk(bs[i := b]) && multiset(Flat(bs[i := b])) + multiset{bs[i].entries[p]} == multiset(Flat(bs))
  {
    DropKeepsBucketOk(bs[i].entries, p);
    DropConserves(bs, i, p);
  }

  lemma DropConserves(bs: seq<Bucket>, i: nat, p: nat)
    requires i < |bs| && p < |bs[i].entries|
    ensures multiset(Flat(bs[i := bs[i].(entries := Without(bs[i].entries, p))])) +
      multiset{bs[i].entries[p]} == multiset(Flat(bs))
  {
    var es := bs[i].entries;
    var b := bs[i].(entries := Without(es, p));
    var cs := bs[i := b];
    FlatUpdate(bs, i, b);
    Balance(multiset(Flat(cs)), multiset(Flat(bs)), multiset(es), multiset(b.entries), multiset{es[p]}, multiset{});
  }

  lemma DropKeepsBucketOk(es: seq<RoutingEntry>, p: nat)
    requires BucketOk(es) && p < |es|
    ensures BucketOk(Without(es, p))
  {}

  /** Touching and failing rewrite one entry in place. */
  lemma RewriteEffect(bs: seq<Bucket>, addr: CompactAddr, now: U32)
    requires TableOk(bs)
    ensures TableOk(AtFirstHolder(bs, addr, Touching(addr, now)))
    ensures TableOk(AtFirstHolder(bs, addr, Failing(addr)))
    ensures |Flat(AtFirstHolder(bs, addr, Touching(addr, now)))| == |Flat(bs)|
    ensures |Flat(AtFirstHolder(bs, addr, Failing(addr)))| == |Flat(bs)|
  {
    var i := Position(HoldsAddr(addr), bs);
    if i < |bs| {
      TouchKeepsBucketOk(bs[i].entries, addr, now);
      SameSizeUpdate(bs, i, Touch(bs[i].entries, addr, now));
      SameSizeUpdate(bs, i, Fail(bs[i].entries, addr));
    }
  }

  lemma SameSizeUpdate(bs: seq<Bucket>, i: nat, es: seq<RoutingEntry>)
    requires TableOk(bs) && i < |bs| && BucketOk(es) && |es| == |bs[i].entries|
    ensures TableOk(bs[i := bs[i].(entries := es)])
    ensures |Flat(bs[i := bs[i].(entries := es)])| == |Flat(bs)|
  {
    var cs := bs[i := bs[i].(entries := es)];
    FlatAround(bs, i);
    FlatAround(cs, i);
    assert cs[..i] == bs[..i] && cs[i + 1..] == bs[i + 1..];
  }

  lemma TouchKeepsBucketOk(es: seq<RoutingEntry>, addr: CompactAddr, now: U32)
    requires BucketOk(es)
    ensures BucketOk(Touch(es, addr, now)) && |Touch(es, addr, now)| == |es|
    ensures BucketOk(Fail(es, addr)) && |Fail(es, addr)| == |es|
  {
    var p := Position(HasAddr(addr), es);
    if p < |es| {
      SortsIntoBucket(es[p := es[p].(lastSeen := now, failures := 0)]);
    }
  }

  /** Eviction is a filter on the whole table, whatever the layout. */
  lemma {:induction false} EvictFilters(bs: seq<Bucket>, now: U32)
    ensures Flat(EvictAll(bs, now)) == Filter(Retained(now), Flat(bs))
  {
    if bs == [] {
    } else {
      EvictFilters(bs[1..], now);
      assert EvictAll(bs, now)[1..] == EvictAll(bs[1..], now);
      FilterConcat(Retained(now), bs[0].entries, Flat(bs[1..]));
    }
  }

  lemma EvictKeepsTableOk(bs: seq<Bucket>, now: U32)
    requires TableOk(bs)
    ensures TableOk(EvictAll(bs, now))
  {
    forall i | 0 <= i < |bs|
      ensures BucketOk(EvictAll(bs, now)[i].entries)
    {
      FilterKeepsBucketOk(Retained(now), bs[i].entries);
    }
  }

  // ---- refresh ----

  function RefreshDue(now: U32): RoutingEntry -> bool {
    (e: RoutingEntry) => e.Healthy() && now > e.lastSeen + 300
  }

  function RefreshCandidates(bs: seq<Bucket>, now: U32): seq<CompactAddr> {
    if bs == [] then []
    else
      var p := Position(RefreshDue(now), bs[0].entries);
      (if p < |bs[0].entries| then [bs[0].entries[p].addr] else []) + RefreshCandidates(bs[1..], now)
  }

  /** The entry a bucket offers for refresh is its least recently seen healthy one, and a bucket
      offers none exactly when all its healthy entries were seen in the last 300 seconds. */
  lemma RefreshPicksOldest(es: seq<RoutingEntry>, now: U32)
    requires BucketOk(es)
    ensures var p := Position(RefreshDue(now), es);
      if p < |es| then es[p].Healthy() && forall x :: x in es && x.Healthy() ==> es[p].lastSeen <= x.lastSeen
      else forall x :: x in es && x.Healthy() ==> now <= x.lastSeen + 300
  {}
}
