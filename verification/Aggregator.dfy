/** The aggregator: merge what the discoverers found, deduplicate, rank and truncate. */
module Aggregator {
  import opened Bytes
  import opened Addresses
  import opened Sorting
  import opened TopK
  import opened Peers
  import C = PeerCache

  // ---- the order of socket addresses ----

  /** IPv4 before IPv6, then by IP, then by port. */
  function AddrKey(a: SocketAddr): int {
    match FromSocket(a)
    case V4(buf) => Value(buf)
    case V6(buf6) => 0x1_0000_0000_0000 + Value(buf6)
  }

  function ByAddr(p: PeerInfo): int {
    AddrKey(p.addr)
  }

  lemma SixBytesBounded(b: Packed6)
    ensures Value(b) < 0x1_0000_0000_0000
  {
    ValueBounded(b);
    hide Pow2, Value;
    SixBytesOfBits();
    assert 8 * |b| == 48;
  }

  lemma SixBytesOfBits()
    ensures Pow2(48) == 0x1_0000_0000_0000
  {
    hide Pow2;
    Pow2OfByte(5);
    Pow2OfByte(4);
    Pow2OfByte(3);
    Pow2OfByte(2);
    Pow2OfByte(1);
    EightBits();
  }

  lemma EightBits()
    ensures Pow2(8) == 256
  {}

  lemma AddrKeyInjective(a: SocketAddr, b: SocketAddr)
    ensures AddrKey(a) == AddrKey(b) ==> a == b
  {
    hide Value;
    var x, y := FromSocket(a), FromSocket(b);
    PackingIsABijection(a, x);
    PackingIsABijection(b, y);
    if x.V4? {
      SixBytesBounded(x.buf);
    }
    if y.V4? {
      SixBytesBounded(y.buf);
    }
    if AddrKey(a) == AddrKey(b) {
      if x.V4? && y.V4? {
        ValueInjective(x.buf, y.buf);
      } else {
        ValueInjective(x.buf6, y.buf6);
      }
    }
  }

  /** The order is the one of socket addresses: IPv4 before IPv6, then by IP, then by port. */
  lemma AddrOrder(a: SocketAddr, b: SocketAddr)
    ensures AddrKey(a) < AddrKey(b) <==>
      (a.ip.IpV4? && b.ip.IpV6?) ||
      (a.ip.IpV4? == b.ip.IpV4? && (IpValue(a.ip) < IpValue(b.ip) ||
        (IpValue(a.ip) == IpValue(b.ip) && a.port < b.port)))
  {
    KeyParts(a);
    KeyParts(b);
    if a.ip.IpV4? {
      SixBytesBounded(FromSocket(a).buf);
    }
    if b.ip.IpV4? {
      SixBytesBounded(FromSocket(b).buf);
    }
    hide FromSocket, Value;
  }

  function IpValue(ip: IpAddr): nat {
    match ip
    case IpV4(o) => Value(o)
    case IpV6(o) => Value(o)
  }

  lemma KeyParts(a: SocketAddr)
    ensures AddrKey(a) == IpValue(a.ip) * 0x1_0000 + a.port + (if a.ip.IpV4? then 0 else 0x1_0000_0000_0000)
  {
    match a.ip
    case IpV4(o) => ThenPort(o, a.port);
    case IpV6(o) => ThenPort(o, a.port);
  }

  lemma ThenPort(o: seq<Byte>, port: Port)
    ensures Value(o + PortBytes(port)) == Value(o) * 0x1_0000 + port
  {
    var s := o + PortBytes(port);
    assert s[..|s| - 1] == o + [PortBytes(port)[0]];
    assert (o + [PortBytes(port)[0]])[..|o|] == o;
  }

  // ---- deduplication ----

  function HasAddr(a: SocketAddr): PeerInfo -> bool {
    (p: PeerInfo) => p.addr == a
  }

  /** `dedup_by` on addresses: of neighbours at one address the first stays. */
  function Dedup(s: seq<PeerInfo>): (r: seq<PeerInfo>)
    ensures |r| <= |s|
    decreases |s|
  {
    if |s| <= 1 then s
    else if s[1].addr == s[0].addr then Dedup([s[0]] + s[2..])
    else [s[0]] + Dedup(s[1..])
  }

  /** The reference: the first copy of each address, in the order of the list. */
  function FirstCopies(s: seq<PeerInfo>): (r: seq<PeerInfo>)
    ensures |r| <= |s|
  {
    if s == [] then []
    else
      var front, p := FirstCopies(s[..|s| - 1]), s[|s| - 1];
      if Position(HasAddr(p.addr), front) < |front| then front else front + [p]
  }

  lemma {:induction false} WithKeyConcat(k: int, s: seq<PeerInfo>, t: seq<PeerInfo>)
    ensures WithKey(ByAddr, k, s + t) == WithKey(ByAddr, k, s) + WithKey(ByAddr, k, t)
  {
    hide ByAddr;
    if s == [] {
      assert s + t == t;
    } else {
      var u := s + t;
      assert u[1..] == s[1..] + t && u[0] == s[0];
      WithKeyConcat(k, s[1..], t);
      Regroup(if ByAddr(s[0]) == k then [s[0]] else [], WithKey(ByAddr, k, s[1..]), WithKey(ByAddr, k, t));
    }
  }

  lemma Regroup(a: seq<PeerInfo>, b: seq<PeerInfo>, c: seq<PeerInfo>)
    ensures a + (b + c) == (a + b) + c
  {}

  lemma {:induction false} NoneWithKey(k: int, s: seq<PeerInfo>)
    requires forall p :: p in s ==> ByAddr(p) != k
    ensures WithKey(ByAddr, k, s) == []
  {
    if s == [] {
    } else {
      NoneWithKey(k, s[1..]);
    }
  }

  lemma {:induction false} DedupFirst(s: seq<PeerInfo>)
    ensures s != [] ==> Dedup(s) != [] && Dedup(s)[0] == s[0]
    ensures forall p :: p in Dedup(s) ==> p in s
    decreases |s|
  {
    if |s| > 1 {
      if s[1].addr == s[0].addr {
        var u := [s[0]] + s[2..];
        DedupFirst(u);
        assert forall p :: p in u ==> p in s;
      } else {
        DedupFirst(s[1..]);
      }
    }
  }

  lemma {:induction false} DedupSorted(s: seq<PeerInfo>)
    requires Sorted(ByAddr, s)
    ensures Sorted(ByAddr, Dedup(s))
    decreases |s|
  {
    hide ByAddr;
    if |s| > 1 {
      if s[1].addr == s[0].addr {
        DedupSorted([s[0]] + s[2..]);
      } else {
        DedupSorted(s[1..]);
        DedupFirst(s[1..]);
        forall p | p in Dedup(s[1..])
          ensures ByAddr(s[0]) <= ByAddr(p)
        {
          assert p in s[1..];
        }
      }
    }
  }

  /** In a list sorted by address, of each address exactly the first copy survives. */
  lemma {:induction false} DedupKeepsFirst(s: seq<PeerInfo>, k: int)
    requires Sorted(ByAddr, s)
    ensures WithKey(ByAddr, k, Dedup(s)) == Take(1, WithKey(ByAddr, k, s))
    decreases |s|
  {
    hide ByAddr;
    if |s| == 1 {
      assert WithKey(ByAddr, k, s[1..]) == [];
    } else if |s| > 1 {
      var tail := s[1..];
      if s[1].addr == s[0].addr {
        SameKey(s[0], s[1]);
        var u := [s[0]] + s[2..];
        assert u[1..] == s[2..] && tail[1..] == s[2..];
        DedupKeepsFirst(u, k);
      } else {
        DedupKeepsFirst(tail, k);
        if ByAddr(s[0]) == k {
          LaterAreLarger(s);
          NoneWithKey(k, tail);
        }
      }
    }
  }

  lemma SameKey(p: PeerInfo, q: PeerInfo)
    requires p.addr == q.addr
    ensures ByAddr(p) == ByAddr(q)
  {}

  lemma LaterAreLarger(s: seq<PeerInfo>)
    requires |s| > 1 && Sorted(ByAddr, s) && s[0].addr != s[1].addr
    ensures forall p :: p in s[1..] ==> ByAddr(p) != ByAddr(s[0])
  {
    if ByAddr(s[0]) == ByAddr(s[1]) {
      AddrKeyInjective(s[0].addr, s[1].addr);
    }
    forall p | p in s[1..]
      ensures ByAddr(p) != ByAddr(s[0])
    {
      var i :| 0 <= i < |s[1..]| && s[1..][i] == p;
      assert ByAddr(s[0]) <= ByAddr(s[1]) <= ByAddr(s[i + 1]);
    }
  }

  lemma {:induction false} FirstCopiesByKey(s: seq<PeerInfo>, k: int)
    ensures WithKey(ByAddr, k, FirstCopies(s)) == Take(1, WithKey(ByAddr, k, s))
  {
    if s == [] {
    } else {
      var front, p := s[..|s| - 1], s[|s| - 1];
      assert s == front + [p];
      FirstCopiesByKey(front, k);
      hide ByAddr;
      WithKeyConcat(k, front, [p]);
      WithKeyConcat(k, FirstCopies(front), [p]);
      assert WithKey(ByAddr, k, [p]) == (if ByAddr(p) == k then [p] else []) + WithKey(ByAddr, k, [p][1..]);
      if ByAddr(p) == k {
        KnownIffKeyTaken(FirstCopies(front), p);
      }
    }
  }

  /** An address is known to a list exactly when its key class there is not empty. */
  lemma KnownIffKeyTaken(s: seq<PeerInfo>, p: PeerInfo)
    ensures Position(HasAddr(p.addr), s) < |s| <==> WithKey(ByAddr, ByAddr(p), s) != []
  {
    var i := Position(HasAddr(p.addr), s);
    WithKeyMembers(ByAddr, ByAddr(p), s);
    if i < |s| {
      assert HasAddr(p.addr)(s[i]) && s[i] in s;
      SameKey(s[i], p);
      assert s[i] in WithKey(ByAddr, ByAddr(p), s);
    } else {
      forall q | q in s
        ensures ByAddr(q) != ByAddr(p)
      {
        var j :| 0 <= j < |s| && s[j] == q;
        assert !HasAddr(p.addr)(s[j]);
        if ByAddr(q) == ByAddr(p) {
          AddrKeyInjective(q.addr, p.addr);
        }
      }
      NoneWithKey(ByAddr(p), s);
    }
  }

  /** Sorting by address and dropping equal neighbours is sorting the first copies: the stable sort
      makes the earliest copy of each address win. */
  lemma DedupIsFirstCopies(s: seq<PeerInfo>)
    ensures Dedup(Sort(ByAddr, s)) == Sort(ByAddr, FirstCopies(s))
  {
    hide ByAddr;
    var t, u := Sort(ByAddr, s), Sort(ByAddr, FirstCopies(s));
    SortIsStableSort(ByAddr, s);
    SortIsStableSort(ByAddr, FirstCopies(s));
    DedupSorted(t);
    forall k
      ensures WithKey(ByAddr, k, Dedup(t)) == WithKey(ByAddr, k, u)
    {
      DedupKeepsFirst(t, k);
      FirstCopiesByKey(s, k);
    }
    StableSortUnique(ByAddr, Dedup(t), u);
  }

  // ---- ranking ----

  /** The reading of the clock when the peer at an address is scored; after deduplication an address stands
      for one peer, so every peer may have its own. */
  type Clock = SocketAddr -> nat

  function RescoreAll(s: seq<PeerInfo>, clock: Clock): (r: seq<PeerInfo>)
    ensures |r| == |s| && forall i :: 0 <= i < |s| ==> r[i] == s[i].Rescored(clock(s[i].addr))
  {
    seq(|s|, i requires 0 <= i < |s| => s[i].Rescored(clock(s[i].addr)))
  }

  /** The pipeline as the code runs it. */
  function Pipeline(all: seq<PeerInfo>, limit: nat, clock: Clock): seq<PeerInfo> {
    Take(limit, Sort(C.ByScoreDown, RescoreAll(Dedup(Sort(ByAddr, all)), clock)))
  }

  /** The earliest copy of an address in a list that holds it. */
  function Earliest(all: seq<PeerInfo>, a: SocketAddr): PeerInfo
    requires exists p :: p in all && p.addr == a
  {
    var i := Position(HasAddr(a), all);
    PositionFinds(all, a);
    all[i]
  }

  lemma PositionFinds(all: seq<PeerInfo>, a: SocketAddr)
    ensures (exists p :: p in all && p.addr == a) <==> Position(HasAddr(a), all) < |all|
    ensures Position(HasAddr(a), all) < |all| ==> all[Position(HasAddr(a), all)].addr == a
  {}

  /** f holds exactly the earliest copy of each address of s. */
  ghost predicate EarliestCopies(s: seq<PeerInfo>, f: seq<PeerInfo>) {
    && DistinctBy(C.AddrOf, f)
    && (forall p :: p in f ==> p in s && p == Earliest(s, p.addr))
    && forall p :: p in s ==> Earliest(s, p.addr) in f
  }

  lemma {:induction false} FirstCopiesAreEarliest(s: seq<PeerInfo>)
    ensures EarliestCopies(s, FirstCopies(s))
  {
    hide Earliest;
    if s == [] {
    } else {
      var front, p := s[..|s| - 1], s[|s| - 1];
      var f := FirstCopies(front);
      assert s == front + [p];
      FirstCopiesAreEarliest(front);
      hide EarliestCopies;
      PositionFinds(f, p.addr);
      if Position(HasAddr(p.addr), f) < |f| {
        KnownAddress(front, p, f, f[Position(HasAddr(p.addr), f)]);
      } else {
        NewAddress(front, p, f);
      }
    }
  }

  lemma KnownAddress(front: seq<PeerInfo>, p: PeerInfo, f: seq<PeerInfo>, q: PeerInfo)
    requires EarliestCopies(front, f) && q in f && q.addr == p.addr
    ensures EarliestCopies(front + [p], f)
  {
    hide Earliest;
    EarliestStays(front, p);
  }

  lemma NewAddress(front: seq<PeerInfo>, p: PeerInfo, f: seq<PeerInfo>)
    requires EarliestCopies(front, f) && forall q :: q in f ==> q.addr != p.addr
    ensures EarliestCopies(front + [p], f + [p])
  {
    hide Earliest;
    EarliestStays(front, p);
    EarliestAddr(front);
    EarliestIsLast(front, p);
    assert forall q :: q in f ==> C.AddrOf(q) != C.AddrOf(p);
  }

  lemma EarliestAddr(s: seq<PeerInfo>)
    ensures forall q :: q in s ==> Earliest(s, q.addr).addr == q.addr
  {}

  lemma EarliestIsLast(front: seq<PeerInfo>, p: PeerInfo)
    requires forall q :: q in front ==> q.addr != p.addr
    ensures p in front + [p] && Earliest(front + [p], p.addr) == p
  {}

  lemma EarliestStays(front: seq<PeerInfo>, p: PeerInfo)
    ensures forall q :: q in front ==> q in front + [p] && Earliest(front + [p], q.addr) == Earliest(front, q.addr)
  {
    forall q | q in front
      ensures q in front + [p] && Earliest(front + [p], q.addr) == Earliest(front, q.addr)
    {
      PositionFinds(front, q.addr);
      PositionUnique(HasAddr(q.addr), front + [p], Position(HasAddr(q.addr), front));
    }
  }

  /** What the pipeline promises: distinct addresses in descending score, each in its earliest copy with
      a fresh score, as many as fit, and no address left out outranks one listed. */
  ghost predicate Ranked(all: seq<PeerInfo>, limit: nat, clock: Clock, r: seq<PeerInfo>) {
    && DistinctBy(C.AddrOf, r)
    && Sorted(C.ByScoreDown, r)
    && |r| == Min(limit, |FirstCopies(all)|)
    && (forall p :: p in r ==>
          exists q :: q in all && q.addr == p.addr && p == Earliest(all, q.addr).Rescored(clock(q.addr)))
    && forall q, p :: q in all && p in r && (forall x :: x in r ==> x.addr != q.addr) ==>
         Earliest(all, q.addr).Rescored(clock(q.addr)).score <= p.score
  }

  /** The pipeline refines "the earliest copy per address, then the best by score". */
  lemma PipelineIsRanked(all: seq<PeerInfo>, limit: nat, clock: Clock)
    ensures Ranked(all, limit, clock, Pipeline(all, limit, clock))
  {
    DedupIsFirstCopies(all);
    FirstCopiesAreEarliest(all);
    var copies := FirstCopies(all);
    var s := Sort(ByAddr, copies);
    SortMembers(ByAddr, copies);
    SortKeepsDistinct(C.AddrOf, ByAddr, copies);
    SortedCopies(all, copies, s);
    hide Dedup, FirstCopies, Earliest, ByAddr, EarliestCopies, Ranked, Sort;
    RankedFromCopies(all, s, limit, clock);
  }

  lemma SortedCopies(all: seq<PeerInfo>, copies: seq<PeerInfo>, s: seq<PeerInfo>)
    requires EarliestCopies(all, copies) && DistinctBy(C.AddrOf, s) && forall p :: p in s <==> p in copies
    ensures EarliestCopies(all, s)
  {}

  lemma RescoredEarliest(all: seq<PeerInfo>, s: seq<PeerInfo>, clock: Clock)
    requires EarliestCopies(all, s)
    ensures var t := RescoreAll(s, clock);
      DistinctBy(C.AddrOf, t) &&
      (forall p :: p in t ==>
        exists q :: q in all && q.addr == p.addr && p == Earliest(all, q.addr).Rescored(clock(q.addr))) &&
      forall q :: q in all ==> Earliest(all, q.addr).Rescored(clock(q.addr)) in t
  {}

  /** r lists the best of t, best first. */
  ghost predicate BestFirst(t: seq<PeerInfo>, limit: nat, r: seq<PeerInfo>) {
    && DistinctBy(C.AddrOf, r)
    && Sorted(C.ByScoreDown, r)
    && |r| == Min(limit, |t|)
    && (forall p :: p in r ==> p in t)
    && forall x, p :: x in t && x !in r && p in r ==> x.score <= p.score
  }

  lemma TakeIsBestFirst(t: seq<PeerInfo>, limit: nat)
    requires DistinctBy(C.AddrOf, t)
    ensures BestFirst(t, limit, Take(limit, Sort(C.ByScoreDown, t)))
  {
    hide Sort, Sorted, DistinctBy;
    var u := Sort(C.ByScoreDown, t);
    SortFacts(t);
    var n := Min(limit, |u|);
    assert Take(limit, u) == u[..n];
    PrefixIsBest(u, n);
  }

  lemma SortFacts(t: seq<PeerInfo>)
    requires DistinctBy(C.AddrOf, t)
    ensures var u := Sort(C.ByScoreDown, t);
      Sorted(C.ByScoreDown, u) && DistinctBy(C.AddrOf, u) && forall x :: x in u <==> x in t
  {
    hide Sort, Sorted, DistinctBy, WithKey;
    SortIsStableSort(C.ByScoreDown, t);
    SortMembers(C.ByScoreDown, t);
    SortKeepsDistinct(C.AddrOf, C.ByScoreDown, t);
  }

  lemma PrefixIsBest(u: seq<PeerInfo>, n: nat)
    requires DistinctBy(C.AddrOf, u) && Sorted(C.ByScoreDown, u) && n <= |u|
    ensures DistinctBy(C.AddrOf, u[..n]) && Sorted(C.ByScoreDown, u[..n])
    ensures forall p :: p in u[..n] ==> p in u
    ensures forall x, p :: x in u && x !in u[..n] && p in u[..n] ==> x.score <= p.score
  {}

  lemma RankedFromCopies(all: seq<PeerInfo>, s: seq<PeerInfo>, limit: nat, clock: Clock)
    requires EarliestCopies(all, s) && |s| == |FirstCopies(all)|
    ensures Ranked(all, limit, clock, Take(limit, Sort(C.ByScoreDown, RescoreAll(s, clock))))
  {
    var t := RescoreAll(s, clock);
    RescoredEarliest(all, s, clock);
    TakeIsBestFirst(t, limit);
    EarliestAddr(all);
    hide Sort, RescoreAll, FirstCopies, EarliestCopies, Earliest;
    var r := Take(limit, Sort(C.ByScoreDown, t));
    forall q, p | q in all && p in r && (forall x :: x in r ==> x.addr != q.addr)
      ensures Earliest(all, q.addr).Rescored(clock(q.addr)).score <= p.score
    {
      var x := Earliest(all, q.addr).Rescored(clock(q.addr));
      assert x in t && x.addr == q.addr && x !in r;
    }
  }

  // ---- the aggregator ----

  /** What the discoverers returned, in order: peers, or an error. */
  datatype Found = Found(peers: seq<PeerInfo>) | Error

  function AllFound(results: seq<Found>): seq<PeerInfo> {
    if results == [] then []
    else AllFound(results[..|results| - 1]) + (match results[|results| - 1] case Found(ps) => ps case Error => [])
  }

  /** What all discoverers found: the peers of every one that did not fail, in order. */
  lemma {:induction false} AllFoundAre(results: seq<Found>, p: PeerInfo)
    ensures p in AllFound(results) <==> exists r :: r in results && r.Found? && p in r.peers
  {
    if results == [] {
    } else {
      var n := |results| - 1;
      AllFoundAre(results[..n], p);
      assert results == results[..n] + [results[n]];
    }
  }

  /** An answer comes after those of the discoverers before it, whole. */
  lemma AllFoundInOrder(results: seq<Found>, peers: seq<PeerInfo>)
    ensures AllFound(results + [Found(peers)]) == AllFound(results) + peers
    ensures AllFound(results + [Error]) == AllFound(results)
  {
    assert (results + [Found(peers)])[..|results|] == results && (results + [Error])[..|results|] == results;
  }

  lemma {:induction false} FoundMembers(results: seq<Found>)
    requires FoundWithinBudget(results)
    ensures forall p :: p in AllFound(results) ==> WithinBudget(p)
  {
    if results == [] {
    } else {
      var n := |results| - 1;
      assert forall r :: r in results[..n] ==> r in results;
      FoundMembers(results[..n]);
      assert results[n] in results;
    }
  }

  class PeerDiscoveryAggregator {
    const cache: C.PeerCache

    constructor (cache: C.PeerCache)
      ensures this.cache == cache
    {
      this.cache := cache;
    }

    method CollectResults(cached: seq<PeerInfo>, results: seq<Found>) returns (all: seq<PeerInfo>)
      ensures all == cached + AllFound(results)
    {
      all := cached;
      for i := 0 to |results|
        invariant all == cached + AllFound(results[..i])
      {
        assert results[..i + 1][..i] == results[..i];
        match results[i] {
          case Found(peers) => all := all + peers;
          case Error =>
        }
      }
      assert results[..|results|] == results;
    }

    method CalculatePriorities(peers: seq<PeerInfo>, clock: Clock) returns (r: seq<PeerInfo>)
      ensures r == RescoreAll(peers, clock)
    {
      r := peers;
      for i := 0 to |r|
        invariant |r| == |peers|
        invariant forall j :: 0 <= j < i ==> r[j] == peers[j].Rescored(clock(peers[j].addr))
        invariant forall j :: i <= j < |r| ==> r[j] == peers[j]
      {
        r := r[i := r[i].Rescored(clock(r[i].addr))];
      }
    }

    /** `discover_peers`: cached peers first, then what was found; ranked, cut to the limit, and cached. */
    method DiscoverPeers(infohash: C.Infohash, limit: nat, results: seq<Found>, asked: nat, clock: Clock, stored: nat)
      returns (peers: seq<PeerInfo>, ghost cached: seq<PeerInfo>)
      requires cache.Valid()
      modifies cache
      ensures cache.Valid()
      ensures C.BestPeers(old(cache.peers), infohash, limit, asked, cached)
      ensures Ranked(cached + AllFound(results), limit, clock, peers)
      ensures if results == [] && cached == [] then cache.peers == old(cache.peers)
              else C.Added(old(cache.peers), infohash, peers, stored, cache.maxPerInfohash, cache.maxPeers, cache.peers)
      ensures FoundWithinBudget(results) && old(C.CacheWithinBudget(cache.peers)) ==>
        C.CacheWithinBudget(cache.peers) && forall p :: p in peers ==> p.score <= 320
    {
      var cachedPeers := cache.GetPeers(infohash, limit, asked);
      cached := cachedPeers;
      ghost var found := cached + AllFound(results);
      PipelineIsRanked(found, limit, clock);
      if |results| == 0 && |cachedPeers| == 0 {
        assert found == [];
        return [], cached;
      }
      BudgetOfPipeline(cache.peers, infohash, cached, results, limit, asked, clock);
      hide Ranked, C.BestPeers, Dedup, AllFound, RescoreAll, C.Added;
      var allPeers := CollectResults(cachedPeers, results);
      allPeers := Sort(ByAddr, allPeers);
      allPeers := Dedup(allPeers);
      allPeers := CalculatePriorities(allPeers, clock);
      allPeers := Sort(C.ByScoreDown, allPeers);
      peers := Take(limit, allPeers);
      cache.AddPeers(infohash, peers, stored);
    }
  }

  ghost predicate FoundWithinBudget(results: seq<Found>) {
    forall r, p :: r in results && r.Found? && p in r.peers ==> WithinBudget(p)
  }

  /** What comes out of the pipeline respects the failure budget and scores at most 320, if what goes
      in respects the budget. */
  lemma BudgetOfPipeline(cache: C.Cache, ih: C.Infohash, cached: seq<PeerInfo>, results: seq<Found>, limit: nat,
                         asked: nat, clock: Clock)
    requires C.BestPeers(cache, ih, limit, asked, cached)
    ensures FoundWithinBudget(results) && C.CacheWithinBudget(cache) ==>
      forall p :: p in Pipeline(cached + AllFound(results), limit, clock) ==> WithinBudget(p) && p.score <= 320
  {
    if FoundWithinBudget(results) && C.CacheWithinBudget(cache) {
      FoundMembers(results);
      CachedMembers(cache, ih, limit, asked, cached);
      PipelineKeepsBudget(cached + AllFound(results), limit, clock);
    }
  }

  lemma CachedMembers(cache: C.Cache, ih: C.Infohash, limit: nat, asked: nat, cached: seq<PeerInfo>)
    requires C.BestPeers(cache, ih, limit, asked, cached) && C.CacheWithinBudget(cache)
    ensures forall p :: p in cached ==> WithinBudget(p)
  {}

  lemma PipelineKeepsBudget(all: seq<PeerInfo>, limit: nat, clock: Clock)
    requires forall p :: p in all ==> WithinBudget(p)
    ensures forall p :: p in Pipeline(all, limit, clock) ==> WithinBudget(p) && p.score <= 320
  {
    PipelineIsRanked(all, limit, clock);
    hide Pipeline, FirstCopies;
    forall p | p in Pipeline(all, limit, clock)
      ensures WithinBudget(p) && p.score <= 320
    {
      var q :| q in all && q.addr == p.addr && p == Earliest(all, q.addr).Rescored(clock(q.addr));
      var e := Earliest(all, q.addr);
      assert e in all;
      ScoreAtMost320(e, clock(q.addr));
    }
  }
}
