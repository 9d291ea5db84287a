/** What the aggregator's get-then-add loop does to the age of cached peers. */
module CacheRefresh {
  import opened Addresses
  import opened Sorting
  import opened TopK
  import opened Peers
  import opened Aggregator
  import C = PeerCache

  // ---- one addition ----

  /** Adding a peer that is cached already makes it active now: its report's own age does not count. */
  lemma AddedPeersAreRefreshed(c: C.Cache, ih: C.Infohash, ps: seq<PeerInfo>, now: nat, cap: nat, max: nat, r: C.Cache,
                               p: PeerInfo)
    requires C.CacheKeyed(c) && C.Added(c, ih, ps, now, cap, max, r)
    requires p in ps && p.addr in C.ListOf(c, ih) && p.addr in C.ListOf(r, ih)
    ensures C.ListOf(r, ih)[p.addr].lastActive == now
  {
    C.MergeTakesMaximum(C.ListOf(c, ih), ps, now);
    var merged := C.MergeAll(C.ListOf(c, ih), ps, now);
    var kept :| C.BestOf(C.Retain(merged, now), kept, cap) && C.Evicted(c[ih := kept], r, max);
    hide C.MergeAll;
    if C.Total(c[ih := kept]) > max {
      assert (ih, p.addr) in C.Slots(r);
    }
    assert C.ListOf(r, ih)[p.addr] == kept[p.addr];
  }

  // ---- lookups that find nothing new ----

  /** A lookup whose discoverers report no peer, as `discover_peers` ends it: it adds the cached peers back, or
      leaves the cache alone when there are none and no discoverer was asked. */
  ghost predicate LookedUp(c: C.Cache, ih: C.Infohash, limit: nat, v: Visit, cap: nat, max: nat, r: C.Cache) {
    exists cached, peers :: C.BestPeers(c, ih, limit, v.asked, cached) && Ranked(cached, limit, v.clock, peers) &&
      ((cached == [] && r == c) || C.Added(c, ih, peers, v.stored, cap, max, r))
  }

  /** The clock readings of one lookup: at the start, for each score, and when the cache is updated. */
  datatype Visit = Visit(asked: nat, clock: Clock, stored: nat)

  lemma EverybodyIsCached(g: C.PeerMap, all: seq<PeerInfo>, limit: nat, now: nat, cached: seq<PeerInfo>)
    requires C.Lists(g, all) && |all| <= limit && forall p :: p in all ==> !p.Expired(now)
    requires KSmallest(C.ByScoreDown, multiset(Filter(C.Unexpired(now), all)), limit, cached)
    ensures forall p :: p in cached <==> p in all
  {
    FilterAll(C.Unexpired(now), all);
    assert multiset(cached) == multiset(all) by {
      SameSize(multiset(cached), multiset(all));
    }
    forall p
      ensures p in cached <==> p in all
    {
      assert p in cached <==> p in multiset(cached);
      assert p in all <==> p in multiset(all);
    }
  }

  lemma SameSize<T(!new)>(a: multiset<T>, b: multiset<T>)
    requires a <= b && |a| == |b|
    ensures a == b
  {
    assert b == a + (b - a);
  }

  ghost function Addrs(s: seq<PeerInfo>): set<SocketAddr> {
    C.Image(C.AddrOf, s)
  }

  lemma AddrsMembers(s: seq<PeerInfo>)
    ensures forall a :: a in Addrs(s) <==> exists p :: p in s && p.addr == a
  {
    forall a
      ensures a in Addrs(s) <==> exists p :: p in s && p.addr == a
    {
      if p :| p in s && p.addr == a {
        assert C.AddrOf(p) == a;
      }
    }
  }

  lemma FirstCopiesAddrs(s: seq<PeerInfo>)
    ensures Addrs(FirstCopies(s)) == Addrs(s)
    ensures |FirstCopies(s)| == |Addrs(s)|
  {
    hide FirstCopies, Earliest;
    FirstCopiesAreEarliest(s);
    EarliestAddr(s);
    C.DistinctImage(C.AddrOf, FirstCopies(s));
    AddrsMembers(s);
    AddrsMembers(FirstCopies(s));
  }

  lemma SubsetOfSameSize(a: set<SocketAddr>, b: set<SocketAddr>)
    requires a <= b && |a| == |b|
    ensures a == b
  {
    assert |b - a| == |b| - |a|;
  }

  /** When everybody fits, the ranking lists everybody. */
  lemma RankedListsAll(cached: seq<PeerInfo>, limit: nat, clock: Clock, peers: seq<PeerInfo>)
    requires Ranked(cached, limit, clock, peers) && |Addrs(cached)| <= limit
    ensures Addrs(peers) == Addrs(cached)
  {
    hide FirstCopies;
    FirstCopiesAddrs(cached);
    EarliestAddr(cached);
    C.DistinctImage(C.AddrOf, peers);
    AddrsMembers(cached);
    AddrsMembers(peers);
    hide Earliest;
    forall a | a in Addrs(peers)
      ensures a in Addrs(cached)
    {
      var p :| p in peers && p.addr == a;
    }
    SubsetOfSameSize(Addrs(peers), Addrs(cached));
  }

  lemma KeysOfListing(g: C.PeerMap, all: seq<PeerInfo>, cached: seq<PeerInfo>)
    requires C.KeyedByAddr(g) && C.Lists(g, all) && forall p :: p in cached <==> p in all
    ensures Addrs(cached) == g.Keys
  {
    C.ListedKeys(g, all);
    AddrsMembers(cached);
    AddrsMembers(all);
  }

  /** Merging in a report of every member leaves every member, all active now. */
  lemma MergeRefreshesAll(g: C.PeerMap, peers: seq<PeerInfo>, now: nat)
    requires C.KeyedByAddr(g) && Addrs(peers) == g.Keys
    ensures var m := C.Retain(C.MergeAll(g, peers, now), now);
      m.Keys == g.Keys && forall a :: a in m ==> m[a].lastActive == now
  {
    hide C.MergeAll;
    C.MergeTakesMaximum(g, peers, now);
    C.MergeKeepsKeys(g, peers, now);
    AddrsMembers(peers);
    var m := C.MergeAll(g, peers, now);
    forall a | a in g
      ensures a in m && m[a].lastActive == now
    {
      var p :| p in peers && p.addr == a;
    }
  }

  lemma BestOfFew(m: C.PeerMap, kept: C.PeerMap, cap: nat)
    requires C.BestOf(m, kept, cap) && |m| <= cap
    ensures kept == m
  {
    assert kept.Keys <= m.Keys && |kept.Keys| == |m.Keys|;
    SubsetOfSameSize(kept.Keys, m.Keys);
  }

  lemma SameSlots(c: C.Cache, ih: C.Infohash, g: C.PeerMap)
    requires ih in c && g.Keys == c[ih].Keys
    ensures C.Total(c[ih := g]) == C.Total(c)
  {
    assert C.Slots(c[ih := g]) == C.Slots(c);
  }

  /** The group of an infohash is there, is not empty, and is within every limit. */
  ghost predicate Whole(c: C.Cache, ih: C.Infohash, limit: nat, cap: nat, max: nat) {
    && C.CacheKeyed(c) && C.Total(c) <= max && ih in c
    && 0 < |c[ih]| <= limit && |c[ih]| <= cap
  }

  /** One lookup that finds nothing new, over a group none of which is expired, keeps all of it and makes all of it
      active now. */
  lemma LookupRefreshesGroup(c: C.Cache, ih: C.Infohash, limit: nat, v: Visit, cap: nat, max: nat, r: C.Cache)
    requires Whole(c, ih, limit, cap, max) && forall a :: a in c[ih] ==> !c[ih][a].Expired(v.asked)
    requires LookedUp(c, ih, limit, v, cap, max, r)
    ensures Whole(r, ih, limit, cap, max)
    ensures r[ih].Keys == c[ih].Keys && forall a :: a in r[ih] ==> r[ih][a].lastActive == v.stored
  {
    var cached, peers :| C.BestPeers(c, ih, limit, v.asked, cached) && Ranked(cached, limit, v.clock, peers) &&
      ((cached == [] && r == c) || C.Added(c, ih, peers, v.stored, cap, max, r));
    hide Ranked, C.Added, LookedUp;
    CachedIsGroup(c, ih, limit, v.asked, cached);
    RankedListsAll(cached, limit, v.clock, peers);
    assert cached != [] by {
      AddrsMembers(cached);
    }
    AdditionKeepsGroup(c, ih, peers, v.stored, limit, cap, max, r);
  }

  lemma CachedIsGroup(c: C.Cache, ih: C.Infohash, limit: nat, now: nat, cached: seq<PeerInfo>)
    requires ih in c && C.KeyedByAddr(c[ih]) && |c[ih]| <= limit && C.BestPeers(c, ih, limit, now, cached)
    requires forall a :: a in c[ih] ==> !c[ih][a].Expired(now)
    ensures Addrs(cached) == c[ih].Keys && |Addrs(cached)| == |c[ih]|
  {
    var g := c[ih];
    var all :| C.Lists(g, all) && KSmallest(C.ByScoreDown, multiset(Filter(C.Unexpired(now), all)), limit, cached);
    C.ListedKeys(g, all);
    hide KSmallest;
    EverybodyIsCached(g, all, limit, now, cached);
    KeysOfListing(g, all, cached);
    assert |g.Keys| == |g|;
  }

  lemma AdditionKeepsGroup(c: C.Cache, ih: C.Infohash, peers: seq<PeerInfo>, now: nat, limit: nat, cap: nat, max: nat,
                           r: C.Cache)
    requires Whole(c, ih, limit, cap, max)
    requires Addrs(peers) == c[ih].Keys && C.Added(c, ih, peers, now, cap, max, r)
    ensures Whole(r, ih, limit, cap, max)
    ensures r[ih].Keys == c[ih].Keys && forall a :: a in r[ih] ==> r[ih][a].lastActive == now
  {
    var g := c[ih];
    MergeRefreshesAll(g, peers, now);
    C.MergeKeepsKeys(g, peers, now);
    hide C.MergeAll, Addrs;
    var m := C.Retain(C.MergeAll(g, peers, now), now);
    assert C.KeyedByAddr(m);
    var kept :| C.BestOf(m, kept, cap) && C.Evicted(c[ih := kept], r, max);
    hide C.Retain, C.BestOf, C.Slots, C.Total, C.KeyedByAddr;
    SameKeysSameSize(m, g);
    BestOfFew(m, kept, cap);
    SameSlots(c, ih, m);
    assert r == c[ih := m];
  }

  lemma SameKeysSameSize(m: C.PeerMap, g: C.PeerMap)
    requires m.Keys == g.Keys
    ensures |m| == |g|
  {
    assert |m| == |m.Keys| && |g| == |g.Keys|;
  }

  /** An expired peer is not returned, so a lookup does not refresh it: it is dropped or stays as old as it was. */
  lemma ExpiredIsNotRefreshed(c: C.Cache, ih: C.Infohash, limit: nat, v: Visit, cap: nat, max: nat, r: C.Cache,
                              a: SocketAddr)
    requires Whole(c, ih, limit, cap, max) && LookedUp(c, ih, limit, v, cap, max, r)
    requires a in c[ih] && c[ih][a].Expired(v.asked)
    ensures ih in r && a in r[ih] ==> r[ih][a].lastActive == c[ih][a].lastActive
  {
    var cached, peers :| C.BestPeers(c, ih, limit, v.asked, cached) && Ranked(cached, limit, v.clock, peers) &&
      ((cached == [] && r == c) || C.Added(c, ih, peers, v.stored, cap, max, r));
    NotReturned(c, ih, limit, v, cached, peers, a);
    hide Ranked, C.BestPeers, C.Added;
    if C.Added(c, ih, peers, v.stored, cap, max, r) {
      NotAddedKeepsAge(c, ih, peers, v.stored, cap, max, r, a);
    }
  }

  lemma NotAddedKeepsAge(c: C.Cache, ih: C.Infohash, peers: seq<PeerInfo>, now: nat, cap: nat, max: nat, r: C.Cache,
                         a: SocketAddr)
    requires ih in c && C.KeyedByAddr(c[ih]) && a in c[ih] && forall p :: p in peers ==> p.addr != a
    requires C.Added(c, ih, peers, now, cap, max, r)
    ensures ih in r && a in r[ih] ==> r[ih][a].lastActive == c[ih][a].lastActive
  {
    C.MergeTakesMaximum(c[ih], peers, now);
    var merged := C.MergeAll(c[ih], peers, now);
    hide C.MergeAll;
    var kept :| C.BestOf(C.Retain(merged, now), kept, cap) && C.Evicted(c[ih := kept], r, max);
    hide C.Evicted;
    if ih in r && a in r[ih] {
      EvictedSlot(c[ih := kept], r, max, ih, a);
    }
  }

  lemma EvictedSlot(c: C.Cache, r: C.Cache, max: nat, ih: C.Infohash, a: SocketAddr)
    requires C.Evicted(c, r, max) && ih in r && a in r[ih]
    ensures ih in c && a in c[ih] && r[ih][a] == c[ih][a]
  {
    if C.Total(c) > max {
      assert (ih, a) in C.Slots(r);
      assert (ih, a) in C.Slots(c);
    }
  }

  lemma NotReturned(c: C.Cache, ih: C.Infohash, limit: nat, v: Visit, cached: seq<PeerInfo>, peers: seq<PeerInfo>,
                    a: SocketAddr)
    requires ih in c && a in c[ih] && c[ih][a].Expired(v.asked)
    requires C.BestPeers(c, ih, limit, v.asked, cached) && Ranked(cached, limit, v.clock, peers)
    ensures forall p :: p in peers ==> p.addr != a
  {
    var all :| C.Lists(c[ih], all) && KSmallest(C.ByScoreDown, multiset(Filter(C.Unexpired(v.asked), all)), limit,
      cached);
    forall p | p in cached
      ensures p.addr != a
    {
      assert p in multiset(cached);
      assert p in multiset(Filter(C.Unexpired(v.asked), all));
      assert p in Filter(C.Unexpired(v.asked), all);
      assert C.Unexpired(v.asked)(p);
    }
    hide FirstCopies, KSmallest;
    EarliestAddr(cached);
    hide Earliest;
    forall p | p in peers
      ensures p.addr != a
    {
      var q :| q in cached && q.addr == p.addr;
    }
  }

  // ---- everything that may happen to a cache ----

  /** A lookup for one infohash that finds nothing new, the periodic cleanup, a connection mark, or an addition for
      another infohash. */
  datatype Event =
    | Lookup(v: Visit)
    | Cleanup(now: nat)
    | Success(ih: C.Infohash, addr: SocketAddr, now: nat)
    | Failure(ih: C.Infohash, addr: SocketAddr, now: nat)
    | Addition(ih: C.Infohash, ps: seq<PeerInfo>, now: nat)

  /** What the event makes of the cache, as long as additions leave the total within its limit. */
  ghost predicate Next(c: C.Cache, ih: C.Infohash, limit: nat, ev: Event, cap: nat, max: nat, r: C.Cache) {
    match ev
    case Lookup(v) => LookedUp(c, ih, limit, v, cap, max, r)
    case Cleanup(now) => r == C.Cleaned(c, now)
    case Success(jh, a, now) =>
      r == if jh in c && a in c[jh] then c[jh := c[jh][a := C.Succeeded(c[jh][a], now)]] else c
    case Failure(jh, a, now) => r == if jh in c then c[jh := C.AfterFailure(c[jh], a, now)] else c
    case Addition(jh, ps, now) =>
      jh != ih && exists kept ::
        C.BestOf(C.Retain(C.MergeAll(C.ListOf(c, jh), ps, now), now), kept, cap) &&
        C.Total(c[jh := kept]) <= max && r == c[jh := kept]
  }

  /** No failure mark uses up the budget of a peer of the group. */
  ghost predicate Spares(c: C.Cache, ih: C.Infohash, ev: Event)
    requires ih in c
  {
    ev.Failure? && ev.ih == ih && ev.addr in c[ih] ==> ev.addr in C.AfterFailure(c[ih], ev.addr, ev.now)
  }

  type Ages = map<SocketAddr, nat>

  /** When each peer of a group was last active. */
  function AgesOf(g: C.PeerMap): Ages {
    map a | a in g :: g[a].lastActive
  }

  /** Whoever looks for expired peers finds none of these. */
  ghost predicate OnTime(ages: Ages, ev: Event) {
    match ev
    case Lookup(v) => forall a :: a in ages ==> v.asked <= ages[a] + LIFETIME
    case Cleanup(now) => forall a :: a in ages ==> now <= ages[a] + LIFETIME
    case Success(_, _, _) => true
    case Failure(_, _, _) => true
    case Addition(_, _, _) => true
  }

  /** Lookups make everybody active, a success mark one. */
  function Refreshed(ages: Ages, ih: C.Infohash, ev: Event): Ages {
    match ev
    case Lookup(v) => map a | a in ages :: v.stored
    case Cleanup(_) => ages
    case Success(jh, a, now) => if jh == ih && a in ages then ages[a := now] else ages
    case Failure(_, _, _) => ages
    case Addition(_, _, _) => ages
  }

  /** The event keeps every peer of the group, and a lookup makes them active. */
  ghost predicate KeptBy(c: C.Cache, ih: C.Infohash, ev: Event, r: C.Cache)
    requires ih in c
  {
    ih in r && r[ih].Keys == c[ih].Keys && (ev.Lookup? ==> forall a :: a in r[ih] ==>
      r[ih][a].lastActive == ev.v.stored)
  }

  lemma LookupKeepsExactly(c: C.Cache, ih: C.Infohash, limit: nat, v: Visit, cap: nat, max: nat, r: C.Cache)
    requires Whole(c, ih, limit, cap, max) && LookedUp(c, ih, limit, v, cap, max, r) && v.asked <= v.stored
    ensures KeptBy(c, ih, Lookup(v), r) <==> OnTime(AgesOf(c[ih]), Lookup(v))
    ensures KeptBy(c, ih, Lookup(v), r) ==>
      Whole(r, ih, limit, cap, max) && AgesOf(r[ih]) == Refreshed(AgesOf(c[ih]), ih, Lookup(v))
  {
    hide LookedUp, C.Total, C.CacheKeyed;
    if forall a :: a in c[ih] ==> !c[ih][a].Expired(v.asked) {
      LookupRefreshesGroup(c, ih, limit, v, cap, max, r);
      RefreshedAges(c[ih], r[ih], v);
    } else {
      var a :| a in c[ih] && c[ih][a].Expired(v.asked);
      ExpiredIsNotRefreshed(c, ih, limit, v, cap, max, r, a);
      assert a in AgesOf(c[ih]);
    }
  }

  lemma RefreshedAges(g: C.PeerMap, h: C.PeerMap, v: Visit)
    requires h.Keys == g.Keys && forall a :: a in h ==> h[a].lastActive == v.stored
    ensures AgesOf(h) == map a | a in AgesOf(g) :: v.stored
    ensures (forall a :: a in g ==> !g[a].Expired(v.asked)) <==> OnTime(AgesOf(g), Lookup(v))
  {
    forall a | a in g
      ensures a in AgesOf(g) && AgesOf(g)[a] == g[a].lastActive
    {}
  }

  lemma CleanupKeepsExactly(c: C.Cache, ih: C.Infohash, limit: nat, now: nat, cap: nat, max: nat)
    requires Whole(c, ih, limit, cap, max)
    ensures var r := C.Cleaned(c, now);
      (KeptBy(c, ih, Cleanup(now), r) <==> OnTime(AgesOf(c[ih]), Cleanup(now))) &&
      (KeptBy(c, ih, Cleanup(now), r) ==> Whole(r, ih, limit, cap, max) && AgesOf(r[ih]) == AgesOf(c[ih]))
  {
    C.CleaningShrinks(c, now);
    var g, r := c[ih], C.Cleaned(c, now);
    if forall a :: a in g ==> !g[a].Expired(now) {
      assert C.Retain(g, now) == g;
      assert ih in r && r[ih] == g;
    } else {
      var a :| a in g && g[a].Expired(now);
      assert a in AgesOf(g);
      assert ih in r ==> a !in r[ih];
    }
    hide C.Total;
  }

  lemma SuccessKeeps(c: C.Cache, ih: C.Infohash, limit: nat, ev: Event, cap: nat, max: nat, r: C.Cache)
    requires Whole(c, ih, limit, cap, max) && ev.Success? && Next(c, ih, limit, ev, cap, max, r)
    ensures Whole(r, ih, limit, cap, max) && r[ih].Keys == c[ih].Keys
    ensures AgesOf(r[ih]) == Refreshed(AgesOf(c[ih]), ih, ev)
  {
    if ev.ih in c && ev.addr in c[ev.ih] {
      var m := c[ev.ih][ev.addr := C.Succeeded(c[ev.ih][ev.addr], ev.now)];
      assert m.Keys == c[ev.ih].Keys;
      hide C.Total, C.Succeeded;
      SameSlots(c, ev.ih, m);
      SameKeysSameSize(m, c[ev.ih]);
    }
  }

  lemma FailureKeeps(c: C.Cache, ih: C.Infohash, limit: nat, ev: Event, cap: nat, max: nat, r: C.Cache)
    requires Whole(c, ih, limit, cap, max) && ev.Failure? && Next(c, ih, limit, ev, cap, max, r) && Spares(c, ih, ev)
    ensures Whole(r, ih, limit, cap, max) && r[ih].Keys == c[ih].Keys && AgesOf(r[ih]) == AgesOf(c[ih])
  {
    if ev.ih in c {
      var m := C.AfterFailure(c[ev.ih], ev.addr, ev.now);
      C.ReplaceGroup(c, ev.ih, m);
      if ev.ih == ih {
        assert m.Keys == c[ih].Keys;
        SameKeysSameSize(m, c[ih]);
      }
      hide C.Total;
    }
  }

  lemma AdditionKeeps(c: C.Cache, ih: C.Infohash, limit: nat, ev: Event, cap: nat, max: nat, r: C.Cache)
    requires Whole(c, ih, limit, cap, max) && ev.Addition? && Next(c, ih, limit, ev, cap, max, r)
    ensures Whole(r, ih, limit, cap, max) && r[ih] == c[ih]
  {
    var group := C.ListOf(c, ev.ih);
    C.RetainedMergeOk(group, ev.ps, ev.now);
    hide C.Total, C.MergeAll;
  }

  /** One event keeps the group, and a lookup makes it active, exactly when it comes in time. */
  lemma EventKeepsExactly(c: C.Cache, ih: C.Infohash, limit: nat, ev: Event, cap: nat, max: nat, r: C.Cache)
    requires Whole(c, ih, limit, cap, max) && Next(c, ih, limit, ev, cap, max, r) && Spares(c, ih, ev)
    requires ev.Lookup? ==> ev.v.asked <= ev.v.stored
    ensures KeptBy(c, ih, ev, r) <==> OnTime(AgesOf(c[ih]), ev)
    ensures KeptBy(c, ih, ev, r) ==> Whole(r, ih, limit, cap, max) && AgesOf(r[ih]) == Refreshed(AgesOf(c[ih]), ih, ev)
  {
    match ev
    case Lookup(v) => LookupKeepsExactly(c, ih, limit, v, cap, max, r);
    case Cleanup(now) => CleanupKeepsExactly(c, ih, limit, now, cap, max);
    case Success(_, _, _) => SuccessKeeps(c, ih, limit, ev, cap, max, r);
    case Failure(_, _, _) => FailureKeeps(c, ih, limit, ev, cap, max, r);
    case Addition(_, _, _) => AdditionKeeps(c, ih, limit, ev, cap, max, r);
  }

  // ---- runs ----

  /** The caches between the events of a run. */
  ghost predicate Run(caches: seq<C.Cache>, ih: C.Infohash, limit: nat, evs: seq<Event>, cap: nat, max: nat)
    decreases |evs|
  {
    |caches| == |evs| + 1 &&
    (evs != [] ==>
       Next(caches[0], ih, limit, evs[0], cap, max, caches[1]) && (ih in caches[0] ==> Spares(caches[0], ih, evs[0])) &&
       Run(caches[1..], ih, limit, evs[1..], cap, max))
  }

  /** No lookup's clock runs backwards. */
  ghost predicate Forward(evs: seq<Event>) {
    forall i :: 0 <= i < |evs| && evs[i].Lookup? ==> evs[i].v.asked <= evs[i].v.stored
  }

  /** Every event keeps the whole group, and lookups make it active. */
  ghost predicate AlwaysKept(caches: seq<C.Cache>, ih: C.Infohash, evs: seq<Event>)
    requires |caches| == |evs| + 1
    decreases |evs|
  {
    evs != [] ==> ih in caches[0] && KeptBy(caches[0], ih, evs[0], caches[1]) && AlwaysKept(caches[1..], ih, evs[1..])
  }

  /** Every lookup and cleanup comes at most 24 hours after each peer was last made active by a lookup or a success
      mark. */
  ghost predicate Punctual(ages: Ages, ih: C.Infohash, evs: seq<Event>)
    decreases |evs|
  {
    evs != [] ==> OnTime(ages, evs[0]) && Punctual(Refreshed(ages, ih, evs[0]), ih, evs[1..])
  }

  /** A group within its limits lives on, whole and refreshed by every lookup, exactly as long as lookups and
      cleanups are punctual, though no discoverer ever reports one of its peers again. */
  lemma {:induction false} GroupLivesExactly(caches: seq<C.Cache>, ih: C.Infohash, limit: nat, evs: seq<Event>,
                                             cap: nat, max: nat)
    requires Run(caches, ih, limit, evs, cap, max) && Forward(evs) && Whole(caches[0], ih, limit, cap, max)
    ensures AlwaysKept(caches, ih, evs) <==> Punctual(AgesOf(caches[0][ih]), ih, evs)
    ensures AlwaysKept(caches, ih, evs) ==>
      var end := caches[|evs|]; ih in end && end[ih].Keys == caches[0][ih].Keys
    decreases |evs|
  {
    if evs == [] {
    } else {
      hide Next, Spares, Whole, OnTime, Refreshed, AgesOf;
      EventKeepsExactly(caches[0], ih, limit, evs[0], cap, max, caches[1]);
      assert Forward(evs[1..]);
      if KeptBy(caches[0], ih, evs[0], caches[1]) {
        GroupLivesExactly(caches[1..], ih, limit, evs[1..], cap, max);
      }
    }
  }

  // ---- runs of lookups alone ----

  function Lookups(visits: seq<Visit>): (r: seq<Event>)
    ensures |r| == |visits| && forall i :: 0 <= i < |visits| ==> r[i] == Lookup(visits[i])
  {
    seq(|visits|, i requires 0 <= i < |visits| => Lookup(visits[i]))
  }

  /** Every lookup begins at most 24 hours after the cache update of the one before, the first at most 24 hours
      after time t. */
  ghost predicate WithinADay(t: nat, visits: seq<Visit>)
    decreases |visits|
  {
    visits != [] ==> visits[0].asked <= t + LIFETIME && WithinADay(visits[0].stored, visits[1..])
  }

  lemma {:induction false} PunctualLookups(ages: Ages, ih: C.Infohash, t: nat, visits: seq<Visit>)
    requires ages != map[] && forall a :: a in ages ==> ages[a] == t
    ensures Punctual(ages, ih, Lookups(visits)) <==> WithinADay(t, visits)
    decreases |visits|
  {
    if visits == [] {
    } else {
      assert Lookups(visits)[1..] == Lookups(visits[1..]);
      var a :| a in ages;
      var next := Refreshed(ages, ih, Lookup(visits[0]));
      assert a in next;
      PunctualLookups(next, ih, visits[0].stored, visits[1..]);
    }
  }

  /** For lookups alone: a group all active at time t is refreshed by every one of them exactly when each comes
      within 24 hours of the one before. */
  lemma PeersNeverExpire(caches: seq<C.Cache>, ih: C.Infohash, limit: nat, visits: seq<Visit>, cap: nat, max: nat,
                         t: nat)
    requires Run(caches, ih, limit, Lookups(visits), cap, max) && Whole(caches[0], ih, limit, cap, max)
    requires forall i :: 0 <= i < |visits| ==> visits[i].asked <= visits[i].stored
    requires forall a :: a in caches[0][ih] ==> caches[0][ih][a].lastActive == t
    ensures AlwaysKept(caches, ih, Lookups(visits)) <==> WithinADay(t, visits)
  {
    assert |caches| == |visits| + 1;
    hide Run, AlwaysKept;
    var a :| a in caches[0][ih];
    assert a in AgesOf(caches[0][ih]);
    GroupLivesExactly(caches, ih, limit, Lookups(visits), cap, max);
    PunctualLookups(AgesOf(caches[0][ih]), ih, t, visits);
  }

  // ---- one peer ----

  function Alone(ih: C.Infohash, p: PeerInfo): C.Cache {
    map[ih := map[p.addr := p]]
  }

  lemma AloneIsWhole(ih: C.Infohash, p: PeerInfo, limit: nat, cap: nat, max: nat)
    requires limit >= 1 && cap >= 1 && max >= 1
    ensures Whole(Alone(ih, p), ih, limit, cap, max)
  {
    assert C.Slots(Alone(ih, p)) == {(ih, p.addr)};
  }

  /** A lookup that finds the one cached peer unexpired leaves it cached, active at the time of the update. */
  lemma LookupOfOne(ih: C.Infohash, p: PeerInfo, limit: nat, v: Visit, cap: nat, max: nat) returns (q: PeerInfo)
    requires limit >= 1 && cap >= 1 && max >= 1 && !p.Expired(v.asked)
    ensures q.addr == p.addr && q.lastActive == v.stored
    ensures LookedUp(Alone(ih, p), ih, limit, v, cap, max, Alone(ih, q))
  {
    hide Alone, Pipeline, Ranked, C.BestPeers, C.Added;
    var peers := Pipeline([p], limit, v.clock);
    OneIsBest(ih, p, limit, v.asked);
    PipelineIsRanked([p], limit, v.clock);
    OneIsListed(p, limit, v.clock, peers);
    q := AdditionOfOne(ih, p, peers, v.stored, cap, max);
  }

  lemma OneIsListed(p: PeerInfo, limit: nat, clock: Clock, peers: seq<PeerInfo>)
    requires limit >= 1 && Ranked([p], limit, clock, peers)
    ensures Addrs(peers) == {p.addr}
  {
    AddrsMembers([p]);
    assert Addrs([p]) == {p.addr};
    hide Ranked;
    RankedListsAll([p], limit, clock, peers);
  }

  lemma AdditionOfOne(ih: C.Infohash, p: PeerInfo, peers: seq<PeerInfo>, now: nat, cap: nat, max: nat)
    returns (q: PeerInfo)
    requires cap >= 1 && max >= 1 && Addrs(peers) == {p.addr}
    ensures q.addr == p.addr && q.lastActive == now && C.Added(Alone(ih, p), ih, peers, now, cap, max, Alone(ih, q))
  {
    var g := map[p.addr := p];
    assert g.Keys == {p.addr};
    MergeRefreshesAll(g, peers, now);
    C.MergeKeepsKeys(g, peers, now);
    var m := C.Retain(C.MergeAll(g, peers, now), now);
    assert p.addr in m;
    q := m[p.addr];
    assert m == map[p.addr := q];
    assert |m| == 1;
    C.AllAreBest(m, cap);
    AloneIsWhole(ih, q, 1, cap, max);
    hide C.MergeAll, C.BestOf, C.Retain, C.Total;
    assert Alone(ih, p)[ih := m] == Alone(ih, q);
    assert C.ListOf(Alone(ih, p), ih) == g;
    assert C.Evicted(Alone(ih, p)[ih := m], Alone(ih, q), max);
  }

  lemma OneIsBest(ih: C.Infohash, p: PeerInfo, limit: nat, now: nat)
    requires limit >= 1 && !p.Expired(now)
    ensures C.BestPeers(Alone(ih, p), ih, limit, now, [p])
  {
    assert C.Lists(C.ListOf(Alone(ih, p), ih), [p]);
    FilterAll(C.Unexpired(now), [p]);
    assert KSmallest(C.ByScoreDown, multiset([p]), limit, [p]);
  }

  /** A peer reported once, at time 0, and looked up at hours 20 and 40 without being reported again: it is cached
      at hour 40 as active just then, 16 hours after it should have expired. */
  lemma UnreportedPeerOutlivesADay(ih: C.Infohash, addr: SocketAddr, clock: Clock)
    ensures var p, hour := NewPeer(addr, Dht, 0), 3600 * SECOND;
      40 * hour > p.lastActive + LIFETIME &&
      exists q: PeerInfo, q2: PeerInfo :: q2.addr == addr && q2.lastActive == 40 * hour &&
        LookedUp(Alone(ih, p), ih, 50, Visit(20 * hour, clock, 20 * hour), 100, 1000, Alone(ih, q)) &&
        LookedUp(Alone(ih, q), ih, 50, Visit(40 * hour, clock, 40 * hour), 100, 1000, Alone(ih, q2))
  {
    var p, hour := NewPeer(addr, Dht, 0), 3600 * SECOND;
    var q := LookupOfOne(ih, p, 50, Visit(20 * hour, clock, 20 * hour), 100, 1000);
    var q2 := LookupOfOne(ih, q, 50, Visit(40 * hour, clock, 40 * hour), 100, 1000);
    hide LookedUp, Alone;
  }
}
