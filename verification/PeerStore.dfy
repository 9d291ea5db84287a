/** The store of announced peers: per-infohash lists, cached totals and lazy expiry. */
module PeerStore {
  import opened Bytes
  import opened Addresses
  import opened XorMetric
  import opened Sorting

  const PEER_TTL_SECS: nat := 1800
  const MAX_PEERS_PER_INFOHASH: nat := 256

  type Infohash = NodeId
  datatype PeerEntry = PeerEntry(addr: CompactAddr, lastSeen: U32)
  {
    /** `now.saturating_sub(last_seen) > TTL`. */
    predicate Expired(now: U32) {
      now > lastSeen + PEER_TTL_SECS
    }
  }

  type Peers = map<Infohash, seq<PeerEntry>>

  function LastSeen(e: PeerEntry): int {
    e.lastSeen
  }

  function AddrOf(e: PeerEntry): CompactAddr {
    e.addr
  }

  function HasAddr(addr: CompactAddr): PeerEntry -> bool {
    (e: PeerEntry) => e.addr == addr
  }

  function Live(now: U32): PeerEntry -> bool {
    (e: PeerEntry) => !e.Expired(now)
  }

  function ListOf(m: Peers, ih: Infohash): seq<PeerEntry> {
    if ih in m then m[ih] else []
  }

  // ---- operations on values ----

  function AnnounceTo(list: seq<PeerEntry>, addr: CompactAddr, now: U32): (r: seq<PeerEntry>)
    ensures |r| > 0
  {
    var p := Position(HasAddr(addr), list);
    if p < |list| then list[p := list[p].(lastSeen := now)]
    else if |list| >= MAX_PEERS_PER_INFOHASH then Sort(LastSeen, list)[1..] + [PeerEntry(addr, now)]
    else list + [PeerEntry(addr, now)]
  }

  function Announce(m: Peers, ih: Infohash, addr: CompactAddr, now: U32): Peers {
    m[ih := AnnounceTo(ListOf(m, ih), addr, now)]
  }

  function Evict(m: Peers, now: U32): Peers {
    map ih | ih in m && Filter(Live(now), m[ih]) != [] :: Filter(Live(now), m[ih])
  }

  function Addrs(s: seq<PeerEntry>): (r: seq<CompactAddr>)
    ensures |r| == |s|
    ensures forall i :: 0 <= i < |s| ==> r[i] == s[i].addr
  {
    seq(|s|, i requires 0 <= i < |s| => s[i].addr)
  }

  function GetPeers(m: Peers, ih: Infohash, limit: nat, now: U32): seq<CompactAddr> {
    Addrs(Take(limit, Filter(Live(now), ListOf(m, ih))))
  }

  function PeerCount(m: Peers, ih: Infohash, now: U32): nat {
    |Filter(Live(now), ListOf(m, ih))|
  }

  ghost predicate IsSample(m: Peers, maxSamples: nat, samples: seq<Infohash>) {
    && |samples| == (if |m| <= maxSamples then |m| else maxSamples)
    && (forall ih :: ih in samples ==> ih in m)
    && forall i, j :: 0 <= i < j < |samples| ==> samples[i] != samples[j]
  }

  // ---- what every list keeps ----

  ghost predicate ListOk(list: seq<PeerEntry>) {
    0 < |list| <= MAX_PEERS_PER_INFOHASH && DistinctBy(AddrOf, list)
  }

  ghost predicate StoreOk(m: Peers) {
    forall ih :: ih in m ==> ListOk(m[ih])
  }

  lemma AnnounceKeepsListOk(list: seq<PeerEntry>, addr: CompactAddr, now: U32)
    requires list == [] || ListOk(list)
    ensures ListOk(AnnounceTo(list, addr, now))
  {
    var p := Position(HasAddr(addr), list);
    if p == |list| {
      assert forall j :: 0 <= j < |list| ==> !HasAddr(addr)(list[j]);
      if |list| >= MAX_PEERS_PER_INFOHASH {
        SortKeepsDistinct(AddrOf, LastSeen, list);
        SortMembers(LastSeen, list);
        var s := Sort(LastSeen, list);
        forall j | 0 <= j < |s|
          ensures s[j].addr != addr
        {
          assert s[j] in list;
        }
      }
    }
  }

  /** An announce at the cap drops one peer, a least recently seen one; so it drops an unexpired peer
      only when all 256 stored peers are unexpired. */
  lemma AnnounceAtCap(list: seq<PeerEntry>, addr: CompactAddr, now: U32)
    requires ListOk(list) && |list| == MAX_PEERS_PER_INFOHASH
    requires forall e :: e in list ==> e.addr != addr
    ensures var dropped := Sort(LastSeen, list)[0];
      dropped in list &&
      multiset(AnnounceTo(list, addr, now)) + multiset{dropped} == multiset(list) + multiset{PeerEntry(addr, now)} &&
      (forall e :: e in list ==> dropped.lastSeen <= e.lastSeen) &&
      (!dropped.Expired(now) ==> forall e :: e in list ==> !e.Expired(now))
  {
    var s := Sort(LastSeen, list);
    OldestFirst(list);
    PositionUnique(HasAddr(addr), list, |list|);
    assert s == [s[0]] + s[1..];
  }

  lemma OldestFirst(list: seq<PeerEntry>)
    requires list != []
    ensures var s := Sort(LastSeen, list);
      multiset(s) == multiset(list) && s[0] in list && forall e :: e in list ==> s[0].lastSeen <= e.lastSeen
  {
    var s := Sort(LastSeen, list);
    SortIsStableSort(LastSeen, list);
    SortMembers(LastSeen, list);
    forall e | e in list
      ensures s[0].lastSeen <= e.lastSeen
    {
      var i :| 0 <= i < |s| && s[i] == e;
      assert LastSeen(s[0]) <= LastSeen(s[i]);
    }
  }

  /** An announce stores the peer as seen now and leaves every other peer alone, but for a least recently seen one that
      makes room in a full list. */
  lemma AnnounceEffect(list: seq<PeerEntry>, addr: CompactAddr, now: U32)
    requires list == [] || ListOk(list)
    ensures var r, held := AnnounceTo(list, addr, now), exists e :: e in list && e.addr == addr;
      PeerEntry(addr, now) in r &&
      (forall e :: e in r ==> e == PeerEntry(addr, now) || (e in list && e.addr != addr)) &&
      (forall e :: e in list && e.addr != addr && e !in r ==>
         !held && |list| == MAX_PEERS_PER_INFOHASH && forall x :: x in list ==> e.lastSeen <= x.lastSeen) &&
      |r| == |list| + (if held || |list| == MAX_PEERS_PER_INFOHASH then 0 else 1)
  {
    var r, p := AnnounceTo(list, addr, now), Position(HasAddr(addr), list);
    forall e | e in list
      ensures e.addr == addr <==> HasAddr(addr)(e)
    {}
    if p < |list| {
      Refreshed(list, p, addr, now);
    } else {
      assert r[|r| - 1] == PeerEntry(addr, now);
      if |list| >= MAX_PEERS_PER_INFOHASH {
        OldestFirst(list);
        var s := Sort(LastSeen, list);
        SortMembers(LastSeen, list);
        assert s == [s[0]] + s[1..];
        hide Sort;
      }
    }
  }

  lemma Refreshed(list: seq<PeerEntry>, p: nat, addr: CompactAddr, now: U32)
    requires ListOk(list) && p < |list| && list[p].addr == addr
    ensures var r := list[p := list[p].(lastSeen := now)];
      PeerEntry(addr, now) in r && (forall e :: e in list && e.addr != addr ==> e in r) &&
      forall e :: e in r ==> e == PeerEntry(addr, now) || (e in list && e.addr != addr)
  {
    var r := list[p := list[p].(lastSeen := now)];
    assert r[p] == PeerEntry(addr, now);
    forall e | e in list && e.addr != addr
      ensures e in r
    {
      var i :| 0 <= i < |list| && list[i] == e;
      assert r[i] == e;
    }
    forall e | e in r
      ensures e == PeerEntry(addr, now) || (e in list && e.addr != addr)
    {
      var i :| 0 <= i < |r| && r[i] == e;
      assert i != p ==> AddrOf(list[i]) != AddrOf(list[p]);
    }
  }

  // ---- what a query answers ----

  /** The places of the entries that are at most 1800 seconds old. */
  ghost function FreshAt(list: seq<PeerEntry>, now: U32): set<int> {
    set i | 0 <= i < |list| && now <= list[i].lastSeen + PEER_TTL_SECS
  }

  lemma {:induction false} LiveCount(list: seq<PeerEntry>, now: U32)
    ensures |Filter(Live(now), list)| == |FreshAt(list, now)|
  {
    if list == [] {
      assert FreshAt(list, now) == {};
    } else {
      var front, n := list[..|list| - 1], |list| - 1;
      LiveCount(front, now);
      assert list == front + [list[n]];
      FilterConcat(Live(now), front, [list[n]]);
      assert FreshAt(list, now) == FreshAt(front, now) + (if Live(now)(list[n]) then {n} else {});
    }
  }

  /** A query is answered with as many fresh peers as there are, up to the limit, nobody twice; so with every fresh peer
      when all of them fit. */
  lemma GetPeersAnswer(m: Peers, ih: Infohash, limit: nat, now: U32)
    requires StoreOk(m)
    ensures var r, list := GetPeers(m, ih, limit, now), ListOf(m, ih);
      var n := |FreshAt(list, now)|;
      |r| == (if limit <= n then limit else n) &&
      (forall i, j :: 0 <= i < j < |r| ==> r[i] != r[j]) &&
      (forall a :: a in r ==> exists e :: e in list && e.addr == a && now <= e.lastSeen + PEER_TTL_SECS) &&
      (n <= limit ==> forall e :: e in list && now <= e.lastSeen + PEER_TTL_SECS ==> e.addr in r)
  {
    var list := ListOf(m, ih);
    var live, r := Filter(Live(now), list), GetPeers(m, ih, limit, now);
    LiveCount(list, now);
    if ih in m {
      FilterKeepsDistinct(AddrOf, Live(now), list);
    }
    hide Filter, FreshAt, StoreOk;
    forall i, j | 0 <= i < j < |r|
      ensures r[i] != r[j]
    {
      assert AddrOf(live[i]) != AddrOf(live[j]);
    }
    forall a | a in r
      ensures exists e :: e in list && e.addr == a && now <= e.lastSeen + PEER_TTL_SECS
    {
      var i :| 0 <= i < |r| && r[i] == a;
      assert live[i] in live && Live(now)(live[i]);
    }
    if |live| <= limit {
      forall e | e in list && now <= e.lastSeen + PEER_TTL_SECS
        ensures e.addr in r
      {
        assert Live(now)(e) && e in live;
        var i :| 0 <= i < |live| && live[i] == e;
        assert r[i] == e.addr;
      }
    }
  }

  /** The count is that of the fresh peers, whatever the limit of a query. */
  lemma PeerCountExactly(m: Peers, ih: Infohash, now: U32)
    ensures PeerCount(m, ih, now) == |FreshAt(ListOf(m, ih), now)|
  {
    LiveCount(ListOf(m, ih), now);
  }

  /** Eviction keeps exactly the fresh entries, and the lists that have one. */
  lemma EvictKeepsFresh(m: Peers, now: U32)
    ensures forall ih, e :: e in ListOf(Evict(m, now), ih) <==>
      e in ListOf(m, ih) && now <= e.lastSeen + PEER_TTL_SECS
    ensures forall ih :: ih in Evict(m, now) ==> Evict(m, now)[ih] != []
  {
    forall ih, e
      ensures e in ListOf(Evict(m, now), ih) <==> e in ListOf(m, ih) && now <= e.lastSeen + PEER_TTL_SECS
    {
      assert ListOf(Evict(m, now), ih) == Filter(Live(now), ListOf(m, ih));
      assert Live(now)(e) <==> now <= e.lastSeen + PEER_TTL_SECS;
    }
  }

  // ---- lazy and eager expiry agree ----

  lemma {:induction false} FilterTwice(list: seq<PeerEntry>, now: U32, later: U32)
    requires now <= later
    ensures Filter(Live(later), Filter(Live(now), list)) == Filter(Live(later), list)
  {
    if list == [] {
    } else {
      FilterTwice(list[1..], now, later);
    }
  }

  /** Eviction is invisible: no query at that time or later sees a difference. */
  lemma EvictionIsInvisible(m: Peers, ih: Infohash, limit: nat, now: U32, later: U32)
    requires now <= later
    ensures GetPeers(Evict(m, now), ih, limit, later) == GetPeers(m, ih, limit, later)
    ensures PeerCount(Evict(m, now), ih, later) == PeerCount(m, ih, later)
  {
    FilterTwice(ListOf(m, ih), now, later);
    assert ListOf(Evict(m, now), ih) == Filter(Live(now), ListOf(m, ih));
  }

  lemma EvictKeepsStoreOk(m: Peers, now: U32)
    requires StoreOk(m)
    ensures StoreOk(Evict(m, now))
  {
    forall ih | ih in Evict(m, now)
      ensures ListOk(Evict(m, now)[ih])
    {
      FilterKeepsDistinct(AddrOf, Live(now), m[ih]);
    }
  }

  // ---- totals ----

  /** Every stored entry, as infohash and position. */
  ghost function Slots(m: Peers): set<(Infohash, int)> {
    set ih, i | ih in m && 0 <= i < |m[ih]| :: (ih, i)
  }

  ghost function Row(ih: Infohash, n: nat): set<(Infohash, int)> {
    set i | 0 <= i < n :: (ih, i)
  }

  lemma {:induction false} RowSize(ih: Infohash, n: nat)
    ensures |Row(ih, n)| == n
  {
    if n == 0 {
    } else {
      RowSize(ih, n - 1);
      assert Row(ih, n) == Row(ih, n - 1) + {(ih, n - 1)};
    }
  }

  ghost function Total(m: Peers): nat {
    |Slots(m)|
  }

  /** Replacing one list changes the total by the difference in length. */
  lemma TotalAfterUpdate(m: Peers, ih: Infohash, list: seq<PeerEntry>)
    ensures Total(m[ih := list]) + |ListOf(m, ih)| == Total(m) + |list|
  {
    TotalWithout(m, ih);
    TotalWithout(m[ih := list], ih);
    assert m[ih := list] - {ih} == m - {ih};
  }

  lemma TotalWithout(m: Peers, ih: Infohash)
    ensures Total(m) == Total(m - {ih}) + |ListOf(m, ih)|
  {
    var n := |ListOf(m, ih)|;
    RowSize(ih, n);
    assert Slots(m) == Slots(m - {ih}) + Row(ih, n);
    assert Slots(m - {ih}) !! Row(ih, n);
  }

  class DhtStore {
    var peers: Peers
    var totalPeers: nat
    var totalInfohashes: nat

    /** Exact accounting: the cached totals are the sum of the list lengths and the number of lists;
        no list is empty, over the cap, or repeats an address. */
    ghost predicate Valid()
      reads this
    {
      && StoreOk(peers)
      && totalPeers == Total(peers)
      && totalInfohashes == |peers|
    }

    constructor ()
      ensures Valid() && peers == map[]
    {
      peers := map[];
      totalPeers := 0;
      totalInfohashes := 0;
      new;
      assert Slots(peers) == {};
    }

    method AnnouncePeer(ih: Infohash, addr: CompactAddr, now: U32)
      requires Valid()
      modifies this
      ensures Valid()
      ensures peers == Announce(old(peers), ih, addr, now)
    {
      var list := if ih in peers then peers[ih] else [];
      AnnounceBookkeeping(peers, ih, addr, now);
      var p := Position(HasAddr(addr), list);
      if p < |list| {
        peers := peers[ih := list[p := list[p].(lastSeen := now)]];
      } else {
        if |list| >= MAX_PEERS_PER_INFOHASH {
          list := Sort(LastSeen, list);
          list := list[1..];
          totalPeers := SaturatingSub(totalPeers, 1);
        }
        list := list + [PeerEntry(addr, now)];
        totalPeers := totalPeers + 1;
        if |list| == 1 {
          totalInfohashes := totalInfohashes + 1;
        }
        peers := peers[ih := list];
      }
    }

    method Query(ih: Infohash, limit: nat, now: U32) returns (r: seq<CompactAddr>)
      ensures r == GetPeers(peers, ih, limit, now)
    {
      r := if ih in peers then Addrs(Take(limit, Filter(Live(now), peers[ih]))) else [];
    }

    method Count(ih: Infohash, now: U32) returns (n: nat)
      ensures n == PeerCount(peers, ih, now)
    {
      n := if ih in peers then |Filter(Live(now), peers[ih])| else 0;
    }

    /** `sample_infohashes`: every infohash if there are at most maxSamples, else that many distinct ones,
        whichever the random choice picks. */
    method SampleInfohashes(maxSamples: nat) returns (samples: seq<Infohash>, total: nat)
      ensures IsSample(peers, maxSamples, samples) && total == |peers|
    {
      var left := peers.Keys;
      samples := [];
      while left != {} && |samples| < maxSamples
        invariant left <= peers.Keys && |samples| + |left| == |peers.Keys| && |samples| <= maxSamples
        invariant forall ih :: ih in samples <==> ih in peers.Keys - left
        invariant forall i, j :: 0 <= i < j < |samples| ==> samples[i] != samples[j]
        decreases left
      {
        var ih :| ih in left;
        assert ih !in samples;
        samples := samples + [ih];
        left := left - {ih};
      }
      total := |peers|;
    }

    method EvictExpired(now: U32) returns (evicted: nat)
      requires Valid()
      modifies this
      ensures Valid()
      ensures peers == Evict(old(peers), now)
      ensures evicted == Total(old(peers)) - Total(peers)
    {
      hide Total, Evict, Prune, EmptiedBy, StoreOk;
      EvictKeepsStoreOk(peers, now);
      var pruned, emptied;
      pruned, evicted, emptied := PruneLists(peers, now);
      EvictIsPruneThenRemove(peers, pruned, emptied, now);
      peers, totalInfohashes := RemoveEmpty(pruned, emptied, totalInfohashes);
      totalPeers := SaturatingSub(totalPeers, evicted);
    }
  }

  lemma AnnounceBookkeeping(m: Peers, ih: Infohash, addr: CompactAddr, now: U32)
    requires StoreOk(m)
    ensures var was, r := ListOf(m, ih), Announce(m, ih, addr, now);
      StoreOk(r) && |r| == |m| + (if was == [] then 1 else 0) &&
      |was| <= Total(m) && Total(r) + |was| == Total(m) + |ListOf(r, ih)|
  {
    var list := AnnounceTo(ListOf(m, ih), addr, now);
    AnnounceKeepsListOk(ListOf(m, ih), addr, now);
    hide AnnounceTo, ListOk, Total;
    TotalWithout(m, ih);
    TotalAfterUpdate(m, ih, list);
    KeyAdded(m, ih, list);
    NotEmpty(ListOf(m, ih));
  }

  lemma NotEmpty(list: seq<PeerEntry>)
    ensures ListOk(list) ==> list != []
  {}

  lemma KeyAdded(m: Peers, ih: Infohash, list: seq<PeerEntry>)
    ensures |m[ih := list]| == |m| + (if ih in m then 0 else 1)
  {
    assert m[ih := list].Keys == m.Keys + {ih};
    assert ih in m ==> m.Keys + {ih} == m.Keys;
    assert |m| == |m.Keys|;
  }

  function Prune(m: Peers, keys: set<Infohash>, now: U32): Peers {
    map ih | ih in m :: if ih in keys then Filter(Live(now), m[ih]) else m[ih]
  }

  /** Half-way through the first pass: the lists in todo still hold their expired entries. */
  ghost predicate Pruning(m: Peers, now: U32, todo: set<Infohash>, r: Peers, evicted: int, emptied: set<Infohash>) {
    && todo <= m.Keys
    && r == Prune(m, m.Keys - todo, now)
    && emptied == EmptiedBy(m, m.Keys - todo, now)
    && evicted == Total(m) - Total(r)
  }

  /** The lists among keys that hold expired entries only. */
  ghost function EmptiedBy(m: Peers, keys: set<Infohash>, now: U32): set<Infohash> {
    set ih | ih in keys && ih in m && Filter(Live(now), m[ih]) == []
  }

  lemma NothingPruned(m: Peers, now: U32)
    ensures Pruning(m, now, m.Keys, m, 0, {})
  {
    assert m.Keys - m.Keys == {};
    assert EmptiedBy(m, {}, now) == {};
    assert Prune(m, {}, now) == m;
  }

  lemma PruneOneMore(m: Peers, now: U32, todo: set<Infohash>, r: Peers, evicted: int, emptied: set<Infohash>,
                     ih: Infohash)
    requires Pruning(m, now, todo, r, evicted, emptied) && ih in todo
    ensures var kept := Filter(Live(now), m[ih]);
      ih in r && r[ih] == m[ih] &&
      Pruning(m, now, todo - {ih}, r[ih := kept], evicted + (|m[ih]| - |kept|),
              if kept == [] then emptied + {ih} else emptied)
  {
    var kept := Filter(Live(now), m[ih]);
    var keys := m.Keys - todo;
    assert m.Keys - (todo - {ih}) == keys + {ih};
    assert Prune(m, keys + {ih}, now) == r[ih := kept];
    assert EmptiedBy(m, keys + {ih}, now) == if kept == [] then emptied + {ih} else emptied;
    TotalAfterUpdate(r, ih, kept);
  }

  lemma AllPruned(m: Peers, now: U32, r: Peers, evicted: int, emptied: set<Infohash>)
    requires Pruning(m, now, {}, r, evicted, emptied)
    ensures r == Prune(m, m.Keys, now) && emptied == EmptiedBy(m, m.Keys, now)
  {
    assert m.Keys - {} == m.Keys;
  }

  /** First pass of the eviction: drop expired entries everywhere, remember which lists became empty. */
  method PruneLists(m: Peers, now: U32) returns (pruned: Peers, evicted: nat, emptied: set<Infohash>)
    ensures pruned == Prune(m, m.Keys, now) && emptied == EmptiedBy(m, m.Keys, now)
    ensures evicted == Total(m) - Total(pruned)
  {
    var todo := m.Keys;
    pruned, evicted, emptied := m, 0, {};
    hide Pruning, Prune, EmptiedBy, Total;
    NothingPruned(m, now);
    while todo != {}
      invariant Pruning(m, now, todo, pruned, evicted, emptied)
      decreases |todo|
    {
      var ih :| ih in todo;
      PruneOneMore(m, now, todo, pruned, evicted, emptied, ih);
      var kept := Filter(Live(now), pruned[ih]);
      evicted := evicted + (|pruned[ih]| - |kept|);
      pruned := pruned[ih := kept];
      todo := todo - {ih};
      if kept == [] {
        emptied := emptied + {ih};
      }
    }
    AllPruned(m, now, pruned, evicted, emptied);
  }

  lemma RemoveOne(m: Peers, ih: Infohash)
    requires ih in m && m[ih] == []
    ensures Total(m - {ih}) == Total(m) && |m - {ih}| == |m| - 1
  {
    TotalWithout(m, ih);
    assert (m - {ih}).Keys == m.Keys - {ih};
  }

  /** Half-way through the second pass: the lists in todo are still to be removed. */
  ghost predicate Removing(m: Peers, emptied: set<Infohash>, todo: set<Infohash>, r: Peers, left: nat) {
    && todo <= emptied <= m.Keys
    && (forall ih :: ih in emptied ==> m[ih] == [])
    && r == m - (emptied - todo)
    && left == |r| && Total(r) == Total(m)
  }

  lemma RemoveOneMore(m: Peers, emptied: set<Infohash>, todo: set<Infohash>, r: Peers, left: nat, ih: Infohash)
    requires Removing(m, emptied, todo, r, left) && ih in todo
    ensures left > 0 && Removing(m, emptied, todo - {ih}, r - {ih}, left - 1)
  {
    assert emptied - (todo - {ih}) == (emptied - todo) + {ih};
    RemoveOne(r, ih);
  }

  /** Second pass: remove the emptied lists one by one. */
  method RemoveEmpty(m: Peers, emptied: set<Infohash>, count: nat) returns (r: Peers, left: nat)
    requires emptied <= m.Keys && count == |m|
    requires forall ih :: ih in emptied ==> m[ih] == []
    ensures r == m - emptied && left == |r| && Total(r) == Total(m)
  {
    var todo := emptied;
    r, left := m, count;
    assert emptied - todo == {} && m - {} == m;
    while todo != {}
      invariant Removing(m, emptied, todo, r, left)
      decreases |todo|
    {
      var ih :| ih in todo;
      RemoveOneMore(m, emptied, todo, r, left, ih);
      r := r - {ih};
      left := SaturatingSub(left, 1);
      todo := todo - {ih};
    }
    assert emptied - {} == emptied;
  }

  lemma EvictIsPruneThenRemove(m: Peers, pruned: Peers, emptied: set<Infohash>, now: U32)
    requires pruned == Prune(m, m.Keys, now)
    requires emptied == EmptiedBy(m, m.Keys, now)
    ensures pruned - emptied == Evict(m, now)
    ensures |pruned| == |m| && emptied <= pruned.Keys
    ensures forall ih :: ih in emptied ==> pruned[ih] == []
  {
    hide Filter;
    assert pruned.Keys == m.Keys;
    assert |pruned| == |pruned.Keys| && |m| == |m.Keys|;
    assert pruned - emptied == Evict(m, now);
  }
}
