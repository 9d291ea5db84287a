/** The peers announced to the local tracker, shared by its HTTP and UDP front ends. */
module TrackerState {
  import opened Bytes
  import opened Addresses
  import opened XorMetric
  import opened Sorting
  import opened TopK
  import P = Peers
  import C = PeerCache

  datatype AnnounceEvent = Started | Stopped | Completed | Periodic

  datatype AnnouncedPeer = AnnouncedPeer(addr: SocketAddr, peerId: NodeId, uploaded: U64, downloaded: U64, left: U64,
                                         lastSeen: nat, event: AnnounceEvent)

  type Infohash = NodeId
  type Group = map<SocketAddr, AnnouncedPeer>
  type Groups = map<Infohash, Group>

  function GroupOf(m: Groups, ih: Infohash): Group {
    if ih in m then m[ih] else map[]
  }

  /** One announce: a stopped peer leaves its group, any other joins or refreshes its record. */
  function Announce(m: Groups, ih: Infohash, p: AnnouncedPeer): Groups {
    m[ih := if p.event == Stopped then GroupOf(m, ih) - {p.addr} else GroupOf(m, ih)[p.addr := p]]
  }

  /** An announce makes exactly one record: that of its address in its group, gone when the peer stopped. */
  lemma AnnounceEffect(m: Groups, ih: Infohash, p: AnnouncedPeer, jh: Infohash, a: SocketAddr)
    ensures var g, was := GroupOf(Announce(m, ih, p), jh), GroupOf(m, jh);
      if jh == ih && a == p.addr then (a in g <==> p.event != Stopped) && (a in g ==> g[a] == p)
      else (a in g <==> a in was) && (a in g ==> g[a] == was[a])
  {}

  ghost predicate GroupsKeyed(m: Groups) {
    forall ih, a :: ih in m && a in m[ih] ==> m[ih][a].addr == a
  }

  ghost function Seeders(g: Group): set<SocketAddr> {
    set a | a in g && g[a].left == 0
  }

  ghost function Leechers(g: Group): set<SocketAddr> {
    set a | a in g && g[a].left != 0
  }

  lemma SeedersAndLeechers(g: Group)
    ensures |Seeders(g)| + |Leechers(g)| == |g|
  {
    assert Seeders(g) + Leechers(g) == g.Keys && Seeders(g) !! Leechers(g);
    assert |g.Keys| == |g|;
  }

  ghost predicate Distinct(s: seq<SocketAddr>) {
    forall i, j :: 0 <= i < j < |s| ==> s[i] != s[j]
  }

  /** The peer list of a reply: the announced peers first, then the cached ones, nobody twice, never the
      requester, and nobody left out while there is room. */
  ghost predicate PeerList(g: Group, cached: set<SocketAddr>, requester: SocketAddr, max: nat, r: seq<SocketAddr>) {
    && Distinct(r)
    && requester !in r
    && |r| <= max
    && (forall a :: a in r ==> a in g || a in cached)
    && (forall a :: (a in g || a in cached) && a != requester && a !in r ==> |r| == max)
    && (forall a, b :: a in g && a != requester && a !in r && b in r ==> b in g)
  }

  ghost function CachedAddrs(cached: seq<P.PeerInfo>): set<SocketAddr> {
    set p | p in cached :: p.addr
  }

  /** The peers offered to a requester: a peer list over its group and the best cached peers. */
  ghost predicate Offered(g: Group, cache: C.Cache, ih: Infohash, requester: SocketAddr, max: nat, now: nat,
                          r: seq<SocketAddr>) {
    exists cached :: C.BestPeers(cache, ih, max, now, cached) && PeerList(g, CachedAddrs(cached), requester, max, r)
  }

  class SuperTrackerState {
    const maxNumwant: nat
    var peers: Groups

    ghost predicate Valid()
      reads this
    {
      GroupsKeyed(peers)
    }

    constructor (maxNumwant: nat)
      ensures Valid() && peers == map[] && this.maxNumwant == maxNumwant
    {
      this.maxNumwant := maxNumwant;
      peers := map[];
    }

    method StorePeer(ih: Infohash, peer: AnnouncedPeer)
      requires Valid()
      modifies this
      ensures Valid() && peers == Announce(old(peers), ih, peer)
    {
      var entry := GroupOf(peers, ih);
      if peer.event == Stopped {
        entry := entry - {peer.addr};
      } else {
        entry := entry[peer.addr := peer];
      }
      peers := peers[ih := entry];
    }

    /** Everybody in the group but the requester, in some order. */
    method GetPeersForInfohash(ih: Infohash, exclude: SocketAddr) returns (r: seq<SocketAddr>)
      requires Valid()
      ensures Distinct(r) && forall a :: a in r <==> a in GroupOf(peers, ih) && a != exclude
    {
      var group := GroupOf(peers, ih);
      var left := group.Keys;
      r := [];
      while left != {}
        invariant left <= group.Keys
        invariant Distinct(r) && forall a :: a in r <==> a in group.Keys - left && a != exclude
        decreases left
      {
        var a :| a in left;
        assert a !in r;
        if group[a].addr != exclude {
          r := r + [group[a].addr];
        }
        left := left - {a};
      }
    }

    method CountSeedersLeechers(ih: Infohash) returns (complete: nat, incomplete: nat)
      ensures complete == |Seeders(GroupOf(peers, ih))| && incomplete == |Leechers(GroupOf(peers, ih))|
    {
      hide Seeders, Leechers;
      var group := GroupOf(peers, ih);
      var left := group.Keys;
      ghost var done: set<SocketAddr> := {};
      complete, incomplete := 0, 0;
      while left != {}
        invariant left == group.Keys - done && done <= group.Keys
        invariant complete == |Seeders(group) * done| && incomplete == |Leechers(group) * done|
        decreases left
      {
        var a :| a in left;
        OneMore(group, done, a);
        if group[a].left == 0 {
          complete := complete + 1;
        } else {
          incomplete := incomplete + 1;
        }
        done := done + {a};
        left := left - {a};
      }
      AllDone(group, done);
    }

    /** Append the cached addresses that are new, except the requester's. */
    method TopUp(stored: seq<SocketAddr>, extra: seq<P.PeerInfo>, requester: SocketAddr) returns (list: seq<SocketAddr>)
      requires Distinct(stored)
      ensures Distinct(list) && |list| >= |stored| && list[..|stored|] == stored
      ensures forall a :: a in list <==> a in stored || (a in CachedAddrs(extra) && a != requester)
    {
      list := stored;
      for i := 0 to |extra|
        invariant Distinct(list) && |list| >= |stored| && list[..|stored|] == stored
        invariant forall a :: a in list <==> a in stored || (a in CachedAddrs(extra[..i]) && a != requester)
      {
        var a := extra[i].addr;
        OneMoreCached(extra, i);
        if a !in list && a != requester {
          list := list + [a];
        }
      }
      assert extra[..|extra|] == extra;
    }

    /** Announced peers, topped up from the cache and cut to the configured number. */
    method CollectPeers(ih: Infohash, requester: SocketAddr, cache: C.PeerCache, now: nat) returns (r: seq<SocketAddr>)
      requires Valid() && cache.Valid()
      ensures Offered(GroupOf(peers, ih), cache.peers, ih, requester, maxNumwant, now, r)
    {
      hide PeerList, C.BestPeers, Distinct, CachedAddrs;
      var stored := GetPeersForInfohash(ih, requester);
      var cached := cache.GetPeers(ih, maxNumwant, now);
      var list := TopUp(stored, cached, requester);
      r := Take(maxNumwant, list);
      CutPeerList(GroupOf(peers, ih), CachedAddrs(cached), requester, maxNumwant, stored, list);
    }

    /** `handle_udp_announce`: store the peer under the sender's IP and the announced port, then answer. */
    method HandleUdpAnnounce(ih: Infohash, peerId: NodeId, port: Port, remote: SocketAddr, uploaded: U64,
                             downloaded: U64,
                             left: U64, event: AnnounceEvent, cache: C.PeerCache, now: nat)
      returns (r: seq<SocketAddr>, complete: nat, incomplete: nat)
      requires Valid() && cache.Valid()
      modifies this
      ensures Valid()
      ensures peers == Announce(old(peers), ih, AnnouncedPeer(SocketAddr(remote.ip, port), peerId, uploaded, downloaded,
        left, now, event))
      ensures Offered(GroupOf(peers, ih), cache.peers, ih, SocketAddr(remote.ip, port), maxNumwant, now, r)
      ensures complete == |Seeders(GroupOf(peers, ih))| && incomplete == |Leechers(GroupOf(peers, ih))|
      ensures complete + incomplete == |GroupOf(peers, ih)|
    {
      var peerAddr := SocketAddr(remote.ip, port);
      StorePeer(ih, AnnouncedPeer(peerAddr, peerId, uploaded, downloaded, left, now, event));
      r := CollectPeers(ih, peerAddr, cache, now);
      complete, incomplete := CountSeedersLeechers(ih);
      SeedersAndLeechers(GroupOf(peers, ih));
    }

    /** The periodic cleanup: a record is kept, unchanged, exactly when it is fresh, and no group is left
        empty. */
    method Cleanup(now: nat, ttl: nat)
      requires Valid()
      modifies this
      ensures Valid() && peers == Cleaned(old(peers), now, ttl)
      ensures forall ih, a :: a in GroupOf(peers, ih) <==>
        a in GroupOf(old(peers), ih) && now < GroupOf(old(peers), ih)[a].lastSeen + ttl
      ensures forall ih, a :: a in GroupOf(peers, ih) ==> GroupOf(peers, ih)[a] == GroupOf(old(peers), ih)[a]
      ensures forall ih :: ih in peers ==> peers[ih] != map[]
    {
      CleanedMembers(peers, now, ttl);
      peers := Cleaned(peers, now, ttl);
    }
  }

  function Fresh(g: Group, now: nat, ttl: nat): Group {
    map a | a in g && now < g[a].lastSeen + ttl :: g[a]
  }

  function Cleaned(m: Groups, now: nat, ttl: nat): Groups {
    map ih | ih in m && Fresh(m[ih], now, ttl) != map[] :: Fresh(m[ih], now, ttl)
  }

  lemma CleanedMembers(m: Groups, now: nat, ttl: nat)
    ensures var c := Cleaned(m, now, ttl);
      (forall ih, a :: a in GroupOf(c, ih) <==> a in GroupOf(m, ih) && now < GroupOf(m, ih)[a].lastSeen + ttl) &&
      (forall ih, a :: a in GroupOf(c, ih) ==> GroupOf(c, ih)[a] == GroupOf(m, ih)[a]) &&
      (forall ih :: ih in c ==> c[ih] != map[])
  {
    var c := Cleaned(m, now, ttl);
    forall ih, a
      ensures a in GroupOf(c, ih) <==> a in GroupOf(m, ih) && now < GroupOf(m, ih)[a].lastSeen + ttl
    {
      if ih in m && a in m[ih] && now < m[ih][a].lastSeen + ttl {
        assert a in Fresh(m[ih], now, ttl);
      }
    }
  }

  lemma OneMoreCached(extra: seq<P.PeerInfo>, i: nat)
    requires i < |extra|
    ensures CachedAddrs(extra[..i + 1]) == CachedAddrs(extra[..i]) + {extra[i].addr}
  {}

  lemma AllDone(g: Group, done: set<SocketAddr>)
    requires done == g.Keys
    ensures Seeders(g) * done == Seeders(g) && Leechers(g) * done == Leechers(g)
  {}

  lemma OneMore(g: Group, done: set<SocketAddr>, a: SocketAddr)
    requires a in g && a !in done
    ensures |Seeders(g) * (done + {a})| == |Seeders(g) * done| + (if g[a].left == 0 then 1 else 0)
    ensures |Leechers(g) * (done + {a})| == |Leechers(g) * done| + (if g[a].left == 0 then 0 else 1)
  {
    if g[a].left == 0 {
      assert Seeders(g) * (done + {a}) == Seeders(g) * done + {a};
      assert Leechers(g) * (done + {a}) == Leechers(g) * done;
    } else {
      assert Leechers(g) * (done + {a}) == Leechers(g) * done + {a};
      assert Seeders(g) * (done + {a}) == Seeders(g) * done;
    }
  }

  lemma CutPeerList(g: Group, cached: set<SocketAddr>, requester: SocketAddr, max: nat, stored: seq<SocketAddr>,
                    list: seq<SocketAddr>)
    requires Distinct(list) && |stored| <= |list| && list[..|stored|] == stored
    requires forall a :: a in stored <==> a in g && a != requester
    requires forall a :: a in list <==> a in stored || (a in cached && a != requester)
    ensures PeerList(g, cached, requester, max, Take(max, list))
  {
    var r := Take(max, list);
    if |list| <= max {
    } else {
      assert forall a :: a in r ==> a in list;
      if exists a :: a in stored && a !in r {
        var a :| a in stored && a !in r;
        var i :| 0 <= i < |stored| && stored[i] == a;
        assert list[i] == stored[i];
        assert max <= i;
        assert r == stored[..max];
      }
    }
  }

  /** Whoever announces is offered to everybody else while there is room; who stops and is not cached is
      offered no more; and nobody is offered to itself or twice. */
  lemma AnnouncedPeersAreOffered(m: Groups, cache: C.Cache, ih: Infohash, p: AnnouncedPeer, requester: SocketAddr,
                                 max: nat, now: nat, r: seq<SocketAddr>)
    requires Offered(GroupOf(Announce(m, ih, p), ih), cache, ih, requester, max, now, r)
    ensures Distinct(r) && requester !in r && |r| <= max
    ensures p.event != Stopped && p.addr != requester && |r| < max ==> p.addr in r
    ensures p.event == Stopped && p.addr !in C.ListOf(cache, ih) ==> p.addr !in r
  {}

}
