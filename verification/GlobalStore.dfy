/** The node pool shared by several virtual DHT nodes. */
module GlobalStore {
  import opened Bytes
  import opened Addresses
  import opened XorMetric
  import opened Sorting
  import opened Nearest

  datatype GlobalNodeEntry = GlobalNodeEntry(id: NodeId, addr: CompactAddr, lastSeen: U32, failures: Byte,
    firstSeen: U32)
  {
    predicate Healthy() {
      failures < 3
    }

    /** `now.saturating_sub(last_seen) > ttl_secs`. */
    predicate Expired(now: U32, ttlSecs: U32) {
      now > lastSeen + ttlSecs
    }
  }

  type Nodes = map<CompactAddr, GlobalNodeEntry>

  function IdOf(n: GlobalNodeEntry): NodeId {
    n.id
  }

  function AddrOf(n: GlobalNodeEntry): CompactAddr {
    n.addr
  }

  predicate IsHealthy(n: GlobalNodeEntry) {
    n.Healthy()
  }

  function Retained(m: Nodes, now: U32, ttlSecs: U32): Nodes {
    map a | a in m && m[a].Healthy() && !m[a].Expired(now, ttlSecs) :: m[a]
  }

  /** s lists the nodes of the pool, each once. */
  ghost predicate Lists(m: Nodes, s: seq<GlobalNodeEntry>) {
    DistinctBy(AddrOf, s) && forall n :: n in s <==> n.addr in m && m[n.addr] == n
  }

  /** r answers the nearest query over the pool, in some listing of it. */
  ghost predicate NearestInPool(m: Nodes, target: NodeId, count: nat, r: seq<GlobalNodeEntry>) {
    exists all :: Lists(m, all) && KNearest(IdOf, IsHealthy, all, target, count, r)
  }

  class GlobalNodeStore {
    const nodeTtlSecs: U32
    var nodes: Nodes

    /** Every node is filed under its own address. */
    ghost predicate Valid()
      reads this
    {
      forall a :: a in nodes ==> nodes[a].addr == a
    }

    constructor (nodeTtlSecs: U32)
      ensures Valid() && nodes == map[] && this.nodeTtlSecs == nodeTtlSecs
    {
      this.nodeTtlSecs := nodeTtlSecs;
      nodes := map[];
    }

    method Insert(id: NodeId, addr: CompactAddr, now: U32)
      requires Valid()
      modifies this
      ensures Valid() && nodes.Keys == old(nodes).Keys + {addr}
      ensures forall a :: a in nodes && a != addr ==> nodes[a] == old(nodes)[a]
      ensures var n := nodes[addr];
        n.id == id && n.addr == addr && n.lastSeen == now && n.failures == 0 &&
        n.firstSeen == if addr in old(nodes) then old(nodes)[addr].firstSeen else now
    {
      if addr in nodes {
        nodes := nodes[addr := nodes[addr].(id := id, lastSeen := now, failures := 0)];
      } else {
        nodes := nodes[addr := GlobalNodeEntry(id, addr, now, 0, now)];
      }
    }

    /** The node answers again: whatever its failures were, it is healthy and retained for the next TTL; its id,
        its first sighting and every other node stay. */
    method MarkSuccess(addr: CompactAddr, now: U32)
      requires Valid()
      modifies this
      ensures Valid() && nodes.Keys == old(nodes).Keys
      ensures forall a :: a in nodes && a != addr ==> nodes[a] == old(nodes)[a]
      ensures addr in nodes ==>
        nodes[addr].id == old(nodes)[addr].id && nodes[addr].firstSeen == old(nodes)[addr].firstSeen
      ensures addr in nodes ==> nodes[addr].lastSeen == now && nodes[addr].failures == 0
      ensures addr in nodes ==> forall t: U32, ttl: U32 :: t <= now + ttl ==> addr in Retained(nodes, t, ttl)
    {
      if addr in nodes {
        nodes := nodes[addr := nodes[addr].(lastSeen := now, failures := 0)];
      }
    }

    method MarkFailure(addr: CompactAddr)
      requires Valid()
      modifies this
      ensures Valid() && nodes.Keys == old(nodes).Keys
      ensures forall a :: a in nodes && a != addr ==> nodes[a] == old(nodes)[a]
      ensures addr in nodes ==>
        nodes[addr] == old(nodes)[addr].(failures := nodes[addr].failures) &&
        nodes[addr].failures == if old(nodes)[addr].failures < 255 then old(nodes)[addr].failures + 1 else 255
    {
      if addr in nodes {
        var f := nodes[addr].failures;
        nodes := nodes[addr := nodes[addr].(failures := if f == 255 then 255 else f + 1)];
      }
    }

    method Remove(addr: CompactAddr) returns (found: bool)
      requires Valid()
      modifies this
      ensures Valid() && nodes == old(nodes) - {addr} && found == (addr in old(nodes))
    {
      found := addr in nodes;
      nodes := nodes - {addr};
    }

    /** A node is kept, unchanged, exactly when it is healthy and was seen within the TTL; so nobody kept is
        left out of a query for its health, and a second cleanup at once evicts nobody. */
    method EvictExpired(now: U32) returns (evicted: nat)
      requires Valid()
      modifies this
      ensures Valid() && evicted == |old(nodes)| - |nodes|
      ensures forall a :: a in nodes <==>
        a in old(nodes) && old(nodes)[a].failures < 3 && now <= old(nodes)[a].lastSeen + nodeTtlSecs
      ensures forall a :: a in nodes ==> nodes[a] == old(nodes)[a]
      ensures Retained(nodes, now, nodeTtlSecs) == nodes
    {
      RetainedShrinks(nodes, now, nodeTtlSecs);
      var before := |nodes|;
      nodes := Retained(nodes, now, nodeTtlSecs);
      evicted := before - |nodes|;
    }

    /** `values()`: the nodes in some order. */
    method AllNodes() returns (s: seq<GlobalNodeEntry>)
      requires Valid()
      ensures Lists(nodes, s)
    {
      var left := nodes.Keys;
      s := [];
      while left != {}
        invariant left <= nodes.Keys
        invariant DistinctBy(AddrOf, s)
        invariant forall n :: n in s <==> n.addr in nodes.Keys - left && nodes[n.addr] == n
        decreases left
      {
        var a :| a in left;
        assert forall n :: n in s ==> n.addr != a;
        s := s + [nodes[a]];
        left := left - {a};
      }
    }

    /** The same exact nearest query as the routing table answers, over the pool. */
    method FindClosest(target: NodeId, count: nat) returns (r: seq<GlobalNodeEntry>)
      requires Valid()
      ensures NearestInPool(nodes, target, count, r)
    {
      var list := AllNodes();
      ghost var all := list;
      list := Filter(IsHealthy, list);
      list := Sort(DistanceTo(IdOf, target), list);
      r := Take(count, list);
      ClosestIsKNearest(IdOf, IsHealthy, all, target, count);
    }
  }

  lemma RetainedShrinks(m: Nodes, now: U32, ttlSecs: U32)
    ensures |Retained(m, now, ttlSecs)| <= |m|
  {
    var r := Retained(m, now, ttlSecs);
    assert m.Keys == r.Keys + (m.Keys - r.Keys);
  }

  /** Whatever order the pool is listed in, the answer names the same ids in the same order. */
  lemma AnswerIgnoresOrder(m: Nodes, target: NodeId, count: nat, r: seq<GlobalNodeEntry>, q: seq<GlobalNodeEntry>)
    requires NearestInPool(m, target, count, r) && NearestInPool(m, target, count, q)
    ensures |r| == |q| && forall i :: 0 <= i < |r| ==> r[i].id == q[i].id
  {
    var s :| Lists(m, s) && KNearest(IdOf, IsHealthy, s, target, count, r);
    var t :| Lists(m, t) && KNearest(IdOf, IsHealthy, t, target, count, q);
    SameListing(m, s, t);
    KNearestIgnoresLayout(IdOf, IsHealthy, s, t, target, count, r, q);
    assert forall i :: 0 <= i < |r| ==> IdOf(r[i]) == IdOf(q[i]);
  }

  lemma OnceEach(m: Nodes, s: seq<GlobalNodeEntry>, n: GlobalNodeEntry)
    requires Lists(m, s)
    ensures multiset(s)[n] == if n in s then 1 else 0
  {
    if n in s {
      var i :| 0 <= i < |s| && s[i] == n;
      forall j | 0 <= j < |s| && j != i
        ensures s[j] != n
      {
        assert AddrOf(s[i]) != AddrOf(s[j]);
      }
      var front, back := s[..i], s[i + 1..];
      assert s == front + [n] + back;
      CountOnce(front, n, back);
    }
  }

  lemma CountOnce(front: seq<GlobalNodeEntry>, n: GlobalNodeEntry, back: seq<GlobalNodeEntry>)
    requires n !in front && n !in back
    ensures multiset(front + [n] + back)[n] == 1
  {}

  lemma SameListing(m: Nodes, s: seq<GlobalNodeEntry>, t: seq<GlobalNodeEntry>)
    requires Lists(m, s) && Lists(m, t)
    ensures multiset(s) == multiset(t)
  {
    forall n
      ensures multiset(s)[n] == multiset(t)[n]
    {
      OnceEach(m, s, n);
      OnceEach(m, t, n);
      assert n in s <==> n in t;
    }
  }

  class MultiNodeManager {
    const nodeIds: seq<NodeId>

    constructor (nodeIds: seq<NodeId>)
      ensures this.nodeIds == nodeIds
    {
      this.nodeIds := nodeIds;
    }

    /** The virtual node nearest to the target; the source indexes the first one unconditionally. */
    method SelectClosestNode(target: NodeId) returns (best: NodeId)
      requires nodeIds != []
      ensures best in nodeIds && forall id :: id in nodeIds ==> Distance(best, target) <= Distance(id, target)
      ensures forall id :: id in nodeIds && id != best ==> Distance(best, target) < Distance(id, target)
    {
      best := nodeIds[0];
      var bestDist := XorDistance(best, target);
      for i := 1 to |nodeIds|
        invariant best in nodeIds[..i] && bestDist == Xor(best, target)
        invariant forall id :: id in nodeIds[..i] ==> Distance(best, target) <= Distance(id, target)
      {
        var id := nodeIds[i];
        assert nodeIds[..i + 1] == nodeIds[..i] + [id];
        var dist := XorDistance(id, target);
        var less := DistanceLess(dist, bestDist);
        if less {
          best := id;
          bestDist := dist;
        }
      }
      assert nodeIds[..|nodeIds|] == nodeIds;
      forall id | id in nodeIds && id != best
        ensures Distance(best, target) < Distance(id, target)
      {
        OnlyOneNearest(best, id, target);
      }
    }
  }

  /** Equal distance means equal id. */
  lemma OnlyOneNearest(a: NodeId, b: NodeId, target: NodeId)
    requires a != b
    ensures Distance(a, target) != Distance(b, target)
  {
    if Distance(a, target) == Distance(b, target) {
      DistanceDeterminesId(a, b, target);
    }
  }
}
