/** Compact peer and node info: the fixed-width records inside KRPC, PEX and tracker messages. */
module CompactInfo {
  import opened Bytes
  import opened Addresses
  import opened XorMetric

  datatype DhtNode = DhtNode(id: NodeId, addr: SocketAddr)

  // ---- fixed-width rows ----

  function Join(rows: seq<seq<Byte>>): seq<Byte> {
    if rows == [] then [] else rows[0] + Join(rows[1..])
  }

  ghost predicate Uniform(w: nat, rows: seq<seq<Byte>>) {
    forall i :: 0 <= i < |rows| ==> |rows[i]| == w
  }

  /** The complete w-byte rows at the front of the data (`as_chunks`); the tail is ignored. */
  function Chunks(w: nat, data: seq<Byte>): (rows: seq<seq<Byte>>)
    requires w > 0
    ensures Uniform(w, rows)
  {
    if |data| < w then [] else [data[..w]] + Chunks(w, data[w..])
  }

  lemma ChunksCons(w: nat, row: seq<Byte>, rest: seq<Byte>)
    requires w > 0 && |row| == w
    ensures Chunks(w, row + rest) == [row] + Chunks(w, rest)
  {}

  /** Cutting into rows undoes joining rows. */
  lemma {:induction false} ChunksOfJoin(w: nat, rows: seq<seq<Byte>>)
    requires w > 0 && Uniform(w, rows)
    ensures Chunks(w, Join(rows)) == rows
  {
    if rows == [] {
    } else {
      ChunksOfJoin(w, rows[1..]);
      ChunksCons(w, rows[0], Join(rows[1..]));
      assert rows == [rows[0]] + rows[1..];
    }
  }

  /** What does not fill a row at the end is ignored. */
  lemma {:induction false} TailIsIgnored(w: nat, rows: seq<seq<Byte>>, tail: seq<Byte>)
    requires w > 0 && Uniform(w, rows) && |tail| < w
    ensures Chunks(w, Join(rows) + tail) == rows
  {
    if rows == [] {
      assert Join(rows) + tail == tail;
    } else {
      TailIsIgnored(w, rows[1..], tail);
      ChunksCons(w, rows[0], Join(rows[1..]) + tail);
      assert Join(rows) + tail == rows[0] + (Join(rows[1..]) + tail);
      assert rows == [rows[0]] + rows[1..];
    }
  }

  lemma {:induction false} JoinConcat(rows: seq<seq<Byte>>, more: seq<seq<Byte>>)
    ensures Join(rows + more) == Join(rows) + Join(more)
  {
    if rows == [] {
      assert rows + more == more;
    } else {
      assert (rows + more)[1..] == rows[1..] + more;
      JoinConcat(rows[1..], more);
    }
  }

  lemma JoinAppend(rows: seq<seq<Byte>>, row: seq<Byte>)
    ensures Join(rows + [row]) == Join(rows) + row
  {
    JoinConcat(rows, [row]);
    assert Join([row]) == row + Join([row][1..]) && [row][1..] == [];
  }

  // ---- records ----

  predicate IsV4(a: SocketAddr) {
    a.ip.IpV4?
  }

  /** 4 bytes of address, 2 of port. */
  function PackV4(a: SocketAddr): (r: seq<Byte>)
    requires IsV4(a)
    ensures |r| == 6
  {
    a.ip.octets + PortBytes(a.port)
  }

  function PackV6(a: SocketAddr): (r: seq<Byte>)
    requires !IsV4(a)
    ensures |r| == 18
  {
    a.ip.octets6 + PortBytes(a.port)
  }

  function UnpackV4(r: seq<Byte>): (a: SocketAddr)
    requires |r| == 6
    ensures IsV4(a)
  {
    SocketAddr(IpV4(r[..4]), PortOf(r[4], r[5]))
  }

  function UnpackV6(r: seq<Byte>): (a: SocketAddr)
    requires |r| == 18
    ensures !IsV4(a)
  {
    SocketAddr(IpV6(r[..16]), PortOf(r[16], r[17]))
  }

  /** On the wire the port comes after the address, high byte first: 10.0.0.1:6881 is 0a000001 1ae1. */
  lemma PortOnTheWire(a: SocketAddr)
    requires a == SocketAddr(IpV4([10, 0, 0, 1]), 6881)
    ensures PackV4(a) == [10, 0, 0, 1, 26, 225] && FromSocket(a) == V4([10, 0, 0, 1, 26, 225])
    ensures UnpackV4([10, 0, 0, 1, 26, 225]) == a
  {}

  lemma UnpackPackV4(a: SocketAddr)
    requires IsV4(a)
    ensures UnpackV4(PackV4(a)) == a
  {}

  // ---- peers ----

  /** One row for each IPv4 peer; others are skipped. */
  function PeerRows(ps: seq<SocketAddr>): (rows: seq<seq<Byte>>)
    ensures Uniform(6, rows)
  {
    if ps == [] then []
    else (if IsV4(ps[0]) then [PackV4(ps[0])] else []) + PeerRows(ps[1..])
  }

  function PackPeers(ps: seq<SocketAddr>): seq<Byte> {
    Join(PeerRows(ps))
  }

  /** A row with port 0 is dropped. */
  function PeersOfRows(rows: seq<seq<Byte>>): (r: seq<SocketAddr>)
    requires Uniform(6, rows)
    ensures forall p :: p in r ==> IsV4(p) && p.port != 0
  {
    if rows == [] then []
    else PeerOfRow(rows[0]) + PeersOfRows(rows[1..])
  }

  function PeerOfRow(row: seq<Byte>): seq<SocketAddr>
    requires |row| == 6
  {
    if UnpackV4(row).port != 0 then [UnpackV4(row)] else []
  }

  function UnpackPeers(data: seq<Byte>): seq<SocketAddr> {
    PeersOfRows(Chunks(6, data))
  }

  /** What survives the compact form. */
  function Reachable(ps: seq<SocketAddr>): (r: seq<SocketAddr>)
    ensures forall p :: p in r <==> p in ps && IsV4(p) && p.port != 0
  {
    if ps == [] then []
    else (if IsV4(ps[0]) && ps[0].port != 0 then [ps[0]] else []) + Reachable(ps[1..])
  }

  lemma PeersOfCons(row: seq<Byte>, rows: seq<seq<Byte>>)
    requires |row| == 6 && Uniform(6, rows)
    ensures Uniform(6, [row] + rows)
    ensures PeersOfRows([row] + rows) == PeerOfRow(row) + PeersOfRows(rows)
  {}

  lemma {:induction false} RowsToPeers(ps: seq<SocketAddr>)
    ensures PeersOfRows(PeerRows(ps)) == Reachable(ps)
  {
    if ps == [] {
    } else {
      RowsToPeers(ps[1..]);
      if IsV4(ps[0]) {
        UnpackPackV4(ps[0]);
        PeersOfCons(PackV4(ps[0]), PeerRows(ps[1..]));
      } else {
        assert PeerRows(ps) == PeerRows(ps[1..]);
      }
    }
  }

  /** Reading back packed peers gives the IPv4 peers with a nonzero port, in order. */
  lemma PeersRoundTrip(ps: seq<SocketAddr>)
    ensures UnpackPeers(PackPeers(ps)) == Reachable(ps)
  {
    ChunksOfJoin(6, PeerRows(ps));
    RowsToPeers(ps);
  }

  /** An incomplete record at the end costs nothing but itself. */
  lemma PeersBeforeTail(ps: seq<SocketAddr>, tail: seq<Byte>)
    requires |tail| < 6
    ensures UnpackPeers(PackPeers(ps) + tail) == Reachable(ps)
  {
    TailIsIgnored(6, PeerRows(ps), tail);
    RowsToPeers(ps);
  }

  /** Nothing is lost exactly when every peer is IPv4 with a nonzero port. */
  lemma {:induction false} ReachableIsAll(ps: seq<SocketAddr>)
    ensures Reachable(ps) == ps <==> forall p :: p in ps ==> IsV4(p) && p.port != 0
  {
    if forall p :: p in ps ==> IsV4(p) && p.port != 0 {
      if ps != [] {
        ReachableIsAll(ps[1..]);
        assert ps == [ps[0]] + ps[1..];
      }
    } else {
      var p :| p in ps && !(IsV4(p) && p.port != 0);
      assert p !in Reachable(ps);
    }
  }

  lemma {:induction false} PeerRowsAppend(ps: seq<SocketAddr>, p: SocketAddr)
    ensures PeerRows(ps + [p]) == PeerRows(ps) + (if IsV4(p) then [PackV4(p)] else [])
  {
    if ps == [] {
      assert [p][1..] == [] && ps + [p] == [p];
    } else {
      assert (ps + [p])[1..] == ps[1..] + [p];
      PeerRowsAppend(ps[1..], p);
    }
  }

  lemma PackPeersStep(ps: seq<SocketAddr>, i: nat)
    requires i < |ps|
    ensures PackPeers(ps[..i + 1]) == PackPeers(ps[..i]) + (if IsV4(ps[i]) then PackV4(ps[i]) else [])
  {
    assert ps[..i + 1] == ps[..i] + [ps[i]];
    PeerRowsAppend(ps[..i], ps[i]);
    if IsV4(ps[i]) {
      JoinAppend(PeerRows(ps[..i]), PackV4(ps[i]));
    } else {
      assert PeerRows(ps[..i]) + [] == PeerRows(ps[..i]);
    }
  }

  method EncodeCompactPeers(ps: seq<SocketAddr>) returns (buf: seq<Byte>)
    ensures buf == PackPeers(ps)
  {
    buf := [];
    for i := 0 to |ps|
      invariant buf == PackPeers(ps[..i])
    {
      PackPeersStep(ps, i);
      if ps[i].ip.IpV4? {
        ghost var was := buf;
        buf := buf + ps[i].ip.octets;
        buf := buf + PortBytes(ps[i].port);
        assert buf == was + PackV4(ps[i]);
      }
    }
    assert ps[..|ps|] == ps;
  }

  lemma {:induction false} PeersOfRowsAppend(rows: seq<seq<Byte>>, row: seq<Byte>)
    requires Uniform(6, rows) && |row| == 6
    ensures PeersOfRows(rows + [row]) == PeersOfRows(rows) + PeerOfRow(row)
  {
    if rows == [] {
      assert [row][1..] == [] && rows + [row] == [row];
    } else {
      assert (rows + [row])[1..] == rows[1..] + [row];
      PeersOfRowsAppend(rows[1..], row);
    }
  }

  method ParseCompactPeers(data: seq<Byte>) returns (peers: seq<SocketAddr>)
    ensures peers == UnpackPeers(data)
  {
    peers := [];
    var chunks := Chunks(6, data);
    for i := 0 to |chunks|
      invariant peers == PeersOfRows(chunks[..i])
    {
      var chunk := chunks[i];
      PeersOfRowsAppend(chunks[..i], chunk);
      assert chunks[..i + 1] == chunks[..i] + [chunk];
      var port := PortOf(chunk[4], chunk[5]);
      if port != 0 {
        peers := peers + [SocketAddr(IpV4(chunk[..4]), port)];
      }
    }
    assert chunks[..|chunks|] == chunks;
  }

  // ---- nodes ----

  function NodeRows(ns: seq<DhtNode>): (rows: seq<seq<Byte>>)
    ensures Uniform(26, rows)
  {
    if ns == [] then []
    else (if IsV4(ns[0].addr) then [ns[0].id + PackV4(ns[0].addr)] else []) + NodeRows(ns[1..])
  }

  function NodeRows6(ns: seq<DhtNode>): (rows: seq<seq<Byte>>)
    ensures Uniform(38, rows)
  {
    if ns == [] then []
    else (if IsV4(ns[0].addr) then [] else [ns[0].id + PackV6(ns[0].addr)]) + NodeRows6(ns[1..])
  }

  function PackNodes(ns: seq<DhtNode>): seq<Byte> {
    Join(NodeRows(ns))
  }

  function PackNodes6(ns: seq<DhtNode>): seq<Byte> {
    Join(NodeRows6(ns))
  }

  /** The packing inside `get_peers` replies: the id always, the address only for IPv4. */
  function LooseRow(n: DhtNode): seq<Byte> {
    n.id + (if IsV4(n.addr) then PackV4(n.addr) else [])
  }

  function PackNodesLoosely(ns: seq<DhtNode>): seq<Byte> {
    if ns == [] then [] else LooseRow(ns[0]) + PackNodesLoosely(ns[1..])
  }

  function NodesOfRows(rows: seq<seq<Byte>>): (r: seq<DhtNode>)
    requires Uniform(26, rows)
    ensures forall n :: n in r ==> IsV4(n.addr)
  {
    if rows == [] then []
    else [DhtNode(rows[0][..20], UnpackV4(rows[0][20..]))] + NodesOfRows(rows[1..])
  }

  function NodesOfRows6(rows: seq<seq<Byte>>): (r: seq<DhtNode>)
    requires Uniform(38, rows)
    ensures forall n :: n in r ==> !IsV4(n.addr)
  {
    if rows == [] then []
    else [DhtNode(rows[0][..20], UnpackV6(rows[0][20..]))] + NodesOfRows6(rows[1..])
  }

  function UnpackNodes(data: seq<Byte>): seq<DhtNode> {
    NodesOfRows(Chunks(26, data))
  }

  function UnpackNodes6(data: seq<Byte>): seq<DhtNode> {
    NodesOfRows6(Chunks(38, data))
  }

  function OfFamily(v4: bool, ns: seq<DhtNode>): (r: seq<DhtNode>)
    ensures forall n :: n in r <==> n in ns && IsV4(n.addr) == v4
  {
    if ns == [] then []
    else (if IsV4(ns[0].addr) == v4 then [ns[0]] else []) + OfFamily(v4, ns[1..])
  }

  lemma NodesOfCons(n: DhtNode, rows: seq<seq<Byte>>)
    requires IsV4(n.addr) && Uniform(26, rows)
    ensures Uniform(26, [n.id + PackV4(n.addr)] + rows)
    ensures NodesOfRows([n.id + PackV4(n.addr)] + rows) == [n] + NodesOfRows(rows)
  {}

  lemma NodesOfCons6(n: DhtNode, rows: seq<seq<Byte>>)
    requires !IsV4(n.addr) && Uniform(38, rows)
    ensures Uniform(38, [n.id + PackV6(n.addr)] + rows)
    ensures NodesOfRows6([n.id + PackV6(n.addr)] + rows) == [n] + NodesOfRows6(rows)
  {}

  lemma {:induction false} RowsToNodes(ns: seq<DhtNode>)
    ensures NodesOfRows(NodeRows(ns)) == OfFamily(true, ns)
  {
    if ns == [] {
    } else {
      RowsToNodes(ns[1..]);
      if IsV4(ns[0].addr) {
        NodesOfCons(ns[0], NodeRows(ns[1..]));
      } else {
        assert NodeRows(ns) == NodeRows(ns[1..]);
      }
    }
  }

  lemma {:induction false} RowsToNodes6(ns: seq<DhtNode>)
    ensures NodesOfRows6(NodeRows6(ns)) == OfFamily(false, ns)
  {
    if ns == [] {
    } else {
      RowsToNodes6(ns[1..]);
      if IsV4(ns[0].addr) {
        assert NodeRows6(ns) == NodeRows6(ns[1..]);
      } else {
        NodesOfCons6(ns[0], NodeRows6(ns[1..]));
      }
    }
  }

  lemma NodesRoundTrip(ns: seq<DhtNode>)
    ensures UnpackNodes(PackNodes(ns)) == OfFamily(true, ns)
    ensures UnpackNodes6(PackNodes6(ns)) == OfFamily(false, ns)
  {
    ChunksOfJoin(26, NodeRows(ns));
    RowsToNodes(ns);
    ChunksOfJoin(38, NodeRows6(ns));
    RowsToNodes6(ns);
  }

  /** The loose packing can be read back exactly when every node is IPv4. */
  lemma {:induction false} LooseNodesRoundTrip(ns: seq<DhtNode>)
    ensures UnpackNodes(PackNodesLoosely(ns)) == ns <==> forall n :: n in ns ==> IsV4(n.addr)
  {
    if forall n :: n in ns ==> IsV4(n.addr) {
      LooseIsPacked(ns);
      NodesRoundTrip(ns);
      AllOfFamily(ns);
    } else {
      var n :| n in ns && !IsV4(n.addr);
      assert n !in NodesOfRows(Chunks(26, PackNodesLoosely(ns)));
    }
  }

  lemma {:induction false} LooseIsPacked(ns: seq<DhtNode>)
    requires forall n :: n in ns ==> IsV4(n.addr)
    ensures PackNodesLoosely(ns) == PackNodes(ns)
  {
    if ns == [] {
    } else {
      LooseIsPacked(ns[1..]);
      assert NodeRows(ns)[0] == LooseRow(ns[0]) && NodeRows(ns)[1..] == NodeRows(ns[1..]);
    }
  }

  lemma {:induction false} AllOfFamily(ns: seq<DhtNode>)
    requires forall n :: n in ns ==> IsV4(n.addr)
    ensures OfFamily(true, ns) == ns
  {
    if ns == [] {
    } else {
      AllOfFamily(ns[1..]);
      assert ns == [ns[0]] + ns[1..];
    }
  }

  lemma {:induction false} NodeRowsAppend(ns: seq<DhtNode>, n: DhtNode)
    ensures NodeRows(ns + [n]) == NodeRows(ns) + (if IsV4(n.addr) then [n.id + PackV4(n.addr)] else [])
    ensures NodeRows6(ns + [n]) == NodeRows6(ns) + (if IsV4(n.addr) then [] else [n.id + PackV6(n.addr)])
    ensures PackNodesLoosely(ns + [n]) == PackNodesLoosely(ns) + LooseRow(n)
  {
    hide PackV4, PackV6, IsV4;
    if ns == [] {
      assert [n][1..] == [] && ns + [n] == [n];
    } else {
      var all := ns + [n];
      assert all[1..] == ns[1..] + [n] && all[0] == ns[0];
      NodeRowsAppend(ns[1..], n);
      RegroupBytes(LooseRow(ns[0]), PackNodesLoosely(ns[1..]), LooseRow(n));
    }
  }

  lemma RegroupBytes(a: seq<Byte>, b: seq<Byte>, c: seq<Byte>)
    ensures a + (b + c) == (a + b) + c
  {}

  lemma PackNodesStep(ns: seq<DhtNode>, i: nat)
    requires i < |ns|
    ensures var n := ns[i];
      PackNodes(ns[..i + 1]) == PackNodes(ns[..i]) + (if IsV4(n.addr) then n.id + PackV4(n.addr) else []) &&
      PackNodes6(ns[..i + 1]) == PackNodes6(ns[..i]) + (if IsV4(n.addr) then [] else n.id + PackV6(n.addr)) &&
      PackNodesLoosely(ns[..i + 1]) == PackNodesLoosely(ns[..i]) + LooseRow(n)
  {
    assert ns[..i + 1] == ns[..i] + [ns[i]];
    NodeRowsAppend(ns[..i], ns[i]);
    assert NodeRows(ns[..i]) + [] == NodeRows(ns[..i]) && NodeRows6(ns[..i]) + [] == NodeRows6(ns[..i]);
    if IsV4(ns[i].addr) {
      JoinAppend(NodeRows(ns[..i]), ns[i].id + PackV4(ns[i].addr));
    } else {
      JoinAppend(NodeRows6(ns[..i]), ns[i].id + PackV6(ns[i].addr));
    }
  }

  /** The loop that separates IPv4 and IPv6 nodes. */
  method EncodeCompactNodes(ns: seq<DhtNode>) returns (compactV4: seq<Byte>, compactV6: seq<Byte>)
    ensures compactV4 == PackNodes(ns) && compactV6 == PackNodes6(ns)
  {
    compactV4, compactV6 := [], [];
    for i := 0 to |ns|
      invariant compactV4 == PackNodes(ns[..i]) && compactV6 == PackNodes6(ns[..i])
    {
      var n := ns[i];
      PackNodesStep(ns, i);
      match n.addr.ip {
        case IpV4(octets) =>
          compactV4 := compactV4 + (n.id + (octets + PortBytes(n.addr.port)));
        case IpV6(octets6) =>
          compactV6 := compactV6 + (n.id + (octets6 + PortBytes(n.addr.port)));
      }
    }
    assert ns[..|ns|] == ns;
  }

  /** The node loop of `get_peers` replies. */
  method EncodeNodesLoosely(ns: seq<DhtNode>) returns (compact: seq<Byte>)
    ensures compact == PackNodesLoosely(ns)
  {
    compact := [];
    for i := 0 to |ns|
      invariant compact == PackNodesLoosely(ns[..i])
    {
      hide PackNodesLoosely, PackNodes, PackNodes6;
      var n := ns[i];
      PackNodesStep(ns, i);
      ghost var was := compact;
      LooseParts(was, n);
      compact := compact + n.id;
      if n.addr.ip.IpV4? {
        compact := compact + n.addr.ip.octets;
        compact := compact + PortBytes(n.addr.port);
      }
    }
    assert ns[..|ns|] == ns;
  }

  lemma LooseParts(was: seq<Byte>, n: DhtNode)
    ensures was + LooseRow(n) == if IsV4(n.addr) then was + n.id + n.addr.ip.octets + PortBytes(n.addr.port)
      else was + n.id
  {}
}
