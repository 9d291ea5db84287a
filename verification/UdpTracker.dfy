/** The UDP tracker protocol (BEP 15), client and server. */
module UdpTracker {
  import opened Bytes
  import opened Addresses
  import opened XorMetric
  import opened Sorting
  import opened CompactInfo
  import opened Bencode
  import opened TrackerState
  import C = PeerCache
  import P = Peers
  import T = TopK

  const PROTOCOL_ID: nat := 0x41727101980
  const ACTION_CONNECT: nat := 0
  const ACTION_ANNOUNCE: nat := 1
  const ACTION_SCRAPE: nat := 2
  const ACTION_ERROR: nat := 3
  const CONNECTION_LIFETIME: nat := 120 * P.SECOND
  const BUFFER: nat := 2048

  // ---- fixed-width fields ----

  lemma FourBytes()
    ensures Pow2(32) == 0x1_0000_0000 && Pow2(64) == 0x1_0000_0000_0000_0000
  {
    hide Pow2;
    assert Pow2(8) == 256 by {
      OneByte();
    }
    Pow2OfByte(1);
    Pow2OfByte(2);
    Pow2OfByte(3);
    Pow2OfByte(4);
    Pow2OfByte(5);
    Pow2OfByte(6);
    Pow2OfByte(7);
  }

  lemma OneByte()
    ensures Pow2(8) == 256
  {}

  function U32Bytes(n: U32): (s: seq<Byte>)
    ensures |s| == 4 && Value(s) == n
  {
    FourBytes();
    BigEndianRoundTrip(4, n);
    BigEndian(4, n)
  }

  function U64Bytes(n: U64): (s: seq<Byte>)
    ensures |s| == 8 && Value(s) == n
  {
    FourBytes();
    BigEndianRoundTrip(8, n);
    BigEndian(8, n)
  }

  function Field(data: seq<Byte>, at: nat, n: nat): seq<Byte>
    requires at + n <= |data|
  {
    data[at..at + n]
  }

  function ReadU32(data: seq<Byte>, at: nat): (r: U32)
    requires at + 4 <= |data|
  {
    FourBytes();
    ValueBounded(Field(data, at, 4));
    Value(Field(data, at, 4))
  }

  function ReadU64(data: seq<Byte>, at: nat): (r: U64)
    requires at + 8 <= |data|
  {
    FourBytes();
    ValueBounded(Field(data, at, 8));
    Value(Field(data, at, 8))
  }

  /** A 32-bit word as a signed number. */
  function Signed(n: U32): int {
    if n < 0x8000_0000 then n else n - 0x1_0000_0000
  }

  /** The 32-bit word of a signed number. */
  function Unsigned(n: int): U32
    requires -0x8000_0000 <= n < 0x8000_0000
  {
    if n < 0 then n + 0x1_0000_0000 else n
  }

  lemma Peel(data: seq<Byte>, at: nat, f: seq<Byte>, rest: seq<Byte>)
    requires at <= |data| && data[at..] == f + rest
    ensures at + |f| <= |data| && Field(data, at, |f|) == f && data[at + |f|..] == rest
  {}

  // ---- layouts ----

  function ConnectRequest(tid: U32): seq<Byte> {
    U64Bytes(PROTOCOL_ID) + (U32Bytes(ACTION_CONNECT) + U32Bytes(tid))
  }

  function ConnectReply(tid: U32, id: U64): seq<Byte> {
    U32Bytes(ACTION_CONNECT) + (U32Bytes(tid) + U64Bytes(id))
  }

  /** The announce packet of the standard. */
  function AnnouncePacket(connection: U64, tid: U32, f: AnnounceFields, ip: U32, key: U32): seq<Byte>
    requires -0x8000_0000 <= f.numWant < 0x8000_0000
  {
    U64Bytes(connection) + (U32Bytes(ACTION_ANNOUNCE) +
      (U32Bytes(tid) + (f.infohash + (f.peerId + AnnounceTail(f, ip, key)))))
  }

  function AnnounceTail(f: AnnounceFields, ip: U32, key: U32): seq<Byte>
    requires -0x8000_0000 <= f.numWant < 0x8000_0000
  {
    U64Bytes(f.downloaded) + (U64Bytes(f.left) + (U64Bytes(f.uploaded) + (U32Bytes(EventCode(f.event)) + (U32Bytes(ip) +
    (U32Bytes(key) + (U32Bytes(Unsigned(f.numWant)) + PortBytes(f.port)))))))
  }

  /** What this client announces: nothing downloaded, left or uploaded, no event, default address, and
      as many peers as there are. */
  function ClientFields(ih: NodeId, peerId: NodeId, port: Port): AnnounceFields {
    AnnounceFields(ih, peerId, 0, 0, 0, Periodic, -1, port)
  }

  function AnnounceRequest(connection: U64, tid: U32, ih: NodeId, peerId: NodeId, port: Port, key: U32): seq<Byte> {
    AnnouncePacket(connection, tid, ClientFields(ih, peerId, port), 0, key)
  }

  function AnnounceReply(tid: U32, interval: U32, leechers: nat, seeders: nat, peers: seq<SocketAddr>): seq<Byte> {
    U32Bytes(ACTION_ANNOUNCE) + (U32Bytes(tid) + (U32Bytes(interval) +
    (U32Bytes(leechers % 0x1_0000_0000) + (U32Bytes(seeders % 0x1_0000_0000) + PackPeers(peers)))))
  }

  function ErrorReply(tid: U32, message: string): seq<Byte> {
    U32Bytes(ACTION_ERROR) + (U32Bytes(tid) + Text(message))
  }

  // ---- the server's reading of a packet ----

  datatype AnnounceFields = AnnounceFields(infohash: NodeId, peerId: NodeId, downloaded: U64, left: U64, uploaded: U64,
                                           event: AnnounceEvent, numWant: int, port: Port)

  /** The event codes of the standard. */
  function EventCode(e: AnnounceEvent): U32 {
    match e
    case Periodic => 0
    case Completed => 1
    case Started => 2
    case Stopped => 3
  }

  function EventOf(n: U32): AnnounceEvent {
    if n == 1 then Completed else if n == 2 then Started else if n == 3 then Stopped else Periodic
  }

  function ReadAnnounce(data: seq<Byte>): AnnounceFields
    requires |data| >= 98
  {
    AnnounceFields(Field(data, 16, 20), Field(data, 36, 20), ReadU64(data, 56), ReadU64(data, 64), ReadU64(data, 72),
                   EventOf(ReadU32(data, 80)), Signed(ReadU32(data, 92)), PortOf(data[96], data[97]))
  }

  datatype ConnectionEntry = ConnectionEntry(remoteAddr: SocketAddr, createdAt: nat)
  type Connections = map<U64, ConnectionEntry>

  /** What a packet is: nothing to answer, an error, a connect, or an announce to carry out. */
  datatype Verdict = Ignore | Refuse(message: string) | Connect | Admit(fields: AnnounceFields)

  function Judge(data: seq<Byte>, from: SocketAddr, connections: Connections): Verdict {
    if |data| < 16 then Ignore
    else
      var connection, action := ReadU64(data, 0), ReadU32(data, 8);
      if action == ACTION_CONNECT then (if connection != PROTOCOL_ID then Refuse("invalid protocol id") else Connect)
      else if action == ACTION_ANNOUNCE then
        if |data| < 98 then Refuse("announce packet too short")
        else if connection !in connections then Ignore
        else if connections[connection].remoteAddr.ip != from.ip then Refuse("invalid connection id")
        else Admit(ReadAnnounce(data))
      else if action == ACTION_SCRAPE then Refuse("scrape not implemented")
      else Refuse("invalid action")
  }

  /** What the cleanup keeps: connections younger than 120 seconds. */
  function Pruned(connections: Connections, now: nat): Connections {
    map id | id in connections && now < connections[id].createdAt + CONNECTION_LIFETIME :: connections[id]
  }

  /** The state of the tracker's UDP end, and what can happen to it: a packet, a cleanup of connections, a
      record stored by the HTTP end, or a cleanup of records. */
  datatype Server = Server(connections: Connections, peers: Groups)

  datatype Event =
    | Packet(data: seq<Byte>, from: SocketAddr, now: nat, random: U64)
    | Prune(now: nat)
    | Store(ih: NodeId, peer: AnnouncedPeer)
    | Cleanup(now: nat, ttl: nat)

  function Step(s: Server, ev: Event): Server {
    match ev
    case Packet(data, from, now, random) =>
      (match Judge(data, from, s.connections)
       case Connect => s.(connections := s.connections[random := ConnectionEntry(from, now)])
       case Admit(f) => s.(peers := Announce(s.peers, f.infohash, Announced(f, from, now)))
       case Ignore => s
       case Refuse(_) => s)
    case Prune(now) => s.(connections := Pruned(s.connections, now))
    case Store(ih, peer) => s.(peers := Announce(s.peers, ih, peer))
    case Cleanup(now, ttl) => s.(peers := Cleaned(s.peers, now, ttl))
  }

  /** The number of peers asked for, when it lies between 0 and 100; else all. */
  function Wanted(numWant: int, available: nat): nat {
    if 0 <= numWant <= 100 then numWant else available
  }

  /** What answers an admitted announce: the peers offered over the group after it, cut to the number
      wanted, with the group's counts, which sum to its size. */
  ghost predicate Answers(f: AnnounceFields, tid: U32, from: SocketAddr, now: nat, m: Groups, cache: C.Cache, max: nat,
                          interval: U32, resp: seq<Byte>) {
    var group := GroupOf(m, f.infohash);
    |Seeders(group)| + |Leechers(group)| == |group| &&
    exists peers :: Offered(group, cache, f.infohash, SocketAddr(from.ip, f.port), max, now, peers) &&
      resp == AnnounceReply(tid, interval, |Leechers(group)|, |Seeders(group)|, Take(Wanted(f.numWant, |peers|), peers))
  }

  class UdpTrackerServer {
    const superTracker: SuperTrackerState
    const cache: C.PeerCache
    const interval: U32
    var connections: Connections

    ghost predicate Valid()
      reads superTracker, cache
    {
      superTracker.Valid() && cache.Valid()
    }

    function State(): Server
      reads this`connections, superTracker`peers
    {
      Server(connections, superTracker.peers)
    }

    constructor (superTracker: SuperTrackerState, cache: C.PeerCache, interval: U32)
      requires superTracker.Valid() && cache.Valid()
      ensures Valid() && connections == map[]
      ensures this.superTracker == superTracker && this.cache == cache && this.interval == interval
    {
      this.superTracker := superTracker;
      this.cache := cache;
      this.interval := interval;
      connections := map[];
    }

    method HandleConnect(tid: U32, from: SocketAddr, now: nat, random: U64) returns (resp: seq<Byte>)
      requires Valid()
      modifies this
      ensures Valid()
      ensures connections == old(connections)[random := ConnectionEntry(from, now)]
      ensures resp == ConnectReply(tid, random)
    {
      connections := connections[random := ConnectionEntry(from, now)];
      resp := U32Bytes(ACTION_CONNECT);
      resp := resp + U32Bytes(tid);
      resp := resp + U64Bytes(random);
      Regroup3(U32Bytes(ACTION_CONNECT), U32Bytes(tid), U64Bytes(random));
    }

    method BuildError(tid: U32, message: string) returns (resp: seq<Byte>)
      ensures resp == ErrorReply(tid, message)
    {
      resp := U32Bytes(ACTION_ERROR);
      resp := resp + U32Bytes(tid);
      resp := resp + Text(message);
      Regroup3(U32Bytes(ACTION_ERROR), U32Bytes(tid), Text(message));
    }

    /** Carry out an admitted announce: the peer list, cut to the number wanted, and the counts after it. */
    method HandleAnnounce(fields: AnnounceFields, tid: U32, from: SocketAddr, now: nat) returns (resp: seq<Byte>)
      requires Valid()
      modifies superTracker
      ensures Valid()
      ensures superTracker.peers == Announce(old(superTracker.peers), fields.infohash, Announced(fields, from, now))
      ensures Answers(fields, tid, from, now, superTracker.peers, cache.peers, superTracker.maxNumwant, interval, resp)
    {
      hide Offered;
      var list, seeders, leechers := superTracker.HandleUdpAnnounce(
        fields.infohash, fields.peerId, fields.port, from, fields.uploaded, fields.downloaded, fields.left,
          fields.event, cache, now);
      resp := Reply(tid, leechers, seeders, Take(Wanted(fields.numWant, |list|), list));
    }

    method Reply(tid: U32, leechers: nat, seeders: nat, peers: seq<SocketAddr>) returns (resp: seq<Byte>)
      ensures resp == AnnounceReply(tid, interval, leechers, seeders, peers)
    {
      var l, s := U32Bytes(leechers % 0x1_0000_0000), U32Bytes(seeders % 0x1_0000_0000);
      resp := U32Bytes(ACTION_ANNOUNCE);
      resp := resp + U32Bytes(tid);
      resp := resp + U32Bytes(interval);
      resp := resp + l;
      resp := resp + s;
      var compact := EncodeCompactPeers(peers);
      resp := resp + compact;
      Regroup6(U32Bytes(ACTION_ANNOUNCE), U32Bytes(tid), U32Bytes(interval), l, s, compact);
    }

    /** One packet. The table of connections grows exactly by a connect; the announced peers change
        exactly by an admitted announce; every other packet gets the error it deserves, or no answer. */
    method HandlePacket(data: seq<Byte>, from: SocketAddr, now: nat, random: U64)
      returns (resp: Option<seq<Byte>>)
      requires Valid()
      modifies this, superTracker
      ensures Valid()
      ensures State() == Step(old(State()), Packet(data, from, now, random))
      ensures var v := Judge(data, from, old(connections));
        match v {
          case Ignore => resp == None
          case Refuse(message) => resp == Some(ErrorReply(ReadU32(data, 12), message))
          case Connect => resp == Some(ConnectReply(ReadU32(data, 12), random))
          case Admit(f) =>
            resp.Some? && Answers(f, ReadU32(data, 12), from, now, superTracker.peers, cache.peers,
              superTracker.maxNumwant, interval, resp.value)
        }
    {
      hide Answers, ReadAnnounce, ErrorReply, ConnectReply;
      if |data| < 16 {
        return None;
      }
      var connectionId := ReadU64(data, 0);
      var action := ReadU32(data, 8);
      var tid := ReadU32(data, 12);
      var message;
      if action == ACTION_CONNECT {
        if connectionId == PROTOCOL_ID {
          var r := HandleConnect(tid, from, now, random);
          return Some(r);
        }
        message := "invalid protocol id";
      } else if action == ACTION_ANNOUNCE {
        if |data| < 98 {
          message := "announce packet too short";
        } else if connectionId !in connections {
          return None;
        } else if connections[connectionId].remoteAddr.ip != from.ip {
          message := "invalid connection id";
        } else {
          var r := HandleAnnounce(ReadAnnounce(data), tid, from, now);
          return Some(r);
        }
      } else if action == ACTION_SCRAPE {
        message := "scrape not implemented";
      } else {
        message := "invalid action";
      }
      var r := BuildError(tid, message);
      return Some(r);
    }

    /** The periodic cleanup keeps exactly the connections that are not yet 120 seconds old. */
    method PruneConnections(now: nat)
      requires Valid()
      modifies this`connections
      ensures Valid() && State() == Step(old(State()), Prune(now))
      ensures forall id :: id in connections <==>
        id in old(connections) && now < old(connections)[id].createdAt + CONNECTION_LIFETIME
      ensures forall id :: id in connections ==> connections[id] == old(connections)[id]
    {
      connections := map id | id in connections && now < connections[id].createdAt + CONNECTION_LIFETIME ::
        connections[id];
    }
  }

  /** The record an announce leaves: the sender's IP with the announced port. */
  function Announced(f: AnnounceFields, from: SocketAddr, now: nat): AnnouncedPeer {
    AnnouncedPeer(SocketAddr(from.ip, f.port), f.peerId, f.uploaded, f.downloaded, f.left, now, f.event)
  }

  lemma Regroup3(a: seq<Byte>, b: seq<Byte>, c: seq<Byte>)
    ensures (a + b) + c == a + (b + c)
  {}

  lemma Regroup6(a: seq<Byte>, b: seq<Byte>, c: seq<Byte>, d: seq<Byte>, e: seq<Byte>, f: seq<Byte>)
    ensures a + b + c + d + e + f == a + (b + (c + (d + (e + f))))
  {}

  // ---- the client ----

  datatype ClientError = TooShort | WrongAction | WrongTransaction | TrackerError(message: seq<Byte>)
  datatype Answer<T> = Got(value: T) | Refused(error: ClientError)

  method BuildConnectRequest(tid: U32) returns (buf: seq<Byte>)
    ensures buf == ConnectRequest(tid) && |buf| == 16
  {
    buf := U64Bytes(PROTOCOL_ID);
    buf := buf + U32Bytes(ACTION_CONNECT);
    buf := buf + U32Bytes(tid);
    Regroup3(U64Bytes(PROTOCOL_ID), U32Bytes(ACTION_CONNECT), U32Bytes(tid));
  }

  method BuildAnnounceRequest(connection: U64, tid: U32, ih: NodeId, peerId: NodeId, port: Port, key: U32)
    returns (buf: seq<Byte>)
    ensures buf == AnnounceRequest(connection, tid, ih, peerId, port, key) && |buf| == 98
  {
    buf := U64Bytes(connection);
    buf := buf + U32Bytes(ACTION_ANNOUNCE);
    buf := buf + U32Bytes(tid);
    buf := buf + ih;
    buf := buf + peerId;
    Regroup6(U64Bytes(connection), U32Bytes(ACTION_ANNOUNCE), U32Bytes(tid), ih, peerId,
             AnnounceTail(ClientFields(ih, peerId, port), 0, key));
    ghost var head := buf;
    buf := buf + U64Bytes(0);
    buf := buf + U64Bytes(0);
    buf := buf + U64Bytes(0);
    buf := buf + U32Bytes(0);
    buf := buf + U32Bytes(0);
    buf := buf + U32Bytes(key);
    buf := buf + U32Bytes(0xFFFF_FFFF);
    buf := buf + PortBytes(port);
    RegroupTail(head, U64Bytes(0), U64Bytes(0), U64Bytes(0), U32Bytes(0), U32Bytes(0), U32Bytes(key),
      U32Bytes(0xFFFF_FFFF), PortBytes(port));
  }

  lemma RegroupTail(h: seq<Byte>, a: seq<Byte>, b: seq<Byte>, c: seq<Byte>, d: seq<Byte>, e: seq<Byte>, f: seq<Byte>,
                    g: seq<Byte>, p: seq<Byte>)
    ensures h + a + b + c + d + e + f + g + p == h + (a + (b + (c + (d + (e + (f + (g + p)))))))
  {}

  /** How `connect` reads a reply. */
  function DecodeConnect(resp: seq<Byte>, tid: U32): Answer<U64> {
    if |resp| < 16 then Refused(TooShort)
    else if ReadU32(resp, 0) != ACTION_CONNECT then Refused(WrongAction)
    else if ReadU32(resp, 4) != tid then Refused(WrongTransaction)
    else Got(ReadU64(resp, 8))
  }

  /** How `do_announce` reads a reply. */
  function DecodeAnnounce(resp: seq<Byte>, tid: U32): Answer<seq<SocketAddr>> {
    if |resp| < 20 then Refused(TooShort)
    else if ReadU32(resp, 0) == ACTION_ERROR then Refused(TrackerError(resp[8..]))
    else if ReadU32(resp, 0) != ACTION_ANNOUNCE then Refused(WrongAction)
    else if ReadU32(resp, 4) != tid then Refused(WrongTransaction)
    else Got(UnpackPeers(resp[20..]))
  }

  method ReadAnnounceReply(resp: seq<Byte>, tid: U32) returns (r: Answer<seq<SocketAddr>>)
    ensures r == DecodeAnnounce(resp, tid)
  {
    if |resp| < 20 {
      return Refused(TooShort);
    }
    var action, got := ReadU32(resp, 0), ReadU32(resp, 4);
    if action == ACTION_ERROR {
      return Refused(TrackerError(resp[8..]));
    }
    if action != ACTION_ANNOUNCE {
      return Refused(WrongAction);
    }
    if got != tid {
      return Refused(WrongTransaction);
    }
    var peers := ParseCompactPeers(resp[20..]);
    return Got(peers);
  }

  // ---- both ends together ----

  /** A connect request is recognised, and its reply hands the client the very id the server stored. */
  lemma ConnectRoundTrip(tid: U32, from: SocketAddr, connections: Connections, id: U64)
    ensures Judge(ConnectRequest(tid), from, connections) == Connect
    ensures |ConnectRequest(tid)| == 16 && ReadU32(ConnectRequest(tid), 12) == tid
    ensures DecodeConnect(ConnectReply(tid, id), tid) == Got(id)
  {
    var req, rep := ConnectRequest(tid), ConnectReply(tid, id);
    hide ReadAnnounce;
    Peel(req, 0, U64Bytes(PROTOCOL_ID), U32Bytes(ACTION_CONNECT) + U32Bytes(tid));
    Peel(req, 8, U32Bytes(ACTION_CONNECT), U32Bytes(tid));
    assert U32Bytes(tid) + [] == U32Bytes(tid);
    Peel(req, 12, U32Bytes(tid), []);
    Peel(rep, 0, U32Bytes(ACTION_CONNECT), U32Bytes(tid) + U64Bytes(id));
    Peel(rep, 4, U32Bytes(tid), U64Bytes(id));
    assert U64Bytes(id) + [] == U64Bytes(id);
    Peel(rep, 8, U64Bytes(id), []);
  }

  /** The server reads every field of an announce packet as it was written, whatever the fields. */
  lemma AnnounceFieldsRoundTrip(connection: U64, tid: U32, f: AnnounceFields, ip: U32, key: U32)
    requires -0x8000_0000 <= f.numWant < 0x8000_0000
    ensures var req := AnnouncePacket(connection, tid, f, ip, key);
      |req| == 98 && ReadU64(req, 0) == connection && ReadU32(req, 8) == ACTION_ANNOUNCE && ReadU32(req, 12) == tid &&
        ReadAnnounce(req) == f
  {
    var req := AnnouncePacket(connection, tid, f, ip, key);
    HeadFields(req, connection, tid, f.infohash, f.peerId, AnnounceTail(f, ip, key));
    TailFields(req, f, ip, key);
  }

  lemma HeadFields(req: seq<Byte>, connection: U64, tid: U32, ih: NodeId, peerId: NodeId, tail: seq<Byte>)
    requires req == U64Bytes(connection) + (U32Bytes(ACTION_ANNOUNCE) + (U32Bytes(tid) + (ih + (peerId + tail))))
    ensures |req| >= 56 && ReadU64(req, 0) == connection && ReadU32(req, 8) == ACTION_ANNOUNCE &&
      ReadU32(req, 12) == tid
    ensures Field(req, 16, 20) == ih && Field(req, 36, 20) == peerId && req[56..] == tail
  {
    hide Field, U32Bytes, U64Bytes;
    Peel(req, 0, U64Bytes(connection), U32Bytes(ACTION_ANNOUNCE) + (U32Bytes(tid) + (ih + (peerId + tail))));
    Peel(req, 8, U32Bytes(ACTION_ANNOUNCE), U32Bytes(tid) + (ih + (peerId + tail)));
    Peel(req, 12, U32Bytes(tid), ih + (peerId + tail));
    Peel(req, 16, ih, peerId + tail);
    Peel(req, 36, peerId, tail);
  }

  lemma TailFields(req: seq<Byte>, f: AnnounceFields, ip: U32, key: U32)
    requires -0x8000_0000 <= f.numWant < 0x8000_0000
    requires |req| >= 56 && req[56..] == AnnounceTail(f, ip, key)
    ensures |req| == 98
    ensures ReadU64(req, 56) == f.downloaded && ReadU64(req, 64) == f.left && ReadU64(req, 72) == f.uploaded
    ensures EventOf(ReadU32(req, 80)) == f.event && Signed(ReadU32(req, 92)) == f.numWant &&
      PortOf(req[96], req[97]) == f.port
  {
    hide Field, U32Bytes, U64Bytes;
    var event, wanted := U32Bytes(EventCode(f.event)), U32Bytes(Unsigned(f.numWant));
    var t8 := PortBytes(f.port);
    var t7 := wanted + t8;
    var t6 := U32Bytes(key) + t7;
    var t5 := U32Bytes(ip) + t6;
    var t4 := event + t5;
    var t3 := U64Bytes(f.uploaded) + t4;
    var t2 := U64Bytes(f.left) + t3;
    Peel(req, 56, U64Bytes(f.downloaded), t2);
    Peel(req, 64, U64Bytes(f.left), t3);
    Peel(req, 72, U64Bytes(f.uploaded), t4);
    Peel(req, 80, event, t5);
    Peel(req, 84, U32Bytes(ip), t6);
    Peel(req, 88, U32Bytes(key), t7);
    Peel(req, 92, wanted, t8);
    assert req[96] == t8[0] && req[97] == t8[1];
  }

  /** An announce of this client is admitted exactly when its connection id is one the server holds for
      the client's IP. */
  lemma AnnounceAdmitted(connection: U64, tid: U32, ih: NodeId, peerId: NodeId, port: Port, key: U32, from: SocketAddr,
                         connections: Connections)
    ensures var req := AnnounceRequest(connection, tid, ih, peerId, port, key);
      Judge(req, from, connections) ==
        if connection !in connections then Ignore
        else if connections[connection].remoteAddr.ip != from.ip then Refuse("invalid connection id")
        else Admit(ClientFields(ih, peerId, port))
  {
    AnnounceFieldsRoundTrip(connection, tid, ClientFields(ih, peerId, port), 0, key);
    hide AnnouncePacket, ReadAnnounce, ReadU32, ReadU64;
  }

  /** A reply carries the interval and both counts at their places, and from one that fits the receive
      buffer the client reads exactly the server's IPv4 peers with a nonzero port, in order. */
  lemma ReplyRoundTrip(tid: U32, interval: U32, leechers: nat, seeders: nat, peers: seq<SocketAddr>)
    requires |AnnounceReply(tid, interval, leechers, seeders, peers)| <= BUFFER
    ensures var resp := AnnounceReply(tid, interval, leechers, seeders, peers);
      DecodeAnnounce(Take(BUFFER, resp), tid) == Got(Reachable(peers)) && |resp| >= 20 &&
        ReadU32(resp, 8) == interval &&
      ReadU32(resp, 12) == leechers % 0x1_0000_0000 && ReadU32(resp, 16) == seeders % 0x1_0000_0000
  {
    var resp := AnnounceReply(tid, interval, leechers, seeders, peers);
    var l, s := U32Bytes(leechers % 0x1_0000_0000), U32Bytes(seeders % 0x1_0000_0000);
    hide Field, U32Bytes, Reachable, PackPeers, UnpackPeers;
    Peel(resp, 0, U32Bytes(ACTION_ANNOUNCE), U32Bytes(tid) + (U32Bytes(interval) + (l + (s + PackPeers(peers)))));
    Peel(resp, 4, U32Bytes(tid), U32Bytes(interval) + (l + (s + PackPeers(peers))));
    Peel(resp, 8, U32Bytes(interval), l + (s + PackPeers(peers)));
    Peel(resp, 12, l, s + PackPeers(peers));
    Peel(resp, 16, s, PackPeers(peers));
    PeersRoundTrip(peers);
  }

  /** A refusal is never taken for a peer list, whatever its text. */
  lemma ErrorIsRefused(tid: U32, message: string)
    ensures DecodeAnnounce(ErrorReply(tid, message), tid).Refused?
    ensures |message| >= 12 ==> DecodeAnnounce(ErrorReply(tid, message), tid) == Refused(TrackerError(Text(message)))
  {
    var resp := ErrorReply(tid, message);
    hide Field, U32Bytes, Text;
    Peel(resp, 0, U32Bytes(ACTION_ERROR), U32Bytes(tid) + Text(message));
    Peel(resp, 4, U32Bytes(tid), Text(message));
  }

  // ---- retransmission ----

  const MAX_RETRIES: nat := 8
  const INITIAL_TIMEOUT: nat := 15 * P.SECOND

  /** What becomes of a send and of the wait after it. */
  datatype Wait = SendFailed | Received(data: seq<Byte>) | ReceiveFailed | TimedOut

  datatype RetryResult = Response(data: seq<Byte>) | SendError | OutOfTime | OutOfRetries

  /** The network's answer to each attempt, and the clock read twice per attempt. */
  type Network = nat -> Wait
  type Clock = (nat, nat) -> nat

  predicate Matches(data: seq<Byte>, tid: U32) {
    |data| >= 8 && ReadU32(data, 4) == tid
  }

  /** A datagram, cut to the receive buffer, that carries the transaction id. */
  predicate Carries(w: Wait, tid: U32, buf: seq<Byte>) {
    w.Received? && buf == Take(BUFFER, w.data) && Matches(buf, tid)
  }

  predicate Useless(w: Wait, tid: U32) {
    !w.SendFailed? && (w.Received? ==> !Matches(Take(BUFFER, w.data), tid))
  }

  /** 15 seconds, doubled at each retry. */
  function Backoff(attempt: nat): nat {
    if attempt == 0 then INITIAL_TIMEOUT else 2 * Backoff(attempt - 1)
  }

  lemma FirstBackoff()
    ensures Backoff(0) == INITIAL_TIMEOUT
  {}

  lemma NextBackoff(attempt: nat)
    ensures Backoff(attempt + 1) == 2 * Backoff(attempt)
  {}

  /** A whole datagram that arrives does not lengthen the next wait, whatever it carries. */
  predicate Lengthens(w: Wait) {
    w.Received? ==> |Take(BUFFER, w.data)| < 8
  }

  /** How often the wait has been doubled before attempt n. */
  function Doublings(net: Network, n: nat): (d: nat)
    ensures d <= n
    ensures (forall i :: 0 <= i < n ==> Lengthens(net(i))) ==> d == n
  {
    if n == 0 then 0 else Doublings(net, n - 1) + (if Lengthens(net(n - 1)) then 1 else 0)
  }

  lemma NextDoubling(net: Network, n: nat)
    ensures Doublings(net, n + 1) == Doublings(net, n) + (if Lengthens(net(n)) then 1 else 0)
  {}

  lemma WhenMatches(buf: seq<Byte>, tid: U32)
    requires |buf| >= 8
    ensures Matches(buf, tid) <==> ReadU32(buf, 4) == tid
  {}

  lemma NoMatch(buf: seq<Byte>, tid: U32)
    requires |buf| < 8
    ensures !Matches(buf, tid)
  {}

  /** The longest wait the backoff allows at attempt i, or what is left of the overall time if that is less. */
  function WaitAt(overall: nat, net: Network, clock: Clock, i: nat): (w: nat)
  {
    T.Min(Backoff(Doublings(net, i)), SaturatingSub(overall, clock(i, 1)))
  }

  ghost predicate Waited(waits: seq<nat>, overall: nat, net: Network, clock: Clock) {
    forall i :: 0 <= i < |waits| ==> waits[i] == WaitAt(overall, net, clock, i)
  }

  /** While nothing arrives, or nothing whole, the waits are 15 * 2^i seconds, cut to what is left of the overall time;
      they are never longer, whatever arrives. */
  lemma WaitsDouble(overall: nat, net: Network, clock: Clock, i: nat)
    ensures WaitAt(overall, net, clock, i) <= INITIAL_TIMEOUT * Pow2(i)
    ensures WaitAt(overall, net, clock, i) + clock(i, 1) <= overall || WaitAt(overall, net, clock, i) == 0
    ensures (forall j :: 0 <= j < i ==> Lengthens(net(j))) && INITIAL_TIMEOUT * Pow2(i) + clock(i, 1) <= overall ==>
      WaitAt(overall, net, clock, i) == INITIAL_TIMEOUT * Pow2(i)
  {
    BackoffIs(i);
    BackoffGrows(Doublings(net, i), i);
    hide Backoff, Pow2;
  }

  lemma {:induction false} BackoffIs(n: nat)
    ensures Backoff(n) == INITIAL_TIMEOUT * Pow2(n)
  {
    if n > 0 {
      BackoffIs(n - 1);
    }
  }

  lemma {:induction false} BackoffGrows(m: nat, n: nat)
    requires m <= n
    ensures Backoff(m) <= Backoff(n)
  {
    if m < n {
      BackoffGrows(m, n - 1);
    }
  }

  /** The first n attempts came in time, were sent, and brought nothing. */
  ghost predicate InVain(tid: U32, overall: nat, net: Network, clock: Clock, n: nat) {
    forall i :: 0 <= i < n ==> clock(i, 0) <= overall && Useless(net(i), tid)
  }

  /** How the retries end after the given number of waits: with the first matching datagram, at a send that
      fails, when the overall time is over, or after eight attempts in vain. */
  ghost predicate Ends(tid: U32, overall: nat, net: Network, clock: Clock, waited: nat, r: RetryResult) {
    waited <= MAX_RETRIES &&
    match r
    case Response(buf) => waited > 0 && InVain(tid, overall, net, clock, waited - 1) &&
      clock(waited - 1, 0) <= overall && Carries(net(waited - 1), tid, buf)
    case SendError => waited < MAX_RETRIES && InVain(tid, overall, net, clock, waited) &&
      clock(waited, 0) <= overall && net(waited).SendFailed?
    case OutOfTime => waited < MAX_RETRIES && InVain(tid, overall, net, clock, waited) && clock(waited, 0) > overall
    case OutOfRetries => waited == MAX_RETRIES && InVain(tid, overall, net, clock, waited)
  }

  lemma WaitedInVain(tid: U32, overall: nat, net: Network, clock: Clock, n: nat)
    requires InVain(tid, overall, net, clock, n) && clock(n, 0) <= overall && Useless(net(n), tid)
    ensures InVain(tid, overall, net, clock, n + 1)
  {}

  lemma OneMoreWait(waits: seq<nat>, overall: nat, net: Network, clock: Clock)
    requires Waited(waits, overall, net, clock)
    ensures Waited(waits + [WaitAt(overall, net, clock, |waits|)], overall, net, clock)
  {}

  lemma NothingYet(tid: U32, overall: nat, net: Network, clock: Clock)
    ensures Waited([], overall, net, clock) && InVain(tid, overall, net, clock, 0)
  {}

  /** `send_with_retry`: at most eight sends, each wait as long as the doublings before it and the overall limit
      allow; a failed send ends it at once, and what is returned is the first datagram that carries
      the transaction id. */
  method SendWithRetry(tid: U32, overall: nat, net: Network, clock: Clock) returns (r: RetryResult)
    ensures exists waits :: Ends(tid, overall, net, clock, |waits|, r) && Waited(waits, overall, net, clock)
  {
    hide ReadU32, Matches, Backoff, SaturatingSub, Waited, InVain, Doublings;
    FirstBackoff();
    NothingYet(tid, overall, net, clock);
    var timeout: nat := INITIAL_TIMEOUT;
    ghost var waits := [];
    for attempt := 0 to MAX_RETRIES
      invariant |waits| == attempt && timeout == Backoff(Doublings(net, attempt))
      invariant Waited(waits, overall, net, clock)
      invariant InVain(tid, overall, net, clock, attempt)
    {
      NextBackoff(Doublings(net, attempt));
      NextDoubling(net, attempt);
      if clock(attempt, 0) > overall {
        assert Ends(tid, overall, net, clock, |waits|, OutOfTime);
        return OutOfTime;
      }
      var remaining := SaturatingSub(overall, clock(attempt, 1));
      var wait: nat := if timeout <= remaining then timeout else remaining;
      if net(attempt).SendFailed? {
        assert Ends(tid, overall, net, clock, |waits|, SendError);
        return SendError;
      }
      OneMoreWait(waits, overall, net, clock);
      waits := waits + [wait];
      match net(attempt) {
        case Received(data) =>
          var buf := Take(BUFFER, data);
          if |buf| >= 8 {
            WhenMatches(buf, tid);
            if ReadU32(buf, 4) == tid {
              assert Ends(tid, overall, net, clock, |waits|, Response(buf));
              return Response(buf);
            }
          } else {
            NoMatch(buf, tid);
            timeout := timeout * 2;
          }
        case ReceiveFailed =>
          timeout := timeout * 2;
        case TimedOut =>
          timeout := timeout * 2;
      }
      WaitedInVain(tid, overall, net, clock, attempt);
    }
    assert Ends(tid, overall, net, clock, |waits|, OutOfRetries);
    return OutOfRetries;
  }
}
