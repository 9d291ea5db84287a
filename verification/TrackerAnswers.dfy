/** What the UDP tracker answers: how many peers, whom among them, and the error every other packet deserves; and which
    replies the client refuses. */
module TrackerAnswers {
  import opened Bytes
  import opened Addresses
  import opened XorMetric
  import opened Sorting
  import opened CompactInfo
  import opened TrackerState
  import opened UdpTracker
  import C = PeerCache

  // ---- announces ----

  /** The reply to an announce lists the first peers offered: as many as are wanted, if that is a number between 0 and
      100 and there are so many, else all of them; so a reply to -1 lists all, and one to 0 nobody. */
  lemma ReplyListsWanted(f: AnnounceFields, tid: U32, from: SocketAddr, now: nat, m: Groups, cache: C.Cache, max: nat,
                         interval: U32, resp: seq<Byte>)
    requires Answers(f, tid, from, now, m, cache, max, interval, resp)
    ensures exists peers :: ListsWanted(f, tid, from, now, m, cache, max, interval, resp, peers)
    ensures 0 <= f.numWant <= 100 ==> |resp| <= 20 + 6 * f.numWant
  {
    var group := GroupOf(m, f.infohash);
    var peers :| Offered(group, cache, f.infohash, SocketAddr(from.ip, f.port), max, now, peers) &&
      resp == AnnounceReply(tid, interval, |Leechers(group)|, |Seeders(group)|,
        Take(Wanted(f.numWant, |peers|), peers));
    TakeWanted(f.numWant, peers);
    var k := Number(f.numWant, |peers|);
    ReplySize(tid, interval, |Leechers(group)|, |Seeders(group)|, peers[..k]);
    hide Offered, AnnounceReply, GroupOf, Seeders, Leechers, Wanted, Take, PackPeers;
    assert ListsWanted(f, tid, from, now, m, cache, max, interval, resp, peers);
  }

  /** How many of the peers offered an announce lists. */
  function Number(numWant: int, offered: nat): (k: nat)
    ensures k <= offered
    ensures 0 <= numWant <= 100 ==> k <= numWant && (k == numWant || k == offered)
    ensures !(0 <= numWant <= 100) ==> k == offered
  {
    if 0 <= numWant <= 100 && numWant < offered then numWant else offered
  }

  /** The reply carries the group's counts and the first of the peers offered. */
  ghost predicate ListsWanted(f: AnnounceFields, tid: U32, from: SocketAddr, now: nat, m: Groups, cache: C.Cache,
                              max: nat, interval: U32, resp: seq<Byte>, peers: seq<SocketAddr>) {
    var g := GroupOf(m, f.infohash);
    Offered(g, cache, f.infohash, SocketAddr(from.ip, f.port), max, now, peers) &&
    resp == AnnounceReply(tid, interval, |Leechers(g)|, |Seeders(g)|, peers[..Number(f.numWant, |peers|)])
  }

  lemma TakeWanted(numWant: int, peers: seq<SocketAddr>)
    ensures Take(Wanted(numWant, |peers|), peers) == peers[..Number(numWant, |peers|)]
  {}

  lemma ReplySize(tid: U32, interval: U32, leechers: nat, seeders: nat, peers: seq<SocketAddr>)
    ensures |AnnounceReply(tid, interval, leechers, seeders, peers)| == 20 + |PackPeers(peers)|
    ensures |PackPeers(peers)| <= 6 * |peers|
  {
    PackedSize(peers);
  }

  lemma {:induction false} PackedSize(peers: seq<SocketAddr>)
    ensures |PackPeers(peers)| <= 6 * |peers|
  {
    if peers == [] {
    } else {
      PackedSize(peers[1..]);
      var row := if IsV4(peers[0]) then [PackV4(peers[0])] else [];
      assert PeerRows(peers) == row + PeerRows(peers[1..]);
      JoinConcat(row, PeerRows(peers[1..]));
      assert row != [] ==> row[1..] == [] && Join(row) == row[0] + [];
    }
  }

  // ---- every other packet ----

  /** A packet with this head. */
  function PacketOf(connection: U64, action: U32, tid: U32, rest: seq<Byte>): seq<Byte> {
    U64Bytes(connection) + (U32Bytes(action) + (U32Bytes(tid) + rest))
  }

  lemma HeadRead(connection: U64, action: U32, tid: U32, rest: seq<Byte>)
    ensures var p := PacketOf(connection, action, tid, rest);
      |p| == 16 + |rest| && ReadU64(p, 0) == connection && ReadU32(p, 8) == action && ReadU32(p, 12) == tid
  {
    var p := PacketOf(connection, action, tid, rest);
    hide Field, U32Bytes, U64Bytes;
    Peel(p, 0, U64Bytes(connection), U32Bytes(action) + (U32Bytes(tid) + rest));
    Peel(p, 8, U32Bytes(action), U32Bytes(tid) + rest);
    Peel(p, 12, U32Bytes(tid), rest);
  }

  /** A connect is taken under the protocol id alone; an announce needs 98 bytes and a connection id held for the
      sender's IP, and one under an id nobody holds gets no answer; scrapes and other actions are refused. */
  lemma PacketsAreJudged(connection: U64, action: U32, tid: U32, rest: seq<Byte>, from: SocketAddr,
                         connections: Connections)
    ensures var v := Judge(PacketOf(connection, action, tid, rest), from, connections);
      (v.Connect? <==> action == 0 && connection == 0x41727101980) &&
      (v.Admit? <==> action == 1 && |rest| >= 82 && connection in connections &&
                     connections[connection].remoteAddr.ip == from.ip) &&
      (v.Ignore? <==> action == 1 && |rest| >= 82 && connection !in connections) &&
      (action == 0 && !v.Connect? ==> v == Refuse("invalid protocol id")) &&
      (action == 1 && |rest| < 82 ==> v == Refuse("announce packet too short")) &&
      (action == 1 && v.Refuse? && |rest| >= 82 ==> v == Refuse("invalid connection id")) &&
      (action == 2 ==> v == Refuse("scrape not implemented")) && (action > 2 ==> v == Refuse("invalid action"))
  {
    HeadRead(connection, action, tid, rest);
    hide PacketOf, ReadU64, ReadU32, ReadAnnounce;
  }

  /** Whatever is shorter than a head gets no answer. */
  lemma ShortPacketsAreIgnored(data: seq<Byte>, from: SocketAddr, connections: Connections)
    ensures |data| < 16 ==> Judge(data, from, connections) == Ignore
  {}

  // ---- what the client refuses ----

  /** A reply with this head. */
  function ReplyOf(action: U32, tid: U32, rest: seq<Byte>): seq<Byte> {
    U32Bytes(action) + (U32Bytes(tid) + rest)
  }

  lemma ReplyHeadRead(action: U32, tid: U32, rest: seq<Byte>)
    ensures var r := ReplyOf(action, tid, rest);
      |r| == 8 + |rest| && ReadU32(r, 0) == action && ReadU32(r, 4) == tid
  {
    var r := ReplyOf(action, tid, rest);
    hide Field, U32Bytes;
    Peel(r, 0, U32Bytes(action), U32Bytes(tid) + rest);
    Peel(r, 4, U32Bytes(tid), rest);
  }

  /** The client takes a connection id, or a peer list, only from a long enough reply to its own transaction with the
      action it asked for. */
  lemma OnlyOwnRepliesAreTaken(action: U32, tid: U32, rest: seq<Byte>, mine: U32)
    ensures var r := ReplyOf(action, tid, rest);
      (DecodeConnect(r, mine).Got? <==> action == 0 && tid == mine && |rest| >= 8) &&
      (DecodeAnnounce(r, mine).Got? <==> action == 1 && tid == mine && |rest| >= 12) &&
      (|rest| >= 12 && action == 1 && tid != mine ==> DecodeAnnounce(r, mine) == Refused(WrongTransaction)) &&
      (|rest| >= 12 && action != 1 && action != 3 ==> DecodeAnnounce(r, mine) == Refused(WrongAction)) &&
      (|rest| >= 12 && action == 3 ==> DecodeAnnounce(r, mine) == Refused(TrackerError(rest)))
  {
    ReplyHeadRead(action, tid, rest);
    assert ReplyOf(action, tid, rest)[8..] == rest;
    hide ReplyOf, ReadU64, ReadU32, UnpackPeers;
  }

  // ---- what an announce records ----

  /** An announce under a held id, from the IP the id was issued to, is recorded with every field it carries, at the
      sender's IP and the port announced, as seen now; one that stops is recorded no more. */
  lemma AnnounceIsRecorded(s: Server, connection: U64, tid: U32, f: AnnounceFields, ip: U32, key: U32, from: SocketAddr,
                           now: nat, random: U64)
    requires -0x8000_0000 <= f.numWant < 0x8000_0000
    requires connection in s.connections && s.connections[connection].remoteAddr.ip == from.ip
    ensures var g := GroupOf(Step(s, Packet(AnnouncePacket(connection, tid, f, ip, key), from, now, random)).peers,
                             f.infohash);
      var a := SocketAddr(from.ip, f.port);
      (a in g <==> f.event != Stopped) &&
      (a in g ==>
         g[a].addr == a && g[a].peerId == f.peerId && g[a].uploaded == f.uploaded && g[a].downloaded == f.downloaded &&
         g[a].left == f.left && g[a].event == f.event && g[a].lastSeen == now)
  {
    AnnounceFieldsRoundTrip(connection, tid, f, ip, key);
    hide AnnouncePacket, ReadAnnounce, ReadU32, ReadU64;
    AnnounceEffect(s.peers, f.infohash, Announced(f, from, now), f.infohash, SocketAddr(from.ip, f.port));
  }

  /** A connect is answered with its transaction id and the new connection id, in this order. */
  lemma ConnectReplyLayout(tid: U32, id: U64)
    ensures var r := ConnectReply(tid, id);
      |r| == 16 && ReadU32(r, 0) == 0 && ReadU32(r, 4) == tid && ReadU64(r, 8) == id
  {
    var r := ConnectReply(tid, id);
    hide Field, U32Bytes, U64Bytes;
    Peel(r, 0, U32Bytes(ACTION_CONNECT), U32Bytes(tid) + U64Bytes(id));
    Peel(r, 4, U32Bytes(tid), U64Bytes(id));
    assert U64Bytes(id) + [] == U64Bytes(id);
    Peel(r, 8, U64Bytes(id), []);
  }
}
