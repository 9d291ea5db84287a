/** What the node's answers are worth to those who read them: every query it answers, whom an announce makes known, and
    how long. */
module NodeAnswers {
  import opened Bytes
  import opened Addresses
  import opened XorMetric
  import opened Sorting
  import opened Bencode
  import opened CompactInfo
  import opened Krpc
  import opened NodeProtocol
  import opened BucketRouting
  import B = Buckets
  import N = Nearest
  import T = Tokens
  import S = PeerStore

  // ---- every answer ----

  /** The bytes of the reply are a response under the asker's transaction id, with our id. */
  ghost predicate Responds(cfg: Config, tid: seq<Byte>, reply: Option<Item>) {
    reply.Some? &&
    var d := AsDict(FromBytes(Encode(reply.value)));
    d.Some? && Lookup(d.value, Text("t")) == Some(Str(tid)) && Lookup(d.value, Text("y")) == Some(Str(Text("r"))) &&
    var r := AsDict(Lookup(d.value, Text("r")));
    r.Some? && Lookup(r.value, Text("id")) == Some(Str(cfg.nodeId))
  }

  lemma ResponseResponds(cfg: Config, tid: seq<Byte>, fields: seq<Entry>)
    requires Lookup(fields, Text("id")) == Some(Str(cfg.nodeId))
    ensures Responds(cfg, tid, Some(ResponseItem(fields, tid)))
  {
    FromBytesOfEncode(ResponseItem(fields, tid));
    ResponseLookups(fields, tid);
  }

  lemma IdFound(cfg: Config, token: seq<Byte>, peers: seq<SocketAddr>, nodes: seq<DhtNode>, num: int,
                samples: seq<Byte>)
    ensures Lookup([IdField(cfg.nodeId)], Text("id")) == Some(Str(cfg.nodeId))
    ensures Lookup(NodeFields(cfg.nodeId, nodes), Text("id")) == Some(Str(cfg.nodeId))
    ensures Lookup(GetPeersFields(cfg.nodeId, token, peers, nodes), Text("id")) == Some(Str(cfg.nodeId))
    ensures Lookup(SampleFields(cfg.nodeId, 30, num, samples), Text("id")) == Some(Str(cfg.nodeId))
  {
    hide Lookup, PackNodes, PackNodes6, PackNodesLoosely;
    assert |Text("id")| == 2 && |Text("nodes")| == 5 && |Text("nodes6")| == 6 &&
      |Text("interval")| == 8 && |Text("num")| == 3 && |Text("samples")| == 7;
    LookupFinds([IdField(cfg.nodeId)], 0);
    LookupFinds(NodeFields(cfg.nodeId, nodes), 0);
    GetPeersLookups(cfg.nodeId, token, peers, nodes);
    LookupFinds(SampleFields(cfg.nodeId, 30, num, samples), 0);
  }

  /** Whether a query is one the node leaves unanswered: a `get_peers` without an infohash of 20 bytes, or an announce
      without arguments. */
  predicate Unanswerable(data: seq<Byte>, q: Query) {
    (q.kind == GetPeers && q.infoHash.None?) || (q.kind == AnnouncePeer && ParseAnnouncePeer(data).None?)
  }

  lemma SameTransaction(data: seq<Byte>)
    requires ParseQuery(data).Some? && ParseAnnouncePeer(data).Some?
    ensures ParseAnnouncePeer(data).value.0 == ParseQuery(data).value.tid
  {
    hide FromBytes, Lookup, ParseMethod;
  }

  /** Every query is answered under its transaction id and with our id, an announce whether its token is accepted or
      not; only unanswerable ones and what is no query get no reply. The infohash reported is the one asked for. */
  lemma EveryQueryAnswered(cfg: Config, st: State, data: seq<Byte>, from: SocketAddr, now: U32, sampled: seq<NodeId>)
    requires |st.table| > 0
    ensures var r, q := Handle(cfg, st, data, from, now, sampled), ParseQuery(data);
      if q.None? || Unanswerable(data, q.value) then r == Outcome(st, None, None)
      else
        Responds(cfg, q.value.tid, r.reply) &&
        r.found == if q.value.kind == GetPeers then q.value.infoHash
          else if q.value.kind == AnnouncePeer then Some(ParseAnnouncePeer(data).value.1.infoHash) else None
  {
    var q := ParseQuery(data);
    if q.Some? && !Unanswerable(data, q.value) {
      var tid := q.value.tid;
      hide ParseQuery, ParseAnnouncePeer, Responds, Lookup, NodeFields, GetPeersFields, SampleFields, ClosestNodes,
        S.GetPeers, Admit, ResponseItem;
      if q.value.kind == AnnouncePeer {
        SameTransaction(data);
        IdFound(cfg, [], [], [], 0, []);
        ResponseResponds(cfg, tid, [IdField(cfg.nodeId)]);
      } else {
        ReadingAnswered(cfg, st, q.value, from, now, sampled);
      }
    }
  }

  lemma ReadingAnswered(cfg: Config, st: State, q: Query, from: SocketAddr, now: U32, sampled: seq<NodeId>)
    requires q.kind != AnnouncePeer && !(q.kind == GetPeers && q.infoHash.None?)
    ensures Responds(cfg, q.tid, Answer(cfg, st, q, from, now, sampled).0)
    ensures Answer(cfg, st, q, from, now, sampled).1 == if q.kind == GetPeers then q.infoHash else None
  {
    hide Responds, Lookup, NodeFields, GetPeersFields, SampleFields, ClosestNodes, S.GetPeers, ResponseItem, KeySamples;
    match q.kind
    case Ping =>
      IdFound(cfg, [], [], [], 0, []);
      ResponseResponds(cfg, q.tid, [IdField(cfg.nodeId)]);
    case FindNode =>
      var target := if q.infoHash.Some? then q.infoHash.value else ZeroId();
      var nodes := ClosestNodes(st.table, target);
      IdFound(cfg, [], [], nodes, 0, []);
      ResponseResponds(cfg, q.tid, NodeFields(cfg.nodeId, nodes));
    case GetPeers =>
      var token := T.Issue(cfg.digest, st.tokens, FromSocket(from));
      var peers := ToSockets(S.GetPeers(st.store, q.infoHash.value, 50, now));
      var nodes := if peers != [] then [] else ClosestNodes(st.table, q.infoHash.value);
      IdFound(cfg, token, peers, nodes, 0, []);
      ResponseResponds(cfg, q.tid, GetPeersFields(cfg.nodeId, token, peers, nodes));
    case SampleInfohashes =>
      IdFound(cfg, [], [], [], |st.store|, KeySamples(sampled));
      ResponseResponds(cfg, q.tid, SampleFields(cfg.nodeId, 30, |st.store|, KeySamples(sampled)));
  }

  // ---- samples ----

  lemma {:induction false} SamplesInOrder(sampled: seq<NodeId>, i: nat)
    requires i < |sampled|
    ensures |KeySamples(sampled)| == 20 * |sampled| && KeySamples(sampled)[20 * i..20 * i + 20] == sampled[i]
  {
    SamplesLength(sampled);
    if i == 0 {
    } else {
      SamplesInOrder(sampled[1..], i - 1);
      var rest := KeySamples(sampled[1..]);
      assert KeySamples(sampled)[20..] == rest;
      assert KeySamples(sampled)[20 * i..20 * i + 20] == rest[20 * (i - 1)..20 * (i - 1) + 20];
    }
  }

  lemma {:induction false} SamplesLength(sampled: seq<NodeId>)
    ensures |KeySamples(sampled)| == 20 * |sampled|
  {
    if sampled == [] {
    } else {
      SamplesLength(sampled[1..]);
    }
  }

  /** A `sample_infohashes` query, with whatever arguments, is answered with the interval, the number of stored
      infohashes and the sampled ones, 20 bytes each, in order. */
  lemma SampleAnswer(cfg: Config, st: State, tid: seq<Byte>, args: seq<Entry>, from: SocketAddr, now: U32,
                     sampled: seq<NodeId>)
    requires |st.table| > 0
    ensures var r := Handle(cfg, st, Encode(QueryItem(args, MethodName(SampleInfohashes), tid)), from, now, sampled);
      r.reply.Some? && var p := ParseSampleInfohashesResponse(Encode(r.reply.value));
      p.Some? && p.value.0 == tid && p.value.1 == 30 && p.value.2 == |st.store| &&
      |p.value.3| == 20 * |sampled| &&
      forall i: nat :: i < |sampled| ==> p.value.3[20 * i..20 * i + 20] == sampled[i]
  {
    QueryRoundTrip(args, SampleInfohashes, tid);
    hide Encode, ParseQuery, ParseSampleInfohashesResponse, KeySamples;
    SampleResponseRoundTrip(tid, cfg.nodeId, 30, |st.store|, KeySamples(sampled));
    SamplesLength(sampled);
    forall i: nat | i < |sampled|
      ensures KeySamples(sampled)[20 * i..20 * i + 20] == sampled[i]
    {
      SamplesInOrder(sampled, i);
    }
  }

  // ---- what maintenance keeps ----

  /** Maintenance keeps exactly the nodes with fewer than three failures seen in the last hour and the peers announced
      in the last half hour, and draws a new secret exactly when the current one is 300 seconds old. */
  lemma MaintenanceEffect(st: State, now: U32, drawn: T.Secret, x: B.RoutingEntry, ih: NodeId, e: S.PeerEntry)
    ensures var next := Maintain(st, now, drawn);
      (x in B.Flat(next.table) <==> x in B.Flat(st.table) && Live(x, now)) &&
      (e in S.ListOf(next.store, ih) <==> e in S.ListOf(st.store, ih) && now <= e.lastSeen + S.PEER_TTL_SECS) &&
      next.tokens == if now >= st.tokens.lastRotation + T.SECRET_ROTATION_INTERVAL
        then T.TokenState(drawn, st.tokens.current, now) else st.tokens
  {
    B.EvictFilters(st.table, now);
    S.EvictKeepsFresh(st.store, now);
    assert B.Retained(now)(x) <==> Live(x, now);
    hide S.Evict, B.EvictAll, B.Flat;
    assert e in S.ListOf(S.Evict(st.store, now), ih) <==>
           e in S.ListOf(st.store, ih) && now <= e.lastSeen + S.PEER_TTL_SECS;
  }

  // ---- whom an announce makes known ----

  /** The entry an announcer gets in the routing table. */
  function AnnouncerEntry(p: AnnounceParams, from: SocketAddr, now: U32): B.RoutingEntry {
    B.RoutingEntry(p.id, FromSocket(from), now, 0)
  }

  /** After an accepted announce the routing table holds the announcer, seen now and without failures, or the bucket
      where it belongs is full of live others; no live entry at another address is gone. */
  lemma AnnouncerIsAdmitted(cfg: Config, st: State, data: seq<Byte>, from: SocketAddr, now: U32, sampled: seq<NodeId>)
    requires B.TableOk(st.table) && StoresPeer(cfg, st, data, from)
    ensures Landed(cfg.nodeId, st.table, AnnouncerEntry(AnnounceIn(data).value, from, now),
                   Handle(cfg, st, data, from, now, sampled).state.table)
  {
    hide ParseQuery, ParseAnnouncePeer, B.TableOk, Landed;
    InsertionLands(cfg.nodeId, st.table, AnnouncerEntry(AnnounceIn(data).value, from, now));
  }

  /** The nodes read out of the reply to a `find_node` query. */
  function NodesRead(reply: Option<Item>): seq<DhtNode> {
    if reply.None? then []
    else
      var p := ParseFindNodeResponse(Encode(reply.value));
      if p.None? then [] else p.value.1
  }

  lemma NodesReadAre(cfg: Config, tid: seq<Byte>, nodes: seq<DhtNode>)
    ensures var r := NodesRead(Some(ResponseItem(NodeFields(cfg.nodeId, nodes), tid)));
      |r| == |nodes| && forall n :: n in r <==> n in nodes
  {
    FindNodeResponseRoundTrip(tid, cfg.nodeId, nodes);
    FamiliesTogether(nodes);
    hide Encode, ParseFindNodeResponse;
  }

  lemma {:induction false} FamiliesTogether(nodes: seq<DhtNode>)
    ensures |OfFamily(true, nodes)| + |OfFamily(false, nodes)| == |nodes|
  {
    if nodes == [] {
    } else {
      FamiliesTogether(nodes[1..]);
    }
  }

  /** The infohash among the arguments of a `find_node` query, for which it is answered. */
  function AnsweredFor(args: seq<Entry>): NodeId {
    if InfoHashOf(Some(args)).Some? then InfoHashOf(Some(args)).value else ZeroId()
  }

  /** Every healthy node of the table is listed in the reply to a `find_node` query, unless eight are that are at least
      as near; and the reply lists nodes of the table only. */
  lemma HeldNodeIsListed(cfg: Config, st: State, e: B.RoutingEntry, tid: seq<Byte>, args: seq<Entry>, from: SocketAddr,
                         now: U32, sampled: seq<NodeId>)
    requires |st.table| > 0 && e in B.Flat(st.table) && e.Healthy()
    ensures var r := NodesRead(Handle(cfg, st, Encode(QueryItem(args, MethodName(FindNode), tid)), from, now, sampled)
                               .reply);
      DhtNode(e.id, e.addr.ToSocket()) in r ||
      (|r| == 8 && forall n :: n in r ==> Distance(n.id, AnsweredFor(args)) <= Distance(e.id, AnsweredFor(args)))
    ensures |B.Flat(st.table)| <= 8 ==>
      DhtNode(e.id, e.addr.ToSocket()) in
        NodesRead(Handle(cfg, st, Encode(QueryItem(args, MethodName(FindNode), tid)), from, now, sampled).reply)
  {
    var target := AnsweredFor(args);
    FindNodeAnswer(cfg, st, tid, args, from, now, sampled);
    NodesReadAre(cfg, tid, ClosestNodes(st.table, target));
    hide Handle, Encode, NodesRead, InfoHashOf;
    NearestOrEight(st.table, e, target);
  }

  lemma NearestOrEight(table: seq<B.Bucket>, e: B.RoutingEntry, target: NodeId)
    requires e in B.Flat(table) && e.Healthy()
    ensures var r := ClosestNodes(table, target);
      DhtNode(e.id, e.addr.ToSocket()) in r ||
      (|r| == 8 && forall n :: n in r ==> Distance(n.id, target) <= Distance(e.id, target))
    ensures |B.Flat(table)| <= 8 ==> DhtNode(e.id, e.addr.ToSocket()) in ClosestNodes(table, target)
  {
    var near := N.Closest(B.IdOf, B.IsHealthy, B.Flat(table), target, 8);
    N.ClosestIsKNearest(B.IdOf, B.IsHealthy, B.Flat(table), target, 8);
    assert B.IsHealthy(e);
    hide N.Closest, N.KNearest, B.Flat, Distance, ClosestNodes;
    N.NearestOrFull(B.IdOf, B.IsHealthy, B.Flat(table), target, 8, near, e);
    assert B.IdOf(e) == e.id;
    ListedNodes(near, e, target);
    assert ClosestNodes(table, target) == ToDhtNodes(near) by {
      ClosestNodesAre(table, target);
    }
  }

  lemma ClosestNodesAre(table: seq<B.Bucket>, target: NodeId)
    ensures ClosestNodes(table, target) == ToDhtNodes(N.Closest(B.IdOf, B.IsHealthy, B.Flat(table), target, 8))
  {}

  lemma ListedNodes(near: seq<B.RoutingEntry>, e: B.RoutingEntry, target: NodeId)
    ensures e in near ==> DhtNode(e.id, e.addr.ToSocket()) in ToDhtNodes(near)
    ensures (forall y :: y in near ==> Distance(B.IdOf(y), target) <= Distance(e.id, target)) ==>
      forall n :: n in ToDhtNodes(near) ==> Distance(n.id, target) <= Distance(e.id, target)
  {
    hide Distance;
    var r := ToDhtNodes(near);
    if e in near {
      var i :| 0 <= i < |near| && near[i] == e;
      assert r[i] == DhtNode(e.id, e.addr.ToSocket());
    }
    forall n | n in r
      ensures exists y :: y in near && n.id == B.IdOf(y)
    {
      var i :| 0 <= i < |r| && r[i] == n;
      assert near[i] in near && B.IdOf(near[i]) == n.id;
    }
  }

  /** Whoever announces with an accepted token, while the table holds fewer than eight nodes, is listed in the reply to
      the next `find_node` query, from anybody and for any target. */
  lemma AnnouncerIsListed(cfg: Config, st: State, data: seq<Byte>, from: SocketAddr, now: U32, tid: seq<Byte>,
                          args: seq<Entry>, asker: SocketAddr, later: U32, s1: seq<NodeId>, s2: seq<NodeId>)
    requires B.TableOk(st.table) && StoresPeer(cfg, st, data, from) && |B.Flat(st.table)| < 8
    ensures var next := Handle(cfg, st, data, from, now, s1).state;
      |next.table| > 0 &&
      DhtNode(AnnounceIn(data).value.id, from) in
        NodesRead(Handle(cfg, next, Encode(QueryItem(args, MethodName(FindNode), tid)), asker, later, s2).reply)
  {
    var e := AnnouncerEntry(AnnounceIn(data).value, from, now);
    var next := Handle(cfg, st, data, from, now, s1).state;
    assert next.table == B.InsertEntry(cfg.nodeId, st.table, e).buckets by {
      hide ParseQuery, ParseAnnouncePeer, B.InsertEntry;
    }
    RoomForOne(cfg.nodeId, st.table, e);
    PackingIsABijection(from, FromSocket(from));
    hide Handle, Encode, NodesRead, B.InsertEntry, B.Flat, B.TableOk, AnnounceIn, StoresPeer;
    assert |next.table| > 0 by {
      NotEmpty(next.table);
    }
    HeldNodeIsListed(cfg, next, e, tid, args, asker, later, s2);
  }

  lemma NotEmpty(table: seq<B.Bucket>)
    requires B.TableOk(table)
    ensures |table| > 0
  {}

  // ---- the third step ----

  /** The peers read out of the reply to a `get_peers` query. */
  function PeersRead(reply: Option<Item>): seq<SocketAddr> {
    if reply.None? then []
    else
      var p := ParseGetPeersResponse(Encode(reply.value));
      if p.None? then [] else p.value.1.values
  }

  /** A reply to `get_peers` lists every fresh IPv4 peer of the infohash with a nonzero port, when at most 50 are fresh.
      It lists no other peers. */
  lemma FreshPeersAreListed(cfg: Config, st: State, tid: seq<Byte>, id: NodeId, ih: NodeId, from: SocketAddr, now: U32,
                            sampled: seq<NodeId>, peer: SocketAddr)
    requires |st.table| > 0 && S.StoreOk(st.store)
    ensures var r := PeersRead(Handle(cfg, st, GetPeersQuery(tid, id, ih), from, now, sampled).reply);
      (peer in r ==> FreshIn(st.store, ih, peer, now)) &&
      (FreshIn(st.store, ih, peer, now) && Uncut(st.store, ih, now) && IsV4(peer) && peer.port != 0 ==> peer in r)
  {
    ReplyCarriesAnswer(cfg, st, tid, id, ih, from, now, sampled);
    S.GetPeersAnswer(st.store, ih, 50, now);
    var got := S.GetPeers(st.store, ih, 50, now);
    hide Handle, GetPeersQuery, ParseGetPeersResponse, Encode, S.GetPeers, S.StoreOk, S.FreshAt;
    InSockets(got, peer);
    PackingIsABijection(peer, FromSocket(peer));
  }

  /** A reply has room for every fresh peer. */
  ghost predicate Uncut(m: S.Peers, ih: NodeId, now: U32) {
    |S.FreshAt(S.ListOf(m, ih), now)| <= 50
  }

  ghost predicate FreshIn(m: S.Peers, ih: NodeId, peer: SocketAddr, now: U32) {
    exists e :: e in S.ListOf(m, ih) && e.addr == FromSocket(peer) && now <= e.lastSeen + S.PEER_TTL_SECS
  }

  lemma InSockets(cs: seq<CompactAddr>, a: SocketAddr)
    ensures a in ToSockets(cs) <==> FromSocket(a) in cs
  {
    hide FromSocket;
    if a in ToSockets(cs) {
      var i :| 0 <= i < |cs| && ToSockets(cs)[i] == a;
      PackingIsABijection(a, cs[i]);
      assert cs[i] in cs;
    }
    if FromSocket(a) in cs {
      var i :| 0 <= i < |cs| && cs[i] == FromSocket(a);
      PackingIsABijection(a, cs[i]);
      assert ToSockets(cs)[i] == a;
    }
  }

  /** The peer was announced at time t or later. */
  ghost predicate HeldSince(m: S.Peers, ih: NodeId, addr: CompactAddr, t: U32) {
    exists e :: e in S.ListOf(m, ih) && e.addr == addr && e.lastSeen >= t
  }

  predicate AnnouncesTo(ev: Event, ih: NodeId) {
    ev.Message? && AnnounceIn(ev.data).Some? && AnnounceIn(ev.data).value.infoHash == ih
  }

  /** Every step is within half an hour of t, and every announce for the infohash finds fewer than 256 fresh peers. */
  ghost predicate Uncrowded(cfg: Config, st: State, evs: seq<Event>, ih: NodeId, t: U32)
    requires |st.table| > 0
    decreases |evs|
  {
    evs != [] ==>
      t <= evs[0].now <= t + S.PEER_TTL_SECS &&
      (AnnouncesTo(evs[0], ih) ==> HasRoom(st.store, ih, evs[0].now)) &&
      Uncrowded(cfg, Step(cfg, st, evs[0]), evs[1..], ih, t)
  }

  ghost predicate HasRoom(m: S.Peers, ih: NodeId, now: U32) {
    |S.FreshAt(S.ListOf(m, ih), now)| < S.MAX_PEERS_PER_INFOHASH
  }

  lemma AnnounceKeepsHeld(m: S.Peers, jh: NodeId, other: CompactAddr, now: U32, ih: NodeId, addr: CompactAddr, t: U32)
    requires S.StoreOk(m) && HeldSince(m, ih, addr, t) && t <= now <= t + S.PEER_TTL_SECS
    requires jh == ih ==> HasRoom(m, ih, now)
    ensures S.StoreOk(S.Announce(m, jh, other, now)) && HeldSince(S.Announce(m, jh, other, now), ih, addr, t)
  {
    S.AnnounceBookkeeping(m, jh, other, now);
    var list := S.ListOf(m, ih);
    var e :| e in list && e.addr == addr && e.lastSeen >= t;
    var next := S.Announce(m, jh, other, now);
    if jh == ih {
      S.AnnounceEffect(list, other, now);
      var r := S.AnnounceTo(list, other, now);
      hide S.AnnounceTo;
      assert S.ListOf(next, ih) == r;
      if other == addr {
        assert S.PeerEntry(addr, now) in r;
      } else if e !in r {
        AllFresh(list, now, e);
      }
    } else {
      hide S.AnnounceTo;
      assert S.ListOf(next, ih) == list;
    }
  }

  /** If the least recently seen peer of a full list is fresh, all 256 are. */
  lemma AllFresh(list: seq<S.PeerEntry>, now: U32, e: S.PeerEntry)
    requires |list| == S.MAX_PEERS_PER_INFOHASH && now <= e.lastSeen + S.PEER_TTL_SECS
    requires forall x :: x in list ==> e.lastSeen <= x.lastSeen
    ensures |S.FreshAt(list, now)| == S.MAX_PEERS_PER_INFOHASH
  {
    forall x | x in list
      ensures S.Live(now)(x)
    {}
    FilterAll(S.Live(now), list);
    S.LiveCount(list, now);
  }

  lemma StepKeepsHeld(cfg: Config, st: State, ev: Event, ih: NodeId, addr: CompactAddr, t: U32)
    requires |st.table| > 0 && S.StoreOk(st.store) && HeldSince(st.store, ih, addr, t)
    requires t <= ev.now <= t + S.PEER_TTL_SECS
    requires AnnouncesTo(ev, ih) ==> HasRoom(st.store, ih, ev.now)
    ensures var next := Step(cfg, st, ev); S.StoreOk(next.store) && HeldSince(next.store, ih, addr, t)
  {
    match ev
    case Message(data, from, now, sampled) =>
      OnlyAcceptedAnnouncesWrite(cfg, st, data, from, now, sampled);
      assert StoresPeer(cfg, st, data, from) ==> AnnounceIn(data).Some?;
      hide Handle, S.Announce, AnnounceIn, StoresPeer, S.StoreOk, HasRoom, HeldSince;
      if StoresPeer(cfg, st, data, from) {
        var p := AnnounceIn(data).value;
        AnnounceKeepsHeld(st.store, p.infoHash, AnnouncedAddr(from, p), now, ih, addr, t);
      }
    case Maintenance(now, drawn) =>
      S.EvictKeepsStoreOk(st.store, now);
      S.EvictKeepsFresh(st.store, now);
      hide S.Evict, S.StoreOk, S.ListOf;
  }

  /** Once announced, a peer stays for half an hour, whatever messages and maintenance come, as long as no announce for
      its infohash finds 256 fresh peers. */
  lemma {:induction false} AnnouncedPeerStays(cfg: Config, st: State, evs: seq<Event>, ih: NodeId, addr: CompactAddr,
                                              t: U32)
    requires |st.table| > 0 && S.StoreOk(st.store) && HeldSince(st.store, ih, addr, t)
    requires Uncrowded(cfg, st, evs, ih, t)
    ensures S.StoreOk(Walk(cfg, st, evs).store) && HeldSince(Walk(cfg, st, evs).store, ih, addr, t)
    decreases |evs|
  {
    hide S.StoreOk, HeldSince, HasRoom, AnnouncesTo;
    if evs == [] {
    } else {
      StepKeepsHeld(cfg, st, evs[0], ih, addr, t);
      hide Step;
      AnnouncedPeerStays(cfg, Step(cfg, st, evs[0]), evs[1..], ih, addr, t);
    }
  }

  /** The whole exchange. A node asks for peers, reads the token, announces with it from the same endpoint less than 300
      seconds later; then for half an hour, whatever comes in between, whoever asks reads its address in the reply, as
      long as the infohash has at most 50 fresh peers when asked for and no announce finds 256. */
  lemma ThreeSteps(cfg: Config, st: State, before: seq<Event>, after: seq<Event>, from: SocketAddr, id: NodeId,
                   ih: NodeId, port: Port, tids: (seq<Byte>, seq<Byte>, seq<Byte>), asked: U32, announced: U32,
                   token: seq<Byte>, asker: SocketAddr, askerId: NodeId, later: U32, s: seq<NodeId>)
    requires |st.table| > 0 && S.StoreOk(Walk(cfg, st, before).store) && st.tokens.lastRotation <= asked
    requires T.InOrder(asked, RotateCalls(before)) &&
      T.Until(asked, RotateCalls(before)) <= announced < asked + T.SECRET_ROTATION_INTERVAL
    requires var r := Handle(cfg, st, GetPeersQuery(tids.0, id, ih), from, asked, s);
      r.reply.Some? &&
      var p := ParseGetPeersResponse(Encode(r.reply.value)); p.Some? && p.value.1.token == Some(token)
    requires IsV4(from) && port != 0
    requires var mid := Step(cfg, Walk(cfg, st, before), Message(AnnounceQuery(tids.1, id, ih, port, token), from,
                             announced, s));
      Uncrowded(cfg, mid, after, ih, announced) && later <= announced + S.PEER_TTL_SECS &&
      Uncut(Walk(cfg, mid, after).store, ih, later)
    ensures var mid := Step(cfg, Walk(cfg, st, before), Message(AnnounceQuery(tids.1, id, ih, port, token), from,
                            announced, s));
      SocketAddr(from.ip, port) in
        PeersRead(Handle(cfg, Walk(cfg, mid, after), GetPeersQuery(tids.2, askerId, ih), asker, later, s).reply)
  {
    var a, data := SocketAddr(from.ip, port), AnnounceQuery(tids.1, id, ih, port, token);
    var was := Walk(cfg, st, before);
    var mid := Step(cfg, was, Message(data, from, announced, s));
    AnnounceAfterGetPeers(cfg, st, before, from, id, ih, port, tids.0, tids.1, asked, announced, token, s, s);
    AnnounceKeepsStore(cfg, was, data, from, announced, s);
    assert mid == Handle(cfg, was, data, from, announced, s).state;
    hide Handle, AnnounceQuery, GetPeersQuery, Encode, ParseGetPeersResponse, S.StoreOk, S.FreshAt, Walk, Step,
      PeersRead,
      T.InOrder, T.Until, RotateCalls, Uncrowded;
    assert HeldSince(mid.store, ih, FromSocket(a), announced);
    AnnouncedPeerStays(cfg, mid, after, ih, FromSocket(a), announced);
    var end := Walk(cfg, mid, after);
    assert FreshIn(end.store, ih, a, later);
    FreshPeersAreListed(cfg, end, tids.2, askerId, ih, asker, later, s, a);
  }

  lemma AnnounceKeepsStore(cfg: Config, st: State, data: seq<Byte>, from: SocketAddr, now: U32, sampled: seq<NodeId>)
    requires |st.table| > 0 && S.StoreOk(st.store)
    ensures S.StoreOk(Handle(cfg, st, data, from, now, sampled).state.store)
  {
    OnlyAcceptedAnnouncesWrite(cfg, st, data, from, now, sampled);
    hide Handle, S.Announce, S.StoreOk;
    if StoresPeer(cfg, st, data, from) {
      var p := AnnounceIn(data).value;
      S.AnnounceBookkeeping(st.store, p.infoHash, AnnouncedAddr(from, p), now);
    }
  }

  // ---- the port an announce stores ----

  /** Under an accepted token, an announce with a nonzero implied_port stores the port it came from, any other the port
      it names, modulo 2^16. */
  lemma StoredPort(cfg: Config, st: State, tid: seq<Byte>, args: seq<Entry>, implied: int, port: int, ih: NodeId,
                   token: seq<Byte>, from: SocketAddr, now: U32, sampled: seq<NodeId>)
    requires |st.table| > 0 && KeysDistinct(args) && HasField(args, "info_hash", Str(ih))
    requires HasField(args, "implied_port", Int(implied)) && HasField(args, "port", Int(port))
    requires HasField(args, "token", Str(token)) && T.Accepts(cfg.digest, st.tokens, FromSocket(from), token)
    ensures var next := Handle(cfg, st, Encode(QueryItem(args, MethodName(AnnouncePeer), tid)), from, now,
      sampled).state;
      HeldSince(next.store, ih, FromSocket(SocketAddr(from.ip, if implied != 0 then from.port else port % 0x1_0000)),
        now)
  {
    var data := Encode(QueryItem(args, MethodName(AnnouncePeer), tid));
    AnnounceFieldsRead(tid, args);
    QueryRoundTrip(args, AnnouncePeer, tid);
    OnlyAcceptedAnnouncesWrite(cfg, st, data, from, now, sampled);
    hide Handle, Encode, ParseQuery, ParseAnnouncePeer, HasField, KeysDistinct, T.Accepts;
    var p := AnnounceIn(data).value;
    AnnouncedIsStored(S.ListOf(st.store, ih), AnnouncedAddr(from, p), now);
  }
}
