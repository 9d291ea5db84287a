/** The crawler: a DHT node over the in-place routing table, peer store, token manager and Bloom filter. */
module Crawler {
  import opened Bytes
  import opened Addresses
  import opened XorMetric
  import opened Bencode
  import opened CompactInfo
  import opened Krpc
  import opened NodeProtocol
  import opened Bloom
  import B = Buckets
  import R = RoutingTable
  import T = Tokens
  import S = PeerStore

  /** The bytes of a reply, if there is one. */
  function Wire(reply: Option<Item>): Option<seq<Byte>> {
    if reply.Some? then Some(Encode(reply.value)) else None
  }

  /** The reply that lists this sample of the stored infohashes. */
  ghost predicate SampleReply(cfg: Config, m: S.Peers, tid: seq<Byte>, samples: seq<NodeId>, resp: seq<Byte>) {
    S.IsSample(m, 64, samples) && resp == Encode(ResponseItem(SampleFields(cfg.nodeId, 30, |m|, KeySamples(samples)),
      tid))
  }

  /** The reply and the report of a reading query, for this sample. */
  ghost predicate AnsweredWith(cfg: Config, st: State, q: Query, from: SocketAddr, now: U32, sampled: seq<NodeId>,
                               resp: Option<seq<Byte>>, found: Option<NodeId>)
    requires q.kind != AnnouncePeer
  {
    (q.kind == SampleInfohashes ==> S.IsSample(st.store, 64, sampled)) &&
    resp == Wire(Answer(cfg, st, q, from, now, sampled).0) && found == Answer(cfg, st, q, from, now, sampled).1
  }

  /** The same for some possible sample. */
  ghost predicate Answered(cfg: Config, st: State, q: Query, from: SocketAddr, now: U32, resp: Option<seq<Byte>>,
                           found: Option<NodeId>)
    requires q.kind != AnnouncePeer
  {
    exists sampled :: AnsweredWith(cfg, st, q, from, now, sampled, resp, found)
  }

  /** The protocol step leads to this state, reply and report, for some possible sample. */
  ghost predicate Handled(cfg: Config, st: State, data: seq<Byte>, from: SocketAddr, now: U32, next: State,
                          resp: Option<seq<Byte>>, found: Option<NodeId>)
    requires |st.table| > 0
  {
    exists sampled :: Possible(st, data, sampled) && HandledWith(cfg, st, data, from, now, sampled, next, resp, found)
  }

  ghost predicate HandledWith(cfg: Config, st: State, data: seq<Byte>, from: SocketAddr, now: U32, sampled: seq<NodeId>,
                              next: State,
                              resp: Option<seq<Byte>>, found: Option<NodeId>)
    requires |st.table| > 0
  {
    var r := Handle(cfg, st, data, from, now, sampled);
    next == r.state && resp == Wire(r.reply) && found == r.found
  }

  ghost predicate Possible(st: State, data: seq<Byte>, sampled: seq<NodeId>) {
    var q := ParseQuery(data);
    q.Some? && q.value.kind == SampleInfohashes ==> S.IsSample(st.store, 64, sampled)
  }

  /** The infohash a message reports does not depend on the sample. */
  function FoundIn(cfg: Config, st: State, data: seq<Byte>, from: SocketAddr, now: U32): Option<NodeId>
    requires |st.table| > 0
  {
    Handle(cfg, st, data, from, now, []).found
  }

  lemma ReadingIsHandled(cfg: Config, st: State, data: seq<Byte>, from: SocketAddr, now: U32, resp: Option<seq<Byte>>,
                         found: Option<NodeId>)
    requires |st.table| > 0 && ParseQuery(data).Some? && ParseQuery(data).value.kind != AnnouncePeer
    requires Answered(cfg, st, ParseQuery(data).value, from, now, resp, found)
    ensures Handled(cfg, st, data, from, now, st, resp, found)
  {
    var q := ParseQuery(data).value;
    var sampled :| AnsweredWith(cfg, st, q, from, now, sampled, resp, found);
    assert Possible(st, data, sampled) && HandledWith(cfg, st, data, from, now, sampled, st, resp, found);
  }

  lemma OtherIsHandled(cfg: Config, st: State, data: seq<Byte>, from: SocketAddr, now: U32, next: State,
                       resp: Option<seq<Byte>>, found: Option<NodeId>)
    requires |st.table| > 0 && (ParseQuery(data).Some? ==> ParseQuery(data).value.kind == AnnouncePeer)
    requires HandledWith(cfg, st, data, from, now, [], next, resp, found)
    ensures Handled(cfg, st, data, from, now, next, resp, found)
  {}

  lemma FoundIsCertain(cfg: Config, st: State, data: seq<Byte>, from: SocketAddr, now: U32, next: State,
                       resp: Option<seq<Byte>>, found: Option<NodeId>)
    requires |st.table| > 0 && Handled(cfg, st, data, from, now, next, resp, found)
    ensures found == FoundIn(cfg, st, data, from, now)
  {}

  ghost predicate NoRepeats(s: seq<NodeId>) {
    forall i, j :: 0 <= i < j < |s| ==> s[i] != s[j]
  }

  class CrawlerEngine {
    const cfg: Config
    const routingTable: R.RoutingTable
    const peerStore: S.DhtStore
    const tokenManager: T.TokenManager
    const seenInfohashes: BloomFilter<NodeId>

    /** What was published on the event bus, in order. */
    var published: seq<NodeId>
    var messagesReceived: nat
    var infohashesCollected: nat
    var peersCollected: nat

    function NodeState(): State
      reads routingTable, routingTable.buckets, peerStore, tokenManager
    {
      State(routingTable.Layout(), peerStore.peers, tokenManager.State())
    }

    ghost predicate NodeOk()
      reads routingTable, routingTable.buckets, peerStore
    {
      && routingTable.Valid() && routingTable.ownId == cfg.nodeId
      && peerStore.Valid()
      && tokenManager.digest == cfg.digest
    }

    ghost predicate SeenCovers(ih: NodeId)
      reads seenInfohashes, seenInfohashes.bits
      requires seenInfohashes.Valid()
    {
      Probes(seenInfohashes.hash, seenInfohashes.numBits, seenInfohashes.numHashes, ih) <= seenInfohashes.On()
    }

    /** Every published infohash is in the filter, so none is ever published twice. */
    ghost predicate PublishedOnce()
      reads this, seenInfohashes, seenInfohashes.bits
    {
      && seenInfohashes.Valid()
      && (forall ih :: ih in published ==> SeenCovers(ih))
      && NoRepeats(published)
      && infohashesCollected == |published|
    }

    ghost predicate Valid()
      reads this, routingTable, routingTable.buckets, peerStore, tokenManager, seenInfohashes, seenInfohashes.bits
    {
      NodeOk() && PublishedOnce()
    }

    constructor (cfg: Config, table: R.RoutingTable, store: S.DhtStore, tokens: T.TokenManager,
                 seen: BloomFilter<NodeId>)
      requires table.Valid() && table.ownId == cfg.nodeId && store.Valid() && tokens.digest == cfg.digest &&
        seen.Valid()
      ensures Valid() && published == []
      ensures routingTable == table && peerStore == store && tokenManager == tokens && seenInfohashes == seen &&
        this.cfg == cfg
    {
      this.cfg := cfg;
      routingTable := table;
      peerStore := store;
      tokenManager := tokens;
      seenInfohashes := seen;
      published := [];
      messagesReceived := 0;
      infohashesCollected := 0;
      peersCollected := 0;
    }

    method ClosestTo(target: NodeId) returns (nodes: seq<DhtNode>)
      ensures nodes == ClosestNodes(NodeState().table, target)
    {
      var closest := routingTable.FindClosest(target, 8);
      nodes := ToDhtNodes(closest);
    }

    method AnswerFindNode(tid: seq<Byte>, target: NodeId) returns (resp: seq<Byte>)
      ensures resp == Encode(ResponseItem(NodeFields(cfg.nodeId, ClosestNodes(NodeState().table, target)), tid))
    {
      var nodes := ClosestTo(target);
      if nodes == [] {
        resp := BuildFindNodeResponse(tid, cfg.nodeId);
      } else {
        resp := BuildFindNodeResponseWithNodes(tid, cfg.nodeId, nodes);
      }
    }

    method AnswerGetPeers(tid: seq<Byte>, ih: NodeId, from: SocketAddr, now: U32) returns (resp: seq<Byte>)
      requires tokenManager.digest == cfg.digest
      ensures resp == Encode(GetPeersReply(cfg, NodeState(), tid, ih, FromSocket(from), now))
    {
      var token := tokenManager.Generate(FromSocket(from));
      var stored := peerStore.Query(ih, 50, now);
      var peers := ToSockets(stored);
      if peers != [] {
        resp := BuildGetPeersResponseFull(tid, cfg.nodeId, token, peers, []);
      } else {
        var nodes := ClosestTo(ih);
        resp := BuildGetPeersResponseFull(tid, cfg.nodeId, token, [], nodes);
      }
    }

    method AnswerSampleInfohashes(tid: seq<Byte>) returns (resp: seq<Byte>)
      ensures exists samples :: SampleReply(cfg, peerStore.peers, tid, samples, resp)
    {
      var sampled, total := peerStore.SampleInfohashes(64);
      var bytes := [];
      for i := 0 to |sampled|
        invariant bytes == KeySamples(sampled[..i])
      {
        KeySamplesAppend(sampled[..i], sampled[i]);
        assert sampled[..i + 1] == sampled[..i] + [sampled[i]];
        bytes := bytes + sampled[i];
      }
      assert sampled[..|sampled|] == sampled;
      resp := BuildSampleInfohashesResponse(tid, cfg.nodeId, 30, total, bytes);
      assert SampleReply(cfg, peerStore.peers, tid, sampled, resp);
    }

    method StorePeer(ih: NodeId, peer: CompactAddr, now: U32)
      requires NodeOk()
      modifies peerStore
      ensures NodeOk()
      ensures NodeState() == old(NodeState()).(store := S.Announce(old(peerStore.peers), ih, peer, now))
    {
      peerStore.AnnouncePeer(ih, peer, now);
    }

    method AddNode(id: NodeId, addr: CompactAddr, now: U32)
      requires NodeOk()
      modifies routingTable, routingTable.buckets
      ensures NodeOk() && (forall b :: b in routingTable.buckets ==> b in old(routingTable.buckets) || fresh(b))
      ensures var r := B.InsertEntry(cfg.nodeId, old(routingTable.Layout()), B.RoutingEntry(id, addr, now, 0));
        NodeState() == old(NodeState()).(table := r.buckets)
    {
      var _ := routingTable.Insert(id, addr, now);
    }

    method AdmitPeer(params: AnnounceParams, from: SocketAddr, now: U32)
      requires NodeOk()
      modifies this`peersCollected, routingTable, routingTable.buckets, peerStore
      ensures NodeOk() && (forall b :: b in routingTable.buckets ==> b in old(routingTable.buckets) || fresh(b))
      ensures NodeState() == Admit(cfg, old(NodeState()), params, from, now)
      ensures peersCollected == old(peersCollected) + 1
    {
      hide R.RoutingTable.Valid, S.DhtStore.Valid;
      var peerPort := if params.impliedPort then from.port else params.port;
      StorePeer(params.infoHash, FromSocket(SocketAddr(from.ip, peerPort)), now);
      AddNode(params.id, FromSocket(from), now);
      peersCollected := peersCollected + 1;
    }

    /** Check the token; when it holds, store the peer and admit the sender to the routing table. */
    method AnswerAnnounce(parsed: Option<(seq<Byte>, AnnounceParams)>, from: SocketAddr, now: U32)
      returns (resp: Option<seq<Byte>>, found: Option<NodeId>)
      requires NodeOk()
      modifies this`peersCollected, routingTable, routingTable.buckets, peerStore
      ensures NodeOk() && (forall b :: b in routingTable.buckets ==> b in old(routingTable.buckets) || fresh(b))
      ensures var r := HandleAnnounce(cfg, old(NodeState()), parsed, from, now);
        NodeState() == r.state && resp == Wire(r.reply) && found == r.found
      ensures peersCollected == old(peersCollected) + (if Accepted(cfg, old(NodeState()), parsed, from) then 1 else 0)
    {
      hide R.RoutingTable.Valid, S.DhtStore.Valid, R.RoutingTable.Layout, Admit, T.Accepts, Encode;
      resp, found := None, None;
      if parsed.Some? {
        var (tid, params) := parsed.value;
        var tokenValid := tokenManager.Verify(FromSocket(from), params.token);
        if tokenValid {
          AdmitPeer(params, from, now);
        }
        var ack := BuildPingResponse(tid, cfg.nodeId);
        resp, found := Some(ack), Some(params.infoHash);
      }
    }

    method AnswerQuery(q: Query, from: SocketAddr, now: U32) returns (resp: Option<seq<Byte>>, found: Option<NodeId>)
      requires q.kind != AnnouncePeer && tokenManager.digest == cfg.digest
      ensures Answered(cfg, NodeState(), q, from, now, resp, found)
    {
      resp, found := None, None;
      ghost var sampled: seq<NodeId> := [];
      match q.kind {
        case Ping =>
          var r := BuildPingResponse(q.tid, cfg.nodeId);
          resp := Some(r);
        case FindNode =>
          var r := AnswerFindNode(q.tid, if q.infoHash.Some? then q.infoHash.value else ZeroId());
          resp := Some(r);
        case GetPeers =>
          if q.infoHash.Some? {
            var r := AnswerGetPeers(q.tid, q.infoHash.value, from, now);
            resp, found := Some(r), q.infoHash;
          }
        case SampleInfohashes =>
          var r := AnswerSampleInfohashes(q.tid);
          resp := Some(r);
          sampled :| SampleReply(cfg, peerStore.peers, q.tid, sampled, r);
      }
      assert AnsweredWith(cfg, NodeState(), q, from, now, sampled, resp, found);
    }

    /** Anything but a query that only reads: an announce, or nothing at all. */
    method AnswerOther(q: Option<Query>, data: seq<Byte>, from: SocketAddr, now: U32)
      returns (resp: Option<seq<Byte>>, found: Option<NodeId>)
      requires NodeOk() && q == ParseQuery(data) && (q.Some? ==> q.value.kind == AnnouncePeer)
      modifies this`peersCollected, routingTable, routingTable.buckets, peerStore
      ensures NodeOk() && (forall b :: b in routingTable.buckets ==> b in old(routingTable.buckets) || fresh(b))
      ensures Handled(cfg, old(NodeState()), data, from, now, NodeState(), resp, found)
      ensures peersCollected == old(peersCollected) + (if StoresPeer(cfg, old(NodeState()), data, from) then 1 else 0)
    {
      ghost var st := NodeState();
      assert |st.table| > 0;
      hide R.RoutingTable.Valid, S.DhtStore.Valid, R.RoutingTable.Layout, HandleAnnounce, Answer, T.Accepts;
      hide ParseAnnouncePeer, ParseQuery, Encode, Answered, Handled;
      resp, found := None, None;
      if q.Some? {
        resp, found := AnswerAnnounce(ParseAnnouncePeer(data), from, now);
      }
      OtherIsHandled(cfg, st, data, from, now, NodeState(), resp, found);
    }

    /** One datagram: the node's state, its reply on the wire and the reported infohash are those of the
        protocol step. */
    method HandleMessage(data: seq<Byte>, from: SocketAddr, now: U32)
      returns (resp: Option<seq<Byte>>, found: Option<NodeId>)
      requires NodeOk()
      modifies this`messagesReceived, this`peersCollected, routingTable, routingTable.buckets, peerStore
      ensures NodeOk() && (forall b :: b in routingTable.buckets ==> b in old(routingTable.buckets) || fresh(b))
      ensures Handled(cfg, old(NodeState()), data, from, now, NodeState(), resp, found)
      ensures messagesReceived == old(messagesReceived) + 1
      ensures peersCollected == old(peersCollected) + (if StoresPeer(cfg, old(NodeState()), data, from) then 1 else 0)
    {
      ghost var st := NodeState();
      assert |st.table| > 0;
      hide R.RoutingTable.Valid, S.DhtStore.Valid, R.RoutingTable.Layout, HandleAnnounce, Answer, T.Accepts;
      hide ParseAnnouncePeer, ParseQuery, Encode, Answered, Handled, StoresPeer;
      messagesReceived := messagesReceived + 1;
      resp, found := None, None;
      var q := ParseQuery(data);
      if q.Some? && q.value.kind != AnnouncePeer {
        resp, found := AnswerQuery(q.value, from, now);
        ReadingIsHandled(cfg, st, data, from, now, resp, found);
      } else {
        resp, found := AnswerOther(q, data, from, now);
      }
    }

    /** The receiving branch of `crawl_loop`: handle the message and publish an infohash the filter does
        not know yet. */
    method Receive(data: seq<Byte>, from: SocketAddr, now: U32) returns (resp: Option<seq<Byte>>)
      requires Valid()
      modifies this, routingTable, routingTable.buckets, peerStore, seenInfohashes`count, seenInfohashes.bits
      ensures Valid() && (forall b :: b in routingTable.buckets ==> b in old(routingTable.buckets) || fresh(b))
      ensures var found := FoundIn(cfg, old(NodeState()), data, from, now);
        Handled(cfg, old(NodeState()), data, from, now, NodeState(), resp, found) &&
        published == old(published) + (if found.Some? && !old(SeenCovers(found.value)) then [found.value] else [])
    {
      ghost var was := NodeState();
      assert |was.table| > 0;
      hide R.RoutingTable.Valid, S.DhtStore.Valid, Handled;
      var found;
      resp, found := HandleMessage(data, from, now);
      FoundIsCertain(cfg, was, data, from, now, NodeState(), resp, found);
      if found.Some? {
        Publish(found.value);
      }
    }

    method Publish(ih: NodeId)
      requires PublishedOnce()
      modifies this`published, this`infohashesCollected, seenInfohashes`count, seenInfohashes.bits
      ensures PublishedOnce()
      ensures published == old(published) + (if old(SeenCovers(ih)) then [] else [ih])
    {
      var isNew := seenInfohashes.InsertAndCheck(ih);
      if isNew {
        infohashesCollected := infohashesCollected + 1;
        published := published + [ih];
      }
    }

    /** The maintenance branch of `crawl_loop`. */
    method Maintenance(now: U32, drawn: T.Secret)
      requires Valid()
      modifies routingTable`totalNodes, routingTable.buckets, peerStore, tokenManager
      ensures Valid()
      ensures NodeState() == Maintain(old(NodeState()), now, drawn)
    {
      hide R.RoutingTable.Valid, S.DhtStore.Valid;
      CleanTable(now);
      CleanStore(now);
      tokenManager.MaybeRotate(now, drawn);
    }

    method CleanTable(now: U32)
      requires NodeOk()
      modifies routingTable`totalNodes, routingTable.buckets
      ensures NodeOk()
      ensures NodeState() == old(NodeState()).(table := B.EvictAll(old(routingTable.Layout()), now))
    {
      var _ := routingTable.EvictExpired(now);
    }

    method CleanStore(now: U32)
      requires NodeOk()
      modifies peerStore
      ensures NodeOk()
      ensures NodeState() == old(NodeState()).(store := S.Evict(old(peerStore.peers), now))
    {
      var _ := peerStore.EvictExpired(now);
    }
  }

  lemma {:induction false} KeySamplesAppend(s: seq<NodeId>, x: NodeId)
    ensures KeySamples(s + [x]) == KeySamples(s) + x
  {
    if s == [] {
      assert ([x] + [])[1..] == [];
      assert [] + [x] == [x];
    } else {
      KeySamplesAppend(s[1..], x);
      assert (s + [x])[1..] == s[1..] + [x];
    }
  }
}
