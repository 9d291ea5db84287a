/** The DHT node as a protocol: how one message or one maintenance pass changes its state, and what
    every run of such steps guarantees about the stored peers. */
module NodeProtocol {
  import opened Bytes
  import opened Addresses
  import opened XorMetric
  import opened Sorting
  import opened Bencode
  import opened CompactInfo
  import opened Krpc
  import B = Buckets
  import N = Nearest
  import T = Tokens
  import S = PeerStore

  /** What does not change: our id and the token digest. */
  datatype Config = Config(nodeId: NodeId, digest: T.Digest)

  datatype State = State(table: seq<B.Bucket>, store: S.Peers, tokens: T.TokenState)

  datatype Outcome = Outcome(state: State, reply: Option<Item>, found: Option<NodeId>)

  function ToDhtNodes(es: seq<B.RoutingEntry>): (r: seq<DhtNode>)
    ensures |r| == |es|
  {
    seq(|es|, i requires 0 <= i < |es| => DhtNode(es[i].id, es[i].addr.ToSocket()))
  }

  function ToSockets(cs: seq<CompactAddr>): (r: seq<SocketAddr>)
    ensures |r| == |cs|
  {
    seq(|cs|, i requires 0 <= i < |cs| => cs[i].ToSocket())
  }

  function ClosestNodes(table: seq<B.Bucket>, target: NodeId): seq<DhtNode> {
    ToDhtNodes(N.Closest(B.IdOf, B.IsHealthy, B.Flat(table), target, 8))
  }

  function ZeroId(): NodeId {
    seq(20, _ => 0)
  }

  /** The answer to a `get_peers` query: a fresh token, and either stored peers or close nodes. */
  function GetPeersReply(cfg: Config, st: State, tid: seq<Byte>, ih: NodeId, from: CompactAddr, now: U32): Item {
    var token := T.Issue(cfg.digest, st.tokens, from);
    var peers := ToSockets(S.GetPeers(st.store, ih, 50, now));
    ResponseItem(GetPeersFields(cfg.nodeId, token, peers, if peers != [] then [] else ClosestNodes(st.table, ih)), tid)
  }

  /** The address an accepted announce stores: the sender's IP, with the port it asked for or, under
      implied_port, the port it sent from. */
  function AnnouncedAddr(from: SocketAddr, p: AnnounceParams): CompactAddr {
    FromSocket(SocketAddr(from.ip, if p.impliedPort then from.port else p.port))
  }

  /** Store the peer and put the sender into the routing table. */
  function Admit(cfg: Config, st: State, p: AnnounceParams, from: SocketAddr, now: U32): State
    requires |st.table| > 0
  {
    var store := S.Announce(st.store, p.infoHash, AnnouncedAddr(from, p), now);
    var table := B.InsertEntry(cfg.nodeId, st.table, B.RoutingEntry(p.id, FromSocket(from), now, 0)).buckets;
    st.(store := store, table := table)
  }

  function HandleAnnounce(cfg: Config, st: State, parsed: Option<(seq<Byte>, AnnounceParams)>, from: SocketAddr,
                          now: U32): Outcome
    requires |st.table| > 0
  {
    match parsed
    case None => Outcome(st, None, None)
    case Some((tid, p)) =>
      var ack := Some(ResponseItem([IdField(cfg.nodeId)], tid));
      if !T.Accepts(cfg.digest, st.tokens, FromSocket(from), p.token) then Outcome(st, ack, Some(p.infoHash))
      else
        Outcome(Admit(cfg, st, p, from, now), ack, Some(p.infoHash))
  }

  function KeySamples(sampled: seq<NodeId>): seq<Byte> {
    if sampled == [] then [] else sampled[0] + KeySamples(sampled[1..])
  }

  /** The queries that only read: what is replied, and which infohash is reported. */
  function Answer(cfg: Config, st: State, q: Query, from: SocketAddr, now: U32, sampled: seq<NodeId>)
    : (Option<Item>, Option<NodeId>)
    requires q.kind != AnnouncePeer
  {
    match q.kind
    case Ping => (Some(ResponseItem([IdField(cfg.nodeId)], q.tid)), None)
    case FindNode =>
      var target := if q.infoHash.Some? then q.infoHash.value else ZeroId();
      (Some(ResponseItem(NodeFields(cfg.nodeId, ClosestNodes(st.table, target)), q.tid)), None)
    case GetPeers =>
      if q.infoHash.None? then (None, None)
      else (Some(GetPeersReply(cfg, st, q.tid, q.infoHash.value, FromSocket(from), now)), q.infoHash)
    case SampleInfohashes =>
      (Some(ResponseItem(SampleFields(cfg.nodeId, 30, |st.store|, KeySamples(sampled)), q.tid)), None)
  }

  /** `handle_message`. The random sample of stored infohashes is an input. */
  function Handle(cfg: Config, st: State, data: seq<Byte>, from: SocketAddr, now: U32, sampled: seq<NodeId>): Outcome
    requires |st.table| > 0
  {
    match ParseQuery(data)
    case None => Outcome(st, None, None)
    case Some(q) =>
      if q.kind == AnnouncePeer then HandleAnnounce(cfg, st, ParseAnnouncePeer(data), from, now)
      else
        var (reply, found) := Answer(cfg, st, q, from, now, sampled);
        Outcome(st, reply, found)
  }

  /** The maintenance branch: clean the table and the store, perhaps rotate the secret. */
  function Maintain(st: State, now: U32, drawn: T.Secret): State {
    State(B.EvictAll(st.table, now), S.Evict(st.store, now), T.Rotate(st.tokens, T.RotateCall(now, drawn)))
  }

  datatype Event =
    | Message(data: seq<Byte>, from: SocketAddr, now: U32, sampled: seq<NodeId>)
    | Maintenance(now: U32, drawn: T.Secret)

  function Step(cfg: Config, st: State, ev: Event): (r: State)
    requires |st.table| > 0
    ensures |r.table| > 0
  {
    match ev
    case Message(data, from, now, sampled) =>
      HandleKeepsTable(cfg, st, data, from, now, sampled);
      Handle(cfg, st, data, from, now, sampled).state
    case Maintenance(now, drawn) => Maintain(st, now, drawn)
  }

  lemma HandleKeepsTable(cfg: Config, st: State, data: seq<Byte>, from: SocketAddr, now: U32, sampled: seq<NodeId>)
    requires |st.table| > 0
    ensures |Handle(cfg, st, data, from, now, sampled).state.table| > 0
  {}

  // ---- bookkeeping of a run ----

  /** A token handed out: to which endpoint, under which secret, at which step, after how many rotations. */
  datatype Grant = Grant(addr: CompactAddr, secret: T.Secret, step: nat, epoch: nat)

  /** A peer stored: for which infohash, under which address, for which sender, when. */
  datatype Stored = Stored(ih: NodeId, peer: CompactAddr, sender: CompactAddr, at: U32, step: nat, epoch: nat)

  /** The state together with what an observer remembers; secrets lists every secret since the start,
      the last one current and the one before it previous. */
  datatype Trace = Trace(st: State, secrets: seq<T.Secret>, grants: set<Grant>, stores: set<Stored>, step: nat)
  {
    function Epoch(): int {
      |secrets| - 2
    }
  }

  function Start(st: State): Trace {
    Trace(st, [st.tokens.previous, st.tokens.current], {}, {}, 0)
  }

  /** Whether a message is a `get_peers` query that gets a token. */
  predicate AsksToken(data: seq<Byte>) {
    var q := ParseQuery(data);
    q.Some? && q.value.kind == GetPeers && q.value.infoHash.Some?
  }

  /** The parameters of a message handled as an announce. */
  function AnnounceIn(data: seq<Byte>): Option<AnnounceParams> {
    var q := ParseQuery(data);
    if q.Some? && q.value.kind == AnnouncePeer && ParseAnnouncePeer(data).Some?
    then Some(ParseAnnouncePeer(data).value.1) else None
  }

  predicate Accepted(cfg: Config, st: State, parsed: Option<(seq<Byte>, AnnounceParams)>, from: SocketAddr) {
    parsed.Some? && T.Accepts(cfg.digest, st.tokens, FromSocket(from), parsed.value.1.token)
  }

  predicate StoresPeer(cfg: Config, st: State, data: seq<Byte>, from: SocketAddr) {
    AnnounceIn(data).Some? && T.Accepts(cfg.digest, st.tokens, FromSocket(from), AnnounceIn(data).value.token)
  }

  /** What an accepted announce is recorded as. */
  function Record(tr: Trace, p: AnnounceParams, from: SocketAddr, now: U32): Stored
    requires |tr.secrets| >= 2
  {
    Stored(p.infoHash, AnnouncedAddr(from, p), FromSocket(from), now, tr.step, tr.Epoch())
  }

  function Observe(cfg: Config, tr: Trace, ev: Event): Trace
    requires |tr.st.table| > 0 && |tr.secrets| >= 2
  {
    var next := Step(cfg, tr.st, ev);
    match ev
    case Message(data, from, now, _) =>
      var sender := FromSocket(from);
      var grants := if AsksToken(data) then tr.grants + {Grant(sender, tr.st.tokens.current, tr.step, tr.Epoch())}
        else tr.grants;
      var stores :=
        if StoresPeer(cfg, tr.st, data, from) then
          tr.stores + {Record(tr, AnnounceIn(data).value, from, now)}
        else tr.stores;
      Trace(next, tr.secrets, grants, stores, tr.step + 1)
    case Maintenance(now, drawn) =>
      var secrets := if T.Due(tr.st.tokens, now) then tr.secrets + [drawn] else tr.secrets;
      Trace(next, secrets, tr.grants, tr.stores, tr.step + 1)
  }

  function Run(cfg: Config, tr: Trace, evs: seq<Event>): Trace
    requires |tr.st.table| > 0 && |tr.secrets| >= 2
    decreases |evs|
  {
    if evs == [] then tr else Run(cfg, Observe(cfg, tr, evs[0]), evs[1..])
  }

  /** The digest does not collide between a token given out and the two tokens valid for the sender. */
  ghost predicate CollisionFree(cfg: Config, tr: Trace, sender: CompactAddr) {
    forall g, s :: g in tr.grants && s in {tr.st.tokens.current, tr.st.tokens.previous} ==>
      cfg.digest(g.addr, g.secret) == cfg.digest(sender, s) ==> g.addr == sender && g.secret == s
  }

  /** The token is one that was given out, to whomever. */
  ghost predicate Issued(cfg: Config, tr: Trace, token: seq<Byte>) {
    exists g :: g in tr.grants && cfg.digest(g.addr, g.secret) == token
  }

  /** The idealisation, for one step: tokens are not guessed, digests do not collide, and a drawn
      secret is new. Any token given out may be replayed by anyone, from any endpoint. */
  ghost predicate IdealStep(cfg: Config, tr: Trace, ev: Event) {
    match ev
    case Message(data, from, _, _) =>
      StoresPeer(cfg, tr.st, data, from) ==>
        Issued(cfg, tr, AnnounceIn(data).value.token) && CollisionFree(cfg, tr, FromSocket(from))
    case Maintenance(_, drawn) => drawn !in tr.secrets
  }

  ghost predicate IdealRun(cfg: Config, tr: Trace, evs: seq<Event>)
    requires |tr.st.table| > 0 && |tr.secrets| >= 2
    decreases |evs|
  {
    evs != [] ==> IdealStep(cfg, tr, evs[0]) && IdealRun(cfg, Observe(cfg, tr, evs[0]), evs[1..])
  }

  // ---- announce safety ----

  /** The promise for one stored peer: its IP is the sender's, and the sender's endpoint had been given
      a token earlier, with at most one rotation in between. */
  ghost predicate Justified(tr: Trace, s: Stored) {
    s.peer.Ip() == s.sender.Ip() &&
    exists g :: g in tr.grants && g.addr == s.sender && g.step < s.step && g.epoch <= s.epoch <= g.epoch + 1
  }

  ghost predicate SecretsOk(tr: Trace) {
    && |tr.secrets| >= 2
    && tr.st.tokens.current == tr.secrets[|tr.secrets| - 1]
    && tr.st.tokens.previous == tr.secrets[|tr.secrets| - 2]
    && forall i, j :: 0 <= i < j < |tr.secrets| ==> tr.secrets[i] != tr.secrets[j]
  }

  ghost predicate GrantsOk(tr: Trace) {
    forall g :: g in tr.grants ==>
      g.step < tr.step && 0 <= g.epoch < |tr.secrets| - 1 && g.secret == tr.secrets[g.epoch + 1]
  }

  /** The entry is the trace of an announce of that address at that time. */
  ghost predicate Recorded(tr: Trace, ih: NodeId, e: S.PeerEntry) {
    exists s :: s in tr.stores && s.ih == ih && s.peer == e.addr && s.at == e.lastSeen
  }

  ghost predicate StoreRecorded(tr: Trace) {
    forall ih, e :: ih in tr.st.store && e in tr.st.store[ih] ==> Recorded(tr, ih, e)
  }

  ghost predicate Safe(tr: Trace) {
    && |tr.st.table| > 0
    && SecretsOk(tr)
    && GrantsOk(tr)
    && StoreRecorded(tr)
    && forall s :: s in tr.stores ==> Justified(tr, s)
  }

  lemma AnnounceMembers(list: seq<S.PeerEntry>, addr: CompactAddr, now: U32)
    ensures forall e :: e in S.AnnounceTo(list, addr, now) ==> e == S.PeerEntry(addr, now) || e in list
  {
    var p := Position(S.HasAddr(addr), list);
    SortMembers(S.LastSeen, list);
    if p < |list| {
      assert S.HasAddr(addr)(list[p]);
    }
  }

  /** An accepted token was granted to this very endpoint, under a secret at most one rotation old. */
  lemma AcceptedWasGranted(cfg: Config, tr: Trace, data: seq<Byte>, from: SocketAddr, now: U32, sampled: seq<NodeId>)
    returns (g: Grant)
    requires SecretsOk(tr) && GrantsOk(tr)
    requires IdealStep(cfg, tr, Message(data, from, now, sampled)) && StoresPeer(cfg, tr.st, data, from)
    ensures g in tr.grants && g.addr == FromSocket(from) && g.step < tr.step
    ensures g.epoch <= tr.Epoch() <= g.epoch + 1
  {
    var token, sender := AnnounceIn(data).value.token, FromSocket(from);
    g :| g in tr.grants && cfg.digest(g.addr, g.secret) == token;
    var s := if token == cfg.digest(sender, tr.st.tokens.current) then tr.st.tokens.current else tr.st.tokens.previous;
    assert s in {tr.st.tokens.current, tr.st.tokens.previous};
    assert g.secret == tr.secrets[g.epoch + 1];
  }

  lemma JustifiedPersists(tr: Trace, next: Trace, s: Stored)
    requires Justified(tr, s) && tr.grants <= next.grants
    ensures Justified(next, s)
  {}

  /** Exactly the accepted announces write; every other message leaves the whole state alone. */
  lemma OnlyAcceptedAnnouncesWrite(cfg: Config, st: State, data: seq<Byte>, from: SocketAddr, now: U32,
                                   sampled: seq<NodeId>)
    requires |st.table| > 0
    ensures var next := Handle(cfg, st, data, from, now, sampled).state;
      if StoresPeer(cfg, st, data, from) then
        var p := AnnounceIn(data).value;
        next.tokens == st.tokens && next.store == S.Announce(st.store, p.infoHash, AnnouncedAddr(from, p), now)
      else next == st
  {}

  lemma SecretsStay(tr: Trace, next: Trace)
    requires SecretsOk(tr) && next.secrets == tr.secrets && next.st.tokens == tr.st.tokens
    ensures SecretsOk(next)
  {}

  lemma GrantsGrow(tr: Trace, next: Trace, g: Grant)
    requires |tr.secrets| >= 2 && GrantsOk(tr) && next.secrets == tr.secrets && next.step == tr.step + 1
    requires next.grants == tr.grants || next.grants == tr.grants + {g}
    requires g.step == tr.step && g.epoch == tr.Epoch() && g.secret == tr.secrets[|tr.secrets| - 1]
    ensures GrantsOk(next) && tr.grants <= next.grants
  {}

  lemma TokensAreOnlyRead(cfg: Config, st: State, data: seq<Byte>, from: SocketAddr, now: U32, sampled: seq<NodeId>)
    requires |st.table| > 0
    ensures Handle(cfg, st, data, from, now, sampled).state.tokens == st.tokens
  {
    OnlyAcceptedAnnouncesWrite(cfg, st, data, from, now, sampled);
    hide Handle;
  }

  lemma BooksStayInOrder(cfg: Config, tr: Trace, data: seq<Byte>, from: SocketAddr, now: U32, sampled: seq<NodeId>)
    requires |tr.st.table| > 0 && SecretsOk(tr) && GrantsOk(tr)
    ensures var next := Observe(cfg, tr, Message(data, from, now, sampled));
      SecretsOk(next) && GrantsOk(next) && |next.st.table| > 0 && tr.grants <= next.grants
  {
    TokensAreOnlyRead(cfg, tr.st, data, from, now, sampled);
    HandleKeepsTable(cfg, tr.st, data, from, now, sampled);
    hide Handle, S.Announce, AnnouncedAddr, StoresPeer, AsksToken, AnnounceIn, GrantsOk, FromSocket, T.Due, Maintain,
      Record;
    var next := Observe(cfg, tr, Message(data, from, now, sampled));
    SecretsStay(tr, next);
    GrantsGrow(tr, next, Grant(FromSocket(from), tr.st.tokens.current, tr.step, tr.Epoch()));
  }

  lemma MessageKeepsSafe(cfg: Config, tr: Trace, data: seq<Byte>, from: SocketAddr, now: U32, sampled: seq<NodeId>)
    requires Safe(tr) && IdealStep(cfg, tr, Message(data, from, now, sampled))
    ensures Safe(Observe(cfg, tr, Message(data, from, now, sampled)))
  {
    var next := Observe(cfg, tr, Message(data, from, now, sampled));
    BooksStayInOrder(cfg, tr, data, from, now, sampled);
    forall s | s in next.stores
      ensures Justified(next, s)
    {
      if s in tr.stores {
        JustifiedPersists(tr, next, s);
      } else {
        NewStoreJustified(cfg, tr, data, from, now, sampled);
        JustifiedPersists(tr, next, s);
      }
    }
    StoreStaysRecorded(cfg, tr, data, from, now, sampled);
  }

  lemma NewStoreJustified(cfg: Config, tr: Trace, data: seq<Byte>, from: SocketAddr, now: U32, sampled: seq<NodeId>)
    requires SecretsOk(tr) && GrantsOk(tr)
    requires IdealStep(cfg, tr, Message(data, from, now, sampled)) && StoresPeer(cfg, tr.st, data, from)
    ensures Justified(tr, Record(tr, AnnounceIn(data).value, from, now))
  {
    hide ParseQuery, ParseAnnouncePeer;
    var g := AcceptedWasGranted(cfg, tr, data, from, now, sampled);
    AnnouncedIp(from, AnnounceIn(data).value);
  }

  lemma AnnouncedIp(from: SocketAddr, p: AnnounceParams)
    ensures AnnouncedAddr(from, p).Ip() == FromSocket(from).Ip()
  {}

  lemma StoreStaysRecorded(cfg: Config, tr: Trace, data: seq<Byte>, from: SocketAddr, now: U32, sampled: seq<NodeId>)
    requires Safe(tr)
    ensures StoreRecorded(Observe(cfg, tr, Message(data, from, now, sampled)))
  {
    var next := Observe(cfg, tr, Message(data, from, now, sampled));
    OnlyAcceptedAnnouncesWrite(cfg, tr.st, data, from, now, sampled);
    forall ih, e | ih in next.st.store && e in next.st.store[ih]
      ensures Recorded(next, ih, e)
    {
      if StoresPeer(cfg, tr.st, data, from) {
        var p := AnnounceIn(data).value;
        assert Record(tr, p, from, now) in next.stores;
        AnnounceMembers(S.ListOf(tr.st.store, p.infoHash), AnnouncedAddr(from, p), now);
        if ih != p.infoHash || e != S.PeerEntry(AnnouncedAddr(from, p), now) {
          assert e in S.ListOf(tr.st.store, ih);
          assert Recorded(tr, ih, e);
        }
      } else {
        assert next.st.store == tr.st.store;
        assert Recorded(tr, ih, e);
      }
    }
  }

  lemma MaintenanceKeepsSafe(cfg: Config, tr: Trace, now: U32, drawn: T.Secret)
    requires Safe(tr) && IdealStep(cfg, tr, Maintenance(now, drawn))
    ensures Safe(Observe(cfg, tr, Maintenance(now, drawn)))
  {
    var next := Observe(cfg, tr, Maintenance(now, drawn));
    forall s | s in next.stores
      ensures Justified(next, s)
    {
      JustifiedPersists(tr, next, s);
    }
    forall ih, e | ih in next.st.store && e in next.st.store[ih]
      ensures Recorded(next, ih, e)
    {
      assert e in tr.st.store[ih];
      assert Recorded(tr, ih, e);
    }
  }

  lemma {:induction false} RunKeepsSafe(cfg: Config, tr: Trace, evs: seq<Event>)
    requires Safe(tr) && IdealRun(cfg, tr, evs)
    ensures Safe(Run(cfg, tr, evs))
    decreases |evs|
  {
    if evs == [] {
    } else {
      match evs[0] {
        case Message(data, from, now, sampled) => MessageKeepsSafe(cfg, tr, data, from, now, sampled);
        case Maintenance(now, drawn) => MaintenanceKeepsSafe(cfg, tr, now, drawn);
      }
      RunKeepsSafe(cfg, Observe(cfg, tr, evs[0]), evs[1..]);
    }
  }

  /** Announce safety over every run from an empty store: each stored peer was last seen when it was
      announced by a sender with the same IP, to whose endpoint an earlier `get_peers` reply had issued a
      token, with at most one secret rotation between that reply and the announce. */
  lemma AnnounceSafety(cfg: Config, st: State, evs: seq<Event>, ih: NodeId, e: S.PeerEntry)
    requires |st.table| > 0 && st.store == map[] && st.tokens.current != st.tokens.previous
    requires IdealRun(cfg, Start(st), evs)
    requires var end := Run(cfg, Start(st), evs);
      ih in end.st.store && e in end.st.store[ih]
    ensures var end := Run(cfg, Start(st), evs);
      exists s, g :: s in end.stores && s.ih == ih && s.peer == e.addr && s.at == e.lastSeen &&
        s.sender.Ip() == e.addr.Ip() &&
        g in end.grants && g.addr == s.sender && g.step < s.step && g.epoch <= s.epoch <= g.epoch + 1
  {
    RunKeepsSafe(cfg, Start(st), evs);
    var end := Run(cfg, Start(st), evs);
    assert Recorded(end, ih, e);
    var s :| s in end.stores && s.ih == ih && s.peer == e.addr && s.at == e.lastSeen;
    assert Justified(end, s);
    var g :| g in end.grants && g.addr == s.sender && g.step < s.step && g.epoch <= s.epoch <= g.epoch + 1;
  }

  /** What a querier is told is recent: every peer a reply lists was announced, under a token granted to its
      sender, at most 1800 seconds before. */
  lemma ListedPeersAreRecent(cfg: Config, st: State, evs: seq<Event>, ih: NodeId, peer: CompactAddr, limit: nat,
                             now: U32)
    requires |st.table| > 0 && st.store == map[] && st.tokens.current != st.tokens.previous
    requires IdealRun(cfg, Start(st), evs)
    requires peer in S.GetPeers(Run(cfg, Start(st), evs).st.store, ih, limit, now)
    ensures var end := Run(cfg, Start(st), evs);
      exists s, g :: s in end.stores && s.ih == ih && s.peer == peer && now <= s.at + S.PEER_TTL_SECS &&
        s.sender.Ip() == peer.Ip() &&
        g in end.grants && g.addr == s.sender && g.step < s.step && g.epoch <= s.epoch <= g.epoch + 1
  {
    var end := Run(cfg, Start(st), evs);
    var list := S.ListOf(end.st.store, ih);
    var live := Filter(S.Live(now), list);
    hide Run, IdealRun;
    var i :| 0 <= i < |Take(limit, live)| && S.Addrs(Take(limit, live))[i] == peer;
    var e := Take(limit, live)[i];
    assert e == live[i] && e in live;
    assert S.Live(now)(e);
    AnnounceSafety(cfg, st, evs, ih, e);
  }

  // ---- the two-step announce, over the wire ----

  function Walk(cfg: Config, st: State, evs: seq<Event>): (r: State)
    requires |st.table| > 0
    ensures |r.table| > 0
    decreases |evs|
  {
    if evs == [] then st else Walk(cfg, Step(cfg, st, evs[0]), evs[1..])
  }

  /** The calls of `maybe_rotate` a run makes. */
  function RotateCalls(evs: seq<Event>): seq<T.RotateCall> {
    if evs == [] then []
    else
      (match evs[0]
       case Maintenance(now, drawn) => [T.RotateCall(now, drawn)]
       case Message(_, _, _, _) => []) + RotateCalls(evs[1..])
  }

  lemma {:induction false} TokensFollowMaintenance(cfg: Config, st: State, evs: seq<Event>)
    requires |st.table| > 0
    ensures Walk(cfg, st, evs).tokens == T.Run(st.tokens, RotateCalls(evs))
    decreases |evs|
  {
    if evs == [] {
    } else {
      var next := Step(cfg, st, evs[0]);
      TokensFollowMaintenance(cfg, next, evs[1..]);
      match evs[0] {
        case Message(data, from, now, sampled) =>
          OnlyAcceptedAnnouncesWrite(cfg, st, data, from, now, sampled);
          assert RotateCalls(evs) == RotateCalls(evs[1..]);
        case Maintenance(now, drawn) =>
          var calls := RotateCalls(evs);
          assert calls[0] == T.RotateCall(now, drawn) && calls[1..] == RotateCalls(evs[1..]);
      }
    }
  }

  function GetPeersQuery(tid: seq<Byte>, id: NodeId, ih: NodeId): seq<Byte> {
    Encode(QueryItem([IdField(id), StrField("info_hash", ih)], MethodName(GetPeers), tid))
  }

  function AnnounceQuery(tid: seq<Byte>, id: NodeId, ih: NodeId, port: Port, token: seq<Byte>): seq<Byte> {
    Encode(QueryItem(AnnounceArgs(id, ih, port, token), MethodName(AnnouncePeer), tid))
  }

  /** The reply to a `get_peers` query carries, as bytes, the token for the asking endpoint. */
  lemma ReplyCarriesToken(cfg: Config, st: State, tid: seq<Byte>, id: NodeId, ih: NodeId, from: SocketAddr, now: U32,
                          sampled: seq<NodeId>)
    requires |st.table| > 0
    ensures var r := Handle(cfg, st, GetPeersQuery(tid, id, ih), from, now, sampled);
      r.state == st && r.found == Some(ih) && r.reply.Some? &&
      var p := ParseGetPeersResponse(Encode(r.reply.value));
      p.Some? && p.value.1.nodeId == cfg.nodeId && 
      p.value.1.token == Some(T.Issue(cfg.digest, st.tokens, FromSocket(from)))
  {
    GetPeersQueryRoundTrip(tid, id, ih);
    var token := T.Issue(cfg.digest, st.tokens, FromSocket(from));
    var peers := ToSockets(S.GetPeers(st.store, ih, 50, now));
    GetPeersResponseRoundTrip(tid, cfg.nodeId, token, peers, if peers != [] then [] else ClosestNodes(st.table, ih));
  }

  /** What the querier reads out of a reply: stored peers, or else the ids and addresses that answer an
      exact nearest-8 query over the routing table, provided those are IPv4. */
  lemma ReplyCarriesAnswer(cfg: Config, st: State, tid: seq<Byte>, id: NodeId, ih: NodeId, from: SocketAddr, now: U32,
                           sampled: seq<NodeId>)
    requires |st.table| > 0
    ensures var r := Handle(cfg, st, GetPeersQuery(tid, id, ih), from, now, sampled);
      r.reply.Some? &&
      var p := ParseGetPeersResponse(Encode(r.reply.value));
      p.Some? &&
      var peers, near := ToSockets(S.GetPeers(st.store, ih, 50, now)),
        N.Closest(B.IdOf, B.IsHealthy, B.Flat(st.table), ih, 8);
      N.KNearest(B.IdOf, B.IsHealthy, B.Flat(st.table), ih, 8, near) &&
      p.value.1.values == Reachable(peers) &&
      (peers != [] ==> p.value.1.nodes == []) &&
      (peers == [] ==> (p.value.1.nodes == ToDhtNodes(near) <==> forall n :: n in ToDhtNodes(near) ==> IsV4(n.addr)))
  {
    GetPeersQueryRoundTrip(tid, id, ih);
    var token := T.Issue(cfg.digest, st.tokens, FromSocket(from));
    var peers := ToSockets(S.GetPeers(st.store, ih, 50, now));
    GetPeersResponseRoundTrip(tid, cfg.nodeId, token, peers, if peers != [] then [] else ClosestNodes(st.table, ih));
    N.ClosestIsKNearest(B.IdOf, B.IsHealthy, B.Flat(st.table), ih, 8);
  }

  lemma AnnouncedIsStored(list: seq<S.PeerEntry>, addr: CompactAddr, now: U32)
    ensures exists e :: e in S.AnnounceTo(list, addr, now) && e.addr == addr && e.lastSeen == now
  {
    var r := S.AnnounceTo(list, addr, now);
    var p := Position(S.HasAddr(addr), list);
    if p < |list| {
      assert S.HasAddr(addr)(list[p]);
      assert r[p] in r;
    } else {
      assert r[|r| - 1] in r;
    }
  }

  /** The two-step announce works end to end: whoever reads the token out of the reply to its
      `get_peers` query and announces with it from the same endpoint less than 300 seconds later is
      stored under its IP and announced port, whatever messages and maintenance happen in between. */
  lemma AnnounceAfterGetPeers(cfg: Config, st: State, evs: seq<Event>, from: SocketAddr, id: NodeId, ih: NodeId,
                              port: Port,
                              tid: seq<Byte>, tid2: seq<Byte>, asked: U32, announced: U32, token: seq<Byte>,
                                s1: seq<NodeId>, s2: seq<NodeId>)
    requires |st.table| > 0 && st.tokens.lastRotation <= asked
    requires T.InOrder(asked, RotateCalls(evs)) &&
      T.Until(asked, RotateCalls(evs)) <= announced < asked + T.SECRET_ROTATION_INTERVAL
    requires var r := Handle(cfg, st, GetPeersQuery(tid, id, ih), from, asked, s1);
      r.reply.Some? &&
      var p := ParseGetPeersResponse(Encode(r.reply.value)); p.Some? && p.value.1.token == Some(token)
    ensures var after := Handle(cfg, Walk(cfg, st, evs), AnnounceQuery(tid2, id, ih, port, token), from, announced,
      s2).state;
      exists e :: e in S.ListOf(after.store, ih) && e.addr == FromSocket(SocketAddr(from.ip, port)) &&
        e.lastSeen == announced
  {
    ReplyCarriesToken(cfg, st, tid, id, ih, from, asked, s1);
    TokensFollowMaintenance(cfg, st, evs);
    T.TokenLivesThreeHundredSeconds(cfg.digest, st.tokens, RotateCalls(evs), FromSocket(from), asked);
    AnnounceRoundTrip(tid2, id, ih, port, token);
    var mid := Walk(cfg, st, evs);
    OnlyAcceptedAnnouncesWrite(cfg, mid, AnnounceQuery(tid2, id, ih, port, token), from, announced, s2);
    AnnouncedIsStored(S.ListOf(mid.store, ih), FromSocket(SocketAddr(from.ip, port)), announced);
  }

  /** `parse_query` reads only info_hash, so a `find_node` query is answered with the nodes nearest to the
      info_hash among its arguments, else to the zero id, whatever target it names. */
  lemma FindNodeAnswer(cfg: Config, st: State, tid: seq<Byte>, args: seq<Entry>, from: SocketAddr, now: U32,
                       sampled: seq<NodeId>)
    requires |st.table| > 0
    ensures var near := if InfoHashOf(Some(args)).Some? then InfoHashOf(Some(args)).value else ZeroId();
      Handle(cfg, st, Encode(QueryItem(args, MethodName(FindNode), tid)), from, now, sampled).reply
         == Some(ResponseItem(NodeFields(cfg.nodeId, ClosestNodes(st.table, near)), tid))
  {
    QueryRoundTrip(args, FindNode, tid);
  }

  /** In particular the query this project builds, with id and target, is answered for the zero id. */
  lemma FindNodeIgnoresTarget(cfg: Config, st: State, tid: seq<Byte>, id: NodeId, target: NodeId, from: SocketAddr,
                              now: U32, sampled: seq<NodeId>)
    requires |st.table| > 0
    ensures Handle(cfg, st, Encode(QueryItem(TargetArgs(id, target), MethodName(FindNode), tid)), from, now,
      sampled).reply
         == Some(ResponseItem(NodeFields(cfg.nodeId, ClosestNodes(st.table, ZeroId())), tid))
  {
    hide Handle, Encode, Lookup, ClosestNodes, NodeFields;
    var args := TargetArgs(id, target);
    FindNodeAnswer(cfg, st, tid, args, from, now, sampled);
    assert |Text("id")| == 2 && |Text("target")| == 6 && |Text("info_hash")| == 9;
    LookupMisses(args, Text("info_hash"));
  }

  /** Two nodes, with the zero id and with the target as ids. */
  function TwoNodes(target: NodeId): seq<B.Bucket> {
    [B.Bucket(0, [B.RoutingEntry(ZeroId(), V4([1, 0, 0, 0, 0, 1]), 0, 0),
      B.RoutingEntry(target, V4([2, 0, 0, 0, 0, 1]), 0, 0)])]
  }

  lemma NodeItselfIsNearest(table: seq<B.Bucket>, e: B.RoutingEntry)
    requires e in B.Flat(table) && e.Healthy()
    ensures ClosestNodes(table, e.id) != [] && ClosestNodes(table, e.id)[0].id == e.id
  {
    var near := N.Closest(B.IdOf, B.IsHealthy, B.Flat(table), e.id, 8);
    N.ClosestIsKNearest(B.IdOf, B.IsHealthy, B.Flat(table), e.id, 8);
    assert B.IsHealthy(e);
    N.FirstIsNearest(B.IdOf, B.IsHealthy, B.Flat(table), e.id, 8, near, e);
    ZeroDistance(e.id, e.id);
    ZeroDistance(near[0].id, e.id);
  }

  lemma TwoNodesTellApart(target: NodeId)
    ensures B.TableOk(TwoNodes(target))
    ensures target != ZeroId() ==> ClosestNodes(TwoNodes(target), ZeroId()) != ClosestNodes(TwoNodes(target), target)
  {
    var table := TwoNodes(target);
    var es := table[0].entries;
    assert table[1..] == [] && B.Flat(table) == es + [];
    assert es[0] in B.Flat(table) && es[1] in B.Flat(table);
    NodeItselfIsNearest(table, es[0]);
    NodeItselfIsNearest(table, es[1]);
  }

  /** So a `find_node` answer lists the nodes nearest to its target, whatever the table, exactly when the target
      is the zero id; at every other target a table of two nodes is answered wrongly. */
  lemma FindNodeAnswersTargetExactly(target: NodeId)
    ensures (forall table :: B.TableOk(table) ==> ClosestNodes(table, ZeroId()) == ClosestNodes(table, target))
       <==> target == ZeroId()
    ensures target != ZeroId() ==>
      B.TableOk(TwoNodes(target)) && ClosestNodes(TwoNodes(target), ZeroId()) != ClosestNodes(TwoNodes(target), target)
  {
    hide ClosestNodes, B.TableOk, TwoNodes;
    TwoNodesTellApart(target);
  }
}
