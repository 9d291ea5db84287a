/** The iterative Kademlia lookup of the DHT discoverer, against any network. */
module Lookup {
  import opened Bytes
  import opened Addresses
  import opened XorMetric
  import opened Sorting
  import opened NodeIdSecurity
  import opened CompactInfo
  import B = Buckets
  import R = RoutingTable
  import N = Nearest
  import T = TopK

  /** What became of one query, and when. A worker that dies reports nothing at all. The workers of a round share one
      socket, and each takes the next datagram for the answer to its own query: nothing reads its sender. */
  datatype Reply =
    | Replied(sender: SocketAddr, peers: seq<SocketAddr>, nodes: seq<DhtNode>, responderId: NodeId, at: U32)
    | Failed
    | Lost

  /** What the i-th query of a round takes for its reply: anything the network pleases, from anyone. */
  type Network = (nat, nat) -> Reply

  datatype Params = Params(own: NodeId, bep42: bool, concurrency: nat, target: NodeId)

  // ---- one round, on values ----

  function Unasked(asked: set<SocketAddr>): B.RoutingEntry -> bool {
    (e: B.RoutingEntry) => e.addr.ToSocket() !in asked
  }

  /** The nodes a round asks: of the 20 nearest healthy ones, the first not asked before. */
  function Plan(p: Params, table: seq<B.Bucket>, asked: set<SocketAddr>): (r: seq<B.RoutingEntry>)
    ensures |r| <= p.concurrency
  {
    var candidates := N.Closest(B.IdOf, B.IsHealthy, B.Flat(table), p.target, 20);
    Take(p.concurrency, Filter(Unasked(asked), candidates))
  }

  lemma TakeMembers<T(!new)>(n: nat, s: seq<T>)
    ensures forall x :: x in Take(n, s) ==> x in s
  {}

  lemma PlanIsUnasked(p: Params, table: seq<B.Bucket>, asked: set<SocketAddr>)
    ensures Sockets(Plan(p, table, asked)) !! asked
  {
    var candidates := N.Closest(B.IdOf, B.IsHealthy, B.Flat(table), p.target, 20);
    TakeMembers(p.concurrency, Filter(Unasked(asked), candidates));
    forall e | e in Plan(p, table, asked)
      ensures e.addr.ToSocket() !in asked
    {
      assert Unasked(asked)(e);
    }
  }

  function Sockets(es: seq<B.RoutingEntry>): set<SocketAddr> {
    set e | e in es :: e.addr.ToSocket()
  }

  function Closer(p: Params, id: NodeId, closest: NodeId): NodeId {
    if Distance(id, p.target) < Value(closest) then Xor(id, p.target) else closest
  }

  /** `add_node`: under BEP 42 only ids that fit the address are let in. */
  function Admit(p: Params, table: seq<B.Bucket>, node: DhtNode, now: U32): (r: seq<B.Bucket>)
    requires |table| > 0
    ensures |r| > 0
  {
    if p.bep42 && !Accepted(node.id, FromSocket(node.addr)) then table
    else Inserted(p, table, node.id, FromSocket(node.addr), now)
  }

  function Inserted(p: Params, table: seq<B.Bucket>, id: NodeId, addr: CompactAddr, now: U32): (r: seq<B.Bucket>)
    requires |table| > 0
    ensures |r| > 0
  {
    B.InsertEntry(p.own, table, B.RoutingEntry(id, addr, now, 0)).buckets
  }

  function AdmitAll(p: Params, table: seq<B.Bucket>, asked: set<SocketAddr>, nodes: seq<DhtNode>,
                    now: U32): (r: seq<B.Bucket>)
    requires |table| > 0
    ensures |r| > 0
    decreases |nodes|
  {
    if nodes == [] then table
    else
      var n := |nodes| - 1;
      var before := AdmitAll(p, table, asked, nodes[..n], now);
      if nodes[n].addr in asked then before else Admit(p, before, nodes[n], now)
  }

  /** What `init` does with the resolved bootstrap addresses, each under a random id: insert them, unchecked. */
  function Bootstrapped(own: NodeId, table: seq<B.Bucket>, nodes: seq<DhtNode>, now: U32): (r: seq<B.Bucket>)
    requires |table| > 0
    ensures |r| > 0
    decreases |nodes|
  {
    if nodes == [] then table
    else
      var n := |nodes| - 1;
      B.InsertEntry(own, Bootstrapped(own, table, nodes[..n], now),
                    B.RoutingEntry(nodes[n].id, FromSocket(nodes[n].addr), now, 0)).buckets
  }

  lemma NobodyResolved(own: NodeId, table: seq<B.Bucket>, now: U32)
    requires |table| > 0
    ensures Bootstrapped(own, table, [], now) == table
  {}

  lemma OneMoreResolved(own: NodeId, table: seq<B.Bucket>, nodes: seq<DhtNode>, k: nat, now: U32)
    requires |table| > 0 && k < |nodes|
    ensures Bootstrapped(own, table, nodes[..k + 1], now) ==
      B.InsertEntry(own, Bootstrapped(own, table, nodes[..k], now),
                    B.RoutingEntry(nodes[k].id, FromSocket(nodes[k].addr), now, 0)).buckets
  {
    hide B.InsertEntry;
    assert nodes[..k + 1][..k] == nodes[..k];
  }

  /** `mark_node_success`: touch the entry, or insert the responder, unchecked, when there is none. */
  function Succeeded(p: Params, table: seq<B.Bucket>, addr: CompactAddr, id: NodeId, now: U32): (r: seq<B.Bucket>)
    requires |table| > 0
    ensures |r| > 0
  {
    if Position(B.HoldsAddr(addr), table) < |table| then B.AtFirstHolder(table, addr, B.Touching(addr, now))
    else Inserted(p, table, id, addr, now)
  }

  function AfterReply(p: Params, table: seq<B.Bucket>, asked: set<SocketAddr>, addr: CompactAddr,
                      reply: Reply): (r: seq<B.Bucket>)
    requires |table| > 0
    ensures |r| > 0
  {
    match reply
    case Replied(_, _, nodes, id, at) => Succeeded(p, AdmitAll(p, table, asked, nodes, at), addr, id, at)
    case Failed => B.AtFirstHolder(table, addr, B.Failing(addr))
    case Lost => table
  }

  /** The table after the replies to a round's first k queries. */
  function AfterReplies(p: Params, table: seq<B.Bucket>, asked: set<SocketAddr>, queried: seq<B.RoutingEntry>,
                        round: nat, k: nat, net: Network): (r: seq<B.Bucket>)
    requires |table| > 0 && k <= |queried|
    ensures |r| > 0
  {
    if k == 0 then table
    else AfterReply(p, AfterReplies(p, table, asked, queried, round, k - 1, net), asked, queried[k - 1].addr,
      net(round, k - 1))
  }

  function PeersIn(reply: Reply): set<SocketAddr> {
    match reply
    case Replied(_, peers, _, _, _) => set a | a in peers
    case Failed => {}
    case Lost => {}
  }

  function ReportedIn(round: nat, k: nat, net: Network): set<SocketAddr> {
    if k == 0 then {} else ReportedIn(round, k - 1, net) + PeersIn(net(round, k - 1))
  }

  // ---- the rounds of a lookup ----

  /** One round: the table it started from, the nodes asked, and the closest distance so far. */
  datatype Round = Round(table: seq<B.Bucket>, queried: seq<B.RoutingEntry>, closest: NodeId)

  function FarthestId(): NodeId {
    seq(20, _ => 255)
  }

  function ClosestSoFar(log: seq<Round>): NodeId {
    if log == [] then FarthestId() else log[|log| - 1].closest
  }

  function Asked(log: seq<Round>): set<SocketAddr> {
    if log == [] then {} else Asked(log[..|log| - 1]) + Sockets(log[|log| - 1].queried)
  }

  function Reported(log: seq<Round>, net: Network): set<SocketAddr> {
    if log == [] then {} else Reported(log[..|log| - 1], net) + ReportedIn(|log| - 1, |log[|log| - 1].queried|, net)
  }

  /** How many rounds in a row, up to the last, brought no closer node. */
  function Stalls(log: seq<Round>): nat {
    if log == [] then 0
    else
      var front := log[..|log| - 1];
      if Value(ClosestSoFar(log)) < Value(ClosestSoFar(front)) then 0 else Stalls(front) + 1
  }

  function TableAfter(p: Params, start: seq<B.Bucket>, log: seq<Round>, net: Network): seq<B.Bucket> {
    if log == [] then start
    else
      var r := log[|log| - 1];
      if r.table == [] then [] else AfterReplies(p, r.table, Asked(log), r.queried, |log| - 1, |r.queried|, net)
  }

  /** The rounds follow the lookup's rules from the start table. */
  ghost predicate Follows(p: Params, start: seq<B.Bucket>, log: seq<Round>, net: Network) {
    log != [] ==>
      var front, r := log[..|log| - 1], log[|log| - 1];
      && Follows(p, start, front, net)
      && r.table == TableAfter(p, start, front, net) && r.table != []
      && r.queried == Plan(p, r.table, Asked(front)) && r.queried != []
      && r.closest == Closer(p, r.queried[0].id, ClosestSoFar(front))
      && Stalls(log) < 2
  }

  /** No round but the last reported enough peers. */
  ghost predicate ShortOf(log: seq<Round>, net: Network, limit: nat) {
    forall i :: 0 < i < |log| ==> |Reported(log[..i], net)| < limit
  }

  /** Whether one more round may be appended. */
  ghost predicate NextRound(p: Params, start: seq<B.Bucket>, log: seq<Round>, net: Network, r: Round) {
    && r.table == TableAfter(p, start, log, net) && r.table != []
    && r.queried == Plan(p, r.table, Asked(log)) && r.queried != []
    && r.closest == Closer(p, r.queried[0].id, ClosestSoFar(log))
    && (Stalls(log) == 0 || Value(r.closest) < Value(ClosestSoFar(log)))
  }

  lemma AppendRound(p: Params, start: seq<B.Bucket>, log: seq<Round>, net: Network, r: Round)
    requires Follows(p, start, log, net) && NextRound(p, start, log, net, r)
    ensures var all := log + [r];
      Follows(p, start, all, net) &&
      ClosestSoFar(all) == r.closest && Asked(all) == Asked(log) + Sockets(r.queried) &&
      Stalls(all) == (if Value(r.closest) < Value(ClosestSoFar(log)) then 0 else Stalls(log) + 1) &&
      Reported(all, net) == Reported(log, net) + ReportedIn(|log|, |r.queried|, net) &&
      TableAfter(p, start, all, net) == AfterReplies(p, r.table, Asked(all), r.queried, |log|, |r.queried|, net)
  {
    hide Value, AfterReplies, Plan, Closer, ReportedIn, Sockets;
    var all := log + [r];
    assert all[..|all| - 1] == log;
  }

  // ---- what every lookup keeps ----

  /** What the rules amount to, whatever the tables were: new addresses only, few of them, never farther,
      and never two stalled rounds. */
  ghost predicate Disciplined(concurrency: nat, log: seq<Round>) {
    log != [] ==>
      var front, r := log[..|log| - 1], log[|log| - 1];
      && Disciplined(concurrency, front)
      && 0 < |r.queried| <= concurrency
      && Sockets(r.queried) !! Asked(front)
      && Value(r.closest) <= Value(ClosestSoFar(front))
      && Stalls(log) < 2
  }

  lemma {:induction false} FollowsIsDisciplined(p: Params, start: seq<B.Bucket>, log: seq<Round>, net: Network)
    requires Follows(p, start, log, net)
    ensures Disciplined(p.concurrency, log)
  {
    hide Plan, Closer, Asked, Sockets, TableAfter, Stalls;
    if log == [] {
    } else {
      var front, r := log[..|log| - 1], log[|log| - 1];
      FollowsIsDisciplined(p, start, front, net);
      PlanIsUnasked(p, r.table, Asked(front));
      CloserIs(p, r.queried[0].id, ClosestSoFar(front));
    }
  }

  lemma {:induction false} AskedContains(log: seq<Round>, i: nat)
    requires i < |log|
    ensures Sockets(log[i].queried) <= Asked(log)
  {
    if i < |log| - 1 {
      AskedContains(log[..|log| - 1], i);
    }
  }

  /** No address is asked in two different rounds. */
  lemma {:induction false} NeverAskedAgain(concurrency: nat, log: seq<Round>, i: nat, j: nat)
    requires Disciplined(concurrency, log) && i < j < |log|
    ensures Sockets(log[i].queried) !! Sockets(log[j].queried)
  {
    var front := log[..|log| - 1];
    if j < |log| - 1 {
      NeverAskedAgain(concurrency, front, i, j);
    } else {
      AskedContains(front, i);
    }
  }

  function QueryCount(log: seq<Round>): nat {
    if log == [] then 0 else QueryCount(log[..|log| - 1]) + |log[|log| - 1].queried|
  }

  lemma {:induction false} QueriesBounded(concurrency: nat, log: seq<Round>)
    requires Disciplined(concurrency, log)
    ensures |log| <= QueryCount(log) <= concurrency * |log|
  {
    if log == [] {
    } else {
      QueriesBounded(concurrency, log[..|log| - 1]);
      OneMoreRound(concurrency, |log|);
    }
  }

  lemma OneMoreRound(c: nat, n: nat)
    requires n > 0
    ensures c * n == c * (n - 1) + c
  {}

  /** Of any two consecutive rounds after a round, at least one got strictly closer. */
  lemma {:induction false} TwoRoundsImprove(concurrency: nat, log: seq<Round>, i: nat)
    requires Disciplined(concurrency, log) && i + 2 < |log|
    ensures Value(log[i + 2].closest) < Value(log[i].closest)
  {
    hide Value, Asked, Sockets;
    var front := log[..|log| - 1];
    if i + 2 < |log| - 1 {
      TwoRoundsImprove(concurrency, front, i);
    } else {
      var older := front[..|front| - 1];
      assert older[|older| - 1] == log[i];
    }
  }

  /** The lookup ends by itself, without its round limit and whatever the network answers: each round
      uses up part of a finite budget. */
  lemma {:induction false} RoundsAreFinite(concurrency: nat, log: seq<Round>)
    requires Disciplined(concurrency, log)
    ensures |log| + 2 * Value(ClosestSoFar(log)) <= 2 * Value(FarthestId()) + Stalls(log)
    ensures |log| <= 2 * Value(FarthestId()) + 1
  {
    hide Value, Asked, Sockets;
    if log == [] {
    } else {
      RoundsAreFinite(concurrency, log[..|log| - 1]);
    }
  }

  /** Some query of the lookup took a datagram with this peer for its reply. */
  ghost predicate ToldOf(log: seq<Round>, net: Network, peer: SocketAddr) {
    exists i, k :: 0 <= i < |log| && 0 <= k < |log[i].queried| && net(i, k).Replied? && peer in net(i, k).peers
  }

  /** The peers found are exactly those in the datagrams that the queries of the lookup took for their replies. */
  lemma {:induction false} PeersComeFromReplies(log: seq<Round>, net: Network, peer: SocketAddr)
    ensures peer in Reported(log, net) <==> ToldOf(log, net, peer)
  {
    if log == [] {
    } else {
      var last := |log| - 1;
      var front := log[..last];
      PeersComeFromReplies(front, net, peer);
      ReportedInRound(last, |log[last].queried|, net, peer);
      hide ReportedIn, Reported;
      if ToldOf(front, net, peer) {
        var i, k :| 0 <= i < |front| && 0 <= k < |front[i].queried| && net(i, k).Replied? && peer in net(i, k).peers;
        assert log[i] == front[i];
      }
      if ToldOf(log, net, peer) {
        var i, k :| 0 <= i < |log| && 0 <= k < |log[i].queried| && net(i, k).Replied? && peer in net(i, k).peers;
        assert i < last ==> front[i] == log[i];
      }
    }
  }

  lemma {:induction false} ReportedInRound(round: nat, n: nat, net: Network, peer: SocketAddr)
    ensures peer in ReportedIn(round, n, net) <==>
      exists k :: 0 <= k < n && net(round, k).Replied? && peer in net(round, k).peers
  {
    if n == 0 {
    } else {
      ReportedInRound(round, n - 1, net, peer);
      assert peer in PeersIn(net(round, n - 1)) <==> net(round, n - 1).Replied? && peer in net(round, n - 1).peers;
    }
  }

  /** Every query reads a reply of the node it asked. Nothing in the code sees to that. */
  ghost predicate InTurn(log: seq<Round>, net: Network) {
    forall i, k :: 0 <= i < |log| && 0 <= k < |log[i].queried| && net(i, k).Replied? ==>
      net(i, k).sender == log[i].queried[k].addr.ToSocket()
  }

  /** If queries read replies of the nodes they asked, every peer found was reported by a node that was asked. */
  lemma ReportedByAskedNode(log: seq<Round>, net: Network, peer: SocketAddr)
    requires peer in Reported(log, net) && InTurn(log, net)
    ensures exists i, k ::
      0 <= i < |log| && 0 <= k < |log[i].queried| && net(i, k).Replied? &&
      peer in net(i, k).peers && net(i, k).sender in Sockets(log[i].queried)
  {
    hide Reported;
    PeersComeFromReplies(log, net, peer);
    var i, k :| 0 <= i < |log| && 0 <= k < |log[i].queried| && net(i, k).Replied? && peer in net(i, k).peers;
    assert log[i].queried[k] in log[i].queried;
  }

  /** r is what a round asks: nodes not asked before, nearest first, as many as the concurrency allows out of an exact
      nearest-20 answer over the table, and none left out is nearer than one listed. */
  ghost predicate NearestUnasked(p: Params, table: seq<B.Bucket>, asked: set<SocketAddr>, r: seq<B.RoutingEntry>) {
    exists near ::
      N.KNearest(B.IdOf, B.IsHealthy, B.Flat(table), p.target, 20, near) &&
      T.FirstOf(Unasked(asked), N.DistanceTo(B.IdOf, p.target), near, p.concurrency, r)
  }

  lemma UnaskedMeans(asked: set<SocketAddr>)
    ensures forall e :: Unasked(asked)(e) <==> e.addr.ToSocket() !in asked
  {}

  lemma PlanIsNearestUnasked(p: Params, table: seq<B.Bucket>, asked: set<SocketAddr>)
    ensures NearestUnasked(p, table, asked, Plan(p, table, asked))
  {
    var near := N.Closest(B.IdOf, B.IsHealthy, B.Flat(table), p.target, 20);
    N.ClosestIsKNearest(B.IdOf, B.IsHealthy, B.Flat(table), p.target, 20);
    hide N.Closest, Filter;
    T.TakeFilterIsFirst(Unasked(asked), N.DistanceTo(B.IdOf, p.target), near, p.concurrency);
  }

  /** Each round asks the nearest nodes not asked before, out of an exact nearest-20 answer over the table it finds. */
  lemma PlannedAreNearest(p: Params, start: seq<B.Bucket>, log: seq<Round>, net: Network, i: nat)
    requires Follows(p, start, log, net) && i < |log|
    ensures NearestUnasked(p, log[i].table, Asked(log[..i]), log[i].queried)
  {
    PlanIsNearestUnasked(p, log[i].table, Asked(log[..i]));
    RoundIsPlanned(p, start, log, net, i);
    hide Follows, Plan, NearestUnasked, Asked;
  }

  lemma {:induction false} RoundIsPlanned(p: Params, start: seq<B.Bucket>, log: seq<Round>, net: Network, i: nat)
    requires Follows(p, start, log, net) && i < |log|
    ensures log[i].queried == Plan(p, log[i].table, Asked(log[..i]))
  {
    hide Plan, Asked, TableAfter, Closer, Stalls, ClosestSoFar;
    var front := log[..|log| - 1];
    if i < |log| - 1 {
      RoundIsPlanned(p, start, front, net, i);
      assert front[..i] == log[..i];
    }
  }

  // ---- the discoverer ----

  class DhtDiscoverer {
    const nodeId: NodeId
    const enableBep42: bool
    const maxConcurrentRequests: nat
    const maxQueryRounds: nat
    const routingTable: R.RoutingTable
    var initialized: bool

    constructor (nodeId: NodeId, enableBep42: bool, maxConcurrentRequests: nat, maxQueryRounds: nat,
                 routingTable: R.RoutingTable)
      requires routingTable.Valid() && routingTable.ownId == nodeId
      ensures Valid() && this.routingTable == routingTable &&
        ParamsFor(nodeId) == Params(nodeId, enableBep42, maxConcurrentRequests, nodeId)
      ensures this.maxQueryRounds == maxQueryRounds && !initialized
    {
      this.nodeId := nodeId;
      this.enableBep42 := enableBep42;
      this.maxConcurrentRequests := maxConcurrentRequests;
      this.maxQueryRounds := maxQueryRounds;
      this.routingTable := routingTable;
      initialized := false;
    }

    function ParamsFor(target: NodeId): Params {
      Params(nodeId, enableBep42, maxConcurrentRequests, target)
    }

    ghost predicate Valid()
      reads routingTable, routingTable.buckets
    {
      routingTable.Valid() && routingTable.ownId == nodeId
    }

    function Table(): seq<B.Bucket>
      reads routingTable`buckets, routingTable.buckets
    {
      routingTable.Layout()
    }

    /** The table after `init`, which works the first time only. */
    function Started(resolved: seq<DhtNode>, now: U32): seq<B.Bucket>
      requires Valid()
      reads this`initialized, routingTable, routingTable.buckets
    {
      assert |Table()| > 0;
      if initialized then Table() else Bootstrapped(nodeId, Table(), resolved, now)
    }

    method InsertUnchecked(node: DhtNode, now: U32)
      requires Valid()
      modifies routingTable, routingTable.buckets
      ensures Valid() && (forall b :: b in routingTable.buckets ==> b in old(routingTable.buckets) || fresh(b))
      ensures Table() == B.InsertEntry(nodeId, old(Table()), B.RoutingEntry(node.id, FromSocket(node.addr), now, 0))
        .buckets
    {
      var _ := routingTable.Insert(node.id, FromSocket(node.addr), now);
    }

    method InsertResolved(resolved: seq<DhtNode>, now: U32)
      requires Valid()
      modifies routingTable, routingTable.buckets
      ensures Valid() && (forall b :: b in routingTable.buckets ==> b in old(routingTable.buckets) || fresh(b))
      ensures |old(Table())| > 0 && Table() == Bootstrapped(nodeId, old(Table()), resolved, now)
    {
      assert |Table()| > 0;
      NobodyResolved(nodeId, Table(), now);
      hide R.RoutingTable.Valid, R.RoutingTable.Layout, B.InsertEntry, Bootstrapped;
      for k := 0 to |resolved|
        invariant Valid() && (forall b :: b in routingTable.buckets ==> b in old(routingTable.buckets) || fresh(b))
        invariant Table() == Bootstrapped(nodeId, old(Table()), resolved[..k], now)
      {
        OneMoreResolved(nodeId, old(Table()), resolved, k, now);
        assert forall i :: 0 <= i < |routingTable.buckets| ==> routingTable.buckets[i] in routingTable.buckets;
        InsertUnchecked(resolved[k], now);
      }
      assert resolved[..|resolved|] == resolved;
    }

    /** `init`: the addresses that were resolved, with the ids drawn for them. */
    method Init(resolved: seq<DhtNode>, now: U32)
      requires Valid()
      modifies this`initialized, routingTable, routingTable.buckets
      ensures Valid() && (forall b :: b in routingTable.buckets ==> b in old(routingTable.buckets) || fresh(b))
      ensures Table() == old(Started(resolved, now)) && initialized
    {
      if initialized {
        return;
      }
      hide R.RoutingTable.Valid, R.RoutingTable.Layout, Bootstrapped;
      InsertResolved(resolved, now);
      initialized := true;
    }

    method AddNode(ghost p: Params, node: DhtNode, now: U32)
      requires Valid() && p == ParamsFor(p.target)
      modifies routingTable, routingTable.buckets
      ensures Valid() && (forall b :: b in routingTable.buckets ==> b in old(routingTable.buckets) || fresh(b))
      ensures Table() == Admit(p, old(Table()), node, now)
    {
      var compact := FromSocket(node.addr);
      if enableBep42 {
        var ok := VerifyNodeId(node.id, compact);
        if !ok {
          return;
        }
      }
      var _ := routingTable.Insert(node.id, compact, now);
    }

    method MarkNodeFailure(addr: SocketAddr)
      requires Valid()
      modifies routingTable.buckets
      ensures Valid() && routingTable.buckets == old(routingTable.buckets)
      ensures Table() == B.AtFirstHolder(old(Table()), FromSocket(addr), B.Failing(FromSocket(addr)))
    {
      var _ := routingTable.MarkFailed(FromSocket(addr));
    }

    method MarkNodeSuccess(ghost p: Params, addr: SocketAddr, id: NodeId, now: U32)
      requires Valid() && p == ParamsFor(p.target)
      modifies routingTable, routingTable.buckets
      ensures Valid() && (forall b :: b in routingTable.buckets ==> b in old(routingTable.buckets) || fresh(b))
      ensures Table() == Succeeded(p, old(Table()), FromSocket(addr), id, now)
    {
      ghost var was := Table();
      var compact := FromSocket(addr);
      var found := routingTable.Touch(compact, now);
      if !found {
        assert Table() == was;
        var _ := routingTable.Insert(id, compact, now);
      }
    }

    method AddNodes(ghost p: Params, nodes: seq<DhtNode>, queried: set<SocketAddr>, now: U32)
      requires Valid() && p == ParamsFor(p.target)
      modifies routingTable, routingTable.buckets
      ensures Valid() && (forall b :: b in routingTable.buckets ==> b in old(routingTable.buckets) || fresh(b))
      ensures Table() == AdmitAll(p, old(Table()), queried, nodes, now)
    {
      assert |Table()| > 0;
      hide R.RoutingTable.Valid, Admit;
      for k := 0 to |nodes|
        invariant Valid() && (forall b :: b in routingTable.buckets ==> b in old(routingTable.buckets) || fresh(b))
        invariant Table() == AdmitAll(p, old(Table()), queried, nodes[..k], now)
      {
        assert nodes[..k + 1][..k] == nodes[..k];
        if nodes[k].addr !in queried {
          assert forall i :: 0 <= i < |routingTable.buckets| ==> routingTable.buckets[i] in routingTable.buckets;
          AddNode(p, nodes[k], now);
        }
      }
      assert nodes[..|nodes|] == nodes;
    }

    /** What one finished query changes. */
    method CollectReply(ghost p: Params, addr: SocketAddr, reply: Reply, queried: set<SocketAddr>,
                        allPeers: set<SocketAddr>)
      returns (peers: set<SocketAddr>)
      requires Valid() && p == ParamsFor(p.target)
      modifies routingTable, routingTable.buckets
      ensures Valid() && (forall b :: b in routingTable.buckets ==> b in old(routingTable.buckets) || fresh(b))
      ensures Table() == AfterReply(p, old(Table()), queried, FromSocket(addr), reply)
      ensures peers == allPeers + PeersIn(reply)
    {
      hide R.RoutingTable.Valid, AdmitAll, Succeeded, B.AtFirstHolder;
      peers := allPeers;
      match reply
      case Replied(_, found, nodes, responderId, at) =>
        peers := peers + (set a | a in found);
        AddNodes(p, nodes, queried, at);
        assert forall i :: 0 <= i < |routingTable.buckets| ==> routingTable.buckets[i] in routingTable.buckets;
        MarkNodeSuccess(p, addr, responderId, at);
      case Failed =>
        MarkNodeFailure(addr);
      case Lost =>
    }

    method CollectRound(p: Params, toQuery: seq<B.RoutingEntry>, round: nat, net: Network, queried: set<SocketAddr>,
                        allPeers: set<SocketAddr>)
      returns (peers: set<SocketAddr>)
      requires Valid() && |Table()| > 0 && p == ParamsFor(p.target)
      modifies routingTable, routingTable.buckets
      ensures Valid() && (forall b :: b in routingTable.buckets ==> b in old(routingTable.buckets) || fresh(b))
      ensures Table() == AfterReplies(p, old(Table()), queried, toQuery, round, |toQuery|, net)
      ensures peers == allPeers + ReportedIn(round, |toQuery|, net)
    {
      hide R.RoutingTable.Valid, AfterReply, PeersIn;
      peers := allPeers;
      for k := 0 to |toQuery|
        invariant Valid() && (forall b :: b in routingTable.buckets ==> b in old(routingTable.buckets) || fresh(b))
        invariant Table() == AfterReplies(p, old(Table()), queried, toQuery, round, k, net)
        invariant peers == allPeers + ReportedIn(round, k, net)
      {
        PackingIsABijection(toQuery[k].addr.ToSocket(), toQuery[k].addr);
        assert forall i :: 0 <= i < |routingTable.buckets| ==> routingTable.buckets[i] in routingTable.buckets;
        peers := CollectReply(p, toQuery[k].addr.ToSocket(), net(round, k), queried, peers);
      }
    }

    /** The candidates of the next round. */
    method NextQueries(p: Params, queried: set<SocketAddr>) returns (toQuery: seq<B.RoutingEntry>)
      requires p == ParamsFor(p.target)
      ensures toQuery == Plan(p, Table(), queried)
    {
      var candidates := routingTable.FindClosest(p.target, 20);
      toQuery := Take(maxConcurrentRequests, Filter(Unasked(queried), candidates));
    }

    /** Query one round's nodes and collect what they answer. */
    method AskRound(p: Params, toQuery: seq<B.RoutingEntry>, net: Network, s: Progress, closest: NodeId,
                    ghost start: seq<B.Bucket>, ghost log: seq<Round>, ghost limit: nat)
      returns (next: Progress, ghost all: seq<Round>)
      requires Valid() && p == ParamsFor(p.target) && OnTrack(p, start, log, net, s, Table())
      requires ShortOf(log, net, limit) && (s.rounds > 0 ==> |s.allPeers| < limit)
      requires NextRound(p, start, log, net, Round(Table(), toQuery, closest))
      modifies routingTable, routingTable.buckets
      ensures Valid() && (forall b :: b in routingTable.buckets ==> b in old(routingTable.buckets) || fresh(b))
      ensures all == log + [Round(old(Table()), toQuery, closest)]
      ensures OnTrack(p, start, all, net, next, Table()) && ShortOf(all, net, limit)
      ensures next == Progress(s.rounds + 1, next.allPeers, next.queried, closest,
                               if Value(closest) < Value(s.closest) then 0 else s.stalled + 1)
    {
      hide R.RoutingTable.Valid, Plan, Closer, ReportedIn, Follows, TableAfter, Reported, Asked, ClosestSoFar, Stalls,
        Value, Xor;
      hide ShortOf;
      ghost var r := Round(Table(), toQuery, closest);
      AppendShortOf(p, start, log, net, s, Table(), limit, r);
      AppendRound(p, start, log, net, r);
      all := log + [r];
      var queried := s.queried + Sockets(toQuery);
      var allPeers := CollectRound(p, toQuery, s.rounds, net, queried, s.allPeers);
      next := Progress(s.rounds + 1, allPeers, queried, closest,
                       if Value(closest) < Value(s.closest) then 0 else s.stalled + 1);
    }

    /** The part of a round before the queries go out: whom to ask, and whether to go on at all. */
    method Decide(p: Params, s: Progress, ghost start: seq<B.Bucket>, ghost log: seq<Round>, ghost net: Network)
      returns (go: bool, toQuery: seq<B.RoutingEntry>, closest: NodeId)
      requires p == ParamsFor(p.target) && OnTrack(p, start, log, net, s, Table())
      ensures go ==> NextRound(p, start, log, net, Round(Table(), toQuery, closest))
      ensures go && Value(closest) >= Value(s.closest) ==> closest == s.closest && s.stalled == 0
      ensures !go ==> Exhausted(p, Table(), log)
    {
      toQuery := NextQueries(p, s.queried);
      if toQuery == [] {
        return false, toQuery, s.closest;
      }
      var dist := XorDistance(toQuery[0].id, p.target);
      var less := DistanceLess(dist, s.closest);
      CloserIs(p, toQuery[0].id, s.closest);
      return less || s.stalled == 0, toQuery, if less then dist else s.closest;
    }

    /** The loop of `discover_peers`: it stops at the round limit, when nobody is left to ask, after two
        rounds without a closer node, or when enough peers were reported. The measure does not use the
        round limit. */
    method Iterate(p: Params, limit: nat, net: Network) returns (s: Progress, ghost log: seq<Round>)
      requires Valid() && p == ParamsFor(p.target)
      modifies routingTable, routingTable.buckets
      ensures Valid()
      ensures OnTrack(p, old(Table()), log, net, s, Table()) && ShortOf(log, net, limit)
      ensures s.rounds <= maxQueryRounds
      ensures s.rounds == maxQueryRounds || (s.rounds > 0 && |s.allPeers| >= limit) || Exhausted(p, Table(), log)
    {
      s := Progress(0, {}, {}, FarthestId(), 0);
      var more := true;
      log := [];
      assert |Table()| > 0;
      EmptyLog(p, Table(), net, limit);
      hide R.RoutingTable.Valid, R.RoutingTable.Layout, OnTrack, Exhausted, NextRound, ShortOf, Value;
      while more && s.rounds < maxQueryRounds
        invariant Valid() && (forall b :: b in routingTable.buckets ==> b in old(routingTable.buckets) || fresh(b))
        invariant OnTrack(p, old(Table()), log, net, s, Table()) && ShortOf(log, net, limit)
        invariant s.rounds <= maxQueryRounds
        invariant if more then s.rounds > 0 ==> |s.allPeers| < limit
                  else (s.rounds > 0 && |s.allPeers| >= limit) || Exhausted(p, Table(), log)
        decreases Value(s.closest), if s.stalled == 0 then 1 else 0, more
      {
        var toQuery, closest;
        more, toQuery, closest := Decide(p, s, old(Table()), log, net);
        if more {
          assert forall i :: 0 <= i < |routingTable.buckets| ==> routingTable.buckets[i] in routingTable.buckets;
          s, log := AskRound(p, toQuery, net, s, closest, old(Table()), log, limit);
          more := |s.allPeers| < limit;
        }
      }
    }

    /** `discover_peers`. The log holds the rounds made; their rules and the laws above say what was
        asked and what the table became. */
    method DiscoverPeers(infohash: NodeId, limit: nat, resolved: seq<DhtNode>, now: U32, net: Network)
      returns (peers: seq<SocketAddr>, ghost log: seq<Round>)
      requires Valid()
      modifies this`initialized, routingTable, routingTable.buckets
      ensures Valid() && initialized
      ensures Follows(ParamsFor(infohash), old(Started(resolved, now)), log, net) && |log| <= maxQueryRounds
      ensures Disciplined(maxConcurrentRequests, log)
      ensures Table() == TableAfter(ParamsFor(infohash), old(Started(resolved, now)), log, net)
      ensures ShortOf(log, net, limit)
      ensures |log| == maxQueryRounds || (log != [] && |Reported(log, net)| >= limit) ||
        Exhausted(ParamsFor(infohash), Table(), log)
      ensures forall i, j :: 0 <= i < j < |peers| ==> peers[i] != peers[j]
      ensures forall a :: a in peers ==> a in Reported(log, net)
      ensures |peers| == if |Reported(log, net)| <= limit then |Reported(log, net)| else limit
    {
      hide R.RoutingTable.Valid, Follows, Reported, TableAfter, Exhausted, ShortOf, Started, Bootstrapped;
      Init(resolved, now);
      ghost var start := Table();
      assert forall i :: 0 <= i < |routingTable.buckets| ==> routingTable.buckets[i] in routingTable.buckets;
      var s;
      s, log := Iterate(ParamsFor(infohash), limit, net);
      FollowsIsDisciplined(ParamsFor(infohash), start, log, net);
      peers := TakeAny(s.allPeers, limit);
    }
  }

  /** The local variables of the loop. */
  datatype Progress = Progress(rounds: nat, allPeers: set<SocketAddr>, queried: set<SocketAddr>, closest: NodeId,
    stalled: nat)

  /** The variables sum up a log that follows the rules and led to this table. */
  ghost predicate OnTrack(p: Params, start: seq<B.Bucket>, log: seq<Round>, net: Network, s: Progress,
                          table: seq<B.Bucket>) {
    && Follows(p, start, log, net)
    && table == TableAfter(p, start, log, net) && |table| > 0
    && s.rounds == |log|
    && s.allPeers == Reported(log, net)
    && s.queried == Asked(log)
    && s.closest == ClosestSoFar(log)
    && s.stalled == Stalls(log) < 2
  }

  lemma AppendShortOf(p: Params, start: seq<B.Bucket>, log: seq<Round>, net: Network, s: Progress, table: seq<B.Bucket>,
                      limit: nat, r: Round)
    requires OnTrack(p, start, log, net, s, table) && ShortOf(log, net, limit) &&
      (s.rounds > 0 ==> |s.allPeers| < limit)
    ensures ShortOf(log + [r], net, limit)
  {
    hide Reported, Follows;
    var all := log + [r];
    forall i | 0 < i < |all|
      ensures |Reported(all[..i], net)| < limit
    {
      assert all[..i] == log[..i];
      assert i == |log| ==> log[..i] == log;
    }
  }

  lemma EmptyLog(p: Params, start: seq<B.Bucket>, net: Network, limit: nat)
    requires |start| > 0
    ensures OnTrack(p, start, [], net, Progress(0, {}, {}, FarthestId(), 0), start) && ShortOf([], net, limit)
  {}

  lemma CloserIs(p: Params, id: NodeId, closest: NodeId)
    ensures Closer(p, id, closest) == if Value(Xor(id, p.target)) < Value(closest) then Xor(id, p.target) else closest
  {}

  /** Nobody is left to ask, or the next round would be the second in a row without a closer node. */
  ghost predicate Exhausted(p: Params, table: seq<B.Bucket>, log: seq<Round>) {
    var plan := Plan(p, table, Asked(log));
    plan == [] || (Stalls(log) == 1 && Closer(p, plan[0].id, ClosestSoFar(log)) == ClosestSoFar(log))
  }

  /** Up to limit elements of a set, in no particular order (`into_iter().take(limit)`). */
  method TakeAny(all: set<SocketAddr>, limit: nat) returns (r: seq<SocketAddr>)
    ensures forall i, j :: 0 <= i < j < |r| ==> r[i] != r[j]
    ensures forall a :: a in r ==> a in all
    ensures |r| == if |all| <= limit then |all| else limit
  {
    var left := all;
    r := [];
    while left != {} && |r| < limit
      invariant left <= all && |r| + |left| == |all| && |r| <= limit
      invariant forall a :: a in r <==> a in all - left
      invariant forall i, j :: 0 <= i < j < |r| ==> r[i] != r[j]
      decreases left
    {
      var a :| a in left;
      assert a !in r;
      r := r + [a];
      left := left - {a};
    }
  }
}
