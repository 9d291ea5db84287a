/** What the replies of a lookup leave in the routing table, and whom the lookup asks for it. */
module LookupTables {
  import opened Bytes
  import opened Addresses
  import opened XorMetric
  import opened Sorting
  import opened NodeIdSecurity
  import opened CompactInfo
  import opened Lookup
  import opened BucketRouting
  import B = Buckets
  import N = Nearest
  import T = TopK

  /** A reported node is let in when it was not asked yet and, under BEP 42, its id fits its address. */
  predicate LetIn(p: Params, asked: set<SocketAddr>, n: DhtNode) {
    n.addr !in asked && (p.bep42 ==> Accepted(n.id, FromSocket(n.addr)))
  }

  function LettingIn(p: Params, asked: set<SocketAddr>): DhtNode -> bool {
    (n: DhtNode) => LetIn(p, asked, n)
  }

  /** A node seen now, without failures. */
  function NodeEntry(n: DhtNode, now: U32): B.RoutingEntry {
    B.RoutingEntry(n.id, FromSocket(n.addr), now, 0)
  }

  function Entries(nodes: seq<DhtNode>, now: U32): (r: seq<B.RoutingEntry>)
    ensures |r| == |nodes|
    ensures forall i :: 0 <= i < |nodes| ==> r[i] == NodeEntry(nodes[i], now)
  {
    seq(|nodes|, i requires 0 <= i < |nodes| => NodeEntry(nodes[i], now))
  }

  lemma EntriesAt(nodes: seq<DhtNode>, now: U32)
    ensures AllAt(Entries(nodes, now), now)
    ensures forall n :: n in nodes ==> NodeEntry(n, now) in Entries(nodes, now)
    ensures forall e :: e in Entries(nodes, now) ==> exists n :: n in nodes && e == NodeEntry(n, now)
  {
    forall n | n in nodes
      ensures NodeEntry(n, now) in Entries(nodes, now)
    {
      var i :| 0 <= i < |nodes| && nodes[i] == n;
      assert Entries(nodes, now)[i] == NodeEntry(n, now);
    }
  }

  /** The entries of a reply's nodes that are let in, in order. */
  function Admitted(p: Params, asked: set<SocketAddr>, nodes: seq<DhtNode>, now: U32): seq<B.RoutingEntry> {
    Entries(Filter(LettingIn(p, asked), nodes), now)
  }

  /** Taking in the nodes of a reply is inserting those that are let in, in order. */
  lemma {:induction false} AdmitAllInserts(p: Params, table: seq<B.Bucket>, asked: set<SocketAddr>, nodes: seq<DhtNode>,
                                           now: U32)
    requires |table| > 0
    ensures AdmitAll(p, table, asked, nodes, now) == InsertAll(p.own, table, Admitted(p, asked, nodes, now))
    decreases |nodes|
  {
    hide B.InsertEntry, LetIn, Admitted;
    if nodes == [] {
      NoneAdmitted(p, asked, now);
    } else {
      var n := |nodes| - 1;
      AdmitAllInserts(p, table, asked, nodes[..n], now);
      LastAdmitted(p, asked, nodes, now);
      AdmitStep(p, table, asked, nodes, now);
      hide AdmitAll, InsertAll;
      if LetIn(p, asked, nodes[n]) {
        InsertStep(p.own, table, Admitted(p, asked, nodes[..n], now), NodeEntry(nodes[n], now));
      }
    }
  }

  lemma NoneAdmitted(p: Params, asked: set<SocketAddr>, now: U32)
    ensures Admitted(p, asked, [], now) == []
  {}

  lemma AdmitStep(p: Params, table: seq<B.Bucket>, asked: set<SocketAddr>, nodes: seq<DhtNode>, now: U32)
    requires |table| > 0 && nodes != []
    ensures var n := |nodes| - 1;
      var mid := AdmitAll(p, table, asked, nodes[..n], now);
      AdmitAll(p, table, asked, nodes, now) ==
        if LetIn(p, asked, nodes[n]) then B.InsertEntry(p.own, mid, NodeEntry(nodes[n], now)).buckets else mid
  {
    hide B.InsertEntry, Accepted;
  }

  lemma InsertStep(own: NodeId, table: seq<B.Bucket>, front: seq<B.RoutingEntry>, e: B.RoutingEntry)
    requires |table| > 0
    ensures InsertAll(own, table, front + [e]) == B.InsertEntry(own, InsertAll(own, table, front), e).buckets
  {
    hide B.InsertEntry;
    assert (front + [e])[..|front|] == front;
  }

  lemma LastAdmitted(p: Params, asked: set<SocketAddr>, nodes: seq<DhtNode>, now: U32)
    requires nodes != []
    ensures var n := |nodes| - 1;
      var front := Admitted(p, asked, nodes[..n], now);
      Admitted(p, asked, nodes, now) == if LetIn(p, asked, nodes[n]) then front + [NodeEntry(nodes[n], now)] else front
  {
    var n := |nodes| - 1;
    assert nodes == nodes[..n] + [nodes[n]];
    FilterConcat(LettingIn(p, asked), nodes[..n], [nodes[n]]);
    assert Filter(LettingIn(p, asked), [nodes[n]]) == if LetIn(p, asked, nodes[n]) then [nodes[n]] else [];
    hide Filter, LetIn;
  }

  /** The insertion of this node met a bucket full of live others. */
  ghost predicate MetFullBucket(own: NodeId, table: seq<B.Bucket>, es: seq<B.RoutingEntry>, e: B.RoutingEntry)
    requires |table| > 0
  {
    exists k: nat :: k < |es| && es[k] == e && B.RefusedBy(InsertAll(own, table, es[..k + 1]), PrefixLen(own, e.id), e)
  }

  /** Every reported node that is let in is held afterwards under its address, unless its own insertion met a bucket
      full
      of live others; and surely held when the table and the reply together would fit one bucket. */
  lemma ReportedNodesLand(p: Params, table: seq<B.Bucket>, asked: set<SocketAddr>, nodes: seq<DhtNode>, now: U32,
                          n: DhtNode)
    requires B.TableOk(table) && n in nodes && LetIn(p, asked, n)
    ensures |table| > 0 && var e := NodeEntry(n, now);
      LandsAt(AdmitAll(p, table, asked, nodes, now), e) ||
      MetFullBucket(p.own, table, Admitted(p, asked, nodes, now), e)
    ensures |B.Flat(table)| + |nodes| <= B.K ==> LandsAt(AdmitAll(p, table, asked, nodes, now), NodeEntry(n, now))
  {
    var es, e := Admitted(p, asked, nodes, now), NodeEntry(n, now);
    assert |table| > 0;
    AdmitAllInserts(p, table, asked, nodes, now);
    assert LettingIn(p, asked)(n);
    EntriesAt(Filter(LettingIn(p, asked), nodes), now);
    assert |es| <= |nodes|;
    hide B.TableOk, B.Flat, AdmitAll, Admitted, LandsAt, B.RefusedBy, PrefixLen, LetIn;
    var k: nat :| k < |es| && es[k] == e;
    EachLands(p.own, table, es, now, k);
    if |B.Flat(table)| + |nodes| <= B.K {
      EachFits(p.own, table, es, now, k);
    }
  }

  /** Nothing comes in with a reply but nodes it reports that are let in; so no node that was asked already. */
  lemma OnlyLetInComeIn(p: Params, table: seq<B.Bucket>, asked: set<SocketAddr>, nodes: seq<DhtNode>, now: U32)
    requires B.TableOk(table)
    ensures var r := AdmitAll(p, table, asked, nodes, now);
      B.TableOk(r) && forall x :: x in B.Flat(r) ==>
        x in B.Flat(table) || exists n :: n in nodes && LetIn(p, asked, n) && x == NodeEntry(n, now)
  {
    assert |table| > 0;
    AdmitAllInserts(p, table, asked, nodes, now);
    var let := Filter(LettingIn(p, asked), nodes);
    EntriesAt(let, now);
    OnlyTheseComeIn(p.own, table, Admitted(p, asked, nodes, now));
    hide B.TableOk, B.Flat, AdmitAll, InsertAll, LetIn;
    forall n | n in let
      ensures n in nodes && LetIn(p, asked, n)
    {
      assert LettingIn(p, asked)(n);
    }
  }

  /** While the table and the reply together would fit one bucket, nobody else loses a place. */
  lemma OthersKeepTheirPlaces(p: Params, table: seq<B.Bucket>, asked: set<SocketAddr>, nodes: seq<DhtNode>, now: U32,
                              x: B.RoutingEntry)
    requires B.TableOk(table) && |B.Flat(table)| + |nodes| <= B.K
    requires x in B.Flat(table) && forall n :: n in nodes ==> FromSocket(n.addr) != x.addr
    ensures |table| > 0 && x in B.Flat(AdmitAll(p, table, asked, nodes, now))
  {
    assert |table| > 0;
    AdmitAllInserts(p, table, asked, nodes, now);
    var let := Filter(LettingIn(p, asked), nodes);
    EntriesAt(let, now);
    OthersStay(p.own, table, Admitted(p, asked, nodes, now));
    hide B.TableOk, B.Flat, AdmitAll, InsertAll, FromSocket;
  }

  // ---- bootstrapping ----

  lemma {:induction false} BootstrappedInserts(own: NodeId, table: seq<B.Bucket>, nodes: seq<DhtNode>, now: U32)
    requires |table| > 0
    ensures Bootstrapped(own, table, nodes, now) == InsertAll(own, table, Entries(nodes, now))
    decreases |nodes|
  {
    if nodes == [] {
    } else {
      var n := |nodes| - 1;
      BootstrappedInserts(own, table, nodes[..n], now);
      assert Entries(nodes, now)[..n] == Entries(nodes[..n], now);
      hide B.InsertEntry;
    }
  }

  /** Every resolved bootstrap address is held after `init`, unless its own insertion met a bucket full of live others;
      and surely held when the table and the addresses together would fit one bucket. */
  lemma BootstrapNodesLand(own: NodeId, table: seq<B.Bucket>, nodes: seq<DhtNode>, now: U32, n: DhtNode)
    requires B.TableOk(table) && n in nodes
    ensures |table| > 0 && var e := NodeEntry(n, now);
      LandsAt(Bootstrapped(own, table, nodes, now), e) || MetFullBucket(own, table, Entries(nodes, now), e)
    ensures |B.Flat(table)| + |nodes| <= B.K ==> LandsAt(Bootstrapped(own, table, nodes, now), NodeEntry(n, now))
  {
    var es, e := Entries(nodes, now), NodeEntry(n, now);
    assert |table| > 0;
    BootstrappedInserts(own, table, nodes, now);
    EntriesAt(nodes, now);
    hide B.TableOk, B.Flat, Bootstrapped, LandsAt, B.RefusedBy, PrefixLen;
    var k: nat :| k < |es| && es[k] == e;
    EachLands(own, table, es, now, k);
    if |B.Flat(table)| + |nodes| <= B.K {
      EachFits(own, table, es, now, k);
    }
  }

  // ---- one finished query ----

  /** A query that failed costs the node asked one failure, one that was lost changes nothing, and an answer refreshes
      the node asked if it is held after the new nodes came in, else inserts it under the id it reports. */
  ghost predicate Affected(p: Params, table: seq<B.Bucket>, asked: set<SocketAddr>, addr: CompactAddr, reply: Reply,
                           r: seq<B.Bucket>)
    requires |table| > 0
  {
    match reply
    case Lost => r == table
    case Failed =>
      var k := FirstHeld(table, addr);
      Becomes(table, addr, if k < |B.Flat(table)| then [OneMoreFailure(B.Flat(table)[k])] else [], r)
    case Replied(_, _, nodes, id, at) => Answered(p, AdmitAll(p, table, asked, nodes, at), addr, id, at, r)
  }

  lemma ReplyEffect(p: Params, table: seq<B.Bucket>, asked: set<SocketAddr>, addr: CompactAddr, reply: Reply)
    requires |table| > 0 && B.TableOk(table)
    ensures Affected(p, table, asked, addr, reply, AfterReply(p, table, asked, addr, reply))
  {
    hide Becomes, Answered, B.TableOk, AdmitAll, Succeeded, FirstHeld;
    match reply
    case Lost =>
    case Failed => FailEffect(table, addr);
    case Replied(_, _, nodes, id, at) =>
      OnlyLetInComeIn(p, table, asked, nodes, at);
      SuccessEffect(p, AdmitAll(p, table, asked, nodes, at), addr, id, at);
  }

  ghost predicate Answered(p: Params, mid: seq<B.Bucket>, addr: CompactAddr, id: NodeId, at: U32, r: seq<B.Bucket>) {
    var k := FirstHeld(mid, addr);
    if k < |B.Flat(mid)| then Becomes(mid, addr, [B.Flat(mid)[k].(lastSeen := at, failures := 0)], r)
    else Landed(p.own, mid, B.RoutingEntry(id, addr, at, 0), r)
  }

  lemma SuccessEffect(p: Params, mid: seq<B.Bucket>, addr: CompactAddr, id: NodeId, at: U32)
    requires B.TableOk(mid)
    ensures |mid| > 0 && Answered(p, mid, addr, id, at, Succeeded(p, mid, addr, id, at))
  {
    TouchEffect(mid, addr, at);
    InsertionLands(p.own, mid, B.RoutingEntry(id, addr, at, 0));
    var i := Position(B.HoldsAddr(addr), mid);
    if i < |mid| {
      FirstHolder(mid, addr, i, Position(B.HasAddr(addr), mid[i].entries));
    } else {
      NoHolder(mid, addr);
    }
    hide Becomes, Landed, B.InsertEntry, B.AtFirstHolder, FirstHeld, B.TableOk;
  }

  // ---- whom the next round asks ----

  /** A healthy node of the table that was not asked yet is asked next, unless the round is full of nodes at least as
      near, or twenty nodes of the table are at least as near. */
  lemma HeldNodeIsAsked(p: Params, table: seq<B.Bucket>, asked: set<SocketAddr>, x: B.RoutingEntry)
    requires x in B.Flat(table) && x.Healthy() && x.addr.ToSocket() !in asked
    ensures x in Plan(p, table, asked) || CrowdedOut(p, Plan(p, table, asked), x) ||
      (exists near: seq<B.RoutingEntry> :: multiset(near) <= multiset(B.Flat(table)) && |near| == 20 &&
         forall y :: y in near ==> Distance(y.id, p.target) <= Distance(x.id, p.target))
  {
    PlanIsNearestUnasked(p, table, asked);
    UnaskedMeans(asked);
    var r, key := Plan(p, table, asked), N.DistanceTo(B.IdOf, p.target);
    var near: seq<B.RoutingEntry> :| N.KNearest(B.IdOf, B.IsHealthy, B.Flat(table), p.target, 20, near) &&
      T.FirstOf(Unasked(asked), key, near, p.concurrency, r);
    assert B.IsHealthy(x);
    KeyIsDistance(p.target);
    N.NearestOrFull(B.IdOf, B.IsHealthy, B.Flat(table), p.target, 20, near, x);
    T.FilterWithin(B.IsHealthy, B.Flat(table));
    KNearestWithin(B.Flat(table), p.target, near);
    hide Plan, Distance, B.Flat, Filter, N.KNearest, N.DistanceTo, T.FirstOf, Unasked;
    if x in near {
      T.FirstOfHas(Unasked(asked), key, near, p.concurrency, r, x);
    } else {
      forall y | y in near
        ensures Distance(y.id, p.target) <= Distance(x.id, p.target)
      {
        assert Distance(B.IdOf(y), p.target) <= Distance(B.IdOf(x), p.target);
      }
    }
  }

  lemma KeyIsDistance(target: NodeId)
    ensures forall y :: N.DistanceTo(B.IdOf, target)(y) == Distance(y.id, target)
  {
    hide Distance;
    forall y
      ensures N.DistanceTo(B.IdOf, target)(y) == Distance(y.id, target)
    {
      assert B.IdOf(y) == y.id;
    }
  }

  lemma KNearestWithin(all: seq<B.RoutingEntry>, target: NodeId, near: seq<B.RoutingEntry>)
    requires N.KNearest(B.IdOf, B.IsHealthy, all, target, 20, near)
    ensures multiset(near) <= multiset(all)
  {
    T.FilterWithin(B.IsHealthy, all);
  }

  /** The round has no room, and nobody in it is farther away. */
  ghost predicate CrowdedOut(p: Params, r: seq<B.RoutingEntry>, x: B.RoutingEntry) {
    |r| == p.concurrency && forall y :: y in r ==> Distance(y.id, p.target) <= Distance(x.id, p.target)
  }

  // ---- how near the lookup has come ----

  /** The closest distance is that of the nearest node that led a round, or the farthest there is. */
  lemma {:induction false} ClosestIsMinimum(p: Params, start: seq<B.Bucket>, log: seq<Round>, net: Network)
    requires Follows(p, start, log, net)
    ensures forall i :: 0 <= i < |log| ==>
      log[i].queried != [] && Value(ClosestSoFar(log)) <= Distance(log[i].queried[0].id, p.target)
    ensures ClosestSoFar(log) == FarthestId() || LedAt(p, log, Value(ClosestSoFar(log)))
  {
    hide Plan, TableAfter, Asked, Stalls, Value, Xor, FarthestId;
    if log == [] {
    } else {
      var n := |log| - 1;
      var front, r := log[..n], log[n];
      ClosestIsMinimum(p, start, front, net);
      DistanceIsValue(r.queried[0].id, p.target);
      forall i | 0 <= i < |log|
        ensures log[i].queried != [] && Value(ClosestSoFar(log)) <= Distance(log[i].queried[0].id, p.target)
      {
        assert i < n ==> front[i] == log[i];
      }
      if LedAt(p, front, Value(ClosestSoFar(front))) {
        var i: nat :| LeadsAt(p, front, i, Value(ClosestSoFar(front)));
        assert front[i] == log[i] && LeadsAt(p, log, i, Value(ClosestSoFar(front)));
      }
      assert r.closest != ClosestSoFar(front) ==> LeadsAt(p, log, n, Value(r.closest));
    }
  }

  lemma DistanceIsValue(a: NodeId, b: NodeId)
    ensures Distance(a, b) == Value(Xor(a, b))
  {}

  ghost predicate LedAt(p: Params, log: seq<Round>, d: nat) {
    exists i: nat :: LeadsAt(p, log, i, d)
  }

  /** A round asks a node at distance d first. */
  ghost predicate LeadsAt(p: Params, log: seq<Round>, i: nat, d: nat) {
    i < |log| && log[i].queried != [] && Distance(log[i].queried[0].id, p.target) == d
  }

  /** The i-th round came closer than all before. */
  ghost predicate Improves(log: seq<Round>, i: nat)
    requires i < |log|
  {
    Value(ClosestSoFar(log[..i + 1])) < Value(ClosestSoFar(log[..i]))
  }

  /** The stalled rounds are the last ones without an improvement: none of them improves, the one before does. */
  lemma {:induction false} StallsAreTrailing(log: seq<Round>)
    ensures Stalls(log) <= |log|
    ensures forall i: nat :: |log| - Stalls(log) <= i < |log| ==> !Improves(log, i)
    ensures Stalls(log) < |log| ==> Improves(log, |log| - Stalls(log) - 1)
  {
    hide Value, ClosestSoFar;
    if log == [] {
    } else {
      var n := |log| - 1;
      var front := log[..n];
      StallsAreTrailing(front);
      assert log[..n + 1] == log;
      forall i: nat | i < n
        ensures Improves(log, i) <==> Improves(front, i)
      {
        assert front[..i] == log[..i] && front[..i + 1] == log[..i + 1];
      }
    }
  }
}
