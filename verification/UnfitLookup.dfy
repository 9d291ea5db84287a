/** A lookup of one round that ends with an unfit id in a table that was fit, though everybody is honest: two
    replies are read in each other's place. */
module UnfitLookup {
  import opened Bytes
  import opened Addresses
  import opened XorMetric
  import opened Sorting
  import opened TopK
  import opened NodeIdSecurity
  import opened CompactInfo
  import opened Lookup
  import opened Fitness
  import B = Buckets
  import N = Nearest

  /** A full bucket: a node that went stale, another one, and nodes under our own id; and a node not in it. */
  datatype Scene = Scene(own: NodeId, stale: B.RoutingEntry, other: B.RoutingEntry, rest: seq<B.RoutingEntry>,
                         newcomer: B.RoutingEntry)
  {
    function Entries(): (r: seq<B.RoutingEntry>)
      ensures |r| == |rest| + 2
    {
      [stale, other] + rest
    }

    function Table(): (r: seq<B.Bucket>)
      ensures |r| == 1 && r[0].entries == Entries()
    {
      [B.Bucket(0, Entries())]
    }

    /** The lookup asks two nodes at a time and looks for the stale node's id. */
    function Lookup(): Params {
      Params(own, true, 2, stale.id)
    }

    /** The other node's reply names the newcomer, the stale node's reply names none. */
    function OtherReply(): Reply {
      Replied(other.addr.ToSocket(), [], [DhtNode(newcomer.id, newcomer.addr.ToSocket())], other.id, newcomer.lastSeen)
    }

    function StaleReply(): Reply {
      Replied(stale.addr.ToSocket(), [], [], stale.id, newcomer.lastSeen)
    }

    /** The query to the stale node reads the other node's reply, and the other way round. */
    function Swapped(): Network {
      (round, k) => if k == 0 then OtherReply() else StaleReply()
    }

    /** Live at the time of the replies, and not at one of these addresses. */
    ghost predicate LiveApart(e: B.RoutingEntry) {
      e.Healthy() && !e.Expired(newcomer.lastSeen) && e.addr != stale.addr && e.addr != newcomer.addr
    }

    /** The ids: all fit their addresses, the other node's does not fit the stale node's address, and it is nearer
        to the stale node's id than ours. */
    ghost predicate IdsOk() {
      && (forall e :: e in Entries() ==> Accepted(e.id, e.addr)) && Accepted(newcomer.id, newcomer.addr)
      && !Accepted(other.id, stale.addr)
      && (forall e :: e in rest ==> e.id == own) && newcomer.id == own
      && Distance(other.id, stale.id) < Distance(own, stale.id)
    }

    ghost predicate Ok() {
      && B.BucketOk(Entries()) && |rest| == 18
      && IdsOk()
      && stale.Healthy() && stale.Expired(newcomer.lastSeen) && stale.addr != newcomer.addr
      && LiveApart(other) && (forall e :: e in rest ==> LiveApart(e))
      && newcomer.failures == 0
      && stale.addr.ToSocket() != newcomer.addr.ToSocket() && other.addr.ToSocket() != newcomer.addr.ToSocket()
    }
  }

  lemma FlatOfOne(b: B.Bucket)
    ensures B.Flat([b]) == b.entries
  {
    assert [b][1..] == [];
    assert b.entries + [] == b.entries;
  }

  lemma SceneIsFit(s: Scene)
    requires s.Ok()
    ensures B.TableOk(s.Table()) && Unfit(s.Table()) == {}
  {
    FlatOfOne(s.Table()[0]);
    hide B.BucketOk, Accepted, Distance;
  }

  lemma RepliesAreHonest(s: Scene)
    requires s.Ok()
    ensures Accepted(s.OtherReply().responderId, FromSocket(s.OtherReply().sender))
    ensures Accepted(s.StaleReply().responderId, FromSocket(s.StaleReply().sender))
  {
    hide Accepted, B.BucketOk, Distance;
    PackingIsABijection(s.other.addr.ToSocket(), s.other.addr);
    PackingIsABijection(s.stale.addr.ToSocket(), s.stale.addr);
    assert s.stale in s.Entries() && s.other in s.Entries();
  }

  lemma EverybodyIsHonest(s: Scene, log: seq<Round>)
    requires s.Ok()
    ensures Honest(log, s.Swapped())
  {
    RepliesAreHonest(s);
    hide Accepted, Scene.Ok, Scene.OtherReply, Scene.StaleReply;
  }

  // ---- the two nodes are asked ----

  lemma TwoNearest(all: seq<B.RoutingEntry>, target: NodeId, a: B.RoutingEntry, b: B.RoutingEntry)
    requires a != b && a.id == target && b.id != target && b in all && multiset(all)[a] == 1
    requires forall e :: e in all ==> e.Healthy()
    requires forall e :: e in all && e != a && e != b ==> Distance(b.id, target) < Distance(e.id, target)
    ensures var near := N.Closest(B.IdOf, B.IsHealthy, all, target, 20); |near| >= 2 && near[0] == a && near[1] == b
  {
    ZeroDistance(target, target);
    ZeroDistance(b.id, target);
    hide Distance, Filter, N.KNearest;
    var near := N.Closest(B.IdOf, B.IsHealthy, all, target, 20);
    N.ClosestIsKNearest(B.IdOf, B.IsHealthy, all, target, 20);
    hide N.Closest;
    N.TwoNearestFirst(B.IdOf, B.IsHealthy, all, target, 20, near, a, b);
  }

  lemma StaleOnce(s: Scene)
    requires s.Ok()
    ensures multiset(s.Entries())[s.stale] == 1
  {
    hide Accepted, Distance;
    var es := s.Entries();
    assert es == [s.stale] + es[1..];
    forall i | 1 <= i < |es|
      ensures es[i] != s.stale
    {
      assert B.AddrOf(es[0]) != B.AddrOf(es[i]);
    }
  }

  lemma NearFacts(s: Scene)
    requires s.Ok()
    ensures multiset(s.Entries())[s.stale] == 1 && s.other in s.Entries()
    ensures s.stale.id != s.other.id && forall e :: e in s.Entries() ==> e.Healthy()
    ensures forall e :: e in s.Entries() && e != s.stale && e != s.other ==>
      Distance(s.other.id, s.stale.id) < Distance(e.id, s.stale.id)
  {
    hide Accepted, B.BucketOk, Distance, Scene.LiveApart;
    StaleOnce(s);
    LiveOnes(s);
    assert s.stale in s.Entries() && Accepted(s.stale.id, s.stale.addr);
  }

  lemma LiveOnes(s: Scene)
    requires s.Ok()
    ensures forall e :: e in s.Entries() ==> e.Healthy()
    ensures forall e :: e in s.Entries() && e != s.stale && e != s.other ==> e in s.rest
  {
    hide Accepted, B.BucketOk, Distance, Scene.IdsOk;
  }

  lemma BothAreNearest(s: Scene)
    requires s.Ok()
    ensures var near := N.Closest(B.IdOf, B.IsHealthy, s.Entries(), s.stale.id, 20);
      |near| >= 2 && near[0] == s.stale && near[1] == s.other
  {
    NearFacts(s);
    hide Scene.Ok, Scene.Entries, N.Closest, Distance;
    TwoNearest(s.Entries(), s.stale.id, s.stale, s.other);
  }

  lemma PlanOfFirst(p: Params, table: seq<B.Bucket>, a: B.RoutingEntry, b: B.RoutingEntry)
    requires p.concurrency == 2
    requires var near := N.Closest(B.IdOf, B.IsHealthy, B.Flat(table), p.target, 20);
      |near| >= 2 && near[0] == a && near[1] == b
    ensures Plan(p, table, {}) == [a, b]
  {
    var near := N.Closest(B.IdOf, B.IsHealthy, B.Flat(table), p.target, 20);
    hide N.Closest, B.Flat;
    FilterAll(Unasked({}), near);
  }

  lemma BothAreAsked(s: Scene)
    requires s.Ok()
    ensures Plan(s.Lookup(), s.Table(), {}) == [s.stale, s.other]
  {
    BothAreNearest(s);
    FlatOfOne(s.Table()[0]);
    PlanOfFirst(s.Lookup(), s.Table(), s.stale, s.other);
  }

  // ---- the first reply ----

  /** The bucket with the newcomer in the stale node's place. */
  function Replaced(s: Scene): (r: seq<B.RoutingEntry>)
    ensures |r| == |s.rest| + 2
  {
    Sort(B.LastSeen, s.Entries()[0 := s.newcomer])
  }

  lemma ReplacedMembers(s: Scene)
    ensures forall e :: e in Replaced(s) <==> e == s.newcomer || e == s.other || e in s.rest
  {
    SortMembers(B.LastSeen, s.Entries()[0 := s.newcomer]);
    hide Sort;
    assert s.Entries()[0 := s.newcomer] == [s.newcomer, s.other] + s.rest;
  }

  lemma FirstStaleReplaced(es: seq<B.RoutingEntry>, e: B.RoutingEntry)
    requires |es| == B.K && es[0].Expired(e.lastSeen) && forall j :: 0 <= j < |es| ==> es[j].addr != e.addr
    ensures B.Place(es, e) == B.Placed(Sort(B.LastSeen, es[0 := e]), [es[0]])
  {
    hide Sort;
    PositionUnique(B.HasAddr(e.addr), es, B.K);
    PositionUnique(B.Replaceable(e.lastSeen), es, 0);
  }

  /** A bucket of prefix 0 that is the only one takes what it has room for. */
  lemma InsertIntoOnly(own: NodeId, es: seq<B.RoutingEntry>, e: B.RoutingEntry)
    requires B.Place(es, e).Placed?
    ensures B.InsertEntry(own, [B.Bucket(0, es)], e).buckets == [B.Bucket(0, B.Place(es, e).entries)]
  {
    hide B.Place;
  }

  lemma NewcomerReplacesStale(s: Scene)
    requires s.Ok()
    ensures B.InsertEntry(s.own, s.Table(), s.newcomer).buckets == [B.Bucket(0, Replaced(s))]
  {
    var es := s.Entries();
    forall j | 0 <= j < |es|
      ensures es[j].addr != s.newcomer.addr
    {
      if j >= 2 {
        assert es[j] in s.rest;
      }
    }
    hide Accepted, Sort, B.InsertEntry, Distance, B.BucketOk;
    FirstStaleReplaced(es, s.newcomer);
    InsertIntoOnly(s.own, es, s.newcomer);
  }

  lemma OneFitNode(p: Params, table: seq<B.Bucket>, asked: set<SocketAddr>, nodes: seq<DhtNode>, e: B.RoutingEntry)
    requires |table| > 0 && e.failures == 0
    requires nodes == [DhtNode(e.id, e.addr.ToSocket())] && e.addr.ToSocket() !in asked && Accepted(e.id, e.addr)
    ensures AdmitAll(p, table, asked, nodes, e.lastSeen) == B.InsertEntry(p.own, table, e).buckets
  {
    hide Accepted, B.InsertEntry;
    PackingIsABijection(e.addr.ToSocket(), e.addr);
    assert nodes[..0] == [];
    assert AdmitAll(p, table, asked, [], e.lastSeen) == table;
  }

  /** A full bucket with an entry under our own id splits, and its far half has room. */
  lemma FullBucketSplits(own: NodeId, es: seq<B.RoutingEntry>, e: B.RoutingEntry, x: B.RoutingEntry)
    requires |es| == B.K && x in es && x.id == own
    requires forall y :: y in es ==> y.addr != e.addr && y.Healthy() && !y.Expired(e.lastSeen)
    ensures B.InsertEntry(own, [B.Bucket(0, es)], e).ok
  {
    var bs := [B.Bucket(0, es)];
    assert B.Place(es, e) == B.Full by {
      assert forall j :: 0 <= j < |es| ==> !B.HasAddr(e.addr)(es[j]) && !B.Replaceable(e.lastSeen)(es[j]);
      PositionUnique(B.HasAddr(e.addr), es, B.K);
      PositionUnique(B.Replaceable(e.lastSeen), es, B.K);
    }
    RoomInFarHalf(own, es, e, x);
    SplitOfOne(own, bs[0]);
    SecondIsNotFound(own, B.FarHalf(own, bs[0]), B.NearHalf(own, bs[0]), e.id);
    assert B.FindBucket(own, bs, e.id) == 0;
    hide Filter, PrefixLen, B.FindBucket, B.Split, B.Place;
  }

  lemma RoomInFarHalf(own: NodeId, es: seq<B.RoutingEntry>, e: B.RoutingEntry, x: B.RoutingEntry)
    requires |es| == B.K && x in es && x.id == own
    ensures B.Place(B.FarHalf(own, B.Bucket(0, es)).entries, e).Placed?
  {
    PrefixLenBoundsDistance(own, own, own, own);
    hide PrefixLen;
    FilterSome(B.Far(own, 1), es, x);
    hide Filter;
  }

  lemma SplitOfOne(own: NodeId, b: B.Bucket)
    requires b.prefixLen == 0
    ensures B.Split(own, [b], 0) == [B.FarHalf(own, b), B.NearHalf(own, b)]
  {
    hide Filter, PrefixLen;
    var far, near := B.FarHalf(own, b), B.NearHalf(own, b);
    PositionUnique(B.Deeper(near.prefixLen), [far], 1);
    assert [b][0 := far] == [far];
  }

  lemma SecondIsNotFound(own: NodeId, far: B.Bucket, near: B.Bucket, id: NodeId)
    requires far.prefixLen == near.prefixLen
    ensures B.FindBucket(own, [far, near], id) == 0
  {
    hide PrefixLen;
    assert B.Covers(own, id)(near) == B.Covers(own, id)(far);
  }

  lemma NewcomerFacts(s: Scene)
    requires s.Ok()
    ensures s.newcomer.failures == 0 && Accepted(s.newcomer.id, s.newcomer.addr)
    ensures s.newcomer.addr.ToSocket() != s.stale.addr.ToSocket() &&
      s.newcomer.addr.ToSocket() != s.other.addr.ToSocket()
  {
    hide Accepted, B.BucketOk, Distance;
  }

  lemma FirstReplyAdmits(s: Scene, asked: set<SocketAddr>)
    requires s.Ok() && asked == {s.stale.addr.ToSocket(), s.other.addr.ToSocket()}
    ensures AdmitAll(s.Lookup(), s.Table(), asked, s.OtherReply().nodes,
      s.newcomer.lastSeen) == [B.Bucket(0, Replaced(s))]
  {
    hide Accepted, B.InsertEntry, AdmitAll, Replaced, Scene.Ok, Scene.Table, Scene.Entries;
    NewcomerReplacesStale(s);
    NewcomerFacts(s);
    OneFitNode(s.Lookup(), s.Table(), asked, s.OtherReply().nodes, s.newcomer);
  }

  lemma ReplacedIsLive(s: Scene)
    requires s.Ok()
    ensures s.newcomer in Replaced(s) && s.other in Replaced(s)
    ensures forall e :: e in Replaced(s) ==>
      e.addr != s.stale.addr && e.Healthy() && !e.Expired(s.newcomer.lastSeen)
  {
    ReplacedMembers(s);
    hide Replaced, Accepted, B.BucketOk, Distance;
  }

  lemma StaleIsGone(s: Scene)
    requires s.Ok()
    ensures !Holds([B.Bucket(0, Replaced(s))], s.stale.addr)
  {
    FlatOfOne(B.Bucket(0, Replaced(s)));
    ReplacedIsLive(s);
    hide Replaced, Scene.Ok;
  }

  /** An insertion does not displace a live entry at another address. */
  lemma LiveEntryStays(own: NodeId, table: seq<B.Bucket>, e: B.RoutingEntry, x: B.RoutingEntry)
    requires B.TableOk(table) && x in B.Flat(table)
    requires x.addr != e.addr && x.Healthy() && !x.Expired(e.lastSeen)
    ensures x in B.Flat(B.InsertEntry(own, table, e).buckets)
  {
    var r := B.InsertEntry(own, table, e);
    B.InsertEntryConserves(own, table, e);
    hide B.InsertEntry, B.TableOk;
    var now, was, out := multiset(B.Flat(r.buckets)), multiset(B.Flat(table)), multiset(r.displaced);
    hide B.Flat;
    forall d | d in r.displaced
      ensures d != x
    {
      assert B.MayDisplace(d, e);
    }
    assert x !in out;
    assert (now + out)[x] >= was[x];
  }

  /** After the first reply the other node's id stands at the stale node's address. */
  lemma FirstReply(s: Scene, asked: set<SocketAddr>)
    requires s.Ok() && asked == {s.stale.addr.ToSocket(), s.other.addr.ToSocket()}
    ensures var next := AfterReply(s.Lookup(), s.Table(), asked, s.stale.addr, s.OtherReply());
      B.TableOk(next) && (s.other.id, s.stale.addr) in Pairs(next) && Holds(next, s.other.addr)
  {
    SceneIsFit(s);
    AdmitAllOk(s.Lookup(), s.Table(), asked, s.OtherReply().nodes, s.newcomer.lastSeen);
    FirstReplyAdmits(s, asked);
    hide Replaced, Scene.Ok, Pairs, Holds, B.TableOk, Succeeded, AdmitAll;
    ResponderSlipsIn(s);
  }

  lemma ResponderSlipsIn(s: Scene)
    requires s.Ok() && B.TableOk([B.Bucket(0, Replaced(s))])
    ensures var next := Succeeded(s.Lookup(), [B.Bucket(0, Replaced(s))], s.stale.addr, s.other.id,
      s.newcomer.lastSeen);
      B.TableOk(next) && (s.other.id, s.stale.addr) in Pairs(next) && Holds(next, s.other.addr)
  {
    var mid, e := [B.Bucket(0, Replaced(s))], B.RoutingEntry(s.other.id, s.stale.addr, s.newcomer.lastSeen, 0);
    ReplacedIsLive(s);
    assert s.newcomer.id == s.own;
    hide Replaced, Scene.Ok, B.InsertEntry, Pairs, B.TableOk;
    StaleIsGone(s);
    FullBucketSplits(s.own, Replaced(s), e, s.newcomer);
    SuccessPairs(s.Lookup(), mid, s.stale.addr, s.other.id, s.newcomer.lastSeen);
    FlatOfOne(mid[0]);
    LiveEntryStays(s.own, mid, e, s.other);
    B.FlatHolds(mid, s.stale.addr);
  }

  // ---- the whole lookup ----

  lemma SecondReply(s: Scene, table: seq<B.Bucket>, asked: set<SocketAddr>)
    requires B.TableOk(table) && Holds(table, s.other.addr)
    ensures Pairs(AfterReply(s.Lookup(), table, asked, s.other.addr, s.StaleReply())) == Pairs(table)
  {
    hide B.TableOk, Pairs, Holds, Succeeded;
    SuccessPairs(s.Lookup(), table, s.other.addr, s.stale.id, s.newcomer.lastSeen);
  }

  /** A lookup of one round. */
  lemma OneRound(p: Params, start: seq<B.Bucket>, queried: seq<B.RoutingEntry>, net: Network)
    requires |start| > 0 && queried != [] && Plan(p, start, {}) == queried
    ensures var log := [Round(start, queried, Closer(p, queried[0].id, FarthestId()))];
      Follows(p, start, log, net) &&
      TableAfter(p, start, log, net) == AfterReplies(p, start, Sockets(queried), queried, 0, |queried|, net)
  {
    hide Plan, Closer, AfterReplies, Value, FarthestId, Follows, TableAfter, Reported, ReportedIn, Stalls, Sockets;
    var r := Round(start, queried, Closer(p, queried[0].id, FarthestId()));
    EmptyLog(p, start, net, 0);
    assert TableAfter(p, start, [], net) == start && Stalls([]) == 0 && Asked([]) == {};
    AppendRound(p, start, [], net, r);
    assert [] + [r] == [r];
    assert {} + Sockets(queried) == Sockets(queried);
  }

  lemma TwoReplies(p: Params, start: seq<B.Bucket>, asked: set<SocketAddr>, a: B.RoutingEntry, b: B.RoutingEntry,
                   net: Network)
    requires |start| > 0
    ensures AfterReplies(p, start, asked, [a, b], 0, 2, net)
         == AfterReply(p, AfterReply(p, start, asked, a.addr, net(0, 0)), asked, b.addr, net(0, 1))
  {
    hide AfterReply;
    assert AfterReplies(p, start, asked, [a, b], 0, 0, net) == start;
    assert AfterReplies(p, start, asked, [a, b], 0, 1, net) == AfterReply(p, start, asked, a.addr, net(0, 0));
  }

  /** The one round of the lookup. */
  function Log(s: Scene): seq<Round> {
    [Round(s.Table(), [s.stale, s.other], Closer(s.Lookup(), s.stale.id, FarthestId()))]
  }

  lemma TwoSockets(a: B.RoutingEntry, b: B.RoutingEntry)
    ensures Sockets([a, b]) == {a.addr.ToSocket(), b.addr.ToSocket()}
  {
    assert a in [a, b] && b in [a, b];
  }

  /** In such a scene every id fits and every sender is honest, the lookup follows the rules, and it ends with the
      other node's id at the stale node's address. */
  lemma SwappedRepliesUnfit(s: Scene)
    requires s.Ok()
    ensures s.Lookup().bep42 && B.TableOk(s.Table()) && Unfit(s.Table()) == {}
    ensures Follows(s.Lookup(), s.Table(), Log(s), s.Swapped()) && Honest(Log(s), s.Swapped())
    ensures !FitBut(Unfit(s.Table()), TableAfter(s.Lookup(), s.Table(), Log(s), s.Swapped()))
  {
    SceneIsFit(s);
    EverybodyIsHonest(s, Log(s));
    BothAreAsked(s);
    OneRound(s.Lookup(), s.Table(), [s.stale, s.other], s.Swapped());
    TwoReplies(s.Lookup(), s.Table(), Sockets([s.stale, s.other]), s.stale, s.other, s.Swapped());
    TwoSockets(s.stale, s.other);
    FirstReply(s, Sockets([s.stale, s.other]));
    SecondReply(s, AfterReply(s.Lookup(), s.Table(), Sockets([s.stale, s.other]), s.stale.addr, s.OtherReply()),
                Sockets([s.stale, s.other]));
    assert !Fits((s.other.id, s.stale.addr));
    hide Accepted, Scene.Ok, AfterReply, AfterReplies, Follows, TableAfter, Sockets, Pairs, Plan, Closer, B.TableOk;
  }

  // ---- such a scene ----

  /** The stale node at 0.0.0.0:1 under an id that fits, the others at IPv6 addresses, where every id fits; the
      other node's id differs from the stale node's in the third byte, ours in the first. */
  function SceneOf(fit: NodeId): Scene {
    Scene(WithByte(fit, 0, 128), B.RoutingEntry(fit, V4([0, 0, 0, 0, 0, 1]), 0, 0),
          SeenNow(WithByte(fit, 2, 8), 100), seq(18, i requires 0 <= i < 18 => SeenNow(WithByte(fit, 0, 128), i)),
          SeenNow(WithByte(fit, 0, 128), 19))
  }

  function WithByte(id: NodeId, i: nat, add: nat): (r: NodeId)
    requires i < 20
    ensures forall j :: 0 <= j < 20 && j != i ==> r[j] == id[j]
  {
    var b: int := id[i];
    id[i := (b + add) % 256]
  }

  function SeenNow(id: NodeId, first: Byte): B.RoutingEntry {
    B.RoutingEntry(id, V6([first] + seq(17, _ => 0)), 4000, 0)
  }

  lemma SeenNowIs(id: NodeId, first: Byte)
    ensures var e := SeenNow(id, first);
      e.id == id && e.addr.V6? && e.addr.buf6[0] == first && e.lastSeen == 4000 && e.failures == 0 &&
      e.Healthy() && !e.Expired(4000) && Accepted(id, e.addr) && e.addr.ToSocket().ip.IpV6? &&
      e.addr.ToSocket().ip.octets6[0] == first
  {}

  lemma XorByteZero(a: Byte, b: Byte)
    ensures XorByte(a, b) == 0 <==> a == b
  {
    assert Pow2(8) == 256 && Pow2(0) == 1;
    XorBitsSmall(8, 0, a, b);
  }

  lemma OtherIsNearer(fit: NodeId)
    ensures Distance(WithByte(fit, 2, 8), fit) < Distance(WithByte(fit, 0, 128), fit)
  {
    var a, b := Xor(WithByte(fit, 2, 8), fit), Xor(WithByte(fit, 0, 128), fit);
    XorByteZero(WithByte(fit, 2, 8)[0], fit[0]);
    XorByteZero(WithByte(fit, 0, 128)[0], fit[0]);
    hide XorByte;
    assert a[..0] == b[..0];
    FirstDifferenceDecides(a, b, 0);
  }

  lemma OtherDoesNotFit(fit: NodeId)
    requires AcceptedV4(fit, [0, 0, 0, 0])
    ensures Accepted(fit, V4([0, 0, 0, 0, 0, 1])) && !Accepted(WithByte(fit, 2, 8), V4([0, 0, 0, 0, 0, 1]))
  {
    hide AcceptedV4, WithByte;
    var addr := V4([0, 0, 0, 0, 0, 1]);
    assert addr.Ip() == IpV4([0, 0, 0, 0]);
    ThirdByteDecides(fit, [0, 0, 0, 0]);
  }

  lemma ThirdByteDecides(fit: NodeId, ip: Octets4)
    requires AcceptedV4(fit, ip)
    ensures !AcceptedV4(WithByte(fit, 2, 8), ip)
  {
    hide Crc, Masked, HighFive, ByteFrom;
    ThirdByteCounts(fit[2]);
  }

  lemma ThirdByteCounts(b: Byte)
    ensures var c: int := b; HighFive((c + 8) % 256) != HighFive(b)
  {}

  lemma SceneEntry(fit: NodeId, i: nat)
    requires i < 20
    ensures var s := SceneOf(fit);
      s.Entries()[i] == if i == 0 then s.stale else if i == 1 then s.other else SeenNow(WithByte(fit, 0, 128), i - 2)
  {
    hide SeenNow, WithByte;
  }

  lemma EntriesDiffer(fit: NodeId, i: nat, j: nat)
    requires i < j < 20
    ensures var es := SceneOf(fit).Entries(); es[i].addr != es[j].addr && es[i].lastSeen <= es[j].lastSeen
  {
    SceneEntry(fit, i);
    SceneEntry(fit, j);
    SeenNowIs(WithByte(fit, 2, 8), 100);
    if i > 1 {
      SeenNowIs(WithByte(fit, 0, 128), i - 2);
    }
    if j > 1 {
      SeenNowIs(WithByte(fit, 0, 128), j - 2);
    }
    hide SeenNow, WithByte, Scene.Entries, Accepted;
  }

  lemma SceneBucketOk(fit: NodeId)
    ensures B.BucketOk(SceneOf(fit).Entries())
  {
    var es := SceneOf(fit).Entries();
    hide Scene.Entries;
    forall i: nat, j: nat | i < j < |es|
      ensures B.AddrOf(es[i]) != B.AddrOf(es[j]) && B.LastSeen(es[i]) <= B.LastSeen(es[j])
    {
      EntriesDiffer(fit, i, j);
    }
    hide SceneOf;
  }

  lemma SceneIdsOk(fit: NodeId)
    requires AcceptedV4(fit, [0, 0, 0, 0])
    ensures SceneOf(fit).IdsOk()
  {
    var s := SceneOf(fit);
    OtherDoesNotFit(fit);
    OtherIsNearer(fit);
    SeenNowIs(WithByte(fit, 2, 8), 100);
    SeenNowIs(WithByte(fit, 0, 128), 19);
    hide Accepted, Distance, SeenNow, WithByte;
    forall e | e in s.rest
      ensures e.id == s.own && Accepted(e.id, e.addr)
    {
      var i :| 0 <= i < 18 && s.rest[i] == e;
      SeenNowIs(s.own, i);
    }
  }

  lemma RestIsLive(fit: NodeId)
    ensures var s := SceneOf(fit); s.LiveApart(s.other) && forall e :: e in s.rest ==> s.LiveApart(e)
  {
    var s := SceneOf(fit);
    SeenNowIs(WithByte(fit, 2, 8), 100);
    SeenNowIs(WithByte(fit, 0, 128), 19);
    hide SeenNow, WithByte, Accepted;
    forall e | e in s.rest
      ensures s.LiveApart(e)
    {
      var i :| 0 <= i < 18 && s.rest[i] == e;
      SeenNowIs(s.own, i);
    }
  }

  lemma SceneIsOk(fit: NodeId)
    requires AcceptedV4(fit, [0, 0, 0, 0])
    ensures SceneOf(fit).Ok()
  {
    SceneBucketOk(fit);
    SceneIdsOk(fit);
    RestIsLive(fit);
    SeenNowIs(WithByte(fit, 2, 8), 100);
    SeenNowIs(WithByte(fit, 0, 128), 19);
    hide SeenNow, WithByte, Accepted, B.BucketOk, Scene.IdsOk, Scene.LiveApart;
  }

  /** For the stale node's id any id generated for 0.0.0.0 will do: a lookup under BEP 42 with honest replies ends
      with an unfit id in a table that had none. */
  lemma LookupAdmitsUnfitId(fill: NodeId)
    ensures var s := SceneOf(GeneratedId([0, 0, 0, 0], fill));
      s.Lookup().bep42 && B.TableOk(s.Table()) && Unfit(s.Table()) == {} &&
      Follows(s.Lookup(), s.Table(), Log(s), s.Swapped()) && Honest(Log(s), s.Swapped()) &&
      !FitBut({}, TableAfter(s.Lookup(), s.Table(), Log(s), s.Swapped()))
  {
    var fit := GeneratedId([0, 0, 0, 0], fill);
    SceneIsOk(fit);
    hide GeneratedId, SceneOf, Scene.Ok, Follows, TableAfter, FitBut, Unfit, Honest, B.TableOk, Log;
    SwappedRepliesUnfit(SceneOf(fit));
  }
}
