/** Whether the ids in the routing table fit their addresses under BEP 42: what a lookup adds to the unfit
    pairs it starts with, and exactly when. */
module Fitness {
  import opened Bytes
  import opened Addresses
  import opened XorMetric
  import opened Sorting
  import opened NodeIdSecurity
  import opened CompactInfo
  import opened Lookup
  import B = Buckets

  /** A node as the table knows it: under an id, at an address. */
  type Pair = (NodeId, CompactAddr)

  ghost function Pairs(table: seq<B.Bucket>): set<Pair> {
    set e | e in B.Flat(table) :: (e.id, e.addr)
  }

  predicate Fits(q: Pair) {
    Accepted(q.0, q.1)
  }

  ghost predicate Holds(table: seq<B.Bucket>, addr: CompactAddr) {
    exists e :: e in B.Flat(table) && e.addr == addr
  }

  /** The unfit pairs of a table, such as bootstrap addresses under random ids. */
  ghost function Unfit(table: seq<B.Bucket>): set<Pair> {
    set q | q in Pairs(table) && !Fits(q)
  }

  /** Every pair of the table fits, but for some that are known. */
  ghost predicate FitBut(base: set<Pair>, table: seq<B.Bucket>) {
    forall q :: q in Pairs(table) ==> Fits(q) || q in base
  }

  lemma FitButUnfit(table: seq<B.Bucket>)
    ensures FitBut(Unfit(table), table)
  {}

  // ---- what single steps do to the pairs ----

  lemma TradedMembers<T(!new)>(now: multiset<T>, was: multiset<T>, out: multiset<T>, e: T, ok: bool)
    requires now + out == was + (if ok then multiset{e} else multiset{})
    requires |out| <= 1 && forall d :: d in out ==> d in was
    ensures forall x :: x in now ==> x in was || (ok && x == e)
    ensures ok ==> e in now
  {
    var total := was + (if ok then multiset{e} else multiset{});
    forall x | x in now
      ensures x in was || (ok && x == e)
    {
      assert (now + out)[x] == total[x];
    }
    assert (now + out)[e] == total[e];
    assert out[e] <= 1 by {
      AtMostSize(out, e);
    }
  }

  lemma AtMostSize<T(!new)>(m: multiset<T>, x: T)
    ensures m[x] <= |m|
  {
    assert m == m[x := 0] + multiset{}[x := m[x]];
  }

  lemma TradedSeqs(now: seq<B.RoutingEntry>, was: seq<B.RoutingEntry>, out: seq<B.RoutingEntry>, e: B.RoutingEntry,
                   ok: bool)
    requires multiset(now) + multiset(out) == multiset(was) + (if ok then multiset{e} else multiset{})
    requires |out| <= 1 && forall d :: d in out ==> d in was
    ensures forall x :: x in now ==> x in was || (ok && x == e)
    ensures ok ==> e in now
  {
    forall d | d in multiset(out)
      ensures d in multiset(was)
    {
      assert d in out;
    }
    TradedMembers(multiset(now), multiset(was), multiset(out), e, ok);
    forall x | x in now
      ensures x in was || (ok && x == e)
    {
      assert x in multiset(now);
    }
    assert ok ==> e in multiset(now);
  }

  /** An insertion that succeeds brings in its pair; nothing else comes in. */
  lemma InsertionPairs(own: NodeId, table: seq<B.Bucket>, e: B.RoutingEntry)
    requires B.TableOk(table)
    ensures var r := B.InsertEntry(own, table, e);
      B.TableOk(r.buckets) && Pairs(r.buckets) <= Pairs(table) + (if r.ok then {(e.id, e.addr)} else {}) &&
      (r.ok ==> (e.id, e.addr) in Pairs(r.buckets))
  {
    var r := B.InsertEntry(own, table, e);
    B.InsertEntryConserves(own, table, e);
    hide B.InsertEntry, B.TableOk, B.Flat;
    TradedSeqs(B.Flat(r.buckets), B.Flat(table), r.displaced, e, r.ok);
  }

  /** Touching or failing an entry changes no id and no address. */
  lemma RewriteKeepsPairs(table: seq<B.Bucket>, addr: CompactAddr, now: U32)
    requires B.TableOk(table)
    ensures B.TableOk(B.AtFirstHolder(table, addr, B.Touching(addr, now)))
    ensures Pairs(B.AtFirstHolder(table, addr, B.Touching(addr, now))) == Pairs(table)
    ensures B.TableOk(B.AtFirstHolder(table, addr, B.Failing(addr)))
    ensures Pairs(B.AtFirstHolder(table, addr, B.Failing(addr))) == Pairs(table)
  {
    B.RewriteEffect(table, addr, now);
    var i := Position(B.HoldsAddr(addr), table);
    if i < |table| {
      SamePairsTouched(table[i].entries, addr, now);
      SamePairsFailed(table[i].entries, addr);
      hide B.TableOk, B.Touch, B.Fail;
      UpdateKeepsPairs(table, i, B.Touch(table[i].entries, addr, now));
      UpdateKeepsPairs(table, i, B.Fail(table[i].entries, addr));
    }
  }

  /** The same pairs, in whatever order. */
  ghost predicate SamePairs(es: seq<B.RoutingEntry>, fs: seq<B.RoutingEntry>) {
    (forall x :: x in es ==> HasPair(fs, x.id, x.addr)) && (forall y :: y in fs ==> HasPair(es, y.id, y.addr))
  }

  ghost predicate HasPair(es: seq<B.RoutingEntry>, id: NodeId, addr: CompactAddr) {
    exists x :: x in es && x.id == id && x.addr == addr
  }

  lemma OneRewritten(es: seq<B.RoutingEntry>, p: nat, e: B.RoutingEntry)
    requires p < |es| && e.id == es[p].id && e.addr == es[p].addr
    ensures SamePairs(es[p := e], es)
  {
    var fs := es[p := e];
    forall x | x in fs
      ensures HasPair(es, x.id, x.addr)
    {
      var i :| 0 <= i < |fs| && fs[i] == x;
      assert es[i] in es;
    }
    forall y | y in es
      ensures HasPair(fs, y.id, y.addr)
    {
      var i :| 0 <= i < |es| && es[i] == y;
      assert fs[i] in fs;
    }
  }

  lemma SameMembers(es: seq<B.RoutingEntry>, fs: seq<B.RoutingEntry>, gs: seq<B.RoutingEntry>)
    requires SamePairs(es, fs) && forall x :: x in gs <==> x in es
    ensures SamePairs(gs, fs)
  {
    forall y | y in fs
      ensures HasPair(gs, y.id, y.addr)
    {
      PairAmong(es, gs, y.id, y.addr);
    }
    hide HasPair;
  }

  lemma PairAmong(es: seq<B.RoutingEntry>, gs: seq<B.RoutingEntry>, id: NodeId, addr: CompactAddr)
    requires HasPair(es, id, addr) && forall x :: x in es ==> x in gs
    ensures HasPair(gs, id, addr)
  {}

  lemma Reflexive(es: seq<B.RoutingEntry>)
    ensures SamePairs(es, es)
  {}

  lemma SamePairsTouched(es: seq<B.RoutingEntry>, addr: CompactAddr, now: U32)
    ensures SamePairs(B.Touch(es, addr, now), es)
  {
    var p := Position(B.HasAddr(addr), es);
    if p < |es| {
      var fs := es[p := es[p].(lastSeen := now, failures := 0)];
      hide SamePairs, Sort;
      assert B.Touch(es, addr, now) == Sort(B.LastSeen, fs);
      OneRewritten(es, p, fs[p]);
      SortMembers(B.LastSeen, fs);
      SameMembers(fs, es, Sort(B.LastSeen, fs));
    } else {
      Reflexive(es);
    }
  }

  lemma SamePairsFailed(es: seq<B.RoutingEntry>, addr: CompactAddr)
    ensures SamePairs(B.Fail(es, addr), es)
  {
    var p := Position(B.HasAddr(addr), es);
    if p < |es| {
      var fs := B.Fail(es, addr);
      hide SamePairs;
      assert fs == es[p := fs[p]];
      hide B.Fail;
      OneRewritten(es, p, fs[p]);
    } else {
      Reflexive(es);
    }
  }

  lemma UpdateKeepsPairs(table: seq<B.Bucket>, i: nat, es: seq<B.RoutingEntry>)
    requires i < |table| && SamePairs(es, table[i].entries)
    ensures Pairs(table[i := table[i].(entries := es)]) == Pairs(table)
  {
    var next := table[i := table[i].(entries := es)];
    B.FlatAround(table, i);
    B.FlatAround(next, i);
    assert next[..i] == table[..i] && next[i + 1..] == table[i + 1..];
    SubstitutedPairs(B.Flat(table[..i]), es, table[i].entries, B.Flat(table[i + 1..]));
  }

  ghost function PairsOf(es: seq<B.RoutingEntry>): set<Pair> {
    set e | e in es :: (e.id, e.addr)
  }

  lemma SubstitutedPairs(a: seq<B.RoutingEntry>, es: seq<B.RoutingEntry>, fs: seq<B.RoutingEntry>,
                         b: seq<B.RoutingEntry>)
    requires SamePairs(es, fs)
    ensures PairsOf(a + (es + b)) == PairsOf(a + (fs + b))
  {
    assert PairsOf(es) == PairsOf(fs) by {
      forall q | q in PairsOf(es) || q in PairsOf(fs)
        ensures q in PairsOf(es) && q in PairsOf(fs)
      {}
    }
    ConcatPairs(es, b);
    ConcatPairs(fs, b);
    ConcatPairs(a, es + b);
    ConcatPairs(a, fs + b);
  }

  lemma ConcatPairs(a: seq<B.RoutingEntry>, b: seq<B.RoutingEntry>)
    ensures PairsOf(a + b) == PairsOf(a) + PairsOf(b)
  {
    forall q | q in PairsOf(a) + PairsOf(b)
      ensures q in PairsOf(a + b)
    {
      var e :| (e in a || e in b) && q == (e.id, e.addr);
      assert e in a + b;
    }
  }

  /** `mark_node_success` brings in the pair of the responder exactly when its address is not held and there is
      room; a held entry keeps its id, whatever id is reported. */
  lemma SuccessPairs(p: Params, table: seq<B.Bucket>, addr: CompactAddr, id: NodeId, now: U32)
    requires B.TableOk(table)
    ensures var next := Succeeded(p, table, addr, id, now);
      var ok := B.InsertEntry(p.own, table, B.RoutingEntry(id, addr, now, 0)).ok;
      B.TableOk(next) &&
      (Holds(table, addr) ==> Pairs(next) == Pairs(table)) &&
      (!Holds(table, addr) && !ok ==> Pairs(next) <= Pairs(table)) &&
      (!Holds(table, addr) && ok ==> (id, addr) in Pairs(next) && Pairs(next) <= Pairs(table) + {(id, addr)})
  {
    B.FlatHolds(table, addr);
    RewriteKeepsPairs(table, addr, now);
    InsertionPairs(p.own, table, B.RoutingEntry(id, addr, now, 0));
    hide Pairs, B.InsertEntry, B.TableOk, B.AtFirstHolder;
  }

  lemma PairsHold(table: seq<B.Bucket>, q: Pair)
    requires q in Pairs(table)
    ensures Holds(table, q.1)
  {}

  /** The table after any number of answers from one address, each with an id of its own. */
  function Answered(p: Params, table: seq<B.Bucket>, addr: CompactAddr, answers: seq<(NodeId, U32)>): (r: seq<B.Bucket>)
    requires |table| > 0
    ensures |r| > 0
    decreases |answers|
  {
    if answers == [] then table
    else Answered(p, Succeeded(p, table, addr, answers[0].0, answers[0].1), addr, answers[1..])
  }

  /** A held entry keeps its id however often its node answers, so a bootstrap entry keeps the random id it was
      given. */
  lemma {:induction false} HeldEntryKeepsId(p: Params, table: seq<B.Bucket>, addr: CompactAddr,
                                            answers: seq<(NodeId, U32)>)
    requires B.TableOk(table) && Holds(table, addr)
    ensures Pairs(Answered(p, table, addr, answers)) == Pairs(table)
    decreases |answers|
  {
    if answers == [] {
    } else {
      SuccessPairs(p, table, addr, answers[0].0, answers[0].1);
      var e :| e in B.Flat(table) && e.addr == addr;
      var next := Succeeded(p, table, addr, answers[0].0, answers[0].1);
      assert (e.id, e.addr) in Pairs(table);
      PairsHold(next, (e.id, e.addr));
      hide Succeeded, B.TableOk, Pairs;
      HeldEntryKeepsId(p, next, addr, answers[1..]);
    }
  }

  // ---- what single steps do to fitness ----

  /** `mark_node_success` adds an unfit pair exactly when the responder is no longer held, the id it reports does
      not fit its address, and the insertion finds room. */
  lemma SuccessFit(p: Params, table: seq<B.Bucket>, addr: CompactAddr, id: NodeId, now: U32)
    requires B.TableOk(table)
    ensures FitBut(Unfit(table), Succeeded(p, table, addr, id, now)) <==>
      Holds(table, addr) || Accepted(id, addr) || !B.InsertEntry(p.own, table, B.RoutingEntry(id, addr, now, 0)).ok
  {
    FitButUnfit(table);
    SuccessFitBut(Unfit(table), p, table, addr, id, now);
    if (id, addr) in Unfit(table) {
      PairsHold(table, (id, addr));
    }
  }

  /** The same, when some unfit pairs are known from before. */
  lemma SuccessFitBut(base: set<Pair>, p: Params, table: seq<B.Bucket>, addr: CompactAddr, id: NodeId, now: U32)
    requires B.TableOk(table) && FitBut(base, table)
    ensures B.TableOk(Succeeded(p, table, addr, id, now))
    ensures FitBut(base, Succeeded(p, table, addr, id, now)) <==>
      Holds(table, addr) || Accepted(id, addr) || (id, addr) in base ||
      !B.InsertEntry(p.own, table, B.RoutingEntry(id, addr, now, 0)).ok
  {
    SuccessPairs(p, table, addr, id, now);
    hide Pairs, Succeeded, B.InsertEntry, B.TableOk, Accepted, Holds;
  }

  lemma AdmitPairs(p: Params, table: seq<B.Bucket>, node: DhtNode, now: U32)
    requires p.bep42 && B.TableOk(table)
    ensures var next := Admit(p, table, node, now);
      B.TableOk(next) && forall q :: q in Pairs(next) ==> q in Pairs(table) || Fits(q)
  {
    InsertionPairs(p.own, table, B.RoutingEntry(node.id, FromSocket(node.addr), now, 0));
    hide Pairs, B.InsertEntry, B.TableOk, Accepted;
  }

  /** New nodes pass the check, so they add no unfit pair. */
  lemma {:induction false} AdmitAllFit(base: set<Pair>, p: Params, table: seq<B.Bucket>, asked: set<SocketAddr>,
                                       nodes: seq<DhtNode>, now: U32)
    requires p.bep42 && B.TableOk(table) && FitBut(base, table)
    ensures B.TableOk(AdmitAll(p, table, asked, nodes, now)) && FitBut(base, AdmitAll(p, table, asked, nodes, now))
    decreases |nodes|
  {
    assert |table| > 0;
    hide Pairs, Fits, B.TableOk, Admit;
    if nodes == [] {
    } else {
      var n := |nodes| - 1;
      AdmitAllFit(base, p, table, asked, nodes[..n], now);
      AdmitPairs(p, AdmitAll(p, table, asked, nodes[..n], now), nodes[n], now);
    }
  }

  /** The insertion a reply ends with finds the responder gone and room for an id that neither fits its address
      nor is known. */
  ghost predicate SlipsIn(base: set<Pair>, p: Params, table: seq<B.Bucket>, asked: set<SocketAddr>, addr: CompactAddr,
                          reply: Reply)
    requires |table| > 0
  {
    reply.Replied? &&
    var mid := AdmitAll(p, table, asked, reply.nodes, reply.at);
    !Holds(mid, addr) && !Accepted(reply.responderId, addr) && (reply.responderId, addr) !in base &&
    B.InsertEntry(p.own, mid, B.RoutingEntry(reply.responderId, addr, reply.at, 0)).ok
  }

  /** Under BEP 42 one finished query adds an unfit pair exactly when such a responder slips in. */
  lemma ReplyFitBut(base: set<Pair>, p: Params, table: seq<B.Bucket>, asked: set<SocketAddr>, addr: CompactAddr,
                    reply: Reply)
    requires p.bep42 && B.TableOk(table) && FitBut(base, table)
    ensures B.TableOk(AfterReply(p, table, asked, addr, reply))
    ensures FitBut(base, AfterReply(p, table, asked, addr, reply)) <==> !SlipsIn(base, p, table, asked, addr, reply)
  {
    match reply
    case Replied(_, _, nodes, id, at) =>
      AdmitAllFit(base, p, table, asked, nodes, at);
      SuccessFitBut(base, p, AdmitAll(p, table, asked, nodes, at), addr, id, at);
    case Failed =>
      RewriteKeepsPairs(table, addr, 0);
    case Lost =>
  }

  lemma ReplyFit(p: Params, table: seq<B.Bucket>, asked: set<SocketAddr>, addr: CompactAddr, reply: Reply)
    requires p.bep42 && B.TableOk(table)
    ensures FitBut(Unfit(table), AfterReply(p, table, asked, addr, reply)) <==>
      !SlipsIn(Unfit(table), p, table, asked, addr, reply)
  {
    FitButUnfit(table);
    ReplyFitBut(Unfit(table), p, table, asked, addr, reply);
  }

  // ---- whole lookups ----

  lemma {:induction false} AdmitAllOk(p: Params, table: seq<B.Bucket>, asked: set<SocketAddr>, nodes: seq<DhtNode>,
                                      now: U32)
    requires B.TableOk(table)
    ensures B.TableOk(AdmitAll(p, table, asked, nodes, now))
    decreases |nodes|
  {
    assert |table| > 0;
    hide B.TableOk, Pairs, Accepted;
    if nodes == [] {
    } else {
      var n := |nodes| - 1;
      AdmitAllOk(p, table, asked, nodes[..n], now);
      InsertionPairs(p.own, AdmitAll(p, table, asked, nodes[..n], now),
                     B.RoutingEntry(nodes[n].id, FromSocket(nodes[n].addr), now, 0));
    }
  }

  lemma ReplyOk(p: Params, table: seq<B.Bucket>, asked: set<SocketAddr>, addr: CompactAddr, reply: Reply)
    requires B.TableOk(table)
    ensures B.TableOk(AfterReply(p, table, asked, addr, reply))
  {
    match reply
    case Replied(_, _, nodes, id, at) =>
      AdmitAllOk(p, table, asked, nodes, at);
      SuccessPairs(p, AdmitAll(p, table, asked, nodes, at), addr, id, at);
    case Failed =>
      RewriteKeepsPairs(table, addr, 0);
    case Lost =>
  }

  /** A round: its lookup and table, the addresses asked so far, the nodes queried, its number and the network. */
  datatype Batch = Batch(p: Params, table: seq<B.Bucket>, asked: set<SocketAddr>, queried: seq<B.RoutingEntry>,
                         round: nat, net: Network)
  {
    predicate Has(k: nat) {
      |table| > 0 && k <= |queried|
    }

    /** The table after its first k replies. */
    function After(k: nat): (r: seq<B.Bucket>)
      requires Has(k)
      ensures |r| > 0
    {
      AfterReplies(p, table, asked, queried, round, k, net)
    }
  }

  ghost predicate SlipsInAt(base: set<Pair>, b: Batch, k: nat)
    requires b.Has(k + 1)
  {
    SlipsIn(base, b.p, b.After(k), b.asked, b.queried[k].addr, b.net(b.round, k))
  }

  lemma BatchStep(b: Batch, k: nat)
    requires b.Has(k + 1)
    ensures b.After(0) == b.table
    ensures b.After(k + 1) == AfterReply(b.p, b.After(k), b.asked, b.queried[k].addr, b.net(b.round, k))
  {
    hide AfterReply;
  }

  lemma {:induction false} BatchOk(b: Batch, k: nat)
    requires b.Has(k) && B.TableOk(b.table)
    ensures B.TableOk(b.After(k))
  {
    hide B.TableOk, AfterReply;
    if k == 0 {
      assert b.After(0) == b.table;
    } else {
      BatchOk(b, k - 1);
      BatchStep(b, k - 1);
      hide AfterReplies;
      ReplyOk(b.p, b.After(k - 1), b.asked, b.queried[k - 1].addr, b.net(b.round, k - 1));
    }
  }

  lemma BatchStepFit(base: set<Pair>, b: Batch, k: nat)
    requires b.Has(k + 1) && b.p.bep42 && B.TableOk(b.table) && FitBut(base, b.After(k))
    ensures FitBut(base, b.After(k + 1)) <==> !SlipsInAt(base, b, k)
  {
    hide B.TableOk, AfterReply, AfterReplies, SlipsIn, FitBut;
    BatchOk(b, k);
    BatchStep(b, k);
    ReplyFitBut(base, b.p, b.After(k), b.asked, b.queried[k].addr, b.net(b.round, k));
  }

  /** The first n replies of a round add no unfit pair on the way. */
  ghost predicate RoundFits(base: set<Pair>, b: Batch, n: nat)
    requires b.Has(n)
  {
    forall k: nat :: k <= n ==> FitBut(base, b.After(k))
  }

  /** No responder slips in with the first n replies of a round. */
  ghost predicate RoundKeepsOut(base: set<Pair>, b: Batch, n: nat)
    requires b.Has(n)
  {
    forall k: nat :: k < n ==> !SlipsInAt(base, b, k)
  }

  lemma RoundGrows(base: set<Pair>, b: Batch, n: nat)
    requires b.Has(n + 1)
    ensures RoundFits(base, b, n + 1) <==> RoundFits(base, b, n) && FitBut(base, b.After(n + 1))
    ensures RoundFits(base, b, n) ==> FitBut(base, b.After(n))
    ensures RoundKeepsOut(base, b, n + 1) <==> RoundKeepsOut(base, b, n) && !SlipsInAt(base, b, n)
  {
    hide Batch.After, SlipsInAt, FitBut;
  }

  lemma RoundBegins(base: set<Pair>, b: Batch)
    requires b.Has(0)
    ensures RoundFits(base, b, 0) <==> FitBut(base, b.table)
    ensures RoundKeepsOut(base, b, 0)
  {
    hide FitBut, SlipsInAt, AfterReply;
    assert b.After(0) == b.table;
  }

  lemma {:induction false} RoundFit(base: set<Pair>, b: Batch, n: nat)
    requires b.Has(n) && b.p.bep42 && B.TableOk(b.table) && FitBut(base, b.table)
    ensures RoundFits(base, b, n) <==> RoundKeepsOut(base, b, n)
  {
    hide B.TableOk, Batch.After, SlipsInAt, FitBut, RoundFits, RoundKeepsOut;
    if n == 0 {
      RoundBegins(base, b);
    } else {
      RoundFit(base, b, n - 1);
      RoundGrows(base, b, n - 1);
      if RoundFits(base, b, n - 1) {
        BatchStepFit(base, b, n - 1);
      }
    }
  }

  /** The last round of a log. */
  function LastBatch(p: Params, log: seq<Round>, net: Network): (b: Batch)
    requires log != []
    ensures b.p == p && b.table == log[|log| - 1].table && b.queried == log[|log| - 1].queried
  {
    var last := |log| - 1;
    Batch(p, log[last].table, Asked(log), log[last].queried, last, net)
  }

  /** Every table on the way of a lookup fits but for the base. */
  ghost predicate AlwaysFits(base: set<Pair>, p: Params, log: seq<Round>, net: Network) {
    log != [] ==>
      var b := LastBatch(p, log, net);
      AlwaysFits(base, p, log[..|log| - 1], net) && b.table != [] && RoundFits(base, b, |b.queried|)
  }

  /** No responder slips in anywhere on the way. */
  ghost predicate KeepsOut(base: set<Pair>, p: Params, log: seq<Round>, net: Network) {
    log != [] ==>
      var b := LastBatch(p, log, net);
      KeepsOut(base, p, log[..|log| - 1], net) && b.table != [] && RoundKeepsOut(base, b, |b.queried|)
  }

  lemma LastRound(p: Params, start: seq<B.Bucket>, log: seq<Round>, net: Network)
    requires log != [] && Follows(p, start, log, net)
    ensures var front, b := log[..|log| - 1], LastBatch(p, log, net);
      Follows(p, start, front, net) && b.table == TableAfter(p, start, front, net) && b.table != [] &&
      b.Has(|b.queried|) && TableAfter(p, start, log, net) == b.After(|b.queried|)
  {
    hide Plan, Closer, Stalls, Asked, AfterReplies;
  }

  lemma {:induction false} LookupFitBut(base: set<Pair>, p: Params, start: seq<B.Bucket>, log: seq<Round>, net: Network)
    requires p.bep42 && B.TableOk(start) && FitBut(base, start) && Follows(p, start, log, net)
    ensures B.TableOk(TableAfter(p, start, log, net))
    ensures AlwaysFits(base, p, log, net) <==> KeepsOut(base, p, log, net)
    ensures KeepsOut(base, p, log, net) ==> FitBut(base, TableAfter(p, start, log, net))
  {
    hide B.TableOk, FitBut, RoundKeepsOut, RoundFits, Follows, Batch.After, LastBatch;
    if log == [] {
    } else {
      LastRound(p, start, log, net);
      hide TableAfter;
      var front, b := log[..|log| - 1], LastBatch(p, log, net);
      LookupFitBut(base, p, start, front, net);
      BatchOk(b, |b.queried|);
      if KeepsOut(base, p, front, net) {
        RoundFit(base, b, |b.queried|);
        if RoundFits(base, b, |b.queried|) {
          RoundEnds(base, b);
        }
      }
    }
  }

  lemma RoundEnds(base: set<Pair>, b: Batch)
    requires b.Has(|b.queried|) && RoundFits(base, b, |b.queried|)
    ensures FitBut(base, b.After(|b.queried|))
  {
    hide Batch.After, FitBut;
  }

  /** Under BEP 42, from whatever table, a lookup keeps all its tables free of new unfit pairs exactly when no
      responder slips in. */
  lemma LookupFit(p: Params, start: seq<B.Bucket>, log: seq<Round>, net: Network)
    requires p.bep42 && B.TableOk(start) && Follows(p, start, log, net)
    ensures AlwaysFits(Unfit(start), p, log, net) <==> KeepsOut(Unfit(start), p, log, net)
  {
    FitButUnfit(start);
    LookupFitBut(Unfit(start), p, start, log, net);
  }

  // ---- honest responders ----

  /** Every sender reports an id that fits its own address. */
  ghost predicate Honest(log: seq<Round>, net: Network) {
    forall i, k :: 0 <= i < |log| && 0 <= k < |log[i].queried| && net(i, k).Replied? ==>
      Accepted(net(i, k).responderId, FromSocket(net(i, k).sender))
  }

  lemma {:induction false} HonestKeepOut(base: set<Pair>, p: Params, log: seq<Round>, net: Network)
    requires forall i :: 0 <= i < |log| ==> log[i].table != []
    requires Honest(log, net) && InTurn(log, net)
    ensures KeepsOut(base, p, log, net)
  {
    hide Accepted, AfterReplies, Asked;
    if log == [] {
    } else {
      var last := |log| - 1;
      var front, r := log[..last], log[last];
      assert forall i :: 0 <= i < last ==> front[i] == log[i];
      HonestKeepOut(base, p, front, net);
      forall k: nat | k < |r.queried|
        ensures net(last, k).Replied? ==> Accepted(net(last, k).responderId, r.queried[k].addr)
      {
        PackingIsABijection(r.queried[k].addr.ToSocket(), r.queried[k].addr);
      }
    }
  }

  lemma {:induction false} TablesOf(p: Params, start: seq<B.Bucket>, log: seq<Round>, net: Network)
    requires Follows(p, start, log, net)
    ensures forall i :: 0 <= i < |log| ==> log[i].table != []
  {
    hide TableAfter, Plan, Asked, Closer, Stalls;
    if log == [] {
    } else {
      TablesOf(p, start, log[..|log| - 1], net);
    }
  }

  /** If every sender is honest and every query reads the reply of the node it asked, a lookup ends with no unfit
      pair but those it started with, whatever nodes are reported to it. */
  lemma HonestLookupKeepsFit(p: Params, start: seq<B.Bucket>, log: seq<Round>, net: Network)
    requires p.bep42 && B.TableOk(start) && Follows(p, start, log, net)
    requires Honest(log, net) && InTurn(log, net)
    ensures FitBut(Unfit(start), TableAfter(p, start, log, net))
  {
    FitButUnfit(start);
    TablesOf(p, start, log, net);
    LookupFitBut(Unfit(start), p, start, log, net);
    HonestKeepOut(Unfit(start), p, log, net);
  }

  // ---- bootstrapping ----

  ghost function BootstrapPairs(nodes: seq<DhtNode>): set<Pair> {
    set n | n in nodes :: (n.id, FromSocket(n.addr))
  }

  lemma OnePairMore(nodes: seq<DhtNode>, n: nat)
    requires n < |nodes|
    ensures BootstrapPairs(nodes[..n]) + {(nodes[n].id, FromSocket(nodes[n].addr))} <= BootstrapPairs(nodes)
  {
    hide FromSocket;
    forall x | x in nodes[..n]
      ensures x in nodes
    {}
  }

  lemma {:induction false} BootstrapAdds(own: NodeId, table: seq<B.Bucket>, nodes: seq<DhtNode>, now: U32)
    requires B.TableOk(table)
    ensures B.TableOk(Bootstrapped(own, table, nodes, now))
    ensures Pairs(Bootstrapped(own, table, nodes, now)) <= Pairs(table) + BootstrapPairs(nodes)
    decreases |nodes|
  {
    assert |table| > 0;
    hide B.TableOk, Pairs, B.InsertEntry, BootstrapPairs, FromSocket;
    if nodes == [] {
    } else {
      var n := |nodes| - 1;
      BootstrapAdds(own, table, nodes[..n], now);
      InsertionPairs(own, Bootstrapped(own, table, nodes[..n], now),
                     B.RoutingEntry(nodes[n].id, FromSocket(nodes[n].addr), now, 0));
      OnePairMore(nodes, n);
    }
  }

  /** So the first lookup of an honest network leaves only bootstrap addresses under the random ids drawn for them
      besides what was unfit before. */
  lemma FirstLookupFit(p: Params, table: seq<B.Bucket>, nodes: seq<DhtNode>, now: U32, log: seq<Round>, net: Network)
    requires p.bep42 && B.TableOk(table) && Follows(p, Bootstrapped(p.own, table, nodes, now), log, net)
    requires Honest(log, net) && InTurn(log, net)
    ensures FitBut(Unfit(table) + BootstrapPairs(nodes),
      TableAfter(p, Bootstrapped(p.own, table, nodes, now), log, net))
  {
    BootstrapAdds(p.own, table, nodes, now);
    HonestLookupKeepsFit(p, Bootstrapped(p.own, table, nodes, now), log, net);
    hide Bootstrapped, TableAfter, Follows, Pairs, BootstrapPairs;
  }
}
