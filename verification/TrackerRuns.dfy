/** Runs of the UDP tracker: how long a connection id is honoured, and that only the holder of an id ever
    announces. */
module TrackerRuns {
  import opened Bytes
  import opened Addresses
  import opened XorMetric
  import opened TrackerState
  import opened UdpTracker
  import P = Peers

  function Run(s: Server, evs: seq<Event>): Server
    decreases |evs|
  {
    if evs == [] then s else Run(Step(s, evs[0]), evs[1..])
  }

  // ---- the life of a connection id ----

  /** Whether a packet is a well-formed connect request; it does not depend on the connections. */
  predicate IsConnect(data: seq<Byte>) {
    |data| >= 16 && ReadU64(data, 0) == PROTOCOL_ID && ReadU32(data, 8) == ACTION_CONNECT
  }

  /** No connect draws this id. */
  ghost predicate NotDrawn(id: U64, evs: seq<Event>) {
    forall i :: 0 <= i < |evs| && evs[i].Packet? && IsConnect(evs[i].data) ==> evs[i].random != id
  }

  /** Every cleanup of connections comes before time t. */
  ghost predicate PrunesBefore(evs: seq<Event>, t: nat) {
    forall i :: 0 <= i < |evs| && evs[i].Prune? ==> evs[i].now < t
  }

  lemma ConnectIsConnect(data: seq<Byte>, from: SocketAddr, connections: Connections)
    ensures Judge(data, from, connections).Connect? <==> IsConnect(data)
  {
    hide ReadAnnounce, ReadU32, ReadU64;
  }

  /** One event keeps an id that it does not draw, unless it is a cleanup 120 seconds or more after. */
  lemma StepKeepsId(s: Server, ev: Event, id: U64)
    requires NotDrawn(id, [ev])
    ensures var next := Step(s, ev).connections;
      (id in next <==>
        id in s.connections && (ev.Prune? ==> ev.now < s.connections[id].createdAt + CONNECTION_LIFETIME)) &&
      (id in next ==> next[id] == s.connections[id])
  {
    assert [ev][0] == ev;
    if ev.Packet? {
      ConnectIsConnect(ev.data, ev.from, s.connections);
    }
    hide Judge, IsConnect;
  }

  lemma {:induction false} IdStaysGone(s: Server, evs: seq<Event>, id: U64)
    requires NotDrawn(id, evs) && id !in s.connections
    ensures id !in Run(s, evs).connections
    decreases |evs|
  {
    if evs == [] {
    } else {
      hide Step, IsConnect;
      assert [evs[0]][0] == evs[0];
      StepKeepsId(s, evs[0], id);
      IdStaysGone(Step(s, evs[0]), evs[1..], id);
    }
  }

  /** An id last drawn at time t is held at the end of a run exactly when every cleanup since came before
      t + 120 seconds; so it is honoured past its age until the next cleanup. */
  lemma {:induction false} IdHeldExactly(s: Server, evs: seq<Event>, id: U64)
    requires NotDrawn(id, evs) && id in s.connections
    ensures var end := Run(s, evs).connections;
      (id in end <==> PrunesBefore(evs, s.connections[id].createdAt + CONNECTION_LIFETIME)) &&
      (id in end ==> end[id] == s.connections[id])
    decreases |evs|
  {
    if evs == [] {
    } else {
      hide Step, IsConnect;
      assert [evs[0]][0] == evs[0];
      StepKeepsId(s, evs[0], id);
      var next, limit := Step(s, evs[0]), s.connections[id].createdAt + CONNECTION_LIFETIME;
      if id in next.connections {
        IdHeldExactly(next, evs[1..], id);
        assert PrunesBefore(evs, limit) <==> PrunesBefore(evs[1..], limit) by {
          assert evs == [evs[0]] + evs[1..];
        }
      } else {
        IdStaysGone(next, evs[1..], id);
      }
    }
  }

  /** Cleanups within the last g time units put an end to it: the id is gone from t + 120 seconds + g on. */
  lemma IdGoneEventually(s: Server, evs: seq<Event>, id: U64, g: nat, q: nat, k: nat)
    requires NotDrawn(id, evs) && id in s.connections
    requires k < |evs| && evs[k].Prune? && q <= evs[k].now + g
    requires q >= s.connections[id].createdAt + CONNECTION_LIFETIME + g
    ensures id !in Run(s, evs).connections
  {
    IdHeldExactly(s, evs, id);
  }

  /** An announce at the end of a run, under an id last drawn at time t, is admitted exactly when it comes
      from the IP the id was issued to and every cleanup since came before t + 120 seconds; the time of the
      announce itself does not matter. */
  lemma AdmittedExactly(s: Server, evs: seq<Event>, id: U64, tid: U32, f: AnnounceFields, ip: U32, key: U32,
                        from: SocketAddr)
    requires NotDrawn(id, evs) && id in s.connections && -0x8000_0000 <= f.numWant < 0x8000_0000
    ensures var entry := s.connections[id];
      Judge(AnnouncePacket(id, tid, f, ip, key), from, Run(s, evs).connections) == Admit(f) <==>
        from.ip == entry.remoteAddr.ip && PrunesBefore(evs, entry.createdAt + CONNECTION_LIFETIME)
  {
    IdHeldExactly(s, evs, id);
    AnnounceFieldsRoundTrip(id, tid, f, ip, key);
    hide AnnouncePacket, ReadAnnounce, ReadU32, ReadU64, Run, NotDrawn, PrunesBefore;
  }

  /** Connect, then any packets and any cleanups before the id is 120 seconds old, then announce: the
      announce is carried out, and the client is recorded as a seeder at its IP and listening port. */
  lemma SessionAnnounces(s: Server, evs: seq<Event>, id: U64, from: SocketAddr, later: SocketAddr, t: nat, now: nat,
                         tid: U32, tid2: U32, ih: NodeId, peerId: NodeId, port: Port, key: U32, random: U64)
    requires later.ip == from.ip && NotDrawn(id, evs) && PrunesBefore(evs, t + CONNECTION_LIFETIME)
    ensures DecodeConnect(ConnectReply(tid, id), tid) == Got(id)
    ensures var mid := Run(Step(s, Packet(ConnectRequest(tid), from, t, id)), evs);
      var end := Step(mid, Packet(AnnounceRequest(id, tid2, ih, peerId, port, key), later, now, random));
      end.peers == Announce(mid.peers, ih, Announced(ClientFields(ih, peerId, port), later, now)) &&
      SocketAddr(from.ip, port) in Seeders(GroupOf(end.peers, ih))
  {
    hide ConnectRequest, ConnectReply, DecodeConnect, AnnouncePacket, ReadAnnounce, ReadU32, ReadU64;
    ConnectRoundTrip(tid, from, s.connections, id);
    var start := Step(s, Packet(ConnectRequest(tid), from, t, id));
    AdmittedExactly(start, evs, id, tid2, ClientFields(ih, peerId, port), 0, key, later);
    hide Judge, Run, NotDrawn, PrunesBefore;
  }

  /** Without a cleanup in between, an id is honoured at any age. */
  lemma AnyAgeAdmitted(s: Server, id: U64, tid: U32, f: AnnounceFields, ip: U32, key: U32, from: SocketAddr)
    requires id in s.connections && from.ip == s.connections[id].remoteAddr.ip &&
      -0x8000_0000 <= f.numWant < 0x8000_0000
    ensures Judge(AnnouncePacket(id, tid, f, ip, key), from, s.connections) == Admit(f)
  {
    AdmittedExactly(s, [], id, tid, f, ip, key, from);
  }

  function SomeClient(): SocketAddr {
    SocketAddr(IpV4([10, 0, 0, 1]), 6881)
  }

  /** One such id: drawn at time 0, it is 121 seconds old and is still honoured. */
  lemma OverAgeIdAdmitted(tid: U32, tid2: U32, ih: NodeId, peerId: NodeId, port: Port, key: U32)
    ensures var held := Step(Server(map[], map[]), Packet(ConnectRequest(tid), SomeClient(), 0, 7));
      var announce := AnnounceRequest(7, tid2, ih, peerId, port, key);
      7 in held.connections && 121 * P.SECOND >= held.connections[7].createdAt + CONNECTION_LIFETIME &&
      Judge(announce, SomeClient(), held.connections) == Admit(ClientFields(ih, peerId, port)) &&
      ih in Step(held, Packet(announce, SomeClient(), 121 * P.SECOND, 0)).peers
  {
    hide Judge, ConnectRequest, AnnouncePacket, SomeClient;
    ConnectRoundTrip(tid, SomeClient(), map[], 7);
    var held := Step(Server(map[], map[]), Packet(ConnectRequest(tid), SomeClient(), 0, 7));
    var f := ClientFields(ih, peerId, port);
    AnyAgeAdmitted(held, 7, tid2, f, 0, key, SomeClient());
  }

  // ---- who announces ----

  /** A connection id handed out: to which endpoint, when, at which step. */
  datatype Issue = Issue(id: U64, to: SocketAddr, at: nat, step: nat)

  /** A record gained by a UDP announce: under which id, from which endpoint, when. */
  datatype Gain = Gain(ih: NodeId, peer: AnnouncedPeer, id: U64, from: SocketAddr, at: nat, step: nat)

  /** The state together with what an observer remembers, the records stored by the HTTP end among it. */
  datatype Trace = Trace(s: Server, issued: set<Issue>, gained: set<Gain>, stored: set<(NodeId, AnnouncedPeer)>,
    step: nat)

  function Start(): Trace {
    Trace(Server(map[], map[]), {}, {}, {}, 0)
  }

  function Observe(tr: Trace, ev: Event): Trace {
    var next := Step(tr.s, ev);
    match ev
    case Packet(data, from, now, random) =>
      (match Judge(data, from, tr.s.connections)
       case Connect => Trace(next, tr.issued + {Issue(random, from, now, tr.step)}, tr.gained, tr.stored, tr.step + 1)
       case Admit(f) =>
         var g := Gain(f.infohash, Announced(f, from, now), ReadU64(data, 0), from, now, tr.step);
         Trace(next, tr.issued, tr.gained + {g}, tr.stored, tr.step + 1)
       case Ignore => Trace(next, tr.issued, tr.gained, tr.stored, tr.step + 1)
       case Refuse(_) => Trace(next, tr.issued, tr.gained, tr.stored, tr.step + 1))
    case Prune(_) => Trace(next, tr.issued, tr.gained, tr.stored, tr.step + 1)
    case Store(ih, peer) => Trace(next, tr.issued, tr.gained, tr.stored + {(ih, peer)}, tr.step + 1)
    case Cleanup(_, _) => Trace(next, tr.issued, tr.gained, tr.stored, tr.step + 1)
  }

  function Watch(tr: Trace, evs: seq<Event>): Trace
    decreases |evs|
  {
    if evs == [] then tr else Watch(Observe(tr, evs[0]), evs[1..])
  }

  /** A gain is justified by an earlier connect reply that issued the id used to the sender's IP, which is
      also the IP recorded. */
  ghost predicate Justified(tr: Trace, g: Gain) {
    g.peer.addr.ip == g.from.ip && g.peer.lastSeen == g.at &&
    exists i :: i in tr.issued && i.id == g.id && i.to.ip == g.from.ip && i.step < g.step
  }

  ghost predicate Held(tr: Trace, id: U64, entry: ConnectionEntry) {
    exists i :: i in tr.issued && i.id == id && i.to == entry.remoteAddr && i.at == entry.createdAt && i.step < tr.step
  }

  /** A record comes from an announce over UDP or was stored by the HTTP end. */
  ghost predicate Recorded(tr: Trace, ih: NodeId, p: AnnouncedPeer) {
    (ih, p) in tr.stored || exists g :: g in tr.gained && g.ih == ih && g.peer == p
  }

  ghost predicate Safe(tr: Trace) {
    && (forall id :: id in tr.s.connections ==> Held(tr, id, tr.s.connections[id]))
    && (forall g :: g in tr.gained ==> Justified(tr, g))
    && (forall ih, a :: a in GroupOf(tr.s.peers, ih) ==> Recorded(tr, ih, GroupOf(tr.s.peers, ih)[a]))
  }

  lemma ObserveKeepsSafe(tr: Trace, ev: Event)
    requires Safe(tr)
    ensures Safe(Observe(tr, ev))
  {
    ConnectionsStayHeld(tr, ev);
    GainsStayJustified(tr, ev);
    RecordsStayRecorded(tr, ev);
  }

  lemma ConnectionsStayHeld(tr: Trace, ev: Event)
    requires Safe(tr)
    ensures var next := Observe(tr, ev); forall id :: id in next.s.connections ==>
      Held(next, id, next.s.connections[id])
  {
    hide Judge, Announce, Cleaned, Justified, Recorded;
    var next := Observe(tr, ev);
    forall id | id in next.s.connections
      ensures Held(next, id, next.s.connections[id])
    {
      if id in tr.s.connections && next.s.connections[id] == tr.s.connections[id] {
        assert Held(tr, id, tr.s.connections[id]);
      } else {
        assert ev.Packet?;
        assert Issue(id, ev.from, ev.now, tr.step) in next.issued;
      }
    }
  }

  lemma GainsStayJustified(tr: Trace, ev: Event)
    requires Safe(tr)
    ensures var next := Observe(tr, ev); forall g :: g in next.gained ==> Justified(next, g)
  {
    hide Announce, Cleaned, Recorded, ReadAnnounce, ReadU32, ReadU64;
    var next := Observe(tr, ev);
    forall g | g in next.gained
      ensures Justified(next, g)
    {
      if g in tr.gained {
        assert Justified(tr, g);
      } else {
        assert ev.Packet?;
        assert Held(tr, g.id, tr.s.connections[g.id]);
      }
    }
  }

  lemma AnnounceMembers(m: Groups, ih: NodeId, p: AnnouncedPeer, other: NodeId, a: SocketAddr)
    requires a in GroupOf(Announce(m, ih, p), other)
    ensures var r := GroupOf(Announce(m, ih, p), other)[a];
      (other == ih && r == p) || (a in GroupOf(m, other) && r == GroupOf(m, other)[a])
  {}

  lemma RecordsStayRecorded(tr: Trace, ev: Event)
    requires Safe(tr)
    ensures var next := Observe(tr, ev);
      forall ih, a :: a in GroupOf(next.s.peers, ih) ==> Recorded(next, ih, GroupOf(next.s.peers, ih)[a])
  {
    hide Judge, Announce, Cleaned, Justified, Held, GroupOf;
    var next := Observe(tr, ev);
    forall ih, a | a in GroupOf(next.s.peers, ih)
      ensures Recorded(next, ih, GroupOf(next.s.peers, ih)[a])
    {
      match ev
      case Packet(data, from, now, _) =>
        var v := Judge(data, from, tr.s.connections);
        if v.Admit? {
          AnnounceMembers(tr.s.peers, v.fields.infohash, Announced(v.fields, from, now), ih, a);
        }
      case Store(h, p) => AnnounceMembers(tr.s.peers, h, p, ih, a);
      case Cleanup(now, ttl) => CleanedMembers(tr.s.peers, now, ttl);
      case Prune(_) =>
    }
  }

  lemma {:induction false} WatchKeepsSafe(tr: Trace, evs: seq<Event>)
    requires Safe(tr)
    ensures Safe(Watch(tr, evs))
    decreases |evs|
  {
    if evs == [] {
    } else {
      hide Safe, Observe;
      ObserveKeepsSafe(tr, evs[0]);
      WatchKeepsSafe(Observe(tr, evs[0]), evs[1..]);
    }
  }

  /** Over every run from the empty tracker, each record was stored by the HTTP end, or was announced over
      UDP from its own IP under a connection id that an earlier connect reply had issued to that IP. */
  lemma OnlyIdHoldersAnnounce(evs: seq<Event>, ih: NodeId, a: SocketAddr)
    requires a in GroupOf(Watch(Start(), evs).s.peers, ih)
    ensures var end := Watch(Start(), evs);
      var p := GroupOf(end.s.peers, ih)[a];
      (ih, p) in end.stored ||
      exists g, i :: g in end.gained && g.ih == ih && g.peer == p && p.addr.ip == g.from.ip && p.lastSeen == g.at &&
        i in end.issued && i.id == g.id && i.to.ip == p.addr.ip && i.step < g.step
  {
    WatchKeepsSafe(Start(), evs);
    var end := Watch(Start(), evs);
    hide Watch;
    var p := GroupOf(end.s.peers, ih)[a];
    assert Recorded(end, ih, p);
    if (ih, p) !in end.stored {
      var g :| g in end.gained && g.ih == ih && g.peer == p;
      assert Justified(end, g);
      var i :| i in end.issued && i.id == g.id && i.to.ip == g.from.ip && i.step < g.step;
    }
  }
}
