/** What connection marks do to a cached peer: when it is dropped, and what is known of it until then. */
module CacheMarks {
  import opened Addresses
  import opened Peers
  import C = PeerCache

  /** A mark on one peer of a group. */
  datatype Mark = Success(addr: SocketAddr, now: nat) | Failure(addr: SocketAddr, now: nat)

  function Marked(m: C.PeerMap, mark: Mark): C.PeerMap {
    match mark
    case Success(a, now) => if a in m then m[a := C.Succeeded(m[a], now)] else m
    case Failure(a, now) => C.AfterFailure(m, a, now)
  }

  function After(m: C.PeerMap, marks: seq<Mark>): C.PeerMap
    decreases |marks|
  {
    if marks == [] then m else After(Marked(m, marks[0]), marks[1..])
  }

  /** The marks on one address. */
  function MarksOf(a: SocketAddr, marks: seq<Mark>): seq<Mark> {
    if marks == [] then [] else (if marks[0].addr == a then [marks[0]] else []) + MarksOf(a, marks[1..])
  }

  function Failures(marks: seq<Mark>): nat {
    if marks == [] then 0 else (if marks[0].Failure? then 1 else 0) + Failures(marks[1..])
  }

  /** When the last success was, or t. */
  function LastSuccess(t: nat, marks: seq<Mark>): nat
    decreases |marks|
  {
    if marks == [] then t else LastSuccess(if marks[0].Success? then marks[0].now else t, marks[1..])
  }

  /** One mark. The peers at other addresses stay as they are. */
  lemma OneMark(m: C.PeerMap, mark: Mark, a: SocketAddr)
    requires a in m && WithinBudget(m[a])
    ensures var r := Marked(m, mark);
      if mark.addr != a then a in r && r[a] == m[a]
      else if mark.Success? then
        a in r && WithinBudget(r[a]) && r[a].attempts == m[a].attempts + 1 && r[a].successes == m[a].successes + 1 &&
        r[a].lastActive == mark.now && r[a].score == Score(r[a], mark.now)
      else if m[a].attempts + 1 < m[a].successes + 5 then
        a in r && WithinBudget(r[a]) && r[a].attempts == m[a].attempts + 1 && r[a].successes == m[a].successes &&
        r[a].lastActive == m[a].lastActive && r[a].score == Score(r[a], mark.now)
      else a !in r
  {}

  lemma {:induction false} GoneForGood(m: C.PeerMap, marks: seq<Mark>, a: SocketAddr)
    requires a !in m
    ensures a !in After(m, marks)
    decreases |marks|
  {
    if marks == [] {
    } else {
      GoneForGood(Marked(m, marks[0]), marks[1..], a);
    }
  }

  /** Over any run of marks on a group, a peer is held at the end exactly when it met fewer failures than its budget of
      five had left; successes in between neither refill the budget nor use it up. While held, its counters are exact
      and it counts as active at its last success. */
  lemma {:induction false} HeldExactly(m: C.PeerMap, marks: seq<Mark>, a: SocketAddr)
    requires a in m && WithinBudget(m[a])
    ensures var r, own := After(m, marks), MarksOf(a, marks);
      (a in r <==> m[a].attempts + Failures(own) < m[a].successes + 5) &&
      (a in r ==>
         r[a].attempts == m[a].attempts + |own| && r[a].successes + Failures(own) == m[a].successes + |own| &&
         r[a].lastActive == LastSuccess(m[a].lastActive, own) &&
         r[a].addr == m[a].addr && r[a].source == m[a].source)
    decreases |marks|
  {
    if marks == [] {
    } else {
      var next, rest := Marked(m, marks[0]), MarksOf(a, marks[1..]);
      OneMark(m, marks[0], a);
      SameIdentity(m, marks[0], a);
      var own := MarksOf(a, marks);
      assert marks[0].addr == a ==> own[0] == marks[0] && own[1..] == rest;
      assert marks[0].addr != a ==> own == rest;
      hide Marked;
      if a in next {
        HeldExactly(next, marks[1..], a);
      } else {
        GoneForGood(next, marks[1..], a);
      }
    }
  }

  lemma SameIdentity(m: C.PeerMap, mark: Mark, a: SocketAddr)
    requires a in m
    ensures var r := Marked(m, mark); a in r ==> r[a].addr == m[a].addr && r[a].source == m[a].source
  {}

  /** Five failures drop a new peer, even when they are not consecutive: four, a success, and one more. */
  lemma FifthFailureDrops(addr: SocketAddr, source: PeerSource, t: nat)
    ensures var m := map[addr := NewPeer(addr, source, t)];
      var four := [Failure(addr, t), Failure(addr, t), Failure(addr, t), Failure(addr, t), Success(addr, t)];
      addr in After(m, four) && addr !in After(m, four + [Failure(addr, t)])
  {
    var m := map[addr := NewPeer(addr, source, t)];
    var four := [Failure(addr, t), Failure(addr, t), Failure(addr, t), Failure(addr, t), Success(addr, t)];
    HeldExactly(m, four, addr);
    HeldExactly(m, four + [Failure(addr, t)], addr);
    FourFailures(addr, t, []);
    FourFailures(addr, t, [Failure(addr, t)]);
    assert four + [] == four;
    hide After;
  }

  lemma FourFailures(addr: SocketAddr, t: nat, more: seq<Mark>)
    requires more == [] || more == [Failure(addr, t)]
    ensures var f := Failure(addr, t);
      Failures(MarksOf(addr, [f, f, f, f, Success(addr, t)] + more)) == 4 + |more|
  {
    var f, s := Failure(addr, t), Success(addr, t);
    var last := [s] + more;
    assert MarksOf(addr, more) == more && Failures(more) == |more|;
    assert last[1..] == more && MarksOf(addr, last) == [s] + more;
    OneMoreFailure(addr, f, last);
    OneMoreFailure(addr, f, [f] + last);
    OneMoreFailure(addr, f, [f] + ([f] + last));
    OneMoreFailure(addr, f, [f] + ([f] + ([f] + last)));
    assert ([s] + more)[1..] == more;
    assert [f, f, f, f, s] + more == [f] + ([f] + ([f] + ([f] + last)));
  }

  lemma OneMoreFailure(addr: SocketAddr, f: Mark, marks: seq<Mark>)
    requires f.Failure? && f.addr == addr
    ensures Failures(MarksOf(addr, [f] + marks)) == 1 + Failures(MarksOf(addr, marks))
  {
    assert ([f] + marks)[1..] == marks;
    assert MarksOf(addr, [f] + marks)[1..] == MarksOf(addr, marks);
  }
}
