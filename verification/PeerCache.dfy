/** The peer cache: a map of maps with a cap per infohash, a global cap and a failure budget. */
module PeerCache {
  import opened Bytes
  import opened Addresses
  import opened XorMetric
  import opened Sorting
  import opened TopK
  import opened Peers

  type Infohash = NodeId
  type PeerMap = map<SocketAddr, PeerInfo>
  type Cache = map<Infohash, PeerMap>

  /** One cached peer, as the global eviction lists it. */
  datatype Slot = Slot(lastActive: nat, ih: Infohash, addr: SocketAddr)

  function ByScore(p: PeerInfo): int {
    p.score
  }

  /** `Reverse(priority_score)`. */
  function ByScoreDown(p: PeerInfo): int {
    0 - p.score
  }

  function ByActivity(s: Slot): int {
    s.lastActive
  }

  function AddrOf(p: PeerInfo): SocketAddr {
    p.addr
  }

  function Unexpired(now: nat): PeerInfo -> bool {
    (p: PeerInfo) => !p.Expired(now)
  }

  // ---- listing and cutting ----

  ghost function Image<T(!new), A>(f: T -> A, s: seq<T>): set<A> {
    set x | x in s :: f(x)
  }

  lemma {:induction false} DistinctImage<T(!new), A>(f: T -> A, s: seq<T>)
    requires DistinctBy(f, s)
    ensures |Image(f, s)| == |s|
  {
    if s == [] {
    } else {
      var n := |s| - 1;
      var front := s[..n];
      DistinctImage(f, front);
      assert s == front + [s[n]];
      assert Image(f, s) == Image(f, front) + {f(s[n])};
      assert f(s[n]) !in Image(f, front);
    }
  }

  /** Cutting a sorted list: the parts share no attribute value, together they hold every element, and
      none of the first has a larger key than one of the second. */
  lemma CutSorted<T(!new), A>(f: T -> A, key: T -> int, s: seq<T>, k: nat)
    requires DistinctBy(f, s) && k <= |s|
    ensures var t := Sort(key, s);
      |t| == |s| && |Image(f, t[..k])| == k &&
      (forall x :: x in t[..k] ==> x in s) &&
      (forall x :: x in s && f(x) !in Image(f, t[..k]) ==> x in t[k..]) &&
      forall x, y :: x in t[..k] && y in t[k..] ==> key(x) <= key(y)
  {
    var t := Sort(key, s);
    SortIsStableSort(key, s);
    SortMembers(key, s);
    SortKeepsDistinct(f, key, s);
    hide Sort;
    DistinctImage(f, t[..k]);
    SortedHalves(key, t, k);
    hide Sorted, DistinctBy;
    TwoParts(f, t, k);
  }

  lemma TwoParts<T(!new), A>(f: T -> A, t: seq<T>, k: nat)
    requires k <= |t|
    ensures forall x :: x in t[..k] ==> x in t
    ensures forall x :: x in t && f(x) !in Image(f, t[..k]) ==> x in t[k..]
  {}

  // ---- one infohash ----

  /** Every peer is filed under its own address. */
  ghost predicate KeyedByAddr(m: PeerMap) {
    forall a :: a in m ==> m[a].addr == a
  }

  /** s lists the values of m, each once. */
  ghost predicate Lists(m: PeerMap, s: seq<PeerInfo>) {
    DistinctBy(AddrOf, s) && forall p :: p in s <==> p.addr in m && m[p.addr] == p
  }

  /** `values().cloned().collect()`: the values in some order. */
  method ListValues(m: PeerMap) returns (s: seq<PeerInfo>)
    requires KeyedByAddr(m)
    ensures Lists(m, s)
  {
    var left := m.Keys;
    s := [];
    while left != {}
      invariant left <= m.Keys
      invariant forall p :: p in s <==> p.addr in m.Keys - left && m[p.addr] == p
      invariant DistinctBy(AddrOf, s)
      decreases left
    {
      var a :| a in left;
      assert forall p :: p in s ==> p.addr != a;
      s := s + [m[a]];
      left := left - {a};
    }
  }

  /** Fold one reported peer into the map: merge by maximum, or insert. */
  function MergeOne(m: PeerMap, p: PeerInfo, now: nat): PeerMap {
    if p.addr in m then
      var e := m[p.addr];
      var merged := e.(lastActive := now, attempts := Max(e.attempts, p.attempts),
        successes := Max(e.successes, p.successes));
      m[p.addr := merged.Rescored(now)]
    else m[p.addr := p]
  }

  function MergeAll(m: PeerMap, ps: seq<PeerInfo>, now: nat): PeerMap {
    if ps == [] then m else MergeOne(MergeAll(m, ps[..|ps| - 1], now), ps[|ps| - 1], now)
  }

  function Retain(m: PeerMap, now: nat): PeerMap {
    map a | a in m && !m[a].Expired(now) :: m[a]
  }

  function ListOf(c: Cache, ih: Infohash): PeerMap {
    if ih in c then c[ih] else map[]
  }

  ghost predicate Submap(r: PeerMap, m: PeerMap) {
    forall a :: a in r ==> a in m && r[a] == m[a]
  }

  /** r keeps min(n, |m|) peers of m, and none dropped scores higher than one kept. */
  ghost predicate BestOf(m: PeerMap, r: PeerMap, n: nat) {
    && Submap(r, m)
    && |r| == Min(n, |m|)
    && forall a, b :: a in m && a !in r && b in r ==> m[a].score <= m[b].score
  }

  ghost predicate MapWithinBudget(m: PeerMap) {
    forall a :: a in m ==> WithinBudget(m[a])
  }

  lemma {:induction false} MergeKeepsKeys(m: PeerMap, ps: seq<PeerInfo>, now: nat)
    requires KeyedByAddr(m)
    ensures KeyedByAddr(MergeAll(m, ps, now))
    ensures MergeAll(m, ps, now).Keys == m.Keys + set p | p in ps :: p.addr
  {
    if ps == [] {
    } else {
      var front := ps[..|ps| - 1];
      MergeKeepsKeys(m, front, now);
      assert ps == front + [ps[|ps| - 1]];
    }
  }

  /** Merging keeps the failure budget when the reported peers respect it. */
  lemma {:induction false} MergeKeepsBudget(m: PeerMap, ps: seq<PeerInfo>, now: nat)
    requires MapWithinBudget(m) && forall p :: p in ps ==> WithinBudget(p)
    ensures MapWithinBudget(MergeAll(m, ps, now))
  {
    if ps == [] {
    } else {
      var front, p := ps[..|ps| - 1], ps[|ps| - 1];
      MergeKeepsBudget(m, front, now);
      var before := MergeAll(m, front, now);
      assert WithinBudget(p);
      if p.addr in before {
        MergeWithinBudget(before[p.addr], p);
      }
    }
  }

  ghost predicate AtLeast(p: PeerInfo, q: PeerInfo) {
    p.attempts >= q.attempts && p.successes >= q.successes
  }

  /** Merging loses no count: a record is at least every report of its address and what it was before, a
      known address that is reported counts as active now, and one with no report keeps its record. */
  lemma {:induction false} MergeTakesMaximum(m: PeerMap, ps: seq<PeerInfo>, now: nat)
    requires KeyedByAddr(m)
    ensures var r := MergeAll(m, ps, now);
      (forall a :: a in m ==> a in r && AtLeast(r[a], m[a])) &&
      (forall p :: p in ps ==> p.addr in r && AtLeast(r[p.addr], p) && (p.addr in m ==> r[p.addr].lastActive == now)) &&
      (forall a :: a in m && (forall p :: p in ps ==> p.addr != a) ==> r[a] == m[a])
  {
    if ps == [] {
    } else {
      var front, p := ps[..|ps| - 1], ps[|ps| - 1];
      MergeTakesMaximum(m, front, now);
      assert ps == front + [p];
    }
  }

  /** A count of the record before, or of some report of the address. */
  ghost predicate CountedBy(f: PeerInfo -> nat, m: PeerMap, ps: seq<PeerInfo>, a: SocketAddr, n: nat) {
    (a in m && n == f(m[a])) || exists p :: p in ps && p.addr == a && n == f(p)
  }

  function AttemptsOf(p: PeerInfo): nat {
    p.attempts
  }

  function SuccessesOf(p: PeerInfo): nat {
    p.successes
  }

  lemma CountStays(f: PeerInfo -> nat, m: PeerMap, front: seq<PeerInfo>, p: PeerInfo, a: SocketAddr, n: nat)
    requires CountedBy(f, m, front, a, n)
    ensures CountedBy(f, m, front + [p], a, n)
  {}

  lemma CountAdded(f: PeerInfo -> nat, m: PeerMap, front: seq<PeerInfo>, p: PeerInfo)
    ensures CountedBy(f, m, front + [p], p.addr, f(p))
  {
    assert p in front + [p];
  }

  /** Merging invents no count: with MergeTakesMaximum, each is the maximum of the record before and the reports. */
  lemma {:induction false} MergeInventsNoCount(m: PeerMap, ps: seq<PeerInfo>, now: nat, a: SocketAddr)
    requires a in MergeAll(m, ps, now)
    ensures var r := MergeAll(m, ps, now)[a];
      CountedBy(AttemptsOf, m, ps, a, r.attempts) && CountedBy(SuccessesOf, m, ps, a, r.successes)
  {
    if ps == [] {
    } else {
      var front, p := ps[..|ps| - 1], ps[|ps| - 1];
      var mid := MergeAll(m, front, now);
      assert ps == front + [p] && MergeAll(m, ps, now) == MergeOne(mid, p, now);
      hide MergeAll, CountedBy;
      if a in mid {
        MergeInventsNoCount(m, front, now, a);
        CountStays(AttemptsOf, m, front, p, a, mid[a].attempts);
        CountStays(SuccessesOf, m, front, p, a, mid[a].successes);
      }
      CountAdded(AttemptsOf, m, front, p);
      CountAdded(SuccessesOf, m, front, p);
    }
  }

  /** A known peer that is reported is scored anew, keeping its source. */
  lemma {:induction false} MergeRescores(m: PeerMap, ps: seq<PeerInfo>, now: nat, a: SocketAddr)
    requires a in m
    ensures var r := MergeAll(m, ps, now);
      a in r && r[a].source == m[a].source &&
      ((exists p :: p in ps && p.addr == a) ==> r[a].score == Score(r[a], now))
  {
    if ps == [] {
    } else {
      var front, p := ps[..|ps| - 1], ps[|ps| - 1];
      MergeRescores(m, front, now, a);
      assert ps == front + [p];
      hide Score;
    }
  }

  /** When every address is reported once, an unknown peer is filed as reported. */
  lemma {:induction false} NewPeersAreTaken(m: PeerMap, ps: seq<PeerInfo>, now: nat, p: PeerInfo)
    requires DistinctBy(AddrOf, ps) && p in ps && p.addr !in m && KeyedByAddr(m)
    ensures var r := MergeAll(m, ps, now); p.addr in r && r[p.addr] == p
  {
    var n := |ps| - 1;
    var front, last := ps[..n], ps[n];
    var mid := MergeAll(m, front, now);
    assert MergeAll(m, ps, now) == MergeOne(mid, last, now);
    MergeKeepsKeys(m, front, now);
    var i :| 0 <= i < |ps| && ps[i] == p;
    hide MergeAll;
    if i < n {
      assert front[i] == p && AddrOf(ps[i]) != AddrOf(ps[n]);
      NewPeersAreTaken(m, front, now, p);
    } else {
      forall q | q in front
        ensures q.addr != p.addr
      {
        var j :| 0 <= j < n && front[j] == q;
        assert AddrOf(ps[j]) != AddrOf(ps[n]);
      }
    }
  }

  function Dropped(m: PeerMap, ps: seq<PeerInfo>): PeerMap {
    m - set p | p in ps :: p.addr
  }

  lemma ListedKeys(m: PeerMap, s: seq<PeerInfo>)
    requires KeyedByAddr(m) && Lists(m, s)
    ensures Image(AddrOf, s) == m.Keys && |s| == |m|
  {
    forall a | a in m
      ensures a in Image(AddrOf, s)
    {
      assert m[a] in s;
      assert AddrOf(m[a]) == a;
    }
    DistinctImage(AddrOf, s);
  }

  lemma BestWithout(m: PeerMap, gone: set<SocketAddr>, n: nat)
    requires gone <= m.Keys && |gone| + n == |m|
    requires forall a, b :: a in gone && b in m && b !in gone ==> m[a].score <= m[b].score
    ensures BestOf(m, m - gone, n)
  {}

  lemma DroppedAreListed(m: PeerMap, s: seq<PeerInfo>, t: seq<PeerInfo>, k: nat)
    requires KeyedByAddr(m) && Lists(m, s) && k <= |s| && t == Sort(ByScore, s)
    ensures Image(AddrOf, t[..k]) <= m.Keys && |Image(AddrOf, t[..k])| == k
    ensures Dropped(m, t[..k]) == m - Image(AddrOf, t[..k])
  {
    CutSorted(AddrOf, ByScore, s, k);
    hide Sort;
    assert Image(AddrOf, t[..k]) == set p | p in t[..k] :: p.addr;
  }

  /** Dropping the lowest-scored peers keeps the best. */
  lemma DroppingKeepsBest(m: PeerMap, s: seq<PeerInfo>, n: nat)
    requires KeyedByAddr(m) && Lists(m, s) && n <= |s|
    ensures BestOf(m, Dropped(m, Sort(ByScore, s)[..|s| - n]), n)
  {
    hide Sort, Image, Lists, KeyedByAddr, BestOf, Dropped;
    var t, k := Sort(ByScore, s), |s| - n;
    ListedKeys(m, s);
    DroppedAreListed(m, s, t, k);
    var gone := Image(AddrOf, t[..k]);
    forall a, b | a in gone && b in m && b !in gone
      ensures m[a].score <= m[b].score
    {
      DroppedScoresLess(m, s, t, k, a, b);
    }
    BestWithout(m, gone, n);
  }

  lemma DroppedScoresLess(m: PeerMap, s: seq<PeerInfo>, t: seq<PeerInfo>, k: nat, a: SocketAddr, b: SocketAddr)
    requires KeyedByAddr(m) && Lists(m, s) && k <= |s| && t == Sort(ByScore, s)
    requires a in m && a in Image(AddrOf, t[..k]) && b in m && b !in Image(AddrOf, t[..k])
    ensures m[a].score <= m[b].score
  {
    CutSorted(AddrOf, ByScore, s, k);
    hide Sort, Image;
    var p :| p in t[..k] && AddrOf(p) == a;
    assert p in s && m[b] in s;
    assert AddrOf(m[b]) == b;
    assert ByScore(p) <= ByScore(m[b]);
  }

  lemma AllAreBest(m: PeerMap, n: nat)
    requires |m| <= n
    ensures BestOf(m, m, n)
  {}

  /** Drop the lowest-scored peers until n are left. */
  method Trim(m: PeerMap, n: nat) returns (r: PeerMap)
    requires KeyedByAddr(m)
    ensures BestOf(m, r, n)
  {
    hide BestOf, Sort, Lists, KeyedByAddr, Dropped;
    if |m| <= n {
      AllAreBest(m, n);
      return m;
    }
    var values := ListValues(m);
    ListedKeys(m, values);
    DroppingKeepsBest(m, values, n);
    var sorted := Sort(ByScore, values);
    r := RemoveAll(m, sorted[..|sorted| - n]);
  }

  method RemoveAll(m: PeerMap, toRemove: seq<PeerInfo>) returns (r: PeerMap)
    ensures r == Dropped(m, toRemove)
  {
    r := m;
    for i := 0 to |toRemove|
      invariant r == Dropped(m, toRemove[..i])
    {
      assert toRemove[..i + 1] == toRemove[..i] + [toRemove[i]];
      r := r - {toRemove[i].addr};
    }
    assert toRemove[..|toRemove|] == toRemove;
  }

  // ---- the whole cache ----

  /** Every cached peer, by infohash and address. */
  ghost function Slots(c: Cache): set<(Infohash, SocketAddr)> {
    set ih, a | ih in c && a in c[ih] :: (ih, a)
  }

  ghost function Total(c: Cache): nat {
    |Slots(c)|
  }

  ghost predicate CacheKeyed(c: Cache) {
    forall ih :: ih in c ==> KeyedByAddr(c[ih])
  }

  ghost predicate CacheWithinBudget(c: Cache) {
    forall ih :: ih in c ==> MapWithinBudget(c[ih])
  }

  function Excluding(c: Cache, gone: set<(Infohash, SocketAddr)>): Cache {
    map ih | ih in c :: map a | a in c[ih] && (ih, a) !in gone :: c[ih][a]
  }

  function NonEmpty(c: Cache): Cache {
    map ih | ih in c && c[ih] != map[] :: c[ih]
  }

  /** r is c less its least recently active peers, down to n, without empty groups. */
  ghost predicate MostRecentOf(c: Cache, r: Cache, n: nat) {
    && Slots(r) <= Slots(c) && Total(r) == n
    && (forall ih, a :: (ih, a) in Slots(r) ==> r[ih][a] == c[ih][a])
    && (forall ih :: ih in r ==> r[ih] != map[])
    && forall ih, a, jh, b :: (ih, a) in Slots(c) && (ih, a) !in Slots(r) && (jh, b) in Slots(r) ==>
         c[ih][a].lastActive <= c[jh][b].lastActive
  }

  ghost predicate SlotOf(c: Cache, s: Slot) {
    s.ih in c && s.addr in c[s.ih] && s.lastActive == c[s.ih][s.addr].lastActive
  }

  function PlaceOf(s: Slot): (Infohash, SocketAddr) {
    (s.ih, s.addr)
  }

  /** s lists the cached peers, each once. */
  ghost predicate AllSlots(c: Cache, s: seq<Slot>) {
    DistinctBy(PlaceOf, s) && forall x :: x in s <==> SlotOf(c, x)
  }

  lemma AllPlaces(c: Cache, s: seq<Slot>)
    requires AllSlots(c, s)
    ensures Image(PlaceOf, s) == Slots(c) && |s| == Total(c)
  {
    forall ih, a | (ih, a) in Slots(c)
      ensures (ih, a) in Image(PlaceOf, s)
    {
      var x := Slot(c[ih][a].lastActive, ih, a);
      assert SlotOf(c, x);
      assert x in s && PlaceOf(x) == (ih, a);
    }
    DistinctImage(PlaceOf, s);
  }

  lemma RecentWithout(c: Cache, gone: set<(Infohash, SocketAddr)>, n: nat)
    requires gone <= Slots(c) && |gone| + n == Total(c)
    requires forall ih, a, jh, b :: (ih, a) in gone && (jh, b) in Slots(c) - gone ==>
      c[ih][a].lastActive <= c[jh][b].lastActive
    ensures MostRecentOf(c, NonEmpty(Excluding(c, gone)), n)
  {
    EvictedSlots(c, gone);
    hide NonEmpty, Excluding;
    assert |Slots(c) - gone| == |Slots(c)| - |gone|;
  }

  lemma EvictedAreListed(c: Cache, s: seq<Slot>, t: seq<Slot>, k: nat)
    requires AllSlots(c, s) && k <= |s| && t == Sort(ByActivity, s)
    ensures Image(PlaceOf, t[..k]) <= Slots(c) && |Image(PlaceOf, t[..k])| == k
  {
    CutSorted(PlaceOf, ByActivity, s, k);
    hide Sort;
    forall x | x in t[..k]
      ensures PlaceOf(x) in Slots(c)
    {
      assert x in s && SlotOf(c, x);
    }
  }

  /** Evicting the first slots in order of activity leaves the most recent ones. */
  lemma {:induction false} EvictingKeepsRecent(c: Cache, s: seq<Slot>, n: nat)
    requires AllSlots(c, s) && n <= |s|
    ensures MostRecentOf(c, NonEmpty(Excluding(c, Image(PlaceOf, Sort(ByActivity, s)[..|s| - n]))), n)
  {
    hide Sort, NonEmpty, Excluding, AllSlots, Image, MostRecentOf;
    var t, k := Sort(ByActivity, s), |s| - n;
    AllPlaces(c, s);
    EvictedAreListed(c, s, t, k);
    var gone := Image(PlaceOf, t[..k]);
    forall ih, a, jh, b | (ih, a) in gone && (jh, b) in Slots(c) - gone
      ensures c[ih][a].lastActive <= c[jh][b].lastActive
    {
      assert (ih, a) in Slots(c);
      EvictedIsOlder(c, s, t, k, ih, a, jh, b);
    }
    RecentWithout(c, gone, n);
  }

  lemma EvictedSlots(c: Cache, gone: set<(Infohash, SocketAddr)>)
    ensures var r := NonEmpty(Excluding(c, gone));
      Slots(r) == Slots(c) - gone &&
      (forall ih, a :: (ih, a) in Slots(r) ==> r[ih][a] == c[ih][a]) && (forall ih :: ih in r ==> r[ih] != map[])
  {
    var w := Excluding(c, gone);
    var r := NonEmpty(w);
    assert Slots(w) == Slots(c) - gone;
    forall ih, a | (ih, a) in Slots(w)
      ensures (ih, a) in Slots(r)
    {
      assert a in w[ih];
    }
  }

  lemma EvictedIsOlder(c: Cache, s: seq<Slot>, t: seq<Slot>, k: nat, ih: Infohash, a: SocketAddr, jh: Infohash,
                       b: SocketAddr)
    requires AllSlots(c, s) && k <= |s| && t == Sort(ByActivity, s)
    requires (ih, a) in Image(PlaceOf, t[..k]) && ih in c && a in c[ih]
    requires jh in c && b in c[jh] && (jh, b) !in Image(PlaceOf, t[..k])
    ensures c[ih][a].lastActive <= c[jh][b].lastActive
  {
    CutSorted(PlaceOf, ByActivity, s, k);
    hide Sort, Image;
    var x :| x in t[..k] && PlaceOf(x) == (ih, a);
    var y := Slot(c[jh][b].lastActive, jh, b);
    assert SlotOf(c, y) && PlaceOf(y) == (jh, b);
    assert x in s && y in s && SlotOf(c, x);
    assert ByActivity(x) <= ByActivity(y);
  }

  // ---- counting and listing the whole cache ----

  ghost function Row(ih: Infohash, keys: set<SocketAddr>): set<(Infohash, SocketAddr)> {
    set a | a in keys :: (ih, a)
  }

  lemma {:induction false} RowSize(ih: Infohash, keys: set<SocketAddr>)
    ensures |Row(ih, keys)| == |keys|
    decreases keys
  {
    if keys != {} {
      var a :| a in keys;
      RowSize(ih, keys - {a});
      assert Row(ih, keys) == Row(ih, keys - {a}) + {(ih, a)};
    }
  }

  lemma SlotsSplit(c: Cache, ih: Infohash)
    requires ih in c
    ensures Slots(c) == Slots(c - {ih}) + Row(ih, c[ih].Keys) && Slots(c - {ih}) !! Row(ih, c[ih].Keys)
  {}

  lemma TotalWithoutGroup(c: Cache, ih: Infohash)
    requires ih in c
    ensures Total(c) == Total(c - {ih}) + |c[ih]|
  {
    var row := Row(ih, c[ih].Keys);
    RowSize(ih, c[ih].Keys);
    SlotsSplit(c, ih);
    hide Slots, Row;
    assert |Slots(c - {ih}) + row| == |Slots(c - {ih})| + |row|;
    assert |c[ih].Keys| == |c[ih]|;
  }

  method Count(c: Cache) returns (n: nat)
    ensures n == Total(c)
  {
    n := 0;
    var left := c;
    while left != map[]
      invariant n + Total(left) == Total(c)
      decreases |left|
    {
      var ih :| ih in left;
      TotalWithoutGroup(left, ih);
      assert (left - {ih}).Keys == left.Keys - {ih};
      n := n + |left[ih]|;
      left := left - {ih};
    }
    assert Slots(left) == {};
  }

  /** The slots of one group, appended to those listed before. */
  method ListGroup(c: Cache, ih: Infohash, before: seq<Slot>) returns (s: seq<Slot>)
    requires ih in c && DistinctBy(PlaceOf, before) && forall x :: x in before ==> x.ih != ih
    ensures DistinctBy(PlaceOf, s)
    ensures forall x :: x in s <==> x in before || (x.ih == ih && SlotOf(c, x))
  {
    s := before;
    var left := c[ih].Keys;
    while left != {}
      invariant left <= c[ih].Keys
      invariant DistinctBy(PlaceOf, s)
      invariant forall x :: x in s <==> x in before || (x.ih == ih && SlotOf(c, x) && x.addr !in left)
      decreases left
    {
      var a :| a in left;
      var y := Slot(c[ih][a].lastActive, ih, a);
      assert forall x :: x in s ==> PlaceOf(x) != PlaceOf(y);
      s := s + [y];
      left := left - {a};
    }
  }

  method ListSlots(c: Cache) returns (s: seq<Slot>)
    ensures AllSlots(c, s)
  {
    s := [];
    var left := c.Keys;
    while left != {}
      invariant left <= c.Keys
      invariant DistinctBy(PlaceOf, s)
      invariant forall x :: x in s <==> SlotOf(c, x) && x.ih !in left
      decreases left
    {
      var ih :| ih in left;
      s := ListGroup(c, ih, s);
      left := left - {ih};
    }
  }

  lemma WithoutOneMore(c: Cache, gone: set<(Infohash, SocketAddr)>, s: Slot)
    ensures Excluding(c, gone + {PlaceOf(s)}) ==
      var w := Excluding(c, gone); if s.ih in w then w[s.ih := w[s.ih] - {s.addr}] else w
  {
    var w, v := Excluding(c, gone), Excluding(c, gone + {PlaceOf(s)});
    if s.ih in c {
      assert v[s.ih] == w[s.ih] - {s.addr};
    }
    forall ih | ih in c && ih != s.ih
      ensures v[ih] == w[ih]
    {}
  }

  method RemoveSlots(c: Cache, victims: seq<Slot>) returns (r: Cache)
    ensures r == Excluding(c, Image(PlaceOf, victims))
  {
    r := c;
    WithoutNothing(c);
    for i := 0 to |victims|
      invariant r == Excluding(c, Image(PlaceOf, victims[..i]))
    {
      var s := victims[i];
      assert Image(PlaceOf, victims[..i + 1]) == Image(PlaceOf, victims[..i]) + {PlaceOf(s)} by {
        assert victims[..i + 1] == victims[..i] + [s];
      }
      WithoutOneMore(c, Image(PlaceOf, victims[..i]), s);
      if s.ih in r {
        r := r[s.ih := r[s.ih] - {s.addr}];
      }
    }
    assert victims[..|victims|] == victims;
  }

  lemma WithoutNothing(c: Cache)
    ensures Excluding(c, Image(PlaceOf, [])) == c
  {
    assert Image(PlaceOf, []) == {};
    forall ih | ih in c
      ensures Excluding(c, {})[ih] == c[ih]
    {}
  }

  function Succeeded(p: PeerInfo, now: nat): PeerInfo {
    p.(attempts := p.attempts + 1, successes := p.successes + 1, lastActive := now).Rescored(now)
  }

  function FailedOnce(p: PeerInfo, now: nat): PeerInfo {
    p.(attempts := p.attempts + 1).Rescored(now)
  }

  /** A failure mark drops the peer at the fifth attempt beyond its successes. */
  function AfterFailure(m: PeerMap, addr: SocketAddr, now: nat): PeerMap {
    if addr !in m then m
    else
      var p := FailedOnce(m[addr], now);
      if SaturatingSub(p.attempts, p.successes) >= 5 then m - {addr} else m[addr := p]
  }

  /** One group replaced by a group with no new addresses. */
  lemma ReplaceGroup(c: Cache, ih: Infohash, m: PeerMap)
    requires ih in c && m.Keys <= c[ih].Keys
    ensures Total(c[ih := m]) <= Total(c) && |m| <= |c[ih]|
  {
    SubsetSize(Slots(c[ih := m]), Slots(c));
    SubsetSize(m.Keys, c[ih].Keys);
  }

  lemma {:induction false} SubsetSize<T(!new)>(a: set<T>, b: set<T>)
    requires a <= b
    ensures |a| <= |b|
  {
    assert b == a + (b - a);
  }

  function Cleaned(c: Cache, now: nat): Cache {
    NonEmpty(map ih | ih in c :: Retain(c[ih], now))
  }

  /** r lists, best score first, the unexpired peers of an infohash with the best scores. */
  ghost predicate BestPeers(c: Cache, ih: Infohash, limit: nat, now: nat, r: seq<PeerInfo>) {
    exists all :: Lists(ListOf(c, ih), all) && KSmallest(ByScoreDown, multiset(Filter(Unexpired(now), all)), limit, r)
  }

  /** What adding peers leaves: the group merged, freed of expired peers and cut to its best, then the whole
      cache cut to its most recent. */
  ghost predicate Added(c: Cache, ih: Infohash, newPeers: seq<PeerInfo>, now: nat, cap: nat, max: nat, r: Cache) {
    exists kept :: BestOf(Retain(MergeAll(ListOf(c, ih), newPeers, now), now), kept, cap) &&
      Evicted(c[ih := kept], r, max)
  }

  class PeerCache {
    const maxPeers: nat
    const maxPerInfohash: nat
    var peers: Cache

    /** Peers are filed by address, each group is within its cap, and the total is within the global cap. */
    ghost predicate Valid()
      reads this
    {
      && CacheKeyed(peers)
      && (forall ih :: ih in peers ==> |peers[ih]| <= maxPerInfohash)
      && Total(peers) <= maxPeers
    }

    constructor (maxPeers: nat)
      ensures Valid() && peers == map[]
      ensures this.maxPeers == maxPeers && maxPerInfohash == Max(maxPeers / 10, 100)
    {
      this.maxPeers := maxPeers;
      maxPerInfohash := Max(maxPeers / 10, 100);
      peers := map[];
      new;
      assert Slots(peers) == {};
    }

    /** The unexpired peers with the best scores, best first. */
    method GetPeers(ih: Infohash, limit: nat, now: nat) returns (r: seq<PeerInfo>)
      requires Valid()
      ensures BestPeers(peers, ih, limit, now, r)
    {
      var result := ListValues(ListOf(peers, ih));
      ghost var all := result;
      result := Filter(Unexpired(now), result);
      TakeSortIsKSmallest(ByScoreDown, result, limit);
      result := Sort(ByScoreDown, result);
      r := Take(limit, result);
    }

    /** Merge the peers in, drop expired ones, trim the group to its cap and the cache to the global cap. */
    method AddPeers(ih: Infohash, newPeers: seq<PeerInfo>, now: nat)
      requires Valid()
      modifies this
      ensures Valid()
      ensures Added(old(peers), ih, newPeers, now, maxPerInfohash, maxPeers, peers)
      ensures old(CacheWithinBudget(peers)) && (forall p :: p in newPeers ==> WithinBudget(p)) ==>
        CacheWithinBudget(peers)
    {
      hide BestOf, Evicted, Retain, MergeAll;
      ghost var was := peers;
      var group := ListOf(peers, ih);
      ghost var merged := Retain(MergeAll(group, newPeers, now), now);
      RetainedMergeOk(group, newPeers, now);
      var entry := Merge(group, newPeers, now);
      entry := Retain(entry, now);
      entry := Trim(entry, maxPerInfohash);
      ghost var kept := entry;
      peers := peers[ih := entry];
      TrimKeepsKeyed(was, ih, merged, kept, maxPerInfohash);
      EvictGlobalLru();
      AddKeepsInvariant(was, ih, merged, kept, peers, maxPerInfohash, maxPeers);
    }

    method EvictGlobalLru()
      requires CacheKeyed(peers)
      modifies this
      ensures Evicted(old(peers), peers, maxPeers)
    {
      hide MostRecentOf, NonEmpty, Excluding, Image, Sort, AllSlots, Slots;
      var total := Count(peers);
      if total <= maxPeers {
        return;
      }
      var allPeers := ListSlots(peers);
      AllPlaces(peers, allPeers);
      EvictingKeepsRecent(peers, allPeers, maxPeers);
      allPeers := Sort(ByActivity, allPeers);
      var toEvict := total - maxPeers;
      var rest := RemoveSlots(peers, allPeers[..toEvict]);
      peers := NonEmpty(rest);
    }

    method MarkConnectionSuccess(ih: Infohash, addr: SocketAddr, now: nat)
      requires Valid()
      modifies this
      ensures Valid()
      ensures peers == if ih in old(peers) && addr in old(peers)[ih]
                       then old(peers)[ih := old(peers)[ih][addr := Succeeded(old(peers)[ih][addr], now)]]
                         else old(peers)
      ensures old(CacheWithinBudget(peers)) ==> CacheWithinBudget(peers)
    {
      if ih in peers && addr in peers[ih] {
        var m := peers[ih][addr := Succeeded(peers[ih][addr], now)];
        assert m.Keys == peers[ih].Keys;
        ReplaceGroup(peers, ih, m);
        peers := peers[ih := m];
      }
    }

    method MarkConnectionFailure(ih: Infohash, addr: SocketAddr, now: nat)
      requires Valid()
      modifies this
      ensures Valid()
      ensures peers == if ih in old(peers) then old(peers)[ih := AfterFailure(old(peers)[ih], addr, now)]
        else old(peers)
      ensures old(CacheWithinBudget(peers)) ==> CacheWithinBudget(peers)
    {
      if ih in peers {
        var m := AfterFailure(peers[ih], addr, now);
        assert m.Keys <= peers[ih].Keys;
        ReplaceGroup(peers, ih, m);
        peers := peers[ih := m];
      }
    }

    method CleanupExpired(now: nat)
      requires Valid()
      modifies this
      ensures Valid() && peers == Cleaned(old(peers), now)
      ensures old(CacheWithinBudget(peers)) ==> CacheWithinBudget(peers)
    {
      CleaningShrinks(peers, now);
      peers := Cleaned(peers, now);
    }
  }

  method Merge(m: PeerMap, newPeers: seq<PeerInfo>, now: nat) returns (entry: PeerMap)
    ensures entry == MergeAll(m, newPeers, now)
  {
    entry := m;
    for i := 0 to |newPeers|
      invariant entry == MergeAll(m, newPeers[..i], now)
    {
      var peer := newPeers[i];
      assert newPeers[..i + 1][..i] == newPeers[..i];
      if peer.addr in entry {
        var existing := entry[peer.addr];
        existing := existing.(lastActive := now);
        existing := existing.(attempts := Max(existing.attempts, peer.attempts));
        existing := existing.(successes := Max(existing.successes, peer.successes));
        existing := existing.Rescored(now);
        entry := entry[peer.addr := existing];
      } else {
        entry := entry[peer.addr := peer];
      }
    }
    assert newPeers[..|newPeers|] == newPeers;
  }

  lemma RetainedMergeOk(group: PeerMap, newPeers: seq<PeerInfo>, now: nat)
    requires KeyedByAddr(group)
    ensures KeyedByAddr(Retain(MergeAll(group, newPeers, now), now))
    ensures MapWithinBudget(group) && (forall p :: p in newPeers ==> WithinBudget(p)) ==>
      MapWithinBudget(Retain(MergeAll(group, newPeers, now), now))
  {
    MergeKeepsKeys(group, newPeers, now);
    if MapWithinBudget(group) && forall p :: p in newPeers ==> WithinBudget(p) {
      MergeKeepsBudget(group, newPeers, now);
    }
  }

  lemma TrimKeepsKeyed(was: Cache, ih: Infohash, merged: PeerMap, kept: PeerMap, cap: nat)
    requires CacheKeyed(was) && KeyedByAddr(merged) && BestOf(merged, kept, cap)
    ensures CacheKeyed(was[ih := kept])
  {}

  /** What an addition leaves of the cache's invariant and of the failure budget. */
  lemma AddKeepsInvariant(was: Cache, ih: Infohash, merged: PeerMap, kept: PeerMap, r: Cache, cap: nat, max: nat)
    requires CacheKeyed(was) && (forall jh :: jh in was ==> |was[jh]| <= cap)
    requires KeyedByAddr(merged) && BestOf(merged, kept, cap) && Evicted(was[ih := kept], r, max)
    ensures CacheKeyed(r) && (forall jh :: jh in r ==> |r[jh]| <= cap) && Total(r) <= max
    ensures CacheWithinBudget(was) && MapWithinBudget(merged) ==> CacheWithinBudget(r)
  {
    var c := was[ih := kept];
    TrimKeepsKeyed(was, ih, merged, kept, cap);
    assert |kept| <= cap;
    TrimKeepsBudget(was, ih, merged, kept, cap);
    EvictedParts(c, r, max);
    hide Evicted, BestOf, Total, KeyedByAddr, MapWithinBudget, Submap;
    forall jh | jh in r
      ensures KeyedByAddr(r[jh]) && |r[jh]| <= cap && (MapWithinBudget(c[jh]) ==> MapWithinBudget(r[jh]))
    {
      SubmapKeeps(c[jh], r[jh]);
    }
  }

  lemma TrimKeepsBudget(was: Cache, ih: Infohash, merged: PeerMap, kept: PeerMap, cap: nat)
    requires BestOf(merged, kept, cap)
    ensures CacheWithinBudget(was) && MapWithinBudget(merged) ==> CacheWithinBudget(was[ih := kept])
  {}

  lemma EvictedParts(c: Cache, r: Cache, max: nat)
    requires Evicted(c, r, max)
    ensures Total(r) <= max && forall jh :: jh in r ==> jh in c && Submap(r[jh], c[jh]) && |r[jh]| <= |c[jh]|
  {
    if Total(c) > max {
      EvictionKeepsRest(c, r);
    }
  }

  lemma SubmapKeeps(m: PeerMap, r: PeerMap)
    requires Submap(r, m)
    ensures KeyedByAddr(m) ==> KeyedByAddr(r)
    ensures MapWithinBudget(m) ==> MapWithinBudget(r)
  {}

  /** The global eviction: nothing below the cap, else the most recent peers stay. */
  ghost predicate Evicted(c: Cache, r: Cache, max: nat) {
    if Total(c) <= max then r == c else MostRecentOf(c, r, max)
  }

  /** Whatever the global eviction removes, the groups left are parts of the groups before. */
  lemma EvictionKeepsRest(c: Cache, r: Cache)
    requires Slots(r) <= Slots(c) && forall ih, a :: (ih, a) in Slots(r) ==> r[ih][a] == c[ih][a]
    requires forall ih :: ih in r ==> r[ih] != map[]
    ensures forall ih :: ih in r ==> ih in c && Submap(r[ih], c[ih]) && |r[ih]| <= |c[ih]|
  {
    forall ih | ih in r
      ensures ih in c && Submap(r[ih], c[ih]) && |r[ih]| <= |c[ih]|
    {
      var a :| a in r[ih];
      assert (ih, a) in Slots(r) && (ih, a) in Slots(c);
      forall b | b in r[ih]
        ensures b in c[ih] && r[ih][b] == c[ih][b]
      {
        assert (ih, b) in Slots(r) && (ih, b) in Slots(c);
      }
      SubsetSize(r[ih].Keys, c[ih].Keys);
    }
  }

  /** The cleanup keeps exactly the peers active in the last 24 hours, unchanged, and the groups that have one. */
  lemma CleaningKeepsFresh(c: Cache, now: nat)
    ensures var r := Cleaned(c, now);
      (forall ih, a :: a in ListOf(r, ih) <==> a in ListOf(c, ih) && now <= ListOf(c, ih)[a].lastActive + LIFETIME) &&
      (forall ih, a :: a in ListOf(r, ih) ==> ListOf(r, ih)[a] == ListOf(c, ih)[a]) &&
      (forall ih :: ih in r ==> r[ih] != map[])
  {}

  lemma CleaningShrinks(c: Cache, now: nat)
    ensures forall ih :: ih in Cleaned(c, now) ==> ih in c && |Cleaned(c, now)[ih]| <= |c[ih]|
    ensures Total(Cleaned(c, now)) <= Total(c)
  {
    var r := Cleaned(c, now);
    forall ih | ih in r
      ensures |r[ih]| <= |c[ih]|
    {
      SubsetSize(r[ih].Keys, c[ih].Keys);
    }
    SubsetSize(Slots(r), Slots(c));
  }
}
