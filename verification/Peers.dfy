/** Discovered peers and how they are scored. Times are nanoseconds. */
module Peers {
  import opened Bytes
  import opened Addresses

  const SECOND: nat := 1_000_000_000
  const RECENT: nat := 300 * SECOND
  const LATELY: nat := 1800 * SECOND
  const LIFETIME: nat := 86400 * SECOND

  datatype PeerSource = Tracker | Dht | Pex | Lpd | WebSeed | SuperTracker | Manual

  function BaseScore(s: PeerSource): (n: nat)
    ensures 50 <= n <= 100
  {
    match s
    case Tracker => 100
    case SuperTracker => 95
    case Dht => 80
    case Pex => 60
    case Lpd => 90
    case WebSeed => 85
    case Manual => 50
  }

  datatype PeerInfo = PeerInfo(addr: SocketAddr, source: PeerSource, lastActive: nat, score: nat,
                               attempts: nat, successes: nat, isIpv6: bool)
  {
    /** More than 24 hours without activity; a peer active in the future is not expired. */
    predicate Expired(now: nat) {
      now > lastActive + LIFETIME
    }

    /** `calculate_priority`. */
    function Rescored(now: nat): PeerInfo {
      this.(score := Score(this, now))
    }
  }

  /** A new peer has no attempts behind it, so it is within every budget, and scores no more than its source. */
  function NewPeer(addr: SocketAddr, source: PeerSource, now: nat): (p: PeerInfo)
    ensures WithinBudget(p) && !p.Expired(now) && p.score <= 100
  {
    PeerInfo(addr, source, now, BaseScore(source), 0, 0, addr.ip.IpV6?)
  }

  function PortScore(p: Port): nat {
    if 6881 <= p <= 6889 then 30 else if p == 51413 then 20 else 0
  }

  /** The success rate in percent, rounded down. */
  function SuccessScore(attempts: nat, successes: nat): nat {
    if attempts == 0 then 0 else successes * 100 / attempts
  }

  /** A clock behind the last activity earns nothing. */
  function ActivityScore(lastActive: nat, now: nat): nat {
    if now < lastActive then 0
    else if now - lastActive < RECENT then 40
    else if now - lastActive < LATELY then 20
    else 0
  }

  function Score(p: PeerInfo, now: nat): nat {
    BaseScore(p.source) + (if p.isIpv6 then 0 else 50) + PortScore(p.addr.port) +
    SuccessScore(p.attempts, p.successes) + ActivityScore(p.lastActive, now)
  }

  /** What a peer may have failed: fewer than five attempts more than successes. */
  predicate WithinBudget(p: PeerInfo) {
    p.successes <= p.attempts < p.successes + 5
  }

  lemma PercentAtMost100(attempts: nat, successes: nat)
    requires 0 < attempts && successes <= attempts
    ensures successes * 100 / attempts <= 100
  {}

  /** No peer with at most as many successes as attempts scores above 320. */
  lemma ScoreAtMost320(p: PeerInfo, now: nat)
    requires p.successes <= p.attempts
    ensures Score(p, now) <= 320
  {}

  lemma FullSuccess(attempts: nat, successes: nat)
    requires 0 < attempts && successes <= attempts
    ensures successes * 100 / attempts == 100 <==> successes == attempts
  {}

  /** The bound is reached by exactly one kind of peer: from a tracker, IPv4, on a client port, always
      connected, active in the last 300 seconds. */
  lemma BestPossiblePeer(p: PeerInfo, now: nat)
    requires p.successes <= p.attempts
    ensures Score(p, now) == 320 <==>
      p.source == Tracker && !p.isIpv6 && 6881 <= p.addr.port <= 6889 &&
      p.attempts > 0 && p.successes == p.attempts && p.lastActive <= now < p.lastActive + RECENT
  {
    if p.attempts > 0 {
      PercentAtMost100(p.attempts, p.successes);
      FullSuccess(p.attempts, p.successes);
    }
  }

  /** No peer scores below 50, and 50 is scored by exactly one kind: entered by hand, IPv6, on no client port, hardly
      ever connected, and not active in the last 1800 seconds. */
  lemma LeastPossiblePeer(p: PeerInfo, now: nat)
    ensures Score(p, now) >= 50
    ensures Score(p, now) == 50 <==>
      p.source == Manual && p.isIpv6 && !(6881 <= p.addr.port <= 6889) && p.addr.port != 51413 &&
      (p.attempts > 0 ==> p.successes * 100 < p.attempts) && (now < p.lastActive || now >= p.lastActive + LATELY)
  {
    if p.attempts > 0 {
      ZeroPercent(p.attempts, p.successes);
    }
  }

  lemma ZeroPercent(attempts: nat, successes: nat)
    requires attempts > 0
    ensures successes * 100 / attempts == 0 <==> successes * 100 < attempts
  {
    var n := successes * 100;
    if n >= attempts {
      DivisionGrows(attempts, n, attempts);
      Itself(attempts);
    } else {
      Smaller(n, attempts);
    }
  }

  /** All else equal, peers rank by where they come from. */
  lemma SourcesRank(p: PeerInfo, now: nat)
    ensures Score(p.(source := Tracker), now) == Score(p.(source := SuperTracker), now) + 5
         == Score(p.(source := Lpd), now) + 10 == Score(p.(source := WebSeed), now) + 15
         == Score(p.(source := Dht), now) + 20 == Score(p.(source := Pex), now) + 40
         == Score(p.(source := Manual), now) + 50
  {
    hide PortScore, SuccessScore, ActivityScore;
  }

  /** A peer from the DHT on the other client port, reached over IPv6 at one of three attempts and active ten minutes
      ago, scores 80 + 20 + 33 + 20. */
  lemma OrdinaryPeer(p: PeerInfo, now: nat)
    requires p.source == Dht && p.isIpv6 && p.addr.port == 51413 && p.attempts == 3 && p.successes == 1
    requires now == p.lastActive + 600 * SECOND
    ensures Score(p, now) == 153 && Score(p.(isIpv6 := false), now) == 203
  {}

  /** Connecting more often, out of as many attempts, never lowers a score. */
  lemma SuccessNeverHurts(p: PeerInfo, more: nat, now: nat)
    requires p.successes <= more
    ensures Score(p, now) <= Score(p.(successes := more), now)
  {
    if p.attempts > 0 {
      DivisionGrows(p.successes * 100, more * 100, p.attempts);
    }
  }

  lemma DivisionGrows(a: nat, b: nat, d: nat)
    requires a <= b && d > 0
    ensures a / d <= b / d
  {
    var q, r := a / d, b / d;
    assert a == d * q + a % d && b == d * r + b % d;
    NextMultiple(d, q, r);
  }

  lemma NextMultiple(d: nat, q: nat, r: nat)
    ensures q > r ==> d * q >= d * r + d
  {
    if q > r {
      assert d * q == d * r + d * (q - r) && d * (q - r) == d + d * (q - r - 1);
    }
  }

  lemma Itself(d: nat)
    requires d > 0
    ensures d / d == 1
  {}

  lemma Smaller(n: nat, d: nat)
    requires n < d
    ensures n / d == 0
  {}

  /** Being active later never lowers a score, as long as the clock has not run backwards. */
  lemma ActivityNeverHurts(p: PeerInfo, q: PeerInfo, now: nat)
    requires p.lastActive <= q.lastActive <= now && q == p.(lastActive := q.lastActive)
    ensures Score(p, now) <= Score(q, now)
  {}

  /** Merging two records of a peer (`max` of both counters) stays within the budget. */
  lemma MergeWithinBudget(p: PeerInfo, q: PeerInfo)
    requires WithinBudget(p) && WithinBudget(q)
    ensures WithinBudget(p.(attempts := Max(p.attempts, q.attempts), successes := Max(p.successes, q.successes)))
  {}

  function Max(a: nat, b: nat): nat {
    if a >= b then a else b
  }
}
