/** The fixed-window rate limiter of the API. Times are nanoseconds of one monotone clock. */
module RateLimit {
  import opened Bytes
  import P = Peers

  datatype Limits = Limits(ratePerSecond: U32, windowSecs: U64)
  {
    /** The product of two 32-bit numbers, wrapping. */
    function Quota(): nat {
      ratePerSecond * (windowSecs % 0x1_0000_0000) % 0x1_0000_0000
    }

    function Window(): nat {
      windowSecs * P.SECOND
    }
  }

  datatype RateLimitState = RateLimitState(windowStart: nat, count: nat)
  datatype Client = Unseen | Seen(state: RateLimitState)
  type Table = map<string, RateLimitState>

  // ---- one client ----

  /** The window a request falls into: the running one, or a new one when there is none or it is over. */
  function Current(c: Limits, s: Client, now: nat): RateLimitState {
    if s.Seen? && now <= s.state.windowStart + c.Window() then s.state else RateLimitState(now, 0)
  }

  predicate Admits(c: Limits, s: Client, now: nat) {
    c.ratePerSecond == 0 || Current(c, s, now).count < c.Quota()
  }

  function After(c: Limits, s: Client, now: nat): Client {
    if c.ratePerSecond == 0 then s
    else
      var w := Current(c, s, now);
      Seen(if w.count < c.Quota() then w.(count := w.count + 1) else w)
  }

  /** The outcomes of one client's requests, alone. */
  function Solo(c: Limits, s: Client, times: seq<nat>): (r: seq<bool>)
    ensures |r| == |times|
    decreases |times|
  {
    if times == [] then [] else [Admits(c, s, times[0])] + Solo(c, After(c, s, times[0]), times[1..])
  }

  /** How many requests between a and b are admitted. */
  function AdmittedIn(c: Limits, s: Client, times: seq<nat>, a: nat, b: nat): nat
    decreases |times|
  {
    if times == [] then 0
    else
      (if a <= times[0] <= b && Admits(c, s, times[0]) then 1 else 0) +
        AdmittedIn(c, After(c, s, times[0]), times[1..], a, b)
  }

  ghost predicate InOrder(from: nat, times: seq<nat>)
    decreases |times|
  {
    times != [] ==> from <= times[0] && InOrder(times[0], times[1..])
  }

  /** A window admits exactly its first Quota requests: with count requests behind it, request number i
      of the same window is admitted just when count + i is below the quota. */
  lemma {:induction false} WindowAdmitsFirst(c: Limits, w: RateLimitState, times: seq<nat>, i: nat)
    requires c.ratePerSecond > 0 && w.count <= c.Quota() && i < |times|
    requires forall j :: 0 <= j < |times| ==> times[j] <= w.windowStart + c.Window()
    ensures Solo(c, Seen(w), times)[i] <==> w.count + i < c.Quota()
    decreases |times|
  {
    if i == 0 {
    } else {
      WindowAdmitsFirst(c, After(c, Seen(w), times[0]).state, times[1..], i - 1);
    }
  }

  /** Until the running window ends it admits at most what is left of its quota. */
  lemma {:induction false} RestOfWindow(c: Limits, w: RateLimitState, times: seq<nat>, a: nat, b: nat)
    requires c.ratePerSecond > 0 && w.count <= c.Quota() && b <= w.windowStart + c.Window()
    requires times != [] ==> InOrder(times[0], times)
    ensures AdmittedIn(c, Seen(w), times, a, b) <= c.Quota() - w.count
    decreases |times|
  {
    if times == [] {
    } else {
      if times[0] <= w.windowStart + c.Window() {
        RestOfWindow(c, After(c, Seen(w), times[0]).state, times[1..], a, b);
      } else {
        NoneAfter(c, Seen(w), times, a, b);
      }
    }
  }

  lemma {:induction false} NoneAfter(c: Limits, s: Client, times: seq<nat>, a: nat, b: nat)
    requires times != [] ==> InOrder(times[0], times) && times[0] > b
    ensures AdmittedIn(c, s, times, a, b) == 0
    decreases |times|
  {
    if times == [] {
    } else {
      NoneAfter(c, After(c, s, times[0]), times[1..], a, b);
    }
  }

  ghost predicate CountOk(c: Limits, s: Client) {
    s.Seen? ==> s.state.count <= c.Quota()
  }

  /** From a moment inside the interval on, what is left of the running window and one more window. */
  lemma {:induction false} TwoWindows(c: Limits, s: Client, times: seq<nat>, t: nat, a: nat, b: nat)
    requires c.ratePerSecond > 0 && CountOk(c, s) && InOrder(t, times) && b <= t + c.Window()
    ensures AdmittedIn(c, s, times, a, b) <= c.Quota() + (if s.Seen? then c.Quota() - s.state.count else 0)
    decreases |times|
  {
    if times == [] {
    } else {
      var next := After(c, s, times[0]);
      if s.Seen? && times[0] <= s.state.windowStart + c.Window() {
        TwoWindows(c, next, times[1..], times[0], a, b);
      } else {
        RestOfWindow(c, next.state, times[1..], a, b);
      }
    }
  }

  /** No closed interval of the window's length admits more than twice the quota. */
  lemma {:induction false} IntervalBound(c: Limits, s: Client, times: seq<nat>, from: nat, a: nat)
    requires c.ratePerSecond > 0 && CountOk(c, s) && InOrder(from, times)
    ensures AdmittedIn(c, s, times, a, a + c.Window()) <= 2 * c.Quota()
    decreases |times|
  {
    if times == [] {
    } else {
      if times[0] < a {
        IntervalBound(c, After(c, s, times[0]), times[1..], times[0], a);
      } else {
        TwoWindows(c, s, times, times[0], a, a + c.Window());
      }
    }
  }

  /** A client that is new, or whose window is over, starts a new window with its request and is admitted. */
  lemma NewWindowAdmits(c: Limits, s: Client, now: nat)
    requires c.ratePerSecond > 0 && c.Quota() > 0
    requires s.Seen? ==> now > s.state.windowStart + c.Window()
    ensures Admits(c, s, now) && After(c, s, now) == Seen(RateLimitState(now, 1))
  {}

  /** No client is refused for ever: of requests that reach beyond the end of the running window one is admitted. */
  lemma {:induction false} SomeoneIsAdmitted(c: Limits, s: Client, from: nat, times: seq<nat>)
    requires c.ratePerSecond > 0 && c.Quota() > 0 && InOrder(from, times) && times != []
    requires s.Seen? ==> times[|times| - 1] > s.state.windowStart + c.Window()
    ensures exists i :: 0 <= i < |times| && Solo(c, s, times)[i]
    decreases |times|
  {
    if Admits(c, s, times[0]) {
      assert Solo(c, s, times)[0];
    } else {
      assert |times| > 1 && After(c, s, times[0]) == s;
      SomeoneIsAdmitted(c, s, times[0], times[1..]);
      var i :| 0 <= i < |times| - 1 && Solo(c, s, times[1..])[i];
      assert Solo(c, s, times)[i + 1];
    }
  }

  /** Without a rate nobody is refused and nothing is counted. */
  lemma NoRateNoLimit(c: Limits, s: Client, times: seq<nat>)
    requires c.ratePerSecond == 0
    ensures forall i :: 0 <= i < |times| ==> Solo(c, s, times)[i]
    decreases |times|
  {
    if times != [] {
      NoRateNoLimit(c, s, times[1..]);
      forall i | 0 <= i < |times|
        ensures Solo(c, s, times)[i]
      {
        assert i > 0 ==> Solo(c, s, times)[i] == Solo(c, s, times[1..])[i - 1];
      }
    }
  }

  /** Without overflow the quota is the configured rate times the window. */
  lemma QuotaWithoutOverflow(c: Limits)
    requires c.windowSecs < 0x1_0000_0000 && c.ratePerSecond * c.windowSecs < 0x1_0000_0000
    ensures c.Quota() == c.ratePerSecond * c.windowSecs
  {}

  // ---- many clients ----

  datatype Request = Request(client: string, at: nat)

  function StateOf(t: Table, client: string): Client {
    if client in t then Seen(t[client]) else Unseen
  }

  function Update(c: Limits, t: Table, r: Request): Table {
    match After(c, StateOf(t, r.client), r.at)
    case Unseen => t
    case Seen(s) => t[r.client := s]
  }

  /** The request times of one client. */
  function TimesOf(client: string, rs: seq<Request>): seq<nat> {
    if rs == [] then [] else (if rs[0].client == client then [rs[0].at] else []) + TimesOf(client, rs[1..])
  }

  /** What one client sees of a run of everybody's requests. */
  function Outcomes(c: Limits, t: Table, client: string, rs: seq<Request>): seq<bool>
    decreases |rs|
  {
    if rs == [] then []
    else
      (if rs[0].client == client then [Admits(c, StateOf(t, client), rs[0].at)] else []) +
      Outcomes(c, Update(c, t, rs[0]), client, rs[1..])
  }

  /** Clients do not disturb each other: each sees what it would see alone. */
  lemma {:induction false} ClientsAreIsolated(c: Limits, t: Table, client: string, rs: seq<Request>)
    ensures Outcomes(c, t, client, rs) == Solo(c, StateOf(t, client), TimesOf(client, rs))
    decreases |rs|
  {
    if rs == [] {
    } else {
      ClientsAreIsolated(c, Update(c, t, rs[0]), client, rs[1..]);
      var rest := TimesOf(client, rs[1..]);
      if rs[0].client == client {
        assert TimesOf(client, rs)[1..] == rest;
      } else {
        assert TimesOf(client, rs) == rest;
        assert Outcomes(c, t, client, rs) == Outcomes(c, Update(c, t, rs[0]), client, rs[1..]);
      }
    }
  }

  class AuthState {
    const config: Limits
    var rateLimits: Table

    constructor (config: Limits)
      ensures this.config == config && rateLimits == map[]
    {
      this.config := config;
      rateLimits := map[];
    }

    method CheckRateLimit(client: string, now: nat) returns (ok: bool)
      modifies this
      ensures ok == Admits(config, StateOf(old(rateLimits), client), now)
      ensures rateLimits == Update(config, old(rateLimits), Request(client, now))
    {
      if config.ratePerSecond == 0 {
        return true;
      }
      var maxRequests := config.Quota();
      var window := config.Window();
      if client !in rateLimits {
        rateLimits := rateLimits[client := RateLimitState(now, 0)];
      }
      var state := rateLimits[client];
      if now > state.windowStart + window {
        state := RateLimitState(now, 0);
        rateLimits := rateLimits[client := state];
      }
      if state.count >= maxRequests {
        assert rateLimits == Update(config, old(rateLimits), Request(client, now));
        return false;
      }
      state := state.(count := state.count + 1);
      rateLimits := rateLimits[client := state];
      return true;
    }
  }
}
