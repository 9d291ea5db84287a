/** When the crawl loop gets to its maintenance branch. Every turn of the loop waits for a datagram or for a
    second of silence, whichever comes first, and the second starts anew with each turn. */
module CrawlTimer {
  import opened Addresses
  import T = Tokens
  import P = Peers

  const MAINTENANCE_INTERVAL: nat := 60 * P.SECOND

  /** One turn, and when its work was over: a datagram that came at time at, or a second without one, after which
      the timers are looked at at time at. */
  datatype Turn = Received(at: nat, done: nat) | Idle(at: nat, done: nat)

  /** The turns a loop started at time t can take. */
  ghost predicate Possible(t: nat, turns: seq<Turn>)
    decreases |turns|
  {
    turns != [] ==>
      var turn := turns[0];
      && t <= turn.at <= turn.done
      && (if turn.Received? then turn.at <= t + P.SECOND else turn.at >= t + P.SECOND)
      && Possible(turn.done, turns[1..])
  }

  predicate Maintains(last: nat, turn: Turn) {
    turn.Idle? && turn.at >= last + MAINTENANCE_INTERVAL
  }

  /** When maintenance runs, the last time having been given. */
  function Runs(last: nat, turns: seq<Turn>): seq<nat>
    decreases |turns|
  {
    if turns == [] then []
    else if Maintains(last, turns[0]) then [turns[0].done] + Runs(turns[0].done, turns[1..])
    else Runs(last, turns[1..])
  }

  lemma {:induction false} StarvedExactly(last: nat, turns: seq<Turn>)
    ensures Runs(last, turns) == [] <==> forall i :: 0 <= i < |turns| ==> !Maintains(last, turns[i])
    decreases |turns|
  {
    if turns == [] {
    } else {
      StarvedExactly(last, turns[1..]);
      assert turns == [turns[0]] + turns[1..];
    }
  }

  // ---- the traffic behind the turns ----

  function Later(a: nat, b: nat): nat {
    if a <= b then b else a
  }

  /** The turns a loop started at time t takes when datagrams arrive at these times: it takes a datagram that is
      there or comes within a second, and is idle after a second without one. When a datagram comes just as the
      second ends, either may happen. */
  ghost predicate Driven(t: nat, arrivals: seq<nat>, turns: seq<Turn>)
    decreases |turns|
  {
    turns != [] ==>
      match turns[0]
      case Received(at, done) =>
        arrivals != [] && arrivals[0] <= t + P.SECOND && at == Later(t, arrivals[0]) && at <= done &&
        Driven(done, arrivals[1..], turns[1..])
      case Idle(at, done) =>
        (arrivals == [] || arrivals[0] >= t + P.SECOND) && t + P.SECOND <= at <= done &&
        Driven(done, arrivals, turns[1..])
  }

  lemma {:induction false} DrivenIsPossible(t: nat, arrivals: seq<nat>, turns: seq<Turn>)
    requires Driven(t, arrivals, turns)
    ensures Possible(t, turns)
    decreases |turns|
  {
    if turns == [] {
    } else {
      DrivenIsPossible(turns[0].done, if turns[0].Received? then arrivals[1..] else arrivals, turns[1..]);
    }
  }

  /** When the i-th turn begins. */
  function StartOf(t: nat, turns: seq<Turn>, i: nat): nat
    requires i <= |turns|
  {
    if i == 0 then t else turns[i - 1].done
  }

  /** The datagrams the first turns leave. */
  function Left(arrivals: seq<nat>, turns: seq<Turn>): seq<nat>
    decreases |turns|
  {
    if turns == [] then arrivals
    else Left(if turns[0].Received? && arrivals != [] then arrivals[1..] else arrivals, turns[1..])
  }

  /** No datagram is there at time t or comes in the second after it. */
  predicate Silent(t: nat, arrivals: seq<nat>) {
    arrivals == [] || arrivals[0] > t + P.SECOND
  }

  /** Whether the i-th turn begins with a second of silence. */
  predicate SilentTurn(t: nat, arrivals: seq<nat>, turns: seq<Turn>, i: nat)
    requires i < |turns|
  {
    Silent(StartOf(t, turns, i), Left(arrivals, turns[..i]))
  }

  /** No datagram comes just when a second ends. */
  ghost predicate NoTies(t: nat, arrivals: seq<nat>, turns: seq<Turn>) {
    forall i: nat :: i < |turns| ==>
      var left := Left(arrivals, turns[..i]);
      left == [] || left[0] != StartOf(t, turns, i) + P.SECOND
  }

  /** A turn is idle when it begins with a second of silence, and only then or at a tie. */
  lemma {:induction false} IdleWhenSilent(t: nat, arrivals: seq<nat>, turns: seq<Turn>, i: nat)
    requires Driven(t, arrivals, turns) && i < |turns|
    ensures SilentTurn(t, arrivals, turns, i) ==> turns[i].Idle?
    ensures turns[i].Idle? ==>
      var left := Left(arrivals, turns[..i]);
      left == [] || left[0] >= StartOf(t, turns, i) + P.SECOND
    decreases |turns|
  {
    if i == 0 {
      assert turns[..0] == [];
    } else {
      var next := if turns[0].Received? then arrivals[1..] else arrivals;
      IdleWhenSilent(turns[0].done, next, turns[1..], i - 1);
      assert turns[..i][1..] == turns[1..][..i - 1];
    }
  }

  /** Maintenance runs exactly when a turn that begins with a second of silence looks at its timers 60 seconds or
      more after the last time. */
  lemma MaintenanceRunsExactly(t: nat, last: nat, arrivals: seq<nat>, turns: seq<Turn>)
    requires Driven(t, arrivals, turns) && NoTies(t, arrivals, turns)
    ensures Runs(last, turns) != [] <==>
      exists i: nat :: i < |turns| && SilentTurn(t, arrivals, turns, i) && turns[i].at >= last + MAINTENANCE_INTERVAL
  {
    StarvedExactly(last, turns);
    forall i: nat | i < |turns|
      ensures turns[i].Idle? <==> SilentTurn(t, arrivals, turns, i)
    {
      IdleWhenSilent(t, arrivals, turns, i);
    }
    if Runs(last, turns) != [] {
      var i: nat :| i < |turns| && Maintains(last, turns[i]);
      assert SilentTurn(t, arrivals, turns, i);
    }
  }

  /** One silent second that ends 60 seconds or more after the last time is enough, ties or not. */
  lemma SilenceSuffices(t: nat, last: nat, arrivals: seq<nat>, turns: seq<Turn>, i: nat)
    requires Driven(t, arrivals, turns) && i < |turns| && SilentTurn(t, arrivals, turns, i)
    requires turns[i].at >= last + MAINTENANCE_INTERVAL
    ensures Runs(last, turns) != []
  {
    IdleWhenSilent(t, arrivals, turns, i);
    StarvedExactly(last, turns);
    assert Maintains(last, turns[i]);
  }

  /** From time t on, datagrams come less than a second apart. */
  ghost predicate Dense(t: nat, arrivals: seq<nat>)
    decreases |arrivals|
  {
    arrivals != [] ==> arrivals[0] < t + P.SECOND && Dense(arrivals[0], arrivals[1..])
  }

  lemma DenseLater(t: nat, u: nat, arrivals: seq<nat>)
    requires Dense(t, arrivals) && t <= u
    ensures Dense(u, arrivals)
  {}

  /** Datagrams less than a second apart keep maintenance from running as long as they last, however long every
      turn works. */
  lemma {:induction false} DenseTrafficStarves(t: nat, last: nat, arrivals: seq<nat>, turns: seq<Turn>)
    requires Driven(t, arrivals, turns) && Dense(t, arrivals) && |turns| <= |arrivals|
    ensures Runs(last, turns) == []
    decreases |turns|
  {
    if turns == [] {
    } else {
      DenseLater(arrivals[0], turns[0].done, arrivals[1..]);
      DenseTrafficStarves(turns[0].done, last, arrivals[1..], turns[1..]);
    }
  }

  // ---- how often maintenance runs ----

  /** From time t on, idle turns come at most h apart, and no turn works longer than w. */
  ghost predicate Quiet(t: nat, turns: seq<Turn>, h: nat, w: nat)
    decreases |turns|
  {
    turns != [] ==>
      var turn := turns[0];
      && turn.at <= t + h && turn.done <= turn.at + w
      && Quiet(if turn.Idle? then turn.at else t, turns[1..], h, w)
  }

  /** The times are in order and no two consecutive ones are more than g apart, the first counted from t. */
  ghost predicate Paced(t: nat, times: seq<nat>, g: nat)
    decreases |times|
  {
    times != [] ==> t <= times[0] <= t + g && Paced(times[0], times[1..], g)
  }

  /** The last time maintenance ran. */
  function LastRun(last: nat, turns: seq<Turn>): nat
    decreases |turns|
  {
    if turns == [] then last
    else LastRun(if Maintains(last, turns[0]) then turns[0].done else last, turns[1..])
  }

  lemma {:induction false} LastRunIsLast(last: nat, turns: seq<Turn>)
    ensures LastRun(last, turns) == if Runs(last, turns) == [] then last else Runs(last, turns)[|Runs(last, turns)| - 1]
    decreases |turns|
  {
    if turns == [] {
    } else if Maintains(last, turns[0]) {
      LastRunIsLast(turns[0].done, turns[1..]);
    } else {
      LastRunIsLast(last, turns[1..]);
    }
  }

  /** When the last turn was over. */
  function EndOf(t: nat, turns: seq<Turn>): nat {
    StartOf(t, turns, |turns|)
  }

  /** With an idle turn at least every h, maintenance runs, and runs again, within 60 seconds + h and the time a
      turn works: no two runs are farther apart, and neither is the last one from the end. */
  lemma {:induction false} MaintenanceIsPaced(start: nat, t: nat, last: nat, turns: seq<Turn>, h: nat, w: nat)
    requires Possible(start, turns) && Quiet(t, turns, h, w) && t <= last + MAINTENANCE_INTERVAL
    requires last <= start <= last + MAINTENANCE_INTERVAL + h + w
    ensures Paced(last, Runs(last, turns), MAINTENANCE_INTERVAL + h + w)
    ensures Runs(last, turns) != [] ==> start <= Runs(last, turns)[0]
    ensures LastRun(last, turns) <= EndOf(start, turns) <= LastRun(last, turns) + MAINTENANCE_INTERVAL + h + w
    decreases |turns|
  {
    if turns == [] {
    } else {
      var turn, rest := turns[0], turns[1..];
      assert EndOf(start, turns) == EndOf(turn.done, rest);
      if Maintains(last, turn) {
        MaintenanceIsPaced(turn.done, turn.at, turn.done, rest, h, w);
        var times := Runs(last, turns);
        assert times[1..] == Runs(turn.done, rest);
      } else {
        MaintenanceIsPaced(turn.done, if turn.Idle? then turn.at else t, last, rest, h, w);
      }
    }
  }

  // ---- what traffic does to tokens ----

  /** The calls of `maybe_rotate` that come with maintenance, in whole seconds. */
  function Calls(times: seq<nat>, drawn: seq<T.Secret>): (r: seq<T.RotateCall>)
    requires |drawn| == |times|
    ensures |r| == |times|
  {
    seq(|times|, i requires 0 <= i < |times| => T.RotateCall(times[i] / P.SECOND, drawn[i]))
  }

  /** A gap of g time units in whole seconds, rounded up. */
  function Seconds(g: nat): nat {
    g / P.SECOND + 1
  }

  lemma SecondsBetween(a: nat, b: nat, g: nat)
    requires a <= b <= a + g
    ensures a / P.SECOND <= b / P.SECOND <= a / P.SECOND + Seconds(g)
  {}

  lemma {:induction false} CallsGaps(t: nat, times: seq<nat>, drawn: seq<T.Secret>, g: nat)
    requires Paced(t, times, g) && |drawn| == |times|
    ensures T.Gaps(t / P.SECOND, Calls(times, drawn), Seconds(g))
    ensures T.Until(t / P.SECOND, Calls(times, drawn)) == (if times == [] then t else times[|times| - 1]) / P.SECOND
    decreases |times|
  {
    var calls := Calls(times, drawn);
    if times == [] {
    } else {
      SecondsBetween(t, times[0], g);
      CallsGaps(times[0], times[1..], drawn[1..], g);
      assert calls[1..] == Calls(times[1..], drawn[1..]);
    }
  }

  lemma PacedFromStart(last: nat, start: nat, times: seq<nat>, g: nat)
    requires Paced(last, times, g) && last <= start && (times != [] ==> start <= times[0])
    ensures Paced(start, times, g)
  {}

  /** When a token is dead: with an idle turn at least every h and turns that work at most w, a token handed out at
      time t is rejected from two rotations and two gaps later on, a gap being 60 seconds + h + w in whole seconds,
      rounded up. Before t, maintenance ran last and the loop was idle last at the times given. */
  lemma TokenDeadUnderTraffic(digest: T.Digest, st: T.TokenState, addr: CompactAddr, last: nat, idle: nat, t: nat,
                              turns: seq<Turn>, drawn: seq<T.Secret>, h: nat, w: nat)
    requires last <= t <= last + MAINTENANCE_INTERVAL + h + w && idle <= last + MAINTENANCE_INTERVAL
    requires Possible(t, turns) && Quiet(idle, turns, h, w) && st.lastRotation <= t / P.SECOND
    requires |drawn| == |Runs(last, turns)|
    requires var g := Seconds(MAINTENANCE_INTERVAL + h + w);
      EndOf(t, turns) / P.SECOND >= t / P.SECOND + 2 * T.SECRET_ROTATION_INTERVAL + 2 * g
    requires var calls := Calls(Runs(last, turns), drawn);
      T.Unseen(st.current, calls) &&
      T.NoCollision(digest, addr, {st.current, T.Run(st, calls).current, T.Run(st, calls).previous})
    ensures !T.Accepts(digest, T.Run(st, Calls(Runs(last, turns), drawn)), addr, T.Issue(digest, st, addr))
  {
    var gap, times := MAINTENANCE_INTERVAL + h + w, Runs(last, turns);
    MaintenanceIsPaced(t, idle, last, turns, h, w);
    LastRunIsLast(last, turns);
    PacedFromStart(last, t, times, gap);
    hide Runs, LastRun, EndOf, Quiet, Possible, Paced, T.Run, T.Accepts, T.Gaps, T.NoCollision, T.Unseen, Seconds,
      Calls;
    CallsGaps(t, times, drawn, gap);
    SecondsBetween(if times == [] then t else LastRun(last, turns), EndOf(t, turns), gap);
    T.TokenDeadEventually(digest, st, Calls(times, drawn), addr, t / P.SECOND, Seconds(gap),
                          EndOf(t, turns) / P.SECOND);
  }

  /** Dense traffic keeps every token alive as long as it lasts. */
  lemma DenseTrafficKeepsTokens(t: nat, last: nat, arrivals: seq<nat>, turns: seq<Turn>, digest: T.Digest,
                                st: T.TokenState, addr: CompactAddr, drawn: seq<T.Secret>)
    requires Driven(t, arrivals, turns) && Dense(t, arrivals) && |turns| <= |arrivals|
    requires |drawn| == |Runs(last, turns)|
    ensures T.Accepts(digest, T.Run(st, Calls(Runs(last, turns), drawn)), addr, T.Issue(digest, st, addr))
  {
    DenseTrafficStarves(t, last, arrivals, turns);
  }

  // ---- one such traffic ----

  const HALF: nat := P.SECOND / 2

  /** Datagrams every half second after time t, and turns that work no time. */
  function HalfSeconds(t: nat, n: nat): (r: seq<nat>)
    ensures |r| == n
    decreases n
  {
    if n == 0 then [] else [t + HALF] + HalfSeconds(t + HALF, n - 1)
  }

  function Steady(t: nat, n: nat): (r: seq<Turn>)
    ensures |r| == n
    decreases n
  {
    if n == 0 then [] else [Received(t + HALF, t + HALF)] + Steady(t + HALF, n - 1)
  }

  lemma {:induction false} SteadyIsDriven(t: nat, n: nat)
    ensures Driven(t, HalfSeconds(t, n), Steady(t, n)) && Dense(t, HalfSeconds(t, n))
    decreases n
  {
    if n == 0 {
    } else {
      SteadyIsDriven(t + HALF, n - 1);
    }
  }

  lemma {:induction false} SteadyEnd(t: nat, n: nat)
    ensures EndOf(t, Steady(t, n)) == t + n * HALF
    decreases n
  {
    if n == 0 {
    } else {
      SteadyEnd(t + HALF, n - 1);
      OneHalfMore(n);
      assert Steady(t, n)[1..] == Steady(t + HALF, n - 1);
    }
  }

  lemma OneHalfMore(n: nat)
    requires n > 0
    ensures n * HALF == HALF + (n - 1) * HALF
  {}

  /** A datagram every half second is traffic of any length under which maintenance never runs, and a token handed
      out before is accepted long past the time of two rotations. */
  lemma SteadyTrafficStarvesRotation(t: nat, last: nat, n: nat, digest: T.Digest, st: T.TokenState, addr: CompactAddr)
    ensures Driven(t, HalfSeconds(t, n), Steady(t, n)) && Runs(last, Steady(t, n)) == []
    ensures EndOf(t, Steady(t, n)) == t + n * HALF
    ensures T.Accepts(digest, T.Run(st, Calls(Runs(last, Steady(t, n)), [])), addr, T.Issue(digest, st, addr))
  {
    SteadyIsDriven(t, n);
    SteadyEnd(t, n);
    DenseTrafficStarves(t, last, HalfSeconds(t, n), Steady(t, n));
    DenseTrafficKeepsTokens(t, last, HalfSeconds(t, n), Steady(t, n), digest, st, addr, []);
  }
}
