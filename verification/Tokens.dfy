/** The rotating-secret token manager of the announce protocol. */
module Tokens {
  import opened Bytes
  import opened Addresses

  const TOKEN_LEN: nat := 8
  const SECRET_ROTATION_INTERVAL: nat := 300

  type Secret = s: seq<Byte> | |s| == 32 witness seq(32, _ => 0)
  type Token = s: seq<Byte> | |s| == 8 witness seq(8, _ => 0)

  /** The first eight bytes of the digest of address and secret, as an unknown function. */
  type Digest = (CompactAddr, Secret) -> Token

  datatype TokenState = TokenState(current: Secret, previous: Secret, lastRotation: nat)

  /** A call of `maybe_rotate`: when, and the random secret it would draw. */
  datatype RotateCall = RotateCall(now: nat, drawn: Secret)

  predicate Due(st: TokenState, now: nat) {
    now >= st.lastRotation + SECRET_ROTATION_INTERVAL
  }

  function Rotate(st: TokenState, call: RotateCall): TokenState {
    if Due(st, call.now) then TokenState(call.drawn, st.current, call.now) else st
  }

  function Issue(digest: Digest, st: TokenState, addr: CompactAddr): Token {
    digest(addr, st.current)
  }

  predicate Accepts(digest: Digest, st: TokenState, addr: CompactAddr, token: seq<Byte>) {
    |token| == TOKEN_LEN && (token == digest(addr, st.current) || token == digest(addr, st.previous))
  }

  class TokenManager {
    const digest: Digest
    var currentSecret: Secret
    var previousSecret: Secret
    var lastRotation: nat

    function State(): TokenState
      reads this
    {
      TokenState(currentSecret, previousSecret, lastRotation)
    }

    constructor (digest: Digest, current: Secret, previous: Secret, now: nat)
      ensures this.digest == digest && State() == TokenState(current, previous, now)
    {
      this.digest := digest;
      currentSecret := current;
      previousSecret := previous;
      lastRotation := now;
    }

    method MaybeRotate(now: nat, drawn: Secret)
      modifies this
      ensures State() == Rotate(old(State()), RotateCall(now, drawn))
    {
      if now >= lastRotation + SECRET_ROTATION_INTERVAL {
        previousSecret := currentSecret;
        currentSecret := drawn;
        lastRotation := now;
      }
    }

    method Generate(addr: CompactAddr) returns (token: Token)
      ensures token == Issue(digest, State(), addr)
    {
      token := digest(addr, currentSecret);
    }

    method Verify(addr: CompactAddr, token: seq<Byte>) returns (ok: bool)
      ensures ok == Accepts(digest, State(), addr, token)
    {
      if |token| != TOKEN_LEN {
        return false;
      }
      var current := digest(addr, currentSecret);
      if token == current {
        return true;
      }
      var previous := digest(addr, previousSecret);
      return token == previous;
    }
  }

  // ---- lifetimes over runs ----

  function Run(st: TokenState, calls: seq<RotateCall>): TokenState
    decreases |calls|
  {
    if calls == [] then st else Run(Rotate(st, calls[0]), calls[1..])
  }

  function Rotations(st: TokenState, calls: seq<RotateCall>): nat
    decreases |calls|
  {
    if calls == [] then 0
    else (if Due(st, calls[0].now) then 1 else 0) + Rotations(Rotate(st, calls[0]), calls[1..])
  }

  /** The calls happen in time order, from time t on. */
  ghost predicate InOrder(t: nat, calls: seq<RotateCall>)
    decreases |calls|
  {
    calls != [] ==> t <= calls[0].now && InOrder(calls[0].now, calls[1..])
  }

  /** The time of the last call, or t. */
  function Until(t: nat, calls: seq<RotateCall>): nat
    decreases |calls|
  {
    if calls == [] then t else Until(calls[0].now, calls[1..])
  }

  /** From time t on, no two consecutive calls are more than g apart. */
  ghost predicate Gaps(t: nat, calls: seq<RotateCall>, g: nat)
    decreases |calls|
  {
    calls != [] ==> t <= calls[0].now <= t + g && Gaps(calls[0].now, calls[1..], g)
  }

  /** No secret drawn during the run equals s. */
  ghost predicate Unseen(s: Secret, calls: seq<RotateCall>) {
    forall i :: 0 <= i < |calls| ==> calls[i].drawn != s
  }

  lemma {:induction false} UntilBounds(t: nat, calls: seq<RotateCall>)
    requires InOrder(t, calls)
    ensures t <= Until(t, calls)
    decreases |calls|
  {
    if calls == [] {
    } else {
      UntilBounds(calls[0].now, calls[1..]);
    }
  }

  /** Two rotations are at least 300 seconds apart. */
  lemma {:induction false} RotationsSpaced(st: TokenState, calls: seq<RotateCall>, t: nat)
    requires InOrder(t, calls) && t >= st.lastRotation
    ensures Rotations(st, calls) >= 1 ==> Until(t, calls) >= st.lastRotation + SECRET_ROTATION_INTERVAL
    ensures Rotations(st, calls) >= 2 ==> Until(t, calls) >= t + SECRET_ROTATION_INTERVAL
    decreases |calls|
  {
    if calls == [] {
    } else {
      UntilBounds(calls[0].now, calls[1..]);
      RotationsSpaced(Rotate(st, calls[0]), calls[1..], calls[0].now);
    }
  }

  /** After no rotation the issuing secret is current, after one it is previous. */
  lemma {:induction false} SecretPosition(st: TokenState, calls: seq<RotateCall>)
    ensures Rotations(st, calls) == 0 ==> Run(st, calls) == st
    ensures Rotations(st, calls) == 1 ==> Run(st, calls).previous == st.current
    decreases |calls|
  {
    if calls == [] {
    } else {
      SecretPosition(Rotate(st, calls[0]), calls[1..]);
    }
  }

  /** A token is accepted from its endpoint whatever happens during the 300 seconds after issue. */
  lemma TokenLivesThreeHundredSeconds(digest: Digest, st: TokenState, calls: seq<RotateCall>, addr: CompactAddr, t: nat)
    requires InOrder(t, calls) && t >= st.lastRotation
    requires Until(t, calls) < t + SECRET_ROTATION_INTERVAL
    ensures Accepts(digest, Run(st, calls), addr, Issue(digest, st, addr))
  {
    RotationsSpaced(st, calls, t);
    SecretPosition(st, calls);
  }

  lemma {:induction false} SecretsAfterTwo(st: TokenState, calls: seq<RotateCall>, s: Secret)
    requires Unseen(s, calls)
    ensures Rotations(st, calls) >= 1 ==> Run(st, calls).current != s
    ensures Rotations(st, calls) >= 2 ==> Run(st, calls).previous != s
    ensures Rotations(st, calls) >= 1 && st.current != s ==> Run(st, calls).previous != s
    decreases |calls|
  {
    if calls == [] {
    } else {
      assert calls[0].drawn != s;
      SecretsAfterTwo(Rotate(st, calls[0]), calls[1..], s);
      SecretPosition(Rotate(st, calls[0]), calls[1..]);
    }
  }

  /** No two of the given secrets give the endpoint the same token. */
  ghost predicate NoCollision(digest: Digest, addr: CompactAddr, secrets: set<Secret>) {
    forall s, r :: s in secrets && r in secrets && digest(addr, s) == digest(addr, r) ==> s == r
  }

  /** With fresh secrets and no digest collision, a token is accepted exactly until the second rotation. */
  lemma TokenDiesAtSecondRotation(digest: Digest, st: TokenState, calls: seq<RotateCall>, addr: CompactAddr)
    requires Unseen(st.current, calls)
    requires NoCollision(digest, addr, {st.current, Run(st, calls).current, Run(st, calls).previous})
    ensures Accepts(digest, Run(st, calls), addr, Issue(digest, st, addr)) <==> Rotations(st, calls) <= 1
  {
    SecretPosition(st, calls);
    SecretsAfterTwo(st, calls, st.current);
  }

  lemma {:induction false} RotatesOnceDue(st: TokenState, calls: seq<RotateCall>, t: nat)
    requires InOrder(t, calls) && calls != []
    requires Until(t, calls) >= st.lastRotation + SECRET_ROTATION_INTERVAL
    ensures Rotations(st, calls) >= 1
    decreases |calls|
  {
    if calls[1..] != [] && !Due(st, calls[0].now) {
      RotatesOnceDue(st, calls[1..], calls[0].now);
    }
  }

  lemma {:induction false} GapsInOrder(t: nat, calls: seq<RotateCall>, g: nat)
    requires Gaps(t, calls, g)
    ensures InOrder(t, calls)
    decreases |calls|
  {
    if calls == [] {
    } else {
      GapsInOrder(calls[0].now, calls[1..], g);
    }
  }

  lemma {:induction false} RotatesTwice(st: TokenState, calls: seq<RotateCall>, t: nat, issued: nat, g: nat)
    requires Gaps(t, calls, g) && st.lastRotation <= issued
    requires t <= issued + SECRET_ROTATION_INTERVAL
    requires Until(t, calls) >= issued + 2 * SECRET_ROTATION_INTERVAL + g
    ensures Rotations(st, calls) >= 2
    decreases |calls|
  {
    GapsInOrder(t, calls, g);
    if calls == [] {
    } else {
      var now, rest := calls[0].now, calls[1..];
      if Due(st, now) {
        if rest != [] {
          RotatesOnceDue(Rotate(st, calls[0]), rest, now);
        }
      } else {
        RotatesTwice(st, rest, now, issued, g);
      }
    }
  }

  /** If `maybe_rotate` is called with gaps of at most g seconds, a token issued at t is rejected at
      every time q >= t + 600 + 2g. */
  lemma TokenDeadEventually(digest: Digest, st: TokenState, calls: seq<RotateCall>, addr: CompactAddr, t: nat, g: nat,
                            q: nat)
    requires Gaps(t, calls, g) && st.lastRotation <= t
    requires Until(t, calls) <= q <= Until(t, calls) + g
    requires q >= t + 2 * SECRET_ROTATION_INTERVAL + 2 * g
    requires Unseen(st.current, calls)
    requires NoCollision(digest, addr, {st.current, Run(st, calls).current, Run(st, calls).previous})
    ensures !Accepts(digest, Run(st, calls), addr, Issue(digest, st, addr))
  {
    RotatesTwice(st, calls, t, t, g);
    TokenDiesAtSecondRotation(digest, st, calls, addr);
  }
}
