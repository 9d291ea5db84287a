/** The Kademlia XOR metric on 160-bit node ids, kept as 20 big-endian bytes. */
module XorMetric {
  import opened Bytes

  type NodeId = s: seq<Byte> | |s| == 20 witness seq(20, _ => 0)

  /** Exclusive or of the low n bits, bit by bit from the least significant one. */
  function XorBits(n: nat, a: nat, b: nat): nat {
    if n == 0 then 0
    else 2 * XorBits(n - 1, a / 2, b / 2) + (if a % 2 != b % 2 then 1 else 0)
  }

  lemma {:induction false} XorBitsBounded(n: nat, a: nat, b: nat)
    ensures XorBits(n, a, b) < Pow2(n)
  {
    if n == 0 {
    } else {
      XorBitsBounded(n - 1, a / 2, b / 2);
    }
  }

  function XorByte(a: Byte, b: Byte): Byte {
    XorBitsBounded(8, a, b);
    assert Pow2(8) == 256;
    XorBits(8, a, b)
  }

  function Xor(a: seq<Byte>, b: seq<Byte>): (r: seq<Byte>)
    requires |a| == |b|
    ensures |r| == |a|
  {
    seq(|a|, i requires 0 <= i < |a| => XorByte(a[i], b[i]))
  }

  /** The distance between two ids, as the 160-bit number it spells. */
  function Distance(a: NodeId, b: NodeId): nat {
    Value(Xor(a, b))
  }

  // ---- bitwise exclusive or ----

  lemma XorBitsStep(n: nat, a: nat, b: nat, c: nat, d: nat)
    requires c < 2 && d < 2
    ensures XorBits(n + 1, 2 * a + c, 2 * b + d) == 2 * XorBits(n, a, b) + (if c != d then 1 else 0)
  {}

  function ShiftLeft(k: nat, v: nat): nat {
    if k == 0 then v else 2 * ShiftLeft(k - 1, v)
  }

  lemma ShiftLeftStep(k: nat, v: nat)
    ensures ShiftLeft(k + 1, v) == 2 * ShiftLeft(k, v)
  {}

  lemma NoBits(c: nat, d: nat)
    requires c < Pow2(0) && d < Pow2(0)
    ensures c == d == 0 && XorBits(0, c, d) == 0
  {}

  lemma BelowHalf(k: nat, c: nat)
    requires c < Pow2(k + 1)
    ensures c / 2 < Pow2(k) && c == 2 * (c / 2) + c % 2
  {}

  /** The low k bits and the bits above them do not meet. */
  lemma {:induction false} XorBitsSplit(n: nat, k: nat, x: nat, y: nat, c: nat, d: nat)
    requires c < Pow2(k) && d < Pow2(k)
    ensures XorBits(n + k, ShiftLeft(k, x) + c, ShiftLeft(k, y) + d) == ShiftLeft(k, XorBits(n, x, y)) +
      XorBits(k, c, d)
  {
    hide XorBits, Pow2;
    if k == 0 {
      NoBits(c, d);
    } else {
      hide ShiftLeft;
      BelowHalf(k - 1, c);
      BelowHalf(k - 1, d);
      XorBitsSplit(n, k - 1, x, y, c / 2, d / 2);
      OneBitMore(n, k - 1, x, y, c / 2, d / 2, c % 2, d % 2);
    }
  }

  lemma OneBitMore(n: nat, k: nat, x: nat, y: nat, c: nat, d: nat, i: nat, j: nat)
    requires i < 2 && j < 2
    requires XorBits(n + k, ShiftLeft(k, x) + c, ShiftLeft(k, y) + d) == ShiftLeft(k, XorBits(n, x, y)) +
      XorBits(k, c, d)
    ensures XorBits(n + k + 1, ShiftLeft(k + 1, x) + (2 * c + i), ShiftLeft(k + 1, y) + (2 * d + j)) ==
      ShiftLeft(k + 1, XorBits(n, x, y)) + XorBits(k + 1, 2 * c + i, 2 * d + j)
  {
    hide XorBits, ShiftLeft;
    ShiftLeftStep(k, x);
    ShiftLeftStep(k, y);
    ShiftLeftStep(k, XorBits(n, x, y));
    XorBitsStep(n + k, ShiftLeft(k, x) + c, ShiftLeft(k, y) + d, i, j);
    XorBitsStep(k, c, d, i, j);
  }

  lemma ShiftLeftByte(v: nat)
    ensures ShiftLeft(8, v) == 256 * v
  {
    var w := ShiftLeft(4, v);
    assert w == 2 * ShiftLeft(3, v) == 4 * ShiftLeft(2, v) == 8 * ShiftLeft(1, v) == 16 * v;
    assert ShiftLeft(8, v) == 2 * ShiftLeft(7, v) == 4 * ShiftLeft(6, v) == 8 * ShiftLeft(5, v) == 16 * w;
  }

  lemma {:induction false} XorBitsTriangle(n: nat, a: nat, b: nat, c: nat)
    ensures XorBits(n, a, c) <= XorBits(n, a, b) + XorBits(n, b, c)
  {
    if n == 0 {
    } else {
      XorBitsTriangle(n - 1, a / 2, b / 2, c / 2);
    }
  }

  lemma {:induction false} XorBitsSymmetric(n: nat, a: nat, b: nat)
    ensures XorBits(n, a, b) == XorBits(n, b, a)
  {
    if n == 0 {
    } else {
      XorBitsSymmetric(n - 1, a / 2, b / 2);
    }
  }

  /** Below 2^k exactly when the numbers agree from bit k upwards; k = 0 says that
      only equal numbers are at distance zero. */
  lemma {:induction false} XorBitsSmall(n: nat, k: nat, a: nat, b: nat)
    requires k <= n && a < Pow2(n) && b < Pow2(n)
    ensures XorBits(n, a, b) < Pow2(k) <==> a / Pow2(k) == b / Pow2(k)
  {
    if n == 0 {
    } else {
      XorBitsStep(n - 1, a / 2, b / 2, a % 2, b % 2);
      hide XorBits;
      if k > 0 {
        XorBitsSmall(n - 1, k - 1, a / 2, b / 2);
        HalveThenDivide(a, Pow2(k - 1));
        HalveThenDivide(b, Pow2(k - 1));
      } else {
        XorBitsSmall(n - 1, 0, a / 2, b / 2);
      }
    }
  }

  lemma HalveThenDivide(a: nat, p: nat)
    requires p > 0
    ensures (a / 2) / p == a / (2 * p)
  {
    var q, r := (a / 2) / p, (a / 2) % p;
    var pq := p * q;
    assert a / 2 == pq + r;
    assert (2 * p) * q == 2 * pq;
    DivideUnique(a, 2 * p, q, 2 * r + a % 2);
  }

  lemma DivideUnique(a: nat, p: nat, q: nat, r: nat)
    requires p > 0 && a == p * q + r && r < p
    ensures a / p == q
  {
    var q', r' := a / p, a % p;
    ProductOrder(p, q', q);
    ProductOrder(p, q, q');
  }

  lemma {:induction false} ProductOrder(p: nat, m: nat, n: nat)
    ensures m > n ==> p * m >= p * n + p
  {
    if m > n + 1 {
      ProductOrder(p, m - 1, n);
      assert p * m == p * (m - 1) + p;
    }
  }

  lemma {:induction false} XorBitsInjective(n: nat, a: nat, b: nat, t: nat)
    requires a < Pow2(n) && b < Pow2(n)
    requires XorBits(n, a, t) == XorBits(n, b, t)
    ensures a == b
  {
    if n == 0 {
    } else {
      XorBitsInjective(n - 1, a / 2, b / 2, t / 2);
    }
  }

  // ---- from bytes to numbers ----

  /** Byte-wise exclusive or is bit-wise exclusive or of the numbers. */
  lemma {:induction false} XorIsBitwise(a: seq<Byte>, b: seq<Byte>)
    requires |a| == |b|
    ensures Value(Xor(a, b)) == XorBits(8 * |a|, Value(a), Value(b))
  {
    if a == [] {
    } else {
      var n := |a| - 1;
      var u, v := a[..n], b[..n];
      assert Xor(a, b)[..n] == Xor(u, v);
      XorIsBitwise(u, v);
      assert Pow2(8) == 256;
      XorBitsSplit(8 * n, 8, Value(u), Value(v), a[n], b[n]);
      ShiftLeftByte(Value(u));
      ShiftLeftByte(Value(v));
      ShiftLeftByte(XorBits(8 * n, Value(u), Value(v)));
      assert 8 * |a| == 8 * n + 8;
    }
  }

  /** The metric laws: symmetric, zero only on the diagonal, and the triangle inequality. */
  lemma DistanceIsAMetric(a: NodeId, b: NodeId, c: NodeId)
    ensures Distance(a, b) == Distance(b, a)
    ensures Distance(a, b) == 0 <==> a == b
    ensures Distance(a, c) <= Distance(a, b) + Distance(b, c)
  {
    XorIsBitwise(a, b);
    XorIsBitwise(b, a);
    XorIsBitwise(a, c);
    XorIsBitwise(b, c);
    XorBitsSymmetric(8 * |a|, Value(a), Value(b));
    XorBitsTriangle(8 * |a|, Value(a), Value(b), Value(c));
    ZeroDistance(a, b);
  }

  lemma ZeroDistance(a: NodeId, b: NodeId)
    ensures Distance(a, b) == 0 <==> a == b
  {
    SmallXorMeaning(a, b, 0);
    if Value(a) == Value(b) {
      ValueInjective(a, b);
    }
  }

  /** Byte strings at distance below 2^k are those that agree from bit k upwards. */
  lemma SmallXorMeaning(a: seq<Byte>, b: seq<Byte>, k: nat)
    requires |a| == |b| && k <= 8 * |a|
    ensures Value(Xor(a, b)) < Pow2(k) <==> Value(a) / Pow2(k) == Value(b) / Pow2(k)
  {
    XorIsBitwise(a, b);
    ValueBounded(a);
    ValueBounded(b);
    XorBitsSmall(8 * |a|, k, Value(a), Value(b));
  }

  /** Unidirectionality: the distance to a fixed target determines the id. */
  lemma DistanceDeterminesId(a: NodeId, b: NodeId, target: NodeId)
    ensures Distance(a, target) == Distance(b, target) <==> a == b
  {
    if Distance(a, target) == Distance(b, target) {
      XorIsBitwise(a, target);
      XorIsBitwise(b, target);
      ValueBounded(a);
      ValueBounded(b);
      XorBitsInjective(8 * |a|, Value(a), Value(b), Value(target));
      ValueInjective(a, b);
    }
  }

  // ---- common prefixes ----

  /** The number of significant bits. */
  function BitLength(v: nat): (l: nat)
    ensures v < Pow2(l)
    ensures v > 0 ==> l > 0 && Pow2(l - 1) <= v
  {
    if v == 0 then 0 else 1 + BitLength(v / 2)
  }

  /** The number of leading bits on which two ids agree. */
  function PrefixLen(a: NodeId, b: NodeId): (p: nat)
    ensures p <= 160
  {
    ValueBounded(Xor(a, b));
    BitLengthAtMost(Distance(a, b), 8 * |a|);
    160 - BitLength(Distance(a, b))
  }

  lemma BitLengthAtMost(v: nat, n: nat)
    ensures BitLength(v) <= n <==> v < Pow2(n)
  {}

  /** A prefix of at least j bits is exactly agreement on the top j bits of the ids. */
  lemma PrefixLenMeaning(a: NodeId, b: NodeId, j: nat)
    requires j <= 160
    ensures PrefixLen(a, b) >= j <==> Distance(a, b) < Pow2(160 - j)
    ensures PrefixLen(a, b) >= j <==> Value(a) / Pow2(160 - j) == Value(b) / Pow2(160 - j)
  {
    BitLengthAtMost(Distance(a, b), 160 - j);
    SmallXorMeaning(a, b, 160 - j);
  }

  /** Common prefixes form an ultrametric. */
  lemma PrefixLenUltrametric(a: NodeId, b: NodeId, c: NodeId)
    ensures PrefixLen(a, c) >= if PrefixLen(a, b) <= PrefixLen(b, c) then PrefixLen(a, b) else PrefixLen(b, c)
  {
    var j := if PrefixLen(a, b) <= PrefixLen(b, c) then PrefixLen(a, b) else PrefixLen(b, c);
    PrefixLenMeaning(a, b, j);
    PrefixLenMeaning(b, c, j);
    PrefixLenMeaning(a, c, j);
  }

  /** A prefix of p < 160 bits pins the distance into one binade, so a longer
      common prefix means a strictly smaller distance. */
  lemma PrefixLenBoundsDistance(a: NodeId, b: NodeId, c: NodeId, t: NodeId)
    ensures PrefixLen(a, b) == 160 <==> a == b
    ensures PrefixLen(a, b) < 160 ==>
      Pow2(159 - PrefixLen(a, b)) <= Distance(a, b) < Pow2(160 - PrefixLen(a, b))
    ensures PrefixLen(a, t) > PrefixLen(c, t) ==> Distance(a, t) < Distance(c, t)
  {
    ZeroDistance(a, b);
    if PrefixLen(a, t) > PrefixLen(c, t) {
      Pow2Grows(BitLength(Distance(a, t)), BitLength(Distance(c, t)) - 1);
    }
  }

  // ---- the loops ----

  method XorDistance(a: NodeId, b: NodeId) returns (result: NodeId)
    ensures result == Xor(a, b)
  {
    result := seq(20, _ => 0);
    for i := 0 to 20
      invariant |result| == 20
      invariant forall j :: 0 <= j < i ==> result[j] == Xor(a, b)[j]
    {
      result := result[i := XorByte(a[i], b[i])];
    }
  }

  lemma ValueSplitAt(s: seq<Byte>, i: nat)
    requires i < |s|
    ensures Value(s[..i + 1]) == Value(s[..i]) * 256 + s[i]
    ensures Value(s) == Value(s[..i + 1]) * Pow2(8 * (|s| - i - 1)) + Value(s[i + 1..])
    ensures Value(s[i + 1..]) < Pow2(8 * (|s| - i - 1))
  {
    var u, v := s[..i + 1], s[i + 1..];
    ValueBounded(v);
    assert u[..i] == s[..i];
    assert s == u + v;
    ValueOfConcat(u, v);
  }

  /** The first differing byte decides the order of the numbers. */
  lemma FirstDifferenceDecides(a: seq<Byte>, b: seq<Byte>, i: nat)
    requires |a| == |b| && i < |a| && a[..i] == b[..i] && a[i] < b[i]
    ensures Value(a) < Value(b)
  {
    ValueSplitAt(a, i);
    ValueSplitAt(b, i);
    var top := Value(a[..i]) * 256;
    ProductOrder(Pow2(8 * (|a| - i - 1)), top + b[i], top + a[i]);
  }

  /** `distance_less` is the strict order of the 160-bit numbers. */
  method DistanceLess(a: NodeId, b: NodeId) returns (less: bool)
    ensures less <==> Value(a) < Value(b)
  {
    for i := 0 to 20
      invariant a[..i] == b[..i]
    {
      if a[i] < b[i] {
        FirstDifferenceDecides(a, b, i);
        return true;
      }
      if a[i] > b[i] {
        FirstDifferenceDecides(b, a, i);
        return false;
      }
      assert a[..i + 1] == a[..i] + [a[i]] && b[..i + 1] == b[..i] + [b[i]];
    }
    assert a == a[..20] && b == b[..20];
    return false;
  }

  lemma BitLengthUnique(v: nat, l: nat)
    requires l > 0 && Pow2(l - 1) <= v < Pow2(l)
    ensures BitLength(v) == l
  {
    BitLengthAtMost(v, l);
    BitLengthAtMost(v, l - 1);
  }

  lemma BitLengthShift(x: nat, m: nat, r: nat)
    requires x > 0 && r < Pow2(m)
    ensures BitLength(x * Pow2(m) + r) == BitLength(x) + m
  {
    var l, p := BitLength(x), Pow2(m);
    Pow2Adds(m, l - 1);
    Pow2Adds(m, l);
    ProductOrder(p, x, Pow2(l - 1));
    ProductOrder(p, Pow2(l), x);
    assert p * x == x * p;
    BitLengthUnique(x * p + r, m + l);
  }

  /** `u8::leading_zeros`. */
  function LeadingZeros(b: Byte): (z: nat)
    ensures z <= 8
  {
    assert Pow2(8) == 256;
    BitLengthAtMost(b, 8);
    8 - BitLength(b)
  }

  lemma {:induction false} ValueOfZeros(s: seq<Byte>)
    requires forall i :: 0 <= i < |s| ==> s[i] == 0
    ensures Value(s) == 0
  {
    if s == [] {
    } else {
      ValueOfZeros(s[..|s| - 1]);
    }
  }

  lemma FirstNonzeroByte(s: seq<Byte>, i: nat)
    requires i < |s| && s[i] != 0
    requires forall j :: 0 <= j < i ==> s[j] == 0
    ensures BitLength(Value(s)) == BitLength(s[i]) + 8 * (|s| - i - 1)
  {
    hide Value, BitLength, Pow2;
    ValueOfZeros(s[..i]);
    ValueSplitAt(s, i);
    BitLengthShift(s[i], 8 * (|s| - i - 1), Value(s[i + 1..]));
  }

  method CommonPrefixLen(a: NodeId, b: NodeId) returns (len: nat)
    ensures len == PrefixLen(a, b)
  {
    var dist := XorDistance(a, b);
    len := 0;
    var i := 0;
    while i < 20
      invariant 0 <= i <= 20 && len == 8 * i
      invariant forall j :: 0 <= j < i ==> dist[j] == 0
    {
      if dist[i] == 0 {
        len := len + 8;
      } else {
        len := len + LeadingZeros(dist[i]);
        FirstNonzeroByte(dist, i);
        return;
      }
      i := i + 1;
    }
    ValueOfZeros(dist);
  }
}
