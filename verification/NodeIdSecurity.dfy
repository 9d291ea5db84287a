/** The node-id restriction of BEP 42 as the routing table implements it: the top of an
    id is tied to a CRC-32 of the masked IPv4 address. A `u32` is its 32 bits, least
    significant first. */
module NodeIdSecurity {
  import opened Bytes
  import opened Addresses
  import opened XorMetric

  type Word = w: seq<bool> | |w| == 32 witness seq(32, _ => false)

  /** The low n bits of a number. */
  function Bits(n: nat, v: nat): (b: seq<bool>)
    ensures |b| == n
  {
    if n == 0 then [] else [v % 2 == 1] + Bits(n - 1, v / 2)
  }

  function BitsValue(b: seq<bool>): (v: nat)
    ensures v < Pow2(|b|)
  {
    if b == [] then 0 else (if b[0] then 1 else 0) + 2 * BitsValue(b[1..])
  }

  function XorSeq(x: seq<bool>, y: seq<bool>): (r: seq<bool>)
    requires |x| == |y|
    ensures |r| == |x|
  {
    seq(|x|, i requires 0 <= i < |x| => x[i] != y[i])
  }

  function Zeros(n: nat): (z: seq<bool>)
    ensures |z| == n && forall i :: 0 <= i < n ==> !z[i]
  {
    seq(n, _ => false)
  }

  function Ones(): Word {
    seq(32, _ => true)
  }

  function Not(w: Word): Word {
    seq(32, i requires 0 <= i < 32 => !w[i])
  }

  function ShiftRight(w: Word): Word {
    w[1..] + [false]
  }

  /** 0xedb88320, written out from the top bit down. */
  function Polynomial(): Word {
    seq(32, i requires 0 <= i < 32 => "11101101101110001000001100100000"[31 - i] == "1"[0])
  }

  // ---- bits and numbers ----

  lemma {:induction false} BitsRoundTrip(n: nat, v: nat, b: seq<bool>)
    requires |b| == n
    ensures v < Pow2(n) ==> BitsValue(Bits(n, v)) == v
    ensures Bits(n, BitsValue(b)) == b
  {
    if n == 0 {
    } else {
      BitsRoundTrip(n - 1, v / 2, b[1..]);
      assert Bits(n, v)[1..] == Bits(n - 1, v / 2);
      assert b == [b[0]] + b[1..];
    }
  }

  lemma {:induction false} BitsOfXor(n: nat, a: nat, b: nat)
    ensures Bits(n, XorBits(n, a, b)) == XorSeq(Bits(n, a), Bits(n, b))
  {
    if n == 0 {
    } else {
      BitsOfXor(n - 1, a / 2, b / 2);
    }
  }

  lemma {:induction false} BitsExtend(n: nat, m: nat, v: nat)
    requires v < Pow2(n)
    ensures Bits(n + m, v) == Bits(n, v) + Zeros(m)
  {
    if n == 0 {
      if m > 0 {
        BitsExtend(0, m - 1, 0);
        assert Zeros(m) == [false] + Zeros(m - 1);
      }
    } else {
      BitsExtend(n - 1, m, v / 2);
    }
  }

  // ---- CRC-32 (IEEE 802.3, reflected) ----

  function Step(poly: Word, c: Word): Word {
    if c[0] then XorSeq(ShiftRight(c), poly) else ShiftRight(c)
  }

  function Steps(poly: Word, n: nat, c: Word): Word {
    if n == 0 then c else Step(poly, Steps(poly, n - 1, c))
  }

  function Fold(poly: Word, init: Word, data: seq<Byte>): Word {
    if data == [] then init
    else Steps(poly, 8, XorSeq(Fold(poly, init, data[..|data| - 1]), Bits(32, data[|data| - 1])))
  }

  function CrcWith(poly: Word, data: seq<Byte>): Word {
    Not(Fold(poly, Ones(), data))
  }

  function Crc(data: seq<Byte>): Word {
    CrcWith(Polynomial(), data)
  }

  method Crc32(data: seq<Byte>) returns (r: Word)
    ensures r == Crc(data)
  {
    var poly := Polynomial();
    var crc := Ones();
    for i := 0 to |data|
      invariant crc == Fold(poly, Ones(), data[..i])
    {
      crc := XorSeq(crc, Bits(32, data[i]));
      ghost var start := crc;
      for j := 0 to 8
        invariant crc == Steps(poly, j, start)
      {
        if crc[0] {
          crc := XorSeq(ShiftRight(crc), poly);
        } else {
          crc := ShiftRight(crc);
        }
      }
      assert data[..i + 1][..i] == data[..i];
    }
    assert data[..|data|] == data;
    r := Not(crc);
  }

  lemma StepLinear(poly: Word, x: Word, y: Word)
    ensures Step(poly, XorSeq(x, y)) == XorSeq(Step(poly, x), Step(poly, y))
  {}

  lemma {:induction false} StepsLinear(poly: Word, n: nat, x: Word, y: Word)
    ensures Steps(poly, n, XorSeq(x, y)) == XorSeq(Steps(poly, n, x), Steps(poly, n, y))
  {
    if n == 0 {
    } else {
      StepsLinear(poly, n - 1, x, y);
      StepLinear(poly, Steps(poly, n - 1, x), Steps(poly, n - 1, y));
    }
  }

  lemma {:induction false} StepsAdd(poly: Word, m: nat, n: nat, c: Word)
    ensures Steps(poly, m + n, c) == Steps(poly, m, Steps(poly, n, c))
  {
    if m == 0 {
    } else {
      StepsAdd(poly, m - 1, n, c);
    }
  }

  lemma XorRegroup(u: Word, v: Word, p: Word, q: Word)
    ensures XorSeq(XorSeq(u, v), XorSeq(p, q)) == XorSeq(XorSeq(u, p), XorSeq(v, q))
  {}

  lemma {:induction false} FoldLinear(poly: Word, x: Word, y: Word, a: seq<Byte>, b: seq<Byte>)
    requires |a| == |b|
    ensures Fold(poly, XorSeq(x, y), Xor(a, b)) == XorSeq(Fold(poly, x, a), Fold(poly, y, b))
  {
    if a == [] {
    } else {
      var n := |a| - 1;
      assert Xor(a, b)[..n] == Xor(a[..n], b[..n]);
      FoldLinear(poly, x, y, a[..n], b[..n]);
      var u, v, p, q := Fold(poly, x, a[..n]), Fold(poly, y, b[..n]), Bits(32, a[n]), Bits(32, b[n]);
      ByteBitsOfXor(a[n], b[n]);
      XorRegroup(u, v, p, q);
      StepsLinear(poly, 8, XorSeq(u, p), XorSeq(v, q));
    }
  }

  lemma ByteBitsOfXor(a: Byte, b: Byte)
    ensures Bits(32, XorByte(a, b)) == XorSeq(Bits(32, a), Bits(32, b))
  {
    BitsOfXor(8, a, b);
    assert Pow2(8) == 256;
    BitsExtend(8, 24, a);
    BitsExtend(8, 24, b);
    BitsExtend(8, 24, XorByte(a, b));
  }

  lemma CrcWithIsAffine(poly: Word, a: seq<Byte>, b: seq<Byte>, c: seq<Byte>)
    requires |a| == |b| == |c|
    ensures CrcWith(poly, Xor(Xor(a, b), c)) == XorSeq(XorSeq(CrcWith(poly, a), CrcWith(poly, b)), CrcWith(poly, c))
  {
    FoldLinear(poly, Ones(), Ones(), a, b);
    FoldLinear(poly, Zeros(32), Ones(), Xor(a, b), c);
    assert XorSeq(Ones(), Ones()) == Zeros(32);
    assert XorSeq(Zeros(32), Ones()) == Ones();
    var x, y, z := Fold(poly, Ones(), a), Fold(poly, Ones(), b), Fold(poly, Ones(), c);
    assert Not(XorSeq(XorSeq(x, y), z)) == XorSeq(XorSeq(Not(x), Not(y)), Not(z));
  }

  // ---- inverting the register ----

  function Unstep(poly: Word, u: Word): Word {
    [u[31]] + seq(31, i requires 0 <= i < 31 => u[i] != (u[31] && poly[i]))
  }

  function Unsteps(poly: Word, n: nat, u: Word): Word {
    if n == 0 then u else Unsteps(poly, n - 1, Unstep(poly, u))
  }

  /** One step can be undone when the top bit of the polynomial is set. */
  lemma StepInverse(poly: Word, c: Word)
    requires poly[31]
    ensures Unstep(poly, Step(poly, c)) == c
    ensures Step(poly, Unstep(poly, c)) == c
  {
    assert Step(poly, c)[31] == c[0];
    assert Unstep(poly, c)[0] == c[31];
  }

  lemma {:induction false} StepsInverse(poly: Word, n: nat, c: Word)
    requires poly[31]
    ensures Unsteps(poly, n, Steps(poly, n, c)) == c
    ensures Steps(poly, n, Unsteps(poly, n, c)) == c
  {
    hide Step, Unstep;
    if n == 0 {
    } else {
      StepInverse(poly, Steps(poly, n - 1, c));
      StepsInverse(poly, n - 1, c);
      StepsInverse(poly, n - 1, Unstep(poly, c));
      StepInverse(poly, c);
    }
  }

  // ---- four-byte inputs ----

  /** Low zero bits are shifted out unchanged. */
  lemma {:induction false} StepsShift(poly: Word, n: nat, c: Word)
    requires n <= 32 && forall i :: 0 <= i < n ==> !c[i]
    ensures Steps(poly, n, c) == c[n..] + Zeros(n)
  {
    if n == 0 {
    } else {
      StepsShift(poly, n - 1, c);
      var d := c[n - 1..] + Zeros(n - 1);
      assert d[0] == c[n - 1];
      assert ShiftRight(d) == c[n..] + Zeros(n);
    }
  }

  /** The bits of a byte string, first byte lowest. */
  function DataBits(d: seq<Byte>): (b: seq<bool>)
    ensures |b| == 8 * |d|
  {
    if d == [] then [] else DataBits(d[..|d| - 1]) + Bits(8, d[|d| - 1])
  }

  lemma ShiftOutHigh(poly: Word, n: nat, b: Byte)
    requires n <= 3
    ensures Steps(poly, 8 * n, Zeros(8 * n) + Bits(8, b) + Zeros(24 - 8 * n)) == Bits(32, b)
  {
    var high: Word := Zeros(8 * n) + Bits(8, b) + Zeros(24 - 8 * n);
    StepsShift(poly, 8 * n, high);
    assert Pow2(8) == 256;
    BitsExtend(8, 24, b);
    assert high[8 * n..] == Bits(8, b) + Zeros(24 - 8 * n);
    assert Zeros(24 - 8 * n) + Zeros(8 * n) == Zeros(24);
  }

  lemma AppendByte(c: Word, e: seq<bool>, b: seq<bool>)
    requires |e| <= 24 && |b| == 8
    ensures XorSeq(XorSeq(c, e + Zeros(32 - |e|)), Zeros(|e|) + b + Zeros(24 - |e|))
         == XorSeq(c, e + b + Zeros(24 - |e|))
  {}

  /** Feeding up to four bytes one at a time is feeding the whole word at once. */
  lemma {:induction false} FoldIsSteps(poly: Word, c: Word, d: seq<Byte>)
    requires |d| <= 4
    ensures Fold(poly, c, d) == Steps(poly, 8 * |d|, XorSeq(c, DataBits(d) + Zeros(32 - 8 * |d|)))
  {
    if d == [] {
      assert XorSeq(c, [] + Zeros(32)) == c;
    } else {
      var n := |d| - 1;
      var e, b := d[..n], d[n];
      FoldIsSteps(poly, c, e);
      var high: Word := Zeros(8 * n) + Bits(8, b) + Zeros(24 - 8 * n);
      var low: Word := XorSeq(c, DataBits(e) + Zeros(32 - 8 * n));
      ShiftOutHigh(poly, n, b);
      StepsLinear(poly, 8 * n, low, high);
      StepsAdd(poly, 8, 8 * n, XorSeq(low, high));
      AppendByte(c, DataBits(e), Bits(8, b));
    }
  }

  /** The four bytes whose CRC is r. */
  function CrcPreimage(poly: Word, r: Word): (d: seq<Byte>)
    ensures |d| == 4
  {
    var w := XorSeq(Unsteps(poly, 32, Not(r)), Ones());
    assert Pow2(8) == 256;
    [BitsValue(w[0..8]), BitsValue(w[8..16]), BitsValue(w[16..24]), BitsValue(w[24..32])]
  }

  lemma DataBitsStep(d: seq<Byte>, n: nat)
    requires n < |d|
    ensures DataBits(d[..n + 1]) == DataBits(d[..n]) + Bits(8, d[n])
  {
    hide Bits;
    assert d[..n + 1][..n] == d[..n];
  }

  lemma DataBitsOfFour(d: seq<Byte>)
    requires |d| == 4
    ensures DataBits(d) == Bits(8, d[0]) + Bits(8, d[1]) + Bits(8, d[2]) + Bits(8, d[3])
  {
    assert DataBits([]) == [] && d[..0] == [] && d[..4] == d;
    hide Bits, DataBits;
    DataBitsStep(d, 0);
    DataBitsStep(d, 1);
    DataBitsStep(d, 2);
    DataBitsStep(d, 3);
    assert [] + Bits(8, d[0]) == Bits(8, d[0]);
  }

  lemma FourParts(x: seq<bool>, y: seq<bool>, z: seq<bool>, u: seq<bool>, w: Word)
    requires |x| == |y| == |z| == |u| == 8
    ensures x + y + z + u == w <==> x == w[0..8] && y == w[8..16] && z == w[16..24] && u == w[24..32]
  {
    assert w == w[0..8] + w[8..16] + w[16..24] + w[24..32];
    var v := x + y + z + u;
    assert v[0..8] == x && v[8..16] == y && v[16..24] == z && v[24..32] == u;
  }

  lemma ByteOfBits(b: Byte, w: seq<bool>)
    requires |w| == 8
    ensures b == BitsValue(w) <==> Bits(8, b) == w
  {
    assert Pow2(8) == 256;
    BitsRoundTrip(8, b, w);
  }

  lemma BytesOfWord(w: Word, d: seq<Byte>)
    requires |d| == 4
    ensures (forall i :: 0 <= i < 4 ==> d[i] == BitsValue(w[8 * i..8 * i + 8])) <==> DataBits(d) == w
  {
    hide Bits, BitsValue, DataBits;
    DataBitsOfFour(d);
    ByteOfBits(d[0], w[0..8]);
    ByteOfBits(d[1], w[8..16]);
    ByteOfBits(d[2], w[16..24]);
    ByteOfBits(d[3], w[24..32]);
    FourParts(Bits(8, d[0]), Bits(8, d[1]), Bits(8, d[2]), Bits(8, d[3]), w);
  }

  lemma CrcWithIsABijection(poly: Word, d: seq<Byte>, r: Word)
    requires |d| == 4 && poly[31]
    ensures CrcPreimage(poly, CrcWith(poly, d)) == d
    ensures CrcWith(poly, CrcPreimage(poly, r)) == r
  {
    PreimageOfCrc(poly, d);
    CrcOfPreimage(poly, r);
  }

  lemma PreimageOfCrc(poly: Word, d: seq<Byte>)
    requires |d| == 4 && poly[31]
    ensures CrcPreimage(poly, CrcWith(poly, d)) == d
  {
    FoldIsSteps(poly, Ones(), d);
    assert DataBits(d) + Zeros(0) == DataBits(d);
    StepsInverse(poly, 32, XorSeq(Ones(), DataBits(d)));
    assert Not(CrcWith(poly, d)) == Fold(poly, Ones(), d);
    assert XorSeq(XorSeq(Ones(), DataBits(d)), Ones()) == DataBits(d);
    BytesOfWord(DataBits(d), d);
  }

  lemma CrcOfPreimage(poly: Word, r: Word)
    requires poly[31]
    ensures CrcWith(poly, CrcPreimage(poly, r)) == r
  {
    var e := CrcPreimage(poly, r);
    var w := XorSeq(Unsteps(poly, 32, Not(r)), Ones());
    BytesOfWord(w, e);
    FoldIsSteps(poly, Ones(), e);
    assert w + Zeros(0) == w;
    assert XorSeq(Ones(), w) == Unsteps(poly, 32, Not(r));
    StepsInverse(poly, 32, Not(r));
    assert Not(Not(r)) == r;
  }

  /** crc32 is affine over exclusive or on inputs of one length, and a bijection between
      four-byte inputs and 32-bit results. */
  lemma CrcIsAffine(a: seq<Byte>, b: seq<Byte>, c: seq<Byte>)
    requires |a| == |b| == |c|
    ensures Crc(Xor(Xor(a, b), c)) == XorSeq(XorSeq(Crc(a), Crc(b)), Crc(c))
  {
    CrcWithIsAffine(Polynomial(), a, b, c);
  }

  lemma CrcIsABijection(d: seq<Byte>, r: Word)
    requires |d| == 4
    ensures CrcPreimage(Polynomial(), Crc(d)) == d
    ensures Crc(CrcPreimage(Polynomial(), r)) == r
  {
    CrcWithIsABijection(Polynomial(), d, r);
  }

  // ---- generating and checking ids ----

  /** The mask 0x030f3fff. */
  function Masked(ip: Octets4): seq<Byte> {
    [ip[0] % 4, ip[1] % 16, ip[2] % 64, ip[3]]
  }

  /** `(r >> n) as u8`. */
  function ByteFrom(r: Word, n: nat): Byte
    requires n <= 24
  {
    assert Pow2(8) == 256;
    BitsValue(r[n..n + 8])
  }

  /** `b & 0xf8`. */
  function HighFive(b: Byte): Byte {
    b / 8 * 8
  }

  /** The id generated out of a random fill: it fits the address and keeps the fill in the free bits. */
  function GeneratedId(ip: Octets4, fill: NodeId): (id: NodeId)
    ensures AcceptedV4(id, ip)
    ensures id[2] % 8 == fill[2] % 8 && id[3..] == fill[3..]
  {
    var r := Crc(Masked(ip));
    [ByteFrom(r, 24), ByteFrom(r, 16), fill[2] % 8 + HighFive(ByteFrom(r, 11))] + fill[3..]
  }

  method GenerateNodeIdV4(ip: Octets4, fill: NodeId) returns (id: NodeId)
    ensures id == GeneratedId(ip, fill) && AcceptedV4(id, ip)
    ensures id[2] % 8 == fill[2] % 8 && id[3..] == fill[3..]
  {
    var r := Crc32(Masked(ip));
    id := fill;
    id := id[0 := ByteFrom(r, 24)];
    id := id[1 := ByteFrom(r, 16)];
    id := id[2 := id[2] % 8 + HighFive(ByteFrom(r, 11))];
  }

  predicate AcceptedV4(id: NodeId, ip: Octets4) {
    var r := Crc(Masked(ip));
    id[0] == ByteFrom(r, 24) && id[1] == ByteFrom(r, 16) && HighFive(id[2]) == HighFive(ByteFrom(r, 11))
  }

  predicate Accepted(id: NodeId, addr: CompactAddr) {
    match addr.Ip()
    case IpV4(v4) => AcceptedV4(id, v4)
    case IpV6(_) => true
  }

  method VerifyNodeId(id: NodeId, addr: CompactAddr) returns (ok: bool)
    ensures ok == Accepted(id, addr)
  {
    match addr.Ip() {
      case IpV4(v4) =>
        var r := Crc32(Masked(v4));
        ok := id[0] == ByteFrom(r, 24) && id[1] == ByteFrom(r, 16) && HighFive(id[2]) == HighFive(ByteFrom(r, 11));
      case IpV6(_) =>
        ok := true;
    }
  }

  lemma BitsValueInjective(x: seq<bool>, y: seq<bool>)
    requires |x| == |y|
    ensures BitsValue(x) == BitsValue(y) <==> x == y
  {
    BitsRoundTrip(|x|, 0, x);
    BitsRoundTrip(|y|, 0, y);
  }

  lemma HighFiveIsBits(r: Word)
    ensures HighFive(ByteFrom(r, 11)) == 8 * BitsValue(r[14..19])
  {
    hide BitsValue;
    DropBit(r[11..19]);
    DropBit(r[12..19]);
    DropBit(r[13..19]);
    assert r[11..19][1..] == r[12..19] && r[12..19][1..] == r[13..19] && r[13..19][1..] == r[14..19];
  }

  lemma DropBit(b: seq<bool>)
    requires b != []
    ensures 2 * BitsValue(b[1..]) <= BitsValue(b) <= 2 * BitsValue(b[1..]) + 1
  {}

  lemma TopBits(r: Word, s: Word)
    ensures r[24..32] == s[24..32] && r[16..24] == s[16..24] && r[14..19] == s[14..19] <==> r[14..] == s[14..]
  {
    if r[14..] == s[14..] {
      assert r[14..19] == r[14..][..5] && s[14..19] == s[14..][..5];
      assert r[16..24] == r[14..][2..10] && s[16..24] == s[14..][2..10];
      assert r[24..32] == r[14..][10..] && s[24..32] == s[14..][10..];
    } else {
      assert r[14..] == r[14..19] + r[16..24][3..] + r[24..32];
      assert s[14..] == s[14..19] + s[16..24][3..] + s[24..32];
    }
  }

  // ---- the mask ----

  function AndSeq(x: seq<bool>, y: seq<bool>): (r: seq<bool>)
    requires |x| == |y|
    ensures |r| == |x|
  {
    seq(|x|, i requires 0 <= i < |x| => x[i] && y[i])
  }

  /** m is the address under the mask 03.0f.3f.ff, bit by bit. */
  ghost predicate UnderMask(ip: Octets4, m: seq<Byte>) {
    |m| == 4 && Kept(ip[0], 3, m[0]) && Kept(ip[1], 15, m[1]) && Kept(ip[2], 63, m[2]) && Kept(ip[3], 255, m[3])
  }

  /** b is o & mask. */
  ghost predicate Kept(o: Byte, mask: Byte, b: Byte) {
    Bits(8, b) == AndSeq(Bits(8, o), Bits(8, mask))
  }

  lemma BitsPeel(n: nat, v: nat)
    ensures Bits(n + 1, v) == [v % 2 == 1] + Bits(n, v / 2)
  {}

  lemma {:induction false} LowBits(n: nat, k: nat, v: nat)
    ensures Bits(n + k, v % Pow2(n)) == Bits(n, v) + Zeros(k)
  {
    if n == 0 {
      NoBits(k);
    } else {
      hide Pow2, Bits;
      LowBits(n - 1, k, v / 2);
      HalfOfRemainder(n - 1, v);
      BitsPeel(n - 1, v);
      BitsPeel(n - 1 + k, v % Pow2(n));
    }
  }

  lemma {:induction false} BitsPrefix(n: nat, k: nat, v: nat)
    ensures Bits(n + k, v)[..n] == Bits(n, v)
  {
    if n == 0 {
      assert Bits(0, v) == [];
    } else {
      hide Bits;
      BitsPrefix(n - 1, k, v / 2);
      BitsPeel(n - 1, v);
      BitsPeel(n - 1 + k, v);
    }
  }

  lemma {:induction false} NoBits(k: nat)
    ensures Bits(k, 0) == Zeros(k)
  {
    if k == 0 {
    } else {
      NoBits(k - 1);
    }
  }

  lemma HalfOfRemainder(n: nat, v: nat)
    ensures (v % Pow2(n + 1)) / 2 == (v / 2) % Pow2(n) && (v % Pow2(n + 1)) % 2 == v % 2
  {
    var p, q, r := Pow2(n), v / 2 / Pow2(n), (v / 2) % Pow2(n);
    assert v / 2 == p * q + r;
    assert v == (2 * p) * q + (2 * r + v % 2);
    Remainder(v, 2 * p, q, 2 * r + v % 2);
  }

  lemma Remainder(v: nat, m: nat, q: nat, r: nat)
    requires v == m * q + r && r < m
    ensures v % m == r
  {
    var k := v / m;
    Distribute(m, q, k);
    Distribute(m, k, q);
    if q > k {
      AtLeast(m, q - k);
    } else if q < k {
      AtLeast(m, k - q);
    }
  }

  lemma Distribute(m: int, a: int, b: int)
    ensures m * (a - b) == m * a - m * b
  {}

  lemma {:induction false} AtLeast(m: nat, d: nat)
    requires d > 0
    ensures m * d >= m
  {
    if d == 1 {
    } else {
      AtLeast(m, d - 1);
      Distribute(m, d, 1);
    }
  }

  lemma {:induction false} OnesThenZeros(n: nat, k: nat)
    ensures Bits(n + k, Pow2(n) - 1) == seq(n, _ => true) + Zeros(k)
  {
    if n == 0 {
      NoBits(k);
    } else {
      OnesThenZeros(n - 1, k);
      assert seq(n, _ => true) + Zeros(k) == [true] + (seq(n - 1, _ => true) + Zeros(k));
    }
  }

  /** A mask of n ones keeps the remainder modulo 2^n. */
  lemma KeptIsRemainder(o: Byte, n: nat, b: Byte)
    requires n <= 8 && Pow2(n) <= 256
    ensures Kept(o, Pow2(n) - 1, b) <==> b == o % Pow2(n)
  {
    hide Bits, BitsValue, Pow2;
    LowBits(n, 8 - n, o);
    BitsPrefix(n, 8 - n, o);
    OnesThenZeros(n, 8 - n);
    MaskPowers();
    var r := o % Pow2(n);
    BitsRoundTrip(8, b, Bits(8, b));
    BitsRoundTrip(8, r, Bits(8, r));
    AndOnes(Bits(8, o), n);
  }

  lemma AndOnes(b: seq<bool>, n: nat)
    requires n <= |b|
    ensures AndSeq(b, seq(n, _ => true) + Zeros(|b| - n)) == b[..n] + Zeros(|b| - n)
  {}

  /** The masked octets are the address under the mask of BEP 42. */
  lemma MaskIsBitwise(ip: Octets4, m: seq<Byte>)
    ensures UnderMask(ip, m) <==> m == Masked(ip)
  {
    hide Kept;
    if |m| == 4 {
      KeptOctet(ip[0], m[0]);
      KeptOctet(ip[1], m[1]);
      KeptOctet(ip[2], m[2]);
      KeptOctet(ip[3], m[3]);
    }
  }

  lemma KeptOctet(o: Byte, b: Byte)
    ensures Kept(o, 3, b) <==> b == o % 4
    ensures Kept(o, 15, b) <==> b == o % 16
    ensures Kept(o, 63, b) <==> b == o % 64
    ensures Kept(o, 255, b) <==> b == o
  {
    MaskPowers();
    hide Kept, Pow2;
    KeptIsRemainder(o, 2, b);
    KeptIsRemainder(o, 4, b);
    KeptIsRemainder(o, 6, b);
    KeptIsRemainder(o, 8, b);
  }

  lemma MaskPowers()
    ensures Pow2(2) == 4 && Pow2(4) == 16 && Pow2(6) == 64 && Pow2(8) == 256
  {
    assert Pow2(3) == 8 && Pow2(5) == 32 && Pow2(7) == 128;
  }

  /** The octets agree modulo 4, 16, 64 and 256. */
  predicate AgreeUnderMask(ip: Octets4, other: Octets4) {
    ip[0] % 4 == other[0] % 4 && ip[1] % 16 == other[1] % 16 && ip[2] % 64 == other[2] % 64 && ip[3] == other[3]
  }

  // ---- which ids an address takes ----

  /** The check, bit by bit: the first two octets of the id are the top 16 bits of the CRC, and the five high bits of
      the third are the CRC's bits 18 to 14. */
  lemma AcceptedExactly(id: NodeId, ip: Octets4, m: seq<Byte>)
    requires UnderMask(ip, m)
    ensures AcceptedV4(id, ip) <==>
      Bits(8, id[0]) == Crc(m)[24..32] && Bits(8, id[1]) == Crc(m)[16..24] && Bits(8, id[2])[3..] == Crc(m)[14..19]
  {
    MaskIsBitwise(ip, m);
    var r := Crc(m);
    hide Crc, UnderMask;
    ByteOfBits(id[0], r[24..32]);
    ByteOfBits(id[1], r[16..24]);
    HighFiveIsBits(r);
    HighFiveOfByte(id[2]);
    BitsValueInjective(Bits(8, id[2])[3..], r[14..19]);
  }

  lemma HighFiveOfByte(b: Byte)
    ensures HighFive(b) == 8 * BitsValue(Bits(8, b)[3..])
  {
    hide BitsValue, Bits, Pow2;
    MaskPowers();
    var w := Bits(8, b);
    BitsRoundTrip(8, b, w);
    DropBit(w);
    DropBit(w[1..]);
    DropBit(w[2..]);
    assert w[1..][1..] == w[2..] && w[2..][1..] == w[3..];
  }

  /** An id accepted for one address is accepted for another exactly when the CRCs of the two under the mask agree on
      their top 18 bits; so surely when the octets agree modulo 4, 16, 64 and 256. */
  lemma AcceptanceSharing(id: NodeId, ip: Octets4, other: Octets4, m: seq<Byte>, n: seq<Byte>)
    requires AcceptedV4(id, ip) && UnderMask(ip, m) && UnderMask(other, n)
    ensures AcceptedV4(id, other) <==> Crc(m)[14..] == Crc(n)[14..]
    ensures AgreeUnderMask(ip, other) ==> AcceptedV4(id, other)
  {
    MaskIsBitwise(ip, m);
    MaskIsBitwise(other, n);
    hide UnderMask;
    var r, s := Crc(Masked(ip)), Crc(Masked(other));
    hide Crc, BitsValue, HighFive;
    BitsValueInjective(r[24..32], s[24..32]);
    BitsValueInjective(r[16..24], s[16..24]);
    BitsValueInjective(r[14..19], s[14..19]);
    HighFiveIsBits(r);
    HighFiveIsBits(s);
    TopBits(r, s);
  }

  /** Two addresses have the same CRC under the mask exactly when their octets agree modulo 4, 16, 64 and 256. */
  lemma MaskedAddressesDiffer(ip: Octets4, other: Octets4, m: seq<Byte>, n: seq<Byte>)
    requires UnderMask(ip, m) && UnderMask(other, n)
    ensures Crc(m) == Crc(n) <==> AgreeUnderMask(ip, other)
  {
    MaskIsBitwise(ip, m);
    MaskIsBitwise(other, n);
    CrcIsABijection(m, Ones());
    CrcIsABijection(n, Ones());
    hide Crc, UnderMask, CrcPreimage;
  }

  /** What BEP 42 asks: the first 21 bits of the id are the first 21 bits of the CRC. */
  predicate MeetsBep42(id: NodeId, ip: Octets4) {
    var r := Crc(Masked(ip));
    id[0] == ByteFrom(r, 24) && id[1] == ByteFrom(r, 16) && id[2] / 8 == BitsValue(r[11..16])
  }

  /** The check uses CRC bits 18..14 where BEP 42 uses bits 15..11. For a given address the
      two tests accept the same ids when those bits coincide, and no common id otherwise. */
  lemma CheckAgainstBep42(id: NodeId, ip: Octets4)
    ensures Crc(Masked(ip))[14..19] == Crc(Masked(ip))[11..16] ==> (AcceptedV4(id, ip) <==> MeetsBep42(id, ip))
    ensures Crc(Masked(ip))[14..19] != Crc(Masked(ip))[11..16] ==> !(AcceptedV4(id, ip) && MeetsBep42(id, ip))
  {
    var r := Crc(Masked(ip));
    HighFiveIsBits(r);
    BitsValueInjective(r[14..19], r[11..16]);
  }

  /** The check is the one BEP 42 asks for at exactly the addresses whose CRC repeats those five bits. */
  lemma CheckIsBep42Exactly(ip: Octets4)
    ensures (forall id: NodeId :: AcceptedV4(id, ip) <==> MeetsBep42(id, ip))
       <==> Crc(Masked(ip))[14..19] == Crc(Masked(ip))[11..16]
  {
    forall id: NodeId
      ensures Crc(Masked(ip))[14..19] == Crc(Masked(ip))[11..16] ==> (AcceptedV4(id, ip) <==> MeetsBep42(id, ip))
    {
      CheckAgainstBep42(id, ip);
    }
    var id := GeneratedId(ip, seq(20, _ => 0));
    CheckAgainstBep42(id, ip);
    assert AcceptedV4(id, ip);
  }
}
