/** Where the id check parts from BEP 42: for at least one of any two neighbouring addresses, and at one
    address by its computed checksum. */
module Bep42Departure {
  import opened Bytes
  import opened Addresses
  import opened XorMetric
  import opened NodeIdSecurity

  /** The five checksum bits the check uses are those BEP 42 asks for. */
  predicate Agrees(r: Word) {
    r[14..19] == r[11..16]
  }

  // ---- neighbours ----

  lemma {:induction false} TopBitOf(n: nat, v: nat)
    requires v < Pow2(n)
    ensures Bits(n + 1, v) == Bits(n, v) + [false]
    ensures Bits(n + 1, v + Pow2(n)) == Bits(n, v) + [true]
  {
    if n == 0 {
      BitsStep(0, v);
      BitsStep(0, v + 1);
    } else {
      var p := Pow2(n - 1);
      assert Pow2(n) == 2 * p;
      hide Pow2, Bits;
      assert (v + 2 * p) / 2 == v / 2 + p && (v + 2 * p) % 2 == v % 2;
      TopBitOf(n - 1, v / 2);
      BitsStep(n, v);
      BitsStep(n, v + 2 * p);
      BitsStep(n - 1, v);
    }
  }

  lemma BitsStep(n: nat, v: nat)
    ensures Bits(n + 1, v) == [v % 2 == 1] + Bits(n, v / 2)
  {}

  /** Only bit 7. */
  function BitSeven(): Word {
    Zeros(7) + [true] + Zeros(24)
  }

  lemma OctetDifference(v: nat)
    requires v < 128
    ensures XorSeq(Bits(32, v), Bits(32, v + 128)) == BitSeven()
  {
    hide Pow2, Bits;
    SmallPowers();
    TopBitOf(7, v);
    BitsExtend(8, 24, v);
    BitsExtend(8, 24, v + 128);
    OneBitApart(Bits(7, v));
  }

  lemma SmallPowers()
    ensures Pow2(7) == 128 && Pow2(8) == 256
  {}

  lemma OneBitApart(b: seq<bool>)
    requires |b| == 7
    ensures XorSeq(b + [false] + Zeros(24), b + [true] + Zeros(24)) == BitSeven()
  {}

  /** A difference in the last top bit reaches the low end after seven shifts and becomes the polynomial. */
  lemma DifferenceBecomesPolynomial()
    ensures Steps(Polynomial(), 8, BitSeven()) == Polynomial()
  {
    hide Steps, Polynomial;
    var poly := Polynomial();
    StepsShift(poly, 7, BitSeven());
    StepsAdd(poly, 1, 7, BitSeven());
    OneStep(poly, BitSeven()[7..] + Zeros(7));
    assert (BitSeven()[7..] + Zeros(7))[1..] + [false] == Zeros(32);
    assert XorSeq(Zeros(32), poly) == poly;
  }

  lemma OneStep(poly: Word, c: Word)
    ensures Steps(poly, 1, c) == Step(poly, c)
  {
    assert Steps(poly, 0, c) == c;
  }

  /** The checksums of two neighbours differ by the polynomial. */
  lemma NeighboursDifferByPolynomial(ip: Octets4)
    requires ip[3] < 128
    ensures XorSeq(Crc(Masked(ip)), Crc(Masked(ip[3 := ip[3] + 128]))) == Polynomial()
  {
    var poly, a, b := Polynomial(), Masked(ip), Masked(ip[3 := ip[3] + 128]);
    hide Polynomial, Bits, Steps;
    assert a[..3] == b[..3];
    var f := Fold(poly, Ones(), a[..3]);
    var u, v := XorSeq(f, Bits(32, a[3])), XorSeq(f, Bits(32, b[3]));
    OctetDifference(ip[3]);
    assert XorSeq(u, v) == XorSeq(Bits(32, a[3]), Bits(32, b[3]));
    StepsLinear(poly, 8, u, v);
    DifferenceBecomesPolynomial();
    assert XorSeq(Not(Steps(poly, 8, u)), Not(Steps(poly, 8, v))) == XorSeq(Steps(poly, 8, u), Steps(poly, 8, v));
  }

  /** Of two addresses that differ in the top bit of the last octet, the check is not that of BEP 42 at
      one at least: so it departs at half of all addresses or more. */
  lemma OneOfNeighboursDeparts(ip: Octets4)
    requires ip[3] < 128
    ensures var other := ip[3 := ip[3] + 128];
      (exists id: NodeId :: AcceptedV4(id, ip) && !MeetsBep42(id, ip)) ||
      (exists id: NodeId :: AcceptedV4(id, other) && !MeetsBep42(id, other))
  {
    var other := ip[3 := ip[3] + 128];
    var r, s := Crc(Masked(ip)), Crc(Masked(other));
    NeighboursDifferByPolynomial(ip);
    hide Crc;
    assert Polynomial()[15] && !Polynomial()[18];
    AgreementCarriesOver(r, s);
    var id, id2 := GeneratedId(ip, seq(20, _ => 0)), GeneratedId(other, seq(20, _ => 0));
    CheckAgainstBep42(id, ip);
    CheckAgainstBep42(id2, other);
    assert AcceptedV4(id, ip) && AcceptedV4(id2, other);
  }

  lemma AgreementCarriesOver(r: Word, s: Word)
    ensures Agrees(r) && Agrees(s) ==> XorSeq(r, s)[18] == XorSeq(r, s)[15]
  {
    assert r[14..19][4] == r[18] && r[11..16][4] == r[15];
    assert s[14..19][4] == s[18] && s[11..16][4] == s[15];
  }

  // ---- 0.0.0.0 ----

  /** A hexadecimal digit, lowest bit first, and the register as eight of them, lowest first. */
  datatype Nib = Nib(b0: bool, b1: bool, b2: bool, b3: bool)
  datatype Reg = Reg(n0: Nib, n1: Nib, n2: Nib, n3: Nib, n4: Nib, n5: Nib, n6: Nib, n7: Nib)

  function X0(): Nib {
    Nib(false, false, false, false)
  }

  function X1(): Nib {
    Nib(true, false, false, false)
  }

  function X2(): Nib {
    Nib(false, true, false, false)
  }

  function X3(): Nib {
    Nib(true, true, false, false)
  }

  function X4(): Nib {
    Nib(false, false, true, false)
  }

  function X6(): Nib {
    Nib(false, true, true, false)
  }

  function X7(): Nib {
    Nib(true, true, true, false)
  }

  function X8(): Nib {
    Nib(false, false, false, true)
  }

  function XB(): Nib {
    Nib(true, true, false, true)
  }

  function XC(): Nib {
    Nib(false, false, true, true)
  }

  function XD(): Nib {
    Nib(true, false, true, true)
  }

  function XE(): Nib {
    Nib(false, true, true, true)
  }

  function XF(): Nib {
    Nib(true, true, true, true)
  }

  function XorNib(a: Nib, b: Nib): Nib {
    Nib(a.b0 != b.b0, a.b1 != b.b1, a.b2 != b.b2, a.b3 != b.b3)
  }

  function XorReg(a: Reg, b: Reg): Reg {
    Reg(XorNib(a.n0, b.n0), XorNib(a.n1, b.n1), XorNib(a.n2, b.n2), XorNib(a.n3, b.n3),
        XorNib(a.n4, b.n4), XorNib(a.n5, b.n5), XorNib(a.n6, b.n6), XorNib(a.n7, b.n7))
  }

  /** A digit shifted down, with the low bit of the next one on top. */
  function ShiftNib(a: Nib, next: Nib): Nib {
    Nib(a.b1, a.b2, a.b3, next.b0)
  }

  function ShiftReg(c: Reg): Reg {
    Reg(ShiftNib(c.n0, c.n1), ShiftNib(c.n1, c.n2), ShiftNib(c.n2, c.n3), ShiftNib(c.n3, c.n4),
        ShiftNib(c.n4, c.n5), ShiftNib(c.n5, c.n6), ShiftNib(c.n6, c.n7), ShiftNib(c.n7, X0()))
  }

  function PolyReg(): Reg {
    Reg(X0(), X2(), X3(), X8(), X8(), XB(), XD(), XE())
  }

  function RegStep(c: Reg): Reg {
    if c.n0.b0 then XorReg(ShiftReg(c), PolyReg()) else ShiftReg(c)
  }

  function EightSteps(c: Reg): Reg {
    RegStep(RegStep(RegStep(RegStep(RegStep(RegStep(RegStep(RegStep(c))))))))
  }

  function NibBits(n: Nib): (b: seq<bool>)
    ensures |b| == 4
  {
    [n.b0, n.b1, n.b2, n.b3]
  }

  function WordOf(c: Reg): Word {
    NibBits(c.n0) + (NibBits(c.n1) + (NibBits(c.n2) + (NibBits(c.n3) +
    (NibBits(c.n4) + (NibBits(c.n5) + (NibBits(c.n6) + NibBits(c.n7)))))))
  }

  // The registers met on the way, named by their value.

  function RegFfffffff(): Reg {
    Reg(XF(), XF(), XF(), XF(), XF(), XF(), XF(), XF())
  }

  function Reg2dfd1072(): Reg {
    Reg(X2(), X7(), X0(), X1(), XD(), XF(), XD(), X2())
  }

  function RegBe26ed00(): Reg {
    Reg(X0(), X0(), XD(), XE(), X6(), X2(), XE(), XB())
  }

  function Reg00be26ed(): Reg {
    Reg(XD(), XE(), X6(), X2(), XE(), XB(), X0(), X0())
  }

  function RegDebb20e3(): Reg {
    Reg(X3(), XE(), X0(), X2(), XB(), XB(), XE(), XD())
  }

  function Reg2144df1c(): Reg {
    Reg(XC(), X1(), XF(), XD(), X4(), X4(), X1(), X2())
  }

  lemma FirstOctet()
    ensures EightSteps(RegFfffffff()) == Reg2dfd1072()
  {}

  lemma SecondOctet()
    ensures EightSteps(Reg2dfd1072()) == RegBe26ed00()
  {}

  lemma ThirdOctet()
    ensures EightSteps(RegBe26ed00()) == Reg00be26ed()
  {}

  lemma FourthOctet()
    ensures EightSteps(Reg00be26ed()) == RegDebb20e3()
  {}

  lemma XorConcat(a: seq<bool>, b: seq<bool>, c: seq<bool>, d: seq<bool>)
    requires |a| == |b| && |c| == |d|
    ensures XorSeq(a + c, b + d) == XorSeq(a, b) + XorSeq(c, d)
  {}

  lemma XorOfNibs(a: Nib, b: Nib)
    ensures XorSeq(NibBits(a), NibBits(b)) == NibBits(XorNib(a, b))
  {}

  lemma XorOfRegs(a: Reg, b: Reg)
    ensures XorSeq(WordOf(a), WordOf(b)) == WordOf(XorReg(a, b))
  {
    XorOfNibs(a.n0, b.n0);
    XorOfNibs(a.n1, b.n1);
    XorOfNibs(a.n2, b.n2);
    XorOfNibs(a.n3, b.n3);
    XorOfNibs(a.n4, b.n4);
    XorOfNibs(a.n5, b.n5);
    XorOfNibs(a.n6, b.n6);
    XorOfNibs(a.n7, b.n7);
    hide NibBits, XorNib;
  }

  lemma ShiftDigit(a: Nib, next: Nib, rest: seq<bool>)
    requires rest != [] && rest[0] == next.b0
    ensures (NibBits(a) + rest)[1..] + [false] == NibBits(ShiftNib(a, next)) + (rest[1..] + [false])
    ensures (NibBits(a) + rest)[0] == a.b0
  {}

  lemma ShiftOfReg(c: Reg)
    ensures ShiftRight(WordOf(c)) == WordOf(ShiftReg(c))
    ensures WordOf(c)[0] == c.n0.b0
  {
    var t7 := NibBits(c.n7);
    var t6 := NibBits(c.n6) + t7;
    var t5 := NibBits(c.n5) + t6;
    var t4 := NibBits(c.n4) + t5;
    var t3 := NibBits(c.n3) + t4;
    var t2 := NibBits(c.n2) + t3;
    var t1 := NibBits(c.n1) + t2;
    assert t7[0] == c.n7.b0 && t7[1..] + [false] == NibBits(ShiftNib(c.n7, X0()));
    hide NibBits, ShiftNib;
    ShiftDigit(c.n6, c.n7, t7);
    ShiftDigit(c.n5, c.n6, t6);
    ShiftDigit(c.n4, c.n5, t5);
    ShiftDigit(c.n3, c.n4, t4);
    ShiftDigit(c.n2, c.n3, t3);
    ShiftDigit(c.n1, c.n2, t2);
    ShiftDigit(c.n0, c.n1, t1);
  }

  lemma PolynomialIsReg()
    ensures Polynomial() == WordOf(PolyReg())
  {}

  lemma RegStepIsStep(c: Reg)
    ensures Step(Polynomial(), WordOf(c)) == WordOf(RegStep(c))
  {
    ShiftOfReg(c);
    PolynomialIsReg();
    XorOfRegs(ShiftReg(c), PolyReg());
    hide XorSeq, ShiftRight, ShiftReg, XorReg, PolyReg, Polynomial, WordOf;
  }

  lemma RegStepsAreSteps(c: Reg)
    ensures Steps(Polynomial(), 8, WordOf(c)) == WordOf(EightSteps(c))
  {
    hide Step, RegStep, WordOf, Polynomial;
    var c1 := RegStep(c);
    var c2 := RegStep(c1);
    var c3 := RegStep(c2);
    var c4 := RegStep(c3);
    var c5 := RegStep(c4);
    var c6 := RegStep(c5);
    var c7 := RegStep(c6);
    RegStepIsStep(c);
    RegStepIsStep(c1);
    RegStepIsStep(c2);
    RegStepIsStep(c3);
    RegStepIsStep(c4);
    RegStepIsStep(c5);
    RegStepIsStep(c6);
    RegStepIsStep(c7);
    var w, poly := WordOf(c), Polynomial();
    assert Steps(poly, 0, w) == w;
    assert Steps(poly, 1, w) == WordOf(c1);
    assert Steps(poly, 2, w) == WordOf(c2);
    assert Steps(poly, 3, w) == WordOf(c3);
    assert Steps(poly, 4, w) == WordOf(c4);
    assert Steps(poly, 5, w) == WordOf(c5);
    assert Steps(poly, 6, w) == WordOf(c6);
    assert Steps(poly, 7, w) == WordOf(c7);
  }

  lemma ZeroOctet(c: Word)
    ensures XorSeq(c, Bits(32, 0)) == c
  {
    BitsExtend(0, 32, 0);
    assert Bits(32, 0) == Zeros(32);
  }

  /** crc32 of 0.0.0.0 is 0x2144df1c. */
  lemma CrcOfZeroAddress()
    ensures Crc(Masked([0, 0, 0, 0])) == WordOf(Reg2144df1c())
  {
    hide Steps, Bits, Polynomial, WordOf, EightSteps;
    var d: seq<Byte> := [0, 0, 0, 0];
    var poly := Polynomial();
    var c1, c2, c3, c4 := ByOctets();
    assert d[..3] == [0, 0, 0] && d[..3][..2] == [0, 0] && d[..3][..2][..1] == [0] && d[..3][..2][..1][..0] == [];
    ZeroOctet(Ones());
    ZeroOctet(WordOf(c1));
    ZeroOctet(WordOf(c2));
    ZeroOctet(WordOf(c3));
    assert Fold(poly, Ones(), []) == Ones();
    assert Fold(poly, Ones(), [0]) == WordOf(c1);
    assert Fold(poly, Ones(), [0, 0]) == WordOf(c2);
    assert Fold(poly, Ones(), [0, 0, 0]) == WordOf(c3);
    assert Fold(poly, Ones(), d) == WordOf(c4);
    NotOfRegister();
  }

  lemma ByOctets() returns (c1: Reg, c2: Reg, c3: Reg, c4: Reg)
    ensures Steps(Polynomial(), 8, Ones()) == WordOf(c1)
    ensures Steps(Polynomial(), 8, WordOf(c1)) == WordOf(c2)
    ensures Steps(Polynomial(), 8, WordOf(c2)) == WordOf(c3)
    ensures Steps(Polynomial(), 8, WordOf(c3)) == WordOf(c4)
    ensures c4 == RegDebb20e3()
  {
    var ones := RegFfffffff();
    assert Ones() == WordOf(ones);
    hide Steps, EightSteps, WordOf, Polynomial;
    c1, c2, c3, c4 := Reg2dfd1072(), RegBe26ed00(), Reg00be26ed(), RegDebb20e3();
    FirstOctet();
    SecondOctet();
    ThirdOctet();
    FourthOctet();
    RegStepsAreSteps(ones);
    RegStepsAreSteps(c1);
    RegStepsAreSteps(c2);
    RegStepsAreSteps(c3);
  }

  lemma NotOfRegister()
    ensures Not(WordOf(RegDebb20e3())) == WordOf(Reg2144df1c())
  {}

  /** At 0.0.0.0 bits 18..14 and 15..11 differ: the id generated for it, whatever the fill, passes the check and
      breaks the rule of BEP 42. */
  lemma GeneratedIdBreaksBep42(fill: NodeId)
    ensures AcceptedV4(GeneratedId([0, 0, 0, 0], fill), [0, 0, 0, 0])
    ensures !MeetsBep42(GeneratedId([0, 0, 0, 0], fill), [0, 0, 0, 0])
  {
    CrcOfZeroAddress();
    var r := WordOf(Reg2144df1c());
    assert !r[14..19][3] && r[11..16][3];
    hide Crc, WordOf, AcceptedV4, MeetsBep42;
    CheckAgainstBep42(GeneratedId([0, 0, 0, 0], fill), [0, 0, 0, 0]);
  }

  /** Which ids 0.0.0.0 takes: those that begin with 0x21, 0x44 and, in the five high bits of the third octet, 0x13. */
  lemma AcceptedAtZero(id: NodeId)
    ensures AcceptedV4(id, [0, 0, 0, 0]) <==> id[0] == 0x21 && id[1] == 0x44 && id[2] / 8 == 0x13
  {
    CrcOfZeroAddress();
    TopOfZeroAddress();
    var m := Masked([0, 0, 0, 0]);
    MaskIsBitwise([0, 0, 0, 0], m);
    AcceptedExactly(id, [0, 0, 0, 0], m);
    var r := Crc(m);
    hide Crc, WordOf, AcceptedV4, BitsValue, Bits, HighFive;
    ByteOfBits(id[0], r[24..32]);
    ByteOfBits(id[1], r[16..24]);
    BitsValueInjective(Bits(8, id[2])[3..], r[14..19]);
    ThirdOctetHigh(id[2]);
  }

  lemma ThirdOctetHigh(b: Byte)
    ensures BitsValue(Bits(8, b)[3..]) == b / 8
  {
    HighFiveOfByte(b);
    hide Bits, BitsValue;
  }

  lemma TopOfZeroAddress()
    ensures var r := WordOf(Reg2144df1c());
      BitsValue(r[24..32]) == 0x21 && BitsValue(r[16..24]) == 0x44 && BitsValue(r[14..19]) == 0x13
  {
    var r := WordOf(Reg2144df1c());
    assert r[24..32] == [true, false, false] + [false, false, true, false, false];
    assert r[16..24] == [false, false, true] + [false, false, false, true, false];
    assert r[14..19] == [true, true, false, false, true];
    hide WordOf;
    FiveBitsValue(false, false, true, false, false);
    ThreeMoreBits(true, false, false, [false, false, true, false, false]);
    FiveBitsValue(false, false, false, true, false);
    ThreeMoreBits(false, false, true, [false, false, false, true, false]);
    FiveBitsValue(true, true, false, false, true);
  }

  function One(b: bool): nat {
    if b then 1 else 0
  }

  lemma BitsValueCons(b: bool, rest: seq<bool>)
    ensures BitsValue([b] + rest) == One(b) + 2 * BitsValue(rest)
  {}

  lemma FiveBitsValue(a: bool, b: bool, c: bool, d: bool, e: bool)
    ensures BitsValue([a, b, c, d, e]) == One(a) + 2 * One(b) + 4 * One(c) + 8 * One(d) + 16 * One(e)
  {
    assert BitsValue([]) == 0;
    hide BitsValue;
    BitsValueCons(e, []);
    BitsValueCons(d, [e]);
    BitsValueCons(c, [d, e]);
    BitsValueCons(b, [c, d, e]);
    BitsValueCons(a, [b, c, d, e]);
    assert [a] + [b, c, d, e] == [a, b, c, d, e] && [b] + [c, d, e] == [b, c, d, e];
    assert [c] + [d, e] == [c, d, e] && [d] + [e] == [d, e] && [e] + [] == [e];
  }

  lemma ThreeMoreBits(a: bool, b: bool, c: bool, rest: seq<bool>)
    ensures BitsValue([a, b, c] + rest) == One(a) + 2 * One(b) + 4 * One(c) + 8 * BitsValue(rest)
  {
    hide BitsValue, One;
    BitsValueCons(c, rest);
    BitsValueCons(b, [c] + rest);
    BitsValueCons(a, [b] + ([c] + rest));
    assert [a] + ([b] + ([c] + rest)) == [a, b, c] + rest;
  }

  // ---- 1.0.0.4 and 2.0.0.4 ----

  function X5(): Nib {
    Nib(true, false, true, false)
  }

  function X9(): Nib {
    Nib(true, false, false, true)
  }

  function XA(): Nib {
    Nib(false, true, false, true)
  }

  function Reg00000003(): Reg {
    Reg(X3(), X0(), X0(), X0(), X0(), X0(), X0(), X0())
  }

  function Reg990951ba(): Reg {
    Reg(XA(), XB(), X1(), X5(), X9(), X0(), X9(), X9())
  }

  function Reg2b2d53c3(): Reg {
    Reg(X3(), XC(), X3(), X5(), XD(), X2(), XB(), X2())
  }

  function Reg0246be59(): Reg {
    Reg(X9(), X5(), XE(), XB(), X6(), X4(), X2(), X0())
  }

  function Reg12b5afee(): Reg {
    Reg(XE(), XE(), XF(), XA(), X5(), XB(), X2(), X1())
  }

  lemma DifferenceSteps()
    ensures EightSteps(Reg00000003()) == Reg990951ba() && EightSteps(Reg990951ba()) == Reg2b2d53c3()
    ensures EightSteps(Reg2b2d53c3()) == Reg0246be59() && EightSteps(Reg0246be59()) == Reg12b5afee()
  {}

  lemma SmallXors()
    ensures XorByte(1, 2) == 3 && XorByte(0, 0) == 0 && XorByte(4, 4) == 0
  {
    assert Pow2(8) == 256 && Pow2(0) == 1;
    assert XorBits(5, 0, 0) == 0 by {
      assert XorBits(3, 0, 0) == 0;
    }
    assert XorBits(6, 0, 0) == 0 && XorBits(7, 0, 0) == 0 && XorBits(8, 0, 0) == 0;
    assert XorBits(7, 0, 1) == 1 && XorBits(8, 1, 2) == 3;
    assert XorBits(6, 1, 1) == 0 && XorBits(7, 2, 2) == 0 && XorBits(8, 4, 4) == 0;
  }

  lemma ThreeInBits()
    ensures Bits(32, 3) == WordOf(Reg00000003())
  {
    hide Bits, WordOf, Zeros;
    SmallPower();
    BitsExtend(2, 30, 3);
    TwoOnes();
    LowOnes();
  }

  lemma SmallPower()
    ensures Pow2(2) == 4
  {}

  lemma TwoOnes()
    ensures Bits(2, 3) == [true, true]
  {
    assert Bits(1, 1) == [true];
  }

  lemma LowOnes()
    ensures [true, true] + Zeros(30) == WordOf(Reg00000003())
  {}

  /** The CRCs of 1.0.0.4 and 2.0.0.4 differ by 0x12b5afee, by which they differ in the first octet of the id. */
  lemma NamedCrcsDiffer()
    ensures XorSeq(Crc([1, 0, 0, 4]), Crc([2, 0, 0, 4])) == WordOf(Reg12b5afee())
  {
    SmallXors();
    var a, b, d: seq<Byte> := [1, 0, 0, 4], [2, 0, 0, 4], [3, 0, 0, 0];
    assert Xor(a, b) == d;
    hide Polynomial, Xor, Bits, Steps, WordOf, Fold;
    var poly := Polynomial();
    FoldLinear(poly, Ones(), Ones(), a, b);
    assert XorSeq(Ones(), Ones()) == Zeros(32);
    DifferenceFolds();
    var u, v := Fold(poly, Ones(), a), Fold(poly, Ones(), b);
    assert XorSeq(Not(u), Not(v)) == XorSeq(u, v);
  }

  lemma DifferenceFolds()
    ensures Fold(Polynomial(), Zeros(32), [3, 0, 0, 0]) == WordOf(Reg12b5afee())
  {
    var poly := Polynomial();
    var d: seq<Byte> := [3, 0, 0, 0];
    hide Polynomial, Bits, Steps, WordOf, EightSteps;
    assert d[..3] == [3, 0, 0] && d[..3][..2] == [3, 0] && d[..3][..2][..1] == [3] && d[..3][..2][..1][..0] == [];
    ThreeInBits();
    DifferenceSteps();
    var c0, c1, c2, c3 := Reg00000003(), Reg990951ba(), Reg2b2d53c3(), Reg0246be59();
    assert XorSeq(Zeros(32), WordOf(c0)) == WordOf(c0);
    RegStepsAreSteps(c0);
    RegStepsAreSteps(c1);
    RegStepsAreSteps(c2);
    RegStepsAreSteps(c3);
    ZeroOctet(WordOf(c1));
    ZeroOctet(WordOf(c2));
    ZeroOctet(WordOf(c3));
    assert Fold(poly, Zeros(32), []) == Zeros(32);
    assert Fold(poly, Zeros(32), [3]) == WordOf(c1);
    assert Fold(poly, Zeros(32), [3, 0]) == WordOf(c2);
    assert Fold(poly, Zeros(32), [3, 0, 0]) == WordOf(c3);
  }

  /** The ids generated for 1.0.0.4 and 2.0.0.4 begin with different octets, whatever the fills, and each address
      refuses the other's. */
  lemma GeneratedIdsDiffer(ip: Octets4, other: Octets4, fill: NodeId, fill2: NodeId)
    requires ip == [1, 0, 0, 4] && other == [2, 0, 0, 4]
    ensures GeneratedId(ip, fill)[0] != GeneratedId(other, fill2)[0]
    ensures !AcceptedV4(GeneratedId(ip, fill), other) && !AcceptedV4(GeneratedId(other, fill2), ip)
  {
    var a, b := GeneratedId(ip, fill), GeneratedId(other, fill2);
    assert Masked(ip) == ip && Masked(other) == other;
    hide Crc, WordOf, BitsValue, AcceptedV4, GeneratedId;
    NamedCrcsDiffer();
    BitApart(Crc(ip), Crc(other));
    FirstOctetIs(a, ip, ip);
    FirstOctetIs(b, other, other);
    FirstOctetIs(a, other, other);
    FirstOctetIs(b, ip, ip);
  }

  lemma FirstOctetIs(id: NodeId, ip: Octets4, m: seq<Byte>)
    requires m == Masked(ip)
    ensures AcceptedV4(id, ip) ==> id[0] == BitsValue(Crc(m)[24..32])
  {}

  lemma BitApart(r: Word, s: Word)
    requires XorSeq(r, s) == WordOf(Reg12b5afee())
    ensures BitsValue(r[24..32]) != BitsValue(s[24..32])
  {
    assert WordOf(Reg12b5afee())[28];
    hide WordOf, BitsValue;
    assert r[28] != s[28] && r[24..32][4] == r[28] && s[24..32][4] == s[28];
    BitsValueInjective(r[24..32], s[24..32]);
  }
}
