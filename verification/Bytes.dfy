/** Bytes, big-endian integers and the text literals of the wire formats. */
module Bytes {

  type Byte = b: int | 0 <= b < 256
  type Port = p: int | 0 <= p < 0x1_0000
  type U32 = n: int | 0 <= n < 0x1_0000_0000
  type U64 = n: int | 0 <= n < 0x1_0000_0000_0000_0000

  /** The byte string of an ASCII literal. */
  function Text(s: string): (r: seq<Byte>)
    ensures |r| == |s|
  {
    seq(|s|, i requires 0 <= i < |s| => s[i] as int % 256)
  }

  function SaturatingSub(a: nat, b: nat): nat {
    if a < b then 0 else a - b
  }

  function Pow2(n: nat): (p: nat)
    ensures p > 0
  {
    if n == 0 then 1 else 2 * Pow2(n - 1)
  }

  lemma {:induction false} Pow2Adds(m: nat, n: nat)
    ensures Pow2(m + n) == Pow2(m) * Pow2(n)
  {
    if n == 0 {
    } else {
      Pow2Adds(m, n - 1);
      assert Pow2(m + n) == 2 * Pow2(m + n - 1);
    }
  }

  lemma {:induction false} Pow2Grows(m: nat, n: nat)
    requires m <= n
    ensures Pow2(m) <= Pow2(n)
  {
    if m < n {
      Pow2Grows(m, n - 1);
    }
  }

  /** The big-endian number a byte string spells. */
  function Value(s: seq<Byte>): (v: nat)
  {
    if s == [] then 0 else Value(s[..|s| - 1]) * 256 + s[|s| - 1]
  }

  lemma {:induction false} ValueOfConcat(s: seq<Byte>, t: seq<Byte>)
    ensures Value(s + t) == Value(s) * Pow2(8 * |t|) + Value(t)
  {
    if t == [] {
      assert s + t == s;
    } else {
      var u := t[..|t| - 1];
      assert (s + t)[..|s + t| - 1] == s + u;
      ValueOfConcat(s, u);
      Pow2OfByte(|u|);
      Scale(Value(s), Pow2(8 * |u|));
    }
  }

  lemma Pow2OfByte(n: nat)
    ensures Pow2(8 * (n + 1)) == 256 * Pow2(8 * n)
  {
    Pow2Adds(8 * n, 8);
    assert Pow2(8) == 256;
  }

  lemma Scale(v: nat, p: nat)
    ensures v * (256 * p) == 256 * (v * p)
  {}

  lemma {:induction false} ValueBounded(s: seq<Byte>)
    ensures Value(s) < Pow2(8 * |s|)
  {
    if s == [] {
    } else {
      var u := s[..|s| - 1];
      ValueBounded(u);
      Pow2Adds(8 * |u|, 8);
      assert Pow2(8) == 256;
      assert 8 * |s| == 8 * |u| + 8;
    }
  }

  lemma {:induction false} ValueInjective(s: seq<Byte>, t: seq<Byte>)
    requires |s| == |t|
    requires Value(s) == Value(t)
    ensures s == t
  {
    if s == [] {
    } else {
      var u, v := s[..|s| - 1], t[..|t| - 1];
      assert s == u + [s[|s| - 1]] && t == v + [t[|t| - 1]];
      ValueInjective(u, v);
    }
  }

  /** The n-byte big-endian spelling of v, as to_be_bytes produces it. */
  function BigEndian(n: nat, v: nat): (s: seq<Byte>)
    ensures |s| == n
  {
    if n == 0 then [] else BigEndian(n - 1, v / 256) + [v % 256]
  }

  /** from_be_bytes undoes to_be_bytes. */
  lemma {:induction false} BigEndianRoundTrip(n: nat, v: nat)
    requires v < Pow2(8 * n)
    ensures Value(BigEndian(n, v)) == v
  {
    if n == 0 {
    } else {
      Pow2Adds(8 * (n - 1), 8);
      assert Pow2(8) == 256;
      assert 8 * n == 8 * (n - 1) + 8;
      BigEndianRoundTrip(n - 1, v / 256);
      var s := BigEndian(n, v);
      assert s[..|s| - 1] == BigEndian(n - 1, v / 256);
    }
  }

}
