/** The Bloom filter behind crawler deduplication. A 64-bit word is its 64 bits. */
module Bloom {
  import opened Bytes

  type Word64 = w: seq<bool> | |w| == 64 witness seq(64, _ => false)

  /** The two base hashes of an item, as an unknown function. */
  type HashPair<!T> = T -> (U64, U64)

  const TWO64: nat := 0x1_0000_0000_0000_0000

  /** The i-th probe: h1 plus i times h2 in wrapping 64-bit arithmetic, reduced to a bit index. */
  function Probe<T>(hash: HashPair<T>, numBits: nat, item: T, i: nat): (b: nat)
    requires numBits > 0
    ensures b < numBits
  {
    var (h1, h2) := hash(item);
    ((h1 + i * h2 % TWO64) % TWO64) % numBits
  }

  /** The probes are those of double hashing: h1 + i * h2 in 64 bits, modulo the number of bits. */
  lemma ProbeIsDoubleHash<T>(hash: HashPair<T>, numBits: nat, item: T, i: nat)
    requires numBits > 0
    ensures Probe(hash, numBits, item, i) == (hash(item).0 + i * hash(item).1) % TWO64 % numBits
  {
    var (h1, h2) := hash(item);
    ReduceOnce(h1, i * h2);
  }

  lemma ReduceOnce(a: nat, b: nat)
    ensures (a + b % TWO64) % TWO64 == (a + b) % TWO64
  {
    var q := b / TWO64;
    assert a + b == (a + b % TWO64) + TWO64 * q;
  }

  /** The bits an item sets and is looked up by. */
  function Probes<T>(hash: HashPair<T>, numBits: nat, numHashes: nat, item: T): (bs: set<nat>)
    requires numBits > 0
    ensures forall b :: b in bs ==> b < numBits
  {
    if numHashes == 0 then {}
    else Probes(hash, numBits, numHashes - 1, item) + {Probe(hash, numBits, item, numHashes - 1)}
  }

  ghost function BitsOn(words: seq<Word64>): set<nat> {
    set b: nat | b < 64 * |words| && words[b / 64][b % 64]
  }

  lemma SetBit(words: seq<Word64>, b: nat)
    requires b < 64 * |words|
    ensures BitsOn(words[b / 64 := words[b / 64][b % 64 := true]]) == BitsOn(words) + {b}
  {}

  function OrWord(a: Word64, b: Word64): Word64 {
    seq(64, i requires 0 <= i < 64 => a[i] || b[i])
  }

  class BloomFilter<T(!new)> {
    const hash: HashPair<T>
    const numBits: nat
    const numHashes: nat
    const bits: array<Word64>
    var count: nat

    ghost predicate Valid() {
      numBits > 0 && bits.Length == (numBits + 63) / 64
    }

    /** The set bits. */
    ghost function On(): set<nat>
      reads bits
    {
      BitsOn(bits[..])
    }

    constructor (hash: HashPair<T>, numBits: nat, numHashes: nat)
      requires numBits > 0
      ensures Valid() && fresh(bits) && On() == {} && count == 0
      ensures this.hash == hash && this.numBits == numBits && this.numHashes == numHashes
    {
      this.hash := hash;
      this.numBits := numBits;
      this.numHashes := numHashes;
      this.bits := new Word64[(numBits + 63) / 64](_ => seq(64, _ => false));
      this.count := 0;
    }

    method Insert(item: T)
      requires Valid()
      modifies this`count, bits
      ensures Valid()
      ensures On() == old(On()) + Probes(hash, numBits, numHashes, item)
      ensures count == old(count) + 1
    {
      for i := 0 to numHashes
        invariant count == old(count)
        invariant On() == old(On()) + Probes(hash, numBits, i, item)
      {
        SetOne(Probe(hash, numBits, item, i));
      }
      count := count + 1;
    }

    method SetOne(bitIdx: nat)
      requires Valid() && bitIdx < numBits
      modifies bits
      ensures On() == old(On()) + {bitIdx}
    {
      var wordIdx := bitIdx / 64;
      var bitOffset := bitIdx % 64;
      SetBit(bits[..], bitIdx);
      bits[wordIdx] := bits[wordIdx][bitOffset := true];
      assert bits[..] == old(bits[..])[wordIdx := old(bits[..])[wordIdx][bitOffset := true]];
    }

    method Contains(item: T) returns (found: bool)
      requires Valid()
      ensures found <==> Probes(hash, numBits, numHashes, item) <= On()
    {
      for i := 0 to numHashes
        invariant Probes(hash, numBits, i, item) <= On()
      {
        var bitIdx := Probe(hash, numBits, item, i);
        if !bits[bitIdx / 64][bitIdx % 64] {
          ProbeInProbes(hash, numBits, numHashes, item, i);
          return false;
        }
      }
      return true;
    }

    method InsertAndCheck(item: T) returns (isNew: bool)
      requires Valid()
      modifies this`count, bits
      ensures Valid()
      ensures isNew <==> !(Probes(hash, numBits, numHashes, item) <= old(On()))
      ensures On() == old(On()) + Probes(hash, numBits, numHashes, item)
      ensures count == old(count) + (if isNew then 1 else 0)
    {
      var found := Contains(item);
      if found {
        return false;
      }
      Insert(item);
      return true;
    }

    method Clear()
      requires Valid()
      modifies this`count, bits
      ensures Valid() && On() == {} && count == 0
    {
      for i := 0 to bits.Length
        invariant forall j :: 0 <= j < i ==> bits[j] == seq(64, _ => false)
      {
        bits[i] := seq(64, _ => false);
      }
      count := 0;
    }

    method Merge(other: BloomFilter<T>)
      requires Valid() && other.Valid() && other.bits != bits
      modifies this`count, bits
      ensures Valid()
      ensures numBits == other.numBits && numHashes == other.numHashes ==>
        On() == old(On()) + other.On() && count == old(count) + old(other.count)
      ensures numBits != other.numBits || numHashes != other.numHashes ==> On() == old(On()) && count == old(count)
    {
      if numBits != other.numBits || numHashes != other.numHashes {
        return;
      }
      for i := 0 to bits.Length
        invariant count == old(count)
        invariant forall j :: 0 <= j < i ==> bits[j] == OrWord(old(bits[j]), other.bits[j])
        invariant forall j :: i <= j < bits.Length ==> bits[j] == old(bits[j])
      {
        bits[i] := OrWord(bits[i], other.bits[i]);
      }
      OrIsUnion(old(bits[..]), other.bits[..], bits[..]);
      assert On() == old(On()) + other.On();
      count := count + other.count;
    }
  }

  lemma OrIsUnion(a: seq<Word64>, b: seq<Word64>, r: seq<Word64>)
    requires |a| == |b| == |r|
    requires forall j :: 0 <= j < |r| ==> r[j] == OrWord(a[j], b[j])
    ensures BitsOn(r) == BitsOn(a) + BitsOn(b)
  {}

  lemma {:induction false} ProbeInProbes<T>(hash: HashPair<T>, numBits: nat, n: nat, item: T, i: nat)
    requires numBits > 0 && i < n
    ensures Probe(hash, numBits, item, i) in Probes(hash, numBits, n, item)
  {
    if i < n - 1 {
      ProbeInProbes(hash, numBits, n - 1, item, i);
    }
  }

  // ---- histories ----

  /** How a filter came to be: operations on it, and filters of the same parameters merged in. */
  datatype History<T> = Empty | Inserted(h: History<T>, item: T)
    | Merged(h: History<T>, other: History<T>) | Cleared(h: History<T>)

  /** The bits after a history, operation by operation. */
  ghost function After<T>(hash: HashPair<T>, numBits: nat, numHashes: nat, h: History<T>): set<nat>
    requires numBits > 0
  {
    match h
    case Empty => {}
    case Inserted(g, x) => After(hash, numBits, numHashes, g) + Probes(hash, numBits, numHashes, x)
    case Merged(g, o) => After(hash, numBits, numHashes, g) + After(hash, numBits, numHashes, o)
    case Cleared(_) => {}
  }

  /** What was inserted since the last clear, directly or through a merge. */
  function Items<T>(h: History<T>): seq<T> {
    match h
    case Empty => []
    case Inserted(g, x) => Items(g) + [x]
    case Merged(g, o) => Items(g) + Items(o)
    case Cleared(_) => []
  }

  ghost function Covered<T(!new)>(hash: HashPair<T>, numBits: nat, numHashes: nat, items: seq<T>): set<nat>
    requires numBits > 0
  {
    set i, b | 0 <= i < |items| && b in Probes(hash, numBits, numHashes, items[i]) :: b
  }

  lemma CoveredConcat<T(!new)>(hash: HashPair<T>, numBits: nat, numHashes: nat, xs: seq<T>, ys: seq<T>)
    requires numBits > 0
    ensures Covered(hash, numBits, numHashes, xs + ys) ==
      Covered(hash, numBits, numHashes, xs) + Covered(hash, numBits, numHashes, ys)
  {
    var all := xs + ys;
    forall b | b in Covered(hash, numBits, numHashes, ys)
      ensures b in Covered(hash, numBits, numHashes, all)
    {
      var i :| 0 <= i < |ys| && b in Probes(hash, numBits, numHashes, ys[i]);
      assert all[|xs| + i] == ys[i];
    }
    forall b | b in Covered(hash, numBits, numHashes, xs)
      ensures b in Covered(hash, numBits, numHashes, all)
    {
      var i :| 0 <= i < |xs| && b in Probes(hash, numBits, numHashes, xs[i]);
      assert all[i] == xs[i];
    }
  }

  /** The bits are exactly the probes of the items since the last clear: so the order of operations
      does not matter, and a merge gives the bits of both item sequences. */
  lemma {:induction false} BitsAreProbesOfItems<T(!new)>(hash: HashPair<T>, numBits: nat, numHashes: nat, h: History<T>)
    requires numBits > 0
    ensures After(hash, numBits, numHashes, h) == Covered(hash, numBits, numHashes, Items(h))
  {
    match h {
      case Empty =>
      case Cleared(_) =>
      case Inserted(g, x) =>
        BitsAreProbesOfItems(hash, numBits, numHashes, g);
        CoveredConcat(hash, numBits, numHashes, Items(g), [x]);
        assert [x][0] == x;
      case Merged(g, o) =>
        BitsAreProbesOfItems(hash, numBits, numHashes, g);
        BitsAreProbesOfItems(hash, numBits, numHashes, o);
        CoveredConcat(hash, numBits, numHashes, Items(g), Items(o));
    }
  }

  /** No false negatives: whatever was inserted since the last clear is found. */
  lemma NoFalseNegatives<T(!new)>(hash: HashPair<T>, numBits: nat, numHashes: nat, h: History<T>, item: T)
    requires numBits > 0 && item in Items(h)
    ensures Probes(hash, numBits, numHashes, item) <= After(hash, numBits, numHashes, h)
  {}

  /** Histories with the same items have the same bits. */
  lemma OrderDoesNotMatter<T(!new)>(hash: HashPair<T>, numBits: nat, numHashes: nat, g: History<T>, h: History<T>)
    requires numBits > 0 && forall x :: x in Items(g) <==> x in Items(h)
    ensures After(hash, numBits, numHashes, g) == After(hash, numBits, numHashes, h)
  {
    BitsAreProbesOfItems(hash, numBits, numHashes, g);
    BitsAreProbesOfItems(hash, numBits, numHashes, h);
    SameItemsSubset(hash, numBits, numHashes, Items(g), Items(h));
    SameItemsSubset(hash, numBits, numHashes, Items(h), Items(g));
  }

  lemma SameItemsSubset<T(!new)>(hash: HashPair<T>, numBits: nat, numHashes: nat, xs: seq<T>, ys: seq<T>)
    requires numBits > 0 && forall x :: x in xs ==> x in ys
    ensures Covered(hash, numBits, numHashes, xs) <= Covered(hash, numBits, numHashes, ys)
  {
    forall b | b in Covered(hash, numBits, numHashes, xs)
      ensures b in Covered(hash, numBits, numHashes, ys)
    {
      var i :| 0 <= i < |xs| && b in Probes(hash, numBits, numHashes, xs[i]);
      assert xs[i] in ys;
      var j :| 0 <= j < |ys| && ys[j] == xs[i];
    }
  }

  // ---- deduplicating a stream ----

  /** Feed a stream through `insert_and_check`, starting from the bits `on`, and keep what it calls new. */
  ghost function Published<T(!new)>(hash: HashPair<T>, numBits: nat, numHashes: nat, on: set<nat>,
                             stream: seq<T>): seq<T>
    requires numBits > 0
    decreases |stream|
  {
    if stream == [] then []
    else
      var ps := Probes(hash, numBits, numHashes, stream[0]);
      (if ps <= on then [] else [stream[0]]) + Published(hash, numBits, numHashes, on + ps, stream[1..])
  }

  /** What is covered already is never published. */
  lemma {:induction false} CoveredNotPublished<T(!new)>(hash: HashPair<T>, numBits: nat, numHashes: nat, on: set<nat>,
                                                 stream: seq<T>, x: T)
    requires numBits > 0 && Probes(hash, numBits, numHashes, x) <= on
    ensures x !in Published(hash, numBits, numHashes, on, stream)
    decreases |stream|
  {
    if stream == [] {
    } else {
      CoveredNotPublished(hash, numBits, numHashes, on + Probes(hash, numBits, numHashes, stream[0]), stream[1..], x);
    }
  }

  /** Each item is published at most once, and only items of the stream are. */
  lemma {:induction false} PublishedAtMostOnce<T(!new)>(hash: HashPair<T>, numBits: nat, numHashes: nat, on: set<nat>,
                                                 stream: seq<T>, x: T)
    requires numBits > 0
    ensures multiset(Published(hash, numBits, numHashes, on, stream))[x] <= 1
    ensures x in Published(hash, numBits, numHashes, on, stream) ==> x in stream
    decreases |stream|
  {
    if stream == [] {
    } else {
      var ps := Probes(hash, numBits, numHashes, stream[0]);
      var rest := Published(hash, numBits, numHashes, on + ps, stream[1..]);
      PublishedAtMostOnce(hash, numBits, numHashes, on + ps, stream[1..], x);
      CoveredNotPublished(hash, numBits, numHashes, on + ps, stream[1..], stream[0]);
      assert multiset([stream[0]] + rest) == multiset{stream[0]} + multiset(rest);
      assert stream[0] !in multiset(rest);
    }
  }
}
