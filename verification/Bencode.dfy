/** Bencoding (BEP 3, "bencoding"): a reference encoder and decoder. Dictionaries keep the order in
    which their pairs were written, because the messages modelled here are not always sorted. */
module Bencode {
  import opened Bytes

  datatype Item = Int(n: int) | Str(bytes: seq<Byte>) | List(items: seq<Item>) | Dict(entries: seq<Entry>)
  datatype Entry = Entry(key: seq<Byte>, item: Item)

  datatype Parsed<+T> = Fail | Done(value: T, rest: seq<Byte>)
  datatype Option<+T> = None | Some(value: T)

  // ---- decimal numbers ----

  predicate Digit(b: Byte) {
    48 <= b <= 57
  }

  function Decimal(n: nat): (ds: seq<Byte>)
    ensures |ds| > 0 && forall i :: 0 <= i < |ds| ==> Digit(ds[i])
  {
    if n < 10 then [48 + n] else Decimal(n / 10) + [48 + n % 10]
  }

  function SignedDecimal(n: int): seq<Byte> {
    if n < 0 then [45] + Decimal(-n) else Decimal(n)
  }

  function DigitValue(b: Byte): nat
    requires Digit(b)
  {
    b - 48
  }

  function Number(ds: seq<Byte>): nat
    requires forall i :: 0 <= i < |ds| ==> Digit(ds[i])
  {
    if ds == [] then 0
    else
      assert Digit(ds[|ds| - 1]);
      Number(ds[..|ds| - 1]) * 10 + DigitValue(ds[|ds| - 1])
  }

  /** How many digits s starts with. */
  function DigitRun(s: seq<Byte>): (n: nat)
    ensures n <= |s|
    ensures forall i :: 0 <= i < n ==> Digit(s[i])
  {
    if s == [] || !Digit(s[0]) then 0 else 1 + DigitRun(s[1..])
  }

  /** A number without leading zeros. */
  function ReadNumber(s: seq<Byte>): (r: Parsed<nat>)
    ensures r.Done? ==> |r.rest| < |s|
  {
    var n := DigitRun(s);
    if n == 0 || (n > 1 && s[0] == 48) then Fail else Done(Number(s[..n]), s[n..])
  }

  lemma {:induction false} DecimalRoundTrip(n: nat)
    ensures Number(Decimal(n)) == n
    ensures |Decimal(n)| > 1 ==> Decimal(n)[0] != 48
    ensures n > 0 ==> Decimal(n)[0] != 48
  {
    if n >= 10 {
      DecimalRoundTrip(n / 10);
      assert Decimal(n)[..|Decimal(n)| - 1] == Decimal(n / 10);
    }
  }

  lemma {:induction false} DigitRunStops(ds: seq<Byte>, rest: seq<Byte>)
    requires forall i :: 0 <= i < |ds| ==> Digit(ds[i])
    requires rest != [] && !Digit(rest[0])
    ensures DigitRun(ds + rest) == |ds|
  {
    if ds == [] {
      assert ds + rest == rest;
    } else {
      assert (ds + rest)[1..] == ds[1..] + rest;
      DigitRunStops(ds[1..], rest);
    }
  }

  lemma ReadNumberOfDecimal(n: nat, rest: seq<Byte>)
    requires rest != [] && !Digit(rest[0])
    ensures ReadNumber(Decimal(n) + rest) == Done(n, rest)
  {
    var ds := Decimal(n);
    DecimalRoundTrip(n);
    DigitRunStops(ds, rest);
    assert (ds + rest)[..|ds|] == ds && (ds + rest)[|ds|..] == rest;
  }

  // ---- encoding ----

  function EncodeStr(b: seq<Byte>): (r: seq<Byte>)
    ensures |r| > 0 && Digit(r[0])
  {
    Decimal(|b|) + [58] + b
  }

  function Encode(x: Item): (r: seq<Byte>)
    ensures r != []
    decreases x, 1
  {
    match x
    case Int(n) => [105] + SignedDecimal(n) + [101]
    case Str(b) => EncodeStr(b)
    case List(items) => [108] + EncodeAll(items) + [101]
    case Dict(entries) => [100] + EncodeEntries(entries) + [101]
  }

  function EncodeAll(items: seq<Item>): seq<Byte>
    decreases items, 0
  {
    if items == [] then [] else Encode(items[0]) + EncodeAll(items[1..])
  }

  function EncodeEntries(entries: seq<Entry>): seq<Byte>
    decreases entries, 0
  {
    if entries == [] then []
    else EncodeStr(entries[0].key) + Encode(entries[0].item) + EncodeEntries(entries[1..])
  }

  // ---- decoding ----

  function DecodeStr(s: seq<Byte>): (r: Parsed<seq<Byte>>)
    ensures r.Done? ==> |r.rest| < |s|
  {
    match ReadNumber(s)
    case Fail => Fail
    case Done(n, rest) =>
      if rest == [] || rest[0] != 58 || |rest| < 1 + n then Fail else Done(rest[1..1 + n], rest[1 + n..])
  }

  function DecodeInt(s: seq<Byte>): (r: Parsed<int>)
    ensures r.Done? ==> |r.rest| < |s|
  {
    if s != [] && s[0] == 45 then
      match ReadNumber(s[1..])
      case Fail => Fail
      case Done(n, rest) =>
        if rest == [] || rest[0] != 101 || n == 0 then Fail else Done(Minus(n), rest[1..])
    else
      match ReadNumber(s)
      case Fail => Fail
      case Done(n, rest) =>
        if rest == [] || rest[0] != 101 then Fail else Done(n, rest[1..])
  }

  function Minus(n: int): int {
    -n
  }

  function Decode(s: seq<Byte>): (r: Parsed<Item>)
    ensures r.Done? ==> |r.rest| < |s|
    decreases |s|, 0
  {
    if s == [] then Fail
    else if s[0] == 105 then
      match DecodeInt(s[1..])
      case Fail => Fail
      case Done(n, rest) => Done(Int(n), rest)
    else if s[0] == 108 then
      match DecodeAll(s[1..])
      case Fail => Fail
      case Done(items, rest) => Done(List(items), rest)
    else if s[0] == 100 then
      match DecodeEntries(s[1..])
      case Fail => Fail
      case Done(entries, rest) => Done(Dict(entries), rest)
    else
      match DecodeStr(s)
      case Fail => Fail
      case Done(b, rest) => Done(Str(b), rest)
  }

  function DecodeAll(s: seq<Byte>): (r: Parsed<seq<Item>>)
    ensures r.Done? ==> |r.rest| < |s|
    decreases |s|, 1
  {
    if s == [] then Fail
    else if s[0] == 101 then Done([], s[1..])
    else
      match Decode(s)
      case Fail => Fail
      case Done(x, rest) =>
        match DecodeAll(rest)
        case Fail => Fail
        case Done(xs, left) => Done([x] + xs, left)
  }

  function DecodeEntries(s: seq<Byte>): (r: Parsed<seq<Entry>>)
    ensures r.Done? ==> |r.rest| < |s|
    decreases |s|, 1
  {
    if s == [] then Fail
    else if s[0] == 101 then Done([], s[1..])
    else
      match DecodeStr(s)
      case Fail => Fail
      case Done(key, afterKey) =>
        match Decode(afterKey)
        case Fail => Fail
        case Done(x, rest) =>
          match DecodeEntries(rest)
          case Fail => Fail
          case Done(es, left) => Done([Entry(key, x)] + es, left)
  }

  // ---- the round trip ----

  lemma StrRoundTrip(b: seq<Byte>, rest: seq<Byte>)
    ensures DecodeStr(EncodeStr(b) + rest) == Done(b, rest)
  {
    var tail := [58] + b + rest;
    ReadNumberOfDecimal(|b|, tail);
    assert EncodeStr(b) + rest == Decimal(|b|) + tail;
    assert tail[1..1 + |b|] == b && tail[1 + |b|..] == rest;
  }

  lemma NaturalRoundTrip(n: nat, rest: seq<Byte>)
    ensures DecodeInt(Decimal(n) + ([101] + rest)) == Done(n, rest)
  {
    var s := Decimal(n) + ([101] + rest);
    ReadNumberOfDecimal(n, [101] + rest);
    assert Digit(s[0]);
  }

  lemma NegativeRoundTrip(n: nat, rest: seq<Byte>)
    requires n > 0
    ensures DecodeInt([45] + Decimal(n) + ([101] + rest)) == Done(Minus(n), rest)
  {
    var s := [45] + Decimal(n) + ([101] + rest);
    assert s[1..] == Decimal(n) + ([101] + rest);
    ReadNumberOfDecimal(n, [101] + rest);
    assert ReadNumber(s[1..]) == Done(n, [101] + rest);
  }

  lemma IntItemRoundTrip(n: int, rest: seq<Byte>)
    ensures Decode(Encode(Int(n)) + rest) == Done(Int(n), rest)
  {
    hide Decode, DecodeInt, Decimal;
    if n < 0 {
      NegativeRoundTrip(-n, rest);
    } else {
      NaturalRoundTrip(n, rest);
    }
    IntPrefix(n, SignedDecimal(n) + ([101] + rest), rest);
    RegroupIntItem(SignedDecimal(n), rest);
  }

  lemma RegroupIntItem(ds: seq<Byte>, rest: seq<Byte>)
    ensures [105] + ds + [101] + rest == [105] + (ds + ([101] + rest))
  {}

  lemma IntPrefix(n: int, s: seq<Byte>, rest: seq<Byte>)
    requires DecodeInt(s) == Done(n, rest)
    ensures Decode([105] + s) == Done(Int(n), rest)
  {
    assert ([105] + s)[1..] == s;
  }

  lemma StrItemRoundTrip(b: seq<Byte>, rest: seq<Byte>)
    ensures Decode(EncodeStr(b) + rest) == Done(Str(b), rest)
  {
    StrRoundTrip(b, rest);
  }

  lemma ListPrefix(mark: Byte, inner: seq<Byte>, rest: seq<Byte>)
    ensures ([mark] + inner + [101] + rest)[0] == mark
    ensures ([mark] + inner + [101] + rest)[1..] == inner + ([101] + rest)
  {}

  lemma ListItemRoundTrip(items: seq<Item>, rest: seq<Byte>)
    requires DecodeAll(EncodeAll(items) + ([101] + rest)) == Done(items, rest)
    ensures Decode(Encode(List(items)) + rest) == Done(List(items), rest)
  {
    hide DecodeAll, EncodeAll, DecodeStr, DecodeInt, DecodeEntries;
    ListPrefix(108, EncodeAll(items), rest);
  }

  lemma DictItemRoundTrip(entries: seq<Entry>, rest: seq<Byte>)
    requires DecodeEntries(EncodeEntries(entries) + ([101] + rest)) == Done(entries, rest)
    ensures Decode(Encode(Dict(entries)) + rest) == Done(Dict(entries), rest)
  {
    hide DecodeEntries, EncodeEntries, DecodeStr, DecodeInt, DecodeAll;
    ListPrefix(100, EncodeEntries(entries), rest);
  }

  /** Decoding undoes encoding, for every item and whatever follows it. */
  lemma {:induction false} RoundTrip(x: Item, rest: seq<Byte>)
    ensures Decode(Encode(x) + rest) == Done(x, rest)
    decreases x, 1
  {
    match x {
      case Int(n) =>
        IntItemRoundTrip(n, rest);
      case Str(b) =>
        StrItemRoundTrip(b, rest);
      case List(items) =>
        AllRoundTrip(items, rest);
        ListItemRoundTrip(items, rest);
      case Dict(entries) =>
        EntriesRoundTrip(entries, rest);
        DictItemRoundTrip(entries, rest);
    }
  }

  lemma FirstByte(x: Item)
    ensures Encode(x)[0] != 101
  {}

  lemma {:induction false} AllRoundTrip(items: seq<Item>, rest: seq<Byte>)
    ensures DecodeAll(EncodeAll(items) + ([101] + rest)) == Done(items, rest)
    decreases items, 0
  {
    hide Decode, Encode;
    if items == [] {
      assert [] + ([101] + rest) == [101] + rest;
    } else {
      var x, xs := items[0], items[1..];
      var more := EncodeAll(xs) + ([101] + rest);
      FirstByte(x);
      RoundTrip(x, more);
      AllRoundTrip(xs, rest);
      ConsItem(x, xs, more, rest);
      RegroupItem(Encode(x), EncodeAll(xs), [101] + rest);
      assert items == [x] + xs;
    }
  }

  lemma ConsItem(x: Item, xs: seq<Item>, more: seq<Byte>, rest: seq<Byte>)
    requires Decode(Encode(x) + more) == Done(x, more) && Encode(x)[0] != 101
    requires DecodeAll(more) == Done(xs, rest)
    ensures DecodeAll(Encode(x) + more) == Done([x] + xs, rest)
  {
    hide Decode, Encode;
  }

  lemma RegroupItem(a: seq<Byte>, b: seq<Byte>, c: seq<Byte>)
    ensures (a + b) + c == a + (b + c)
  {}

  lemma {:induction false} EntriesRoundTrip(entries: seq<Entry>, rest: seq<Byte>)
    ensures DecodeEntries(EncodeEntries(entries) + ([101] + rest)) == Done(entries, rest)
    decreases entries, 0
  {
    hide Decode, Encode, DecodeStr;
    if entries == [] {
      assert [] + ([101] + rest) == [101] + rest;
    } else {
      var e, es := entries[0], entries[1..];
      var more := EncodeEntries(es) + ([101] + rest);
      RoundTrip(e.item, more);
      EntriesRoundTrip(es, rest);
      ConsEntry(e, es, more, rest);
      RegroupEntry(EncodeStr(e.key), Encode(e.item), EncodeEntries(es), [101] + rest);
      assert entries == [e] + es;
    }
  }

  lemma RegroupEntry(a: seq<Byte>, b: seq<Byte>, c: seq<Byte>, d: seq<Byte>)
    ensures ((a + b) + c) + d == a + (b + (c + d))
  {}

  lemma ConsEntry(e: Entry, es: seq<Entry>, more: seq<Byte>, rest: seq<Byte>)
    requires Decode(Encode(e.item) + more) == Done(e.item, more)
    requires DecodeEntries(more) == Done(es, rest)
    ensures DecodeEntries(EncodeStr(e.key) + (Encode(e.item) + more)) == Done([e] + es, rest)
  {
    StrRoundTrip(e.key, Encode(e.item) + more);
  }

  // ---- the decoder accepts nothing but encodings ----

  lemma {:induction false} NumberPositive(ds: seq<Byte>)
    requires ds != [] && (forall i :: 0 <= i < |ds| ==> Digit(ds[i])) && ds[0] != 48
    ensures Number(ds) > 0
  {
    if |ds| > 1 {
      NumberPositive(ds[..|ds| - 1]);
    }
  }

  lemma {:induction false} DecimalOfNumber(ds: seq<Byte>)
    requires ds != [] && (forall i :: 0 <= i < |ds| ==> Digit(ds[i])) && (|ds| > 1 ==> ds[0] != 48)
    ensures Decimal(Number(ds)) == ds
  {
    var front := ds[..|ds| - 1];
    assert ds == front + [ds[|ds| - 1]];
    if front == [] {
      assert Number(front) == 0;
    } else {
      NumberPositive(front);
      DecimalOfNumber(front);
    }
  }

  lemma ReadNumberSound(s: seq<Byte>)
    ensures ReadNumber(s).Done? ==> s == Decimal(ReadNumber(s).value) + ReadNumber(s).rest
  {
    if ReadNumber(s).Done? {
      DecimalOfNumber(s[..DigitRun(s)]);
    }
  }

  lemma CutAt(s: seq<Byte>, n: nat)
    requires |s| >= 1 + n
    ensures s == [s[0]] + s[1..1 + n] + s[1 + n..]
  {}

  lemma RegroupStr(a: seq<Byte>, b: seq<Byte>, c: seq<Byte>)
    ensures a + ([58] + b + c) == a + [58] + b + c
  {}

  lemma DecodeStrSound(s: seq<Byte>)
    ensures DecodeStr(s).Done? ==> s == EncodeStr(DecodeStr(s).value) + DecodeStr(s).rest
  {
    hide ReadNumber, Decimal;
    ReadNumberSound(s);
    if DecodeStr(s).Done? {
      var n, rest := ReadNumber(s).value, ReadNumber(s).rest;
      CutAt(rest, n);
      RegroupStr(Decimal(n), rest[1..1 + n], rest[1 + n..]);
    }
  }

  lemma IntEnd(s: seq<Byte>)
    requires s != []
    ensures s == [s[0]] + s[1..]
  {}

  lemma RegroupInt(a: seq<Byte>, b: seq<Byte>, c: seq<Byte>)
    ensures a + (b + c) == a + b + c
  {}

  lemma DecodeIntSound(s: seq<Byte>)
    ensures DecodeInt(s).Done? ==> s == SignedDecimal(DecodeInt(s).value) + ([101] + DecodeInt(s).rest)
  {
    hide ReadNumber, Decimal;
    if DecodeInt(s).Done? {
      if s[0] == 45 {
        var t := s[1..];
        ReadNumberSound(t);
        assert s == [45] + t;
        IntEnd(ReadNumber(t).rest);
        RegroupInt([45], Decimal(ReadNumber(t).value), [101] + ReadNumber(t).rest[1..]);
      } else {
        ReadNumberSound(s);
        IntEnd(ReadNumber(s).rest);
      }
    }
  }

  /** Whatever the decoder accepts is the encoding of what it returns, followed by what it leaves:
      with RoundTrip, decoding and encoding are inverse in both directions. */
  lemma {:induction false} DecodeSound(s: seq<Byte>)
    ensures Decode(s).Done? ==> s == Encode(Decode(s).value) + Decode(s).rest
    decreases |s|, 0
  {
    hide DecodeInt, DecodeAll, DecodeEntries, DecodeStr, EncodeAll, EncodeEntries, EncodeStr, Decimal;
    if Decode(s).Done? {
      var tail := s[1..];
      assert s == [s[0]] + tail;
      var r := Decode(s);
      if s[0] == 105 {
        DecodeIntSound(tail);
        RegroupIntItem(SignedDecimal(r.value.n), r.rest);
      } else if s[0] == 108 {
        DecodeAllSound(tail);
        RegroupMarked(108, EncodeAll(r.value.items), r.rest);
      } else if s[0] == 100 {
        DecodeEntriesSound(tail);
        RegroupMarked(100, EncodeEntries(r.value.entries), r.rest);
      } else {
        DecodeStrSound(s);
      }
    }
  }

  lemma RegroupMarked(mark: Byte, inner: seq<Byte>, rest: seq<Byte>)
    ensures [mark] + inner + [101] + rest == [mark] + (inner + ([101] + rest))
  {}

  lemma {:induction false} DecodeAllSound(s: seq<Byte>)
    ensures DecodeAll(s).Done? ==> s == EncodeAll(DecodeAll(s).value) + ([101] + DecodeAll(s).rest)
    decreases |s|, 1
  {
    if DecodeAll(s).Done? && s[0] != 101 {
      var x, rest := Decode(s).value, Decode(s).rest;
      DecodeSound(s);
      DecodeAllSound(rest);
      var xs := DecodeAll(rest).value;
      assert ([x] + xs)[1..] == xs;
    }
  }

  lemma {:induction false} DecodeEntriesSound(s: seq<Byte>)
    ensures DecodeEntries(s).Done? ==> s == EncodeEntries(DecodeEntries(s).value) + ([101] + DecodeEntries(s).rest)
    decreases |s|, 1
  {
    if DecodeEntries(s).Done? && s[0] != 101 {
      var key, afterKey := DecodeStr(s).value, DecodeStr(s).rest;
      var x, rest := Decode(afterKey).value, Decode(afterKey).rest;
      DecodeStrSound(s);
      DecodeSound(afterKey);
      DecodeEntriesSound(rest);
      var es := DecodeEntries(rest).value;
      assert ([Entry(key, x)] + es)[1..] == es;
      RegroupEntry(EncodeStr(key), Encode(x), EncodeEntries(es), [101] + DecodeEntries(rest).rest);
    }
  }

  // ---- looking things up ----

  /** `from_bytes`: the item at the front of the data. */
  function FromBytes(data: seq<Byte>): Option<Item> {
    match Decode(data)
    case Fail => None
    case Done(x, _) => Some(x)
  }

  lemma FromBytesOfEncode(x: Item)
    ensures FromBytes(Encode(x)) == Some(x)
  {
    RoundTrip(x, []);
    assert Encode(x) + [] == Encode(x);
  }

  /** A dictionary read into a hash map: the last pair of a key counts. */
  function Lookup(entries: seq<Entry>, key: seq<Byte>): Option<Item> {
    if entries == [] then None
    else if entries[|entries| - 1].key == key then Some(entries[|entries| - 1].item)
    else Lookup(entries[..|entries| - 1], key)
  }

  function AsDict(x: Option<Item>): Option<seq<Entry>> {
    if x.Some? && x.value.Dict? then Some(x.value.entries) else None
  }

  function AsBytes(x: Option<Item>): Option<seq<Byte>> {
    if x.Some? && x.value.Str? then Some(x.value.bytes) else None
  }

  function AsInt(x: Option<Item>): Option<int> {
    if x.Some? && x.value.Int? then Some(x.value.n) else None
  }

  function AsList(x: Option<Item>): Option<seq<Item>> {
    if x.Some? && x.value.List? then Some(x.value.items) else None
  }
}
