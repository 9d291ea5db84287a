/** Peer exchange: the BitTorrent handshake, extended messages (BEP 10) and ut_pex messages (BEP 11). */
module Pex {
  import opened Bytes
  import opened Addresses
  import opened XorMetric
  import opened CompactInfo
  import opened Bencode
  import opened Krpc
  import I = NodeIdSecurity

  // ---- the handshake ----

  datatype BtHandshake = BtHandshake(infohash: NodeId, peerId: NodeId, reserved: seq<Byte>)
  {
    /** Bit 4 of reserved byte 5. */
    predicate SupportsExtension() {
      |reserved| > 5 && reserved[5] / 16 % 2 == 1
    }
  }

  function Protocol(): seq<Byte> {
    Text("BitTorrent protocol")
  }

  function HandshakeBytes(h: BtHandshake): seq<Byte> {
    [19] + (Protocol() + (h.reserved + (h.infohash + h.peerId)))
  }

  method BuildHandshake(infohash: NodeId, peerId: NodeId) returns (buf: seq<Byte>)
    ensures buf == HandshakeBytes(BtHandshake(infohash, peerId, seq(8, _ => 0)))
  {
    var reserved: seq<Byte> := seq(8, _ => 0);
    buf := [19];
    buf := buf + Protocol();
    buf := buf + reserved;
    buf := buf + infohash;
    buf := buf + peerId;
    Regroup5Left([19], Protocol(), reserved, infohash, peerId);
  }

  lemma Regroup5Left(a: seq<Byte>, b: seq<Byte>, c: seq<Byte>, d: seq<Byte>, e: seq<Byte>)
    ensures a + b + c + d + e == a + (b + (c + (d + e)))
  {}

  function ParseHandshake(data: seq<Byte>): Option<BtHandshake> {
    if |data| < 68 || data[0] != 19 || data[1..20] != Protocol() then None
    else Some(BtHandshake(data[28..48], data[48..68], data[20..28]))
  }

  /** Parsing undoes writing, whatever follows the handshake in the stream. */
  lemma HandshakeRoundTrip(h: BtHandshake, rest: seq<Byte>)
    requires |h.reserved| == 8
    ensures ParseHandshake(HandshakeBytes(h) + rest) == Some(h)
  {
    var p := Protocol();
    var data := HandshakeBytes(h) + rest;
    Parts([19], p, h.reserved, h.infohash, h.peerId, rest);
    assert [19] + (p + (h.reserved + (h.infohash + h.peerId))) + rest == data;
  }

  /** Where everything stands in the 68 bytes: the protocol's name after its length, eight reserved bytes, the infohash,
      the peer id. */
  lemma HandshakeLayout(h: BtHandshake)
    requires |h.reserved| == 8
    ensures var b := HandshakeBytes(h);
      |b| == 68 && b[0] == 19 && b[1..20] == Text("BitTorrent protocol") && b[20..28] == h.reserved &&
      b[28..48] == h.infohash && b[48..68] == h.peerId
  {
    HandshakeRoundTrip(h, []);
    assert |Protocol()| == 19;
    Parts([19], Protocol(), h.reserved, h.infohash, h.peerId, []);
    assert HandshakeBytes(h) + [] == HandshakeBytes(h);
    hide Protocol;
  }

  lemma Parts(a: seq<Byte>, b: seq<Byte>, c: seq<Byte>, d: seq<Byte>, e: seq<Byte>, rest: seq<Byte>)
    requires |a| == 1 && |b| == 19 && |c| == 8 && |d| == 20 && |e| == 20
    ensures var s := a + (b + (c + (d + e))) + rest;
      |s| >= 68 && s[0] == a[0] && s[1..20] == b && s[20..28] == c && s[28..48] == d && s[48..68] == e
  {}

  /** Whatever is accepted begins with the handshake it is read as. */
  lemma ParsedHandshakeIsThere(data: seq<Byte>)
    ensures ParseHandshake(data).Some? ==> data[..68] == HandshakeBytes(ParseHandshake(data).value)
  {}

  /** A handshake announces the extension protocol by the bit 0x10 of its byte 25, the sixth of the reserved ones. */
  lemma ExtensionBit(data: seq<Byte>)
    requires ParseHandshake(data).Some?
    ensures ParseHandshake(data).value.SupportsExtension() <==> I.Bits(8, data[25])[4]
  {
    BitFour(data[25]);
    hide I.Bits;
  }

  lemma BitFour(b: Byte)
    ensures I.Bits(8, b)[4] <==> b / 16 % 2 == 1
  {
    var half: nat := b / 2;
    var quarter := half / 2;
    var eighth := quarter / 2;
    var sixteenth := eighth / 2;
    NextBit(8, b, 3);
    NextBit(7, half, 2);
    NextBit(6, quarter, 1);
    NextBit(5, eighth, 0);
    FirstBit(4, sixteenth);
    hide I.Bits;
  }

  lemma FirstBit(n: nat, v: nat)
    requires n > 0
    ensures I.Bits(n, v)[0] <==> v % 2 == 1
  {}

  lemma NextBit(n: nat, v: nat, i: nat)
    requires i + 1 < n
    ensures I.Bits(n, v)[i + 1] == I.Bits(n - 1, v / 2)[i]
  {}

  /** The handshake built here does not announce the extension protocol that its peers are then asked to speak. */
  lemma OwnHandshakeLacksExtension(infohash: NodeId, peerId: NodeId)
    ensures var h := BtHandshake(infohash, peerId, seq(8, _ => 0));
      ParseHandshake(HandshakeBytes(h)) == Some(h) && !h.SupportsExtension()
  {
    var h := BtHandshake(infohash, peerId, seq(8, _ => 0));
    HandshakeRoundTrip(h, []);
    assert HandshakeBytes(h) + [] == HandshakeBytes(h);
  }

  // ---- extended messages ----

  /** The length field is a 32-bit number. */
  method BuildExtended(extensionId: Byte, payload: seq<Byte>) returns (buf: seq<Byte>)
    ensures buf == BigEndian(4, (2 + |payload|) % 0x1_0000_0000) + ([20, extensionId] + payload)
  {
    buf := BigEndian(4, (2 + |payload|) % 0x1_0000_0000);
    buf := buf + [20];
    buf := buf + [extensionId];
    buf := buf + payload;
    assert [20, extensionId] == [20] + [extensionId];
    Regroup4Left(BigEndian(4, (2 + |payload|) % 0x1_0000_0000), [20], [extensionId], payload);
  }

  lemma Regroup4Left(a: seq<Byte>, b: seq<Byte>, c: seq<Byte>, d: seq<Byte>)
    ensures a + b + c + d == a + ((b + c) + d)
  {}

  datatype StreamMessage = Incomplete | Message(kind: Byte, payload: seq<Byte>, rest: seq<Byte>)

  /** `read_message` on the bytes that have arrived: a keep-alive reads as type 255. */
  function ReadMessage(stream: seq<Byte>): StreamMessage {
    if |stream| < 4 then Incomplete
    else
      var length := Value(stream[..4]);
      if length == 0 then Message(255, [], stream[4..])
      else if |stream| < 4 + length then Incomplete
      else Message(stream[4], stream[5..4 + length], stream[4 + length..])
  }

  lemma ExtendedRoundTrip(extensionId: Byte, payload: seq<Byte>, rest: seq<Byte>)
    requires 2 + |payload| < 0x1_0000_0000
    ensures ReadMessage(BigEndian(4, 2 + |payload|) + ([20, extensionId] + payload) + rest)
         == Message(20, [extensionId] + payload, rest)
  {
    var n := 2 + |payload|;
    FourByteLength(n);
    var head := BigEndian(4, n);
    var body := [20, extensionId] + payload;
    hide BigEndian, Value;
    CutFrame(head, body, rest);
    AfterKind(extensionId, payload);
  }

  /** As long as a message has not arrived whole, nothing is read of it; a frame of length 0 is a keep-alive. */
  lemma PartialFrameWaits(extensionId: Byte, payload: seq<Byte>, n: nat)
    requires 2 + |payload| < 0x1_0000_0000 && n < 6 + |payload|
    ensures ReadMessage((BigEndian(4, 2 + |payload|) + ([20, extensionId] + payload))[..n]) == Incomplete
  {
    FourByteLength(2 + |payload|);
    PartOfFrame(BigEndian(4, 2 + |payload|), [20, extensionId] + payload, n);
  }

  lemma PartOfFrame(head: seq<Byte>, body: seq<Byte>, n: nat)
    requires |head| == 4 && Value(head) == |body| > 0 && n < 4 + |body|
    ensures ReadMessage((head + body)[..n]) == Incomplete
  {
    hide Value;
    assert n >= 4 ==> (head + body)[..n][..4] == head;
  }

  lemma KeepAliveIsRead(rest: seq<Byte>)
    ensures ReadMessage([0, 0, 0, 0] + rest) == Message(255, [], rest)
  {
    var s := [0, 0, 0, 0] + rest;
    assert s[..4] == [0, 0, 0, 0];
    assert [0, 0, 0, 0][..3] == [0, 0, 0] && [0, 0, 0][..2] == [0, 0] && [0, 0][..1] == [0] && [0][..0] == [];
    assert Value([0]) == 0 && Value([0, 0]) == 0 && Value([0, 0, 0]) == 0;
  }

  lemma AfterKind(extensionId: Byte, payload: seq<Byte>)
    ensures var body := [20, extensionId] + payload;
      |body| == 2 + |payload| && body[0] == 20 && body[1..] == [extensionId] + payload
  {}

  lemma CutFrame(head: seq<Byte>, body: seq<Byte>, rest: seq<Byte>)
    requires |head| == 4 && body != []
    ensures var s := head + body + rest;
      s[..4] == head && s[4] == body[0] && s[5..4 + |body|] == body[1..] && s[4 + |body|..] == rest
  {}

  lemma FourByteLength(n: nat)
    requires n < 0x1_0000_0000
    ensures Value(BigEndian(4, n)) == n
  {
    Pow2OfByte(3);
    Pow2OfByte(2);
    Pow2OfByte(1);
    assert Pow2(8) == 256;
    BigEndianRoundTrip(4, n);
  }

  // ---- ut_pex ----

  function Zeros(n: nat): (z: seq<Byte>)
    ensures |z| == n
  {
    seq(n, _ => 0)
  }

  function PexEntries(added: seq<SocketAddr>, dropped: seq<SocketAddr>): seq<Entry> {
    [StrField("added", PackPeers(added)), StrField("added.f", Zeros(|added|)),
     StrField("dropped", PackPeers(dropped)), StrField("dropped.f", Zeros(|dropped|))]
  }

  method BuildUtPex(added: seq<SocketAddr>, dropped: seq<SocketAddr>) returns (buf: seq<Byte>)
    ensures buf == Encode(Dict(PexEntries(added, dropped)))
  {
    var addedCompact := EncodeCompactPeers(added);
    var droppedCompact := EncodeCompactPeers(dropped);
    buf := Text("d5:added");
    buf := buf + Head(|addedCompact|);
    buf := buf + addedCompact;
    var addedFlags := Zeros(|added|);
    buf := buf + Text("7:added.f");
    buf := buf + Head(|addedFlags|);
    buf := buf + addedFlags;
    ghost var half := buf;
    buf := buf + Text("7:dropped");
    buf := buf + Head(|droppedCompact|);
    buf := buf + droppedCompact;
    var droppedFlags := Zeros(|dropped|);
    buf := buf + Text("9:dropped.f");
    buf := buf + Head(|droppedFlags|);
    buf := buf + droppedFlags;
    buf := buf + [101];
    hide Text, Head, PackPeers, Zeros;
    RegroupHalf(Text("d5:added"), Head(|addedCompact|), addedCompact, Text("7:added.f"), Head(|addedFlags|),
      addedFlags);
    RegroupHalf(half + Text("7:dropped"), Head(|droppedCompact|), droppedCompact, Text("9:dropped.f"),
      Head(|droppedFlags|), droppedFlags);
    PexLayout(added, dropped, half);
  }

  lemma RegroupHalf(a: seq<Byte>, b: seq<Byte>, c: seq<Byte>, d: seq<Byte>, e: seq<Byte>, f: seq<Byte>)
    ensures a + b + c + d + e + f == a + (b + c) + (d + (e + f))
  {}

  lemma PexKeys()
    ensures Text("d5:added") == [100] + EncodeStr(Text("added")) && Text("7:added.f") == EncodeStr(Text("added.f"))
    ensures Text("7:dropped") == EncodeStr(Text("dropped")) && Text("9:dropped.f") == EncodeStr(Text("dropped.f"))
  {
    ShortHeads();
    assert Text("d") == [100];
    hide Text, Head, EncodeStr;
    Counted("5:", "added", "5:added");
    Joined("d", "5:added", "d5:added");
    Counted("7:", "added.f", "7:added.f");
    Counted("7:", "dropped", "7:dropped");
    Counted("9:", "dropped.f", "9:dropped.f");
  }

  lemma PexLayout(added: seq<SocketAddr>, dropped: seq<SocketAddr>, half: seq<Byte>)
    requires half == Text("d5:added") + (Head(|PackPeers(added)|) + PackPeers(added)) +
      (Text("7:added.f") + (Head(|added|) + Zeros(|added|)))
    ensures half + Text("7:dropped") + (Head(|PackPeers(dropped)|) + PackPeers(dropped)) +
      (Text("9:dropped.f") + (Head(|dropped|) + Zeros(|dropped|))) + [101] == Encode(Dict(PexEntries(added, dropped)))
  {
    hide Text, Head, PackPeers, Zeros, EncodeStr;
    var es := PexEntries(added, dropped);
    PexKeys();
    StrPair("added", PackPeers(added));
    StrPair("added.f", Zeros(|added|));
    StrPair("dropped", PackPeers(dropped));
    StrPair("dropped.f", Zeros(|dropped|));
    FourEntries(es[0], es[1], es[2], es[3]);
    RegroupPex([100], EncodeStr(Text("added")), Head(|PackPeers(added)|) + PackPeers(added), Pair(es[1]),
               EncodeStr(Text("dropped")), Head(|PackPeers(dropped)|) + PackPeers(dropped), Pair(es[3]));
  }

  lemma RegroupPex(d: seq<Byte>, k: seq<Byte>, v: seq<Byte>, p1: seq<Byte>, k2: seq<Byte>, v2: seq<Byte>, p3: seq<Byte>)
    ensures ((d + k) + v + p1) + k2 + v2 + p3 + [101] == d + ((k + v) + (p1 + ((k2 + v2) + p3))) + [101]
  {}

  datatype UtPexMessage = UtPexMessage(added: seq<SocketAddr>, addedFlags: seq<Byte>, dropped: seq<SocketAddr>,
    droppedFlags: seq<Byte>)

  function PeersOf(b: Option<seq<Byte>>): seq<SocketAddr> {
    if b.Some? then UnpackPeers(b.value) else []
  }

  function ParseUtPex(data: seq<Byte>): Option<UtPexMessage> {
    var dict := AsDict(FromBytes(data));
    if dict.None? then None
    else Some(UtPexMessage(
      PeersOf(AsBytes(Lookup(dict.value, Text("added")))), OrEmpty(AsBytes(Lookup(dict.value, Text("added.f")))),
      PeersOf(AsBytes(Lookup(dict.value, Text("dropped")))), OrEmpty(AsBytes(Lookup(dict.value, Text("dropped.f"))))))
  }

  lemma PexLookups(added: seq<SocketAddr>, dropped: seq<SocketAddr>)
    ensures var es := PexEntries(added, dropped);
      Lookup(es, Text("added")) == Some(Str(PackPeers(added))) &&
        Lookup(es, Text("added.f")) == Some(Str(Zeros(|added|))) &&
      Lookup(es, Text("dropped")) == Some(Str(PackPeers(dropped))) &&
        Lookup(es, Text("dropped.f")) == Some(Str(Zeros(|dropped|)))
  {
    var es := PexEntries(added, dropped);
    assert |Text("added")| == 5 && |Text("added.f")| == |Text("dropped")| == 7 && |Text("dropped.f")| == 9;
    assert Text("added.f")[0] == 97 && Text("dropped")[0] == 100;
    hide Text, Lookup;
    LookupFinds(es, 0);
    LookupFinds(es, 1);
    LookupFinds(es, 2);
    LookupFinds(es, 3);
  }

  /** What comes back of a ut_pex message: the IPv4 peers with a nonzero port, and one zero flag for every
      peer that went in. */
  lemma {:induction false} UtPexRoundTrip(added: seq<SocketAddr>, dropped: seq<SocketAddr>)
    ensures ParseUtPex(Encode(Dict(PexEntries(added, dropped)))) ==
      Some(UtPexMessage(Reachable(added), Zeros(|added|), Reachable(dropped), Zeros(|dropped|)))
  {
    hide Text, Lookup, PackPeers, Reachable, UnpackPeers, FromBytes;
    FromBytesOfEncode(Dict(PexEntries(added, dropped)));
    PexLookups(added, dropped);
    PeersRoundTrip(added);
    PeersRoundTrip(dropped);
  }

  /** So parsing undoes building exactly on IPv4 peers with a nonzero port; any other peer goes missing
      and leaves more flags than peers. */
  lemma UtPexLossless(added: seq<SocketAddr>, dropped: seq<SocketAddr>)
    ensures var m := ParseUtPex(Encode(Dict(PexEntries(added, dropped))));
      m.Some? && (m.value.added == added && m.value.dropped == dropped <==>
        forall p :: p in added || p in dropped ==> IsV4(p) && p.port != 0)
    ensures var m := ParseUtPex(Encode(Dict(PexEntries(added, dropped))));
      m.Some? && |m.value.added| <= |m.value.addedFlags| &&
        (|m.value.added| == |m.value.addedFlags| <==> m.value.added == added)
  {
    hide ParseUtPex, Reachable, IsV4;
    UtPexRoundTrip(added, dropped);
    ReachableIsAll(added);
    ReachableIsAll(dropped);
    ReachableSize(added);
  }

  lemma {:induction false} ReachableSize(ps: seq<SocketAddr>)
    ensures |Reachable(ps)| <= |ps| && (|Reachable(ps)| == |ps| <==> Reachable(ps) == ps)
  {
    if ps == [] {
    } else {
      ReachableSize(ps[1..]);
      assert ps == [ps[0]] + ps[1..];
    }
  }

  // ---- the extension handshake request ----

  /** What is sent decodes to nothing. */
  method BuildExtensionHandshake(peerId: NodeId, port: Port) returns (buf: seq<Byte>)
    ensures buf == ExtensionHandshakeBytes(peerId, port) && FromBytes(buf) == None
  {
    buf := Text("d1:md11:ut_pex");
    buf := buf + Text("1");
    buf := buf + Text("e");
    buf := buf + Text("1:pi20:");
    buf := buf + peerId;
    buf := buf + Text("4:porti");
    buf := buf + Decimal(port);
    buf := buf + Text("e1:v21:PeerDiscoveryCenter/0.2e");
    Joined("d1:md11:ut_pex", "1", "d1:md11:ut_pex1");
    Joined("d1:md11:ut_pex1", "e", "d1:md11:ut_pex1e");
    Joined("d1:md11:ut_pex1e", "1:pi20:", "d1:md11:ut_pex1e1:pi20:");
    ExtensionHandshakeNeverDecodes(peerId, port);
  }

  function ExtensionHandshakeBytes(peerId: NodeId, port: Port): seq<Byte> {
    Text("d1:md11:ut_pex1e1:pi20:") + peerId + Text("4:porti") + Decimal(port) + Text("e1:v21:PeerDiscoveryCenter/0.2e")
  }

  /** The request announces an 11-byte name where the name has six, so it never decodes, for any peer id
      and port. */
  lemma ExtensionHandshakeNeverDecodes(peerId: NodeId, port: Port)
    ensures FromBytes(ExtensionHandshakeBytes(peerId, port)) == None
  {
    var tail := peerId + Text("4:porti") + Decimal(port) + Text("e1:v21:PeerDiscoveryCenter/0.2e");
    var head := Text("d1:md11:ut_pex1e1:pi20:");
    assert ExtensionHandshakeBytes(peerId, port) == head + tail;
    BadHead(tail);
  }

  /** Reading the first bytes: a dictionary, its key `m`, a dictionary, an 11-byte key, and an integer
      that does not end in `e`. */
  lemma BadHead(tail: seq<Byte>)
    ensures Decode(Text("d1:md11:ut_pex1e1:pi20:") + tail) == Fail
  {
    var name := Text("ut_pex1e1:p");
    var inner := [105] + (Text("20") + ([58] + tail));
    BadInteger(tail);
    BadEntry(name, inner);
    BadEntry(Text("m"), [100] + (EncodeStr(name) + inner));
    HeadParts();
    hide Decode, EncodeStr, Text;
    RegroupBad([100], EncodeStr(Text("m")), [100], EncodeStr(name), [105], Text("20"), [58], tail);
  }

  /** A dictionary whose first value does not decode does not decode. */
  lemma BadEntry(key: seq<Byte>, value: seq<Byte>)
    requires Decode(value) == Fail
    ensures Decode([100] + (EncodeStr(key) + value)) == Fail
  {
    var entry := EncodeStr(key) + value;
    var dict := [100] + entry;
    assert dict[1..] == entry && dict[0] == 100;
    StrRoundTrip(key, value);
    FirstDigit(key, value);
    hide EncodeStr, DecodeStr, DecodeInt, DecodeAll;
  }

  lemma FirstDigit(b: seq<Byte>, rest: seq<Byte>)
    ensures (EncodeStr(b) + rest)[0] != 101 && EncodeStr(b) + rest != []
  {}

  lemma RegroupBad(a: seq<Byte>, b: seq<Byte>, c: seq<Byte>, d: seq<Byte>, e: seq<Byte>, f: seq<Byte>, g: seq<Byte>,
                   tail: seq<Byte>)
    ensures (a + b + c + d + e + f + g) + tail == a + (b + (c + (d + (e + (f + (g + tail))))))
  {}

  lemma HeadParts()
    ensures Text("d1:md11:ut_pex1e1:pi20:") ==
      [100] + EncodeStr(Text("m")) + [100] + EncodeStr(Text("ut_pex1e1:p")) + [105] + Text("20") + [58]
  {
    HeadLiterals();
    hide Text, EncodeStr;
    Joined("d", "1:m", "d1:m");
    Joined("d1:m", "d", "d1:md");
    Joined("d1:md", "11:ut_pex1e1:p", "d1:md11:ut_pex1e1:p");
    Joined("d1:md11:ut_pex1e1:p", "i", "d1:md11:ut_pex1e1:pi");
    Joined("d1:md11:ut_pex1e1:pi", "20", "d1:md11:ut_pex1e1:pi20");
    Joined("d1:md11:ut_pex1e1:pi20", ":", "d1:md11:ut_pex1e1:pi20:");
  }

  lemma HeadLiterals()
    ensures Text("d") == [100] && Text("i") == [105] && Text(":") == [58]
    ensures Text("1:m") == EncodeStr(Text("m")) && Text("11:ut_pex1e1:p") == EncodeStr(Text("ut_pex1e1:p"))
  {
    assert Text("1:") == Head(1) && Text("11:") == Head(11);
    hide Head, EncodeStr;
    Counted("1:", "m", "1:m");
    Counted("11:", "ut_pex1e1:p", "11:ut_pex1e1:p");
  }

  lemma BadInteger(tail: seq<Byte>)
    ensures Decode([105] + (Text("20") + ([58] + tail))) == Fail
  {
    var s := Text("20") + ([58] + tail);
    assert Decimal(20) == Text("20");
    ReadNumberOfDecimal(20, [58] + tail);
    assert ([105] + s)[1..] == s;
    assert s[0] == 50;
  }
}
