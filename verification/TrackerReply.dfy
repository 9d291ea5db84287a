/** The bencoded reply of the HTTP tracker (BEP 3, with the compact, IPv6 and external-address extensions). */
module TrackerReply {
  import opened Bytes
  import opened Addresses
  import opened CompactInfo
  import opened Bencode
  import opened Krpc

  /** Texts are UTF-8 bytes. */
  datatype TrackerAnnounceResponse = TrackerAnnounceResponse(
    interval: int, minInterval: Option<int>, trackerId: Option<seq<Byte>>, complete: int, incomplete: int,
    peers: seq<SocketAddr>, externalIp: Option<IpAddr>, failureReason: Option<seq<Byte>>,
      warningMessage: Option<seq<Byte>>)

  function IntField(key: string, n: int): Entry {
    Entry(Text(key), Int(n))
  }

  function OptInt(key: string, n: Option<int>): seq<Entry> {
    if n.Some? then [IntField(key, n.value)] else []
  }

  function OptStr(key: string, b: Option<seq<Byte>>): seq<Entry> {
    if b.Some? then [StrField(key, b.value)] else []
  }

  function PeerRows6(ps: seq<SocketAddr>): seq<Byte> {
    if ps == [] then [] else (if IsV4(ps[0]) then [] else PackV6(ps[0])) + PeerRows6(ps[1..])
  }

  function Peers6(ps: seq<SocketAddr>): seq<Entry> {
    if PeerRows6(ps) == [] then [] else [StrField("peers6", PeerRows6(ps))]
  }

  function IpBytes(ip: IpAddr): seq<Byte> {
    match ip
    case IpV4(o) => o
    case IpV6(o) => o
  }

  function ExternalIp(ip: Option<IpAddr>): Option<seq<Byte>> {
    if ip.Some? then Some(IpBytes(ip.value)) else None
  }

  /** The fields before and after the peers, in the order they are written. */
  function FrontFields(r: TrackerAnnounceResponse): seq<Entry> {
    [IntField("interval", r.interval)] + OptInt("min interval", r.minInterval) + OptStr("tracker id", r.trackerId) +
    [IntField("complete", r.complete)] + [IntField("incomplete", r.incomplete)] +
      OptStr("warning message", r.warningMessage)
  }

  function BackFields(r: TrackerAnnounceResponse): seq<Entry> {
    Peers6(r.peers) + OptStr("external ip", ExternalIp(r.externalIp))
  }

  /** The dictionary a reply stands for: a failure reason alone, or the statistics and peers. */
  function Fields(r: TrackerAnnounceResponse): seq<Entry> {
    if r.failureReason.Some? then [StrField("failure reason", r.failureReason.value)]
    else FrontFields(r) + [StrField("peers", PackPeers(r.peers))] + BackFields(r)
  }

  // ---- writing ----

  lemma Snoc(es: seq<Entry>, e: Entry)
    ensures EncodeEntries(es + [e]) == EncodeEntries(es) + Pair(e)
  {
    EntriesConcat(es, [e]);
    OneEntry(e);
  }

  lemma TwoDigitHeads()
    ensures Text("10:") == Head(10) && Text("11:") == Head(11) && Text("12:") == Head(12)
    ensures Text("14:") == Head(14) && Text("15:") == Head(15) && Text("16:") == Head(16)
  {}

  lemma CountLiterals()
    ensures Text("8:interval") == EncodeStr(Text("interval")) && Text("8:complete") == EncodeStr(Text("complete"))
    ensures Text("12:min interval") == EncodeStr(Text("min interval"))
    ensures Text("10:incomplete") == EncodeStr(Text("incomplete"))
  {
    ShortHeads();
    TwoDigitHeads();
    hide Text, Head, EncodeStr;
    Counted("8:", "interval", "8:interval");
    Counted("12:", "min interval", "12:min interval");
    Counted("8:", "complete", "8:complete");
    Counted("10:", "incomplete", "10:incomplete");
  }

  lemma MessageLiterals()
    ensures Text("10:tracker id") == EncodeStr(Text("tracker id"))
    ensures Text("15:warning message") == EncodeStr(Text("warning message"))
  {
    TwoDigitHeads();
    hide Text, Head, EncodeStr;
    Counted("10:", "tracker id", "10:tracker id");
    Counted("15:", "warning message", "15:warning message");
  }

  lemma FailureKey()
    ensures Text("14:failure reason") == EncodeStr(Text("failure reason"))
  {
    hide Text, Head, EncodeStr;
    TwoDigitHeads();
    Counted("14:", "failure reason", "14:failure reason");
  }

  lemma FailureLiteral()
    ensures Text("d14:failure reason") == [100] + EncodeStr(Text("failure reason"))
  {
    hide Text, Head, EncodeStr;
    FailureKey();
    DictLiteral();
    Joined("d", "14:failure reason", "d14:failure reason");
  }

  lemma DictLiteral()
    ensures Text("d") == [100]
  {}

  lemma PeerLiterals()
    ensures Text("5:peers") == EncodeStr(Text("peers")) && Text("6:peers6") == EncodeStr(Text("peers6"))
    ensures Text("11:external ip") == EncodeStr(Text("external ip"))
  {
    ShortHeads();
    TwoDigitHeads();
    hide Text, Head, EncodeStr;
    Counted("5:", "peers", "5:peers");
    Counted("6:", "peers6", "6:peers6");
    Counted("11:", "external ip", "11:external ip");
  }

  /** Every literal counts its key right. */
  lemma KeyLiterals()
    ensures Text("8:interval") == EncodeStr(Text("interval")) &&
      Text("12:min interval") == EncodeStr(Text("min interval"))
    ensures Text("10:tracker id") == EncodeStr(Text("tracker id")) && Text("8:complete") == EncodeStr(Text("complete"))
    ensures Text("10:incomplete") == EncodeStr(Text("incomplete"))
    ensures Text("15:warning message") == EncodeStr(Text("warning message"))
    ensures Text("5:peers") == EncodeStr(Text("peers")) && Text("6:peers6") == EncodeStr(Text("peers6"))
    ensures Text("11:external ip") == EncodeStr(Text("external ip"))
    ensures Text("d14:failure reason") == [100] + EncodeStr(Text("failure reason"))
  {
    hide Text, EncodeStr;
    CountLiterals();
    MessageLiterals();
    FailureLiteral();
    PeerLiterals();
  }

  /** An integer field: its counted key as written, then i, the number and e. */
  method WriteInt(buf: seq<Byte>, literal: string, n: int, ghost key: string, ghost es: seq<Entry>)
    returns (out: seq<Byte>)
    requires Text(literal) == EncodeStr(Text(key)) && buf == [100] + EncodeEntries(es)
    ensures out == [100] + EncodeEntries(es + [IntField(key, n)])
  {
    out := buf + Text(literal);
    out := out + [105];
    out := out + SignedDecimal(n);
    out := out + [101];
    Snoc(es, IntField(key, n));
    hide EncodeEntries, EncodeStr, Text, SignedDecimal;
    RegroupField([100], EncodeEntries(es), Text(literal), [105], SignedDecimal(n), [101]);
  }

  lemma RegroupField(a: seq<Byte>, b: seq<Byte>, c: seq<Byte>, d: seq<Byte>, e: seq<Byte>, f: seq<Byte>)
    ensures (a + b) + c + d + e + f == a + (b + (c + (d + e + f)))
  {}

  /** A string field: its counted key as written, then the length, a colon and the bytes. */
  method WriteStr(buf: seq<Byte>, literal: string, b: seq<Byte>, ghost key: string, ghost es: seq<Entry>)
    returns (out: seq<Byte>)
    requires Text(literal) == EncodeStr(Text(key)) && buf == [100] + EncodeEntries(es)
    ensures out == [100] + EncodeEntries(es + [StrField(key, b)])
  {
    out := buf + Text(literal);
    out := out + Decimal(|b|);
    out := out + [58];
    out := out + b;
    Snoc(es, StrField(key, b));
    hide EncodeEntries, Text, Decimal;
    StrFieldPair(key, b);
    hide EncodeStr;
    RegroupField([100], EncodeEntries(es), Text(literal), Decimal(|b|), [58], b);
  }

  /** The external address: the length is part of the literal too. */
  method WriteIp(buf: seq<Byte>, ip: IpAddr, ghost es: seq<Entry>) returns (out: seq<Byte>)
    requires buf == [100] + EncodeEntries(es)
    ensures out == [100] + EncodeEntries(es + [StrField("external ip", IpBytes(ip))])
  {
    out := buf + Text("11:external ip");
    match ip {
      case IpV4(v4) =>
        out := out + Text("4:");
        out := out + v4;
      case IpV6(v6) =>
        out := out + Text("16:");
        out := out + v6;
    }
    IpLayout(buf, ip, es);
  }

  lemma IpLayout(buf: seq<Byte>, ip: IpAddr, es: seq<Entry>)
    requires buf == [100] + EncodeEntries(es)
    ensures buf + Text("11:external ip") + Text(if ip.IpV4? then "4:" else "16:") + IpBytes(ip)
         == [100] + EncodeEntries(es + [StrField("external ip", IpBytes(ip))])
  {
    ShortHeads();
    TwoDigitHeads();
    KeyLiterals();
    Snoc(es, StrField("external ip", IpBytes(ip)));
    hide EncodeEntries, Text, Decimal;
    StrFieldPair("external ip", IpBytes(ip));
    hide EncodeStr;
    RegroupField([100], EncodeEntries(es), Text("11:external ip"), Decimal(|IpBytes(ip)|), [58], IpBytes(ip));
    RegroupHead(buf + Text("11:external ip"), Decimal(|IpBytes(ip)|), [58], IpBytes(ip));
  }

  lemma RegroupHead(a: seq<Byte>, b: seq<Byte>, c: seq<Byte>, d: seq<Byte>)
    ensures a + (b + c) + d == a + b + c + d
  {}

  lemma StrFieldPair(key: string, b: seq<Byte>)
    ensures Pair(StrField(key, b)) == EncodeStr(Text(key)) + (Decimal(|b|) + [58] + b)
  {}

  method EncodePeers6(ps: seq<SocketAddr>) returns (compact6: seq<Byte>)
    ensures compact6 == PeerRows6(ps)
  {
    compact6 := [];
    for i := 0 to |ps|
      invariant compact6 + PeerRows6(ps[i..]) == PeerRows6(ps)
    {
      assert ps[i..][0] == ps[i] && ps[i..][1..] == ps[i + 1..];
      ghost var row := if IsV4(ps[i]) then [] else PackV6(ps[i]);
      RegroupRow(compact6, row, PeerRows6(ps[i + 1..]));
      if ps[i].ip.IpV6? {
        compact6 := compact6 + (ps[i].ip.octets6 + PortBytes(ps[i].port));
      }
      assert [] + PeerRows6(ps[i + 1..]) == PeerRows6(ps[i + 1..]);
    }
  }

  lemma RegroupRow(a: seq<Byte>, b: seq<Byte>, c: seq<Byte>)
    ensures a + (b + c) == (a + b) + c && (b == [] ==> a + b == a)
  {}

  method WriteFront(r: TrackerAnnounceResponse) returns (out: seq<Byte>)
    ensures out == [100] + EncodeEntries(FrontFields(r))
  {
    ghost var es: seq<Entry> := [];
    KeyLiterals();
    out := [100];
    assert out == [100] + EncodeEntries(es);
    hide EncodeEntries, IntField, StrField, Text, EncodeStr;
    out := WriteInt(out, "8:interval", r.interval, "interval", es);
    es := es + [IntField("interval", r.interval)];
    assert [] + [IntField("interval", r.interval)] == [IntField("interval", r.interval)];
    if r.minInterval.Some? {
      out := WriteInt(out, "12:min interval", r.minInterval.value, "min interval", es);
    }
    es := Appended(es, OptInt("min interval", r.minInterval));
    if r.trackerId.Some? {
      out := WriteStr(out, "10:tracker id", r.trackerId.value, "tracker id", es);
    }
    es := Appended(es, OptStr("tracker id", r.trackerId));
    out := WriteInt(out, "8:complete", r.complete, "complete", es);
    es := es + [IntField("complete", r.complete)];
    out := WriteInt(out, "10:incomplete", r.incomplete, "incomplete", es);
    es := es + [IntField("incomplete", r.incomplete)];
    if r.warningMessage.Some? {
      out := WriteStr(out, "15:warning message", r.warningMessage.value, "warning message", es);
    }
    es := Appended(es, OptStr("warning message", r.warningMessage));
  }

  /** Appending nothing changes nothing. */
  ghost function Appended(es: seq<Entry>, more: seq<Entry>): (r: seq<Entry>)
    ensures r == es + more && (more == [] ==> r == es)
  {
    es + more
  }

  /** `to_bencode_compact`. */
  method ToBencodeCompact(r: TrackerAnnounceResponse) returns (out: seq<Byte>)
    ensures out == Encode(Dict(Fields(r)))
  {
    if r.failureReason.Some? {
      var reason := r.failureReason.value;
      out := Text("d14:failure reason");
      out := out + Decimal(|reason|);
      out := out + [58];
      out := out + reason;
      out := out + [101];
      FailureLayout(r);
      return;
    }
    out := WriteFront(r);
    ghost var es := FrontFields(r);
    KeyLiterals();
    hide EncodeEntries, FrontFields, StrField, Text, EncodeStr;
    var compact := EncodeCompactPeers(r.peers);
    out := WriteStr(out, "5:peers", compact, "peers", es);
    es := es + [StrField("peers", compact)];
    ghost var withPeers := es;
    var compact6 := EncodePeers6(r.peers);
    if compact6 != [] {
      out := WriteStr(out, "6:peers6", compact6, "peers6", es);
    }
    es := Appended(es, Peers6(r.peers));
    if r.externalIp.Some? {
      out := WriteIp(out, r.externalIp.value, es);
    }
    es := Appended(es, OptStr("external ip", ExternalIp(r.externalIp)));
    RegroupEntries(withPeers, Peers6(r.peers), OptStr("external ip", ExternalIp(r.externalIp)));
    out := out + [101];
  }

  lemma FailureLayout(r: TrackerAnnounceResponse)
    requires r.failureReason.Some?
    ensures var reason := r.failureReason.value;
      Text("d14:failure reason") + Decimal(|reason|) + [58] + reason + [101] == Encode(Dict(Fields(r)))
  {
    var e := StrField("failure reason", r.failureReason.value);
    KeyLiterals();
    OneEntry(e);
    hide Text, Decimal;
    StrFieldPair("failure reason", r.failureReason.value);
  }

  lemma RegroupEntries(a: seq<Entry>, b: seq<Entry>, c: seq<Entry>)
    ensures (a + b) + c == a + (b + c)
  {}

  // ---- reading back ----

  ghost predicate NoKey(es: seq<Entry>, key: seq<Byte>) {
    forall e :: e in es ==> e.key != key
  }

  lemma {:induction false} LookupBefore(es: seq<Entry>, tail: seq<Entry>, key: seq<Byte>)
    requires NoKey(tail, key)
    ensures Lookup(es + tail, key) == Lookup(es, key)
  {
    if tail == [] {
      assert es + tail == es;
    } else {
      var n := |tail| - 1;
      var all := es + tail;
      assert all[..|all| - 1] == es + tail[..n] && all[|all| - 1] == tail[n];
      LookupBefore(es, tail[..n], key);
    }
  }

  /** A key that occurs once is found. */
  lemma LookupOnly(front: seq<Entry>, e: Entry, back: seq<Entry>)
    requires NoKey(back, e.key)
    ensures Lookup(front + [e] + back, e.key) == Some(e.item)
  {
    LookupBefore(front + [e], back, e.key);
    assert (front + [e])[|front + [e]| - 1] == e;
  }

  lemma LookupNowhere(es: seq<Entry>, key: seq<Byte>)
    requires NoKey(es, key)
    ensures Lookup(es, key) == None
  {}

  lemma Keys(r: TrackerAnnounceResponse)
    ensures forall e :: e in BackFields(r) ==> |e.key| == 6 || |e.key| == 11
    ensures forall e :: e in FrontFields(r) ==> |e.key| == 8 || |e.key| == 10 || |e.key| == 12 || |e.key| == 15
  {}

  /** Whoever decodes a reply without a failure reason and unpacks its two peer fields gets the IPv4 peers
      with a nonzero port and, from `peers6`, the packed IPv6 peers; with a failure reason, only that. */
  lemma ReplyRoundTrip(r: TrackerAnnounceResponse)
    ensures var d := AsDict(FromBytes(Encode(Dict(Fields(r)))));
      d.Some? &&
      if r.failureReason.Some? then AsBytes(Lookup(d.value, Text("failure reason"))) == r.failureReason &&
        Lookup(d.value, Text("peers")) == None
      else
        Lookup(d.value, Text("failure reason")) == None &&
        Lookup(d.value, Text("peers")) == Some(Str(PackPeers(r.peers))) &&
        UnpackPeers(PackPeers(r.peers)) == Reachable(r.peers) &&
        AsBytes(Lookup(d.value, Text("peers6"))) ==
          (if PeerRows6(r.peers) == [] then None else Some(PeerRows6(r.peers))) &&
        AsBytes(Lookup(d.value, Text("external ip"))) == ExternalIp(r.externalIp) &&
        AsInt(Lookup(d.value, Text("interval"))) == Some(r.interval) &&
        AsInt(Lookup(d.value, Text("complete"))) == Some(r.complete) &&
        AsInt(Lookup(d.value, Text("incomplete"))) == Some(r.incomplete) &&
        AsInt(Lookup(d.value, Text("min interval"))) == r.minInterval &&
        AsBytes(Lookup(d.value, Text("tracker id"))) == r.trackerId &&
        AsBytes(Lookup(d.value, Text("warning message"))) == r.warningMessage
  {
    hide FromBytes, Encode, Lookup;
    FromBytesOfEncode(Dict(Fields(r)));
    if r.failureReason.Some? {
      OnlyFailure(r);
    } else {
      FailureAbsent(r);
      PeersFound(r);
      PeersRoundTrip(r.peers);
      Peers6Found(r);
      ExternalFound(r);
      CountsFound(r);
      OptionalsFound(r);
    }
  }

  lemma OnlyFailure(r: TrackerAnnounceResponse)
    requires r.failureReason.Some?
    ensures Lookup(Fields(r), Text("failure reason")) == Some(Str(r.failureReason.value)) &&
      Lookup(Fields(r), Text("peers")) == None
  {}

  lemma FailureAbsent(r: TrackerAnnounceResponse)
    requires r.failureReason.None?
    ensures Lookup(Fields(r), Text("failure reason")) == None
  {
    Keys(r);
    assert |Text("failure reason")| == 14 && |Text("peers")| == 5;
    hide FrontFields, BackFields, Lookup;
    LookupNowhere(Fields(r), Text("failure reason"));
  }

  lemma PeersFound(r: TrackerAnnounceResponse)
    requires r.failureReason.None?
    ensures Lookup(Fields(r), Text("peers")) == Some(Str(PackPeers(r.peers)))
  {
    Keys(r);
    assert |Text("peers")| == 5;
    hide FrontFields, BackFields, Lookup;
    LookupOnly(FrontFields(r), StrField("peers", PackPeers(r.peers)), BackFields(r));
  }

  /** A key of another length than those in front is looked up in the back fields alone. */
  lemma LookupInBack(front: seq<Entry>, back: seq<Entry>, key: seq<Byte>)
    requires NoKey(front, key)
    ensures Lookup(front + back, key) == Lookup(back, key)
    decreases |back|
  {
    if back == [] {
      assert front + back == front;
      LookupNowhere(front, key);
    } else {
      var n := |back| - 1;
      var all := front + back;
      assert all[..|all| - 1] == front + back[..n] && all[|all| - 1] == back[n];
      LookupInBack(front, back[..n], key);
    }
  }

  lemma BackLookup(r: TrackerAnnounceResponse, key: seq<Byte>)
    requires r.failureReason.None? && (|key| == 6 || |key| == 11)
    ensures Lookup(Fields(r), key) == Lookup(BackFields(r), key)
  {
    Keys(r);
    assert |Text("peers")| == 5;
    var front := FrontFields(r) + [StrField("peers", PackPeers(r.peers))];
    hide FrontFields, BackFields, Lookup;
    LookupInBack(front, BackFields(r), key);
  }

  lemma Peers6Found(r: TrackerAnnounceResponse)
    requires r.failureReason.None?
    ensures AsBytes(Lookup(Fields(r), Text("peers6")))
         == if PeerRows6(r.peers) == [] then None else Some(PeerRows6(r.peers))
  {
    assert |Text("peers6")| == 6 && |Text("external ip")| == 11;
    hide FrontFields, Lookup, PeerRows6;
    BackLookup(r, Text("peers6"));
    var ext := OptStr("external ip", ExternalIp(r.externalIp));
    LookupBefore(Peers6(r.peers), ext, Text("peers6"));
    if PeerRows6(r.peers) == [] {
      LookupNowhere(Peers6(r.peers), Text("peers6"));
    } else {
      var e := StrField("peers6", PeerRows6(r.peers));
      LookupOnly([], e, []);
      assert [] + [e] + [] == [e];
    }
  }

  lemma ExternalFound(r: TrackerAnnounceResponse)
    requires r.failureReason.None?
    ensures AsBytes(Lookup(Fields(r), Text("external ip"))) == ExternalIp(r.externalIp)
  {
    assert |Text("peers6")| == 6 && |Text("external ip")| == 11;
    hide FrontFields, Lookup, PeerRows6;
    BackLookup(r, Text("external ip"));
    var ext := OptStr("external ip", ExternalIp(r.externalIp));
    LookupInBack(Peers6(r.peers), ext, Text("external ip"));
    if r.externalIp.Some? {
      LookupOnly([], ext[0], []);
      assert [] + [ext[0]] + [] == ext;
    } else {
      LookupNowhere(ext, Text("external ip"));
    }
  }

  lemma FrontLookup(r: TrackerAnnounceResponse, key: seq<Byte>)
    requires r.failureReason.None? && |key| >= 8 && |key| != 11
    ensures Lookup(Fields(r), key) == Lookup(FrontFields(r), key)
  {
    Keys(r);
    assert |Text("peers")| == 5;
    var peers, back := [StrField("peers", PackPeers(r.peers))], BackFields(r);
    hide FrontFields, BackFields, Lookup;
    LookupBefore(FrontFields(r) + peers, back, key);
    LookupBefore(FrontFields(r), peers, key);
  }

  lemma CountsFound(r: TrackerAnnounceResponse)
    requires r.failureReason.None?
    ensures AsInt(Lookup(Fields(r), Text("interval"))) == Some(r.interval)
    ensures AsInt(Lookup(Fields(r), Text("complete"))) == Some(r.complete)
    ensures AsInt(Lookup(Fields(r), Text("incomplete"))) == Some(r.incomplete)
  {
    FrontKeys();
    hide Lookup, Text;
    FrontLookup(r, Text("interval"));
    FrontLookup(r, Text("complete"));
    FrontLookup(r, Text("incomplete"));
    CountsOf(IntField("interval", r.interval), OptInt("min interval", r.minInterval), OptStr("tracker id", r.trackerId),
             IntField("complete", r.complete), IntField("incomplete", r.incomplete),
               OptStr("warning message", r.warningMessage));
  }

  /** An optional field is found exactly when it is there. */
  lemma LookupOptional(front: seq<Entry>, opt: seq<Entry>, back: seq<Entry>, key: seq<Byte>)
    requires NoKey(front, key) && NoKey(back, key) && |opt| <= 1 && (opt != [] ==> opt[0].key == key)
    ensures Lookup(front + opt + back, key) == if opt == [] then None else Some(opt[0].item)
  {
    hide Lookup;
    LookupBefore(front + opt, back, key);
    LookupInBack(front, opt, key);
    if opt == [] {
      LookupNowhere(opt, key);
    } else {
      LookupOnly([], opt[0], []);
      assert [] + [opt[0]] + [] == opt;
    }
  }

  lemma OptionalsOf(i: seq<Entry>, m: seq<Entry>, t: seq<Entry>, c: seq<Entry>, w: seq<Entry>, mk: seq<Byte>,
                    tk: seq<Byte>, wk: seq<Byte>)
    requires |m| <= 1 && |t| <= 1 && |w| <= 1 && mk != tk && mk != wk && tk != wk
    requires (m != [] ==> m[0].key == mk) && (t != [] ==> t[0].key == tk) && (w != [] ==> w[0].key == wk)
    requires forall e :: e in i || e in c ==> e.key != mk && e.key != tk && e.key != wk
    ensures var es := i + m + t + c + w;
      Lookup(es, mk) == (if m == [] then None else Some(m[0].item)) &&
        Lookup(es, tk) == (if t == [] then None else Some(t[0].item)) &&
      Lookup(es, wk) == (if w == [] then None else Some(w[0].item))
  {
    hide Lookup;
    RegroupOptionals(i, m, t, c, w);
    LookupOptional(i, m, t + c + w, mk);
    LookupOptional(i + m, t, c + w, tk);
    LookupOptional(i + m + t + c, w, [], wk);
  }

  lemma RegroupOptionals(i: seq<Entry>, m: seq<Entry>, t: seq<Entry>, c: seq<Entry>, w: seq<Entry>)
    ensures i + m + t + c + w == (i + m) + (t + c + w)
    ensures i + m + t + c + w == (i + m + t) + (c + w)
    ensures i + m + t + c + w == (i + m + t + c + w) + []
  {}

  lemma OptionalsFound(r: TrackerAnnounceResponse)
    requires r.failureReason.None?
    ensures AsInt(Lookup(Fields(r), Text("min interval"))) == r.minInterval
    ensures AsBytes(Lookup(Fields(r), Text("tracker id"))) == r.trackerId
    ensures AsBytes(Lookup(Fields(r), Text("warning message"))) == r.warningMessage
  {
    FrontKeys();
    hide Lookup, Text;
    FrontLookup(r, Text("min interval"));
    FrontLookup(r, Text("tracker id"));
    FrontLookup(r, Text("warning message"));
    var i, m, t := [IntField("interval", r.interval)], OptInt("min interval", r.minInterval),
      OptStr("tracker id", r.trackerId);
    var c, n, w := [IntField("complete", r.complete)], [IntField("incomplete", r.incomplete)],
      OptStr("warning message", r.warningMessage);
    RegroupEntries(i + m + t, c, n);
    OptionalsOf(i, m, t, c + n, w, Text("min interval"), Text("tracker id"), Text("warning message"));
  }

  lemma FrontKeys()
    ensures |Text("interval")| == |Text("complete")| == 8 && |Text("incomplete")| == |Text("tracker id")| == 10
    ensures |Text("min interval")| == 12 && |Text("warning message")| == 15
    ensures Text("interval") != Text("complete") && Text("incomplete") != Text("tracker id")
  {
    assert Text("interval")[0] == 105 && Text("complete")[0] == 99 && Text("incomplete")[0] == 105 &&
      Text("tracker id")[0] == 116;
  }

  lemma CountsOf(i: Entry, m: seq<Entry>, t: seq<Entry>, c: Entry, n: Entry, w: seq<Entry>)
    requires NoKey(m, i.key) && NoKey(t, i.key) && c.key != i.key && n.key != i.key && NoKey(w, i.key)
    requires n.key != c.key && NoKey(w, c.key) && NoKey(w, n.key)
    ensures var es := [i] + m + t + [c] + [n] + w;
      Lookup(es, i.key) == Some(i.item) && Lookup(es, c.key) == Some(c.item) && Lookup(es, n.key) == Some(n.item)
  {
    hide Lookup;
    RegroupFront(i, m, t, c, n, w);
    LookupOnly([], i, m + t + [c] + [n] + w);
    LookupOnly([i] + m + t, c, [n] + w);
    LookupOnly([i] + m + t + [c], n, w);
  }

  lemma RegroupFront(i: Entry, m: seq<Entry>, t: seq<Entry>, c: Entry, n: Entry, w: seq<Entry>)
    ensures [i] + m + t + [c] + [n] + w == [] + [i] + (m + t + [c] + [n] + w)
    ensures [i] + m + t + [c] + [n] + w == ([i] + m + t) + [c] + ([n] + w)
  {}
}
