/** KRPC messages (BEP 5): the hand-written bencode builders and the parsers that read them back. */
module Krpc {
  import opened Bytes
  import opened Addresses
  import opened XorMetric
  import opened Bencode
  import opened CompactInfo

  datatype QueryMethod = Ping | FindNode | GetPeers | AnnouncePeer | SampleInfohashes

  function MethodName(m: QueryMethod): seq<Byte> {
    match m
    case Ping => Text("ping")
    case FindNode => Text("find_node")
    case GetPeers => Text("get_peers")
    case AnnouncePeer => Text("announce_peer")
    case SampleInfohashes => Text("sample_infohashes")
  }

  // ---- the intended dictionaries ----

  function StrField(key: string, b: seq<Byte>): Entry
  {
    Entry(Text(key), Str(b))
  }

  function QueryItem(args: seq<Entry>, name: seq<Byte>, tid: seq<Byte>): Item {
    Dict([Entry(Text("a"), Dict(args)), StrField("q", name), StrField("t", tid), StrField("y", Text("q"))])
  }

  function ResponseItem(fields: seq<Entry>, tid: seq<Byte>): Item {
    Dict([Entry(Text("r"), Dict(fields)), StrField("t", tid), StrField("y", Text("r"))])
  }

  // ---- text and headers ----

  /** The length prefix of a byte string: `format!("{}:", n)`. */
  function Head(n: nat): seq<Byte> {
    Decimal(n) + [58]
  }

  function Pair(e: Entry): seq<Byte> {
    EncodeStr(e.key) + Encode(e.item)
  }

  lemma {:induction false} EntriesConcat(es: seq<Entry>, fs: seq<Entry>)
    ensures EncodeEntries(es + fs) == EncodeEntries(es) + EncodeEntries(fs)
  {
    if es == [] {
      assert es + fs == fs;
    } else {
      assert (es + fs)[1..] == es[1..] + fs;
      EntriesConcat(es[1..], fs);
    }
  }

  lemma OneEntry(e: Entry)
    ensures EncodeEntries([e]) == Pair(e)
  {}

  lemma ConsEntries(e: Entry, es: seq<Entry>)
    ensures EncodeEntries([e] + es) == Pair(e) + EncodeEntries(es)
  {}

  lemma ThreeEntries(a: Entry, b: Entry, c: Entry)
    ensures EncodeEntries([a, b, c]) == Pair(a) + (Pair(b) + Pair(c))
  {
    ConsEntries(a, [b, c]);
    ConsEntries(b, [c]);
    OneEntry(c);
    assert [a, b, c] == [a] + [b, c] && [b, c] == [b] + [c];
  }

  lemma FourEntries(a: Entry, b: Entry, c: Entry, d: Entry)
    ensures EncodeEntries([a, b, c, d]) == Pair(a) + (Pair(b) + (Pair(c) + Pair(d)))
  {
    ConsEntries(a, [b, c, d]);
    ThreeEntries(b, c, d);
    assert [a, b, c, d] == [a] + [b, c, d];
  }

  lemma StrPair(key: string, b: seq<Byte>)
    ensures Pair(StrField(key, b)) == EncodeStr(Text(key)) + (Head(|b|) + b)
  {}

  lemma ShortHeads()
    ensures Text("1:") == Head(1) && Text("2:") == Head(2) && Text("3:") == Head(3) && Text("4:") == Head(4)
    ensures Text("5:") == Head(5) && Text("6:") == Head(6) && Text("7:") == Head(7) && Text("8:") == Head(8)
    ensures Text("9:") == Head(9)
  {}

  lemma LongHeads()
    ensures Text("12:") == Head(12) && Text("13:") == Head(13) && Text("17:") == Head(17) && Text("20:") == Head(20)
  {}

  lemma Heads()
    ensures Text("1:") == Head(1) && Text("2:") == Head(2) && Text("3:") == Head(3) && Text("4:") == Head(4)
    ensures Text("5:") == Head(5) && Text("6:") == Head(6) && Text("7:") == Head(7) && Text("8:") == Head(8)
    ensures Text("9:") == Head(9) && Text("12:") == Head(12) && Text("13:") == Head(13)
    ensures Text("17:") == Head(17) && Text("20:") == Head(20)
  {
    ShortHeads();
    LongHeads();
  }

  /** A counted string literal: the length prefix, then the text. */
  lemma Counted(head: string, key: string, whole: string)
    requires whole == head + key && Text(head) == Head(|key|)
    ensures Text(whole) == EncodeStr(Text(key))
  {}

  lemma Joined(left: string, right: string, whole: string)
    requires whole == left + right
    ensures Text(whole) == Text(left) + Text(right)
  {}

  // ---- shapes shared by all messages ----

  function QueryShape(args: seq<Byte>, name: seq<Byte>, tid: seq<Byte>): seq<Byte> {
    Text("d1:ad") + args + Text("e1:q") + EncodeStr(name) + Text("1:t") + EncodeStr(tid) + Text("1:y1:qe")
  }

  lemma QueryLiterals()
    ensures Text("d1:ad") == [100] + EncodeStr(Text("a")) + [100]
    ensures Text("e1:q") == [101] + EncodeStr(Text("q"))
    ensures Text("1:t") == EncodeStr(Text("t"))
    ensures Text("1:y1:qe") == EncodeStr(Text("y")) + EncodeStr(Text("q")) + [101]
  {
    Heads();
  }

  lemma QueryShapeIsEncoding(args: seq<Entry>, name: seq<Byte>, tid: seq<Byte>)
    ensures QueryShape(EncodeEntries(args), name, tid) == Encode(QueryItem(args, name, tid))
  {
    QueryLiterals();
    FourEntries(Entry(Text("a"), Dict(args)), StrField("q", name), StrField("t", tid), StrField("y", Text("q")));
    RegroupQuery(EncodeStr(Text("a")), EncodeEntries(args), EncodeStr(Text("q")), EncodeStr(name),
                 EncodeStr(Text("t")), EncodeStr(tid), EncodeStr(Text("y")), EncodeStr(Text("q")));
  }

  lemma RegroupQuery(a: seq<Byte>, args: seq<Byte>, q: seq<Byte>, name: seq<Byte>,
                     t: seq<Byte>, tid: seq<Byte>, y: seq<Byte>, v: seq<Byte>)
    ensures ([100] + a + [100]) + args + ([101] + q) + name + t + tid + (y + v + [101])
         == [100] + ((a + ([100] + args + [101])) + ((q + name) + ((t + tid) + (y + v)))) + [101]
  {}

  function ResponseShape(fields: seq<Byte>, tid: seq<Byte>): seq<Byte> {
    Text("d1:rd") + fields + Text("e1:t") + EncodeStr(tid) + Text("1:y1:re")
  }

  lemma ResponseLiterals()
    ensures Text("d1:rd") == [100] + EncodeStr(Text("r")) + [100]
    ensures Text("e1:t") == [101] + EncodeStr(Text("t"))
    ensures Text("1:y1:re") == EncodeStr(Text("y")) + EncodeStr(Text("r")) + [101]
  {
    Heads();
  }

  lemma ResponseShapeIsEncoding(fields: seq<Entry>, tid: seq<Byte>)
    ensures ResponseShape(EncodeEntries(fields), tid) == Encode(ResponseItem(fields, tid))
  {
    ResponseLiterals();
    ThreeEntries(Entry(Text("r"), Dict(fields)), StrField("t", tid), StrField("y", Text("r")));
    RegroupResponse(EncodeStr(Text("r")), EncodeEntries(fields), EncodeStr(Text("t")), EncodeStr(tid),
                    EncodeStr(Text("y")), EncodeStr(Text("r")));
  }

  lemma RegroupResponse(r: seq<Byte>, fields: seq<Byte>, t: seq<Byte>, tid: seq<Byte>, y: seq<Byte>, v: seq<Byte>)
    ensures ([100] + r + [100]) + fields + ([101] + t) + tid + (y + v + [101])
         == [100] + ((r + ([100] + fields + [101])) + ((t + tid) + (y + v))) + [101]
  {}

  // ---- query builders ----

  function IdField(id: NodeId): Entry {
    StrField("id", id)
  }

  lemma IdLiterals(id: NodeId)
    ensures Text("d1:ad2:id20:") + id == Text("d1:ad") + Pair(IdField(id))
    ensures Text("d1:rd2:id20:") + id == Text("d1:rd") + Pair(IdField(id))
  {}

  method BuildPing(tid: seq<Byte>, nodeId: NodeId) returns (buf: seq<Byte>)
    requires |tid| == 2
    ensures buf == Encode(QueryItem([IdField(nodeId)], MethodName(Ping), tid))
  {
    buf := Text("d1:ad2:id20:");
    buf := buf + nodeId;
    buf := buf + Text("e1:q4:ping1:t2:");
    buf := buf + tid;
    buf := buf + Text("1:y1:qe");
    PingLayout(tid, nodeId);
  }

  lemma PingLayout(tid: seq<Byte>, nodeId: NodeId)
    requires |tid| == 2
    ensures Text("d1:ad2:id20:") + nodeId + Text("e1:q4:ping1:t2:") + tid + Text("1:y1:qe")
         == Encode(QueryItem([IdField(nodeId)], MethodName(Ping), tid))
  {
    IdLiterals(nodeId);
    OneEntry(IdField(nodeId));
    QueryShapeIsEncoding([IdField(nodeId)], Text("ping"), tid);
    Counted("4:", "ping", "4:ping");
    NameLiteral("4:ping", "e1:q4:ping1:t2:", "ping");
    Regroup5(Text("d1:ad"), Pair(IdField(nodeId)), Text("e1:q"), EncodeStr(Text("ping")), Text("1:t"), Head(2), tid,
      Text("1:y1:qe"));
  }

  /** The literal that names a query whose transaction id has two bytes. */
  lemma NameLiteral(counted: string, whole: string, name: string)
    requires whole == ("e1:q" + counted) + "1:t2:"
    requires Text(counted) == EncodeStr(Text(name))
    ensures Text(whole) == Text("e1:q") + EncodeStr(Text(name)) + (Text("1:t") + Head(2))
  {}

  lemma Regroup5(d: seq<Byte>, p: seq<Byte>, q: seq<Byte>, n: seq<Byte>, t: seq<Byte>, h: seq<Byte>, tid: seq<Byte>,
                 y: seq<Byte>)
    ensures (((d + p) + (q + n + (t + h))) + tid) + y == d + p + q + n + t + (h + tid) + y
  {}

  method BuildGetPeers(tid: seq<Byte>, nodeId: NodeId, infoHash: NodeId) returns (buf: seq<Byte>)
    requires |tid| == 2
    ensures buf == Encode(QueryItem([IdField(nodeId), StrField("info_hash", infoHash)], MethodName(GetPeers), tid))
  {
    buf := Text("d1:ad2:id20:");
    buf := buf + nodeId;
    buf := buf + Text("9:info_hash20:");
    buf := buf + infoHash;
    buf := buf + Text("e1:q9:get_peers1:t2:");
    buf := buf + tid;
    buf := buf + Text("1:y1:qe");
    GetPeersLayout(tid, nodeId, infoHash);
  }

  lemma TwoEntries(a: Entry, b: Entry)
    ensures EncodeEntries([a, b]) == Pair(a) + Pair(b)
  {
    ConsEntries(a, [b]);
    OneEntry(b);
    assert [a, b] == [a] + [b];
  }

  lemma InfoHashLiteral(infoHash: NodeId)
    ensures Text("9:info_hash20:") + infoHash == Pair(StrField("info_hash", infoHash))
  {}

  lemma GetPeersName()
    ensures Text("e1:q9:get_peers1:t2:") == Text("e1:q") + EncodeStr(Text("get_peers")) + (Text("1:t") + Head(2))
  {
    Heads();
    Counted("9:", "get_peers", "9:get_peers");
    NameLiteral("9:get_peers", "e1:q9:get_peers1:t2:", "get_peers");
  }

  lemma GetPeersLayout(tid: seq<Byte>, nodeId: NodeId, infoHash: NodeId)
    requires |tid| == 2
    ensures Text("d1:ad2:id20:") + nodeId + Text("9:info_hash20:") + infoHash + Text("e1:q9:get_peers1:t2:") + tid +
      Text("1:y1:qe")
         == Encode(QueryItem([IdField(nodeId), StrField("info_hash", infoHash)], MethodName(GetPeers), tid))
  {
    var args := [IdField(nodeId), StrField("info_hash", infoHash)];
    IdLiterals(nodeId);
    InfoHashLiteral(infoHash);
    TwoEntries(args[0], args[1]);
    QueryShapeIsEncoding(args, Text("get_peers"), tid);
    GetPeersName();
    Regroup6(Text("d1:ad") + Pair(args[0]), Text("9:info_hash20:"), infoHash, Text("e1:q9:get_peers1:t2:"), tid,
      Text("1:y1:qe"));
    Regroup5b(Text("d1:ad"), Pair(args[0]), Pair(args[1]), Text("e1:q"), EncodeStr(Text("get_peers")), Text("1:t"),
      Head(2), tid, Text("1:y1:qe"));
  }

  lemma Regroup6(a: seq<Byte>, l: seq<Byte>, ih: seq<Byte>, n: seq<Byte>, tid: seq<Byte>, y: seq<Byte>)
    ensures ((((a + l) + ih) + n) + tid) + y == (((a + (l + ih)) + n) + tid) + y
  {}

  lemma Regroup5b(d: seq<Byte>, p: seq<Byte>, r: seq<Byte>, q: seq<Byte>, n: seq<Byte>, t: seq<Byte>, h: seq<Byte>,
                  tid: seq<Byte>, y: seq<Byte>)
    ensures ((((d + p) + r) + (q + n + (t + h))) + tid) + y == d + (p + r) + q + n + t + (h + tid) + y
  {}

  /** The token and the transaction id may have any length. */
  method BuildAnnouncePeer(tid: seq<Byte>, nodeId: NodeId, infoHash: NodeId, port: Port, token: seq<Byte>)
    returns (buf: seq<Byte>)
    ensures buf == Encode(QueryItem(AnnounceArgs(nodeId, infoHash, port, token), MethodName(AnnouncePeer), tid))
  {
    buf := Text("d1:ad2:id20:");
    buf := buf + nodeId;
    buf := buf + Text("12:implied_porti0e9:info_hash20:");
    buf := buf + infoHash;
    buf := buf + Text("4:porti");
    buf := buf + Decimal(port);
    buf := buf + Text("e5:token");
    buf := buf + Head(|token|);
    buf := buf + token;
    buf := buf + Text("e1:q13:announce_peer1:t");
    buf := buf + Head(|tid|);
    buf := buf + tid;
    buf := buf + Text("1:y1:qe");
    AnnouncePeerLayout(tid, nodeId, infoHash, port, token);
  }

  function AnnounceArgs(nodeId: NodeId, infoHash: NodeId, port: Port, token: seq<Byte>): seq<Entry> {
    [IdField(nodeId), Entry(Text("implied_port"), Int(0)), StrField("info_hash", infoHash)] +
    [Entry(Text("port"), Int(port)), StrField("token", token)]
  }

  lemma IntPair(key: string, n: int)
    ensures Pair(Entry(Text(key), Int(n))) == EncodeStr(Text(key)) + ([105] + SignedDecimal(n) + [101])
  {}

  lemma AnnounceLiterals(infoHash: NodeId)
    ensures Text("12:implied_porti0e9:info_hash20:") + infoHash
         == Pair(Entry(Text("implied_port"), Int(0))) + Pair(StrField("info_hash", infoHash))
  {
    InfoHashLiteral(infoHash);
    IntPair("implied_port", 0);
    ImpliedPortLiteral();
    Joined("12:implied_porti0e", "9:info_hash20:", "12:implied_porti0e9:info_hash20:");
  }

  lemma PortLiterals()
    ensures Text("4:porti") == EncodeStr(Text("port")) + [105]
    ensures Text("e5:token") == [101] + EncodeStr(Text("token"))
    ensures Text("5:token") == EncodeStr(Text("token"))
  {}

  lemma ImpliedPortLiteral()
    ensures Text("12:implied_porti0e") == EncodeStr(Text("implied_port")) + ([105] + SignedDecimal(0) + [101])
  {
    Heads();
    Counted("12:", "implied_port", "12:implied_port");
    Joined("12:implied_port", "i0e", "12:implied_porti0e");
    assert Text("i0e") == [105] + SignedDecimal(0) + [101];
  }

  /** The literal that names a query whose transaction id is counted separately. */
  lemma OpenNameLiteral(counted: string, whole: string, name: string)
    requires whole == ("e1:q" + counted) + "1:t"
    requires Text(counted) == EncodeStr(Text(name))
    ensures Text(whole) == Text("e1:q") + EncodeStr(Text(name)) + Text("1:t")
  {}

  lemma AnnounceName()
    ensures Text("e1:q13:announce_peer1:t") == Text("e1:q") + EncodeStr(Text("announce_peer")) + Text("1:t")
  {
    Heads();
    Counted("13:", "announce_peer", "13:announce_peer");
    OpenNameLiteral("13:announce_peer", "e1:q13:announce_peer1:t", "announce_peer");
  }

  lemma AnnounceArgsLayout(nodeId: NodeId, infoHash: NodeId, port: Port, token: seq<Byte>)
    ensures EncodeEntries(AnnounceArgs(nodeId, infoHash, port, token)) ==
      (Pair(IdField(nodeId)) + (Pair(Entry(Text("implied_port"), Int(0))) + Pair(StrField("info_hash", infoHash)))) +
      (Pair(Entry(Text("port"), Int(port))) + Pair(StrField("token", token)))
  {
    var a, b, c := IdField(nodeId), Entry(Text("implied_port"), Int(0)), StrField("info_hash", infoHash);
    var d, e := Entry(Text("port"), Int(port)), StrField("token", token);
    EntriesConcat([a, b, c], [d, e]);
    ThreeEntries(a, b, c);
    TwoEntries(d, e);
  }

  lemma AnnouncePeerLayout(tid: seq<Byte>, nodeId: NodeId, infoHash: NodeId, port: Port, token: seq<Byte>)
    ensures Text("d1:ad2:id20:") + nodeId + Text("12:implied_porti0e9:info_hash20:") + infoHash + Text("4:porti") +
            Decimal(port) + Text("e5:token") + Head(|token|) + token + Text("e1:q13:announce_peer1:t") +
            Head(|tid|) + tid + Text("1:y1:qe")
         == Encode(QueryItem(AnnounceArgs(nodeId, infoHash, port, token), MethodName(AnnouncePeer), tid))
  {
    var args := AnnounceArgs(nodeId, infoHash, port, token);
    IdLiterals(nodeId);
    AnnounceLiterals(infoHash);
    PortLiterals();
    AnnounceName();
    AnnounceArgsLayout(nodeId, infoHash, port, token);
    QueryShapeIsEncoding(args, Text("announce_peer"), tid);
    IntPair("port", port);
    StrPair("token", token);
    var id, ip, ih := Pair(IdField(nodeId)), Pair(Entry(Text("implied_port"), Int(0))),
      Pair(StrField("info_hash", infoHash));
    RegroupAnnounceHead(Text("d1:ad") + id, Text("12:implied_porti0e9:info_hash20:"), infoHash, EncodeStr(Text("port")),
      Decimal(port),
                        EncodeStr(Text("token")), Head(|token|), token, Text("e1:q13:announce_peer1:t"), Head(|tid|),
                          tid, Text("1:y1:qe"));
    RegroupAnnounceTail(Text("d1:ad"), id, ip, ih, EncodeStr(Text("port")) + ([105] + Decimal(port) + [101]),
                        EncodeStr(Text("token")) + (Head(|token|) + token), Text("e1:q"),
                          EncodeStr(Text("announce_peer")),
                        Text("1:t"), EncodeStr(tid), Text("1:y1:qe"));
  }

  lemma RegroupAnnounceHead(a: seq<Byte>, l: seq<Byte>, h: seq<Byte>, p: seq<Byte>, n: seq<Byte>, k: seq<Byte>,
                            kh: seq<Byte>,
                            kt: seq<Byte>, q: seq<Byte>, th: seq<Byte>, t: seq<Byte>, y: seq<Byte>)
    ensures a + l + h + (p + [105]) + n + ([101] + k) + kh + kt + q + th + t + y
         == a + (l + h) + (p + ([105] + n + [101])) + (k + (kh + kt)) + q + (th + t) + y
  {}

  lemma RegroupAnnounceTail(d: seq<Byte>, id: seq<Byte>, ip: seq<Byte>, ih: seq<Byte>, p: seq<Byte>, k: seq<Byte>,
                            q: seq<Byte>, n: seq<Byte>, t: seq<Byte>, tid: seq<Byte>, y: seq<Byte>)
    ensures (d + id) + (ip + ih) + p + k + (q + n + t) + tid + y
         == d + ((id + (ip + ih)) + (p + k)) + q + n + t + tid + y
  {}

  // ---- response builders ----

  method BuildPingResponse(tid: seq<Byte>, nodeId: NodeId) returns (buf: seq<Byte>)
    ensures buf == Encode(ResponseItem([IdField(nodeId)], tid))
  {
    buf := Text("d1:rd2:id20:");
    buf := buf + nodeId;
    buf := buf + Text("e1:t");
    buf := buf + Head(|tid|);
    buf := buf + tid;
    buf := buf + Text("1:y1:re");
    IdLiterals(nodeId);
    OneEntry(IdField(nodeId));
    ResponseShapeIsEncoding([IdField(nodeId)], tid);
    RegroupReply(Text("d1:rd"), Pair(IdField(nodeId)), Text("e1:t"), Head(|tid|), tid, Text("1:y1:re"));
  }

  lemma RegroupReply(d: seq<Byte>, f: seq<Byte>, t: seq<Byte>, h: seq<Byte>, tid: seq<Byte>, y: seq<Byte>)
    ensures ((((d + f) + t) + h) + tid) + y == d + f + t + (h + tid) + y
  {}

  function NodeFields(nodeId: NodeId, nodes: seq<DhtNode>): seq<Entry> {
    [IdField(nodeId), StrField("nodes", PackNodes(nodes))] +
    (if PackNodes6(nodes) == [] then [] else [StrField("nodes6", PackNodes6(nodes))])
  }

  method BuildFindNodeResponseWithNodes(tid: seq<Byte>, nodeId: NodeId, nodes: seq<DhtNode>) returns (buf: seq<Byte>)
    ensures buf == Encode(ResponseItem(NodeFields(nodeId, nodes), tid))
  {
    var compactV4, compactV6 := EncodeCompactNodes(nodes);
    buf := Text("d1:rd2:id20:");
    buf := buf + nodeId;
    buf := buf + Text("5:nodes");
    buf := buf + Head(|compactV4|);
    buf := buf + compactV4;
    if compactV6 != [] {
      buf := buf + Text("6:nodes6");
      buf := buf + Head(|compactV6|);
      buf := buf + compactV6;
    }
    NodeFieldsLayout(nodeId, nodes, compactV4, compactV6);
    ghost var fields := buf;
    buf := buf + Text("e1:t");
    buf := buf + Head(|tid|);
    buf := buf + tid;
    buf := buf + Text("1:y1:re");
    ResponseShapeIsEncoding(NodeFields(nodeId, nodes), tid);
    RegroupReply(Text("d1:rd"), EncodeEntries(NodeFields(nodeId, nodes)), Text("e1:t"), Head(|tid|), tid,
      Text("1:y1:re"));
  }

  lemma NodesLiterals()
    ensures Text("5:nodes") == EncodeStr(Text("nodes"))
    ensures Text("6:nodes6") == EncodeStr(Text("nodes6"))
  {}

  lemma NodeFieldsLayout(nodeId: NodeId, nodes: seq<DhtNode>, v4: seq<Byte>, v6: seq<Byte>)
    requires v4 == PackNodes(nodes) && v6 == PackNodes6(nodes)
    ensures Text("d1:rd2:id20:") + nodeId + Text("5:nodes") + Head(|v4|) + v4 +
            (if v6 != [] then Text("6:nodes6") + Head(|v6|) + v6 else [])
         == Text("d1:rd") + EncodeEntries(NodeFields(nodeId, nodes))
    ensures v6 != [] ==>
      Text("d1:rd2:id20:") + nodeId + Text("5:nodes") + Head(|v4|) + v4 + Text("6:nodes6") + Head(|v6|) + v6
         == Text("d1:rd") + EncodeEntries(NodeFields(nodeId, nodes))
    ensures v6 == [] ==>
      Text("d1:rd2:id20:") + nodeId + Text("5:nodes") + Head(|v4|) + v4
         == Text("d1:rd") + EncodeEntries(NodeFields(nodeId, nodes))
  {
    var id := IdField(nodeId);
    IdLiterals(nodeId);
    NodesLiterals();
    StrPair("nodes", v4);
    StrPair("nodes6", v6);
    TwoEntries(id, StrField("nodes", v4));
    ThreeEntries(id, StrField("nodes", v4), StrField("nodes6", v6));
    assert [id, StrField("nodes", v4)] + [StrField("nodes6", v6)]
        == [id, StrField("nodes", v4), StrField("nodes6", v6)];
    assert [id, StrField("nodes", v4)] + [] == [id, StrField("nodes", v4)];
    RegroupNodes(Text("d1:rd"), Pair(id), Text("5:nodes"), Head(|v4|), v4, Text("6:nodes6"), Head(|v6|), v6);
  }

  lemma RegroupNodes(d: seq<Byte>, id: seq<Byte>, k: seq<Byte>, h: seq<Byte>, v: seq<Byte>, k6: seq<Byte>,
                     h6: seq<Byte>, v6: seq<Byte>)
    ensures (d + id) + k + h + v + k6 + h6 + v6 == d + (id + ((k + (h + v)) + (k6 + (h6 + v6))))
    ensures (d + id) + k + h + v + (k6 + h6 + v6) == d + (id + ((k + (h + v)) + (k6 + (h6 + v6))))
    ensures (d + id) + k + h + v == d + (id + (k + (h + v)))
    ensures (d + id) + k + h + v + [] == d + (id + (k + (h + v)))
  {}

  /** `build_find_node_response` is the case of no nodes. */
  method BuildFindNodeResponse(tid: seq<Byte>, nodeId: NodeId) returns (buf: seq<Byte>)
    ensures buf == Encode(ResponseItem(NodeFields(nodeId, []), tid))
  {
    buf := Text("d1:rd2:id20:");
    buf := buf + nodeId;
    buf := buf + Text("5:nodes0:e1:t");
    buf := buf + Head(|tid|);
    buf := buf + tid;
    buf := buf + Text("1:y1:re");
    NodeFieldsLayout(nodeId, [], [], []);
    EmptyNodesLiteral();
    ResponseShapeIsEncoding(NodeFields(nodeId, []), tid);
    RegroupEmpty(Text("d1:rd2:id20:") + nodeId, Text("5:nodes"), Head(0), Text("e1:t"), Head(|tid|), tid,
      Text("1:y1:re"));
    RegroupReply(Text("d1:rd"), EncodeEntries(NodeFields(nodeId, [])), Text("e1:t"), Head(|tid|), tid, Text("1:y1:re"));
  }

  lemma EmptyNodesLiteral()
    ensures Text("5:nodes0:e1:t") == Text("5:nodes") + Head(0) + Text("e1:t")
  {}

  lemma RegroupEmpty(d: seq<Byte>, k: seq<Byte>, z: seq<Byte>, t: seq<Byte>, h: seq<Byte>, tid: seq<Byte>, y: seq<Byte>)
    ensures d + (k + z + t) + h + tid + y == (((((d + k) + z) + []) + t) + h) + tid + y
  {}

  /** The compact strings in a `values` list: IPv4 peers only. */
  function PeerItems(peers: seq<SocketAddr>): seq<Item> {
    if peers == [] then []
    else (if IsV4(peers[0]) then [Str(PackV4(peers[0]))] else []) + PeerItems(peers[1..])
  }

  function PeersOrNodes(peers: seq<SocketAddr>, nodes: seq<DhtNode>): Entry {
    if peers != [] then Entry(Text("values"), List(PeerItems(peers)))
    else StrField("nodes", PackNodesLoosely(nodes))
  }

  function GetPeersFields(nodeId: NodeId, token: seq<Byte>, peers: seq<SocketAddr>, nodes: seq<DhtNode>): seq<Entry> {
    [IdField(nodeId), PeersOrNodes(peers, nodes), StrField("token", token)]
  }

  lemma {:induction false} AllConcat(xs: seq<Item>, ys: seq<Item>)
    ensures EncodeAll(xs + ys) == EncodeAll(xs) + EncodeAll(ys)
  {
    if xs == [] {
      assert xs + ys == ys;
    } else {
      assert (xs + ys)[1..] == xs[1..] + ys;
      AllConcat(xs[1..], ys);
    }
  }

  lemma RegroupItems(a: seq<Item>, b: seq<Item>, c: seq<Item>)
    ensures a + (b + c) == a + b + c
  {}

  lemma {:induction false} PeerItemsAppend(ps: seq<SocketAddr>, p: SocketAddr)
    ensures PeerItems(ps + [p]) == PeerItems(ps) + (if IsV4(p) then [Str(PackV4(p))] else [])
  {
    hide PackV4, IsV4;
    if ps == [] {
      assert [p][1..] == [] && ps + [p] == [p];
    } else {
      var all := ps + [p];
      assert all[1..] == ps[1..] + [p] && all[0] == ps[0];
      PeerItemsAppend(ps[1..], p);
      RegroupItems(if IsV4(ps[0]) then [Str(PackV4(ps[0]))] else [], PeerItems(ps[1..]),
                   if IsV4(p) then [Str(PackV4(p))] else []);
    }
  }

  lemma PeerItemsStep(ps: seq<SocketAddr>, i: nat)
    requires i < |ps|
    ensures EncodeAll(PeerItems(ps[..i + 1])) ==
      EncodeAll(PeerItems(ps[..i])) + (if IsV4(ps[i]) then Text("6:") + PackV4(ps[i]) else [])
  {
    assert ps[..i + 1] == ps[..i] + [ps[i]];
    PeerItemsAppend(ps[..i], ps[i]);
    if IsV4(ps[i]) {
      var x := Str(PackV4(ps[i]));
      AllConcat(PeerItems(ps[..i]), [x]);
      assert EncodeAll([x]) == Encode(x) + EncodeAll([x][1..]) && [x][1..] == [];
      ShortHeads();
    } else {
      assert PeerItems(ps[..i]) + [] == PeerItems(ps[..i]);
    }
  }

  /** The loop that lists peers. */
  method AppendPeers(start: seq<Byte>, peers: seq<SocketAddr>) returns (buf: seq<Byte>)
    ensures buf == start + EncodeAll(PeerItems(peers))
  {
    buf := start;
    for i := 0 to |peers|
      invariant buf == start + EncodeAll(PeerItems(peers[..i]))
    {
      PeerItemsStep(peers, i);
      ghost var was := EncodeAll(PeerItems(peers[..i]));
      if peers[i].ip.IpV4? {
        var compact := peers[i].ip.octets + PortBytes(peers[i].port);
        buf := buf + Text("6:");
        buf := buf + compact;
        Assoc3(start, was, Text("6:"), compact);
      }
    }
    assert peers[..|peers|] == peers;
  }

  lemma Assoc3(a: seq<Byte>, b: seq<Byte>, c: seq<Byte>, d: seq<Byte>)
    ensures ((a + b) + c) + d == a + (b + (c + d))
  {}

  method BuildGetPeersResponseFull(tid: seq<Byte>, nodeId: NodeId, token: seq<Byte>, peers: seq<SocketAddr>,
                                   nodes: seq<DhtNode>)
    returns (buf: seq<Byte>)
    ensures buf == Encode(ResponseItem(GetPeersFields(nodeId, token, peers, nodes), tid))
  {
    buf := Text("d1:rd2:id20:");
    buf := buf + nodeId;
    if peers != [] {
      buf := buf + Text("6:valuesl");
      buf := AppendPeers(buf, peers);
      buf := buf + Text("e");
    } else {
      var compact := EncodeNodesLoosely(nodes);
      buf := buf + Text("5:nodes");
      buf := buf + Head(|compact|);
      buf := buf + compact;
    }
    MiddleLayout(Text("d1:rd2:id20:") + nodeId, peers, nodes);
    assert buf == Text("d1:rd2:id20:") + nodeId + Pair(PeersOrNodes(peers, nodes));
    buf := buf + Text("5:token");
    buf := buf + Head(|token|);
    buf := buf + token;
    buf := buf + Text("e1:t");
    buf := buf + Head(|tid|);
    buf := buf + tid;
    buf := buf + Text("1:y1:re");
    GetPeersResponseLayout(tid, nodeId, token, PeersOrNodes(peers, nodes));
  }

  lemma MiddleLayout(start: seq<Byte>, peers: seq<SocketAddr>, nodes: seq<DhtNode>)
    ensures peers != [] ==>
      start + Text("6:valuesl") + EncodeAll(PeerItems(peers)) + Text("e") == start + Pair(PeersOrNodes(peers, nodes))
    ensures peers == [] ==>
      start + Text("5:nodes") + Head(|PackNodesLoosely(nodes)|) + PackNodesLoosely(nodes)
        == start + Pair(PeersOrNodes(peers, nodes))
  {
    var compact := PackNodesLoosely(nodes);
    NodesLiterals();
    StrPair("nodes", compact);
    Assoc3(start, Text("5:nodes"), Head(|compact|), compact);
    ValuesLiteral();
    RegroupList(start, EncodeStr(Text("values")), EncodeAll(PeerItems(peers)));
  }

  lemma ValuesLiteral()
    ensures Text("6:valuesl") == EncodeStr(Text("values")) + [108]
    ensures Text("e") == [101]
  {}

  lemma RegroupList(start: seq<Byte>, key: seq<Byte>, all: seq<Byte>)
    ensures start + (key + [108]) + all + [101] == start + (key + ([108] + all + [101]))
  {}

  lemma GetPeersResponseLayout(tid: seq<Byte>, nodeId: NodeId, token: seq<Byte>, middle: Entry)
    ensures Text("d1:rd2:id20:") + nodeId + Pair(middle) + Text("5:token") + Head(|token|) + token +
            Text("e1:t") + Head(|tid|) + tid + Text("1:y1:re")
         == Encode(ResponseItem([IdField(nodeId), middle, StrField("token", token)], tid))
  {
    var fields := [IdField(nodeId), middle, StrField("token", token)];
    IdLiterals(nodeId);
    PortLiterals();
    StrPair("token", token);
    ThreeEntries(fields[0], fields[1], fields[2]);
    ResponseShapeIsEncoding(fields, tid);
    RegroupGetPeers(Text("d1:rd"), Pair(fields[0]), Pair(middle), Text("5:token"), Head(|token|), token,
                    Text("e1:t"), Head(|tid|), tid, Text("1:y1:re"));
  }

  lemma RegroupGetPeers(d: seq<Byte>, id: seq<Byte>, m: seq<Byte>, k: seq<Byte>, h: seq<Byte>, v: seq<Byte>,
                        t: seq<Byte>, th: seq<Byte>, tid: seq<Byte>, y: seq<Byte>)
    ensures (d + id) + m + k + h + v + t + th + tid + y == d + (id + (m + (k + (h + v)))) + t + (th + tid) + y
  {}

  // ---- parsers ----

  /** A 20-byte field, or zeros. */
  function IdOrZero(b: Option<seq<Byte>>): NodeId {
    if b.Some? && |b.value| == 20 then b.value else seq(20, _ => 0)
  }

  function ParseMethod(q: seq<Byte>): Option<QueryMethod> {
    if q == Text("ping") then Some(Ping)
    else if q == Text("find_node") then Some(FindNode)
    else if q == Text("get_peers") then Some(GetPeers)
    else if q == Text("announce_peer") then Some(AnnouncePeer)
    else if q == Text("sample_infohashes") then Some(SampleInfohashes)
    else None
  }

  function OrEmpty(b: Option<seq<Byte>>): seq<Byte> {
    if b.Some? then b.value else []
  }

  datatype Query = Query(tid: seq<Byte>, kind: QueryMethod, infoHash: Option<NodeId>)

  function InfoHashOf(args: Option<seq<Entry>>): Option<NodeId> {
    if args.None? then None
    else
      var ih := AsBytes(Lookup(args.value, Text("info_hash")));
      if ih.Some? && |ih.value| == 20 then Some(ih.value) else None
  }

  /** `parse_query`. */
  function ParseQuery(data: seq<Byte>): Option<Query> {
    var dict := AsDict(FromBytes(data));
    if dict.None? || AsBytes(Lookup(dict.value, Text("y"))) != Some(Text("q")) then None
    else
      var q := AsBytes(Lookup(dict.value, Text("q")));
      if q.None? || ParseMethod(q.value).None? then None
      else
        var tid := OrEmpty(AsBytes(Lookup(dict.value, Text("t"))));
        Some(Query(tid, ParseMethod(q.value).value, InfoHashOf(AsDict(Lookup(dict.value, Text("a"))))))
  }

  datatype AnnounceParams = AnnounceParams(id: NodeId, infoHash: NodeId, port: Port, token: seq<Byte>,
    impliedPort: bool)

  /** `p as u16`. */
  function TruncatePort(p: int): Port {
    p % 0x1_0000
  }

  /** `parse_announce_peer`. */
  function ParseAnnouncePeer(data: seq<Byte>): Option<(seq<Byte>, AnnounceParams)> {
    var dict := AsDict(FromBytes(data));
    if dict.None? || AsBytes(Lookup(dict.value, Text("y"))) != Some(Text("q")) then None
    else if AsBytes(Lookup(dict.value, Text("q"))) != Some(Text("announce_peer")) then None
    else
      var tid := OrEmpty(AsBytes(Lookup(dict.value, Text("t"))));
      var args := AsDict(Lookup(dict.value, Text("a")));
      if args.None? then None
      else
        var port := AsInt(Lookup(args.value, Text("port")));
        var implied := AsInt(Lookup(args.value, Text("implied_port")));
        Some((tid, AnnounceParams(
          IdOrZero(AsBytes(Lookup(args.value, Text("id")))),
          IdOrZero(AsBytes(Lookup(args.value, Text("info_hash")))),
          if port.Some? then TruncatePort(port.value) else 0,
          OrEmpty(AsBytes(Lookup(args.value, Text("token")))),
          implied.Some? && implied.value != 0)))
  }

  /** The first two bytes of a transaction id, or zeros when it is shorter. */
  function ShortTid(t: seq<Byte>): seq<Byte> {
    if |t| >= 2 then t[..2] else [0, 0]
  }

  datatype GetPeersResponse = GetPeersResponse(nodeId: NodeId, token: Option<seq<Byte>>, values: seq<SocketAddr>,
    nodes: seq<DhtNode>)

  /** Every byte string of a list, unpacked and concatenated. */
  function ValuesOf(items: seq<Item>): seq<SocketAddr> {
    if items == [] then []
    else (if items[0].Str? then UnpackPeers(items[0].bytes) else []) + ValuesOf(items[1..])
  }

  /** The response dictionary of a `y = r` message, with its transaction id. */
  function ParseResponse(data: seq<Byte>): Option<(seq<Byte>, seq<Entry>)> {
    var dict := AsDict(FromBytes(data));
    if dict.None? || AsBytes(Lookup(dict.value, Text("y"))) != Some(Text("r")) then None
    else
      var t := AsBytes(Lookup(dict.value, Text("t")));
      var r := AsDict(Lookup(dict.value, Text("r")));
      if t.None? || r.None? then None else Some((ShortTid(t.value), r.value))
  }

  /** `parse_get_peers_response`. */
  function ParseGetPeersResponse(data: seq<Byte>): Option<(seq<Byte>, GetPeersResponse)> {
    match ParseResponse(data)
    case None => None
    case Some((tid, r)) =>
      var values := AsList(Lookup(r, Text("values")));
      Some((tid, GetPeersResponse(
        IdOrZero(AsBytes(Lookup(r, Text("id")))),
        AsBytes(Lookup(r, Text("token"))),
        if values.Some? then ValuesOf(values.value) else [],
        UnpackNodes(OrEmpty(AsBytes(Lookup(r, Text("nodes"))))))))
  }

  /** `parse_find_node_response`: IPv4 nodes first, then IPv6 nodes. */
  function ParseFindNodeResponse(data: seq<Byte>): Option<(seq<Byte>, seq<DhtNode>)> {
    match ParseResponse(data)
    case None => None
    case Some((tid, r)) =>
      Some((tid, UnpackNodes(OrEmpty(AsBytes(Lookup(r, Text("nodes"))))) +
                 UnpackNodes6(OrEmpty(AsBytes(Lookup(r, Text("nodes6")))))))
  }

  // ---- reading back what was built ----

  ghost predicate KeysDistinct(es: seq<Entry>) {
    forall i, j :: 0 <= i < j < |es| ==> es[i].key != es[j].key
  }

  lemma {:induction false} LookupFinds(es: seq<Entry>, i: nat)
    requires KeysDistinct(es) && i < |es|
    ensures Lookup(es, es[i].key) == Some(es[i].item)
  {
    if i < |es| - 1 {
      LookupFinds(es[..|es| - 1], i);
    }
  }

  lemma {:induction false} LookupMisses(es: seq<Entry>, key: seq<Byte>)
    requires forall i :: 0 <= i < |es| ==> es[i].key != key
    ensures Lookup(es, key) == None
  {
    if es == [] {
    } else {
      LookupMisses(es[..|es| - 1], key);
    }
  }

  lemma QueryLookups(args: seq<Entry>, name: seq<Byte>, tid: seq<Byte>)
    ensures var es := QueryItem(args, name, tid).entries;
      Lookup(es, Text("a")) == Some(Dict(args)) && Lookup(es, Text("q")) == Some(Str(name)) &&
      Lookup(es, Text("t")) == Some(Str(tid)) && Lookup(es, Text("y")) == Some(Str(Text("q")))
  {
    var es := QueryItem(args, name, tid).entries;
    assert Text("a")[0] == 97 && Text("q")[0] == 113 && Text("t")[0] == 116 && Text("y")[0] == 121;
    LookupFinds(es, 0);
    LookupFinds(es, 1);
    LookupFinds(es, 2);
    LookupFinds(es, 3);
  }

  lemma ResponseLookups(fields: seq<Entry>, tid: seq<Byte>)
    ensures var es := ResponseItem(fields, tid).entries;
      Lookup(es, Text("r")) == Some(Dict(fields)) && Lookup(es, Text("t")) == Some(Str(tid)) &&
      Lookup(es, Text("y")) == Some(Str(Text("r")))
  {
    var es := ResponseItem(fields, tid).entries;
    assert Text("r")[0] == 114 && Text("t")[0] == 116 && Text("y")[0] == 121;
    LookupFinds(es, 0);
    LookupFinds(es, 1);
    LookupFinds(es, 2);
  }

  lemma ParseMethodOfName(m: QueryMethod)
    ensures ParseMethod(MethodName(m)) == Some(m)
  {
    assert Text("ping")[0] == 112 && Text("find_node")[0] == 102 && Text("get_peers")[0] == 103;
    assert Text("announce_peer")[0] == 97 && Text("sample_infohashes")[0] == 115;
  }

  /** Every query that the encoder writes is read back with its transaction id, its method, and the
      20-byte info_hash argument if there is one. */
  lemma QueryRoundTrip(args: seq<Entry>, m: QueryMethod, tid: seq<Byte>)
    ensures ParseQuery(Encode(QueryItem(args, MethodName(m), tid))) == Some(Query(tid, m, InfoHashOf(Some(args))))
  {
    FromBytesOfEncode(QueryItem(args, MethodName(m), tid));
    QueryLookups(args, MethodName(m), tid);
    ParseMethodOfName(m);
  }

  lemma ResponseRoundTrip(fields: seq<Entry>, tid: seq<Byte>)
    ensures ParseResponse(Encode(ResponseItem(fields, tid))) == Some((ShortTid(tid), fields))
  {
    hide FromBytes, Encode, Lookup;
    FromBytesOfEncode(ResponseItem(fields, tid));
    ResponseLookups(fields, tid);
  }

  /** A response is never taken for a query, nor a query for a response, nor an unknown method for a known one, nor any
      other method for an announce. */
  lemma KindsAreToldApart(fields: seq<Entry>, tid: seq<Byte>, name: seq<Byte>)
    ensures ParseQuery(Encode(ResponseItem(fields, tid))) == None
    ensures ParseAnnouncePeer(Encode(ResponseItem(fields, tid))) == None
    ensures ParseResponse(Encode(QueryItem(fields, name, tid))) == None
    ensures (forall m :: name != MethodName(m)) ==> ParseQuery(Encode(QueryItem(fields, name, tid))) == None
    ensures name != Text("announce_peer") ==> ParseAnnouncePeer(Encode(QueryItem(fields, name, tid))) == None
  {
    FromBytesOfEncode(ResponseItem(fields, tid));
    ResponseLookups(fields, tid);
    FromBytesOfEncode(QueryItem(fields, name, tid));
    QueryLookups(fields, name, tid);
    assert Text("q")[0] == 113 && Text("r")[0] == 114;
    hide FromBytes, Encode, Lookup, Text;
    if forall m :: name != MethodName(m) {
      assert name != MethodName(Ping) && name != MethodName(FindNode) && name != MethodName(GetPeers) &&
        name != MethodName(AnnouncePeer) && name != MethodName(SampleInfohashes);
    }
  }

  lemma GetPeersQueryRoundTrip(tid: seq<Byte>, nodeId: NodeId, infoHash: NodeId)
    ensures ParseQuery(Encode(QueryItem([IdField(nodeId), StrField("info_hash", infoHash)], MethodName(GetPeers), tid)))
         == Some(Query(tid, GetPeers, Some(infoHash)))
  {
    var args := [IdField(nodeId), StrField("info_hash", infoHash)];
    QueryRoundTrip(args, GetPeers, tid);
    assert |Text("id")| == 2 && |Text("info_hash")| == 9;
    LookupFinds(args, 1);
  }

  /** The parameters of every announce built here are recovered. */
  lemma AnnounceRoundTrip(tid: seq<Byte>, nodeId: NodeId, infoHash: NodeId, port: Port, token: seq<Byte>)
    ensures var data := Encode(QueryItem(AnnounceArgs(nodeId, infoHash, port, token), MethodName(AnnouncePeer), tid));
      ParseAnnouncePeer(data) == Some((tid, AnnounceParams(nodeId, infoHash, port, token, false))) &&
      ParseQuery(data) == Some(Query(tid, AnnouncePeer, Some(infoHash)))
  {
    var args := AnnounceArgs(nodeId, infoHash, port, token);
    QueryRoundTrip(args, AnnouncePeer, tid);
    FromBytesOfEncode(QueryItem(args, MethodName(AnnouncePeer), tid));
    QueryLookups(args, MethodName(AnnouncePeer), tid);
    AnnounceLookups(nodeId, infoHash, port, token);
  }

  lemma AnnounceLookups(nodeId: NodeId, infoHash: NodeId, port: Port, token: seq<Byte>)
    ensures var args := AnnounceArgs(nodeId, infoHash, port, token);
      Lookup(args, Text("id")) == Some(Str(nodeId)) && Lookup(args, Text("implied_port")) == Some(Int(0)) &&
      Lookup(args, Text("info_hash")) == Some(Str(infoHash)) && Lookup(args, Text("port")) == Some(Int(port)) &&
      Lookup(args, Text("token")) == Some(Str(token))
  {
    var args := AnnounceArgs(nodeId, infoHash, port, token);
    assert |Text("id")| == 2 && |Text("implied_port")| == 12 && |Text("info_hash")| == 9 && |Text("port")| == 4 &&
      |Text("token")| == 5;
    LookupFinds(args, 0);
    LookupFinds(args, 1);
    LookupFinds(args, 2);
    LookupFinds(args, 3);
    LookupFinds(args, 4);
  }

  ghost predicate HasField(args: seq<Entry>, key: string, item: Item) {
    Entry(Text(key), item) in args
  }

  ghost predicate LacksField(args: seq<Entry>, key: string) {
    forall e :: e in args ==> e.key != Text(key)
  }

  lemma FieldFound(args: seq<Entry>, key: string, item: Item)
    requires KeysDistinct(args) && HasField(args, key, item)
    ensures Lookup(args, Text(key)) == Some(item)
  {
    var i :| 0 <= i < |args| && args[i] == Entry(Text(key), item);
    LookupFinds(args, i);
  }

  lemma FieldMissed(args: seq<Entry>, key: string)
    requires LacksField(args, key)
    ensures Lookup(args, Text(key)) == None
  {
    LookupMisses(args, Text(key));
  }

  /** A field of 20 bytes is an id; anything else there, or nothing, is read as twenty zeros. */
  ghost predicate ReadsAsId(args: seq<Entry>, key: string, id: NodeId) {
    (forall b: NodeId :: HasField(args, key, Str(b)) ==> id == b) &&
    (LacksField(args, key) || (exists x: Item :: HasField(args, key, x) && !(x.Str? && |x.bytes| == 20)) ==>
       forall i :: 0 <= i < 20 ==> id[i] == 0)
  }

  lemma IdRead(args: seq<Entry>, key: string)
    requires KeysDistinct(args)
    ensures ReadsAsId(args, key, IdOrZero(AsBytes(Lookup(args, Text(key)))))
  {
    hide KeysDistinct, HasField, LacksField, Lookup, Text;
    forall x: Item | HasField(args, key, x)
      ensures Lookup(args, Text(key)) == Some(x)
    {
      FieldFound(args, key, x);
    }
    if LacksField(args, key) {
      FieldMissed(args, key);
    }
  }

  /** Whatever the order of its arguments and whatever else is among them, an announce is read as follows: the port
      modulo 2^16, or 0; an implied port when its number is there and not 0; a token or none; ids of 20 bytes or zeros.
      A message with arguments that names its method is always read. */
  lemma AnnounceFieldsRead(tid: seq<Byte>, args: seq<Entry>)
    requires KeysDistinct(args)
    ensures var r := ParseAnnouncePeer(Encode(QueryItem(args, MethodName(AnnouncePeer), tid)));
      r.Some? && r.value.0 == tid && var p := r.value.1;
      (forall n :: HasField(args, "implied_port", Int(n)) ==> p.impliedPort == (n != 0)) &&
      (LacksField(args, "implied_port") ==> !p.impliedPort) &&
      (forall n :: HasField(args, "port", Int(n)) ==> p.port == n % 0x1_0000) &&
      (LacksField(args, "port") ==> p.port == 0) &&
      (forall b :: HasField(args, "token", Str(b)) ==> p.token == b) && (LacksField(args, "token") ==> p.token == []) &&
      ReadsAsId(args, "id", p.id) && ReadsAsId(args, "info_hash", p.infoHash)
  {
    var r := ParseAnnouncePeer(Encode(QueryItem(args, MethodName(AnnouncePeer), tid)));
    FromBytesOfEncode(QueryItem(args, MethodName(AnnouncePeer), tid));
    QueryLookups(args, MethodName(AnnouncePeer), tid);
    IdRead(args, "id");
    IdRead(args, "info_hash");
    hide FromBytes, Encode, Lookup, Text, KeysDistinct, HasField, LacksField, ReadsAsId, IdOrZero;
    forall n | HasField(args, "implied_port", Int(n))
      ensures r.value.1.impliedPort == (n != 0)
    {
      FieldFound(args, "implied_port", Int(n));
    }
    forall n | HasField(args, "port", Int(n))
      ensures r.value.1.port == n % 0x1_0000
    {
      FieldFound(args, "port", Int(n));
    }
    forall b | HasField(args, "token", Str(b))
      ensures r.value.1.token == b
    {
      FieldFound(args, "token", Str(b));
    }
    MissingFields(args);
  }

  lemma MissingFields(args: seq<Entry>)
    ensures LacksField(args, "implied_port") ==> Lookup(args, Text("implied_port")) == None
    ensures LacksField(args, "port") ==> Lookup(args, Text("port")) == None
    ensures LacksField(args, "token") ==> Lookup(args, Text("token")) == None
  {
    hide LacksField, Lookup;
    if LacksField(args, "implied_port") {
      FieldMissed(args, "implied_port");
    }
    if LacksField(args, "port") {
      FieldMissed(args, "port");
    }
    if LacksField(args, "token") {
      FieldMissed(args, "token");
    }
  }

  lemma {:induction false} ValuesOfPeers(peers: seq<SocketAddr>)
    ensures ValuesOf(PeerItems(peers)) == Reachable(peers)
  {
    if peers == [] {
    } else {
      ValuesOfPeers(peers[1..]);
      if IsV4(peers[0]) {
        OnePeer(peers[0]);
        assert PeerItems(peers)[0] == Str(PackV4(peers[0])) && PeerItems(peers)[1..] == PeerItems(peers[1..]);
      } else {
        assert PeerItems(peers) == PeerItems(peers[1..]);
      }
    }
  }

  lemma OnePeer(p: SocketAddr)
    requires IsV4(p)
    ensures UnpackPeers(PackV4(p)) == if p.port != 0 then [p] else []
  {
    ChunksCons(6, PackV4(p), []);
    assert PackV4(p) + [] == PackV4(p);
    UnpackPackV4(p);
    PeersOfCons(PackV4(p), []);
    assert Chunks(6, []) == [];
  }

  /** Whatever its fields and their order, a response is read with the first two bytes of its transaction id, or two
      zeros for a shorter one; a missing token, list of peers or list of nodes is none. */
  lemma ResponseFieldsRead(tid: seq<Byte>, fields: seq<Entry>)
    requires KeysDistinct(fields)
    ensures var r := ParseGetPeersResponse(Encode(ResponseItem(fields, tid)));
      r.Some? && |r.value.0| == 2 && (if |tid| >= 2 then r.value.0 <= tid else r.value.0 == [0, 0]) &&
      var p := r.value.1;
      ReadsAsId(fields, "id", p.nodeId) &&
      (forall b :: HasField(fields, "token", Str(b)) ==> p.token == Some(b)) &&
      (LacksField(fields, "token") ==> p.token == None) && (LacksField(fields, "values") ==> p.values == []) &&
      (LacksField(fields, "nodes") ==> p.nodes == [])
  {
    var r := ParseGetPeersResponse(Encode(ResponseItem(fields, tid)));
    ResponseRoundTrip(fields, tid);
    IdRead(fields, "id");
    assert UnpackNodes([]) == NodesOfRows([]) == [];
    hide ParseResponse, Encode, Lookup, Text, KeysDistinct, HasField, LacksField, ReadsAsId, IdOrZero, UnpackNodes;
    forall b | HasField(fields, "token", Str(b))
      ensures r.value.1.token == Some(b)
    {
      FieldFound(fields, "token", Str(b));
    }
    if LacksField(fields, "token") {
      FieldMissed(fields, "token");
    }
    if LacksField(fields, "values") {
      FieldMissed(fields, "values");
    }
    if LacksField(fields, "nodes") {
      FieldMissed(fields, "nodes");
    }
  }

  /** A `get_peers` reply that carries peers: the id and the token come back, and of the peers the
      IPv4 ones with a nonzero port, in order. A reply that carries nodes: all nodes come back
      exactly when all of them are IPv4. */
  lemma GetPeersResponseRoundTrip(tid: seq<Byte>, nodeId: NodeId, token: seq<Byte>, peers: seq<SocketAddr>,
                                  nodes: seq<DhtNode>)
    ensures var parsed := ParseGetPeersResponse(Encode(ResponseItem(GetPeersFields(nodeId, token, peers, nodes), tid)));
      parsed.Some? && parsed.value.0 == ShortTid(tid) &&
      parsed.value.1.nodeId == nodeId && parsed.value.1.token == Some(token) &&
      parsed.value.1.values == Reachable(peers) &&
      (peers != [] ==> parsed.value.1.nodes == []) &&
      (peers == [] ==> (parsed.value.1.nodes == nodes <==> forall n :: n in nodes ==> IsV4(n.addr)))
  {
    var fields := GetPeersFields(nodeId, token, peers, nodes);
    hide ParseResponse, Encode, Lookup, GetPeersFields;
    ResponseRoundTrip(fields, tid);
    GetPeersLookups(nodeId, token, peers, nodes);
    ValuesOfPeers(peers);
    LooseNodesRoundTrip(nodes);
    assert UnpackNodes([]) == NodesOfRows([]) == [];
  }

  lemma GetPeersLookups(nodeId: NodeId, token: seq<Byte>, peers: seq<SocketAddr>, nodes: seq<DhtNode>)
    ensures var fields := GetPeersFields(nodeId, token, peers, nodes);
      Lookup(fields, Text("id")) == Some(Str(nodeId)) && Lookup(fields, Text("token")) == Some(Str(token)) &&
      Lookup(fields, Text("values")) == (if peers != [] then Some(List(PeerItems(peers))) else None) &&
      Lookup(fields, Text("nodes")) == (if peers != [] then None else Some(Str(PackNodesLoosely(nodes))))
  {
    var fields := GetPeersFields(nodeId, token, peers, nodes);
    assert |Text("id")| == 2 && |Text("token")| == |Text("nodes")| == 5 && |Text("values")| == 6;
    assert Text("token")[0] == 116 && Text("nodes")[0] == 110;
    LookupFinds(fields, 0);
    LookupFinds(fields, 1);
    LookupFinds(fields, 2);
    if peers != [] {
      LookupMisses(fields, Text("nodes"));
    } else {
      LookupMisses(fields, Text("values"));
    }
  }

  lemma NodeLookups(nodeId: NodeId, nodes: seq<DhtNode>)
    ensures var fields := NodeFields(nodeId, nodes);
      Lookup(fields, Text("nodes")) == Some(Str(PackNodes(nodes))) &&
      Lookup(fields, Text("nodes6")) == (if PackNodes6(nodes) == [] then None else Some(Str(PackNodes6(nodes))))
  {
    var fields := NodeFields(nodeId, nodes);
    assert |Text("id")| == 2 && |Text("nodes")| == 5 && |Text("nodes6")| == 6;
    LookupFinds(fields, 1);
    if PackNodes6(nodes) == [] {
      LookupMisses(fields, Text("nodes6"));
    } else {
      LookupFinds(fields, 2);
    }
  }

  /** A `find_node` reply comes back complete, IPv4 nodes before IPv6 nodes, each in order. */
  lemma FindNodeResponseRoundTrip(tid: seq<Byte>, nodeId: NodeId, nodes: seq<DhtNode>)
    ensures ParseFindNodeResponse(Encode(ResponseItem(NodeFields(nodeId, nodes), tid)))
         == Some((ShortTid(tid), OfFamily(true, nodes) + OfFamily(false, nodes)))
  {
    hide ParseResponse, Encode, Lookup, NodeFields;
    ResponseRoundTrip(NodeFields(nodeId, nodes), tid);
    NodesRoundTrip(nodes);
    NodeLookups(nodeId, nodes);
    assert UnpackNodes6([]) == NodesOfRows6([]) == [];
  }

  // ---- infohash samples ----

  function TargetArgs(nodeId: NodeId, target: NodeId): seq<Entry> {
    [IdField(nodeId), StrField("target", target)]
  }

  method BuildSampleInfohashes(tid: seq<Byte>, nodeId: NodeId, target: NodeId) returns (buf: seq<Byte>)
    ensures buf == Encode(QueryItem(TargetArgs(nodeId, target), MethodName(SampleInfohashes), tid))
  {
    buf := Text("d1:ad2:id20:");
    buf := buf + nodeId;
    buf := buf + Text("6:target20:");
    buf := buf + target;
    buf := buf + Text("e1:q17:sample_infohashes1:t");
    buf := buf + Head(|tid|);
    buf := buf + tid;
    buf := buf + Text("1:y1:qe");
    SampleQueryLayout(tid, nodeId, target);
  }

  lemma TargetLiteral(target: NodeId)
    ensures Text("6:target20:") + target == Pair(StrField("target", target))
  {}

  lemma SampleName()
    ensures Text("e1:q17:sample_infohashes1:t") == Text("e1:q") + EncodeStr(Text("sample_infohashes")) + Text("1:t")
  {
    Heads();
    hide Text, EncodeStr, Head;
    Counted("17:", "sample_infohashes", "17:sample_infohashes");
    OpenNameLiteral("17:sample_infohashes", "e1:q17:sample_infohashes1:t", "sample_infohashes");
  }

  lemma SampleQueryLayout(tid: seq<Byte>, nodeId: NodeId, target: NodeId)
    ensures Text("d1:ad2:id20:") + nodeId + Text("6:target20:") + target + Text("e1:q17:sample_infohashes1:t") +
            Head(|tid|) + tid + Text("1:y1:qe")
         == Encode(QueryItem(TargetArgs(nodeId, target), MethodName(SampleInfohashes), tid))
  {
    var args := TargetArgs(nodeId, target);
    IdLiterals(nodeId);
    TargetLiteral(target);
    SampleName();
    TwoEntries(args[0], args[1]);
    QueryShapeIsEncoding(args, Text("sample_infohashes"), tid);
    RegroupSample(Text("d1:ad"), Pair(args[0]), Text("6:target20:"), target, Text("e1:q"),
      EncodeStr(Text("sample_infohashes")),
                  Text("1:t"), Head(|tid|), tid, Text("1:y1:qe"));
  }

  lemma RegroupSample(d: seq<Byte>, p: seq<Byte>, l: seq<Byte>, target: seq<Byte>, q: seq<Byte>, n: seq<Byte>,
                      t: seq<Byte>,
                      h: seq<Byte>, tid: seq<Byte>, y: seq<Byte>)
    ensures (d + p) + l + target + (q + n + t) + h + tid + y == d + (p + (l + target)) + q + n + t + (h + tid) + y
  {}

  function SampleFields(nodeId: NodeId, interval: int, num: int, samples: seq<Byte>): seq<Entry> {
    [IdField(nodeId), Entry(Text("interval"), Int(interval)), Entry(Text("num"), Int(num)),
      StrField("samples", samples)]
  }

  method BuildSampleInfohashesResponse(tid: seq<Byte>, nodeId: NodeId, interval: int, num: int, samples: seq<Byte>)
    returns (buf: seq<Byte>)
    ensures buf == Encode(ResponseItem(SampleFields(nodeId, interval, num, samples), tid))
  {
    buf := Text("d1:rd2:id20:");
    buf := buf + nodeId;
    buf := buf + Text("8:intervali");
    buf := buf + SignedDecimal(interval);
    buf := buf + Text("e3:numi");
    buf := buf + SignedDecimal(num);
    buf := buf + Text("e7:samples");
    buf := buf + Head(|samples|);
    buf := buf + samples;
    buf := buf + Text("e1:t");
    buf := buf + Head(|tid|);
    buf := buf + tid;
    buf := buf + Text("1:y1:re");
    SampleResponseLayout(tid, nodeId, interval, num, samples);
  }

  lemma SampleLiterals()
    ensures Text("8:intervali") == EncodeStr(Text("interval")) + [105]
    ensures Text("e3:numi") == [101] + EncodeStr(Text("num")) + [105]
    ensures Text("e7:samples") == [101] + EncodeStr(Text("samples"))
  {
    Heads();
    assert Text("e") == [101] && Text("i") == [105];
    hide Text, EncodeStr, Head;
    Counted("8:", "interval", "8:interval");
    Joined("8:interval", "i", "8:intervali");
    Counted("3:", "num", "3:num");
    Joined("e", "3:num", "e3:num");
    Joined("e3:num", "i", "e3:numi");
    Counted("7:", "samples", "7:samples");
    Joined("e", "7:samples", "e7:samples");
  }

  lemma SampleResponseLayout(tid: seq<Byte>, nodeId: NodeId, interval: int, num: int, samples: seq<Byte>)
    ensures Text("d1:rd2:id20:") + nodeId + Text("8:intervali") + SignedDecimal(interval) + Text("e3:numi") +
            SignedDecimal(num) + Text("e7:samples") + Head(|samples|) + samples + Text("e1:t") + Head(|tid|) + tid +
              Text("1:y1:re")
         == Encode(ResponseItem(SampleFields(nodeId, interval, num, samples), tid))
  {
    var fields := SampleFields(nodeId, interval, num, samples);
    IdLiterals(nodeId);
    SampleLiterals();
    IntPair("interval", interval);
    IntPair("num", num);
    StrPair("samples", samples);
    FourEntries(fields[0], fields[1], fields[2], fields[3]);
    ResponseShapeIsEncoding(fields, tid);
    RegroupSampleReply(Text("d1:rd"), Pair(fields[0]), EncodeStr(Text("interval")), SignedDecimal(interval),
      EncodeStr(Text("num")),
                       SignedDecimal(num), EncodeStr(Text("samples")), Head(|samples|), samples, Text("e1:t"),
                         Head(|tid|), tid, Text("1:y1:re"));
  }

  lemma RegroupSampleReply(d: seq<Byte>, id: seq<Byte>, i: seq<Byte>, iv: seq<Byte>, n: seq<Byte>, nv: seq<Byte>,
                           s: seq<Byte>,
                           h: seq<Byte>, v: seq<Byte>, t: seq<Byte>, th: seq<Byte>, tid: seq<Byte>, y: seq<Byte>)
    ensures (d + id) + (i + [105]) + iv + ([101] + n + [105]) + nv + ([101] + s) + h + v + t + th + tid + y
         == d + (id + ((i + ([105] + iv + [101])) + ((n + ([105] + nv + [101])) + (s + (h + v))))) + t + (th + tid) + y
  {}

  /** `parse_sample_infohashes_response`; it does not look at the message type. */
  function ParseSampleInfohashesResponse(data: seq<Byte>): Option<(seq<Byte>, int, int, seq<Byte>)> {
    var dict := AsDict(FromBytes(data));
    if dict.None? then None
    else
      var t := AsBytes(Lookup(dict.value, Text("t")));
      var r := AsDict(Lookup(dict.value, Text("r")));
      if t.None? || r.None? then None
      else
        var interval := AsInt(Lookup(r.value, Text("interval")));
        var num := AsInt(Lookup(r.value, Text("num")));
        Some((t.value, if interval.Some? then interval.value else 30, if num.Some? then num.value else 0,
              OrEmpty(AsBytes(Lookup(r.value, Text("samples"))))))
  }

  lemma SampleResponseRoundTrip(tid: seq<Byte>, nodeId: NodeId, interval: int, num: int, samples: seq<Byte>)
    ensures ParseSampleInfohashesResponse(Encode(ResponseItem(SampleFields(nodeId, interval, num, samples), tid)))
         == Some((tid, interval, num, samples))
  {
    var fields := SampleFields(nodeId, interval, num, samples);
    FromBytesOfEncode(ResponseItem(fields, tid));
    ResponseLookups(fields, tid);
    assert |Text("id")| == 2 && |Text("interval")| == 8 && |Text("num")| == 3 && |Text("samples")| == 7;
    LookupFinds(fields, 1);
    LookupFinds(fields, 2);
    LookupFinds(fields, 3);
  }

  /** Whatever the fields and their order, a sample reply is read as they say; without an interval it is 30 seconds,
      without a number 0, without samples there are none. */
  lemma SampleFieldsRead(tid: seq<Byte>, fields: seq<Entry>)
    requires KeysDistinct(fields)
    ensures var r := ParseSampleInfohashesResponse(Encode(ResponseItem(fields, tid)));
      r.Some? && r.value.0 == tid &&
      (forall n :: HasField(fields, "interval", Int(n)) ==> r.value.1 == n) &&
      (LacksField(fields, "interval") ==> r.value.1 == 30) &&
      (forall n :: HasField(fields, "num", Int(n)) ==> r.value.2 == n) &&
      (LacksField(fields, "num") ==> r.value.2 == 0) &&
      (forall b :: HasField(fields, "samples", Str(b)) ==> r.value.3 == b) &&
      (LacksField(fields, "samples") ==> r.value.3 == [])
  {
    var r := ParseSampleInfohashesResponse(Encode(ResponseItem(fields, tid)));
    FromBytesOfEncode(ResponseItem(fields, tid));
    ResponseLookups(fields, tid);
    hide FromBytes, Encode, Lookup, Text, KeysDistinct, HasField, LacksField;
    forall n | HasField(fields, "interval", Int(n))
      ensures r.value.1 == n
    {
      FieldFound(fields, "interval", Int(n));
    }
    forall n | HasField(fields, "num", Int(n))
      ensures r.value.2 == n
    {
      FieldFound(fields, "num", Int(n));
    }
    forall b | HasField(fields, "samples", Str(b))
      ensures r.value.3 == b
    {
      FieldFound(fields, "samples", Str(b));
    }
    if LacksField(fields, "interval") {
      FieldMissed(fields, "interval");
    }
    if LacksField(fields, "num") {
      FieldMissed(fields, "num");
    }
    if LacksField(fields, "samples") {
      FieldMissed(fields, "samples");
    }
  }

  // ---- two builders that do not produce what they intend ----

  /** What is sent is never the query it stands for. */
  method BuildFindNode(tid: seq<Byte>, nodeId: NodeId, target: NodeId) returns (buf: seq<Byte>)
    requires |tid| == 2
    ensures buf == FindNodeBytes(tid, nodeId, target)
    ensures FromBytes(buf) != Some(QueryItem(TargetArgs(nodeId, target), MethodName(FindNode), tid))
  {
    buf := Text("d1:ad2:id20:");
    buf := buf + nodeId;
    buf := buf + Text("9:target20:");
    buf := buf + target;
    buf := buf + Text("e1:q9:find_node1:t2:");
    buf := buf + tid;
    buf := buf + Text("1:y1:qe");
    FindNodeNeverDecodes(tid, nodeId, target);
  }

  function FindNodeBytes(tid: seq<Byte>, nodeId: NodeId, target: NodeId): seq<Byte> {
    Text("d1:ad2:id20:") + nodeId + Text("9:target20:") + target + Text("e1:q9:find_node1:t2:") + tid + Text("1:y1:qe")
  }

  /** The length prefix of `target` is wrong, so for no arguments does the `find_node` query decode
      to the dictionary it stands for. */
  lemma FindNodeNeverDecodes(tid: seq<Byte>, nodeId: NodeId, target: NodeId)
    ensures FromBytes(FindNodeBytes(tid, nodeId, target))
         != Some(QueryItem(TargetArgs(nodeId, target), MethodName(FindNode), tid))
  {
    var bytes := FindNodeBytes(tid, nodeId, target);
    var intended := QueryItem(TargetArgs(nodeId, target), MethodName(FindNode), tid);
    DecodeSound(bytes);
    IntendedByte(tid, nodeId, target);
    assert Text("9:target20:")[0] == 57;
    assert bytes[32] == 57;
  }

  lemma IntendedByte(tid: seq<Byte>, nodeId: NodeId, target: NodeId)
    ensures var e := Encode(QueryItem(TargetArgs(nodeId, target), MethodName(FindNode), tid));
      |e| > 32 && e[32] == 54
  {
    var args := TargetArgs(nodeId, target);
    IdLiterals(nodeId);
    TargetLiteral(target);
    TwoEntries(args[0], args[1]);
    QueryShapeIsEncoding(args, MethodName(FindNode), tid);
    assert Text("6:target20:")[0] == 54;
    var front := Text("d1:ad") + Pair(args[0]);
    assert front == Text("d1:ad2:id20:") + nodeId && |front| == 32;
    assert Text("d1:ad") + EncodeEntries(args) == front + Pair(args[1]);
  }

  method BuildGetPeersResponse(tid: seq<Byte>, nodeId: NodeId, token: seq<Byte>) returns (buf: seq<Byte>)
    ensures buf == Encode(ClosedEarly(nodeId, token)) + (Text("1:t") + EncodeStr(tid) + Text("1:y1:re"))
  {
    buf := Text("d1:rd2:id20:");
    buf := buf + nodeId;
    buf := buf + Text("5:nodes0:e5:token");
    buf := buf + Head(|token|);
    buf := buf + token;
    buf := buf + Text("e1:t");
    buf := buf + Head(|tid|);
    buf := buf + tid;
    buf := buf + Text("1:y1:re");
    ClosedEarlyLayout(tid, nodeId, token);
  }

  /** The dictionary that comes out: the token beside the response, and the message closed before
      its transaction id and type. */
  function ClosedEarly(nodeId: NodeId, token: seq<Byte>): Item {
    Dict([Entry(Text("r"), Dict([IdField(nodeId), StrField("nodes", [])])), StrField("token", token)])
  }

  lemma ClosedEarlyLiteral()
    ensures Text("5:nodes0:e5:token") == Pair(StrField("nodes", [])) + [101] + EncodeStr(Text("token"))
  {}

  lemma ClosedEarlyLayout(tid: seq<Byte>, nodeId: NodeId, token: seq<Byte>)
    ensures Text("d1:rd2:id20:") + nodeId + Text("5:nodes0:e5:token") + Head(|token|) + token + Text("e1:t") +
            Head(|tid|) + tid + Text("1:y1:re")
         == Encode(ClosedEarly(nodeId, token)) + (Text("1:t") + EncodeStr(tid) + Text("1:y1:re"))
  {
    var id, nodes := IdField(nodeId), StrField("nodes", []);
    var r := Entry(Text("r"), Dict([id, nodes]));
    IdLiterals(nodeId);
    ClosedEarlyLiteral();
    ResponseLiterals();
    TwoEntries(id, nodes);
    TwoEntries(r, StrField("token", token));
    StrPair("token", token);
    Joined("e", "1:t", "e1:t");
    assert Text("e") == [101];
    RegroupClosedEarly(EncodeStr(Text("r")), Pair(id), Pair(nodes), EncodeStr(Text("token")), Head(|token|), token,
                       Text("1:t"), Head(|tid|), tid, Text("1:y1:re"));
  }

  lemma RegroupClosedEarly(r: seq<Byte>, id: seq<Byte>, n: seq<Byte>, k: seq<Byte>, h: seq<Byte>, v: seq<Byte>,
                           t: seq<Byte>, th: seq<Byte>, tid: seq<Byte>, y: seq<Byte>)
    ensures ([100] + r + [100] + id) + (n + [101] + k) + h + v + ([101] + t) + th + tid + y
         == ([100] + ((r + ([100] + (id + n) + [101])) + (k + (h + v))) + [101]) + (t + (th + tid) + y)
  {}

  /** No parser of this program reads such a reply back. */
  lemma GetPeersResponseUnreadable(tid: seq<Byte>, nodeId: NodeId, token: seq<Byte>)
    ensures ParseGetPeersResponse(Encode(ClosedEarly(nodeId, token)) +
      (Text("1:t") + EncodeStr(tid) + Text("1:y1:re"))) == None
  {
    var tail := Text("1:t") + EncodeStr(tid) + Text("1:y1:re");
    RoundTrip(ClosedEarly(nodeId, token), tail);
    assert |Text("r")| == |Text("y")| == 1 && |Text("token")| == 5;
    assert Text("r")[0] == 114 && Text("y")[0] == 121;
    LookupMisses(ClosedEarly(nodeId, token).entries, Text("y"));
  }
}
