/** Socket addresses and their packed form (`CompactAddr`). */
module Addresses {
  import opened Bytes

  type Octets4 = s: seq<Byte> | |s| == 4 witness [0, 0, 0, 0]
  type Octets16 = s: seq<Byte> | |s| == 16 witness seq(16, _ => 0)
  type Packed6 = s: seq<Byte> | |s| == 6 witness seq(6, _ => 0)
  type Packed18 = s: seq<Byte> | |s| == 18 witness seq(18, _ => 0)

  datatype IpAddr = IpV4(octets: Octets4) | IpV6(octets6: Octets16)
  datatype SocketAddr = SocketAddr(ip: IpAddr, port: Port)

  /** IP bytes followed by the big-endian port. */
  datatype CompactAddr = V4(buf: Packed6) | V6(buf6: Packed18)
  {
    function Ip(): IpAddr {
      match this
      case V4(b) => IpV4(b[..4])
      case V6(b) => IpV6(b[..16])
    }

    function ToSocket(): SocketAddr {
      match this
      case V4(b) => SocketAddr(IpV4(b[..4]), PortOf(b[4], b[5]))
      case V6(b) => SocketAddr(IpV6(b[..16]), PortOf(b[16], b[17]))
    }
  }

  function PortOf(hi: Byte, lo: Byte): Port {
    hi * 256 + lo
  }

  function PortBytes(p: Port): (s: seq<Byte>)
    ensures |s| == 2 && PortOf(s[0], s[1]) == p
  {
    [p / 256, p % 256]
  }

  function FromSocket(a: SocketAddr): CompactAddr {
    match a.ip
    case IpV4(o) => V4(o + PortBytes(a.port))
    case IpV6(o) => V6(o + PortBytes(a.port))
  }

  /** Packing is a bijection: every socket address survives it, and every packed
      address is the packing of exactly the socket address it unpacks to. */
  lemma PackingIsABijection(a: SocketAddr, c: CompactAddr)
    ensures FromSocket(a).ToSocket() == a
    ensures FromSocket(c.ToSocket()) == c
    ensures FromSocket(a).Ip() == a.ip
    ensures c.Ip() == c.ToSocket().ip
  {}
}
