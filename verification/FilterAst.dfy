/** The abstract syntax of filter expressions and the protocol numbers they refer to. */
module FilterAst {
  import opened Bits

  const ETHERTYPE_IP: u16 := 0x0800
  const ETHERTYPE_ARP: u16 := 0x0806
  const ETHERTYPE_RARP: u16 := 0x8035
  const ETHERTYPE_IPV6: u16 := 0x86dd

  const IPPROTO_ICMP: u8 := 1
  const IPPROTO_TCP: u8 := 6
  const IPPROTO_UDP: u8 := 17
  const IPPROTO_ICMPV6: u8 := 58

  datatype Protocol = Ip | Ip6 | Tcp | Udp | Icmp | Icmp6 | Arp | Rarp

  datatype RelOp = Eq | Ne | Gt | Ge | Lt | Le

  datatype Direction = Any | Src | Dst

  /** An IPv4 address is its 32-bit number, an IPv6 address its 128-bit number. */
  datatype HostAddr = HostV4(v4: u32) | HostV6(v6: u128)

  datatype NetAddr = NetV4(addr4: u32, mask4: u32) | NetV6(addr6: u128, mask6: u128)

  type Mac = m: seq<u8> | |m| == 6 witness [0, 0, 0, 0, 0, 0]

  datatype Ast =
    | Proto(proto: Protocol)
    | Host(host: HostAddr, dir: Direction)
    | Port(port: u16, dir: Direction)
    | PortRange(start: u16, end: u16, dir: Direction)
    | EtherHost(mac: Mac, dir: Direction)
    | Net(net: NetAddr, dir: Direction)
    | Len(op: RelOp, len: u32)
    | And(left: Ast, right: Ast)
    | Or(left: Ast, right: Ast)
    | Not(inner: Ast)
  {
    predicate Leaf() { !And? && !Or? && !Not? }
  }

  /** The octets of an IPv6 address in network order. */
  function Octets(addr: u128): (o: seq<u8>)
    ensures |o| == 16
  {
    seq(16, i requires 0 <= i < 16 => (((addr as int) / Pow2(8 * (15 - i))) % 0x100) as u8)
  }

  /** The four big-endian 32-bit words of an IPv6 address. */
  function Ipv6Words(addr: u128): (w: seq<u32>)
    ensures |w| == 4
  {
    var o := Octets(addr);
    seq(4, j requires 0 <= j < 4 => BigEndian32(o[4 * j], o[4 * j + 1], o[4 * j + 2], o[4 * j + 3]))
  }

  function MacHigh(mac: Mac): u32 { BigEndian32(mac[0], mac[1], mac[2], mac[3]) }

  function MacLow(mac: Mac): u16 { BigEndian16(mac[4], mac[5]) }
}
