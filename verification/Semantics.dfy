/** What a filter says about a packet, stated on header fields and without any reference to code. */
module Semantics {
  import opened Bits
  import opened FilterAst
  import opened Vm

  // ----- header fields of Ethernet, IPv4 (section 3.1 of RFC 791) and IPv6 (section 3 of RFC 8200) -----

  function EtherType(packet: Packet): u16 { Read16(packet, 12) }

  predicate IsIpv4(packet: Packet) { EtherType(packet) == ETHERTYPE_IP }

  predicate IsIpv6(packet: Packet) { EtherType(packet) == ETHERTYPE_IPV6 }

  function Ipv4Protocol(packet: Packet): u8 { Read8(packet, 23) }

  function Ipv4Source(packet: Packet): u32 { Read32(packet, 26) }

  function Ipv4Destination(packet: Packet): u32 { Read32(packet, 30) }

  /** Bytes in the IPv4 header: four times the IHL field. */
  function Ipv4HeaderLength(packet: Packet): nat { 4 * (Read8(packet, 14) % 16) }

  function NextHeader(packet: Packet): u8 { Read8(packet, 20) }

  /** The 128-bit number whose four words stand at `offset`. */
  function Address6(packet: Packet, offset: nat): u128 {
    Join(Read32(packet, offset), Read32(packet, offset + 4), Read32(packet, offset + 8), Read32(packet, offset + 12))
  }

  function Join(w0: u32, w1: u32, w2: u32, w3: u32): u128 {
    (((w0 as int) * 0x1_0000_0000 + w1) * 0x1_0000_0000 + w2) * 0x1_0000_0000 + w3
  }

  function Ipv6Source(packet: Packet): u128 { Address6(packet, 22) }

  function Ipv6Destination(packet: Packet): u128 { Address6(packet, 38) }

  predicate TransportIsPorted(proto: u8) { proto == IPPROTO_TCP || proto == IPPROTO_UDP }

  /** Where the transport header starts. Neither the IHL value nor the fragment offset is checked. */
  function TransportOffset(packet: Packet): nat {
    if IsIpv4(packet) then 14 + Ipv4HeaderLength(packet) else 54
  }

  /** The packet is TCP or UDP over one of the two IP versions, so its port fields are looked at. */
  predicate HasPorts(packet: Packet) {
    (IsIpv4(packet) && TransportIsPorted(Ipv4Protocol(packet))) ||
    (IsIpv6(packet) && TransportIsPorted(NextHeader(packet)))
  }

  function SourcePort(packet: Packet): u16 { Read16(packet, TransportOffset(packet)) }

  function DestinationPort(packet: Packet): u16 { Read16(packet, TransportOffset(packet) + 2) }

  predicate MacIs(packet: Packet, offset: nat, mac: Mac) {
    Read32(packet, offset) == MacHigh(mac) && Read16(packet, offset + 4) == MacLow(mac)
  }

  /** The test applied to the side the direction selects, or to either side. */
  predicate Selected(dir: Direction, src: bool, dst: bool) {
    match dir
    case Any => src || dst
    case Src => src
    case Dst => dst
  }

  predicate Between(lo: int, x: int, hi: int) { lo <= x <= hi }

  predicate Compare(op: RelOp, x: u32, y: u32) {
    match op
    case Eq => x == y
    case Ne => x != y
    case Gt => x > y
    case Ge => x >= y
    case Lt => x < y
    case Le => x <= y
  }

  // ----- filters -----

  predicate ProtoMatches(proto: Protocol, packet: Packet) {
    match proto
    case Ip => IsIpv4(packet)
    case Ip6 => IsIpv6(packet)
    case Arp => EtherType(packet) == ETHERTYPE_ARP
    case Rarp => EtherType(packet) == ETHERTYPE_RARP
    case Tcp => TransportIs(packet, IPPROTO_TCP)
    case Udp => TransportIs(packet, IPPROTO_UDP)
    case Icmp => IsIpv4(packet) && Ipv4Protocol(packet) == IPPROTO_ICMP
    case Icmp6 => IsIpv6(packet) && NextHeader(packet) == IPPROTO_ICMPV6
  }

  predicate TransportIs(packet: Packet, proto: u8) {
    (IsIpv4(packet) && Ipv4Protocol(packet) == proto) || (IsIpv6(packet) && NextHeader(packet) == proto)
  }

  predicate HostMatches(host: HostAddr, dir: Direction, packet: Packet) {
    match host
    case HostV4(v4) => IsIpv4(packet) && Selected(dir, Ipv4Source(packet) == v4, Ipv4Destination(packet) == v4)
    case HostV6(v6) => IsIpv6(packet) && Selected(dir, Ipv6Source(packet) == v6, Ipv6Destination(packet) == v6)
  }

  /** IPv4 masks both sides; IPv6 masks only the packet's address. */
  predicate NetMatches(net: NetAddr, dir: Direction, packet: Packet) {
    match net
    case NetV4(addr, mask) =>
      IsIpv4(packet) && Selected(dir, Bits.And(Ipv4Source(packet), mask) == Bits.And(addr, mask),
                                 Bits.And(Ipv4Destination(packet), mask) == Bits.And(addr, mask))
    case NetV6(addr, mask) =>
      IsIpv6(packet) && Selected(dir, Bits.And(Ipv6Source(packet), mask) == addr,
                                 Bits.And(Ipv6Destination(packet), mask) == addr)
  }

  /** An undirected range gives up on a source port below `lo` without looking at the destination. */
  predicate RangeSelected(dir: Direction, lo: int, src: int, dst: int, hi: int) {
    match dir
    case Any => src >= lo && (src <= hi || Between(lo, dst, hi))
    case Src => Between(lo, src, hi)
    case Dst => Between(lo, dst, hi)
  }

  predicate RangeMatches(lo: u16, hi: u16, dir: Direction, packet: Packet) {
    RangeSelected(dir, lo, SourcePort(packet), DestinationPort(packet), hi)
  }

  /** The exact meaning of a filter. */
  predicate Matches(ast: Ast, packet: Packet) {
    match ast
    case Proto(proto) => ProtoMatches(proto, packet)
    case Host(host, dir) => HostMatches(host, dir, packet)
    case Port(port, dir) => HasPorts(packet) && Selected(dir, SourcePort(packet) == port,
                                                         DestinationPort(packet) == port)
    case PortRange(lo, hi, dir) => HasPorts(packet) && RangeMatches(lo, hi, dir, packet)
    case EtherHost(mac, dir) => Selected(dir, MacIs(packet, 6, mac), MacIs(packet, 0, mac))
    case Net(net, dir) => NetMatches(net, dir, packet)
    case Len(op, len) => Compare(op, |packet| % 0x1_0000_0000, len)
    case And(l, r) => Matches(l, packet) && Matches(r, packet)
    case Or(l, r) => Matches(l, packet) || Matches(r, packet)
    case Not(x) => !Matches(x, packet)
  }
}
