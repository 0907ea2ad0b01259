/** What filters say about the bytes of a packet, with the numbers of the protocols written out. */
module Wire {
  import opened Bits
  import opened Bpf
  import opened FilterAst
  import opened Vm
  import opened Semantics
  import opened Layout

  // ----- numbers in packets -----

  /** The number that bytes in network order stand for. */
  function Number(bytes: seq<u8>): nat {
    if bytes == [] then 0 else Number(bytes[..|bytes| - 1]) * 0x100 + bytes[|bytes| - 1]
  }

  /** The number in `n` bytes from `offset` on; zero unless the packet holds all of them. */
  function Field(p: Packet, offset: nat, n: nat): nat {
    if offset + n <= |p| then Number(p[offset..offset + n]) else 0
  }

  lemma NumberAdd(front: seq<u8>, last: u8)
    ensures Number(front + [last]) == Number(front) * 0x100 + last
  {
    assert (front + [last])[..|front|] == front;
  }

  lemma NumberTwo(a: u8, b: u8)
    ensures Number([a]) == a && Number([a, b]) == 0x100 * (a as int) + b
  {
    NumberAdd([], a);
    NumberAdd([a], b);
    assert [] + [a] == [a] && [a] + [b] == [a, b];
  }

  lemma NumberFour(front: seq<u8>, a: u8, b: u8, c: u8, d: u8)
    ensures Number(front + [a, b, c, d]) ==
            Number(front) * 0x1_0000_0000 + 0x100_0000 * (a as int) + 0x1_0000 * (b as int) + 0x100 * (c as int) + d
  {
    hide Number;
    NumberAdd(front, a);
    NumberAdd(front + [a], b);
    NumberAdd(front + [a] + [b], c);
    NumberAdd(front + [a] + [b] + [c], d);
    assert front + [a] + [b] + [c] + [d] == front + [a, b, c, d];
  }

  lemma NumberOfNone()
    ensures Number([]) == 0
  {
  }

  /** The machine's loads are the numbers in the packet. */
  lemma ReadsAreFields(p: Packet, offset: nat)
    ensures Read8(p, offset) == Field(p, offset, 1)
    ensures Read16(p, offset) == Field(p, offset, 2)
    ensures Read32(p, offset) == Field(p, offset, 4)
  {
    hide Number;
    if offset + 1 <= |p| {
      assert p[offset..offset + 1] == [p[offset]];
      NumberTwo(p[offset], 0);
    }
    if offset + 2 <= |p| {
      assert p[offset..offset + 2] == [p[offset], p[offset + 1]];
      NumberTwo(p[offset], p[offset + 1]);
    }
    if offset + 4 <= |p| {
      assert p[offset..offset + 4] == [] + [p[offset], p[offset + 1], p[offset + 2], p[offset + 3]];
      NumberFour([], p[offset], p[offset + 1], p[offset + 2], p[offset + 3]);
      NumberOfNone();
    }
  }

  lemma NumberWord(front: seq<u8>, p: Packet, offset: nat)
    requires offset + 4 <= |p|
    ensures Number(front + p[offset..offset + 4]) == Number(front) * 0x1_0000_0000 + Read32(p, offset)
  {
    hide Number;
    assert p[offset..offset + 4] == [p[offset], p[offset + 1], p[offset + 2], p[offset + 3]];
    NumberFour(front, p[offset], p[offset + 1], p[offset + 2], p[offset + 3]);
  }

  /** The sixteen bytes of an IPv6 address are its number. */
  lemma AddressIsField(p: Packet, offset: nat)
    requires offset + 16 <= |p|
    ensures Address6(p, offset) == Number(p[offset..offset + 16])
  {
    hide Number, Read32;
    NumberOfNone();
    NumberWord([], p, offset);
    assert [] + p[offset..offset + 4] == p[offset..offset + 4];
    NumberWord(p[offset..offset + 4], p, offset + 4);
    assert p[offset..offset + 4] + p[offset + 4..offset + 8] == p[offset..offset + 8];
    NumberWord(p[offset..offset + 8], p, offset + 8);
    assert p[offset..offset + 8] + p[offset + 8..offset + 12] == p[offset..offset + 12];
    NumberWord(p[offset..offset + 12], p, offset + 12);
    assert p[offset..offset + 12] + p[offset + 12..offset + 16] == p[offset..offset + 16];
  }

  // ----- Ethernet addresses -----

  /** The six bytes at `offset` are `mac`; a half that the packet does not hold reads as zeros, the first
      half being four bytes long and the second two. */
  predicate OctetsAre(p: Packet, offset: nat, mac: Mac) {
    if offset + 6 <= |p| then p[offset..offset + 6] == mac
    else if offset + 4 <= |p| then p[offset..offset + 4] == mac[..4] && mac[4] == 0 && mac[5] == 0
    else mac == [0, 0, 0, 0, 0, 0]
  }

  lemma MacOnBytes(p: Packet, offset: nat, mac: Mac)
    ensures MacIs(p, offset, mac) <==> OctetsAre(p, offset, mac)
    ensures offset + 6 <= |p| ==> (MacIs(p, offset, mac) <==> p[offset..offset + 6] == mac)
  {
    hide BigEndian16, BigEndian32;
    var z: seq<u8> := [0, 0, 0, 0, 0, 0];
    ZeroWords();
    if offset + 4 <= |p| {
      Word32(p[offset..offset + 4], mac[..4]);
    } else {
      Word32(z[..4], mac[..4]);
    }
    if offset + 6 <= |p| {
      Word16(p[offset + 4..offset + 6], mac[4..]);
      assert p[offset..offset + 6] == p[offset..offset + 4] + p[offset + 4..offset + 6];
    } else {
      Word16(z[4..], mac[4..]);
    }
    assert mac == mac[..4] + mac[4..];
  }

  lemma ZeroWords()
    ensures BigEndian16(0, 0) == 0 && BigEndian32(0, 0, 0, 0) == 0
  {
  }

  lemma Word16(x: seq<u8>, y: seq<u8>)
    requires |x| == |y| == 2
    ensures BigEndian16(x[0], x[1]) == BigEndian16(y[0], y[1]) <==> x == y
  {
    assert x == y <==> x[0] == y[0] && x[1] == y[1];
  }

  lemma Word32(x: seq<u8>, y: seq<u8>)
    requires |x| == |y| == 4
    ensures BigEndian32(x[0], x[1], x[2], x[3]) == BigEndian32(y[0], y[1], y[2], y[3]) <==> x == y
  {
    assert x == y <==> x[0] == y[0] && x[1] == y[1] && x[2] == y[2] && x[3] == y[3];
  }

  /** `ether host`: the destination stands first in a frame. */
  lemma EtherHostOnBytes(mac: Mac, p: Packet)
    ensures Matches(EtherHost(mac, Src), p) <==> OctetsAre(p, 6, mac)
    ensures Matches(EtherHost(mac, Dst), p) <==> OctetsAre(p, 0, mac)
    ensures Matches(EtherHost(mac, Any), p) <==> OctetsAre(p, 6, mac) || OctetsAre(p, 0, mac)
    ensures |p| >= 12 ==> (Matches(EtherHost(mac, Src), p) <==> p[6..12] == mac) &&
                          (Matches(EtherHost(mac, Dst), p) <==> p[0..6] == mac) &&
                          (Matches(EtherHost(mac, Any), p) <==> p[6..12] == mac || p[0..6] == mac)
  {
    hide MacIs;
    MacOnBytes(p, 0, mac);
    MacOnBytes(p, 6, mac);
  }

  // ----- protocols -----

  predicate EtherTypeIs(p: Packet, high: u8, low: u8) { |p| >= 14 && p[12] == high && p[13] == low }

  predicate V4(p: Packet) { EtherTypeIs(p, 0x08, 0x00) }

  predicate V6(p: Packet) { EtherTypeIs(p, 0x86, 0xdd) }

  /** The protocol byte of either IP version is `proto`. */
  predicate Carries(p: Packet, proto: u8) {
    (V4(p) && |p| >= 24 && p[23] == proto) || (V6(p) && |p| >= 21 && p[20] == proto)
  }

  lemma VersionOnBytes(p: Packet)
    ensures IsIpv4(p) <==> V4(p)
    ensures IsIpv6(p) <==> V6(p)
    ensures EtherType(p) == ETHERTYPE_ARP <==> EtherTypeIs(p, 0x08, 0x06)
    ensures EtherType(p) == ETHERTYPE_RARP <==> EtherTypeIs(p, 0x80, 0x35)
  {
  }

  /** Every protocol by its ethertype and protocol number, on packets of any length. */
  lemma ProtocolsOnBytes(p: Packet)
    ensures Matches(Proto(Ip), p) <==> |p| >= 14 && p[12] == 0x08 && p[13] == 0x00
    ensures Matches(Proto(Ip6), p) <==> |p| >= 14 && p[12] == 0x86 && p[13] == 0xdd
    ensures Matches(Proto(Arp), p) <==> |p| >= 14 && p[12] == 0x08 && p[13] == 0x06
    ensures Matches(Proto(Rarp), p) <==> |p| >= 14 && p[12] == 0x80 && p[13] == 0x35
    ensures Matches(Proto(Tcp), p) <==> Carries(p, 6)
    ensures Matches(Proto(Udp), p) <==> Carries(p, 17)
    ensures Matches(Proto(Icmp), p) <==> V4(p) && |p| >= 24 && p[23] == 1
    ensures Matches(Proto(Icmp6), p) <==> V6(p) && |p| >= 21 && p[20] == 58
  {
    hide EtherType, IsIpv4, IsIpv6;
    VersionOnBytes(p);
    EtherTypes(p);
  }

  lemma EtherTypes(p: Packet)
    ensures Matches(Proto(Arp), p) <==> EtherTypeIs(p, 0x08, 0x06)
    ensures Matches(Proto(Rarp), p) <==> EtherTypeIs(p, 0x80, 0x35)
  {
    VersionOnBytes(p);
  }

  // ----- addresses and networks -----

  /** `host` and `net` over IPv4, on packets of any length. */
  lemma Ipv4OnBytes(a: u32, mask: u32, p: Packet)
    ensures Matches(Host(HostV4(a), Src), p) <==> V4(p) && Field(p, 26, 4) == a
    ensures Matches(Host(HostV4(a), Dst), p) <==> V4(p) && Field(p, 30, 4) == a
    ensures Matches(Host(HostV4(a), Any), p) <==> V4(p) && (Field(p, 26, 4) == a || Field(p, 30, 4) == a)
    ensures Matches(Ast.Net(NetV4(a, mask), Src), p) <==> V4(p) && Bits.And(Field(p, 26, 4), mask) == Bits.And(a, mask)
    ensures Matches(Ast.Net(NetV4(a, mask), Dst), p) <==> V4(p) && Bits.And(Field(p, 30, 4), mask) == Bits.And(a, mask)
    ensures Matches(Ast.Net(NetV4(a, mask), Any), p) <==>
            V4(p) && (Bits.And(Field(p, 26, 4), mask) == Bits.And(a, mask) ||
                      Bits.And(Field(p, 30, 4), mask) == Bits.And(a, mask))
  {
    hide Bits.And, Field, Read32, IsIpv4;
    VersionOnBytes(p);
    ReadsAreFields(p, 26);
    ReadsAreFields(p, 30);
  }

  /** The number in sixteen bytes; a 32-bit word that the packet does not hold counts as zero. */
  function Field16(p: Packet, offset: nat): nat {
    if offset + 16 <= |p| then Number(p[offset..offset + 16])
    else Field(p, offset, 4) * 0x1_0000_0000_0000_0000_0000_0000 + Field(p, offset + 4, 4) * 0x1_0000_0000_0000_0000 +
         Field(p, offset + 8, 4) * 0x1_0000_0000 + Field(p, offset + 12, 4)
  }

  lemma AddressOnBytes(p: Packet, offset: nat)
    ensures Address6(p, offset) == Field16(p, offset)
  {
    hide Number, Field, Read32;
    if offset + 16 <= |p| {
      AddressIsField(p, offset);
    } else {
      ReadsAreFields(p, offset);
      ReadsAreFields(p, offset + 4);
      ReadsAreFields(p, offset + 8);
      ReadsAreFields(p, offset + 12);
    }
  }

  /** `host` and `net` over IPv6, on packets of any length. */
  lemma Ipv6OnBytes(a: u128, mask: u128, p: Packet)
    ensures var src, dst := Field16(p, 22), Field16(p, 38);
            (Matches(Host(HostV6(a), Src), p) <==> V6(p) && src == a) &&
            (Matches(Host(HostV6(a), Dst), p) <==> V6(p) && dst == a) &&
            (Matches(Host(HostV6(a), Any), p) <==> V6(p) && (src == a || dst == a)) &&
            (Matches(Ast.Net(NetV6(a, mask), Src), p) <==> V6(p) && Bits.And(src, mask) == a) &&
            (Matches(Ast.Net(NetV6(a, mask), Dst), p) <==> V6(p) && Bits.And(dst, mask) == a) &&
            (Matches(Ast.Net(NetV6(a, mask), Any), p) <==>
             V6(p) && (Bits.And(src, mask) == a || Bits.And(dst, mask) == a))
  {
    hide Bits.And, Field16, Address6, IsIpv6;
    VersionOnBytes(p);
    AddressOnBytes(p, 22);
    AddressOnBytes(p, 38);
  }

  // ----- ports and lengths -----

  predicate Ported(p: Packet) { Carries(p, 6) || Carries(p, 17) }

  /** Where the ports of a packet over TCP or UDP stand. */
  function PortsAt(p: Packet): nat
    requires Ported(p)
  {
    if V4(p) then 14 + 4 * (p[14] % 16) else 54
  }

  lemma PortsOnBytes(p: Packet)
    ensures HasPorts(p) <==> Ported(p)
    ensures HasPorts(p) ==> SourcePort(p) == Field(p, PortsAt(p), 2)
    ensures HasPorts(p) ==> DestinationPort(p) == Field(p, PortsAt(p) + 2, 2)
  {
    hide Field, Read16, EtherType, IsIpv4, IsIpv6;
    VersionOnBytes(p);
    if Ported(p) {
      ReadsAreFields(p, PortsAt(p));
      ReadsAreFields(p, PortsAt(p) + 2);
    }
  }

  /** `port` and `portrange`, on packets of any length. */
  lemma PortFiltersOnBytes(n: u16, lo: u16, hi: u16, p: Packet)
    ensures !Ported(p) ==> forall dir :: !Matches(Port(n, dir), p) && !Matches(PortRange(lo, hi, dir), p)
    ensures Ported(p) ==>
              var src, dst := Field(p, PortsAt(p), 2), Field(p, PortsAt(p) + 2, 2);
              (Matches(Port(n, Src), p) <==> src == n) && (Matches(Port(n, Dst), p) <==> dst == n) &&
              (Matches(Port(n, Any), p) <==> src == n || dst == n) &&
              (Matches(PortRange(lo, hi, Src), p) <==> lo <= src <= hi) &&
              (Matches(PortRange(lo, hi, Dst), p) <==> lo <= dst <= hi) &&
              (Matches(PortRange(lo, hi, Any), p) <==> lo <= src && (src <= hi || lo <= dst <= hi))
  {
    hide Field, HasPorts, Ported, SourcePort, DestinationPort, PortsAt;
    PortsOnBytes(p);
  }

  lemma LengthsOnBytes(n: u32, p: Packet)
    ensures var size := |p| % 0x1_0000_0000;
            (Matches(Len(Eq, n), p) <==> size == n) && (Matches(Len(Ne, n), p) <==> size != n) &&
            (Matches(Len(Gt, n), p) <==> size > n) && (Matches(Len(Ge, n), p) <==> size >= n) &&
            (Matches(Len(Lt, n), p) <==> size < n) && (Matches(Len(Le, n), p) <==> size <= n)
  {
  }

  // ----- a program, number by number -----

  /** The program of `ip`, as it is handed to the kernel. */
  lemma IpProgram()
    ensures Assemble(Program(Proto(Ip))) ==
            Assembly.Ok([Instruction(0x28, 0, 0, 12), Instruction(0x15, 0, 1, 0x0800),
                         Instruction(0x06, 0, 0, 0xFFFF), Instruction(0x06, 0, 0, 0)])
  {
    BuildersAreLiteral(12);
    BuildersAreLiteral(0x0800);
    BuildersAreLiteral(0xFFFF);
    BuildersAreLiteral(0);
    var c := Program(Proto(Ip));
    assert c == [Plain(LdAbsH(12)), Branch(Jeq(0x0800), 2, 3), Plain(RetK(0xFFFF)), Plain(RetK(0))];
    assert Encodable(c, 0);
    var e := EncodeAll(c, 0);
    assert e[0] == Encode(c[0], 0 + 0) && e[1] == Encode(c[1], 0 + 1);
    assert e[2] == Encode(c[2], 0 + 2) && e[3] == Encode(c[3], 0 + 3);
  }
}
