/** What filters are meant to say, and exactly where their exact meaning differs from it. */
module Intent {
  import opened Common
  import opened Bits
  import opened FilterAst
  import opened Vm
  import opened Semantics
  import opened NetMask
  import opened Addresses

  /** A port range holds if the selected port, or undirected either port, lies in it. */
  predicate RangeMeans(lo: u16, hi: u16, dir: Direction, packet: Packet) {
    Selected(dir, Between(lo, SourcePort(packet), hi), Between(lo, DestinationPort(packet), hi))
  }

  /** A network holds if the selected address agrees with the given one under the mask. */
  predicate NetMeans(net: NetAddr, dir: Direction, packet: Packet) {
    match net
    case NetV4(addr, mask) =>
      IsIpv4(packet) && Selected(dir, Bits.And(Ipv4Source(packet), mask) == Bits.And(addr, mask),
                                 Bits.And(Ipv4Destination(packet), mask) == Bits.And(addr, mask))
    case NetV6(addr, mask) =>
      IsIpv6(packet) && Selected(dir, Bits.And(Ipv6Source(packet), mask) == Bits.And(addr, mask),
                                 Bits.And(Ipv6Destination(packet), mask) == Bits.And(addr, mask))
  }

  /** The intended meaning of a filter. */
  predicate Means(ast: Ast, packet: Packet) {
    match ast
    case And(l, r) => Means(l, packet) && Means(r, packet)
    case Or(l, r) => Means(l, packet) || Means(r, packet)
    case Not(x) => !Means(x, packet)
    case PortRange(lo, hi, dir) => HasPorts(packet) && RangeMeans(lo, hi, dir, packet)
    case Net(net, dir) => NetMeans(net, dir, packet)
    case _ => Matches(ast, packet)
  }

  /** An undirected range whose source port is below it and whose destination port is inside it. */
  predicate RangeDeviates(lo: u16, hi: u16, dir: Direction, packet: Packet) {
    dir == Any && SourcePort(packet) < lo && Between(lo, DestinationPort(packet), hi)
  }

  /** An IPv6 network written with host bits set, and a packet that belongs to it. */
  predicate NetDeviates(net: NetAddr, dir: Direction, packet: Packet) {
    net.NetV6? && Bits.And(net.addr6, net.mask6) != net.addr6 && NetMeans(net, dir, packet)
  }

  predicate LeafDeviates(leaf: Ast, packet: Packet)
    requires leaf.Leaf()
  {
    match leaf
    case PortRange(lo, hi, dir) => HasPorts(packet) && RangeDeviates(lo, hi, dir, packet)
    case Net(net, dir) => NetDeviates(net, dir, packet)
    case _ => false
  }

  /** An IPv6 network with host bits set matches no packet at all; without them it is what it is meant to be. */
  lemma Ipv6NetExactly(addr: u128, mask: u128, dir: Direction, packet: Packet)
    ensures NetMatches(NetV6(addr, mask), dir, packet) <==>
            Bits.And(addr, mask) == addr && NetMeans(NetV6(addr, mask), dir, packet)
  {
    hide Bits.And, Address6;
    AndIdempotent(Ipv6Source(packet), mask);
    AndIdempotent(Ipv6Destination(packet), mask);
  }

  /** A predicate deviates from its intended meaning on exactly these packets, and there it rejects. */
  lemma LeafExactly(leaf: Ast, packet: Packet)
    requires leaf.Leaf()
    ensures (Matches(leaf, packet) <==> Means(leaf, packet)) <==> !LeafDeviates(leaf, packet)
    ensures Matches(leaf, packet) ==> Means(leaf, packet)
  {
    hide Bits.And, Address6, Read32, Read16, Read8;
    match leaf
    case Net(NetV6(addr, mask), dir) => Ipv6NetExactly(addr, mask, dir, packet);
    case _ =>
  }

  // ----- predicates that never deviate -----

  /** What can be told from a predicate alone: an undirected range with a bound below it and ports inside
      it deviates somewhere, and so does an IPv6 network with host bits. */
  predicate AlwaysExact(leaf: Ast)
    requires leaf.Leaf()
  {
    match leaf
    case PortRange(lo, hi, dir) => dir != Any || lo == 0 || lo > hi
    case Net(NetV6(addr, mask), _) => Bits.And(addr, mask) == addr
    case _ => true
  }

  /** A TCP packet over IPv4 with a header of 20 bytes and these ports. */
  function TcpPacket(src: u16, dst: u16): (packet: Packet)
    ensures |packet| == 40
  {
    var head: seq<u8> :=
      seq(34, i => if i == 12 then 0x08 else if i == 14 then 0x45 else if i == 23 then IPPROTO_TCP else 0);
    head + [High(src), Low(src), High(dst), Low(dst), 0, 0]
  }

  function High(x: u16): u8 { (x as int) / 0x100 }

  function Low(x: u16): u8 { (x as int) % 0x100 }

  lemma TcpPacketPorts(src: u16, dst: u16)
    ensures HasPorts(TcpPacket(src, dst)) && SourcePort(TcpPacket(src, dst)) == src &&
            DestinationPort(TcpPacket(src, dst)) == dst
  {
    var p := TcpPacket(src, dst);
    assert IsIpv4(p) && Ipv4Protocol(p) == IPPROTO_TCP;
    assert 0x45 % 16 == 5 && Ipv4HeaderLength(p) == 20;
    assert BigEndian16(High(src), Low(src)) == src && BigEndian16(High(dst), Low(dst)) == dst;
  }

  /** An IPv6 packet whose two addresses are both `addr`. */
  function Ipv6Packet(addr: u128): Packet {
    var head: seq<u8> := seq(22, i => if i == 12 then 0x86 else if i == 13 then 0xdd else 0);
    head + Octets(addr) + Octets(addr)
  }

  lemma Ipv6PacketAddresses(addr: u128)
    ensures IsIpv6(Ipv6Packet(addr)) && Ipv6Source(Ipv6Packet(addr)) == addr &&
            Ipv6Destination(Ipv6Packet(addr)) == addr
  {
    hide Octets, Join;
    var p := Ipv6Packet(addr);
    var w := Ipv6Words(addr);
    assert |p| == 54 && p[12] == 0x86 && p[13] == 0xdd;
    forall offset: nat | offset == 22 || offset == 38 ensures Address6(p, offset) == addr {
      forall j: nat | j < 4 ensures Read32(p, offset + 4 * j) == w[j] { WordAt(p, offset, addr, j); }
      assert Read32(p, offset + 4 * 0) == w[0] && Read32(p, offset + 4 * 1) == w[1];
      assert Read32(p, offset + 4 * 2) == w[2] && Read32(p, offset + 4 * 3) == w[3];
      WordsJoin(addr);
    }
  }

  lemma WordAt(p: Packet, offset: nat, addr: u128, j: nat)
    requires p == Ipv6Packet(addr) && (offset == 22 || offset == 38) && j < 4
    ensures Read32(p, offset + 4 * j) == Ipv6Words(addr)[j]
  {
    hide Octets;
    var o := Octets(addr);
    assert forall i :: 0 <= i < 16 ==> p[offset + i] == o[i];
  }

  /** A predicate means on every packet what it is meant to exactly if its own text is of this kind. */
  lemma AlwaysExactly(leaf: Ast)
    requires leaf.Leaf()
    ensures (forall packet: Packet :: Matches(leaf, packet) <==> Means(leaf, packet)) <==> AlwaysExact(leaf)
  {
    hide Matches, Means, HasPorts, Bits.And, SourcePort, DestinationPort;
    if AlwaysExact(leaf) {
      forall packet: Packet ensures Matches(leaf, packet) <==> Means(leaf, packet) { LeafExactly(leaf, packet); }
    } else {
      var packet := DeviatingPacket(leaf);
      LeafExactly(leaf, packet);
    }
  }

  /** A packet on which a predicate of the other kind deviates. */
  lemma DeviatingPacket(leaf: Ast) returns (packet: Packet)
    requires leaf.Leaf() && !AlwaysExact(leaf)
    ensures LeafDeviates(leaf, packet)
  {
    hide HasPorts, Bits.And, SourcePort, DestinationPort, Ipv6Packet, TcpPacket, Address6, IsIpv6;
    match leaf
    case PortRange(lo, hi, _) =>
      packet := TcpPacket(0, lo);
      TcpPacketPorts(0, lo);
    case Net(NetV6(addr, _), _) =>
      packet := Ipv6Packet(addr);
      Ipv6PacketAddresses(addr);
  }

  /** `net ::1 mask ::`, a network of all addresses, is meant to match every IPv6 packet and matches none. */
  lemma Ipv6NetDeparts(packet: Packet)
    requires IsIpv6(packet)
    ensures var leaf := Ast.Net(NetV6(1, 0), Any); Means(leaf, packet) && !Matches(leaf, packet)
    ensures IsIpv6(Ipv6Packet(1)) && |Ipv6Packet(1)| == 54
  {
    hide IsIpv6, Address6;
    Ipv6PacketAddresses(1);
  }

  predicate Deviates(ast: Ast, packet: Packet) {
    match ast
    case And(l, r) => Deviates(l, packet) || Deviates(r, packet)
    case Or(l, r) => Deviates(l, packet) || Deviates(r, packet)
    case Not(x) => Deviates(x, packet)
    case _ => LeafDeviates(ast, packet)
  }

  /** A filter none of whose predicates deviates on a packet means there exactly what it was meant to. */
  lemma {:induction false} MeaningKept(ast: Ast, packet: Packet)
    requires !Deviates(ast, packet)
    ensures Matches(ast, packet) <==> Means(ast, packet)
    decreases ast
  {
    hide LeafDeviates;
    match ast
    case And(l, r) => MeaningKept(l, packet); MeaningKept(r, packet);
    case Or(l, r) => MeaningKept(l, packet); MeaningKept(r, packet);
    case Not(x) => MeaningKept(x, packet);
    case _ => LeafExactly(ast, packet);
  }

  /** Where a whole filter deviates: a deviation of one operand shows unless the other operand decides
      alone, and two deviations cancel where the operands were meant to differ. */
  predicate Differs(ast: Ast, packet: Packet) {
    match ast
    case And(l, r) => if Differs(l, packet) && Differs(r, packet) then Means(l, packet) == Means(r, packet)
                      else (Differs(l, packet) && Means(r, packet)) || (Differs(r, packet) && Means(l, packet))
    case Or(l, r) => if Differs(l, packet) && Differs(r, packet) then Means(l, packet) == Means(r, packet)
                     else (Differs(l, packet) && !Means(r, packet)) || (Differs(r, packet) && !Means(l, packet))
    case Not(x) => Differs(x, packet)
    case _ => LeafDeviates(ast, packet)
  }

  lemma {:induction false} MeaningExactly(ast: Ast, packet: Packet)
    ensures (Matches(ast, packet) <==> Means(ast, packet)) <==> !Differs(ast, packet)
    decreases ast
  {
    hide LeafDeviates, ProtoMatches, HostMatches, NetMatches, RangeMatches, NetMeans, RangeMeans, MacIs, HasPorts,
         Compare;
    match ast
    case And(l, r) => MeaningExactly(l, packet); MeaningExactly(r, packet);
    case Or(l, r) => MeaningExactly(l, packet); MeaningExactly(r, packet);
    case Not(x) => MeaningExactly(x, packet);
    case _ => LeafExactly(ast, packet);
  }

  predicate NotFree(ast: Ast) {
    match ast
    case And(l, r) => NotFree(l) && NotFree(r)
    case Or(l, r) => NotFree(l) && NotFree(r)
    case Not(_) => false
    case _ => true
  }

  /** Deviations only lose packets: a filter without `not` never accepts more than it is meant to. */
  lemma {:induction false} NothingExtra(ast: Ast, packet: Packet)
    requires NotFree(ast) && Matches(ast, packet)
    ensures Means(ast, packet)
    decreases ast
  {
    hide ProtoMatches, HostMatches, NetMatches, RangeMatches, NetMeans, RangeMeans, MacIs, HasPorts, Compare,
         LeafDeviates;
    match ast
    case And(l, r) => NothingExtra(l, packet); NothingExtra(r, packet);
    case Or(l, r) => if Matches(l, packet) { NothingExtra(l, packet); } else { NothingExtra(r, packet); }
    case _ => LeafExactly(ast, packet);
  }

  /** Under `not` the same deviation accepts a packet it should reject: source port 80, destination port
      1500 and `not portrange 1000-2000`. */
  lemma NegationGainsPackets()
    ensures var ast, packet := Not(PortRange(1000, 2000, Any)), TcpPacket(80, 1500);
            HasPorts(packet) && SourcePort(packet) == 80 && DestinationPort(packet) == 1500 &&
            Matches(ast, packet) && !Means(ast, packet)
  {
    hide HasPorts, SourcePort, DestinationPort, TcpPacket;
    TcpPacketPorts(80, 1500);
  }

  // ----- networks written with a prefix -----

  /** `net a/p` over IPv4, for any prefix of at least one bit and with or without host bits in `a`: the
      selected address agrees with `a` on its first `p` bits. */
  lemma Ipv4PrefixMatch(a: u32, p: nat, build: Build, dir: Direction, packet: Packet)
    requires 1 <= p <= 32
    ensures var net := ParseNet(HostV4(a), Some(PrefixToken(p)), build);
            net.Success? && (NetMatches(net.value, dir, packet) <==>
                        IsIpv4(packet) && Selected(dir, SamePrefix(32, p, Ipv4Source(packet), a),
                                                   SamePrefix(32, p, Ipv4Destination(packet), a)))
  {
    hide Bits.And, Read32, Read16;
    Pow2Of32();
    PrefixMask(32, p, build);
    PrefixExactly(32, p, build);
  }

  /** `net a/p` over IPv6 without host bits in `a` is the 128-bit prefix test; with host bits it matches nothing. */
  lemma Ipv6PrefixMatch(a: u128, p: nat, build: Build, dir: Direction, packet: Packet)
    requires 1 <= p <= 128
    ensures var net := ParseNet(HostV6(a), Some(PrefixToken(p)), build);
            net.Success? && (NetMatches(net.value, dir, packet) <==>
                        a % Pow2(128 - p) == 0 && IsIpv6(packet) &&
                        Selected(dir, SamePrefix(128, p, Ipv6Source(packet), a),
                                 SamePrefix(128, p, Ipv6Destination(packet), a)))
  {
    hide Bits.And, Address6, Read16, Pow2, NetMatches;
    Ipv6PrefixNet(a, p, build);
    var m := HighBits(p, 128 - p);
    NoHostBits(a, p);
    Ipv6NetExactly(a, m, dir, packet);
    Ipv6MaskAgrees(Ipv6Source(packet), a, p);
    Ipv6MaskAgrees(Ipv6Destination(packet), a, p);
  }

  lemma Ipv6PrefixNet(a: u128, p: nat, build: Build)
    requires 1 <= p <= 128
    ensures HighBits(p, 128 - p) < 0x1_0000_0000_0000_0000_0000_0000_0000_0000
    ensures ParseNet(HostV6(a), Some(PrefixToken(p)), build) == Success(NetV6(a, HighBits(p, 128 - p)))
  {
    Pow2Of128();
    PrefixMask(128, p, build);
    assert p + (128 - p) == 128;
  }

  lemma Ipv6MaskAgrees(a: u128, b: u128, p: nat)
    requires 1 <= p <= 128
    ensures Bits.And(a, HighBits(p, 128 - p)) == Bits.And(b, HighBits(p, 128 - p)) <==> SamePrefix(128, p, a, b)
  {
    hide Bits.And;
    Pow2Of128();
    assert p + (128 - p) == 128;
    HighMaskAgree(a, b, p, 128 - p);
  }

  lemma NoHostBits(a: u128, p: nat)
    requires 1 <= p <= 128
    ensures Bits.And(a, HighBits(p, 128 - p)) == a <==> a % Pow2(128 - p) == 0
  {
    hide Bits.And;
    Pow2Of128();
    assert p + (128 - p) == 128;
    HighMask(a, p, 128 - p);
  }
}
