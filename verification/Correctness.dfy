/** The code of a filter decides exactly what the filter means, wherever it is placed. */
module Correctness {
  import opened Bits
  import opened Bpf
  import opened FilterAst
  import opened Vm
  import opened Layout
  import opened Semantics
  import opened Simulation
  import opened Addresses

  // ----- leaves -----

  lemma TransportSim(program: seq<Instruction>, packet: Packet, s: State, proto: u8, a: nat, r: nat)
    requires Loaded(program, TransportCode(proto, s.pc, a, r), s.pc) && s.pc + 7 <= a && s.pc + 7 <= r
    ensures Decides(program, packet, s, TransportCode(proto, s.pc, a, r), TransportIs(packet, proto), a, r)
  {
    hide RunTo;
    var split, v6, v4 := FamilySplit(s.pc, s.pc + 5, r), FieldIs(LdAbsB(20), proto, a, r),
        FieldIs(LdAbsB(23), proto, a, r);
    LoadedSplit(program, split + v6, v4, s.pc);
    LoadedSplit(program, split, v6, s.pc);
    FamilySplitSim(program, packet, s, s.pc + 5, r);
    var t, end := After(program, packet, s, split), s.pc + 7;
    LandsThen(program, packet, s, s.pc + 3, t.pc, s.x, end);
    if IsIpv4(packet) {
      FieldIsSim(program, packet, t, LdAbsB(23), proto, a, r);
    } else if IsIpv6(packet) {
      FieldIsSim(program, packet, t, LdAbsB(20), proto, a, r);
      LandsThen(program, packet, t, s.pc + 5, if NextHeader(packet) == proto then a else r, s.x, end);
    }
  }

  lemma ProtoSim(program: seq<Instruction>, packet: Packet, s: State, proto: Protocol, a: nat, r: nat)
    requires Loaded(program, ProtoCode(proto, s.pc, a, r), s.pc)
    requires s.pc + |ProtoCode(proto, s.pc, a, r)| <= a && s.pc + |ProtoCode(proto, s.pc, a, r)| <= r
    ensures Decides(program, packet, s, ProtoCode(proto, s.pc, a, r), ProtoMatches(proto, packet), a, r)
  {
    hide RunTo;
    match proto
    case Ip => FieldIsSim(program, packet, s, LdAbsH(12), ETHERTYPE_IP, a, r);
    case Ip6 => FieldIsSim(program, packet, s, LdAbsH(12), ETHERTYPE_IPV6, a, r);
    case Arp => FieldIsSim(program, packet, s, LdAbsH(12), ETHERTYPE_ARP, a, r);
    case Rarp => FieldIsSim(program, packet, s, LdAbsH(12), ETHERTYPE_RARP, a, r);
    case Tcp => TransportSim(program, packet, s, IPPROTO_TCP, a, r);
    case Udp => TransportSim(program, packet, s, IPPROTO_UDP, a, r);
    case Icmp => ThenFieldSim(program, packet, s, LdAbsH(12), ETHERTYPE_IP, LdAbsB(23), IPPROTO_ICMP, a, r);
    case Icmp6 => ThenFieldSim(program, packet, s, LdAbsH(12), ETHERTYPE_IPV6, LdAbsB(20), IPPROTO_ICMPV6, a, r);
  }

  /** The four word tests are one 128-bit comparison. */
  lemma WordsAreAddress(packet: Packet, offset: nat, v6: u128)
    ensures WordsEqual(packet, offset, Ipv6Words(v6)) <==> Address6(packet, offset) == v6
  {
    hide Ipv6Words;
    var w := Ipv6Words(v6);
    var have := [Read32(packet, offset), Read32(packet, offset + 4), Read32(packet, offset + 8),
                 Read32(packet, offset + 12)];
    WordsJoin(v6);
    JoinInjective(have, w);
    FourWords(packet, offset, w);
    assert have == w <==> have[0] == w[0] && have[1] == w[1] && have[2] == w[2] && have[3] == w[3];
  }

  lemma FourWords(packet: Packet, offset: nat, w: seq<u32>)
    requires |w| == 4
    ensures WordsEqual(packet, offset, w) <==>
            Read32(packet, offset) == w[0] && Read32(packet, offset + 4) == w[1] &&
            Read32(packet, offset + 8) == w[2] && Read32(packet, offset + 12) == w[3]
  {
    hide Read32;
    assert w[1..][1..] == w[2..] && w[2..][1..] == w[3..] && w[3..][1..] == [];
    assert WordsEqual(packet, offset + 12, w[3..]) <==> Read32(packet, offset + 12) == w[3];
    assert WordsEqual(packet, offset + 8, w[2..]) <==>
           Read32(packet, offset + 8) == w[2] && WordsEqual(packet, offset + 12, w[3..]);
  }

  /** The four masked word tests are one masked 128-bit comparison. */
  lemma MaskedWordsAreAddress(packet: Packet, offset: nat, addr: u128, mask: u128)
    ensures MaskedWordsEqual(packet, offset, Ipv6Words(addr), Ipv6Words(mask)) <==>
            Bits.And(Address6(packet, offset), mask) == addr
  {
    hide Ipv6Words, Bits.And;
    var w, m := Ipv6Words(addr), Ipv6Words(mask);
    var have := [Read32(packet, offset), Read32(packet, offset + 4), Read32(packet, offset + 8),
                 Read32(packet, offset + 12)];
    var masked: seq<u32> := [Bits.And(have[0], m[0]), Bits.And(have[1], m[1]), Bits.And(have[2], m[2]),
                             Bits.And(have[3], m[3])];
    WordsJoin(addr);
    WordsJoin(mask);
    AndJoin(have, m);
    JoinInjective(masked, w);
    FourMaskedWords(packet, offset, w, m);
    assert masked == w <==> masked[0] == w[0] && masked[1] == w[1] && masked[2] == w[2] && masked[3] == w[3];
  }

  lemma FourMaskedWords(packet: Packet, offset: nat, w: seq<u32>, m: seq<u32>)
    requires |w| == |m| == 4
    ensures MaskedWordsEqual(packet, offset, w, m) <==>
            Bits.And(Read32(packet, offset), m[0]) == w[0] && Bits.And(Read32(packet, offset + 4), m[1]) == w[1] &&
            Bits.And(Read32(packet, offset + 8), m[2]) == w[2] && Bits.And(Read32(packet, offset + 12), m[3]) == w[3]
  {
    hide Read32, Bits.And;
    assert w[1..][1..] == w[2..] && w[2..][1..] == w[3..] && w[3..][1..] == [];
    assert m[1..][1..] == m[2..] && m[2..][1..] == m[3..];
    assert MaskedWordsEqual(packet, offset + 12, w[3..], m[3..]) <==>
           Bits.And(Read32(packet, offset + 12), m[3]) == w[3];
    assert MaskedWordsEqual(packet, offset + 8, w[2..], m[2..]) <==>
           Bits.And(Read32(packet, offset + 8), m[2]) == w[2] && MaskedWordsEqual(packet, offset + 12, w[3..], m[3..]);
  }

  lemma Address6Sim(program: seq<Instruction>, packet: Packet, s: State, offset: nat, v6: u128, a: nat, r: nat)
    requires offset <= 0x8000 && s.pc + 8 <= a && s.pc + 8 <= r
    requires Loaded(program, WordsAt(offset, Ipv6Words(v6), s.pc, a, r), s.pc)
    ensures Decides(program, packet, s, WordsAt(offset, Ipv6Words(v6), s.pc, a, r), Address6(packet, offset) == v6,
                    a, r)
  {
    WordsAtSim(program, packet, s, offset, Ipv6Words(v6), a, r);
    WordsAreAddress(packet, offset, v6);
  }

  lemma Net6Sim(program: seq<Instruction>, packet: Packet, s: State, offset: nat, addr: u128, mask: u128, a: nat,
                r: nat)
    requires offset <= 0x8000 && s.pc + 12 <= a && s.pc + 12 <= r
    requires Loaded(program, MaskedWordsAt(offset, Ipv6Words(addr), Ipv6Words(mask), s.pc, a, r), s.pc)
    ensures Decides(program, packet, s, MaskedWordsAt(offset, Ipv6Words(addr), Ipv6Words(mask), s.pc, a, r),
                    Bits.And(Address6(packet, offset), mask) == addr, a, r)
  {
    MaskedWordsAtSim(program, packet, s, offset, Ipv6Words(addr), Ipv6Words(mask), a, r);
    MaskedWordsAreAddress(packet, offset, addr, mask);
  }

  /** An ethertype guard in front of a block that decides `q` from every state. */
  lemma GuardSim(program: seq<Instruction>, packet: Packet, s: State, ethertype: u16, body: Code, q: bool, a: nat,
                 r: nat)
    requires s.pc + 2 + |body| <= a && s.pc + 2 + |body| <= r
    requires Loaded(program, FieldIs(LdAbsH(12), ethertype, s.pc + 2, r) + body, s.pc)
    requires forall t: State :: t.pc == s.pc + 2 ==> Decides(program, packet, t, body, q, a, r)
    ensures Decides(program, packet, s, FieldIs(LdAbsH(12), ethertype, s.pc + 2, r) + body,
                    EtherType(packet) == ethertype && q, a, r)
  {
    hide RunTo;
    var guard := FieldIs(LdAbsH(12), ethertype, s.pc + 2, r);
    LoadedSplit(program, guard, body, s.pc);
    FieldIsSim(program, packet, s, LdAbsH(12), ethertype, s.pc + 2, r);
    assert EtherType(packet) == ethertype ==> Decides(program, packet, After(program, packet, s, guard), body, q, a, r);
    ThenSim(program, packet, s, guard, body, EtherType(packet) == ethertype, q, a, r);
  }

  lemma HostV6BodySim(program: seq<Instruction>, packet: Packet, s: State, v6: u128, dir: Direction, body: Code,
                      a: nat, r: nat)
    requires body == AddressIn(dir, Ipv6Words(v6), s.pc, a, r)
    requires Loaded(program, body, s.pc) && s.pc + |body| <= a && s.pc + |body| <= r
    ensures Decides(program, packet, s, body, Selected(dir, Ipv6Source(packet) == v6, Ipv6Destination(packet) == v6),
                    a, r)
  {
    hide RunTo, Ipv6Words, Address6;
    var w := Ipv6Words(v6);
    match dir
    case Any =>
      var first, rest := WordsAt(22, w, s.pc, a, s.pc + 8), WordsAt(38, w, s.pc + 8, a, r);
      LoadedSplit(program, first, rest, s.pc);
      Address6Sim(program, packet, s, 22, v6, a, s.pc + 8);
      if Ipv6Source(packet) != v6 { Address6Sim(program, packet, After(program, packet, s, first), 38, v6, a, r); }
      ElseSim(program, packet, s, first, rest, Ipv6Source(packet) == v6, Ipv6Destination(packet) == v6, a, r);
    case Src => Address6Sim(program, packet, s, 22, v6, a, r);
    case Dst => Address6Sim(program, packet, s, 38, v6, a, r);
  }

  lemma HostV4BodySim(program: seq<Instruction>, packet: Packet, s: State, v4: u32, dir: Direction, a: nat, r: nat)
    requires var c := FieldsIn(dir, LdAbsW(26), LdAbsW(30), v4, s.pc, a, r);
             Loaded(program, c, s.pc) && s.pc + |c| <= a && s.pc + |c| <= r
    ensures Decides(program, packet, s, FieldsIn(dir, LdAbsW(26), LdAbsW(30), v4, s.pc, a, r),
                    Selected(dir, Ipv4Source(packet) == v4, Ipv4Destination(packet) == v4), a, r)
  {
    hide RunTo;
    FieldsInSim(program, packet, s, dir, LdAbsW(26), LdAbsW(30), v4, a, r);
  }

  lemma HostSim(program: seq<Instruction>, packet: Packet, s: State, host: HostAddr, dir: Direction, a: nat, r: nat)
    requires var c := HostCode(host, dir, s.pc, a, r); Loaded(program, c, s.pc) && s.pc + |c| <= a && s.pc + |c| <= r
    ensures Decides(program, packet, s, HostCode(host, dir, s.pc, a, r), HostMatches(host, dir, packet), a, r)
  {
    hide Decides, Decode, Ipv6Words, Address6, Read32, Read16, FieldsIn, AddressIn, FieldIs, LeafSize, Loaded;
    match host
    case HostV4(v4) =>
      var body := FieldsIn(dir, LdAbsW(26), LdAbsW(30), v4, s.pc + 2, a, r);
      var ok := Selected(dir, Ipv4Source(packet) == v4, Ipv4Destination(packet) == v4);
      LoadedSplit(program, FieldIs(LdAbsH(12), ETHERTYPE_IP, s.pc + 2, r), body, s.pc);
      forall t: State | t.pc == s.pc + 2 ensures Decides(program, packet, t, body, ok, a, r) {
        HostV4BodySim(program, packet, t, v4, dir, a, r);
      }
      GuardSim(program, packet, s, ETHERTYPE_IP, body, ok, a, r);
    case HostV6(v6) =>
      var body := AddressIn(dir, Ipv6Words(v6), s.pc + 2, a, r);
      var ok := Selected(dir, Ipv6Source(packet) == v6, Ipv6Destination(packet) == v6);
      LoadedSplit(program, FieldIs(LdAbsH(12), ETHERTYPE_IPV6, s.pc + 2, r), body, s.pc);
      forall t: State | t.pc == s.pc + 2 ensures Decides(program, packet, t, body, ok, a, r) {
        HostV6BodySim(program, packet, t, v6, dir, body, a, r);
      }
      GuardSim(program, packet, s, ETHERTYPE_IPV6, body, ok, a, r);
  }

  lemma EtherHostSim(program: seq<Instruction>, packet: Packet, s: State, mac: Mac, dir: Direction, a: nat, r: nat)
    requires var c := EtherHostCode(mac, dir, s.pc, a, r);
             Loaded(program, c, s.pc) && s.pc + |c| <= a && s.pc + |c| <= r
    ensures Decides(program, packet, s, EtherHostCode(mac, dir, s.pc, a, r),
                    Selected(dir, MacIs(packet, 6, mac), MacIs(packet, 0, mac)), a, r)
  {
    hide RunTo, MacIs;
    match dir
    case Any =>
      var first, rest := MacAt(0, mac, s.pc, a, s.pc + 4), MacAt(6, mac, s.pc + 4, a, r);
      LoadedSplit(program, first, rest, s.pc);
      MacAtSim(program, packet, s, 0, mac, a, s.pc + 4);
      if !MacIs(packet, 0, mac) { MacAtSim(program, packet, After(program, packet, s, first), 6, mac, a, r); }
      ElseSim(program, packet, s, first, rest, MacIs(packet, 0, mac), MacIs(packet, 6, mac), a, r);
    case Src => MacAtSim(program, packet, s, 6, mac, a, r);
    case Dst => MacAtSim(program, packet, s, 0, mac, a, r);
  }

  lemma NetV4BodySim(program: seq<Instruction>, packet: Packet, s: State, mask: u32, k: u32, dir: Direction,
                     body: Code, a: nat, r: nat)
    requires body == Net4In(dir, mask, k, s.pc, a, r)
    requires Loaded(program, body, s.pc) && s.pc + |body| <= a && s.pc + |body| <= r
    ensures Decides(program, packet, s, body, Selected(dir, Bits.And(Ipv4Source(packet), mask) == k,
                                                       Bits.And(Ipv4Destination(packet), mask) == k), a, r)
  {
    hide RunTo, Read32, Bits.And;
    match dir
    case Any =>
      var first, rest := MaskedFieldIs(26, mask, k, a, s.pc + 3), MaskedFieldIs(30, mask, k, a, r);
      var p, q := Bits.And(Ipv4Source(packet), mask) == k, Bits.And(Ipv4Destination(packet), mask) == k;
      LoadedSplit(program, first, rest, s.pc);
      MaskedFieldIsSim(program, packet, s, 26, mask, k, a, s.pc + 3);
      if !p { MaskedFieldIsSim(program, packet, After(program, packet, s, first), 30, mask, k, a, r); }
      ElseSim(program, packet, s, first, rest, p, q, a, r);
    case Src => MaskedFieldIsSim(program, packet, s, 26, mask, k, a, r);
    case Dst => MaskedFieldIsSim(program, packet, s, 30, mask, k, a, r);
  }

  lemma NetV6BodySim(program: seq<Instruction>, packet: Packet, s: State, addr: u128, mask: u128, dir: Direction,
                     body: Code,
                     a: nat, r: nat)
    requires body == Net6In(dir, Ipv6Words(addr), Ipv6Words(mask), s.pc, a, r)
    requires Loaded(program, body, s.pc) && s.pc + |body| <= a && s.pc + |body| <= r
    ensures Decides(program, packet, s, body, Selected(dir, Bits.And(Ipv6Source(packet), mask) == addr,
                                                       Bits.And(Ipv6Destination(packet), mask) == addr), a, r)
  {
    hide RunTo, Ipv6Words, Address6, Bits.And;
    var w, m := Ipv6Words(addr), Ipv6Words(mask);
    var p, q := Bits.And(Ipv6Source(packet), mask) == addr, Bits.And(Ipv6Destination(packet), mask) == addr;
    match dir
    case Any =>
      var first, rest := MaskedWordsAt(22, w, m, s.pc, a, s.pc + 12), MaskedWordsAt(38, w, m, s.pc + 12, a, r);
      LoadedSplit(program, first, rest, s.pc);
      Net6Sim(program, packet, s, 22, addr, mask, a, s.pc + 12);
      if !p { Net6Sim(program, packet, After(program, packet, s, first), 38, addr, mask, a, r); }
      ElseSim(program, packet, s, first, rest, p, q, a, r);
    case Src => Net6Sim(program, packet, s, 22, addr, mask, a, r);
    case Dst => Net6Sim(program, packet, s, 38, addr, mask, a, r);
  }

  lemma NetSim(program: seq<Instruction>, packet: Packet, s: State, net: NetAddr, dir: Direction, a: nat, r: nat)
    requires var c := NetCode(net, dir, s.pc, a, r); Loaded(program, c, s.pc) && s.pc + |c| <= a && s.pc + |c| <= r
    ensures Decides(program, packet, s, NetCode(net, dir, s.pc, a, r), NetMatches(net, dir, packet), a, r)
  {
    hide Decides, Decode, Ipv6Words, Address6, Read32, Read16, Bits.And, Net4In, Net6In, FieldIs, LeafSize, Loaded;
    match net
    case NetV4(addr, mask) =>
      var k: u32 := Bits.And(addr, mask);
      var body := Net4In(dir, mask, k, s.pc + 2, a, r);
      var ok := Selected(dir, Bits.And(Ipv4Source(packet), mask) == k, Bits.And(Ipv4Destination(packet), mask) == k);
      LoadedSplit(program, FieldIs(LdAbsH(12), ETHERTYPE_IP, s.pc + 2, r), body, s.pc);
      forall t: State | t.pc == s.pc + 2 ensures Decides(program, packet, t, body, ok, a, r) {
        NetV4BodySim(program, packet, t, mask, k, dir, body, a, r);
      }
      GuardSim(program, packet, s, ETHERTYPE_IP, body, ok, a, r);
    case NetV6(addr, mask) =>
      var body := Net6In(dir, Ipv6Words(addr), Ipv6Words(mask), s.pc + 2, a, r);
      var ok := Selected(dir, Bits.And(Ipv6Source(packet), mask) == addr,
                         Bits.And(Ipv6Destination(packet), mask) == addr);
      LoadedSplit(program, FieldIs(LdAbsH(12), ETHERTYPE_IPV6, s.pc + 2, r), body, s.pc);
      forall t: State | t.pc == s.pc + 2 ensures Decides(program, packet, t, body, ok, a, r) {
        NetV6BodySim(program, packet, t, addr, mask, dir, body, a, r);
      }
      GuardSim(program, packet, s, ETHERTYPE_IPV6, body, ok, a, r);
  }

  lemma LenSim(program: seq<Instruction>, packet: Packet, s: State, op: RelOp, len: u32, a: nat, r: nat)
    requires var c := LenCode(op, len, a, r); Loaded(program, c, s.pc) && s.pc + |c| <= a && s.pc + |c| <= r
    ensures Decides(program, packet, s, LenCode(op, len, a, r), Compare(op, |packet| % 0x1_0000_0000, len), a, r)
  {
    var c, end := LenCode(op, len, a, r), s.pc + 2;
    assert program[s.pc + 0] == Encode(c[0], s.pc) == LdLen();
    assert program[s.pc + 1] == Encode(c[1], s.pc + 1);
    LoadStep(program, packet, s, LdLen(), end);
    var t := s.(pc := s.pc + 1, a := |packet| % 0x1_0000_0000);
    var test := if op == Eq || op == Ne then Equal else if op == Gt || op == Le then Greater else GreaterOrEqual;
    BranchStep(program, packet, t, test, len, c[1], end);
  }

  /** X holds the IPv4 header length: four times the low half of the first header byte. */
  lemma HeaderLengthStep(program: seq<Instruction>, packet: Packet, s: State, hi: nat)
    requires s.pc < |program| && s.pc < hi && program[s.pc] == LdxMshB(14)
    ensures RunTo(program, packet, s, hi) == RunTo(program, packet,
                                                   s.(pc := s.pc + 1, x := Ipv4HeaderLength(packet)), hi)
  {
    BuildersDecode(14, 0, 0);
    LowMask(Read8(packet, 14), 4);
    assert Pow2(4) == 16;
    assert Step(program, packet, s) == Next(s.(pc := s.pc + 1, x := Ipv4HeaderLength(packet)));
  }

  /** Control leaves the block at `exit`; unlike `Decides`, X may change. */
  ghost predicate Reaches(program: seq<Instruction>, packet: Packet, s: State, code: Code, exit: nat) {
    var o := RunTo(program, packet, s, s.pc + |code|);
    o.Next? && o.state.pc == exit
  }

  lemma LoadedOverPorts(program: seq<Instruction>, v6: Code, v4: Code, s: nat, r: nat)
    requires Loaded(program, OverPorts(v6, v4, s, r), s)
    ensures Loaded(program, FamilySplit(s, s + 6 + |v6|, r), s)
    ensures Loaded(program, TcpOrUdp(LdAbsB(20), s + 3, r), s + 3) && Loaded(program, v6, s + 6)
    ensures Loaded(program, TcpOrUdp(LdAbsB(23), s + 6 + |v6|, r), s + 6 + |v6|)
    ensures s + 9 + |v6| < |program| && program[s + 9 + |v6|] == LdxMshB(14)
    ensures Loaded(program, v4, s + 10 + |v6|)
  {
    var split, t6, t4 := FamilySplit(s, s + 6 + |v6|, r), TcpOrUdp(LdAbsB(20), s + 3, r),
        TcpOrUdp(LdAbsB(23), s + 6 + |v6|, r);
    var ldx := [Plain(LdxMshB(14))];
    LoadedSplit(program, split + t6 + v6 + t4 + ldx, v4, s);
    LoadedSplit(program, split + t6 + v6 + t4, ldx, s);
    LoadedSplit(program, split + t6 + v6, t4, s);
    LoadedSplit(program, split + t6, v6, s);
    LoadedSplit(program, split, t6, s);
    assert program[s + 9 + |v6| + 0] == Encode(ldx[0], s + 9 + |v6|);
  }

  /** Behind both guards, each IP version is decided by its own test; everything else is rejected. */
  lemma OverPortsSim(program: seq<Instruction>, packet: Packet, s: State, v6: Code, v4: Code, ok: bool, a: nat, r: nat)
    requires var n := |OverPorts(v6, v4, s.pc, r)|; s.pc + n <= a && s.pc + n <= r
    requires Loaded(program, OverPorts(v6, v4, s.pc, r), s.pc)
    requires IsIpv6(packet) ==> forall t: State :: t.pc == s.pc + 6 ==> Decides(program, packet, t, v6, ok, a, r)
    requires IsIpv4(packet) ==> forall t: State :: t.pc == s.pc + 10 + |v6| && t.x == Ipv4HeaderLength(packet)
                                               ==> Decides(program, packet, t, v4, ok, a, r)
    ensures Reaches(program, packet, s, OverPorts(v6, v4, s.pc, r), if HasPorts(packet) && ok then a else r)
  {
    hide RunTo;
    LoadedOverPorts(program, v6, v4, s.pc, r);
    var end := s.pc + |OverPorts(v6, v4, s.pc, r)|;
    assert end == s.pc + 10 + |v6| + |v4|;
    var at4 := s.pc + 6 + |v6|;
    FamilySplitSim(program, packet, s, at4, r);
    var t := After(program, packet, s, FamilySplit(s.pc, at4, r));
    RunToSplit(program, packet, s, s.pc + 3, end);
    if IsIpv4(packet) {
      TcpOrUdpSim(program, packet, t, LdAbsB(23), r);
      var u := After(program, packet, t, TcpOrUdp(LdAbsB(23), at4, r));
      RunToSplit(program, packet, t, at4 + 3, end);
      if TransportIsPorted(Ipv4Protocol(packet)) {
        HeaderLengthStep(program, packet, u, end);
        assert Decides(program, packet, u.(pc := u.pc + 1, x := Ipv4HeaderLength(packet)), v4, ok, a, r);
      } else {
        StopsAt(program, packet, u, end);
      }
    } else if IsIpv6(packet) {
      TcpOrUdpSim(program, packet, t, LdAbsB(20), r);
      var u := After(program, packet, t, TcpOrUdp(LdAbsB(20), s.pc + 3, r));
      RunToSplit(program, packet, t, s.pc + 6, end);
      if TransportIsPorted(NextHeader(packet)) {
        assert Decides(program, packet, u, v6, ok, a, r);
        var w := After(program, packet, u, v6);
        RunToSplit(program, packet, u, s.pc + 6 + |v6|, end);
        StopsAt(program, packet, w, end);
      } else {
        StopsAt(program, packet, u, end);
      }
    } else {
      StopsAt(program, packet, t, end);
    }
  }

  lemma StopsAt(program: seq<Instruction>, packet: Packet, s: State, hi: nat)
    requires s.pc >= hi
    ensures RunTo(program, packet, s, hi) == Next(s)
  {
  }

  /** The address of an indexed load is X plus its constant, so it reads a port of the IPv4 transport header. */
  lemma PortFields(packet: Packet, x: u32)
    ensures IsLoad(Decode(LdAbsH(54))) && IsLoad(Decode(LdAbsH(56))) && IsLoad(Decode(LdIndH(14))) &&
            IsLoad(Decode(LdIndH(16)))
    ensures IsIpv6(packet) ==>
              Field(LdAbsH(54), packet, x) == SourcePort(packet) &&
              Field(LdAbsH(56), packet, x) == DestinationPort(packet)
    ensures IsIpv4(packet) && x == Ipv4HeaderLength(packet) ==>
            Field(LdIndH(14), packet, x) == SourcePort(packet) &&
            Field(LdIndH(16), packet, x) == DestinationPort(packet)
  {
  }

  lemma PortSim(program: seq<Instruction>, packet: Packet, s: State, port: u16, dir: Direction, a: nat, r: nat)
    requires var c := PortCode(port, dir, s.pc, a, r); Loaded(program, c, s.pc) && s.pc + |c| <= a && s.pc + |c| <= r
    ensures Reaches(program, packet, s, PortCode(port, dir, s.pc, a, r),
                    if HasPorts(packet) && Selected(dir, SourcePort(packet) == port, DestinationPort(packet) == port)
                    then a else r)
  {
    hide Decides, Reaches, Field, Decode, Loaded, OverPorts, FieldsIn, RangesIn, SourcePort, DestinationPort,
         Ipv4HeaderLength, HasPorts;
    hide IsIpv4, IsIpv6;
    PortFields(packet, 0);
    var n := if dir == Any then 4 else 2;
    var v6 := FieldsIn(dir, LdAbsH(54), LdAbsH(56), port, s.pc + 6, a, r);
    var v4 := FieldsIn(dir, LdIndH(14), LdIndH(16), port, s.pc + 10 + n, a, r);
    var ok := Selected(dir, SourcePort(packet) == port, DestinationPort(packet) == port);
    LoadedOverPorts(program, v6, v4, s.pc, r);
    forall t: State | IsIpv6(packet) && t.pc == s.pc + 6 ensures Decides(program, packet, t, v6, ok, a, r) {
      PortFields(packet, t.x);
      FieldsInSim(program, packet, t, dir, LdAbsH(54), LdAbsH(56), port, a, r);
    }
    forall t: State | IsIpv4(packet) && t.pc == s.pc + 10 + n && t.x == Ipv4HeaderLength(packet)
      ensures Decides(program, packet, t, v4, ok, a, r)
    {
      PortFields(packet, t.x);
      FieldsInSim(program, packet, t, dir, LdIndH(14), LdIndH(16), port, a, r);
    }
    OverPortsSim(program, packet, s, v6, v4, ok, a, r);
  }

  lemma PortRangeSim(program: seq<Instruction>, packet: Packet, s: State, lo: u16, hi: u16, dir: Direction, a: nat,
                     r: nat)
    requires var c := PortRangeCode(lo, hi, dir, s.pc, a, r);
             Loaded(program, c, s.pc) && s.pc + |c| <= a && s.pc + |c| <= r
    ensures Reaches(program, packet, s, PortRangeCode(lo, hi, dir, s.pc, a, r),
                    if HasPorts(packet) && RangeMatches(lo, hi, dir, packet) then a else r)
  {
    hide Decides, Reaches, Field, Decode, Loaded, OverPorts, FieldsIn, RangesIn, SourcePort, DestinationPort,
         Ipv4HeaderLength, HasPorts;
    hide IsIpv4, IsIpv6;
    PortFields(packet, 0);
    var n := if dir == Any then 6 else 3;
    var v6 := RangesIn(dir, LdAbsH(54), LdAbsH(56), lo, hi, s.pc + 6, a, r);
    var v4 := RangesIn(dir, LdIndH(14), LdIndH(16), lo, hi, s.pc + 10 + n, a, r);
    var ok := RangeMatches(lo, hi, dir, packet);
    LoadedOverPorts(program, v6, v4, s.pc, r);
    forall t: State | IsIpv6(packet) && t.pc == s.pc + 6 ensures Decides(program, packet, t, v6, ok, a, r) {
      PortFields(packet, t.x);
      RangesInSim(program, packet, t, dir, LdAbsH(54), LdAbsH(56), lo, hi, a, r);
    }
    forall t: State | IsIpv4(packet) && t.pc == s.pc + 10 + n && t.x == Ipv4HeaderLength(packet)
      ensures Decides(program, packet, t, v4, ok, a, r)
    {
      PortFields(packet, t.x);
      RangesInSim(program, packet, t, dir, LdIndH(14), LdIndH(16), lo, hi, a, r);
    }
    OverPortsSim(program, packet, s, v6, v4, ok, a, r);
  }

  lemma LeafSim(program: seq<Instruction>, packet: Packet, s: State, leaf: Ast, a: nat, r: nat)
    requires leaf.Leaf() && Loaded(program, LeafCode(leaf, s.pc, a, r), s.pc)
    requires s.pc + LeafSize(leaf) <= a && s.pc + LeafSize(leaf) <= r
    ensures Reaches(program, packet, s, LeafCode(leaf, s.pc, a, r), if Matches(leaf, packet) then a else r)
  {
    hide RunTo, Loaded;
    match leaf
    case Proto(proto) => ProtoSim(program, packet, s, proto, a, r);
    case Host(host, dir) => HostSim(program, packet, s, host, dir, a, r);
    case Port(port, dir) => PortSim(program, packet, s, port, dir, a, r);
    case PortRange(lo, hi, dir) => PortRangeSim(program, packet, s, lo, hi, dir, a, r);
    case EtherHost(mac, dir) => EtherHostSim(program, packet, s, mac, dir, a, r);
    case Net(net, dir) => NetSim(program, packet, s, net, dir, a, r);
    case Len(op, len) => LenSim(program, packet, s, op, len, a, r);
  }

  // ----- filters and programs -----

  lemma AfterAt(program: seq<Instruction>, packet: Packet, s: State, code: Code, exit: nat)
    requires Reaches(program, packet, s, code, exit)
    ensures After(program, packet, s, code).pc == exit
  {
  }

  /** Leaving the first block elsewhere ends the pair; reaching the second leaves the exit to it. */
  lemma SequenceReaches(program: seq<Instruction>, packet: Packet, s: State, first: Code, rest: Code, between: nat,
                        exit: nat)
    requires Reaches(program, packet, s, first, between) && s.pc + |first| + |rest| <= exit
    requires if between == s.pc + |first| then Reaches(program, packet, After(program, packet, s, first), rest, exit)
             else between == exit
    ensures Reaches(program, packet, s, first + rest, exit)
  {
    hide RunTo;
    var t, hi := After(program, packet, s, first), s.pc + |first| + |rest|;
    assert |first + rest| == |first| + |rest|;
    RunToSplit(program, packet, s, s.pc + |first|, hi);
    if between != s.pc + |first| { StopsAt(program, packet, t, hi); }
  }

  /** Relocatable simulation: wherever the code of a filter stands, entered at its first instruction
      with any A, X and memory, control leaves it at `a` if the filter matches and at `r` if not. */
  lemma {:induction false} FilterSim(program: seq<Instruction>, packet: Packet, s: State, ast: Ast, a: nat, r: nat)
    requires Loaded(program, CodeAt(ast, s.pc, a, r), s.pc)
    requires s.pc + Size(ast) <= a && s.pc + Size(ast) <= r
    ensures Reaches(program, packet, s, CodeAt(ast, s.pc, a, r), if Matches(ast, packet) then a else r)
    decreases ast
  {
    hide Reaches, LeafCode, LeafSize, CodeAt, Size, Loaded;
    match ast
    case Not(inner) =>
      NotParts(inner, s.pc, a, r);
      FilterSim(program, packet, s, inner, r, a);
    case And(left, right) =>
      var mid, exit := s.pc + Size(left), if Matches(ast, packet) then a else r;
      var first, rest := CodeAt(left, s.pc, mid, r), CodeAt(right, mid, a, r);
      AndParts(left, right, s.pc, a, r);
      LoadedSplit(program, first, rest, s.pc);
      FilterSim(program, packet, s, left, mid, r);
      if Matches(left, packet) {
        AfterAt(program, packet, s, first, mid);
        FilterSim(program, packet, After(program, packet, s, first), right, a, r);
      }
      SequenceReaches(program, packet, s, first, rest, if Matches(left, packet) then mid else r, exit);
    case Or(left, right) =>
      var mid, exit := s.pc + Size(left), if Matches(ast, packet) then a else r;
      var first, rest := CodeAt(left, s.pc, a, mid), CodeAt(right, mid, a, r);
      OrParts(left, right, s.pc, a, r);
      LoadedSplit(program, first, rest, s.pc);
      FilterSim(program, packet, s, left, a, mid);
      if !Matches(left, packet) {
        AfterAt(program, packet, s, first, mid);
        FilterSim(program, packet, After(program, packet, s, first), right, a, r);
      }
      SequenceReaches(program, packet, s, first, rest, if Matches(left, packet) then a else mid, exit);
    case _ =>
      LeafParts(ast, s.pc, a, r);
      LeafSim(program, packet, s, ast, a, r);
  }

  lemma ReturnStep(program: seq<Instruction>, packet: Packet, s: State, k: u32)
    requires s.pc < |program| && program[s.pc] == RetK(k)
    ensures Run(program, packet, s) == Returned(s.pc, k)
  {
    BuildersDecode(k, 0, 0);
  }

  lemma ProgramLoaded(ast: Ast)
    requires Encodable(Program(ast), 0)
    ensures var n, program := Size(ast), EncodeAll(Program(ast), 0);
            |program| == n + 2 && Loaded(program, CodeAt(ast, 0, n, n + 1), 0) &&
            program[n] == RetK(CBPF_ACCEPT) && program[n + 1] == RetK(CBPF_REJECT)
  {
    hide CodeAt, Size, Program, Encodable, Loaded;
    var n, program := Size(ast), EncodeAll(Program(ast), 0);
    var c, accept, reject := CodeAt(ast, 0, n, n + 1), [Plain(RetK(CBPF_ACCEPT))], [Plain(RetK(CBPF_REJECT))];
    ProgramParts(ast);
    AllLoaded(Program(ast));
    LoadedSplit(program, c + accept, reject, 0);
    LoadedSplit(program, c, accept, 0);
    OneLoaded(program, RetK(CBPF_ACCEPT), n);
    OneLoaded(program, RetK(CBPF_REJECT), n + 1);
  }

  lemma AllLoaded(c: Code)
    requires Encodable(c, 0)
    ensures Loaded(EncodeAll(c, 0), c, 0)
  {
    assert forall i :: 0 <= i < |c| ==> InReach(c[i], 0 + i);
  }

  lemma OneLoaded(program: seq<Instruction>, inst: Instruction, s: nat)
    requires Loaded(program, [Plain(inst)], s)
    ensures s < |program| && program[s] == inst
  {
    assert program[s + 0] == Encode([Plain(inst)][0], s + 0);
  }

  /** The encoded program of a filter ends at its first return instruction exactly when the filter
      matches and at the second one exactly when it does not: it is never stuck and never runs off. */
  lemma ProgramCorrect(ast: Ast, packet: Packet)
    requires Encodable(Program(ast), 0)
    ensures Run(EncodeAll(Program(ast), 0), packet, START) ==
            if Matches(ast, packet) then Returned(Size(ast), CBPF_ACCEPT) else Returned(Size(ast) + 1, CBPF_REJECT)
  {
    hide RunTo, Run, Matches, CodeAt, Program, Loaded, Encodable;
    var n, program := Size(ast), EncodeAll(Program(ast), 0);
    ProgramLoaded(ast);
    FilterSim(program, packet, START, ast, n, n + 1);
    RunFromRunTo(program, packet, START, n);
    var value := if Matches(ast, packet) then CBPF_ACCEPT else CBPF_REJECT;
    ReturnStep(program, packet, RunTo(program, packet, START, n).state, value);
  }
}
