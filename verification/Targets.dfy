/** Every jump of a compiled program, taken or not, lands inside the program. */
module Targets {
  import opened Bits
  import opened Bpf
  import opened FilterAst
  import opened Vm
  import opened Layout

  /** A conditional jump whose targets are below `n`, or an instruction that is no jump. */
  predicate Inside(p: Placed, n: nat) {
    match p
    case Plain(inst) => !Decode(inst).JumpIf? && !Decode(inst).JumpAlways?
    case Branch(inst, t, f) => Decode(inst).JumpIf? && t < n && f < n
  }

  ghost predicate AllInside(c: Code, n: nat) {
    forall i :: 0 <= i < |c| ==> Inside(c[i], n)
  }

  lemma Both(c: Code, d: Code, n: nat)
    requires AllInside(c, n) && AllInside(d, n)
    ensures AllInside(c + d, n)
  {
  }

  // ----- building blocks -----

  lemma LoadsInside(k: u32, n: nat)
    ensures Inside(Plain(LdAbsB(k)), n) && Inside(Plain(LdAbsH(k)), n) && Inside(Plain(LdAbsW(k)), n)
    ensures Inside(Plain(LdIndH(k)), n) && Inside(Plain(LdxMshB(k)), n) && Inside(Plain(AndK(k)), n)
    ensures Inside(Plain(LdLen()), n) && Inside(Plain(RetK(k)), n)
  {
    BuildersDecode(k, 0, 0);
  }

  lemma JumpsInside(k: u32, t: nat, f: nat, n: nat)
    requires t < n && f < n
    ensures Inside(Branch(Jeq(k), t, f), n) && Inside(Branch(Jgt(k), t, f), n) && Inside(Branch(Jge(k), t, f), n)
  {
    BuildersDecode(k, 0, 0);
  }

  lemma FieldIsInside(load: Instruction, k: u32, a: nat, r: nat, n: nat)
    requires Inside(Plain(load), n) && a < n && r < n
    ensures AllInside(FieldIs(load, k, a, r), n)
  {
    hide Inside;
    JumpsInside(k, a, r, n);
  }

  lemma FieldsInInside(dir: Direction, src: Instruction, dst: Instruction, k: u32, s: nat, a: nat, r: nat, n: nat)
    requires Inside(Plain(src), n) && Inside(Plain(dst), n) && a < n && r < n && (dir == Any ==> s + 2 < n)
    ensures AllInside(FieldsIn(dir, src, dst, k, s, a, r), n)
  {
    hide Inside, AllInside, FieldIs;
    FieldIsInside(src, k, a, if dir == Any then s + 2 else r, n);
    FieldIsInside(dst, k, a, r, n);
    if dir == Any { Both(FieldIs(src, k, a, s + 2), FieldIs(dst, k, a, r), n); }
  }

  lemma FieldBetweenInside(load: Instruction, lo: u32, hi: u32, s: nat, a: nat, r: nat, n: nat)
    requires Inside(Plain(load), n) && s + 3 <= n && a < n && r < n
    ensures AllInside(FieldBetween(load, lo, hi, s, a, r), n)
  {
    hide Inside;
    JumpsInside(lo, s + 2, r, n);
    JumpsInside(hi, r, a, n);
  }

  lemma RangesInInside(dir: Direction, src: Instruction, dst: Instruction, lo: u32, hi: u32,
                       s: nat, a: nat, r: nat, n: nat)
    requires Inside(Plain(src), n) && Inside(Plain(dst), n) && s + (if dir == Any then 6 else 3) <= n && a < n && r < n
    ensures AllInside(RangesIn(dir, src, dst, lo, hi, s, a, r), n)
  {
    hide Inside, FieldBetween;
    match dir
    case Any =>
      var first := [Plain(src), Branch(Jge(lo), s + 2, r), Branch(Jgt(hi), s + 3, a)];
      JumpsInside(lo, s + 2, r, n);
      JumpsInside(hi, s + 3, a, n);
      FieldBetweenInside(dst, lo, hi, s + 3, a, r, n);
      Both(first, FieldBetween(dst, lo, hi, s + 3, a, r), n);
    case Src => FieldBetweenInside(src, lo, hi, s, a, r, n);
    case Dst => FieldBetweenInside(dst, lo, hi, s, a, r, n);
  }

  lemma {:induction false} WordsInside(offset: nat, words: seq<u32>, s: nat, a: nat, r: nat, n: nat)
    requires |words| > 0 && offset + 4 * |words| <= 0x1_0000 && s + 2 * |words| <= n && a < n && r < n
    ensures AllInside(WordsAt(offset, words, s, a, r), n)
    decreases |words|
  {
    hide Inside, AllInside, FieldIs;
    LoadsInside(offset, n);
    if |words| == 1 {
      FieldIsInside(LdAbsW(offset), words[0], a, r, n);
    } else {
      FieldIsInside(LdAbsW(offset), words[0], s + 2, r, n);
      WordsInside(offset + 4, words[1..], s + 2, a, r, n);
      Both(FieldIs(LdAbsW(offset), words[0], s + 2, r), WordsAt(offset + 4, words[1..], s + 2, a, r), n);
    }
  }

  lemma MaskedFieldInside(offset: u32, mask: u32, k: u32, a: nat, r: nat, n: nat)
    requires a < n && r < n
    ensures AllInside(MaskedFieldIs(offset, mask, k, a, r), n)
  {
    hide Inside;
    LoadsInside(offset, n);
    LoadsInside(mask, n);
    JumpsInside(k, a, r, n);
  }

  lemma {:induction false} MaskedWordsInside(offset: nat, words: seq<u32>, masks: seq<u32>,
                                             s: nat, a: nat, r: nat, n: nat)
    requires |masks| == |words| > 0 && offset + 4 * |words| <= 0x1_0000 && s + 3 * |words| <= n && a < n && r < n
    ensures AllInside(MaskedWordsAt(offset, words, masks, s, a, r), n)
    decreases |words|
  {
    hide AllInside, MaskedFieldIs;
    if |words| == 1 {
      MaskedFieldInside(offset, masks[0], words[0], a, r, n);
    } else {
      MaskedFieldInside(offset, masks[0], words[0], s + 3, r, n);
      MaskedWordsInside(offset + 4, words[1..], masks[1..], s + 3, a, r, n);
      Both(MaskedFieldIs(offset, masks[0], words[0], s + 3, r),
           MaskedWordsAt(offset + 4, words[1..], masks[1..], s + 3, a, r), n);
    }
  }

  lemma FamilySplitInside(s: nat, v4: nat, r: nat, n: nat)
    requires s + 3 < n && v4 < n && r < n
    ensures AllInside(FamilySplit(s, v4, r), n)
  {
    hide Inside;
    LoadsInside(12, n);
    JumpsInside(ETHERTYPE_IP, v4, s + 2, n);
    JumpsInside(ETHERTYPE_IPV6, s + 3, r, n);
  }

  lemma TcpOrUdpInside(load: Instruction, s: nat, r: nat, n: nat)
    requires Inside(Plain(load), n) && s + 3 < n && r < n
    ensures AllInside(TcpOrUdp(load, s, r), n)
  {
    hide Inside;
    JumpsInside(IPPROTO_TCP, s + 3, s + 2, n);
    JumpsInside(IPPROTO_UDP, s + 3, r, n);
  }

  lemma OneInside(inst: Instruction, n: nat)
    requires Inside(Plain(inst), n)
    ensures AllInside([Plain(inst)], n)
  {
  }

  lemma OverPortsInside(v6: Code, v4: Code, s: nat, r: nat, n: nat)
    requires AllInside(v6, n) && AllInside(v4, n) && s + 10 + |v6| + |v4| <= n && |v4| >= 1 && r < n
    ensures AllInside(OverPorts(v6, v4, s, r), n)
  {
    hide Inside, AllInside, FamilySplit, TcpOrUdp;
    LoadsInside(20, n);
    LoadsInside(23, n);
    LoadsInside(14, n);
    var split, t6 := FamilySplit(s, s + 6 + |v6|, r), TcpOrUdp(LdAbsB(20), s + 3, r);
    var t4, ldx := TcpOrUdp(LdAbsB(23), s + 6 + |v6|, r), [Plain(LdxMshB(14))];
    FamilySplitInside(s, s + 6 + |v6|, r, n);
    TcpOrUdpInside(LdAbsB(20), s + 3, r, n);
    TcpOrUdpInside(LdAbsB(23), s + 6 + |v6|, r, n);
    OneInside(LdxMshB(14), n);
    Both(split, t6, n);
    Both(split + t6, v6, n);
    Both(split + t6 + v6, t4, n);
    Both(split + t6 + v6 + t4, ldx, n);
    Both(split + t6 + v6 + t4 + ldx, v4, n);
  }

  lemma MacInside(offset: u32, mac: Mac, s: nat, a: nat, r: nat, n: nat)
    requires offset + 4 < 0x1_0000_0000 && s + 4 <= n && a < n && r < n
    ensures AllInside(MacAt(offset, mac, s, a, r), n)
  {
    hide Inside, AllInside, FieldIs;
    LoadsInside(offset, n);
    LoadsInside(offset + 4, n);
    FieldIsInside(LdAbsW(offset), MacHigh(mac), s + 2, r, n);
    FieldIsInside(LdAbsH(offset + 4), MacLow(mac), a, r, n);
    Both(FieldIs(LdAbsW(offset), MacHigh(mac), s + 2, r), FieldIs(LdAbsH(offset + 4), MacLow(mac), a, r), n);
  }

  // ----- predicates -----

  lemma ProtoInside(proto: Protocol, s: nat, a: nat, r: nat, n: nat)
    requires s + LeafSize(Proto(proto)) <= n && a < n && r < n
    ensures AllInside(ProtoCode(proto, s, a, r), n)
  {
    hide Inside, AllInside, FieldIs, FamilySplit;
    LoadsInside(12, n);
    match proto
    case Tcp => TransportInside(IPPROTO_TCP, s, a, r, n);
    case Udp => TransportInside(IPPROTO_UDP, s, a, r, n);
    case Icmp => GuardedByte(ETHERTYPE_IP, 23, IPPROTO_ICMP, s, a, r, n);
    case Icmp6 => GuardedByte(ETHERTYPE_IPV6, 20, IPPROTO_ICMPV6, s, a, r, n);
    case Ip => FieldIsInside(LdAbsH(12), ETHERTYPE_IP, a, r, n);
    case Ip6 => FieldIsInside(LdAbsH(12), ETHERTYPE_IPV6, a, r, n);
    case Arp => FieldIsInside(LdAbsH(12), ETHERTYPE_ARP, a, r, n);
    case Rarp => FieldIsInside(LdAbsH(12), ETHERTYPE_RARP, a, r, n);
  }

  lemma GuardedByte(ethertype: u16, offset: u32, k: u32, s: nat, a: nat, r: nat, n: nat)
    requires s + 4 <= n && a < n && r < n
    ensures AllInside(FieldIs(LdAbsH(12), ethertype, s + 2, r) + FieldIs(LdAbsB(offset), k, a, r), n)
  {
    hide Inside, AllInside, FieldIs;
    LoadsInside(offset, n);
    FieldIsInside(LdAbsB(offset), k, a, r, n);
    GuardedInside(ethertype, FieldIs(LdAbsB(offset), k, a, r), s, r, n);
  }

  lemma TransportInside(proto: u8, s: nat, a: nat, r: nat, n: nat)
    requires s + 7 <= n && a < n && r < n
    ensures AllInside(TransportCode(proto, s, a, r), n)
  {
    hide Inside, AllInside, FieldIs, FamilySplit;
    LoadsInside(20, n);
    LoadsInside(23, n);
    FamilySplitInside(s, s + 5, r, n);
    FieldIsInside(LdAbsB(20), proto, a, r, n);
    FieldIsInside(LdAbsB(23), proto, a, r, n);
    Both(FamilySplit(s, s + 5, r), FieldIs(LdAbsB(20), proto, a, r), n);
    Both(FamilySplit(s, s + 5, r) + FieldIs(LdAbsB(20), proto, a, r), FieldIs(LdAbsB(23), proto, a, r), n);
  }

  lemma GuardedInside(ethertype: u16, body: Code, s: nat, r: nat, n: nat)
    requires AllInside(body, n) && s + 2 < n && r < n
    ensures AllInside(FieldIs(LdAbsH(12), ethertype, s + 2, r) + body, n)
  {
    hide Inside, AllInside, FieldIs;
    LoadsInside(12, n);
    FieldIsInside(LdAbsH(12), ethertype, s + 2, r, n);
    Both(FieldIs(LdAbsH(12), ethertype, s + 2, r), body, n);
  }

  lemma PortsInside(leaf: Ast, s: nat, a: nat, r: nat, n: nat)
    requires (leaf.Port? || leaf.PortRange?) && s + LeafSize(leaf) <= n && a < n && r < n
    ensures AllInside(LeafCode(leaf, s, a, r), n)
  {
    hide Inside, AllInside, OverPorts, FieldsIn, RangesIn;
    LoadsInside(54, n);
    LoadsInside(56, n);
    LoadsInside(14, n);
    LoadsInside(16, n);
    match leaf
    case Port(port, dir) =>
      var m := if dir == Any then 4 else 2;
      FieldsInInside(dir, LdAbsH(54), LdAbsH(56), port, s + 6, a, r, n);
      FieldsInInside(dir, LdIndH(14), LdIndH(16), port, s + 10 + m, a, r, n);
      OverPortsInside(FieldsIn(dir, LdAbsH(54), LdAbsH(56), port, s + 6, a, r),
                      FieldsIn(dir, LdIndH(14), LdIndH(16), port, s + 10 + m, a, r), s, r, n);
    case PortRange(lo, hi, dir) =>
      var m := if dir == Any then 6 else 3;
      RangesInInside(dir, LdAbsH(54), LdAbsH(56), lo, hi, s + 6, a, r, n);
      RangesInInside(dir, LdIndH(14), LdIndH(16), lo, hi, s + 10 + m, a, r, n);
      OverPortsInside(RangesIn(dir, LdAbsH(54), LdAbsH(56), lo, hi, s + 6, a, r),
                      RangesIn(dir, LdIndH(14), LdIndH(16), lo, hi, s + 10 + m, a, r), s, r, n);
  }

  lemma HostInside(host: HostAddr, dir: Direction, s: nat, a: nat, r: nat, n: nat)
    requires s + LeafSize(Host(host, dir)) <= n && a < n && r < n
    ensures AllInside(HostCode(host, dir, s, a, r), n)
  {
    hide Inside, AllInside, FieldIs, FieldsIn, WordsAt, Ipv6Words;
    match host
    case HostV4(v4) =>
      LoadsInside(26, n);
      LoadsInside(30, n);
      FieldsInInside(dir, LdAbsW(26), LdAbsW(30), v4, s + 2, a, r, n);
      GuardedInside(ETHERTYPE_IP, FieldsIn(dir, LdAbsW(26), LdAbsW(30), v4, s + 2, a, r), s, r, n);
    case HostV6(v6) =>
      var w := Ipv6Words(v6);
      match dir {
        case Any =>
          WordsInside(22, w, s + 2, a, s + 10, n);
          WordsInside(38, w, s + 10, a, r, n);
          Both(WordsAt(22, w, s + 2, a, s + 10), WordsAt(38, w, s + 10, a, r), n);
        case Src => WordsInside(22, w, s + 2, a, r, n);
        case Dst => WordsInside(38, w, s + 2, a, r, n);
      }
      GuardedInside(ETHERTYPE_IPV6, AddressIn(dir, w, s + 2, a, r), s, r, n);
  }

  lemma NetInside(net: NetAddr, dir: Direction, s: nat, a: nat, r: nat, n: nat)
    requires s + LeafSize(Ast.Net(net, dir)) <= n && a < n && r < n
    ensures AllInside(NetCode(net, dir, s, a, r), n)
  {
    hide Inside, AllInside, FieldIs, MaskedFieldIs, MaskedWordsAt, Ipv6Words, Bits.And;
    match net
    case NetV4(addr, mask) =>
      var k: u32 := Bits.And(addr, mask);
      MaskedFieldInside(26, mask, k, a, if dir == Any then s + 5 else r, n);
      MaskedFieldInside(30, mask, k, a, r, n);
      if dir == Any { Both(MaskedFieldIs(26, mask, k, a, s + 5), MaskedFieldIs(30, mask, k, a, r), n); }
      GuardedInside(ETHERTYPE_IP, Net4In(dir, mask, k, s + 2, a, r), s, r, n);
    case NetV6(addr, mask) =>
      var w, x := Ipv6Words(addr), Ipv6Words(mask);
      match dir {
        case Any =>
          MaskedWordsInside(22, w, x, s + 2, a, s + 14, n);
          MaskedWordsInside(38, w, x, s + 14, a, r, n);
          Both(MaskedWordsAt(22, w, x, s + 2, a, s + 14), MaskedWordsAt(38, w, x, s + 14, a, r), n);
        case Src => MaskedWordsInside(22, w, x, s + 2, a, r, n);
        case Dst => MaskedWordsInside(38, w, x, s + 2, a, r, n);
      }
      GuardedInside(ETHERTYPE_IPV6, Net6In(dir, w, x, s + 2, a, r), s, r, n);
  }

  lemma EtherHostInside(mac: Mac, dir: Direction, s: nat, a: nat, r: nat, n: nat)
    requires s + LeafSize(EtherHost(mac, dir)) <= n && a < n && r < n
    ensures AllInside(EtherHostCode(mac, dir, s, a, r), n)
  {
    hide Inside, AllInside, MacAt;
    match dir
    case Any =>
      MacInside(0, mac, s, a, s + 4, n);
      MacInside(6, mac, s + 4, a, r, n);
      Both(MacAt(0, mac, s, a, s + 4), MacAt(6, mac, s + 4, a, r), n);
    case Src => MacInside(6, mac, s, a, r, n);
    case Dst => MacInside(0, mac, s, a, r, n);
  }

  lemma LenInside(op: RelOp, len: u32, a: nat, r: nat, n: nat)
    requires a < n && r < n
    ensures AllInside(LenCode(op, len, a, r), n)
  {
    hide Inside;
    LoadsInside(0, n);
    JumpsInside(len, a, r, n);
    JumpsInside(len, r, a, n);
  }

  lemma LeafInside(leaf: Ast, s: nat, a: nat, r: nat, n: nat)
    requires leaf.Leaf() && s + LeafSize(leaf) <= n && a < n && r < n
    ensures AllInside(LeafCode(leaf, s, a, r), n)
  {
    hide AllInside, LeafSize;
    match leaf
    case Proto(proto) => ProtoInside(proto, s, a, r, n);
    case Host(host, dir) => HostInside(host, dir, s, a, r, n);
    case Port(_, _) => PortsInside(leaf, s, a, r, n);
    case PortRange(_, _, _) => PortsInside(leaf, s, a, r, n);
    case EtherHost(mac, dir) => EtherHostInside(mac, dir, s, a, r, n);
    case Net(net, dir) => NetInside(net, dir, s, a, r, n);
    case Len(op, len) => LenInside(op, len, a, r, n);
  }

  // ----- filters and programs -----

  /** Both exits of a filter and the code itself are below `n`; so is every target of its jumps. */
  lemma {:induction false} FilterInside(ast: Ast, s: nat, a: nat, r: nat, n: nat)
    requires s + Size(ast) <= n && a < n && r < n
    ensures AllInside(CodeAt(ast, s, a, r), n)
    decreases ast
  {
    hide AllInside, LeafCode, LeafSize;
    match ast
    case And(left, right) =>
      var mid := s + Size(left);
      FilterInside(left, s, mid, r, n);
      FilterInside(right, mid, a, r, n);
      Both(CodeAt(left, s, mid, r), CodeAt(right, mid, a, r), n);
    case Or(left, right) =>
      var mid := s + Size(left);
      FilterInside(left, s, a, mid, n);
      FilterInside(right, mid, a, r, n);
      Both(CodeAt(left, s, a, mid), CodeAt(right, mid, a, r), n);
    case Not(inner) => FilterInside(inner, s, r, a, n);
    case _ => LeafInside(ast, s, a, r, n);
  }

  /** Every jump of a program has both its targets inside the program, and is a conditional jump. */
  lemma JumpsLandInside(ast: Ast)
    ensures AllInside(Program(ast), |Program(ast)|)
    ensures forall i :: 0 <= i < |Program(ast)| && Program(ast)[i].Branch? ==>
              Program(ast)[i].onTrue < |Program(ast)| && Program(ast)[i].onFalse < |Program(ast)|
  {
    hide Inside, AllInside, Program, CodeAt;
    var m := Size(ast);
    ProgramParts(ast);
    FilterInside(ast, 0, m, m + 1, m + 2);
    LoadsInside(CBPF_ACCEPT, m + 2);
    LoadsInside(CBPF_REJECT, m + 2);
    OneInside(RetK(CBPF_ACCEPT), m + 2);
    OneInside(RetK(CBPF_REJECT), m + 2);
    Both(CodeAt(ast, 0, m, m + 1), [Plain(RetK(CBPF_ACCEPT))], m + 2);
    Both(CodeAt(ast, 0, m, m + 1) + [Plain(RetK(CBPF_ACCEPT))], [Plain(RetK(CBPF_REJECT))], m + 2);
    InsideTargets(Program(ast), m + 2);
  }

  lemma InsideTargets(c: Code, n: nat)
    requires AllInside(c, n)
    ensures forall i :: 0 <= i < |c| && c[i].Branch? ==> c[i].onTrue < n && c[i].onFalse < n
  {
    forall i | 0 <= i < |c| && c[i].Branch? ensures c[i].onTrue < n && c[i].onFalse < n {
      assert Inside(c[i], n);
    }
  }

  /** The machine's view: an instruction at `pc` is no unconditional jump, and if it is a conditional one,
      both its relative offsets lead to an instruction of the program. */
  predicate StaysInside(op: Op, pc: nat, n: nat) {
    !op.JumpAlways? && (op.JumpIf? ==> pc + 1 + op.jt < n && pc + 1 + op.jf < n)
  }

  /** The same of the assembled program as the machine decodes it. */
  lemma AssembledJumpsLandInside(ast: Ast)
    requires Assemble(Program(ast)).Ok?
    ensures var program := Assemble(Program(ast)).program;
            forall i :: 0 <= i < |program| ==>
              var op := Decode(program[i]);
              !op.JumpAlways? && (op.JumpIf? ==> i + 1 + op.jt < |program| && i + 1 + op.jf < |program|)
  {
    hide Program, Inside, Decode;
    JumpsLandInside(ast);
    var c := Program(ast);
    var program := Assemble(c).program;
    forall i | 0 <= i < |program| ensures StaysInside(Decode(program[i]), i, |program|) {
      assert Inside(c[i], |c|) && InReach(c[i], 0 + i) && program[i] == Encode(c[i], 0 + i);
      EncodedStaysInside(c[i], i, |c|);
    }
  }

  lemma EncodedStaysInside(p: Placed, idx: nat, n: nat)
    requires Inside(p, n) && InReach(p, idx)
    ensures StaysInside(Decode(Encode(p, idx)), idx, n)
  {
  }
}
