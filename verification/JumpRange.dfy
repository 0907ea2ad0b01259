/** Exactly which filters can be assembled: the longest jump as a function of the filter. */
module JumpRange {
  import opened Common
  import opened Bits
  import opened Bpf
  import opened FilterAst
  import opened Layout

  /** Distance from the first jump to accept to the end of the leaf's code. */
  function AcceptReach(leaf: Ast): nat
    requires leaf.Leaf()
  {
    match leaf
    case Proto(Tcp) => 2
    case Proto(Udp) => 2
    case Proto(_) => 0
    case Host(HostV4(_), dir) => if dir == Any then 2 else 0
    case Host(HostV6(_), dir) => if dir == Any then 8 else 0
    case Port(_, dir) => if dir == Any then 10 else 6
    case PortRange(_, _, dir) => if dir == Any then 13 else 7
    case EtherHost(_, dir) => if dir == Any then 4 else 0
    case Net(NetV4(_, _), dir) => if dir == Any then 3 else 0
    case Net(NetV6(_, _), dir) => if dir == Any then 12 else 0
    case Len(_, _) => 0
  }

  /** Distance from the first jump to reject to the end of the leaf's code. */
  function RejectReach(leaf: Ast): nat
    requires leaf.Leaf()
  {
    match leaf
    case Proto(Tcp) => 4
    case Proto(Udp) => 4
    case Proto(Icmp) => 2
    case Proto(Icmp6) => 2
    case Proto(_) => 0
    case Host(HostV4(_), dir) => if dir == Any then 4 else 2
    case Host(HostV6(_), dir) => if dir == Any then 16 else 8
    case Port(_, dir) => if dir == Any then 15 else 11
    case PortRange(_, _, dir) => if dir == Any then 19 else 13
    case EtherHost(_, _) => 2
    case Net(NetV4(_, _), dir) => if dir == Any then 6 else 3
    case Net(NetV6(_, _), dir) => if dir == Any then 24 else 12
    case Len(_, _) => 0
  }

  /** The longest jump in the code of a filter whose exits lie `da` and `dr` instructions behind its end. */
  function MaxSkip(ast: Ast, da: nat, dr: nat): nat {
    match ast
    case And(l, r) => Max(MaxSkip(l, 0, Size(r) + dr), MaxSkip(r, da, dr))
    case Or(l, r) => Max(MaxSkip(l, Size(r) + da, 0), MaxSkip(r, da, dr))
    case Not(x) => MaxSkip(x, dr, da)
    case _ => Max(AcceptReach(ast) + da, RejectReach(ast) + dr)
  }

  // ----- code whose jumps are all forward and no longer than `m` -----

  predicate Fits(p: Placed, idx: nat, m: nat) {
    p.Plain? || (idx < p.onTrue <= idx + 1 + m && idx < p.onFalse <= idx + 1 + m)
  }

  ghost predicate Within(c: Code, s: nat, m: nat) {
    forall i :: 0 <= i < |c| ==> Fits(c[i], s + i, m)
  }

  lemma WithinSplit(c: Code, d: Code, s: nat, m: nat)
    ensures Within(c + d, s, m) <==> Within(c, s, m) && Within(d, s + |c|, m)
  {
    if Within(c + d, s, m) {
      forall i | 0 <= i < |c| ensures Fits(c[i], s + i, m) { assert (c + d)[i] == c[i]; }
      forall i | 0 <= i < |d| ensures Fits(d[i], s + |c| + i, m) { assert (c + d)[|c| + i] == d[i]; }
    }
    if Within(c, s, m) && Within(d, s + |c|, m) {
      forall i | 0 <= i < |c + d| ensures Fits((c + d)[i], s + i, m) {
        if i >= |c| { assert Fits(d[i - |c|], s + |c| + (i - |c|), m); }
      }
    }
  }

  lemma FieldIsWithin(load: Instruction, k: u32, s: nat, a: nat, r: nat, m: nat)
    ensures Within(FieldIs(load, k, a, r), s, m) <==> s + 2 <= a <= s + 2 + m && s + 2 <= r <= s + 2 + m
  {
    var c := FieldIs(load, k, a, r);
    assert Within(c, s, m) <==> Fits(c[0], s + 0, m) && Fits(c[1], s + 1, m);
  }

  lemma MaskedFieldIsWithin(offset: u32, mask: u32, k: u32, s: nat, a: nat, r: nat, m: nat)
    ensures Within(MaskedFieldIs(offset, mask, k, a, r), s, m) <==> s + 3 <= a <= s + 3 + m && s + 3 <= r <= s + 3 + m
  {
    var c := MaskedFieldIs(offset, mask, k, a, r);
    assert Within(c, s, m) <==> Fits(c[0], s + 0, m) && Fits(c[1], s + 1, m) && Fits(c[2], s + 2, m);
  }

  lemma ThreeWithin(c: Code, s: nat, m: nat)
    requires |c| == 3
    ensures Within(c, s, m) <==> Fits(c[0], s, m) && Fits(c[1], s + 1, m) && Fits(c[2], s + 2, m)
  {
    assert Within(c, s, m) <==> Fits(c[0], s + 0, m) && Fits(c[1], s + 1, m) && Fits(c[2], s + 2, m);
  }

  lemma {:induction false} WordsWithin(offset: nat, words: seq<u32>, s: nat, a: nat, r: nat, m: nat)
    requires |words| > 0 && offset + 4 * |words| <= 0x1_0000
    requires s + 2 * |words| <= a && s + 2 * |words| <= r
    ensures Within(WordsAt(offset, words, s, a, r), s, m) <==> a <= s + 2 * |words| + m && r <= s + 2 + m
    decreases |words|
  {
    hide Within;
    FieldIsWithin(LdAbsW(offset), words[0], s, if |words| == 1 then a else s + 2, r, m);
    if |words| > 1 {
      WordsWithin(offset + 4, words[1..], s + 2, a, r, m);
      WithinSplit(FieldIs(LdAbsW(offset), words[0], s + 2, r), WordsAt(offset + 4, words[1..], s + 2, a, r), s, m);
    }
  }

  lemma {:induction false} MaskedWordsWithin(offset: nat, words: seq<u32>, masks: seq<u32>, s: nat, a: nat, r: nat,
                                             m: nat)
    requires |masks| == |words| > 0 && offset + 4 * |words| <= 0x1_0000
    requires s + 3 * |words| <= a && s + 3 * |words| <= r
    ensures Within(MaskedWordsAt(offset, words, masks, s, a, r), s, m) <==> a <= s + 3 * |words| + m && r <= s + 3 + m
    decreases |words|
  {
    hide Within;
    MaskedFieldIsWithin(offset, masks[0], words[0], s, if |words| == 1 then a else s + 3, r, m);
    if |words| > 1 {
      MaskedWordsWithin(offset + 4, words[1..], masks[1..], s + 3, a, r, m);
      WithinSplit(MaskedFieldIs(offset, masks[0], words[0], s + 3, r),
                  MaskedWordsAt(offset + 4, words[1..], masks[1..], s + 3, a, r), s, m);
    }
  }

  // ----- leaves -----

  lemma ProtoWithin(proto: Protocol, s: nat, a: nat, r: nat, m: nat)
    requires var n := |ProtoCode(proto, s, a, r)|; s + n <= a && s + n <= r
    ensures var p := Ast.Proto(proto); var end := s + LeafSize(p);
            Within(ProtoCode(proto, s, a, r), s, m) <==> a - end + AcceptReach(p) <= m && r - end + RejectReach(p) <= m
  {
    hide Within;
    match proto
    case Icmp =>
      FieldIsWithin(LdAbsH(12), ETHERTYPE_IP, s, s + 2, r, m);
      FieldIsWithin(LdAbsB(23), IPPROTO_ICMP, s + 2, a, r, m);
      WithinSplit(FieldIs(LdAbsH(12), ETHERTYPE_IP, s + 2, r), FieldIs(LdAbsB(23), IPPROTO_ICMP, a, r), s, m);
    case Icmp6 =>
      FieldIsWithin(LdAbsH(12), ETHERTYPE_IPV6, s, s + 2, r, m);
      FieldIsWithin(LdAbsB(20), IPPROTO_ICMPV6, s + 2, a, r, m);
      WithinSplit(FieldIs(LdAbsH(12), ETHERTYPE_IPV6, s + 2, r), FieldIs(LdAbsB(20), IPPROTO_ICMPV6, a, r), s, m);
    case Tcp => TransportWithin(IPPROTO_TCP, s, a, r, m);
    case Udp => TransportWithin(IPPROTO_UDP, s, a, r, m);
    case Ip => FieldIsWithin(LdAbsH(12), ETHERTYPE_IP, s, a, r, m);
    case Ip6 => FieldIsWithin(LdAbsH(12), ETHERTYPE_IPV6, s, a, r, m);
    case Arp => FieldIsWithin(LdAbsH(12), ETHERTYPE_ARP, s, a, r, m);
    case Rarp => FieldIsWithin(LdAbsH(12), ETHERTYPE_RARP, s, a, r, m);
  }

  lemma TransportWithin(proto: u8, s: nat, a: nat, r: nat, m: nat)
    requires s + 7 <= a && s + 7 <= r
    ensures Within(TransportCode(proto, s, a, r), s, m) <==> a - s - 5 <= m && r - s - 3 <= m
  {
    hide Within;
    var split, v6, v4 := FamilySplit(s, s + 5, r), FieldIs(LdAbsB(20), proto, a, r), FieldIs(LdAbsB(23), proto, a, r);
    ThreeWithin(split, s, m);
    FieldIsWithin(LdAbsB(20), proto, s + 3, a, r, m);
    FieldIsWithin(LdAbsB(23), proto, s + 5, a, r, m);
    WithinSplit(split, v6, s, m);
    WithinSplit(split + v6, v4, s, m);
  }

  lemma FieldsInWithin(dir: Direction, src: Instruction, dst: Instruction, k: u32, s: nat, a: nat, r: nat, m: nat)
    requires var n := |FieldsIn(dir, src, dst, k, s, a, r)|; s + n <= a && s + n <= r
    ensures Within(FieldsIn(dir, src, dst, k, s, a, r), s, m) <==>
            a <= s + 2 + m && r <= (if dir == Any then s + 4 + m else s + 2 + m)
  {
    hide Within;
    match dir
    case Any =>
      FieldIsWithin(src, k, s, a, s + 2, m);
      FieldIsWithin(dst, k, s + 2, a, r, m);
      WithinSplit(FieldIs(src, k, a, s + 2), FieldIs(dst, k, a, r), s, m);
    case Src => FieldIsWithin(src, k, s, a, r, m);
    case Dst => FieldIsWithin(dst, k, s, a, r, m);
  }

  lemma RangesInWithin(dir: Direction, src: Instruction, dst: Instruction, lo: u32, hi: u32, s: nat, a: nat, r: nat,
                       m: nat)
    requires var n := |RangesIn(dir, src, dst, lo, hi, s, a, r)|; s + n <= a && s + n <= r
    ensures Within(RangesIn(dir, src, dst, lo, hi, s, a, r), s, m) <==> a <= s + 3 + m && r <= s + 2 + m
  {
    hide Within;
    match dir
    case Any =>
      var first, rest := [Plain(src), Branch(Jge(lo), s + 2, r), Branch(Jgt(hi), s + 3, a)],
          FieldBetween(dst, lo, hi, s + 3, a, r);
      ThreeWithin(first, s, m);
      ThreeWithin(rest, s + 3, m);
      WithinSplit(first, rest, s, m);
    case Src => ThreeWithin(FieldBetween(src, lo, hi, s, a, r), s, m);
    case Dst => ThreeWithin(FieldBetween(dst, lo, hi, s, a, r), s, m);
  }

  lemma OverPortsWithin(v6: Code, v4: Code, s: nat, r: nat, m: nat)
    requires s + 10 + |v6| + |v4| <= r && |v4| >= 1
    ensures Within(OverPorts(v6, v4, s, r), s, m) <==>
            Within(v6, s + 6, m) && Within(v4, s + 10 + |v6|, m) && r - s - 3 <= m
  {
    hide Within;
    var split, t6, t4 := FamilySplit(s, s + 6 + |v6|, r), TcpOrUdp(LdAbsB(20), s + 3, r),
        TcpOrUdp(LdAbsB(23), s + 6 + |v6|, r);
    var ldx := [Plain(LdxMshB(14))];
    ThreeWithin(split, s, m);
    ThreeWithin(t6, s + 3, m);
    ThreeWithin(t4, s + 6 + |v6|, m);
    OneWithin(LdxMshB(14), s + 9 + |v6|, m);
    WithinSplit(split, t6, s, m);
    WithinSplit(split + t6, v6, s, m);
    WithinSplit(split + t6 + v6, t4, s, m);
    WithinSplit(split + t6 + v6 + t4, ldx, s, m);
    WithinSplit(split + t6 + v6 + t4 + ldx, v4, s, m);
  }

  lemma OneWithin(inst: Instruction, s: nat, m: nat)
    ensures Within([Plain(inst)], s, m)
  {
  }

  lemma PortWithin(leaf: Ast, s: nat, a: nat, r: nat, m: nat)
    requires leaf.Port? || leaf.PortRange?
    requires s + LeafSize(leaf) <= a && s + LeafSize(leaf) <= r
    ensures var end := s + LeafSize(leaf);
            Within(LeafCode(leaf, s, a, r), s, m) <==>
            a - end + AcceptReach(leaf) <= m && r - end + RejectReach(leaf) <= m
  {
    hide Within, OverPorts;
    match leaf
    case Port(port, dir) =>
      var n := if dir == Any then 4 else 2;
      FieldsInWithin(dir, LdAbsH(54), LdAbsH(56), port, s + 6, a, r, m);
      FieldsInWithin(dir, LdIndH(14), LdIndH(16), port, s + 10 + n, a, r, m);
      OverPortsWithin(FieldsIn(dir, LdAbsH(54), LdAbsH(56), port, s + 6, a, r),
                      FieldsIn(dir, LdIndH(14), LdIndH(16), port, s + 10 + n, a, r), s, r, m);
    case PortRange(lo, hi, dir) =>
      var n := if dir == Any then 6 else 3;
      RangesInWithin(dir, LdAbsH(54), LdAbsH(56), lo, hi, s + 6, a, r, m);
      RangesInWithin(dir, LdIndH(14), LdIndH(16), lo, hi, s + 10 + n, a, r, m);
      OverPortsWithin(RangesIn(dir, LdAbsH(54), LdAbsH(56), lo, hi, s + 6, a, r),
                      RangesIn(dir, LdIndH(14), LdIndH(16), lo, hi, s + 10 + n, a, r), s, r, m);
  }

  lemma GuardedWithin(ethertype: u16, body: Code, s: nat, r: nat, m: nat)
    requires s + 2 + |body| <= r
    ensures Within(FieldIs(LdAbsH(12), ethertype, s + 2, r) + body, s, m) <==> Within(body, s + 2, m) && r <= s + 2 + m
  {
    hide Within;
    FieldIsWithin(LdAbsH(12), ethertype, s, s + 2, r, m);
    WithinSplit(FieldIs(LdAbsH(12), ethertype, s + 2, r), body, s, m);
  }

  lemma HostWithin(host: HostAddr, dir: Direction, s: nat, a: nat, r: nat, m: nat)
    requires var n := LeafSize(Host(host, dir)); s + n <= a && s + n <= r
    ensures var leaf := Host(host, dir); var end := s + LeafSize(leaf);
            Within(HostCode(host, dir, s, a, r), s, m) <==>
            a - end + AcceptReach(leaf) <= m && r - end + RejectReach(leaf) <= m
  {
    hide Within, Ipv6Words;
    match host
    case HostV4(v4) =>
      FieldsInWithin(dir, LdAbsW(26), LdAbsW(30), v4, s + 2, a, r, m);
      GuardedWithin(ETHERTYPE_IP, FieldsIn(dir, LdAbsW(26), LdAbsW(30), v4, s + 2, a, r), s, r, m);
    case HostV6(v6) =>
      var w := Ipv6Words(v6);
      if dir == Any {
        WordsWithin(22, w, s + 2, a, s + 10, m);
        WordsWithin(38, w, s + 10, a, r, m);
        WithinSplit(WordsAt(22, w, s + 2, a, s + 10), WordsAt(38, w, s + 10, a, r), s + 2, m);
      } else {
        WordsWithin(if dir == Src then 22 else 38, w, s + 2, a, r, m);
      }
      GuardedWithin(ETHERTYPE_IPV6, AddressIn(dir, w, s + 2, a, r), s, r, m);
  }

  lemma NetWithin(net: NetAddr, dir: Direction, s: nat, a: nat, r: nat, m: nat)
    requires var n := LeafSize(Ast.Net(net, dir)); s + n <= a && s + n <= r
    ensures var leaf := Ast.Net(net, dir); var end := s + LeafSize(leaf);
            Within(NetCode(net, dir, s, a, r), s, m) <==>
            a - end + AcceptReach(leaf) <= m && r - end + RejectReach(leaf) <= m
  {
    hide Within, Ipv6Words, Bits.And;
    match net
    case NetV4(addr, mask) =>
      var k: u32 := Bits.And(addr, mask);
      if dir == Any {
        MaskedFieldIsWithin(26, mask, k, s + 2, a, s + 5, m);
        MaskedFieldIsWithin(30, mask, k, s + 5, a, r, m);
        WithinSplit(MaskedFieldIs(26, mask, k, a, s + 5), MaskedFieldIs(30, mask, k, a, r), s + 2, m);
      } else {
        MaskedFieldIsWithin(if dir == Src then 26 else 30, mask, k, s + 2, a, r, m);
      }
      GuardedWithin(ETHERTYPE_IP, Net4In(dir, mask, k, s + 2, a, r), s, r, m);
    case NetV6(addr, mask) =>
      var w, x := Ipv6Words(addr), Ipv6Words(mask);
      if dir == Any {
        MaskedWordsWithin(22, w, x, s + 2, a, s + 14, m);
        MaskedWordsWithin(38, w, x, s + 14, a, r, m);
        WithinSplit(MaskedWordsAt(22, w, x, s + 2, a, s + 14), MaskedWordsAt(38, w, x, s + 14, a, r), s + 2, m);
      } else {
        MaskedWordsWithin(if dir == Src then 22 else 38, w, x, s + 2, a, r, m);
      }
      GuardedWithin(ETHERTYPE_IPV6, Net6In(dir, w, x, s + 2, a, r), s, r, m);
  }

  lemma MacWithin(offset: u32, mac: Mac, s: nat, a: nat, r: nat, m: nat)
    requires offset + 4 < 0x1_0000_0000 && s + 4 <= a && s + 4 <= r
    ensures Within(MacAt(offset, mac, s, a, r), s, m) <==> a <= s + 4 + m && r <= s + 2 + m
  {
    hide Within;
    FieldIsWithin(LdAbsW(offset), MacHigh(mac), s, s + 2, r, m);
    FieldIsWithin(LdAbsH(offset + 4), MacLow(mac), s + 2, a, r, m);
    WithinSplit(FieldIs(LdAbsW(offset), MacHigh(mac), s + 2, r), FieldIs(LdAbsH(offset + 4), MacLow(mac), a, r), s, m);
  }

  lemma EtherHostWithin(mac: Mac, dir: Direction, s: nat, a: nat, r: nat, m: nat)
    requires var n := LeafSize(EtherHost(mac, dir)); s + n <= a && s + n <= r
    ensures var leaf := EtherHost(mac, dir); var end := s + LeafSize(leaf);
            Within(EtherHostCode(mac, dir, s, a, r), s, m) <==>
            a - end + AcceptReach(leaf) <= m && r - end + RejectReach(leaf) <= m
  {
    hide Within, MacAt;
    if dir == Any {
      MacWithin(0, mac, s, a, s + 4, m);
      MacWithin(6, mac, s + 4, a, r, m);
      WithinSplit(MacAt(0, mac, s, a, s + 4), MacAt(6, mac, s + 4, a, r), s, m);
    } else {
      MacWithin(if dir == Src then 6 else 0, mac, s, a, r, m);
    }
  }

  lemma LenWithin(op: RelOp, len: u32, s: nat, a: nat, r: nat, m: nat)
    requires s + 2 <= a && s + 2 <= r
    ensures Within(LenCode(op, len, a, r), s, m) <==> a <= s + 2 + m && r <= s + 2 + m
  {
    var c := LenCode(op, len, a, r);
    assert Within(c, s, m) <==> Fits(c[0], s + 0, m) && Fits(c[1], s + 1, m);
  }

  lemma LeafWithin(leaf: Ast, s: nat, a: nat, r: nat, m: nat)
    requires leaf.Leaf() && s + LeafSize(leaf) <= a && s + LeafSize(leaf) <= r
    ensures var end := s + LeafSize(leaf);
            Within(LeafCode(leaf, s, a, r), s, m) <==>
            a - end + AcceptReach(leaf) <= m && r - end + RejectReach(leaf) <= m
  {
    hide Within;
    match leaf
    case Proto(proto) => ProtoWithin(proto, s, a, r, m);
    case Host(host, dir) => HostWithin(host, dir, s, a, r, m);
    case Port(_, _) => PortWithin(leaf, s, a, r, m);
    case PortRange(_, _, _) => PortWithin(leaf, s, a, r, m);
    case EtherHost(mac, dir) => EtherHostWithin(mac, dir, s, a, r, m);
    case Net(net, dir) => NetWithin(net, dir, s, a, r, m);
    case Len(op, len) => LenWithin(op, len, s, a, r, m);
  }

  // ----- filters -----

  lemma BothWithin(ast: Ast, s: nat, da: nat, dr: nat, m: nat)
    requires ast.And? || ast.Or?
    ensures var end, mid := s + Size(ast), s + Size(ast.left);
            var first := if ast.And? then CodeAt(ast.left, s, mid, end + dr) else CodeAt(ast.left, s, end + da, mid);
            (Within(CodeAt(ast, s, end + da, end + dr), s, m) <==>
             Within(first, s, m) && Within(CodeAt(ast.right, mid, end + da, end + dr), mid, m))
  {
    hide Within, LeafCode, LeafSize;
    var end, mid := s + Size(ast), s + Size(ast.left);
    var first := if ast.And? then CodeAt(ast.left, s, mid, end + dr) else CodeAt(ast.left, s, end + da, mid);
    WithinSplit(first, CodeAt(ast.right, mid, end + da, end + dr), s, m);
  }

  lemma LeafFilterWithin(leaf: Ast, s: nat, da: nat, dr: nat, m: nat)
    requires leaf.Leaf()
    ensures var end := s + Size(leaf);
            Within(CodeAt(leaf, s, end + da, end + dr), s, m) <==> MaxSkip(leaf, da, dr) <= m
  {
    hide Within, LeafCode, LeafSize, AcceptReach, RejectReach;
    LeafWithin(leaf, s, s + Size(leaf) + da, s + Size(leaf) + dr, m);
  }

  /** Every jump of a filter's code is forward, and `MaxSkip` is exactly the longest of them. */
  lemma {:induction false} FilterWithin(ast: Ast, s: nat, da: nat, dr: nat, m: nat)
    ensures var end := s + Size(ast);
            Within(CodeAt(ast, s, end + da, end + dr), s, m) <==> MaxSkip(ast, da, dr) <= m
    decreases ast
  {
    hide Within, LeafCode, LeafSize, AcceptReach, RejectReach;
    if ast.Leaf() {
      LeafFilterWithin(ast, s, da, dr, m);
    } else if ast.Not? {
      FilterWithin(ast.inner, s, dr, da, m);
    } else {
      hide CodeAt;
      BothWithin(ast, s, da, dr, m);
      var first, second := Size(ast.left), Size(ast.right);
      FilterWithin(ast.left, s, if ast.And? then 0 else second + da, if ast.And? then second + dr else 0, m);
      FilterWithin(ast.right, s + first, da, dr, m);
    }
  }

  lemma WithinIsEncodable(c: Code)
    ensures Within(c, 0, 255) <==> Encodable(c, 0)
  {
    assert forall i :: 0 <= i < |c| ==> (Fits(c[i], 0 + i, 255) <==> InReach(c[i], 0 + i));
  }

  lemma ProgramWithin(ast: Ast, m: nat)
    ensures Within(Program(ast), 0, m) <==> MaxSkip(ast, 0, 1) <= m
  {
    hide Within, CodeAt, MaxSkip, Program, Size;
    var n := Size(ast);
    var c := CodeAt(ast, 0, n, n + 1);
    ProgramParts(ast);
    FilterWithin(ast, 0, 0, 1, m);
    OneWithin(RetK(CBPF_ACCEPT), n, m);
    OneWithin(RetK(CBPF_REJECT), n + 1, m);
    WithinSplit(c, [Plain(RetK(CBPF_ACCEPT))], 0, m);
    WithinSplit(c + [Plain(RetK(CBPF_ACCEPT))], [Plain(RetK(CBPF_REJECT))], 0, m);
  }

  lemma {:induction false} ForwardErrors(c: Code, s: nat, m: nat)
    requires Within(c, s, m) && FirstError(c, s).Some?
    ensures var e := FirstError(c, s).value; e.OffsetTooFar? && 255 < e.offset <= m
    decreases |c|
  {
    assert Fits(c[0], s + 0, m);
    if c[0].Plain? || (OffsetError(s, c[0].onTrue) == None && OffsetError(s, c[0].onFalse) == None) {
      forall i | 0 <= i < |c[1..]| ensures Fits(c[1..][i], s + 1 + i, m) { assert Fits(c[i + 1], s + (i + 1), m); }
      ForwardErrors(c[1..], s + 1, m);
    }
  }

  /** A filter can be assembled exactly when its longest jump is at most 255; the only error there is
      is an offset that is too far, never a missing label or a backward jump. */
  lemma AssemblesExactly(ast: Ast)
    ensures Assemble(Program(ast)).Ok? <==> MaxSkip(ast, 0, 1) <= 255
    ensures Assemble(Program(ast)).Err? ==> var e := Assemble(Program(ast)).error;
              e.OffsetTooFar? && 255 < e.offset <= MaxSkip(ast, 0, 1)
  {
    hide Within, Program, MaxSkip;
    ProgramWithin(ast, 255);
    WithinIsEncodable(Program(ast));
    ProgramWithin(ast, MaxSkip(ast, 0, 1));
    if FirstError(Program(ast), 0).Some? { ForwardErrors(Program(ast), 0, MaxSkip(ast, 0, 1)); }
  }

  /** The longest jump never crosses more than the whole code but its first two instructions. */
  lemma {:induction false} MaxSkipBound(ast: Ast, da: nat, dr: nat)
    ensures MaxSkip(ast, da, dr) <= Size(ast) - 2 + Max(da, dr)
    decreases ast
  {
    hide LeafSize, AcceptReach, RejectReach;
    match ast
    case And(l, r) =>
      MaxSkipBound(l, 0, Size(r) + dr);
      MaxSkipBound(r, da, dr);
    case Or(l, r) =>
      MaxSkipBound(l, Size(r) + da, 0);
      MaxSkipBound(r, da, dr);
    case Not(x) => MaxSkipBound(x, dr, da);
    case _ => LeafSkipBound(ast);
  }

  lemma LeafSkipBound(leaf: Ast)
    requires leaf.Leaf()
    ensures AcceptReach(leaf) <= LeafSize(leaf) - 2 && RejectReach(leaf) <= LeafSize(leaf) - 2
  {
  }

  function Leaves(ast: Ast): nat {
    match ast
    case And(l, r) => Leaves(l) + Leaves(r)
    case Or(l, r) => Leaves(l) + Leaves(r)
    case Not(x) => Leaves(x)
    case _ => 1
  }

  /** Every predicate takes between 2 and 26 instructions, and nothing else takes any. */
  lemma {:induction false} SizeBound(ast: Ast)
    ensures 2 * Leaves(ast) <= Size(ast) <= 26 * Leaves(ast)
    decreases ast
  {
    match ast
    case And(l, r) => SizeBound(l); SizeBound(r);
    case Or(l, r) => SizeBound(l); SizeBound(r);
    case Not(x) => SizeBound(x);
    case _ =>
  }

  /** No filter with at most 256 instructions, and so none with at most nine predicates, fails to assemble. */
  lemma SmallFiltersAssemble(ast: Ast)
    requires Size(ast) <= 256 || Leaves(ast) <= 9
    ensures Assemble(Program(ast)).Ok?
  {
    SizeBound(ast);
    MaxSkipBound(ast, 0, 1);
    AssemblesExactly(ast);
  }

  // ----- the smallest failing family: conjunctions of undirected IPv6 nets -----

  predicate NetConjunction(ast: Ast) {
    match ast
    case And(l, r) => NetConjunction(l) && NetConjunction(r)
    case Net(NetV6(_, _), Any) => true
    case _ => false
  }

  lemma {:induction false} NetConjunctionShape(ast: Ast, s: nat, a: nat, r: nat, da: nat, dr: nat)
    requires NetConjunction(ast) && da <= dr
    ensures Size(ast) == 26 * Leaves(ast)
    ensures MaxSkip(ast, da, dr) == 26 * Leaves(ast) - 2 + dr
    ensures var c := CodeAt(ast, s, a, r); c[0].Plain? && c[1].Branch? && c[1].onTrue == s + 2 && c[1].onFalse == r
    decreases ast
  {
    hide CodeAt, Size, LeafSize, AcceptReach, RejectReach;
    if ast.And? {
      var left, right := ast.left, ast.right;
      AndParts(left, right, s, a, r);
      NetConjunctionShape(left, s, s + Size(left), r, 0, Size(right) + dr);
      NetConjunctionShape(right, s + Size(left), a, r, da, dr);
    } else {
      NetShape(ast.net.addr6, ast.net.mask6, s, a, r);
      LeafParts(ast, s, a, r);
      NetReach(ast);
    }
  }

  lemma NetShape(addr: u128, mask: u128, s: nat, a: nat, r: nat)
    ensures var c := LeafCode(Ast.Net(NetV6(addr, mask), Any), s, a, r);
            |c| == 26 && c[0].Plain? && c[1].Branch? && c[1].onTrue == s + 2 && c[1].onFalse == r
  {
    hide Ipv6Words, MaskedWordsAt;
  }

  lemma NetReach(leaf: Ast)
    requires leaf.Net? && leaf.net.NetV6? && leaf.dir == Any
    ensures LeafSize(leaf) == 26 && AcceptReach(leaf) == 12 && RejectReach(leaf) == 24
  {
  }

  /** A conjunction of k undirected IPv6 nets assembles exactly when k is at most nine; from ten on it
      fails at its very first conditional jump, with offset 26k - 1. */
  lemma NetConjunctionLimit(ast: Ast)
    requires NetConjunction(ast)
    ensures Leaves(ast) <= 9 <==> Assemble(Program(ast)).Ok?
    ensures Leaves(ast) >= 10 ==> Assemble(Program(ast)) == Err(OffsetTooFar(26 * Leaves(ast) - 1))
  {
    hide CodeAt, MaxSkip, NetConjunction;
    var n := Size(ast);
    NetConjunctionShape(ast, 0, n, n + 1, 0, 1);
    AssemblesExactly(ast);
    if Leaves(ast) >= 10 {
      SecondJumpFails(Program(ast), n + 1);
    }
  }

  lemma SecondJumpFails(c: Code, r: nat)
    requires |c| >= 2 && c[0].Plain? && c[1].Branch? && c[1].onTrue == 2 && c[1].onFalse == r && r > 257
    ensures FirstError(c, 0) == Some(OffsetTooFar(r - 2))
  {
    assert c[1..][0] == c[1];
    assert FirstError(c[1..], 1) == Some(OffsetTooFar(r - 2));
  }
}
