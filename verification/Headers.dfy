/** How far into a packet compiled programs look: never beyond its first 78 bytes. */
module Headers {
  import opened Bits
  import opened Bpf
  import opened FilterAst
  import opened Vm
  import opened Layout
  import opened Semantics
  import opened Correctness

  /** 14 bytes of Ethernet, an IPv4 header of at most 60, and the four bytes of the two ports. */
  const HEADERS: nat := 78

  function Bytes(w: Width): nat {
    match w case Byte => 1 case Half => 2 case Word => 4
  }

  /** The operation stays within the headers as long as X is at most 60, and keeps X at most 60. */
  predicate HeaderOp(op: Op, lens: bool) {
    match op
    case LoadAbs(w, k) => k + Bytes(w) <= HEADERS
    case LoadInd(w, k) => 60 + k + Bytes(w) <= HEADERS
    case LoadXHeader(k) => k < HEADERS
    case LoadLen => lens
    case LoadXImm(_) => false
    case LoadXMem(_) => false
    case CopyAToX => false
    case _ => true
  }

  predicate HeaderInst(inst: Instruction, lens: bool) { HeaderOp(Decode(inst), lens) }

  predicate HeaderPlaced(p: Placed, lens: bool) {
    HeaderInst(p.inst, lens) && (p.Branch? ==> Decode(p.inst).JumpIf?)
  }

  ghost predicate HeaderCode(c: Code, lens: bool) {
    forall i :: 0 <= i < |c| ==> HeaderPlaced(c[i], lens)
  }

  // ----- every program is made of such operations -----

  lemma Pair(c: Code, d: Code, lens: bool)
    requires HeaderCode(c, lens) && HeaderCode(d, lens)
    ensures HeaderCode(c + d, lens)
  {
  }

  lemma JumpsAreHeaderOps(k: u32, a: nat, r: nat, lens: bool)
    ensures HeaderPlaced(Branch(Jeq(k), a, r), lens) && HeaderPlaced(Branch(Jgt(k), a, r), lens) &&
            HeaderPlaced(Branch(Jge(k), a, r), lens)
  {
    BuildersDecode(k, 0, 0);
  }

  lemma FieldIsHeader(load: Instruction, k: u32, a: nat, r: nat, lens: bool)
    requires HeaderInst(load, lens)
    ensures HeaderCode(FieldIs(load, k, a, r), lens)
  {
    hide HeaderInst;
    JumpsAreHeaderOps(k, a, r, lens);
  }

  lemma FieldsInHeader(dir: Direction, src: Instruction, dst: Instruction, k: u32, s: nat, a: nat, r: nat, lens: bool)
    requires HeaderInst(src, lens) && HeaderInst(dst, lens)
    ensures HeaderCode(FieldsIn(dir, src, dst, k, s, a, r), lens)
  {
    hide HeaderInst;
    JumpsAreHeaderOps(k, a, s + 2, lens);
    JumpsAreHeaderOps(k, a, r, lens);
  }

  lemma RangesInHeader(dir: Direction, src: Instruction, dst: Instruction, lo: u32, hi: u32, s: nat, a: nat, r: nat,
                       lens: bool)
    requires HeaderInst(src, lens) && HeaderInst(dst, lens)
    ensures HeaderCode(RangesIn(dir, src, dst, lo, hi, s, a, r), lens)
  {
    hide HeaderInst;
    JumpsAreHeaderOps(lo, s + 2, r, lens);
    JumpsAreHeaderOps(lo, s + 5, r, lens);
    JumpsAreHeaderOps(hi, s + 3, a, lens);
    JumpsAreHeaderOps(hi, r, a, lens);
  }

  lemma LoadsAreHeaderOps(offset: u32, lens: bool)
    ensures offset <= 77 ==> HeaderInst(LdAbsB(offset), lens)
    ensures offset <= 76 ==> HeaderInst(LdAbsH(offset), lens)
    ensures offset <= 74 ==> HeaderInst(LdAbsW(offset), lens)
    ensures offset <= 16 ==> HeaderInst(LdIndH(offset), lens)
    ensures offset <= 77 ==> HeaderInst(LdxMshB(offset), lens)
    ensures HeaderInst(AndK(offset), lens)
  {
    BuildersDecode(offset, 0, 0);
  }

  lemma {:induction false} WordsHeader(offset: nat, words: seq<u32>, s: nat, a: nat, r: nat, lens: bool)
    requires |words| > 0 && offset + 4 * |words| <= HEADERS
    ensures HeaderCode(WordsAt(offset, words, s, a, r), lens)
    decreases |words|
  {
    hide HeaderCode, HeaderInst;
    LoadsAreHeaderOps(offset, lens);
    FieldIsHeader(LdAbsW(offset), words[0], if |words| == 1 then a else s + 2, r, lens);
    if |words| > 1 {
      WordsHeader(offset + 4, words[1..], s + 2, a, r, lens);
      Pair(FieldIs(LdAbsW(offset), words[0], s + 2, r), WordsAt(offset + 4, words[1..], s + 2, a, r), lens);
    }
  }

  lemma MaskedFieldHeader(offset: u32, mask: u32, k: u32, a: nat, r: nat, lens: bool)
    requires offset + 4 <= HEADERS
    ensures HeaderCode(MaskedFieldIs(offset, mask, k, a, r), lens)
  {
    hide HeaderInst;
    LoadsAreHeaderOps(offset, lens);
    LoadsAreHeaderOps(mask, lens);
    JumpsAreHeaderOps(k, a, r, lens);
  }

  lemma {:induction false} MaskedWordsHeader(offset: nat, words: seq<u32>, masks: seq<u32>, s: nat, a: nat, r: nat,
                                             lens: bool)
    requires |masks| == |words| > 0 && offset + 4 * |words| <= HEADERS
    ensures HeaderCode(MaskedWordsAt(offset, words, masks, s, a, r), lens)
    decreases |words|
  {
    hide HeaderCode;
    MaskedFieldHeader(offset, masks[0], words[0], if |words| == 1 then a else s + 3, r, lens);
    if |words| > 1 {
      MaskedWordsHeader(offset + 4, words[1..], masks[1..], s + 3, a, r, lens);
      Pair(MaskedFieldIs(offset, masks[0], words[0], s + 3, r),
           MaskedWordsAt(offset + 4, words[1..], masks[1..], s + 3, a, r), lens);
    }
  }

  lemma FamilySplitHeader(s: nat, v4: nat, r: nat, lens: bool)
    ensures HeaderCode(FamilySplit(s, v4, r), lens)
  {
    hide HeaderInst;
    LoadsAreHeaderOps(12, lens);
    JumpsAreHeaderOps(ETHERTYPE_IP, v4, s + 2, lens);
    JumpsAreHeaderOps(ETHERTYPE_IPV6, s + 3, r, lens);
  }

  lemma TcpOrUdpHeader(load: Instruction, s: nat, r: nat, lens: bool)
    requires HeaderInst(load, lens)
    ensures HeaderCode(TcpOrUdp(load, s, r), lens)
  {
    hide HeaderInst;
    JumpsAreHeaderOps(IPPROTO_TCP, s + 3, s + 2, lens);
    JumpsAreHeaderOps(IPPROTO_UDP, s + 3, r, lens);
  }

  lemma OverPortsHeader(v6: Code, v4: Code, s: nat, r: nat, lens: bool)
    requires HeaderCode(v6, lens) && HeaderCode(v4, lens)
    ensures HeaderCode(OverPorts(v6, v4, s, r), lens)
  {
    hide HeaderInst;
    LoadsAreHeaderOps(20, lens);
    LoadsAreHeaderOps(23, lens);
    LoadsAreHeaderOps(14, lens);
    var split, t6, t4 := FamilySplit(s, s + 6 + |v6|, r), TcpOrUdp(LdAbsB(20), s + 3, r),
        TcpOrUdp(LdAbsB(23), s + 6 + |v6|, r);
    FamilySplitHeader(s, s + 6 + |v6|, r, lens);
    TcpOrUdpHeader(LdAbsB(20), s + 3, r, lens);
    TcpOrUdpHeader(LdAbsB(23), s + 6 + |v6|, r, lens);
    PlainHeader(LdxMshB(14), lens);
    hide HeaderCode;
    Pair(split, t6, lens);
    Pair(split + t6, v6, lens);
    Pair(split + t6 + v6, t4, lens);
    Pair(split + t6 + v6 + t4, [Plain(LdxMshB(14))], lens);
    Pair(split + t6 + v6 + t4 + [Plain(LdxMshB(14))], v4, lens);
  }

  lemma PlainHeader(inst: Instruction, lens: bool)
    requires HeaderInst(inst, lens)
    ensures HeaderCode([Plain(inst)], lens)
  {
  }

  lemma PortsHeader(leaf: Ast, s: nat, a: nat, r: nat, lens: bool)
    requires leaf.Port? || leaf.PortRange?
    ensures HeaderCode(LeafCode(leaf, s, a, r), lens)
  {
    hide HeaderCode, HeaderInst, OverPorts, FieldsIn, RangesIn;
    LoadsAreHeaderOps(54, lens);
    LoadsAreHeaderOps(56, lens);
    LoadsAreHeaderOps(14, lens);
    LoadsAreHeaderOps(16, lens);
    match leaf
    case Port(port, dir) =>
      var n := if dir == Any then 4 else 2;
      FieldsInHeader(dir, LdAbsH(54), LdAbsH(56), port, s + 6, a, r, lens);
      FieldsInHeader(dir, LdIndH(14), LdIndH(16), port, s + 10 + n, a, r, lens);
      OverPortsHeader(FieldsIn(dir, LdAbsH(54), LdAbsH(56), port, s + 6, a, r),
                      FieldsIn(dir, LdIndH(14), LdIndH(16), port, s + 10 + n, a, r), s, r, lens);
    case PortRange(lo, hi, dir) =>
      var n := if dir == Any then 6 else 3;
      RangesInHeader(dir, LdAbsH(54), LdAbsH(56), lo, hi, s + 6, a, r, lens);
      RangesInHeader(dir, LdIndH(14), LdIndH(16), lo, hi, s + 10 + n, a, r, lens);
      OverPortsHeader(RangesIn(dir, LdAbsH(54), LdAbsH(56), lo, hi, s + 6, a, r),
                      RangesIn(dir, LdIndH(14), LdIndH(16), lo, hi, s + 10 + n, a, r), s, r, lens);
  }

  lemma ProtoHeader(proto: Protocol, s: nat, a: nat, r: nat, lens: bool)
    ensures HeaderCode(ProtoCode(proto, s, a, r), lens)
  {
    hide HeaderCode, HeaderInst, FieldIs, FamilySplit;
    LoadsAreHeaderOps(12, lens);
    LoadsAreHeaderOps(20, lens);
    LoadsAreHeaderOps(23, lens);
    forall k: u32, b: nat ensures HeaderCode(FieldIs(LdAbsH(12), k, b, r), lens) {
      FieldIsHeader(LdAbsH(12), k, b, r, lens);
    }
    forall k: u32 ensures HeaderCode(FieldIs(LdAbsB(20), k, a, r), lens) { FieldIsHeader(LdAbsB(20), k, a, r, lens); }
    forall k: u32 ensures HeaderCode(FieldIs(LdAbsB(23), k, a, r), lens) { FieldIsHeader(LdAbsB(23), k, a, r, lens); }
    FamilySplitHeader(s, s + 5, r, lens);
    match proto
    case Icmp => Pair(FieldIs(LdAbsH(12), ETHERTYPE_IP, s + 2, r), FieldIs(LdAbsB(23), IPPROTO_ICMP, a, r), lens);
    case Icmp6 => Pair(FieldIs(LdAbsH(12), ETHERTYPE_IPV6, s + 2, r), FieldIs(LdAbsB(20), IPPROTO_ICMPV6, a, r), lens);
    case Tcp => TriplePair(FamilySplit(s, s + 5, r), FieldIs(LdAbsB(20), IPPROTO_TCP, a, r),
                           FieldIs(LdAbsB(23), IPPROTO_TCP, a, r), lens);
    case Udp => TriplePair(FamilySplit(s, s + 5, r), FieldIs(LdAbsB(20), IPPROTO_UDP, a, r),
                           FieldIs(LdAbsB(23), IPPROTO_UDP, a, r), lens);
    case _ =>
  }

  lemma TriplePair(c: Code, d: Code, e: Code, lens: bool)
    requires HeaderCode(c, lens) && HeaderCode(d, lens) && HeaderCode(e, lens)
    ensures HeaderCode(c + d + e, lens)
  {
    Pair(c, d, lens);
    Pair(c + d, e, lens);
  }

  lemma AddressHeader(leaf: Ast, s: nat, a: nat, r: nat, lens: bool)
    requires leaf.Host? || leaf.Net? || leaf.EtherHost?
    ensures HeaderCode(LeafCode(leaf, s, a, r), lens)
  {
    hide HeaderCode, HeaderInst, FieldIs, WordsAt, MaskedWordsAt, MaskedFieldIs, Ipv6Words, Bits.And;
    LoadsAreHeaderOps(12, lens);
    match leaf
    case Host(HostV4(v4), dir) =>
      LoadsAreHeaderOps(26, lens);
      LoadsAreHeaderOps(30, lens);
      FieldIsHeader(LdAbsH(12), ETHERTYPE_IP, s + 2, r, lens);
      FieldsInHeader(dir, LdAbsW(26), LdAbsW(30), v4, s + 2, a, r, lens);
      Pair(FieldIs(LdAbsH(12), ETHERTYPE_IP, s + 2, r), FieldsIn(dir, LdAbsW(26), LdAbsW(30), v4, s + 2, a, r), lens);
    case Host(HostV6(v6), dir) =>
      var w := Ipv6Words(v6);
      FieldIsHeader(LdAbsH(12), ETHERTYPE_IPV6, s + 2, r, lens);
      if dir == Any {
        WordsHeader(22, w, s + 2, a, s + 10, lens);
        WordsHeader(38, w, s + 10, a, r, lens);
        Pair(WordsAt(22, w, s + 2, a, s + 10), WordsAt(38, w, s + 10, a, r), lens);
      } else {
        WordsHeader(if dir == Src then 22 else 38, w, s + 2, a, r, lens);
      }
      Pair(FieldIs(LdAbsH(12), ETHERTYPE_IPV6, s + 2, r), AddressIn(dir, w, s + 2, a, r), lens);
    case Net(NetV4(addr, mask), dir) =>
      var k: u32 := Bits.And(addr, mask);
      FieldIsHeader(LdAbsH(12), ETHERTYPE_IP, s + 2, r, lens);
      if dir == Any {
        MaskedFieldHeader(26, mask, k, a, s + 5, lens);
        MaskedFieldHeader(30, mask, k, a, r, lens);
        Pair(MaskedFieldIs(26, mask, k, a, s + 5), MaskedFieldIs(30, mask, k, a, r), lens);
      } else {
        MaskedFieldHeader(if dir == Src then 26 else 30, mask, k, a, r, lens);
      }
      Pair(FieldIs(LdAbsH(12), ETHERTYPE_IP, s + 2, r), Net4In(dir, mask, k, s + 2, a, r), lens);
    case Net(NetV6(addr, mask), dir) =>
      var w, m := Ipv6Words(addr), Ipv6Words(mask);
      FieldIsHeader(LdAbsH(12), ETHERTYPE_IPV6, s + 2, r, lens);
      if dir == Any {
        MaskedWordsHeader(22, w, m, s + 2, a, s + 14, lens);
        MaskedWordsHeader(38, w, m, s + 14, a, r, lens);
        Pair(MaskedWordsAt(22, w, m, s + 2, a, s + 14), MaskedWordsAt(38, w, m, s + 14, a, r), lens);
      } else {
        MaskedWordsHeader(if dir == Src then 22 else 38, w, m, s + 2, a, r, lens);
      }
      Pair(FieldIs(LdAbsH(12), ETHERTYPE_IPV6, s + 2, r), Net6In(dir, w, m, s + 2, a, r), lens);
    case EtherHost(mac, dir) =>
      if dir == Any {
        MacHeader(0, mac, s, a, s + 4, lens);
        MacHeader(6, mac, s + 4, a, r, lens);
        Pair(MacAt(0, mac, s, a, s + 4), MacAt(6, mac, s + 4, a, r), lens);
      } else {
        MacHeader(if dir == Src then 6 else 0, mac, s, a, r, lens);
      }
  }

  lemma MacHeader(offset: u32, mac: Mac, s: nat, a: nat, r: nat, lens: bool)
    requires offset <= 6
    ensures HeaderCode(MacAt(offset, mac, s, a, r), lens)
  {
    hide HeaderCode, HeaderInst;
    LoadsAreHeaderOps(offset, lens);
    LoadsAreHeaderOps(offset + 4, lens);
    FieldIsHeader(LdAbsW(offset), MacHigh(mac), s + 2, r, lens);
    FieldIsHeader(LdAbsH(offset + 4), MacLow(mac), a, r, lens);
    Pair(FieldIs(LdAbsW(offset), MacHigh(mac), s + 2, r), FieldIs(LdAbsH(offset + 4), MacLow(mac), a, r), lens);
  }

  lemma LenHeader(op: RelOp, len: u32, a: nat, r: nat)
    ensures HeaderCode(LenCode(op, len, a, r), true)
  {
    BuildersDecode(0, 0, 0);
    assert HeaderInst(LdLen(), true);
    JumpsAreHeaderOps(len, a, r, true);
    JumpsAreHeaderOps(len, r, a, true);
  }

  predicate HasLen(ast: Ast) {
    match ast
    case And(l, r) => HasLen(l) || HasLen(r)
    case Or(l, r) => HasLen(l) || HasLen(r)
    case Not(x) => HasLen(x)
    case _ => ast.Len?
  }

  function PredicatesOf(ast: Ast): set<Ast> {
    match ast
    case And(l, r) => PredicatesOf(l) + PredicatesOf(r)
    case Or(l, r) => PredicatesOf(l) + PredicatesOf(r)
    case Not(x) => PredicatesOf(x)
    case _ => {ast}
  }

  /** A filter tests the length exactly if one of its predicates is a length test. */
  lemma {:induction false} HasLenExactly(ast: Ast)
    ensures HasLen(ast) <==> exists p :: p in PredicatesOf(ast) && p.Len?
    decreases ast
  {
    match ast
    case And(l, r) => HasLenExactly(l); HasLenExactly(r);
    case Or(l, r) => HasLenExactly(l); HasLenExactly(r);
    case Not(x) => HasLenExactly(x);
    case _ => assert ast in PredicatesOf(ast);
  }

  lemma {:induction false} FilterHeader(ast: Ast, s: nat, a: nat, r: nat, lens: bool)
    requires HasLen(ast) ==> lens
    ensures HeaderCode(CodeAt(ast, s, a, r), lens)
    decreases ast
  {
    hide HeaderCode, LeafCode, LeafSize;
    match ast
    case And(left, right) =>
      FilterHeader(left, s, s + Size(left), r, lens);
      FilterHeader(right, s + Size(left), a, r, lens);
      Pair(CodeAt(left, s, s + Size(left), r), CodeAt(right, s + Size(left), a, r), lens);
    case Or(left, right) =>
      FilterHeader(left, s, a, s + Size(left), lens);
      FilterHeader(right, s + Size(left), a, r, lens);
      Pair(CodeAt(left, s, a, s + Size(left)), CodeAt(right, s + Size(left), a, r), lens);
    case Not(inner) => FilterHeader(inner, s, r, a, lens);
    case _ => LeafHeader(ast, s, a, r, lens);
  }

  lemma LeafHeader(leaf: Ast, s: nat, a: nat, r: nat, lens: bool)
    requires leaf.Leaf() && (leaf.Len? ==> lens)
    ensures HeaderCode(LeafCode(leaf, s, a, r), lens)
  {
    hide HeaderCode;
    match leaf
    case Proto(proto) => ProtoHeader(proto, s, a, r, lens);
    case Len(op, len) => LenHeader(op, len, a, r);
    case Port(_, _) => PortsHeader(leaf, s, a, r, lens);
    case PortRange(_, _, _) => PortsHeader(leaf, s, a, r, lens);
    case _ => AddressHeader(leaf, s, a, r, lens);
  }

  ghost predicate HeaderProgram(program: seq<Instruction>, lens: bool) {
    forall i :: 0 <= i < |program| ==> HeaderInst(program[i], lens)
  }

  lemma ProgramHeader(ast: Ast)
    requires Encodable(Program(ast), 0)
    ensures HeaderProgram(EncodeAll(Program(ast), 0), HasLen(ast))
  {
    hide CodeAt, HeaderInst, HasLen;
    var n, lens := Size(ast), HasLen(ast);
    var c, program := Program(ast), EncodeAll(Program(ast), 0);
    FilterHeader(ast, 0, n, n + 1, lens);
    BuildersHeaderReturn(lens);
    PlainHeader(RetK(CBPF_ACCEPT), lens);
    PlainHeader(RetK(CBPF_REJECT), lens);
    TriplePair(CodeAt(ast, 0, n, n + 1), [Plain(RetK(CBPF_ACCEPT))], [Plain(RetK(CBPF_REJECT))], lens);
    assert c == CodeAt(ast, 0, n, n + 1) + [Plain(RetK(CBPF_ACCEPT))] + [Plain(RetK(CBPF_REJECT))];
    forall i | 0 <= i < |program| ensures HeaderInst(program[i], lens) {
      assert HeaderPlaced(c[i], lens) && program[i] == Encode(c[i], 0 + i);
      EncodedHeader(c[i], 0 + i, lens);
    }
  }

  lemma BuildersHeaderReturn(lens: bool)
    ensures HeaderInst(RetK(CBPF_ACCEPT), lens) && HeaderInst(RetK(CBPF_REJECT), lens)
  {
    BuildersDecode(CBPF_ACCEPT, 0, 0);
    BuildersDecode(CBPF_REJECT, 0, 0);
  }

  lemma EncodedHeader(p: Placed, idx: nat, lens: bool)
    requires HeaderPlaced(p, lens) && InReach(p, idx)
    ensures HeaderInst(Encode(p, idx), lens)
  {
  }

  // ----- loads inside the packet -----

  predicate InRange(op: Op, packet: Packet, x: u32) {
    match op
    case LoadAbs(w, k) => k + Bytes(w) <= |packet|
    case LoadInd(w, k) => x + k + Bytes(w) <= |packet|
    case LoadXHeader(k) => k < |packet|
    case _ => true
  }

  /** A load is in range if the last byte it touches is in the packet; nothing but a load can be out of range. */
  lemma InRangeExactly(packet: Packet, k: u32, x: u32)
    ensures InRange(LoadAbs(Byte, k), packet, x) <==> k < |packet|
    ensures InRange(LoadAbs(Half, k), packet, x) <==> k + 1 < |packet|
    ensures InRange(LoadAbs(Word, k), packet, x) <==> k + 3 < |packet|
    ensures InRange(LoadInd(Byte, k), packet, x) <==> x + k < |packet|
    ensures InRange(LoadInd(Half, k), packet, x) <==> x + k + 1 < |packet|
    ensures InRange(LoadInd(Word, k), packet, x) <==> x + k + 3 < |packet|
    ensures InRange(LoadXHeader(k), packet, x) <==> k < |packet|
    ensures forall op: Op :: !op.LoadAbs? && !op.LoadInd? && !op.LoadXHeader? ==> InRange(op, packet, x)
  {
  }

  /** Header operations keep X at most 60 and load nothing from outside the headers. */
  lemma HeaderStep(program: seq<Instruction>, packet: Packet, s: State, lens: bool)
    requires HeaderProgram(program, lens) && s.pc < |program| && s.x <= 60
    ensures Step(program, packet, s).Next? ==> Step(program, packet, s).state.x <= 60
    ensures |packet| >= HEADERS ==> InRange(Decode(program[s.pc]), packet, s.x)
  {
    hide Decode;
    assert HeaderInst(program[s.pc], lens);
  }

  // ----- the verdict depends on the headers only -----

  ghost predicate SameHeaders(p: Packet, q: Packet) {
    |p| >= HEADERS && |q| >= HEADERS && p[..HEADERS] == q[..HEADERS]
  }

  lemma SameLoads(p: Packet, q: Packet, w: Width, offset: nat)
    requires SameHeaders(p, q) && offset + Bytes(w) <= HEADERS
    ensures Load(p, w, offset) == Load(q, w, offset)
  {
    forall i | 0 <= i < HEADERS ensures p[i] == q[i] { assert p[..HEADERS][i] == q[..HEADERS][i]; }
  }

  lemma SameStep(program: seq<Instruction>, p: Packet, q: Packet, s: State)
    requires HeaderProgram(program, false) && s.pc < |program| && s.x <= 60 && SameHeaders(p, q)
    ensures Step(program, p, s) == Step(program, q, s)
  {
    hide Decode, Load, SameHeaders;
    var op := Decode(program[s.pc]);
    assert HeaderInst(program[s.pc], false);
    match op
    case LoadAbs(w, k) => SameLoads(p, q, w, k);
    case LoadInd(w, k) => SameLoads(p, q, w, s.x + k);
    case LoadXHeader(k) => SameByte(p, q, k);
    case _ =>
  }

  lemma SameByte(p: Packet, q: Packet, offset: nat)
    requires SameHeaders(p, q) && offset < HEADERS
    ensures Read8(p, offset) == Read8(q, offset)
  {
    assert p[..HEADERS][offset] == q[..HEADERS][offset];
  }

  lemma {:induction false} SameRun(program: seq<Instruction>, p: Packet, q: Packet, s: State)
    requires HeaderProgram(program, false) && s.x <= 60 && SameHeaders(p, q)
    ensures Run(program, p, s) == Run(program, q, s)
    decreases |program| - s.pc
  {
    hide Decode, HeaderProgram, SameHeaders;
    if s.pc < |program| {
      HeaderStep(program, p, s, false);
      SameStep(program, p, q, s);
      StepAdvances(program, p, s);
      if Step(program, p, s).Next? { SameRun(program, p, q, Step(program, p, s).state); }
    }
  }

  /** Without a length test, two packets that agree on their first 78 bytes get the same verdict. */
  lemma HeadersDecide(ast: Ast, p: Packet, q: Packet)
    requires Encodable(Program(ast), 0) && !HasLen(ast) && SameHeaders(p, q)
    ensures Run(EncodeAll(Program(ast), 0), p, START) == Run(EncodeAll(Program(ast), 0), q, START)
    ensures Matches(ast, p) <==> Matches(ast, q)
  {
    hide Program, HeaderProgram, Run, SameHeaders, Matches, HasLen;
    ProgramHeader(ast);
    SameRun(EncodeAll(Program(ast), 0), p, q, START);
    ProgramCorrect(ast, p);
    ProgramCorrect(ast, q);
  }

  // ----- 78 is the least such bound -----

  /** A TCP packet over IPv4 with the longest possible header, cut or padded to `n` bytes. */
  function LongHeaderPacket(n: nat, last: u8): Packet {
    seq(n, i => if i == 12 then 0x08 else if i == 14 then 0x4f else if i == 23 then IPPROTO_TCP
        else if i == 77 then last else 0)
  }

  lemma LongHeaderFields(n: nat, last: u8)
    ensures var p := LongHeaderPacket(n, last);
            IsIpv4(p) == (n >= 14) && !IsIpv6(p) && Ipv4Protocol(p) == (if n >= 24 then IPPROTO_TCP else 0) &&
            (n >= 15 ==> Ipv4HeaderLength(p) == 60) &&
            (n >= 24 ==> DestinationPort(p) == if n >= 78 then last else 0)
  {
    assert 0x4f % 16 == 15;
  }

  /** Byte 77 matters: the verdicts of packets of 78 bytes that differ only there can differ. */
  lemma LastHeaderByteMatters()
    ensures exists ast, p, q ::
              !HasLen(ast) && |p| == |q| == HEADERS && p[..HEADERS - 1] == q[..HEADERS - 1] && Matches(ast, p) &&
              !Matches(ast, q)
  {
    var p, q, ast := LongHeaderPacket(78, 5), LongHeaderPacket(78, 6), Port(5, Dst);
    LongHeaderFields(78, 5);
    LongHeaderFields(78, 6);
    assert p[..HEADERS - 1] == q[..HEADERS - 1];
    assert !HasLen(ast) && Matches(ast, p) && !Matches(ast, q);
  }
}
