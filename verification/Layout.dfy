/** The code of a filter as a pure function of where it starts and where its two exits are.
    Nothing here knows about labels; `Compiler` shows that assembling with labels gives this code. */
module Layout {
  import opened Common
  import opened Bits
  import opened Bpf
  import opened FilterAst

  /** An instruction and, if it is a conditional jump, the absolute positions it goes to. */
  datatype Placed = Plain(inst: Instruction) | Branch(inst: Instruction, onTrue: nat, onFalse: nat)

  type Code = seq<Placed>

  // ----- building blocks; `a` and `r` are the accept and reject positions -----

  /** Load a field and compare it with a constant. */
  function FieldIs(load: Instruction, k: u32, a: nat, r: nat): (c: Code)
    ensures |c| == 2
  {
    [Plain(load), Branch(Jeq(k), a, r)]
  }

  /** The field selected by the direction is `k`; undirected means either of the two. */
  function FieldsIn(dir: Direction, src: Instruction, dst: Instruction, k: u32, s: nat, a: nat, r: nat): (c: Code)
    ensures |c| == if dir == Any then 4 else 2
  {
    match dir
    case Any => FieldIs(src, k, a, s + 2) + FieldIs(dst, k, a, r)
    case Src => FieldIs(src, k, a, r)
    case Dst => FieldIs(dst, k, a, r)
  }

  /** Load a field and test whether it lies between two constants. */
  function FieldBetween(load: Instruction, lo: u32, hi: u32, s: nat, a: nat, r: nat): (c: Code)
    ensures |c| == 3
  {
    [Plain(load), Branch(Jge(lo), s + 2, r), Branch(Jgt(hi), r, a)]
  }

  /** Undirected: a source below `lo` rejects at once, a source above `hi` goes on to the destination. */
  function RangesIn(dir: Direction, src: Instruction, dst: Instruction, lo: u32, hi: u32, s: nat, a: nat,
                    r: nat): (c: Code)
    ensures |c| == if dir == Any then 6 else 3
  {
    match dir
    case Any =>
      [Plain(src), Branch(Jge(lo), s + 2, r), Branch(Jgt(hi), s + 3, a)] +
      FieldBetween(dst, lo, hi, s + 3, a, r)
    case Src => FieldBetween(src, lo, hi, s, a, r)
    case Dst => FieldBetween(dst, lo, hi, s, a, r)
  }

  /** IPv4 continues at `v4`, IPv6 right behind this block. */
  function FamilySplit(s: nat, v4: nat, r: nat): (c: Code)
    ensures |c| == 3
  {
    [Plain(LdAbsH(12)), Branch(Jeq(ETHERTYPE_IP), v4, s + 2), Branch(Jeq(ETHERTYPE_IPV6), s + 3, r)]
  }

  /** TCP and UDP continue right behind this block. */
  function TcpOrUdp(load: Instruction, s: nat, r: nat): (c: Code)
    ensures |c| == 3
  {
    [Plain(load), Branch(Jeq(IPPROTO_TCP), s + 3, s + 2), Branch(Jeq(IPPROTO_UDP), s + 3, r)]
  }

  /** Consecutive 32-bit words from `offset` on equal `words`. */
  function WordsAt(offset: nat, words: seq<u32>, s: nat, a: nat, r: nat): (c: Code)
    requires |words| > 0 && offset + 4 * |words| <= 0x1_0000
    ensures |c| == 2 * |words|
    decreases |words|
  {
    if |words| == 1 then FieldIs(LdAbsW(offset), words[0], a, r)
    else FieldIs(LdAbsW(offset), words[0], s + 2, r) + WordsAt(offset + 4, words[1..], s + 2, a, r)
  }

  /** What is left of `WordsAt` after its first `i` words. */
  function WordsFrom(offset: nat, words: seq<u32>, i: nat, s: nat, a: nat, r: nat): (c: Code)
    requires 0 < |words| && i <= |words| && offset + 4 * |words| <= 0x1_0000
  {
    if i == |words| then [] else WordsAt(offset + 4 * i, words[i..], s + 2 * i, a, r)
  }

  lemma WordsEnds(offset: nat, words: seq<u32>, s: nat, a: nat, r: nat)
    requires 0 < |words| && offset + 4 * |words| <= 0x1_0000
    ensures WordsFrom(offset, words, 0, s, a, r) == WordsAt(offset, words, s, a, r)
    ensures WordsFrom(offset, words, |words|, s, a, r) == []
  {
    assert words[0..] == words;
  }

  lemma WordsStep(offset: nat, words: seq<u32>, i: nat, s: nat, a: nat, r: nat)
    requires i < |words| && offset + 4 * |words| <= 0x1_0000
    ensures WordsFrom(offset, words, i, s, a, r) ==
            FieldIs(LdAbsW(offset + 4 * i), words[i], if i == |words| - 1 then a else s + 2 * i + 2, r)
            + WordsFrom(offset, words, i + 1, s, a, r)
  {
    assert words[i..][1..] == words[i + 1..];
  }

  function MaskedFieldIs(offset: u32, mask: u32, k: u32, a: nat, r: nat): (c: Code)
    ensures |c| == 3
  {
    [Plain(LdAbsW(offset)), Plain(AndK(mask)), Branch(Jeq(k), a, r)]
  }

  /** Consecutive words, each under its own mask, equal `words`. */
  function MaskedWordsAt(offset: nat, words: seq<u32>, masks: seq<u32>, s: nat, a: nat, r: nat): (c: Code)
    requires |masks| == |words| > 0 && offset + 4 * |words| <= 0x1_0000
    ensures |c| == 3 * |words|
    decreases |words|
  {
    if |words| == 1 then MaskedFieldIs(offset, masks[0], words[0], a, r)
    else
      MaskedFieldIs(offset, masks[0], words[0], s + 3, r) +
      MaskedWordsAt(offset + 4, words[1..], masks[1..], s + 3, a, r)
  }

  /** What is left of `MaskedWordsAt` after its first `i` words. */
  function MaskedWordsFrom(offset: nat, words: seq<u32>, masks: seq<u32>, i: nat, s: nat, a: nat, r: nat): (c: Code)
    requires 0 < |words| == |masks| && i <= |words| && offset + 4 * |words| <= 0x1_0000
  {
    if i == |words| then [] else MaskedWordsAt(offset + 4 * i, words[i..], masks[i..], s + 3 * i, a, r)
  }

  lemma MaskedWordsEnds(offset: nat, words: seq<u32>, masks: seq<u32>, s: nat, a: nat, r: nat)
    requires 0 < |words| == |masks| && offset + 4 * |words| <= 0x1_0000
    ensures MaskedWordsFrom(offset, words, masks, 0, s, a, r) == MaskedWordsAt(offset, words, masks, s, a, r)
    ensures MaskedWordsFrom(offset, words, masks, |words|, s, a, r) == []
  {
    assert words[0..] == words && masks[0..] == masks;
  }

  lemma MaskedWordsStep(offset: nat, words: seq<u32>, masks: seq<u32>, i: nat, s: nat, a: nat, r: nat)
    requires i < |words| == |masks| && offset + 4 * |words| <= 0x1_0000
    ensures MaskedWordsFrom(offset, words, masks, i, s, a, r) ==
            MaskedFieldIs(offset + 4 * i, masks[i], words[i], if i == |words| - 1 then a else s + 3 * i + 3, r)
            + MaskedWordsFrom(offset, words, masks, i + 1, s, a, r)
  {
    assert words[i..][1..] == words[i + 1..] && masks[i..][1..] == masks[i + 1..];
  }

  function MacAt(offset: u32, mac: Mac, s: nat, a: nat, r: nat): (c: Code)
    requires offset + 4 < 0x1_0000_0000
    ensures |c| == 4
  {
    FieldIs(LdAbsW(offset), MacHigh(mac), s + 2, r) + FieldIs(LdAbsH(offset + 4), MacLow(mac), a, r)
  }

  // ----- leaves -----

  function ProtoCode(proto: Protocol, s: nat, a: nat, r: nat): (c: Code)
    ensures |c| == LeafSize(Proto(proto))
  {
    match proto
    case Ip => FieldIs(LdAbsH(12), ETHERTYPE_IP, a, r)
    case Ip6 => FieldIs(LdAbsH(12), ETHERTYPE_IPV6, a, r)
    case Arp => FieldIs(LdAbsH(12), ETHERTYPE_ARP, a, r)
    case Rarp => FieldIs(LdAbsH(12), ETHERTYPE_RARP, a, r)
    case Tcp => TransportCode(IPPROTO_TCP, s, a, r)
    case Udp => TransportCode(IPPROTO_UDP, s, a, r)
    case Icmp => FieldIs(LdAbsH(12), ETHERTYPE_IP, s + 2, r) + FieldIs(LdAbsB(23), IPPROTO_ICMP, a, r)
    case Icmp6 => FieldIs(LdAbsH(12), ETHERTYPE_IPV6, s + 2, r) + FieldIs(LdAbsB(20), IPPROTO_ICMPV6, a, r)
  }

  function TransportCode(proto: u8, s: nat, a: nat, r: nat): Code {
    FamilySplit(s, s + 5, r) + FieldIs(LdAbsB(20), proto, a, r) + FieldIs(LdAbsB(23), proto, a, r)
  }

  /** The address at the side the direction selects, the source side first when undirected. */
  function AddressIn(dir: Direction, words: seq<u32>, s: nat, a: nat, r: nat): (c: Code)
    requires |words| == 4
    ensures |c| == if dir == Any then 16 else 8
  {
    match dir
    case Any => WordsAt(22, words, s, a, s + 8) + WordsAt(38, words, s + 8, a, r)
    case Src => WordsAt(22, words, s, a, r)
    case Dst => WordsAt(38, words, s, a, r)
  }

  function HostCode(host: HostAddr, dir: Direction, s: nat, a: nat, r: nat): (c: Code)
    ensures |c| == LeafSize(Host(host, dir))
  {
    match host
    case HostV4(v4) =>
      FieldIs(LdAbsH(12), ETHERTYPE_IP, s + 2, r) + FieldsIn(dir, LdAbsW(26), LdAbsW(30), v4, s + 2, a, r)
    case HostV6(v6) =>
      FieldIs(LdAbsH(12), ETHERTYPE_IPV6, s + 2, r) + AddressIn(dir, Ipv6Words(v6), s + 2, a, r)
  }

  /** `v6` over TCP or UDP in IPv6, or `v4` over TCP or UDP in IPv4 with X set to the header length. */
  function OverPorts(v6: Code, v4: Code, s: nat, r: nat): (c: Code)
    ensures |c| == 10 + |v6| + |v4|
  {
    FamilySplit(s, s + 6 + |v6|, r) + TcpOrUdp(LdAbsB(20), s + 3, r) + v6 +
    TcpOrUdp(LdAbsB(23), s + 6 + |v6|, r) + [Plain(LdxMshB(14))] + v4
  }

  function PortCode(port: u16, dir: Direction, s: nat, a: nat, r: nat): (c: Code)
    ensures |c| == LeafSize(Ast.Port(port, dir))
  {
    var n := if dir == Any then 4 else 2;
    OverPorts(FieldsIn(dir, LdAbsH(54), LdAbsH(56), port, s + 6, a, r),
              FieldsIn(dir, LdIndH(14), LdIndH(16), port, s + 10 + n, a, r), s, r)
  }

  function PortRangeCode(lo: u16, hi: u16, dir: Direction, s: nat, a: nat, r: nat): (c: Code)
    ensures |c| == LeafSize(Ast.PortRange(lo, hi, dir))
  {
    var n := if dir == Any then 6 else 3;
    OverPorts(RangesIn(dir, LdAbsH(54), LdAbsH(56), lo, hi, s + 6, a, r),
              RangesIn(dir, LdIndH(14), LdIndH(16), lo, hi, s + 10 + n, a, r), s, r)
  }

  /** Undirected: the destination address, at offset 0, is tested first. */
  function EtherHostCode(mac: Mac, dir: Direction, s: nat, a: nat, r: nat): (c: Code)
    ensures |c| == LeafSize(EtherHost(mac, dir))
  {
    match dir
    case Any => MacAt(0, mac, s, a, s + 4) + MacAt(6, mac, s + 4, a, r)
    case Src => MacAt(6, mac, s, a, r)
    case Dst => MacAt(0, mac, s, a, r)
  }

  function Net4In(dir: Direction, mask: u32, k: u32, s: nat, a: nat, r: nat): (c: Code)
    ensures |c| == if dir == Any then 6 else 3
  {
    match dir
    case Any => MaskedFieldIs(26, mask, k, a, s + 3) + MaskedFieldIs(30, mask, k, a, r)
    case Src => MaskedFieldIs(26, mask, k, a, r)
    case Dst => MaskedFieldIs(30, mask, k, a, r)
  }

  function Net6In(dir: Direction, words: seq<u32>, masks: seq<u32>, s: nat, a: nat, r: nat): (c: Code)
    requires |words| == |masks| == 4
    ensures |c| == if dir == Any then 24 else 12
  {
    match dir
    case Any => MaskedWordsAt(22, words, masks, s, a, s + 12) + MaskedWordsAt(38, words, masks, s + 12, a, r)
    case Src => MaskedWordsAt(22, words, masks, s, a, r)
    case Dst => MaskedWordsAt(38, words, masks, s, a, r)
  }

  /** The IPv4 address is masked when the code is made, the IPv6 address is not. */
  function NetCode(net: NetAddr, dir: Direction, s: nat, a: nat, r: nat): (c: Code)
    ensures |c| == LeafSize(Ast.Net(net, dir))
  {
    match net
    case NetV4(addr, mask) =>
      FieldIs(LdAbsH(12), ETHERTYPE_IP, s + 2, r) + Net4In(dir, mask, Bits.And(addr, mask), s + 2, a, r)
    case NetV6(addr, mask) =>
      FieldIs(LdAbsH(12), ETHERTYPE_IPV6, s + 2, r) + Net6In(dir, Ipv6Words(addr), Ipv6Words(mask), s + 2, a, r)
  }

  function LenCode(op: RelOp, len: u32, a: nat, r: nat): (c: Code)
    ensures |c| == LeafSize(Len(op, len))
  {
    [Plain(LdLen())] +
    match op
    case Eq => [Branch(Jeq(len), a, r)]
    case Ne => [Branch(Jeq(len), r, a)]
    case Gt => [Branch(Jgt(len), a, r)]
    case Ge => [Branch(Jge(len), a, r)]
    case Lt => [Branch(Jge(len), r, a)]
    case Le => [Branch(Jgt(len), r, a)]
  }

  function LeafCode(leaf: Ast, s: nat, a: nat, r: nat): (c: Code)
    requires leaf.Leaf()
    ensures |c| == LeafSize(leaf)
  {
    match leaf
    case Proto(proto) => ProtoCode(proto, s, a, r)
    case Host(host, dir) => HostCode(host, dir, s, a, r)
    case Port(port, dir) => PortCode(port, dir, s, a, r)
    case PortRange(lo, hi, dir) => PortRangeCode(lo, hi, dir, s, a, r)
    case EtherHost(mac, dir) => EtherHostCode(mac, dir, s, a, r)
    case Net(net, dir) => NetCode(net, dir, s, a, r)
    case Len(op, len) => LenCode(op, len, a, r)
  }

  function LeafSize(leaf: Ast): (n: nat)
    requires leaf.Leaf()
    ensures 2 <= n <= 26
  {
    match leaf
    case Proto(Tcp) => 7
    case Proto(Udp) => 7
    case Proto(Icmp) => 4
    case Proto(Icmp6) => 4
    case Proto(_) => 2
    case Host(HostV4(_), dir) => if dir == Any then 6 else 4
    case Host(HostV6(_), dir) => if dir == Any then 18 else 10
    case Port(_, dir) => if dir == Any then 18 else 14
    case PortRange(_, _, dir) => if dir == Any then 22 else 16
    case EtherHost(_, dir) => if dir == Any then 8 else 4
    case Net(NetV4(_, _), dir) => if dir == Any then 8 else 5
    case Net(NetV6(_, _), dir) => if dir == Any then 26 else 14
    case Len(_, _) => 2
  }

  // ----- whole filters -----

  function Size(ast: Ast): (n: nat)
    ensures n >= 2
  {
    match ast
    case And(l, r) => Size(l) + Size(r)
    case Or(l, r) => Size(l) + Size(r)
    case Not(x) => Size(x)
    case _ => LeafSize(ast)
  }

  /** The code of `ast` placed at `s`, leaving to `a` on a match and to `r` otherwise. */
  function CodeAt(ast: Ast, s: nat, a: nat, r: nat): (c: Code)
    ensures |c| == Size(ast)
  {
    match ast
    case And(left, right) => CodeAt(left, s, s + Size(left), r) + CodeAt(right, s + Size(left), a, r)
    case Or(left, right) => CodeAt(left, s, a, s + Size(left)) + CodeAt(right, s + Size(left), a, r)
    case Not(inner) => CodeAt(inner, s, r, a)
    case _ => LeafCode(ast, s, a, r)
  }

  /** The whole program: the filter and its two return instructions. */
  function Program(ast: Ast): Code {
    CodeAt(ast, 0, Size(ast), Size(ast) + 1) + [Plain(RetK(CBPF_ACCEPT)), Plain(RetK(CBPF_REJECT))]
  }

  // The code of a filter and of a program from its parts.

  lemma AndParts(x: Ast, y: Ast, s: nat, a: nat, r: nat)
    ensures Size(And(x, y)) == Size(x) + Size(y)
    ensures CodeAt(And(x, y), s, a, r) == CodeAt(x, s, s + Size(x), r) + CodeAt(y, s + Size(x), a, r)
  {
    hide LeafCode, LeafSize;
  }

  lemma OrParts(x: Ast, y: Ast, s: nat, a: nat, r: nat)
    ensures Size(Or(x, y)) == Size(x) + Size(y)
    ensures CodeAt(Or(x, y), s, a, r) == CodeAt(x, s, a, s + Size(x)) + CodeAt(y, s + Size(x), a, r)
  {
    hide LeafCode, LeafSize;
  }

  lemma NotParts(x: Ast, s: nat, a: nat, r: nat)
    ensures Size(Not(x)) == Size(x)
    ensures CodeAt(Not(x), s, a, r) == CodeAt(x, s, r, a)
  {
    hide LeafCode, LeafSize;
  }

  lemma LeafParts(leaf: Ast, s: nat, a: nat, r: nat)
    requires leaf.Leaf()
    ensures Size(leaf) == LeafSize(leaf) && CodeAt(leaf, s, a, r) == LeafCode(leaf, s, a, r)
  {
    hide LeafCode, LeafSize;
  }

  lemma ProgramParts(ast: Ast)
    ensures |Program(ast)| == Size(ast) + 2
    ensures Program(ast) == CodeAt(ast, 0, Size(ast), Size(ast) + 1) + [Plain(RetK(CBPF_ACCEPT))]
                            + [Plain(RetK(CBPF_REJECT))]
  {
    hide CodeAt, Size;
  }

  // ----- encoding as relative 8-bit offsets -----

  predicate InReach(p: Placed, idx: nat) {
    p.Plain? || (idx < p.onTrue <= idx + 256 && idx < p.onFalse <= idx + 256)
  }

  predicate Encodable(c: Code, s: nat) {
    forall i :: 0 <= i < |c| ==> InReach(c[i], s + i)
  }

  function Encode(p: Placed, idx: nat): Instruction
    requires InReach(p, idx)
  {
    match p
    case Plain(inst) => inst
    case Branch(inst, t, f) => inst.(jt := t - idx - 1, jf := f - idx - 1)
  }

  function EncodeAll(c: Code, s: nat): (prog: seq<Instruction>)
    requires Encodable(c, s)
    ensures |prog| == |c|
    ensures forall i :: 0 <= i < |c| ==> prog[i] == Encode(c[i], s + i)
  {
    seq(|c|, i requires 0 <= i < |c| => Encode(c[i], s + i))
  }

  // ----- assembling: the first offset that cannot be encoded is the error -----

  datatype AsmError = MissingLabel(lbl: nat) | BackwardJump(idx: nat, target: nat) | OffsetTooFar(offset: nat)

  datatype Assembly = Ok(program: seq<Instruction>) | Err(error: AsmError)

  function OffsetError(idx: nat, target: nat): Option<AsmError> {
    if target < idx + 1 then Some(BackwardJump(idx, target))
    else if target - (idx + 1) > 255 then Some(OffsetTooFar(target - (idx + 1)))
    else None
  }

  /** Jumps are looked at in program order, the true branch of each before the false branch. */
  function FirstError(c: Code, s: nat): (e: Option<AsmError>)
    ensures e == None <==> Encodable(c, s)
  {
    if c == [] then None
    else
      var rest := FirstError(c[1..], s + 1);
      assert rest == None ==> forall i :: 0 < i < |c| ==> InReach(c[i], s + i) by {
        assert forall i :: 0 < i < |c| ==> c[i] == c[1..][i - 1];
      }
      assert forall i :: 0 <= i < |c| - 1 ==> c[1..][i] == c[i + 1];
      if c[0].Branch? && OffsetError(s, c[0].onTrue).Some? then
        assert !InReach(c[0], s + 0);
        OffsetError(s, c[0].onTrue)
      else if c[0].Branch? && OffsetError(s, c[0].onFalse).Some? then
        assert !InReach(c[0], s + 0);
        OffsetError(s, c[0].onFalse)
      else rest
  }

  function Assemble(c: Code): Assembly {
    match FirstError(c, 0)
    case Some(e) => Err(e)
    case None => Ok(EncodeAll(c, 0))
  }
}
