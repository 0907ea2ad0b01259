/** The filter compiler: emitters that append code to an assembler, passing accept and reject labels down. */
module Compiler {
  import opened Bits
  import opened Bpf
  import opened FilterAst
  import opened Layout
  import opened Assembler

  // ----- sequences the emitters share -----

  /** Load a field and jump on whether it is `k`. */
  method CheckField(load: Instruction, k: u32, asm: Assembler, accept: LabelId, reject: LabelId)
    requires asm.Ready() && accept in asm.draft.at && reject in asm.draft.at
    modifies asm
    ensures asm.Ready()
    ensures asm.draft.Extends(old(asm.draft), FieldIs(load, k, old(asm.draft.at[accept]), old(asm.draft.at[reject])))
  {
    var _ := asm.Emit(load);
    var _ := asm.EmitJump(Jeq(k), accept, reject);
  }

  /** Jump to `other` unless the test holds, which falls into what follows. */
  method ContinueIf(test: Instruction, asm: Assembler, other: LabelId)
    requires asm.Ready() && other in asm.draft.at
    modifies asm
    ensures asm.Ready()
    ensures asm.draft.Extends(old(asm.draft), [Branch(test, |old(asm.draft.layout)| + 1, old(asm.draft.at[other]))])
  {
    hide Assembler.Valid, Assembler.OnPlan;
    var behind := asm.NewLabel(|asm.draft.layout| + 1);
    var _ := asm.EmitJump(test, behind, other);
    asm.PlaceLabel(behind, asm.NextIndex());
  }

  /** Load a field, fall into what follows if it is `k` and reject otherwise. */
  method RequireField(load: Instruction, k: u32, asm: Assembler, reject: LabelId)
    requires asm.Ready() && reject in asm.draft.at
    modifies asm
    ensures asm.Ready()
    ensures asm.draft.Extends(old(asm.draft), FieldIs(load, k, |old(asm.draft.layout)| + 2, old(asm.draft.at[reject])))
  {
    hide Assembler.Valid, Assembler.OnPlan;
    var _ := asm.Emit(load);
    ContinueIf(Jeq(k), asm, reject);
  }

  /** IPv6 falls into what follows; IPv4 jumps to the label returned, which is left to the caller to place. */
  method SplitFamilies(asm: Assembler, reject: LabelId, ghost v4At: nat) returns (ipv4: LabelId)
    requires asm.Ready() && reject in asm.draft.at
    modifies asm
    ensures asm.Ready() && ipv4 in asm.draft.at && asm.draft.at[ipv4] == v4At
    ensures old(asm.draft.next) <= ipv4 < asm.draft.next && ipv4 !in asm.draft.placed
    ensures asm.draft.Extends(old(asm.draft), FamilySplit(|old(asm.draft.layout)|, v4At, old(asm.draft.at[reject])),
                              {ipv4})
  {
    hide Assembler.Valid, Assembler.OnPlan;
    ghost var d, s := asm.draft, |asm.draft.layout|;
    var _ := asm.Emit(LdAbsH(12));
    ipv4 := asm.NewLabel(v4At);
    var checkV6 := asm.NewLabel(s + 2);
    var _ := asm.EmitJump(Jeq(ETHERTYPE_IP), ipv4, checkV6);
    asm.PlaceLabel(checkV6, asm.NextIndex());
    ghost var e := asm.draft;
    ghost var first := [Plain(LdAbsH(12)), Branch(Jeq(ETHERTYPE_IP), v4At, s + 2)];
    assert e.Extends(d, first, {ipv4});
    hide Draft.Extends;
    Kept(d, e, first, {ipv4});
    ContinueIf(Jeq(ETHERTYPE_IPV6), asm, reject);
    ghost var c := Appended(d, e, asm.draft, first, [Branch(Jeq(ETHERTYPE_IPV6), s + 3, d.at[reject])], {ipv4});
  }

  /** Compare the field the direction selects with `k`; undirected, the source first and then the destination. */
  method CheckFields(dir: Direction, src: Instruction, dst: Instruction, k: u32, asm: Assembler, accept: LabelId,
                     reject: LabelId)
    requires asm.Ready() && accept in asm.draft.at && reject in asm.draft.at
    modifies asm
    ensures asm.Ready()
    ensures asm.draft.Extends(old(asm.draft), FieldsIn(dir, src, dst, k, |old(asm.draft.layout)|,
                                                       old(asm.draft.at[accept]), old(asm.draft.at[reject])))
  {
    hide Assembler.Valid, Assembler.OnPlan;
    match dir
    case Any =>
      var dstCheck := asm.NewLabel(|asm.draft.layout| + 2);
      CheckField(src, k, asm, accept, dstCheck);
      asm.PlaceLabel(dstCheck, asm.NextIndex());
      CheckField(dst, k, asm, accept, reject);
    case Src => CheckField(src, k, asm, accept, reject);
    case Dst => CheckField(dst, k, asm, accept, reject);
  }

  method CheckRange(load: Instruction, lo: u32, hi: u32, asm: Assembler, accept: LabelId, reject: LabelId)
    requires asm.Ready() && accept in asm.draft.at && reject in asm.draft.at
    modifies asm
    ensures asm.Ready()
    ensures asm.draft.Extends(old(asm.draft), FieldBetween(load, lo, hi, |old(asm.draft.layout)|,
                                                           old(asm.draft.at[accept]), old(asm.draft.at[reject])))
  {
    hide Assembler.Valid, Assembler.OnPlan;
    var _ := asm.Emit(load);
    ContinueIf(Jge(lo), asm, reject);
    var _ := asm.EmitJump(Jgt(hi), reject, accept);
  }

  /** The source part of an undirected range: below it reject, inside it accept, above it fall into what follows. */
  method StartRange(src: Instruction, lo: u32, hi: u32, asm: Assembler, accept: LabelId, reject: LabelId)
    requires asm.Ready() && accept in asm.draft.at && reject in asm.draft.at
    modifies asm
    ensures asm.Ready()
    ensures var s, a, r := |old(asm.draft.layout)|, old(asm.draft.at[accept]), old(asm.draft.at[reject]);
            asm.draft.Extends(old(asm.draft), [Plain(src), Branch(Jge(lo), s + 2, r), Branch(Jgt(hi), s + 3, a)])
  {
    hide Assembler.Valid, Assembler.OnPlan;
    var _ := asm.Emit(src);
    ContinueIf(Jge(lo), asm, reject);
    ContinueIf(Jgt(hi), asm, accept);
  }

  method ComparePortRange(dir: Direction, src: Instruction, dst: Instruction, lo: u32, hi: u32, asm: Assembler,
                          accept: LabelId, reject: LabelId)
    requires asm.Ready() && accept in asm.draft.at && reject in asm.draft.at
    modifies asm
    ensures asm.Ready()
    ensures asm.draft.Extends(old(asm.draft), RangesIn(dir, src, dst, lo, hi, |old(asm.draft.layout)|,
                                                       old(asm.draft.at[accept]), old(asm.draft.at[reject])))
  {
    hide Assembler.Valid, Assembler.OnPlan, FieldBetween, Draft.Extends;
    match dir
    case Any =>
      ghost var d := asm.draft;
      ghost var s, a, r := |d.layout|, d.at[accept], d.at[reject];
      StartRange(src, lo, hi, asm, accept, reject);
      ghost var e := asm.draft;
      ghost var first := [Plain(src), Branch(Jge(lo), s + 2, r), Branch(Jgt(hi), s + 3, a)];
      Kept(d, e, first, {});
      CheckRange(dst, lo, hi, asm, accept, reject);
      ghost var c := Appended(d, e, asm.draft, first, FieldBetween(dst, lo, hi, s + 3, a, r), {});
    case Src => CheckRange(src, lo, hi, asm, accept, reject);
    case Dst => CheckRange(dst, lo, hi, asm, accept, reject);
  }

  /** TCP and UDP fall into what follows, anything else is rejected. */
  method RequirePortedTransport(load: Instruction, asm: Assembler, reject: LabelId)
    requires asm.Ready() && reject in asm.draft.at
    modifies asm
    ensures asm.Ready()
    ensures asm.draft.Extends(old(asm.draft), TcpOrUdp(load, |old(asm.draft.layout)|, old(asm.draft.at[reject])))
  {
    hide Assembler.Valid, Assembler.OnPlan;
    ghost var d, s := asm.draft, |asm.draft.layout|;
    var _ := asm.Emit(load);
    var udpCheck := asm.NewLabel(s + 2);
    var portCheck := asm.NewLabel(s + 3);
    var _ := asm.EmitJump(Jeq(IPPROTO_TCP), portCheck, udpCheck);
    asm.PlaceLabel(udpCheck, asm.NextIndex());
    var _ := asm.EmitJump(Jeq(IPPROTO_UDP), portCheck, reject);
    asm.PlaceLabel(portCheck, asm.NextIndex());
    assert asm.draft.layout == d.layout + TcpOrUdp(load, s, d.at[reject]);
  }

  // ----- leaves -----

  method CompileIcmpV4(asm: Assembler, accept: LabelId, reject: LabelId)
    requires asm.Ready() && accept in asm.draft.at && reject in asm.draft.at
    modifies asm
    ensures asm.Ready()
    ensures asm.draft.Extends(old(asm.draft), ProtoCode(Icmp, |old(asm.draft.layout)|, old(asm.draft.at[accept]),
                                                        old(asm.draft.at[reject])))
  {
    hide Assembler.Valid, Assembler.OnPlan;
    RequireField(LdAbsH(12), ETHERTYPE_IP, asm, reject);
    CheckField(LdAbsB(23), IPPROTO_ICMP, asm, accept, reject);
  }

  method CompileIcmpV6(asm: Assembler, accept: LabelId, reject: LabelId)
    requires asm.Ready() && accept in asm.draft.at && reject in asm.draft.at
    modifies asm
    ensures asm.Ready()
    ensures asm.draft.Extends(old(asm.draft), ProtoCode(Icmp6, |old(asm.draft.layout)|, old(asm.draft.at[accept]),
                                                        old(asm.draft.at[reject])))
  {
    hide Assembler.Valid, Assembler.OnPlan;
    RequireField(LdAbsH(12), ETHERTYPE_IPV6, asm, reject);
    CheckField(LdAbsB(20), IPPROTO_ICMPV6, asm, accept, reject);
  }

  method CompileTransportProto(proto: Protocol, asm: Assembler, accept: LabelId, reject: LabelId)
    requires proto == Tcp || proto == Udp
    requires asm.Ready() && accept in asm.draft.at && reject in asm.draft.at
    modifies asm
    ensures asm.Ready()
    ensures asm.draft.Extends(old(asm.draft), ProtoCode(proto, |old(asm.draft.layout)|, old(asm.draft.at[accept]),
                                                        old(asm.draft.at[reject])))
  {
    hide Assembler.Valid, Assembler.OnPlan;
    var num := if proto == Tcp then IPPROTO_TCP else IPPROTO_UDP;
    var ipv4 := SplitFamilies(asm, reject, |asm.draft.layout| + 5);
    CheckField(LdAbsB(20), num, asm, accept, reject);
    asm.PlaceLabel(ipv4, asm.NextIndex());
    CheckField(LdAbsB(23), num, asm, accept, reject);
  }

  method CompileProto(proto: Protocol, asm: Assembler, accept: LabelId, reject: LabelId)
    requires asm.Ready() && accept in asm.draft.at && reject in asm.draft.at
    modifies asm
    ensures asm.Ready()
    ensures asm.draft.Extends(old(asm.draft), ProtoCode(proto, |old(asm.draft.layout)|, old(asm.draft.at[accept]),
                                                        old(asm.draft.at[reject])))
  {
    hide Assembler.Valid, Assembler.OnPlan;
    match proto
    case Ip => CheckField(LdAbsH(12), ETHERTYPE_IP, asm, accept, reject);
    case Ip6 => CheckField(LdAbsH(12), ETHERTYPE_IPV6, asm, accept, reject);
    case Arp => CheckField(LdAbsH(12), ETHERTYPE_ARP, asm, accept, reject);
    case Rarp => CheckField(LdAbsH(12), ETHERTYPE_RARP, asm, accept, reject);
    case Tcp => CompileTransportProto(proto, asm, accept, reject);
    case Udp => CompileTransportProto(proto, asm, accept, reject);
    case Icmp => CompileIcmpV4(asm, accept, reject);
    case Icmp6 => CompileIcmpV6(asm, accept, reject);
  }

  method CheckIpv6AddrAt(asm: Assembler, offset: nat, words: seq<u32>, accept: LabelId, reject: LabelId)
    requires |words| > 0 && offset + 4 * |words| <= 0x1_0000
    requires asm.Ready() && accept in asm.draft.at && reject in asm.draft.at
    modifies asm
    ensures asm.Ready()
    ensures asm.draft.Extends(old(asm.draft), WordsAt(offset, words, |old(asm.draft.layout)|,
                                                      old(asm.draft.at[accept]), old(asm.draft.at[reject])))
  {
    hide Assembler.Valid, Assembler.OnPlan, Draft.Extends, FieldIs, MaskedFieldIs, WordsFrom, WordsAt,
         MaskedWordsFrom, MaskedWordsAt;
    ghost var d, s, a, r := asm.draft, |asm.draft.layout|, asm.draft.at[accept], asm.draft.at[reject];
    ghost var done := NothingYet(d);
    WordsEnds(offset, words, s, a, r);
    for i := 0 to |words|
      invariant asm.Ready() && asm.draft.Extends(d, done) && |done| == 2 * i
      invariant WordsFrom(offset, words, 0, s, a, r) == done + WordsFrom(offset, words, i, s, a, r)
    {
      ghost var e := asm.draft;
      Kept(d, e, done, {});
      ghost var step := FieldIs(LdAbsW(offset + 4 * i), words[i], if i == |words| - 1 then a else s + 2 * i + 2, r);
      if i == |words| - 1 {
        CheckField(LdAbsW(offset + 4 * i), words[i], asm, accept, reject);
      } else {
        RequireField(LdAbsW(offset + 4 * i), words[i], asm, reject);
      }
      WordsStep(offset, words, i, s, a, r);
      done := Appended(d, e, asm.draft, done, step, {});
    }
    assert done + [] == done;
  }

  method CheckAddress(dir: Direction, words: seq<u32>, asm: Assembler, accept: LabelId, reject: LabelId)
    requires |words| == 4
    requires asm.Ready() && accept in asm.draft.at && reject in asm.draft.at
    modifies asm
    ensures asm.Ready()
    ensures asm.draft.Extends(old(asm.draft), AddressIn(dir, words, |old(asm.draft.layout)|,
                                                        old(asm.draft.at[accept]), old(asm.draft.at[reject])))
  {
    hide Assembler.Valid, Assembler.OnPlan, WordsAt;
    match dir
    case Any =>
      var dstCheck := asm.NewLabel(|asm.draft.layout| + 8);
      CheckIpv6AddrAt(asm, 22, words, accept, dstCheck);
      asm.PlaceLabel(dstCheck, asm.NextIndex());
      CheckIpv6AddrAt(asm, 38, words, accept, reject);
    case Src => CheckIpv6AddrAt(asm, 22, words, accept, reject);
    case Dst => CheckIpv6AddrAt(asm, 38, words, accept, reject);
  }

  method CompileIpv6Host(v6: u128, dir: Direction, asm: Assembler, accept: LabelId, reject: LabelId)
    requires asm.Ready() && accept in asm.draft.at && reject in asm.draft.at
    modifies asm
    ensures asm.Ready()
    ensures asm.draft.Extends(old(asm.draft), HostCode(HostV6(v6), dir, |old(asm.draft.layout)|,
                                                       old(asm.draft.at[accept]), old(asm.draft.at[reject])))
  {
    hide Assembler.Valid, Assembler.OnPlan, Ipv6Words, AddressIn, FieldIs;
    var words := Ipv6Words(v6);
    RequireField(LdAbsH(12), ETHERTYPE_IPV6, asm, reject);
    CheckAddress(dir, words, asm, accept, reject);
  }

  method CompileHost(host: HostAddr, dir: Direction, asm: Assembler, accept: LabelId, reject: LabelId)
    requires asm.Ready() && accept in asm.draft.at && reject in asm.draft.at
    modifies asm
    ensures asm.Ready()
    ensures asm.draft.Extends(old(asm.draft), HostCode(host, dir, |old(asm.draft.layout)|, old(asm.draft.at[accept]),
                                                       old(asm.draft.at[reject])))
  {
    hide Assembler.Valid, Assembler.OnPlan;
    match host
    case HostV4(v4) =>
      RequireField(LdAbsH(12), ETHERTYPE_IP, asm, reject);
      CheckFields(dir, LdAbsW(26), LdAbsW(30), v4, asm, accept, reject);
    case HostV6(v6) => CompileIpv6Host(v6, dir, asm, accept, reject);
  }

  /** TCP or UDP over IPv6, and the ports at their fixed offsets. */
  method CheckTransportAndComparePorts(port: u16, dir: Direction, asm: Assembler, accept: LabelId, reject: LabelId)
    requires asm.Ready() && accept in asm.draft.at && reject in asm.draft.at
    modifies asm
    ensures asm.Ready()
    ensures var s, a, r := |old(asm.draft.layout)|, old(asm.draft.at[accept]), old(asm.draft.at[reject]);
            asm.draft.Extends(old(asm.draft), TcpOrUdp(LdAbsB(20), s, r) +
                                              FieldsIn(dir, LdAbsH(54), LdAbsH(56), port, s + 3, a, r))
  {
    hide Assembler.Valid, Assembler.OnPlan, Draft.Extends, TcpOrUdp, FieldsIn;
    ghost var d, s, a, r := asm.draft, |asm.draft.layout|, asm.draft.at[accept], asm.draft.at[reject];
    RequirePortedTransport(LdAbsB(20), asm, reject);
    ghost var e := asm.draft;
    Kept(d, e, TcpOrUdp(LdAbsB(20), s, r), {});
    CheckFields(dir, LdAbsH(54), LdAbsH(56), port, asm, accept, reject);
    ghost var c := Appended(d, e, asm.draft, TcpOrUdp(LdAbsB(20), s, r),
                            FieldsIn(dir, LdAbsH(54), LdAbsH(56), port, s + 3, a, r), {});
  }

  /** TCP or UDP over IPv4, and the ports behind a header of variable length. */
  method ComparePortsOverIpv4(port: u16, dir: Direction, asm: Assembler, accept: LabelId, reject: LabelId)
    requires asm.Ready() && accept in asm.draft.at && reject in asm.draft.at
    modifies asm
    ensures asm.Ready()
    ensures var s, a, r := |old(asm.draft.layout)|, old(asm.draft.at[accept]), old(asm.draft.at[reject]);
            asm.draft.Extends(old(asm.draft), TcpOrUdp(LdAbsB(23), s, r) + [Plain(LdxMshB(14))] +
                                              FieldsIn(dir, LdIndH(14), LdIndH(16), port, s + 4, a, r))
  {
    hide Assembler.Valid, Assembler.OnPlan, Draft.Extends, TcpOrUdp, FieldsIn;
    ghost var d, s, a, r := asm.draft, |asm.draft.layout|, asm.draft.at[accept], asm.draft.at[reject];
    ghost var c := TcpOrUdp(LdAbsB(23), s, r);
    RequirePortedTransport(LdAbsB(23), asm, reject);
    ghost var e := asm.draft;
    Kept(d, e, c, {});
    var _ := asm.Emit(LdxMshB(14));
    PlusExtends(e, LdxMshB(14));
    c := Appended(d, e, asm.draft, c, [Plain(LdxMshB(14))], {});
    e := asm.draft;
    CheckFields(dir, LdIndH(14), LdIndH(16), port, asm, accept, reject);
    c := Appended(d, e, asm.draft, c, FieldsIn(dir, LdIndH(14), LdIndH(16), port, s + 4, a, r), {});
  }

  method CompilePort(port: u16, dir: Direction, asm: Assembler, accept: LabelId, reject: LabelId)
    requires asm.Ready() && accept in asm.draft.at && reject in asm.draft.at
    modifies asm
    ensures asm.Ready()
    ensures asm.draft.Extends(old(asm.draft), PortCode(port, dir, |old(asm.draft.layout)|,
                                              old(asm.draft.at[accept]), old(asm.draft.at[reject])))
  {
    hide Assembler.Valid, Assembler.OnPlan, Draft.Extends, FamilySplit, TcpOrUdp, FieldsIn;
    ghost var d, s, a, r := asm.draft, |asm.draft.layout|, asm.draft.at[accept], asm.draft.at[reject];
    ghost var n := if dir == Any then 4 else 2;
    ghost var v6 := FieldsIn(dir, LdAbsH(54), LdAbsH(56), port, s + 6, a, r);
    ghost var v4 := FieldsIn(dir, LdIndH(14), LdIndH(16), port, s + 10 + n, a, r);
    ghost var t6, t4 := TcpOrUdp(LdAbsB(20), s + 3, r), TcpOrUdp(LdAbsB(23), s + 6 + n, r);
    ghost var c := FamilySplit(s, s + 6 + n, r);
    var ipv4 := SplitFamilies(asm, reject, s + 6 + n);
    ghost var e := asm.draft;
    Kept(d, e, c, {ipv4});
    CheckTransportAndComparePorts(port, dir, asm, accept, reject);
    c := Appended(d, e, asm.draft, c, t6 + v6, {ipv4});
    ExtendsClosed(d, asm.draft, c, ipv4);
    asm.PlaceLabel(ipv4, asm.NextIndex());
    e := asm.draft;
    ComparePortsOverIpv4(port, dir, asm, accept, reject);
    c := Appended(d, e, asm.draft, c, t4 + [Plain(LdxMshB(14))] + v4, {});
    OverPortsParts(v6, v4, s, r);
  }

  /** TCP or UDP over IPv6, and the range of ports at their fixed offsets. */
  method CheckTransportAndComparePortRange(lo: u16, hi: u16, dir: Direction, asm: Assembler, accept: LabelId,
                                           reject: LabelId)
    requires asm.Ready() && accept in asm.draft.at && reject in asm.draft.at
    modifies asm
    ensures asm.Ready()
    ensures var s, a, r := |old(asm.draft.layout)|, old(asm.draft.at[accept]), old(asm.draft.at[reject]);
            asm.draft.Extends(old(asm.draft), TcpOrUdp(LdAbsB(20), s, r) +
                                              RangesIn(dir, LdAbsH(54), LdAbsH(56), lo, hi, s + 3, a, r))
  {
    hide Assembler.Valid, Assembler.OnPlan, Draft.Extends, TcpOrUdp, RangesIn;
    ghost var d, s, a, r := asm.draft, |asm.draft.layout|, asm.draft.at[accept], asm.draft.at[reject];
    RequirePortedTransport(LdAbsB(20), asm, reject);
    ghost var e := asm.draft;
    Kept(d, e, TcpOrUdp(LdAbsB(20), s, r), {});
    ComparePortRange(dir, LdAbsH(54), LdAbsH(56), lo, hi, asm, accept, reject);
    ghost var c := Appended(d, e, asm.draft, TcpOrUdp(LdAbsB(20), s, r),
                            RangesIn(dir, LdAbsH(54), LdAbsH(56), lo, hi, s + 3, a, r), {});
  }

  /** TCP or UDP over IPv4, and the range of ports behind a header of variable length. */
  method ComparePortRangeOverIpv4(lo: u16, hi: u16, dir: Direction, asm: Assembler, accept: LabelId, reject: LabelId)
    requires asm.Ready() && accept in asm.draft.at && reject in asm.draft.at
    modifies asm
    ensures asm.Ready()
    ensures var s, a, r := |old(asm.draft.layout)|, old(asm.draft.at[accept]), old(asm.draft.at[reject]);
            asm.draft.Extends(old(asm.draft), TcpOrUdp(LdAbsB(23), s, r) + [Plain(LdxMshB(14))] +
                                              RangesIn(dir, LdIndH(14), LdIndH(16), lo, hi, s + 4, a, r))
  {
    hide Assembler.Valid, Assembler.OnPlan, Draft.Extends, TcpOrUdp, RangesIn;
    ghost var d, s, a, r := asm.draft, |asm.draft.layout|, asm.draft.at[accept], asm.draft.at[reject];
    ghost var c := TcpOrUdp(LdAbsB(23), s, r);
    RequirePortedTransport(LdAbsB(23), asm, reject);
    ghost var e := asm.draft;
    Kept(d, e, c, {});
    var _ := asm.Emit(LdxMshB(14));
    PlusExtends(e, LdxMshB(14));
    c := Appended(d, e, asm.draft, c, [Plain(LdxMshB(14))], {});
    e := asm.draft;
    ComparePortRange(dir, LdIndH(14), LdIndH(16), lo, hi, asm, accept, reject);
    c := Appended(d, e, asm.draft, c, RangesIn(dir, LdIndH(14), LdIndH(16), lo, hi, s + 4, a, r), {});
  }

  method CompilePortRange(lo: u16, hi: u16, dir: Direction, asm: Assembler, accept: LabelId, reject: LabelId)
    requires asm.Ready() && accept in asm.draft.at && reject in asm.draft.at
    modifies asm
    ensures asm.Ready()
    ensures asm.draft.Extends(old(asm.draft), PortRangeCode(lo, hi, dir, |old(asm.draft.layout)|,
                                              old(asm.draft.at[accept]), old(asm.draft.at[reject])))
  {
    hide Assembler.Valid, Assembler.OnPlan, Draft.Extends, FamilySplit, TcpOrUdp, RangesIn;
    ghost var d, s, a, r := asm.draft, |asm.draft.layout|, asm.draft.at[accept], asm.draft.at[reject];
    ghost var n := if dir == Any then 6 else 3;
    ghost var v6 := RangesIn(dir, LdAbsH(54), LdAbsH(56), lo, hi, s + 6, a, r);
    ghost var v4 := RangesIn(dir, LdIndH(14), LdIndH(16), lo, hi, s + 10 + n, a, r);
    ghost var t6, t4 := TcpOrUdp(LdAbsB(20), s + 3, r), TcpOrUdp(LdAbsB(23), s + 6 + n, r);
    ghost var c := FamilySplit(s, s + 6 + n, r);
    var ipv4 := SplitFamilies(asm, reject, s + 6 + n);
    ghost var e := asm.draft;
    Kept(d, e, c, {ipv4});
    CheckTransportAndComparePortRange(lo, hi, dir, asm, accept, reject);
    c := Appended(d, e, asm.draft, c, t6 + v6, {ipv4});
    ExtendsClosed(d, asm.draft, c, ipv4);
    asm.PlaceLabel(ipv4, asm.NextIndex());
    e := asm.draft;
    ComparePortRangeOverIpv4(lo, hi, dir, asm, accept, reject);
    c := Appended(d, e, asm.draft, c, t4 + [Plain(LdxMshB(14))] + v4, {});
    OverPortsParts(v6, v4, s, r);
  }

  /** The code for ports of both IP versions, grouped as it is emitted. */
  lemma OverPortsParts(v6: Code, v4: Code, s: nat, r: nat)
    ensures OverPorts(v6, v4, s, r) ==
            FamilySplit(s, s + 6 + |v6|, r) + (TcpOrUdp(LdAbsB(20), s + 3, r) + v6) +
            (TcpOrUdp(LdAbsB(23), s + 6 + |v6|, r) + [Plain(LdxMshB(14))] + v4)
  {
    hide FamilySplit, TcpOrUdp;
  }

  method CheckMacAt(offset: u32, mac: Mac, asm: Assembler, accept: LabelId, reject: LabelId)
    requires offset + 4 < 0x1_0000_0000
    requires asm.Ready() && accept in asm.draft.at && reject in asm.draft.at
    modifies asm
    ensures asm.Ready()
    ensures asm.draft.Extends(old(asm.draft), MacAt(offset, mac, |old(asm.draft.layout)|, old(asm.draft.at[accept]),
                                                    old(asm.draft.at[reject])))
  {
    hide Assembler.Valid, Assembler.OnPlan;
    RequireField(LdAbsW(offset), MacHigh(mac), asm, reject);
    CheckField(LdAbsH(offset + 4), MacLow(mac), asm, accept, reject);
  }

  method CompileEtherHost(mac: Mac, dir: Direction, asm: Assembler, accept: LabelId, reject: LabelId)
    requires asm.Ready() && accept in asm.draft.at && reject in asm.draft.at
    modifies asm
    ensures asm.Ready()
    ensures asm.draft.Extends(old(asm.draft), EtherHostCode(mac, dir, |old(asm.draft.layout)|,
                                                            old(asm.draft.at[accept]), old(asm.draft.at[reject])))
  {
    hide Assembler.Valid, Assembler.OnPlan, MacAt;
    match dir
    case Any =>
      var srcCheck := asm.NewLabel(|asm.draft.layout| + 4);
      CheckMacAt(0, mac, asm, accept, srcCheck);
      asm.PlaceLabel(srcCheck, asm.NextIndex());
      CheckMacAt(6, mac, asm, accept, reject);
    case Src => CheckMacAt(6, mac, asm, accept, reject);
    case Dst => CheckMacAt(0, mac, asm, accept, reject);
  }

  method CheckMaskedAt(offset: u32, mask: u32, k: u32, asm: Assembler, accept: LabelId, reject: LabelId)
    requires asm.Ready() && accept in asm.draft.at && reject in asm.draft.at
    modifies asm
    ensures asm.Ready()
    ensures asm.draft.Extends(old(asm.draft), MaskedFieldIs(offset, mask, k, old(asm.draft.at[accept]),
                                                            old(asm.draft.at[reject])))
  {
    hide Assembler.Valid, Assembler.OnPlan;
    var _ := asm.Emit(LdAbsW(offset));
    var _ := asm.Emit(AndK(mask));
    var _ := asm.EmitJump(Jeq(k), accept, reject);
  }

  method RequireMaskedAt(offset: u32, mask: u32, k: u32, asm: Assembler, reject: LabelId)
    requires asm.Ready() && reject in asm.draft.at
    modifies asm
    ensures asm.Ready()
    ensures asm.draft.Extends(old(asm.draft), MaskedFieldIs(offset, mask, k, |old(asm.draft.layout)| + 3,
                                                            old(asm.draft.at[reject])))
  {
    hide Assembler.Valid, Assembler.OnPlan;
    var next := asm.NewLabel(|asm.draft.layout| + 3);
    CheckMaskedAt(offset, mask, k, asm, next, reject);
    asm.PlaceLabel(next, asm.NextIndex());
  }

  method CheckNet4(dir: Direction, mask: u32, net: u32, asm: Assembler, accept: LabelId, reject: LabelId)
    requires asm.Ready() && accept in asm.draft.at && reject in asm.draft.at
    modifies asm
    ensures asm.Ready()
    ensures asm.draft.Extends(old(asm.draft), Net4In(dir, mask, net, |old(asm.draft.layout)|,
                                                     old(asm.draft.at[accept]), old(asm.draft.at[reject])))
  {
    hide Assembler.Valid, Assembler.OnPlan, MaskedFieldIs;
    match dir
    case Any =>
      var dstCheck := asm.NewLabel(|asm.draft.layout| + 3);
      CheckMaskedAt(26, mask, net, asm, accept, dstCheck);
      asm.PlaceLabel(dstCheck, asm.NextIndex());
      CheckMaskedAt(30, mask, net, asm, accept, reject);
    case Src => CheckMaskedAt(26, mask, net, asm, accept, reject);
    case Dst => CheckMaskedAt(30, mask, net, asm, accept, reject);
  }

  method CompileIpv4Net(addr: u32, mask: u32, dir: Direction, asm: Assembler, accept: LabelId, reject: LabelId)
    requires asm.Ready() && accept in asm.draft.at && reject in asm.draft.at
    modifies asm
    ensures asm.Ready()
    ensures asm.draft.Extends(old(asm.draft), NetCode(NetV4(addr, mask), dir, |old(asm.draft.layout)|,
                                                      old(asm.draft.at[accept]), old(asm.draft.at[reject])))
  {
    hide Assembler.Valid, Assembler.OnPlan, Bits.And, Net4In, FieldIs;
    var net := Bits.And(addr, mask);
    RequireField(LdAbsH(12), ETHERTYPE_IP, asm, reject);
    CheckNet4(dir, mask, net, asm, accept, reject);
  }

  method CheckIpv6NetAt(asm: Assembler, offset: nat, words: seq<u32>, masks: seq<u32>, accept: LabelId, reject: LabelId)
    requires |masks| == |words| > 0 && offset + 4 * |words| <= 0x1_0000
    requires asm.Ready() && accept in asm.draft.at && reject in asm.draft.at
    modifies asm
    ensures asm.Ready()
    ensures asm.draft.Extends(old(asm.draft), MaskedWordsAt(offset, words, masks, |old(asm.draft.layout)|,
                                                            old(asm.draft.at[accept]), old(asm.draft.at[reject])))
  {
    hide Assembler.Valid, Assembler.OnPlan, Draft.Extends, FieldIs, MaskedFieldIs, WordsFrom, WordsAt,
         MaskedWordsFrom, MaskedWordsAt;
    ghost var d, s, a, r := asm.draft, |asm.draft.layout|, asm.draft.at[accept], asm.draft.at[reject];
    ghost var done := NothingYet(d);
    MaskedWordsEnds(offset, words, masks, s, a, r);
    for i := 0 to |words|
      invariant asm.Ready() && asm.draft.Extends(d, done) && |done| == 3 * i
      invariant MaskedWordsFrom(offset, words, masks, 0, s, a, r) ==
                done + MaskedWordsFrom(offset, words, masks, i, s, a, r)
    {
      ghost var e := asm.draft;
      Kept(d, e, done, {});
      ghost var next := if i == |words| - 1 then a else s + 3 * i + 3;
      ghost var step := MaskedFieldIs(offset + 4 * i, masks[i], words[i], next, r);
      if i == |words| - 1 {
        CheckMaskedAt(offset + 4 * i, masks[i], words[i], asm, accept, reject);
      } else {
        RequireMaskedAt(offset + 4 * i, masks[i], words[i], asm, reject);
      }
      MaskedWordsStep(offset, words, masks, i, s, a, r);
      done := Appended(d, e, asm.draft, done, step, {});
    }
    assert done + [] == done;
  }

  method CheckNet6(dir: Direction, words: seq<u32>, masks: seq<u32>, asm: Assembler, accept: LabelId, reject: LabelId)
    requires |words| == |masks| == 4
    requires asm.Ready() && accept in asm.draft.at && reject in asm.draft.at
    modifies asm
    ensures asm.Ready()
    ensures asm.draft.Extends(old(asm.draft), Net6In(dir, words, masks, |old(asm.draft.layout)|,
                                                     old(asm.draft.at[accept]), old(asm.draft.at[reject])))
  {
    hide Assembler.Valid, Assembler.OnPlan, MaskedWordsAt;
    match dir
    case Any =>
      var dstCheck := asm.NewLabel(|asm.draft.layout| + 12);
      CheckIpv6NetAt(asm, 22, words, masks, accept, dstCheck);
      asm.PlaceLabel(dstCheck, asm.NextIndex());
      CheckIpv6NetAt(asm, 38, words, masks, accept, reject);
    case Src => CheckIpv6NetAt(asm, 22, words, masks, accept, reject);
    case Dst => CheckIpv6NetAt(asm, 38, words, masks, accept, reject);
  }

  method CompileIpv6Net(addr: u128, mask: u128, dir: Direction, asm: Assembler, accept: LabelId, reject: LabelId)
    requires asm.Ready() && accept in asm.draft.at && reject in asm.draft.at
    modifies asm
    ensures asm.Ready()
    ensures asm.draft.Extends(old(asm.draft), NetCode(NetV6(addr, mask), dir, |old(asm.draft.layout)|,
                                                      old(asm.draft.at[accept]), old(asm.draft.at[reject])))
  {
    hide Assembler.Valid, Assembler.OnPlan, Ipv6Words, Net6In, FieldIs;
    var words, masks := Ipv6Words(addr), Ipv6Words(mask);
    RequireField(LdAbsH(12), ETHERTYPE_IPV6, asm, reject);
    CheckNet6(dir, words, masks, asm, accept, reject);
  }

  method CompileNet(net: NetAddr, dir: Direction, asm: Assembler, accept: LabelId, reject: LabelId)
    requires asm.Ready() && accept in asm.draft.at && reject in asm.draft.at
    modifies asm
    ensures asm.Ready()
    ensures asm.draft.Extends(old(asm.draft), NetCode(net, dir, |old(asm.draft.layout)|, old(asm.draft.at[accept]),
                                                      old(asm.draft.at[reject])))
  {
    hide Assembler.Valid, Assembler.OnPlan;
    match net
    case NetV4(addr, mask) => CompileIpv4Net(addr, mask, dir, asm, accept, reject);
    case NetV6(addr, mask) => CompileIpv6Net(addr, mask, dir, asm, accept, reject);
  }

  method CompileLen(op: RelOp, len: u32, asm: Assembler, accept: LabelId, reject: LabelId)
    requires asm.Ready() && accept in asm.draft.at && reject in asm.draft.at
    modifies asm
    ensures asm.Ready()
    ensures asm.draft.Extends(old(asm.draft), LenCode(op, len, old(asm.draft.at[accept]), old(asm.draft.at[reject])))
  {
    hide Assembler.Valid, Assembler.OnPlan;
    var _ := asm.Emit(LdLen());
    match op {
      case Eq => var _ := asm.EmitJump(Jeq(len), accept, reject);
      case Ne => var _ := asm.EmitJump(Jeq(len), reject, accept);
      case Gt => var _ := asm.EmitJump(Jgt(len), accept, reject);
      case Ge => var _ := asm.EmitJump(Jge(len), accept, reject);
      case Lt => var _ := asm.EmitJump(Jge(len), reject, accept);
      case Le => var _ := asm.EmitJump(Jgt(len), reject, accept);
    }
  }

  // ----- filters -----

  lemma Parts(ast: Ast, s: nat, a: nat, r: nat)
    ensures ast.And? ==>
              var m := s + Size(ast.left);
              CodeAt(ast, s, a, r) == CodeAt(ast.left, s, m, r) + CodeAt(ast.right, m, a, r)
    ensures ast.Or? ==>
              var m := s + Size(ast.left);
              CodeAt(ast, s, a, r) == CodeAt(ast.left, s, a, m) + CodeAt(ast.right, m, a, r)
    ensures ast.Not? ==> CodeAt(ast, s, a, r) == CodeAt(ast.inner, s, r, a)
    ensures ast.Leaf() ==> CodeAt(ast, s, a, r) == LeafCode(ast, s, a, r)
  {
    hide LeafCode, LeafSize;
  }

  method CompileNode(ast: Ast, asm: Assembler, accept: LabelId, reject: LabelId)
    requires asm.Ready() && accept in asm.draft.at && reject in asm.draft.at
    modifies asm
    ensures asm.Ready()
    ensures asm.draft.Extends(old(asm.draft), CodeAt(ast, |old(asm.draft.layout)|, old(asm.draft.at[accept]),
                                                     old(asm.draft.at[reject])))
    decreases ast
  {
    hide Assembler.Valid, Assembler.OnPlan, Draft.Extends, CodeAt, Size, LeafSize;
    hide ProtoCode, HostCode, PortCode, PortRangeCode, EtherHostCode, NetCode, LenCode;
    ghost var d, s, a, r := asm.draft, |asm.draft.layout|, asm.draft.at[accept], asm.draft.at[reject];
    Parts(ast, s, a, r);
    match ast
    case And(left, right) =>
      ghost var m := s + Size(left);
      var mid := asm.NewLabel(m);
      CompileNode(left, asm, mid, reject);
      ghost var e := asm.draft;
      Kept(d.Allocated(m), e, CodeAt(left, s, m, r), {});
      asm.PlaceLabel(mid, asm.NextIndex());
      CompileNode(right, asm, accept, reject);
      ExtendsOverLabel(d, e, asm.draft, m, CodeAt(left, s, m, r), CodeAt(right, m, a, r));
    case Or(left, right) =>
      ghost var m := s + Size(left);
      var mid := asm.NewLabel(m);
      CompileNode(left, asm, accept, mid);
      ghost var e := asm.draft;
      Kept(d.Allocated(m), e, CodeAt(left, s, a, m), {});
      asm.PlaceLabel(mid, asm.NextIndex());
      CompileNode(right, asm, accept, reject);
      ExtendsOverLabel(d, e, asm.draft, m, CodeAt(left, s, a, m), CodeAt(right, m, a, r));
    case Not(inner) => CompileNode(inner, asm, reject, accept);
    case Proto(proto) => CompileProto(proto, asm, accept, reject);
    case Host(host, dir) => CompileHost(host, dir, asm, accept, reject);
    case Port(port, dir) => CompilePort(port, dir, asm, accept, reject);
    case PortRange(lo, hi, dir) => CompilePortRange(lo, hi, dir, asm, accept, reject);
    case EtherHost(mac, dir) => CompileEtherHost(mac, dir, asm, accept, reject);
    case Net(net, dir) => CompileNet(net, dir, asm, accept, reject);
    case Len(op, len) => CompileLen(op, len, asm, accept, reject);
  }

  /** Compile a filter: both exits are placed behind its code, in front of the two return instructions.
      Every label allocated is placed, once, and where it was meant to be. */
  method Emitted(ast: Ast) returns (asm: Assembler)
    ensures fresh(asm) && asm.Ready() && asm.draft.layout == Program(ast)
    ensures !asm.draft.again && asm.labels == asm.draft.at && forall l: nat :: l in asm.labels <==> l < asm.nextLabel
  {
    asm := new Assembler();
    var accept := asm.NewLabel(Size(ast));
    var reject := asm.NewLabel(Size(ast) + 1);
    EmitAll(ast, asm, accept, reject);
    AllPlaced(asm);
  }

  lemma AllPlaced(asm: Assembler)
    requires asm.Ready() && forall l: nat :: l in asm.draft.placed <==> l < asm.draft.next
    ensures asm.labels == asm.draft.at && forall l: nat :: l in asm.labels <==> l < asm.nextLabel
  {
  }

  method EmitAll(ast: Ast, asm: Assembler, accept: LabelId, reject: LabelId)
    requires asm.Ready() && accept == 0 && reject == 1
    requires asm.draft == Draft([], [], map[], 0, {}, false).Allocated(Size(ast)).Allocated(Size(ast) + 1)
    modifies asm
    ensures asm.Ready() && asm.draft.layout == Program(ast)
    ensures !asm.draft.again && forall l: nat :: l in asm.draft.placed <==> l < asm.draft.next
  {
    hide CodeAt, Size, Program, Assembler.Valid, Assembler.OnPlan, Draft.Extends;
    ghost var d := asm.draft;
    CompileNode(ast, asm, accept, reject);
    ghost var e := asm.draft;
    Kept(d, e, CodeAt(ast, 0, Size(ast), Size(ast) + 1), {});
    EmitsProgram(d, e, ast);
    asm.PlaceLabel(accept, asm.NextIndex());
    var _ := asm.Emit(RetK(CBPF_ACCEPT));
    asm.PlaceLabel(reject, asm.NextIndex());
    var _ := asm.Emit(RetK(CBPF_REJECT));
  }

  lemma EmitsProgram(d: Draft, e: Draft, ast: Ast)
    requires d == Draft([], [], map[], 0, {}, false).Allocated(Size(ast)).Allocated(Size(ast) + 1)
    requires e.Extends(d, CodeAt(ast, 0, Size(ast), Size(ast) + 1))
    ensures var f := e.Placing(0).Plus(RetK(CBPF_ACCEPT)).Placing(1).Plus(RetK(CBPF_REJECT));
            f.layout == Program(ast) && !f.again && forall l: nat :: l in f.placed <==> l < f.next
  {
    hide CodeAt, Size;
  }

  method Compile(ast: Ast) returns (r: Assembly)
    ensures r == Assemble(Program(ast))
  {
    var asm := Emitted(ast);
    r := asm.Resolve();
    ResolvedIsAssembled(asm.draft.code, asm.draft.at, Program(ast), r);
  }
}
