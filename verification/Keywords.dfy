/** What every way of writing a predicate means, keyword by keyword. */
module Keywords {
  import opened Common
  import opened Bits
  import opened FilterAst
  import opened NetMask
  import opened Grammar
  import opened Parser
  import opened Semantics

  lemma Spelled(dir: Direction, kind: Kind, build: Build)
    ensures ParseTokens(DirectionTokens(dir) + KindTokens(kind), build) == PredicateAst(PredicateTree(dir, kind), build)
  {
    hide ParseTokens, KindTokens, PredicateAst;
    SingleParsed(PredicateTree(dir, kind), build);
  }

  lemma DirectionKeywords()
    ensures DirectionTokens(Src) == [KwSrc] && DirectionTokens(Dst) == [KwDst] && DirectionTokens(Any) == []
  {
  }

  /** `greater` and `less` compare strictly; a direction in front of them is accepted and means nothing. */
  lemma GreaterAndLess(dir: Direction, n: nat, build: Build)
    ensures var greater := ParseTokens(DirectionTokens(dir) + [KwGreater, Number(n)], build);
            var less := ParseTokens(DirectionTokens(dir) + [KwLess, Number(n)], build);
            if n < 0x1_0000_0000 then
              greater == Ok(Len(Gt, n)) && less == Ok(Len(Lt, n)) &&
              (forall packet :: Matches(greater.ast, packet) <==> |packet| % 0x1_0000_0000 > n) &&
              (forall packet :: Matches(less.ast, packet) <==> |packet| % 0x1_0000_0000 < n)
            else
              greater == Err(InvalidNumber) && less == Err(InvalidNumber)
  {
    hide ParseTokens;
    Spelled(dir, LenKind(Greater(n)), build);
    Spelled(dir, LenKind(Less(n)), build);
  }

  /** `len` with a comparison. */
  lemma Lengths(dir: Direction, op: RelOp, n: nat, build: Build)
    ensures ParseTokens(DirectionTokens(dir) + [KwLen, Relop(op), Number(n)], build) ==
            if n < 0x1_0000_0000 then Ok(Len(op, n)) else Err(InvalidNumber)
  {
    hide ParseTokens;
    Spelled(dir, LenKind(Relation(op, n)), build);
  }

  /** A direction in front of a protocol means nothing. */
  lemma Protocols(dir: Direction, proto: Protocol, build: Build)
    ensures ParseTokens(DirectionTokens(dir) + [KwProto(proto)], build) == Ok(Proto(proto))
  {
    hide ParseTokens;
    Spelled(dir, ProtoKind(proto), build);
  }

  /** `ether` has its own direction behind it; one in front means nothing, and so does `host`. */
  lemma EtherHosts(dir: Direction, own: Direction, mac: Mac, build: Build)
    ensures ParseTokens(DirectionTokens(dir) + ([KwEther] + DirectionTokens(own) + [KwHost] + [MacAddress(mac)]), build)
            == Ok(EtherHost(mac, own))
    ensures ParseTokens(DirectionTokens(dir) + ([KwEther] + DirectionTokens(own) + [] + [MacAddress(mac)]), build)
            == Ok(EtherHost(mac, own))
  {
    hide ParseTokens, DirectionTokens;
    Spelled(dir, EtherKind(own, true, mac), build);
    Spelled(dir, EtherKind(own, false, mac), build);
  }

  lemma Hosts(dir: Direction, host: HostAddr, build: Build)
    ensures ParseTokens(DirectionTokens(dir) + [KwHost, Address(host)], build) == Ok(Host(host, dir))
  {
    hide ParseTokens;
    Spelled(dir, HostKind(host), build);
  }

  /** Ports are below 2^16. */
  lemma Ports(dir: Direction, n: nat, build: Build)
    ensures ParseTokens(DirectionTokens(dir) + [KwPort, Number(n)], build) ==
            if n < 0x1_0000 then Ok(Port(n, dir)) else Err(InvalidPort)
  {
    hide ParseTokens;
    Spelled(dir, PortKind(n), build);
  }

  lemma PortRanges(dir: Direction, lo: nat, hi: nat, build: Build)
    ensures ParseTokens(DirectionTokens(dir) + [KwPortrange, Number(lo), Dash, Number(hi)], build) ==
            if lo >= 0x1_0000 || hi >= 0x1_0000 then Err(InvalidNumber)
            else if lo > hi then Err(RangeReversed)
            else Ok(PortRange(lo, hi, dir))
  {
    hide ParseTokens;
    Spelled(dir, PortrangeKind(lo, hi), build);
  }

  // ----- networks -----

  /** Without a mask an IPv4 network has that of its class, and an IPv6 network is one host. */
  lemma ClassfulNets(dir: Direction, a: u32, v6: u128, build: Build)
    ensures var first: int := a / 0x100_0000;
            var mask: u32 := if first < 128 then 0xFF00_0000 else if first < 192 then 0xFFFF_0000
                             else if first < 224 then 0xFFFF_FF00 else 0xFFFF_FFFF;
            ParseTokens(DirectionTokens(dir) + [KwNet, Address(HostV4(a))], build) == Ok(Ast.Net(NetV4(a, mask), dir))
    ensures ParseTokens(DirectionTokens(dir) + [KwNet, Address(HostV6(v6))], build) ==
            Ok(Ast.Net(NetV6(v6, 0xFFFF_FFFF_FFFF_FFFF_FFFF_FFFF_FFFF_FFFF), dir))
  {
    hide ParseTokens, ParseNet;
    assert [KwNet, Address(HostV4(a))] + [] == [KwNet, Address(HostV4(a))];
    assert [KwNet, Address(HostV6(v6))] + [] == [KwNet, Address(HostV6(v6))];
    Spelled(dir, NetKind(HostV4(a), None), build);
    Spelled(dir, NetKind(HostV6(v6), None), build);
    DefaultNets(a, v6, build);
  }

  /** A written prefix: the errors, and the mask of that many ones. */
  lemma PrefixNets(dir: Direction, a: u32, v6: u128, p: nat, build: Build)
    ensures ParseTokens(DirectionTokens(dir) + [KwNet, Address(HostV4(a)), Slash, Number(p)], build) ==
            if p > 255 then Err(InvalidNet(InvalidMask))
            else if p > 32 then Err(InvalidNet(PrefixTooLong))
            else if p == 0 && build == Checked then Err(InvalidNet(ShiftOverflow))
            else Ok(Ast.Net(NetV4(a, Ones32(p)), dir))
    ensures ParseTokens(DirectionTokens(dir) + [KwNet, Address(HostV6(v6)), Slash, Number(p)], build) ==
            if p > 255 then Err(InvalidNet(InvalidMask))
            else if p > 128 then Err(InvalidNet(PrefixTooLong))
            else if p == 0 && build == Checked then Err(InvalidNet(ShiftOverflow))
            else Ok(Ast.Net(NetV6(v6, Ones128(p)), dir))
  {
    hide ParseTokens, ParseNet, Ones32, Ones128;
    assert [KwNet, Address(HostV4(a))] + [Slash, Number(p)] == [KwNet, Address(HostV4(a)), Slash, Number(p)];
    assert [KwNet, Address(HostV6(v6))] + [Slash, Number(p)] == [KwNet, Address(HostV6(v6)), Slash, Number(p)];
    Spelled(dir, NetKind(HostV4(a), Some(PrefixToken(p))), build);
    Spelled(dir, NetKind(HostV6(v6), Some(PrefixToken(p))), build);
    PrefixNet(a, v6, p, build);
  }

  /** A written mask is taken as it is, and must be of the same version. */
  lemma MaskedNets(dir: Direction, host: HostAddr, mask: HostAddr, build: Build)
    ensures ParseTokens(DirectionTokens(dir) + [KwNet, Address(host), KwMask, Address(mask)], build) ==
            if host.HostV4? && mask.HostV4? then Ok(Ast.Net(NetV4(host.v4, mask.v4), dir))
            else if host.HostV6? && mask.HostV6? then Ok(Ast.Net(NetV6(host.v6, mask.v6), dir))
            else Err(InvalidNet(InvalidMask))
  {
    hide ParseTokens, Pow2;
    assert [KwNet, Address(host)] + [KwMask, Address(mask)] == [KwNet, Address(host), KwMask, Address(mask)];
    Spelled(dir, NetKind(host, Some(AddressToken(mask))), build);
  }
}
