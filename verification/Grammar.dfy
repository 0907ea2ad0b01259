/** The filter grammar as a parsing expression grammar over tokens. White space separates tokens and is
    not modelled; keywords, numbers, addresses and MAC addresses are single tokens. */
module Grammar {
  import opened Common
  import opened FilterAst
  import opened NetMask

  datatype Token =
    | KwOr | KwAnd | KwNot | LParen | RParen
    | KwSrc | KwDst | KwProto(proto: Protocol) | KwHost | KwPort | KwPortrange | KwNet | KwMask
    | KwLen | KwGreater | KwLess | KwEther
    | Relop(op: RelOp) | Number(n: nat) | Address(addr: HostAddr) | MacAddress(mac: Mac) | Dash | Slash

  type Tokens = seq<Token>

  // ----- parse trees -----

  datatype LenTree = Relation(op: RelOp, n: nat) | Greater(n: nat) | Less(n: nat)

  datatype Kind =
    | ProtoKind(proto: Protocol)
    | HostKind(addr: HostAddr)
    | PortKind(n: nat)
    | PortrangeKind(lo: nat, hi: nat)
    | NetKind(addr: HostAddr, mask: Option<MaskToken>)
    | LenKind(len: LenTree)
    | EtherKind(dir: Direction, host: bool, mac: Mac)

  /** A missing direction is `Any`, which has no token. */
  datatype PredicateTree = PredicateTree(dir: Direction, kind: Kind)

  datatype PrimaryTree = Pred(pred: PredicateTree) | Paren(expr: OrTree)

  datatype NotTree = NotTree(negated: bool, primary: PrimaryTree)

  datatype AndItem = AndMark | NotOperand(operand: NotTree)

  datatype AndTree = AndTree(items: seq<AndItem>)

  datatype OrItem = OrMark | AndOperand(operand: AndTree)

  datatype OrTree = OrTree(items: seq<OrItem>)

  datatype Parse<T> = Fail | Match(tree: T, rest: Tokens)

  // ----- the rules, each a function from the tokens ahead to a tree and the tokens left -----

  function First(ts: Tokens, t: Token): bool { ts != [] && ts[0] == t }

  function ParseDirection(ts: Tokens): (r: Parse<Direction>)
    ensures r.Match? && |r.rest| <= |ts|
  {
    if First(ts, KwSrc) then Match(Src, ts[1..])
    else if First(ts, KwDst) then Match(Dst, ts[1..])
    else Match(Any, ts)
  }

  function ParseNetmaskRule(ts: Tokens): (r: Parse<Option<MaskToken>>)
    ensures r.Match? && |r.rest| <= |ts|
  {
    if |ts| >= 2 && ts[0] == Slash && ts[1].Number? then Match(Some(PrefixToken(ts[1].n)), ts[2..])
    else if |ts| >= 2 && ts[0] == KwMask && ts[1].Address? then Match(Some(AddressToken(ts[1].addr)), ts[2..])
    else Match(None, ts)
  }

  function ParseEther(ts: Tokens): (r: Parse<Kind>)
    ensures r.Match? ==> |r.rest| < |ts|
  {
    var d := ParseDirection(ts);
    var host := First(d.rest, KwHost);
    var rest := if host then d.rest[1..] else d.rest;
    if rest != [] && rest[0].MacAddress? then Match(EtherKind(d.tree, host, rest[0].mac), rest[1..]) else Fail
  }

  function ParseKind(ts: Tokens): (r: Parse<Kind>)
    ensures r.Match? ==> |r.rest| < |ts|
  {
    if ts == [] then Fail
    else
      match ts[0]
      case KwProto(p) => Match(ProtoKind(p), ts[1..])
      case KwHost => if |ts| >= 2 && ts[1].Address? then Match(HostKind(ts[1].addr), ts[2..]) else Fail
      case KwPort => if |ts| >= 2 && ts[1].Number? then Match(PortKind(ts[1].n), ts[2..]) else Fail
      case KwPortrange =>
        if |ts| >= 4 && ts[1].Number? && ts[2] == Dash && ts[3].Number?
        then Match(PortrangeKind(ts[1].n, ts[3].n), ts[4..])
        else Fail
      case KwNet =>
        if |ts| >= 2 && ts[1].Address? then
          var m := ParseNetmaskRule(ts[2..]);
          Match(NetKind(ts[1].addr, m.tree), m.rest)
        else Fail
      case KwLen =>
        if |ts| >= 3 && ts[1].Relop? && ts[2].Number?
        then Match(LenKind(Relation(ts[1].op, ts[2].n)), ts[3..])
        else Fail
      case KwGreater => if |ts| >= 2 && ts[1].Number? then Match(LenKind(Greater(ts[1].n)), ts[2..]) else Fail
      case KwLess => if |ts| >= 2 && ts[1].Number? then Match(LenKind(Less(ts[1].n)), ts[2..]) else Fail
      case KwEther => ParseEther(ts[1..])
      case _ => Fail
  }

  function ParsePredicate(ts: Tokens): (r: Parse<PredicateTree>)
    ensures r.Match? ==> |r.rest| < |ts|
  {
    var d := ParseDirection(ts);
    match ParseKind(d.rest)
    case Fail => Fail
    case Match(kind, rest) => Match(PredicateTree(d.tree, kind), rest)
  }

  function ParsePrimary(ts: Tokens): (r: Parse<PrimaryTree>)
    ensures r.Match? ==> |r.rest| < |ts|
    decreases |ts|, 0
  {
    match ParsePredicate(ts)
    case Match(p, rest) => Match(Pred(p), rest)
    case Fail =>
      if First(ts, LParen) then
        match ParseOr(ts[1..])
        case Fail => Fail
        case Match(e, rest) => if First(rest, RParen) then Match(Paren(e), rest[1..]) else Fail
      else Fail
  }

  /** `not` takes one primary; if that fails, a primary is tried in its place. */
  function ParseNot(ts: Tokens): (r: Parse<NotTree>)
    ensures r.Match? ==> |r.rest| < |ts|
    decreases |ts|, 1
  {
    var negated := if First(ts, KwNot) then ParsePrimary(ts[1..]) else Fail;
    match negated
    case Match(p, rest) => Match(NotTree(true, p), rest)
    case Fail =>
      match ParsePrimary(ts)
      case Fail => Fail
      case Match(p, rest) => Match(NotTree(false, p), rest)
  }

  function ParseAnd(ts: Tokens): (r: Parse<AndTree>)
    ensures r.Match? ==> |r.rest| < |ts|
    decreases |ts|, 2
  {
    match ParseNot(ts)
    case Fail => Fail
    case Match(t, rest) => ParseAndRest([NotOperand(t)], rest)
  }

  /** The operator is optional, but an operator with no operand behind it is not consumed. */
  function ParseAndRest(items: seq<AndItem>, ts: Tokens): (r: Parse<AndTree>)
    ensures r.Match? && |r.rest| <= |ts|
    decreases |ts|, 3
  {
    var marked := First(ts, KwAnd);
    match ParseNot(if marked then ts[1..] else ts)
    case Fail => Match(AndTree(items), ts)
    case Match(t, rest) => ParseAndRest(items + (if marked then [AndMark] else []) + [NotOperand(t)], rest)
  }

  function ParseOr(ts: Tokens): (r: Parse<OrTree>)
    ensures r.Match? ==> |r.rest| < |ts|
    decreases |ts|, 4
  {
    match ParseAnd(ts)
    case Fail => Fail
    case Match(t, rest) => ParseOrRest([AndOperand(t)], rest)
  }

  function ParseOrRest(items: seq<OrItem>, ts: Tokens): (r: Parse<OrTree>)
    ensures r.Match? && |r.rest| <= |ts|
    decreases |ts|, 5
  {
    if First(ts, KwOr) then
      match ParseAnd(ts[1..])
      case Fail => Match(OrTree(items), ts)
      case Match(t, rest) => ParseOrRest(items + [OrMark, AndOperand(t)], rest)
    else Match(OrTree(items), ts)
  }

  /** The whole input must be one expression. */
  function ParseFilter(ts: Tokens): Parse<OrTree> {
    var r := ParseOr(ts);
    if r.Match? && r.rest == [] then r else Fail
  }

  // ----- the tokens a tree stands for -----

  function DirectionTokens(d: Direction): Tokens {
    match d case Any => [] case Src => [KwSrc] case Dst => [KwDst]
  }

  function MaskTokens(m: Option<MaskToken>): Tokens {
    match m
    case None => []
    case Some(PrefixToken(n)) => [Slash, Number(n)]
    case Some(AddressToken(a)) => [KwMask, Address(a)]
  }

  function KindTokens(k: Kind): Tokens {
    match k
    case ProtoKind(p) => [KwProto(p)]
    case HostKind(a) => [KwHost, Address(a)]
    case PortKind(n) => [KwPort, Number(n)]
    case PortrangeKind(lo, hi) => [KwPortrange, Number(lo), Dash, Number(hi)]
    case NetKind(a, m) => [KwNet, Address(a)] + MaskTokens(m)
    case LenKind(Relation(op, n)) => [KwLen, Relop(op), Number(n)]
    case LenKind(Greater(n)) => [KwGreater, Number(n)]
    case LenKind(Less(n)) => [KwLess, Number(n)]
    case EtherKind(d, host, m) => [KwEther] + DirectionTokens(d) + (if host then [KwHost] else []) + [MacAddress(m)]
  }

  function PredicateTokens(p: PredicateTree): Tokens { DirectionTokens(p.dir) + KindTokens(p.kind) }

  function PrimaryTokens(p: PrimaryTree): Tokens {
    match p
    case Pred(t) => PredicateTokens(t)
    case Paren(e) => [LParen] + OrTokens(e) + [RParen]
  }

  function NotTokens(t: NotTree): Tokens { (if t.negated then [KwNot] else []) + PrimaryTokens(t.primary) }

  function AndItemTokens(i: AndItem): Tokens {
    match i case AndMark => [KwAnd] case NotOperand(t) => NotTokens(t)
  }

  function AndItemsTokens(items: seq<AndItem>): Tokens {
    if items == [] then [] else AndItemTokens(items[0]) + AndItemsTokens(items[1..])
  }

  function AndTokens(t: AndTree): Tokens { AndItemsTokens(t.items) }

  function OrItemTokens(i: OrItem): Tokens {
    match i case OrMark => [KwOr] case AndOperand(t) => AndTokens(t)
  }

  function OrItemsTokens(items: seq<OrItem>): Tokens {
    if items == [] then [] else OrItemTokens(items[0]) + OrItemsTokens(items[1..])
  }

  function OrTokens(t: OrTree): Tokens { OrItemsTokens(t.items) }

  // ----- the shape the rules give their trees -----

  predicate PrimaryShape(p: PrimaryTree) { p.Paren? ==> OrShape(p.expr) }

  predicate NotShape(t: NotTree) { PrimaryShape(t.primary) }

  predicate AndItemShape(i: AndItem) { i.NotOperand? && NotShape(i.operand) }

  predicate AndShape(t: AndTree) { t.items != [] && AndItemShape(t.items[0]) && AndRestShape(t.items[1..]) }

  /** Further operands, each with or without an operator in front. */
  predicate AndRestShape(items: seq<AndItem>) {
    items == [] ||
    (AndItemShape(items[0]) && AndRestShape(items[1..])) ||
    (items[0].AndMark? && |items| >= 2 && AndItemShape(items[1]) && AndRestShape(items[2..]))
  }

  predicate OrItemShape(i: OrItem) { i.AndOperand? && AndShape(i.operand) }

  predicate OrShape(t: OrTree) { t.items != [] && OrItemShape(t.items[0]) && OrRestShape(t.items[1..]) }

  /** Further operands, each with an operator in front. */
  predicate OrRestShape(items: seq<OrItem>) {
    items == [] || (items[0].OrMark? && |items| >= 2 && OrItemShape(items[1]) && OrRestShape(items[2..]))
  }

  // ----- soundness: what the rules match is what their trees stand for -----

  lemma KindSound(ts: Tokens)
    requires ParseKind(ts).Match?
    ensures ts == KindTokens(ParseKind(ts).tree) + ParseKind(ts).rest
  {
    hide ParseKind, KindTokens;
    match ts[0]
    case KwEther =>
      EtherAhead(ts);
      EtherSound(ts[1..]);
    case KwNet => LongKindSound(ts);
    case KwLen => LongKindSound(ts);
    case KwPortrange => LongKindSound(ts);
    case _ => ShortKindSound(ts);
  }

  lemma EtherAhead(ts: Tokens)
    requires ts != [] && ts[0].KwEther?
    ensures ParseKind(ts) == ParseEther(ts[1..]) && ts == [KwEther] + ts[1..]
  {
    hide ParseEther;
  }

  lemma ShortKindSound(ts: Tokens)
    requires ParseKind(ts).Match? && !ts[0].KwEther? && !ts[0].KwNet? && !ts[0].KwLen? && !ts[0].KwPortrange?
    ensures ts == KindTokens(ParseKind(ts).tree) + ParseKind(ts).rest
  {
    hide ParseEther, ParseNetmaskRule;
  }

  lemma LongKindSound(ts: Tokens)
    requires ParseKind(ts).Match? && (ts[0].KwNet? || ts[0].KwLen? || ts[0].KwPortrange?)
    ensures ts == KindTokens(ParseKind(ts).tree) + ParseKind(ts).rest
  {
    hide ParseEther;
  }

  lemma EtherSound(ts: Tokens)
    requires ParseEther(ts).Match?
    ensures ParseEther(ts).tree.EtherKind?
    ensures [KwEther] + ts == KindTokens(ParseEther(ts).tree) + ParseEther(ts).rest
  {
  }

  lemma PredicateSound(ts: Tokens)
    requires ParsePredicate(ts).Match?
    ensures ts == PredicateTokens(ParsePredicate(ts).tree) + ParsePredicate(ts).rest
  {
    hide ParseKind, KindTokens;
    KindSound(ParseDirection(ts).rest);
  }

  lemma {:induction false} PrimarySound(ts: Tokens)
    requires ParsePrimary(ts).Match?
    ensures var r := ParsePrimary(ts); PrimaryShape(r.tree) && ts == PrimaryTokens(r.tree) + r.rest
    decreases |ts|, 0
  {
    hide ParsePredicate, PredicateTokens;
    if ParsePredicate(ts).Match? {
      PredicateSound(ts);
    } else {
      OrSound(ts[1..]);
    }
  }

  lemma {:induction false} NotSound(ts: Tokens)
    requires ParseNot(ts).Match?
    ensures var r := ParseNot(ts); NotShape(r.tree) && ts == NotTokens(r.tree) + r.rest
    decreases |ts|, 1
  {
    hide ParsePrimary, PrimaryTokens, PrimaryShape;
    if First(ts, KwNot) && ParsePrimary(ts[1..]).Match? {
      assert ts == [KwNot] + ts[1..];
      PrimarySound(ts[1..]);
    } else {
      PrimarySound(ts);
    }
  }

  lemma AndItemsCons(i: AndItem, rest: seq<AndItem>)
    ensures AndItemsTokens([i] + rest) == AndItemTokens(i) + AndItemsTokens(rest)
    ensures AndItemShape(i) && AndRestShape(rest) ==> AndRestShape([i] + rest)
    ensures rest != [] && i.AndMark? && AndItemShape(rest[0]) && AndRestShape(rest[1..]) ==> AndRestShape([i] + rest)
  {
    assert ([i] + rest)[1..] == rest;
    if rest != [] { assert ([i] + rest)[2..] == rest[1..]; }
  }

  lemma OrItemsCons(i: OrItem, rest: seq<OrItem>)
    ensures OrItemsTokens([i] + rest) == OrItemTokens(i) + OrItemsTokens(rest)
  {
    assert ([i] + rest)[1..] == rest;
  }

  lemma OrPairCons(t: AndTree, rest: seq<OrItem>)
    ensures OrItemsTokens([OrMark, AndOperand(t)] + rest) == [KwOr] + (AndTokens(t) + OrItemsTokens(rest))
    ensures AndShape(t) && OrRestShape(rest) ==> OrRestShape([OrMark, AndOperand(t)] + rest)
  {
    hide AndTokens, AndShape;
    var all := [OrMark, AndOperand(t)] + rest;
    assert all[1..] == [AndOperand(t)] + rest && all[2..] == rest;
    OrItemsCons(AndOperand(t), rest);
  }

  lemma {:induction false} AndSound(ts: Tokens)
    requires ParseAnd(ts).Match?
    ensures var r := ParseAnd(ts); AndShape(r.tree) && ts == AndTokens(r.tree) + r.rest
    decreases |ts|, 2
  {
    hide ParseNot, ParseAndRest, AndRestShape, AndItemsTokens, NotTokens, NotShape;
    NotSound(ts);
    var t, rest := ParseNot(ts).tree, ParseNot(ts).rest;
    var more := AndRestSound([NotOperand(t)], rest);
    AndItemsCons(NotOperand(t), more);
    assert ParseAnd(ts).tree.items[1..] == more;
    assert NotTokens(t) + (AndItemsTokens(more) + ParseAnd(ts).rest) == NotTokens(t) + AndItemsTokens(more) +
           ParseAnd(ts).rest;
  }

  /** One more operand. */
  lemma AndRestStep(items: seq<AndItem>, ts: Tokens)
    ensures var marked := First(ts, KwAnd); var r := ParseNot(if marked then ts[1..] else ts);
            ParseAndRest(items, ts) ==
            if r.Fail? then Match(AndTree(items), ts)
            else ParseAndRest(items + (if marked then [AndMark] else []) + [NotOperand(r.tree)], r.rest)
  {
    hide ParseNot;
  }

  lemma AndRestCons(marked: bool, operand: NotTree, tail: seq<AndItem>, rest: Tokens)
    ensures var more := (if marked then [AndMark] else []) + [NotOperand(operand)] + tail;
            (NotShape(operand) && AndRestShape(tail) ==> AndRestShape(more)) &&
            AndItemsTokens(more) == (if marked then [KwAnd] else []) + (NotTokens(operand) + AndItemsTokens(tail)) &&
            AndItemsTokens(more) + rest == (if marked then [KwAnd] else []) +
            (NotTokens(operand) + (AndItemsTokens(tail) + rest))
  {
    hide NotTokens, NotShape;
    AndItemsCons(NotOperand(operand), tail);
    var single := [NotOperand(operand)] + tail;
    assert single[1..] == tail;
    if marked {
      AndItemsCons(AndMark, single);
      assert [AndMark] + [NotOperand(operand)] + tail == [AndMark] + single;
    } else {
      assert [] + [NotOperand(operand)] + tail == single;
    }
  }

  lemma {:induction false} AndRestSound(items: seq<AndItem>, ts: Tokens) returns (more: seq<AndItem>)
    ensures var r := ParseAndRest(items, ts);
            r.tree.items == items + more && AndRestShape(more) && ts == AndItemsTokens(more) + r.rest
    decreases |ts|, 3
  {
    hide ParseNot, ParseAndRest, AndRestShape, AndItemsTokens, NotTokens, NotShape;
    var marked := First(ts, KwAnd);
    var after := if marked then ts[1..] else ts;
    var r := ParseNot(after);
    AndRestStep(items, ts);
    if r.Fail? {
      more := NoAndItems();
    } else {
      NotSound(after);
      var mark := if marked then [AndMark] else [];
      var tail := AndRestSound(items + mark + [NotOperand(r.tree)], r.rest);
      more := mark + [NotOperand(r.tree)] + tail;
      AndRestCons(marked, r.tree, tail, ParseAndRest(items, ts).rest);
      assert items + mark + [NotOperand(r.tree)] + tail == items + more;
      assert ts == (if marked then [KwAnd] else []) + after;
    }
  }

  lemma NoAndItems() returns (more: seq<AndItem>)
    ensures more == [] && AndRestShape(more) && AndItemsTokens(more) == []
  {
    more := [];
  }

  lemma {:induction false} OrSound(ts: Tokens)
    requires ParseOr(ts).Match?
    ensures var r := ParseOr(ts); OrShape(r.tree) && ts == OrTokens(r.tree) + r.rest
    decreases |ts|, 4
  {
    hide ParseAnd, ParseOrRest, OrRestShape, OrItemsTokens, AndTokens, AndShape;
    AndSound(ts);
    var t, rest := ParseAnd(ts).tree, ParseAnd(ts).rest;
    var more := OrRestSound([AndOperand(t)], rest);
    OrItemsCons(AndOperand(t), more);
    assert ParseOr(ts).tree.items[1..] == more;
    assert AndTokens(t) + (OrItemsTokens(more) + ParseOr(ts).rest) == AndTokens(t) + OrItemsTokens(more) +
           ParseOr(ts).rest;
  }

  lemma OrRestStep(items: seq<OrItem>, ts: Tokens)
    ensures ParseOrRest(items, ts) ==
            if First(ts, KwOr) && ParseAnd(ts[1..]).Match?
            then ParseOrRest(items + [OrMark, AndOperand(ParseAnd(ts[1..]).tree)], ParseAnd(ts[1..]).rest)
            else Match(OrTree(items), ts)
  {
    hide ParseAnd;
  }

  lemma {:induction false} OrRestSound(items: seq<OrItem>, ts: Tokens) returns (more: seq<OrItem>)
    ensures var r := ParseOrRest(items, ts);
            r.tree.items == items + more && OrRestShape(more) && ts == OrItemsTokens(more) + r.rest
    decreases |ts|, 5
  {
    hide ParseAnd, ParseOrRest, OrRestShape, OrItemsTokens, AndTokens, AndShape;
    OrRestStep(items, ts);
    if First(ts, KwOr) && ParseAnd(ts[1..]).Match? {
      var r := ParseAnd(ts[1..]);
      AndSound(ts[1..]);
      var step := [OrMark, AndOperand(r.tree)];
      var tail := OrRestSound(items + step, r.rest);
      var end := ParseOrRest(items, ts).rest;
      more := step + tail;
      assert items + step + tail == items + more;
      OrPairCons(r.tree, tail);
      assert ts == [KwOr] + ts[1..];
      assert [KwOr] + (AndTokens(r.tree) + (OrItemsTokens(tail) + end)) == OrItemsTokens(more) + end;
    } else {
      more := NoOrItems();
    }
  }

  lemma NoOrItems() returns (more: seq<OrItem>)
    ensures more == [] && OrRestShape(more) && OrItemsTokens(more) == []
  {
    more := [];
  }

  // ----- completeness: every tree of this shape is what its tokens are matched as -----

  /** Nothing that could continue a network or a predicate. */
  predicate EndsPrimary(rest: Tokens) { rest == [] || (rest[0] != Slash && rest[0] != KwMask) }

  /** Nothing that could continue a conjunction. */
  predicate EndsAnd(rest: Tokens) { rest == [] || rest[0] == KwOr || rest[0] == RParen }

  /** Nothing that could continue an expression. */
  predicate EndsOr(rest: Tokens) { rest == [] || rest[0] == RParen }

  lemma DirectionComplete(d: Direction, rest: Tokens)
    requires rest != [] && rest[0] != KwSrc && rest[0] != KwDst
    ensures ParseDirection(DirectionTokens(d) + rest) == Match(d, rest)
  {
  }

  lemma MaskComplete(m: Option<MaskToken>, rest: Tokens)
    requires EndsPrimary(rest)
    ensures ParseNetmaskRule(MaskTokens(m) + rest) == Match(m, rest)
  {
  }

  lemma EtherComplete(d: Direction, host: bool, mac: Mac, rest: Tokens)
    ensures ParseEther(DirectionTokens(d) + (if host then [KwHost] else []) + [MacAddress(mac)] + rest) ==
            Match(EtherKind(d, host, mac), rest)
  {
    hide DirectionTokens, ParseDirection, ParseEther;
    var last := [MacAddress(mac)] + rest;
    var behind := (if host then [KwHost] else []) + last;
    EtherTokens(DirectionTokens(d), if host then [KwHost] else [], [MacAddress(mac)], rest);
    assert behind != [] && behind[0] != KwSrc && behind[0] != KwDst;
    DirectionComplete(d, behind);
    EtherFrom(DirectionTokens(d) + behind, d, host, mac, rest);
  }

  lemma EtherTokens(d: Tokens, h: Tokens, m: Tokens, rest: Tokens)
    ensures d + h + m + rest == d + (h + (m + rest))
  {
  }

  lemma EtherFrom(ts: Tokens, d: Direction, host: bool, mac: Mac, rest: Tokens)
    requires ParseDirection(ts) == Match(d, (if host then [KwHost] else []) + ([MacAddress(mac)] + rest))
    ensures ParseEther(ts) == Match(EtherKind(d, host, mac), rest)
  {
    hide ParseDirection;
    var last := [MacAddress(mac)] + rest;
    assert last[0] == MacAddress(mac) && last[1..] == rest;
    if host {
      assert ([KwHost] + last)[1..] == last;
    } else {
      assert [] + last == last;
    }
  }

  /** A kind is matched as itself, and cannot be mistaken for a direction or a negation. */
  ghost predicate KindMatches(k: Kind, rest: Tokens) {
    var ts := KindTokens(k) + rest;
    ParseKind(ts) == Match(k, rest) && ts[0] != KwSrc && ts[0] != KwDst && ts[0] != KwNot
  }

  lemma NetKindComplete(a: HostAddr, m: Option<MaskToken>, rest: Tokens)
    requires EndsPrimary(rest)
    ensures KindMatches(NetKind(a, m), rest)
  {
    hide ParseEther, ParseNetmaskRule, MaskTokens;
    MaskComplete(m, rest);
    assert (KindTokens(NetKind(a, m)) + rest)[2..] == MaskTokens(m) + rest;
  }

  lemma EtherKindComplete(d: Direction, host: bool, mac: Mac, rest: Tokens)
    ensures KindMatches(EtherKind(d, host, mac), rest)
  {
    hide ParseEther, DirectionTokens;
    EtherComplete(d, host, mac, rest);
    assert (KindTokens(EtherKind(d, host, mac)) + rest)[1..] ==
           DirectionTokens(d) + (if host then [KwHost] else []) + [MacAddress(mac)] + rest;
  }

  lemma KindComplete(k: Kind, rest: Tokens)
    requires EndsPrimary(rest)
    ensures KindMatches(k, rest)
  {
    hide KindMatches;
    match k
    case NetKind(a, m) => NetKindComplete(a, m, rest);
    case EtherKind(d, host, mac) => EtherKindComplete(d, host, mac, rest);
    case PortrangeKind(lo, hi) => PortrangeKindComplete(lo, hi, rest);
    case LenKind(t) => LenKindComplete(t, rest);
    case _ => ShortKindComplete(k, rest);
  }

  lemma ShortKindComplete(k: Kind, rest: Tokens)
    requires k.ProtoKind? || k.HostKind? || k.PortKind?
    ensures KindMatches(k, rest)
  {
    hide ParseEther, ParseNetmaskRule;
  }

  lemma PortrangeKindComplete(lo: nat, hi: nat, rest: Tokens)
    ensures KindMatches(PortrangeKind(lo, hi), rest)
  {
    hide ParseEther, ParseNetmaskRule;
  }

  lemma LenKindComplete(t: LenTree, rest: Tokens)
    ensures KindMatches(LenKind(t), rest)
  {
    hide ParseEther, ParseNetmaskRule;
  }

  lemma PredicateComplete(p: PredicateTree, rest: Tokens)
    requires EndsPrimary(rest)
    ensures var ts := PredicateTokens(p) + rest;
            ParsePredicate(ts) == Match(p, rest) && ts[0] != KwNot && ts[0] != LParen
  {
    hide ParseKind, KindTokens;
    KindComplete(p.kind, rest);
    KindStarts(p.kind, rest);
    DirectionComplete(p.dir, KindTokens(p.kind) + rest);
    assert PredicateTokens(p) + rest == DirectionTokens(p.dir) + (KindTokens(p.kind) + rest);
  }

  lemma KindStarts(k: Kind, rest: Tokens)
    ensures KindTokens(k) != [] && (KindTokens(k) + rest)[0] !in {KwOr, KwAnd, KwNot, LParen, RParen, Slash, KwMask}
  {
  }

  /** Where no predicate, negation or parenthesis starts, no operand starts. */
  lemma NoOperand(ts: Tokens)
    requires ts == [] || ts[0] in {KwOr, RParen}
    ensures ParseNot(ts) == Fail
  {
    hide ParseEther, ParseNetmaskRule;
    assert ParseKind(ts) == Fail;
    assert ParsePredicate(ts) == Fail;
    assert ParsePrimary(ts) == Fail;
  }

  lemma ParenFailsAsPredicate(ts: Tokens)
    requires First(ts, LParen) || First(ts, KwNot)
    ensures ParsePredicate(ts) == Fail
  {
    hide ParseEther, ParseNetmaskRule;
  }

  /** Tokens of an operand never start with an operator or anything else that ends one. */
  predicate StartsOperand(ts: Tokens) {
    ts != [] && ts[0] !in {KwOr, KwAnd, RParen, Slash, KwMask}
  }

  lemma {:induction false} PrimaryComplete(p: PrimaryTree, rest: Tokens)
    requires PrimaryShape(p) && EndsPrimary(rest)
    ensures ParsePrimary(PrimaryTokens(p) + rest) == Match(p, rest)
    ensures StartsOperand(PrimaryTokens(p) + rest) && (PrimaryTokens(p) + rest)[0] != KwNot
    decreases |PrimaryTokens(p)|, 0, 0
  {
    hide ParsePredicate, PredicateTokens, OrTokens, ParseOr, OrShape;
    match p
    case Pred(t) =>
      PredicateComplete(t, rest);
      PredicateStarts(t, rest);
    case Paren(e) =>
      var ts, inner := PrimaryTokens(p) + rest, OrTokens(e) + ([RParen] + rest);
      assert ts == [LParen] + inner && ts[1..] == inner;
      ParenFailsAsPredicate(ts);
      OrComplete(e, [RParen] + rest);
      assert ([RParen] + rest)[1..] == rest;
  }

  lemma PredicateStarts(t: PredicateTree, rest: Tokens)
    ensures StartsOperand(PredicateTokens(t) + rest) && (PredicateTokens(t) + rest)[0] != KwNot
  {
    KindStarts(t.kind, rest);
    assert PredicateTokens(t) + rest == DirectionTokens(t.dir) + (KindTokens(t.kind) + rest);
  }

  lemma {:induction false} NotComplete(t: NotTree, rest: Tokens)
    requires NotShape(t) && EndsPrimary(rest)
    ensures ParseNot(NotTokens(t) + rest) == Match(t, rest)
    ensures StartsOperand(NotTokens(t) + rest)
    decreases |NotTokens(t)|, 1, 0
  {
    hide ParsePrimary, PrimaryTokens, PrimaryShape;
    PrimaryComplete(t.primary, rest);
    if t.negated {
      var ts := NotTokens(t) + rest;
      assert ts == [KwNot] + (PrimaryTokens(t.primary) + rest) && ts[1..] == PrimaryTokens(t.primary) + rest;
    } else {
      assert NotTokens(t) + rest == PrimaryTokens(t.primary) + rest;
    }
  }

  lemma {:induction false} AndComplete(t: AndTree, rest: Tokens)
    requires AndShape(t) && EndsAnd(rest)
    ensures ParseAnd(AndTokens(t) + rest) == Match(t, rest)
    ensures StartsOperand(AndTokens(t) + rest)
    decreases |AndTokens(t)|, 3, 0
  {
    hide ParseNot, NotTokens, NotShape, ParseAndRest, AndItemsTokens, AndRestShape;
    var first, more := t.items[0], t.items[1..];
    assert t.items == [first] + more;
    AndItemsCons(first, more);
    var behind := AndItemsTokens(more) + rest;
    AndRestStarts(more, rest);
    assert AndTokens(t) + rest == NotTokens(first.operand) + behind;
    NotComplete(first.operand, behind);
    AndRestComplete([first], more, rest);
  }

  lemma AndRestStarts(more: seq<AndItem>, rest: Tokens)
    requires AndRestShape(more) && EndsAnd(rest)
    ensures EndsPrimary(AndItemsTokens(more) + rest)
  {
    hide NotTokens, NotShape;
    if more == [] {
      assert AndItemsTokens(more) + rest == rest;
    } else if more[0].NotOperand? {
      NotStarts(more[0].operand, AndItemsTokens(more[1..]) + rest);
      assert AndItemsTokens(more) + rest == NotTokens(more[0].operand) + (AndItemsTokens(more[1..]) + rest);
    }
  }

  lemma NotStarts(t: NotTree, rest: Tokens)
    ensures StartsOperand(NotTokens(t) + rest)
  {
    hide PredicateTokens;
    if !t.negated && t.primary.Pred? { PredicateStarts(t.primary.pred, rest); }
  }

  lemma {:induction false} AndRestComplete(items: seq<AndItem>, more: seq<AndItem>, rest: Tokens)
    requires AndRestShape(more) && EndsAnd(rest)
    ensures ParseAndRest(items, AndItemsTokens(more) + rest) == Match(AndTree(items + more), rest)
    decreases |AndItemsTokens(more)|, 2, |more|
  {
    hide ParseNot, ParseAndRest, NotTokens, NotShape, AndItemsTokens, AndRestShape;
    var ts := AndItemsTokens(more) + rest;
    AndRestStep(items, ts);
    if more == [] {
      NoOperand(rest);
      assert ts == rest && items + more == items by { var _ := NoAndItems(); }
    } else {
      var marked, operand, tail := AndRestTokens(more, rest);
      var behind := AndItemsTokens(tail) + rest;
      AndRestStarts(tail, rest);
      NotComplete(operand, behind);
      assert marked ==> ts[1..] == NotTokens(operand) + behind;
      assert !marked ==> ts == NotTokens(operand) + behind;
      var items' := items + (if marked then [AndMark] else []) + [NotOperand(operand)];
      AndRestComplete(items', tail, rest);
      assert items' + tail == items + more;
    }
  }

  /** A further operand, the operator in front of it if there is one, and what is behind it. */
  lemma AndRestTokens(more: seq<AndItem>, rest: Tokens) returns (marked: bool, operand: NotTree, tail: seq<AndItem>)
    requires AndRestShape(more) && more != []
    ensures NotShape(operand) && AndRestShape(tail) &&
            more == (if marked then [AndMark] else []) + [NotOperand(operand)] + tail
    ensures AndItemsTokens(more) == (if marked then [KwAnd] else []) + (NotTokens(operand) + AndItemsTokens(tail))
    ensures AndItemsTokens(more) + rest == (if marked then [KwAnd] else []) +
            (NotTokens(operand) + (AndItemsTokens(tail) + rest))
  {
    hide NotTokens, NotShape;
    marked := more[0].AndMark?;
    operand, tail := if marked then more[1].operand else more[0].operand, if marked then more[2..] else more[1..];
    assert more == (if marked then [AndMark] else []) + [NotOperand(operand)] + tail;
    AndRestCons(marked, operand, tail, rest);
  }

  lemma {:induction false} OrComplete(t: OrTree, rest: Tokens)
    requires OrShape(t) && EndsOr(rest)
    ensures ParseOr(OrTokens(t) + rest) == Match(t, rest)
    decreases |OrTokens(t)|, 5, 0
  {
    hide ParseAnd, AndTokens, AndShape, ParseOrRest, OrItemsTokens, OrRestShape;
    var first, more := t.items[0], t.items[1..];
    assert t.items == [first] + more;
    OrItemsCons(first, more);
    var behind := OrItemsTokens(more) + rest;
    OrRestStarts(more, rest);
    assert OrTokens(t) + rest == AndTokens(first.operand) + behind;
    AndComplete(first.operand, behind);
    OrRestComplete([first], more, rest);
  }

  lemma OrRestStarts(more: seq<OrItem>, rest: Tokens)
    requires OrRestShape(more) && EndsOr(rest)
    ensures EndsAnd(OrItemsTokens(more) + rest)
  {
    if more == [] { assert OrItemsTokens(more) + rest == rest; }
  }

  lemma {:induction false} OrRestComplete(items: seq<OrItem>, more: seq<OrItem>, rest: Tokens)
    requires OrRestShape(more) && EndsOr(rest)
    ensures ParseOrRest(items, OrItemsTokens(more) + rest) == Match(OrTree(items + more), rest)
    decreases |OrItemsTokens(more)|, 4, |more|
  {
    hide ParseAnd, ParseOrRest, AndTokens, AndShape, OrItemsTokens;
    var ts := OrItemsTokens(more) + rest;
    OrRestStep(items, ts);
    if more == [] {
      assert ts == rest && items + more == items by { var _ := NoOrItems(); }
    } else {
      var operand, tail := more[1], more[2..];
      var behind := OrItemsTokens(tail) + rest;
      OrRestStarts(tail, rest);
      assert more == [OrMark, AndOperand(operand.operand)] + tail;
      OrPairCons(operand.operand, tail);
      AndComplete(operand.operand, behind);
      assert ts == [KwOr] + (AndTokens(operand.operand) + behind) && ts[1..] == AndTokens(operand.operand) + behind;
      OrRestComplete(items + [OrMark, operand], tail, rest);
      assert items + [OrMark, operand] + tail == items + more;
    }
  }

  /** The rules accept exactly the token sequences of well-shaped trees, and match each as that tree:
      the grammar is unambiguous. */
  lemma ParserExact(ts: Tokens, t: OrTree)
    ensures ParseFilter(ts) == Match(t, []) <==> OrShape(t) && ts == OrTokens(t)
  {
    hide ParseOr, OrTokens, OrShape;
    if ParseFilter(ts) == Match(t, []) {
      OrSound(ts);
      assert OrTokens(t) + [] == OrTokens(t);
    }
    if OrShape(t) && ts == OrTokens(t) {
      OrComplete(t, []);
      assert OrTokens(t) + [] == ts;
    }
  }
}
