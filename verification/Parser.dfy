/** From parse trees to filters, and the round trip through printed filters. */
module Parser {
  import opened Common
  import opened FilterAst
  import opened NetMask
  import opened Grammar

  datatype ParseError =
    | SyntaxError | EmptyOrOperand | EmptyAndOperand | MissingOrOperand | MissingAndOperand
    | InvalidPort | InvalidNumber | RangeReversed | InvalidNet(net: NetError)

  datatype Parsed = Ok(ast: Ast) | Err(error: ParseError)

  // ----- predicates -----

  function LenAst(op: RelOp, n: nat): Parsed {
    if n < 0x1_0000_0000 then Ok(Len(op, n)) else Err(InvalidNumber)
  }

  /** The direction applies to hosts, ports and networks; protocols and lengths ignore it, and an
      Ethernet host has its own. */
  function PredicateAst(p: PredicateTree, build: Build): Parsed {
    match p.kind
    case ProtoKind(proto) => Ok(Proto(proto))
    case HostKind(a) => Ok(Host(a, p.dir))
    case PortKind(n) => if n < 0x1_0000 then Ok(Port(n, p.dir)) else Err(InvalidPort)
    case PortrangeKind(lo, hi) =>
      if lo >= 0x1_0000 || hi >= 0x1_0000 then Err(InvalidNumber)
      else if lo > hi then Err(RangeReversed)
      else Ok(PortRange(lo, hi, p.dir))
    case NetKind(a, m) =>
      (match ParseNet(a, m, build)
       case Success(net) => Ok(Net(net, p.dir))
       case Failure(e) => Err(InvalidNet(e)))
    case LenKind(Relation(op, n)) => LenAst(op, n)
    case LenKind(Greater(n)) => LenAst(Gt, n)
    case LenKind(Less(n)) => LenAst(Lt, n)
    case EtherKind(d, _, mac) => Ok(EtherHost(mac, d))
  }

  // ----- expressions; operators fold to the left -----

  function PrimaryAst(p: PrimaryTree, build: Build): Parsed {
    match p
    case Pred(t) => PredicateAst(t, build)
    case Paren(e) => OrAst(e, build)
  }

  function NotAst(t: NotTree, build: Build): Parsed {
    match PrimaryAst(t.primary, build)
    case Err(e) => Err(e)
    case Ok(a) => Ok(if t.negated then Not(a) else a)
  }

  function AndItemAst(i: AndItem, build: Build): Parsed {
    match i case AndMark => Err(SyntaxError) case NotOperand(t) => NotAst(t, build)
  }

  function AndAst(t: AndTree, build: Build): Parsed {
    if t.items == [] then Err(EmptyAndOperand)
    else match AndItemAst(t.items[0], build) case Err(e) => Err(e) case Ok(a) => AndFold(a, t.items[1..], build)
  }

  function AndFold(left: Ast, items: seq<AndItem>, build: Build): Parsed
    decreases items
  {
    if items == [] then Ok(left)
    else if items[0].AndMark? then
      if |items| == 1 then Err(MissingAndOperand)
      else
        match AndItemAst(items[1], build)
        case Err(e) => Err(e)
        case Ok(a) => AndFold(And(left, a), items[2..], build)
    else match AndItemAst(items[0], build) case Err(e) => Err(e) case Ok(a) => AndFold(And(left, a), items[1..], build)
  }

  function OrItemAst(i: OrItem, build: Build): Parsed {
    match i case OrMark => Err(EmptyAndOperand) case AndOperand(t) => AndAst(t, build)
  }

  function OrAst(t: OrTree, build: Build): Parsed {
    if t.items == [] then Err(EmptyOrOperand)
    else match OrItemAst(t.items[0], build) case Err(e) => Err(e) case Ok(a) => OrFold(a, t.items[1..], build)
  }

  function OrFold(left: Ast, items: seq<OrItem>, build: Build): Parsed
    decreases items
  {
    if items == [] || !items[0].OrMark? then Ok(left)
    else if |items| == 1 then Err(MissingOrOperand)
    else match OrItemAst(items[1], build) case Err(e) => Err(e) case Ok(a) => OrFold(Or(left, a), items[2..], build)
  }

  // ----- the builders -----

  method BuildPrimary(p: PrimaryTree, build: Build) returns (r: Parsed)
    ensures r == PrimaryAst(p, build)
    decreases p
  {
    match p
    case Pred(t) => r := PredicateAst(t, build);
    case Paren(e) => r := BuildOr(e, build);
  }

  method BuildNot(t: NotTree, build: Build) returns (r: Parsed)
    ensures r == NotAst(t, build)
    decreases t
  {
    r := BuildPrimary(t.primary, build);
    if t.negated && r.Ok? {
      r := Ok(Not(r.ast));
    }
  }

  method BuildAndItem(i: AndItem, build: Build) returns (r: Parsed)
    ensures r == AndItemAst(i, build)
    decreases i
  {
    match i
    case AndMark => r := Err(SyntaxError);
    case NotOperand(t) => r := BuildNot(t, build);
  }

  /** The operands of a conjunction, folded from the left; an operator between them is skipped. */
  method BuildAnd(t: AndTree, build: Build) returns (r: Parsed)
    ensures r == AndAst(t, build)
    decreases t
  {
    if t.items == [] {
      return Err(EmptyAndOperand);
    }
    r := BuildAndItem(t.items[0], build);
    if r.Err? {
      return;
    }
    var left, i := r.ast, 1;
    while i < |t.items|
      invariant 1 <= i <= |t.items|
      invariant AndFold(left, t.items[i..], build) == AndAst(t, build)
    {
      ghost var ahead := t.items[i..];
      if t.items[i].AndMark? {
        i := i + 1;
      }
      if i == |t.items| {
        return Err(MissingAndOperand);
      }
      assert ahead[1..] == t.items[i - 1 + 1..] || ahead == t.items[i..];
      r := BuildAndItem(t.items[i], build);
      if r.Err? {
        return;
      }
      left, i := And(left, r.ast), i + 1;
      assert t.items[i..] == if ahead[0].AndMark? then ahead[2..] else ahead[1..];
    }
    return Ok(left);
  }

  method BuildOrItem(i: OrItem, build: Build) returns (r: Parsed)
    ensures r == OrItemAst(i, build)
    decreases i
  {
    match i
    case OrMark => r := Err(EmptyAndOperand);
    case AndOperand(t) => r := BuildAnd(t, build);
  }

  /** The operands of a disjunction, folded from the left. */
  method BuildOr(t: OrTree, build: Build) returns (r: Parsed)
    ensures r == OrAst(t, build)
    decreases t
  {
    if t.items == [] {
      return Err(EmptyOrOperand);
    }
    r := BuildOrItem(t.items[0], build);
    if r.Err? {
      return;
    }
    var left, i := r.ast, 1;
    while i < |t.items| && t.items[i].OrMark?
      invariant 1 <= i <= |t.items|
      invariant OrFold(left, t.items[i..], build) == OrAst(t, build)
    {
      ghost var ahead := t.items[i..];
      i := i + 1;
      if i == |t.items| {
        return Err(MissingOrOperand);
      }
      r := BuildOrItem(t.items[i], build);
      if r.Err? {
        return;
      }
      left, i := Or(left, r.ast), i + 1;
      assert t.items[i..] == ahead[2..];
    }
    return Ok(left);
  }

  function ParseTokens(ts: Tokens, build: Build): Parsed {
    match ParseFilter(ts)
    case Fail => Err(SyntaxError)
    case Match(t, _) => OrAst(t, build)
  }

  /** Parse a filter expression. */
  method ParseExpression(ts: Tokens, build: Build) returns (r: Parsed)
    ensures r == ParseTokens(ts, build)
  {
    var t := ParseFilter(ts);
    if t.Fail? {
      return Err(SyntaxError);
    }
    r := BuildOr(t.tree, build);
  }

  // ----- which predicate makes an expression invalid -----

  function PrimaryPredicates(p: PrimaryTree): seq<PredicateTree> {
    match p case Pred(t) => [t] case Paren(e) => OrPredicates(e.items)
  }

  function AndItemPredicates(i: AndItem): seq<PredicateTree> {
    match i case AndMark => [] case NotOperand(t) => PrimaryPredicates(t.primary)
  }

  function AndPredicates(items: seq<AndItem>): seq<PredicateTree> {
    if items == [] then [] else AndItemPredicates(items[0]) + AndPredicates(items[1..])
  }

  function OrItemPredicates(i: OrItem): seq<PredicateTree> {
    match i case OrMark => [] case AndOperand(t) => AndPredicates(t.items)
  }

  /** The predicates of an expression in reading order, whatever stands between them. */
  function OrPredicates(items: seq<OrItem>): seq<PredicateTree> {
    if items == [] then [] else OrItemPredicates(items[0]) + OrPredicates(items[1..])
  }

  /** The error of the first invalid predicate. */
  function FirstFailure(ps: seq<PredicateTree>, build: Build): Option<ParseError> {
    if ps == [] then None
    else match PredicateAst(ps[0], build) case Err(e) => Some(e) case Ok(_) => FirstFailure(ps[1..], build)
  }

  predicate FailsAs(r: Parsed, ps: seq<PredicateTree>, build: Build) {
    match FirstFailure(ps, build) case Some(e) => r == Err(e) case None => r.Ok?
  }

  lemma {:induction false} FailureAppend(ps: seq<PredicateTree>, qs: seq<PredicateTree>, build: Build)
    ensures FirstFailure(ps + qs, build) ==
            if FirstFailure(ps, build).Some? then FirstFailure(ps, build) else FirstFailure(qs, build)
    decreases |ps|
  {
    hide PredicateAst;
    if ps == [] {
      assert ps + qs == qs;
    } else {
      assert (ps + qs)[1..] == ps[1..] + qs;
      FailureAppend(ps[1..], qs, build);
    }
  }

  lemma OnePredicateFails(t: PredicateTree, build: Build)
    ensures FailsAs(PredicateAst(t, build), [t], build)
  {
    hide PredicateAst;
    assert [t][1..] == [];
    NoFailure(build);
  }

  lemma {:induction false} PrimaryFails(p: PrimaryTree, build: Build)
    requires PrimaryShape(p)
    ensures FailsAs(PrimaryAst(p, build), PrimaryPredicates(p), build)
    decreases p
  {
    hide FailsAs, PredicateAst;
    match p
    case Pred(t) => OnePredicateFails(t, build);
    case Paren(e) => OrFails(e, build);
  }

  lemma {:induction false} NotFails(t: NotTree, build: Build)
    requires NotShape(t)
    ensures FailsAs(NotAst(t, build), PrimaryPredicates(t.primary), build)
    decreases t
  {
    hide PrimaryAst;
    PrimaryFails(t.primary, build);
  }

  lemma {:induction false} AndItemFails(i: AndItem, build: Build)
    requires AndItemShape(i)
    ensures FailsAs(AndItemAst(i, build), AndItemPredicates(i), build)
    decreases i
  {
    hide NotAst, FailsAs;
    NotFails(i.operand, build);
  }

  lemma {:induction false} AndFoldFails(left: Ast, items: seq<AndItem>, build: Build)
    requires AndRestShape(items)
    ensures FailsAs(AndFold(left, items, build), AndPredicates(items), build)
    decreases items
  {
    hide AndItemAst, AndItemPredicates, FirstFailure;
    NoFailure(build);
    if items != [] {
      var k := if items[0].AndMark? then 1 else 0;
      var tail := items[k + 1..];
      AndRestPredicates(items);
      FailureAppend(AndItemPredicates(items[k]), AndPredicates(tail), build);
      AndItemFails(items[k], build);
      var r := AndItemAst(items[k], build);
      AndFoldFails(if r.Ok? then And(left, r.ast) else left, tail, build);
    }
  }

  lemma AndRestPredicates(items: seq<AndItem>)
    requires AndRestShape(items) && items != []
    ensures var k := if items[0].AndMark? then 1 else 0;
            k < |items| && AndItemShape(items[k]) && AndRestShape(items[k + 1..]) &&
            AndPredicates(items) == AndItemPredicates(items[k]) + AndPredicates(items[k + 1..])
  {
    hide PrimaryPredicates, NotShape;
    if items[0].AndMark? {
      assert items[1..][0] == items[1] && items[1..][1..] == items[2..];
      assert AndPredicates(items[1..]) == AndItemPredicates(items[1]) + AndPredicates(items[2..]);
    }
  }

  lemma NoFailure(build: Build)
    ensures FirstFailure([], build) == None
  {
  }

  lemma {:induction false} AndFails(t: AndTree, build: Build)
    requires AndShape(t)
    ensures FailsAs(AndAst(t, build), AndPredicates(t.items), build)
    decreases t
  {
    hide AndItemAst, AndItemPredicates, FirstFailure, AndRestShape, AndFold;
    FailureAppend(AndItemPredicates(t.items[0]), AndPredicates(t.items[1..]), build);
    AndItemFails(t.items[0], build);
    var r := AndItemAst(t.items[0], build);
    if r.Ok? { AndFoldFails(r.ast, t.items[1..], build); }
  }

  lemma {:induction false} OrItemFails(i: OrItem, build: Build)
    requires OrItemShape(i)
    ensures FailsAs(OrItemAst(i, build), OrItemPredicates(i), build)
    decreases i
  {
    hide AndAst, FailsAs;
    AndFails(i.operand, build);
  }

  lemma {:induction false} OrFoldFails(left: Ast, items: seq<OrItem>, build: Build)
    requires OrRestShape(items)
    ensures FailsAs(OrFold(left, items, build), OrPredicates(items), build)
    decreases items
  {
    hide OrItemAst, OrItemPredicates, FirstFailure;
    NoFailure(build);
    if items != [] {
      OrRestPredicates(items);
      FailureAppend(OrItemPredicates(items[1]), OrPredicates(items[2..]), build);
      OrItemFails(items[1], build);
      var r := OrItemAst(items[1], build);
      OrFoldFails(if r.Ok? then Or(left, r.ast) else left, items[2..], build);
    }
  }

  lemma OrRestPredicates(items: seq<OrItem>)
    requires OrRestShape(items) && items != []
    ensures OrPredicates(items) == OrItemPredicates(items[1]) + OrPredicates(items[2..])
  {
    hide AndPredicates, AndShape;
    assert items[1..][0] == items[1] && items[1..][1..] == items[2..];
    assert OrPredicates(items[1..]) == OrItemPredicates(items[1]) + OrPredicates(items[2..]);
  }

  /** An expression is invalid exactly if one of its predicates is, and then with the error of the first. */
  lemma {:induction false} OrFails(t: OrTree, build: Build)
    requires OrShape(t)
    ensures FailsAs(OrAst(t, build), OrPredicates(t.items), build)
    decreases t
  {
    hide OrItemAst, OrItemPredicates, FirstFailure, OrRestShape, OrFold;
    FailureAppend(OrItemPredicates(t.items[0]), OrPredicates(t.items[1..]), build);
    OrItemFails(t.items[0], build);
    var r := OrItemAst(t.items[0], build);
    if r.Ok? { OrFoldFails(r.ast, t.items[1..], build); }
  }

  /** A network with a prefix of no bits. */
  predicate EmptyPrefix(p: PredicateTree) { p.kind.NetKind? && p.kind.mask == Some(PrefixToken(0)) }

  /** The original panics: with overflow checks, at a network with an empty prefix that has only valid
      predicates in front. */
  ghost predicate PanicsOnPrefix(ts: Tokens, build: Build) {
    build == Checked && ParseFilter(ts).Match? &&
    var ps := OrPredicates(ParseFilter(ts).tree.items);
    exists i :: 0 <= i < |ps| && EmptyPrefix(ps[i]) && forall j :: 0 <= j < i ==> PredicateAst(ps[j], build).Ok?
  }

  lemma PredicateOverflows(p: PredicateTree, build: Build)
    ensures PredicateAst(p, build) == Err(InvalidNet(ShiftOverflow)) <==> build == Checked && EmptyPrefix(p)
  {
    if p.kind.NetKind? { NetOverflows(p.kind.addr, p.kind.mask, build); }
  }

  lemma {:induction false} FirstFailureIs(ps: seq<PredicateTree>, e: ParseError, build: Build)
    ensures FirstFailure(ps, build) == Some(e) <==>
            exists i :: 0 <= i < |ps| && PredicateAst(ps[i], build) == Err(e) &&
                        forall j :: 0 <= j < i ==> PredicateAst(ps[j], build).Ok?
    decreases |ps|
  {
    hide PredicateAst;
    if ps != [] {
      FirstFailureIs(ps[1..], e, build);
      if FirstFailure(ps, build) == Some(e) && PredicateAst(ps[0], build).Ok? {
        var i :| 0 <= i < |ps[1..]| && PredicateAst(ps[1..][i], build) == Err(e) &&
                 forall j :: 0 <= j < i ==> PredicateAst(ps[1..][j], build).Ok?;
        assert PredicateAst(ps[i + 1], build) == Err(e);
        forall j | 0 <= j < i + 1 ensures PredicateAst(ps[j], build).Ok? {
          assert j > 0 ==> ps[j] == ps[1..][j - 1];
        }
      }
      if i :| 0 <= i < |ps| && PredicateAst(ps[i], build) == Err(e) &&
              forall j :: 0 <= j < i ==> PredicateAst(ps[j], build).Ok? {
        if i > 0 {
          assert ps[1..][i - 1] == ps[i];
          assert forall j :: 0 <= j < i - 1 ==> ps[1..][j] == ps[j + 1];
        }
      }
    }
  }

  /** Parsing ends in the shift overflow exactly where the original panics. */
  lemma OverflowExactly(ts: Tokens, build: Build)
    ensures ParseTokens(ts, build) == Err(InvalidNet(ShiftOverflow)) <==> PanicsOnPrefix(ts, build)
  {
    hide OrShape, OrAst, ParseFilter, OrPredicates, FirstFailure, PredicateAst, EmptyPrefix;
    var r := ParseFilter(ts);
    if r.Match? {
      var ps := OrPredicates(r.tree.items);
      ParserExact(ts, r.tree);
      FilterMatches(ts);
      OrFails(r.tree, build);
      FirstFailureIs(ps, InvalidNet(ShiftOverflow), build);
      forall p: PredicateTree
        ensures PredicateAst(p, build) == Err(InvalidNet(ShiftOverflow)) <==> build == Checked && EmptyPrefix(p)
      {
        PredicateOverflows(p, build);
      }
    }
  }

  // An expression of one predicate.

  function SingleNot(p: PredicateTree): NotTree { NotTree(false, Pred(p)) }

  function SingleAnd(p: PredicateTree): AndTree { AndTree([NotOperand(SingleNot(p))]) }

  function SingleTree(p: PredicateTree): OrTree { OrTree([AndOperand(SingleAnd(p))]) }

  lemma SingleShape(p: PredicateTree)
    ensures OrShape(SingleTree(p))
  {
    var items, and := SingleTree(p).items, SingleAnd(p);
    assert PrimaryShape(SingleNot(p).primary) && NotShape(SingleNot(p));
    assert AndItemShape(and.items[0]) && and.items[1..] == [] && AndRestShape([]);
    assert AndShape(and);
    assert OrItemShape(items[0]) && items[1..] == [] && OrRestShape([]);
  }

  lemma SingleMatched(p: PredicateTree)
    ensures ParseFilter(PredicateTokens(p)) == Match(SingleTree(p), [])
  {
    hide ParseFilter, PredicateTokens;
    var ts, items, and := PredicateTokens(p), SingleTree(p).items, SingleAnd(p);
    assert NotTokens(SingleNot(p)) == [] + ts == ts;
    assert AndItemsTokens(and.items[1..]) == [] && OrItemsTokens(items[1..]) == [];
    assert AndTokens(and) == AndItemTokens(and.items[0]) + [] == ts;
    assert OrItemTokens(items[0]) == AndTokens(and) && OrItemsTokens(items) == OrItemTokens(items[0]) + [];
    SingleShape(p);
    ParserExact(ts, SingleTree(p));
  }

  /** An expression of one predicate is what the predicate is, or has its error. */
  lemma SingleParsed(p: PredicateTree, build: Build)
    ensures ParseTokens(PredicateTokens(p), build) == PredicateAst(p, build)
    ensures OrPredicates(SingleTree(p).items) == [p]
  {
    hide ParseFilter, PredicateTokens, PredicateAst;
    SingleMatched(p);
    var items, and := SingleTree(p).items, SingleAnd(p);
    assert and.items[1..] == [] && items[1..] == [];
    assert PrimaryAst(Pred(p), build) == PredicateAst(p, build) == NotAst(SingleNot(p), build);
    assert AndItemAst(and.items[0], build) == NotAst(SingleNot(p), build);
    assert AndAst(and, build) == PredicateAst(p, build) && OrItemAst(items[0], build) == AndAst(and, build);
    var tree := SingleTree(p);
    assert tree.items == items && OrAst(tree, build) == OrItemAst(items[0], build);
    SinglePredicate(p);
  }

  lemma SinglePredicate(p: PredicateTree)
    ensures OrPredicates(SingleTree(p).items) == [p]
  {
    var items, and := SingleTree(p).items, SingleAnd(p);
    assert and.items[1..] == [] && items[1..] == [] && items[0].operand == and;
    assert AndItemPredicates(and.items[0]) == PrimaryPredicates(Pred(p)) == [p];
    assert AndPredicates(and.items[1..]) == [] && OrPredicates(items[1..]) == [];
    assert AndPredicates(and.items) == AndItemPredicates(and.items[0]) + [] == [p];
    assert OrItemPredicates(items[0]) == AndPredicates(and.items) == [p];
    assert OrPredicates(items) == OrItemPredicates(items[0]) + [] == [p];
  }

  /** `net 0.0.0.0/0`, the network of all addresses. */
  const ALL_ADDRESSES: Tokens := [KwNet, Address(HostV4(0)), Slash, Number(0)]

  /** The network of all addresses panics with overflow checks; without them it is the single host 0.0.0.0. */
  lemma EmptyPrefixDeparts()
    ensures PanicsOnPrefix(ALL_ADDRESSES, Checked)
    ensures ParseTokens(ALL_ADDRESSES, Unchecked) == Ok(Net(NetV4(0, 0xFFFF_FFFF), Any))
  {
    hide ParseFilter, Bits.Pow2;
    var p := PredicateTree(Any, NetKind(HostV4(0), Some(PrefixToken(0))));
    assert PredicateTokens(p) == ALL_ADDRESSES;
    SingleMatched(p);
    SingleParsed(p, Unchecked);
    assert EmptyPrefix([p][0]);
    Bits.Pow2Of32();
    EmptyPrefixMask(32);
  }

  lemma FilterMatches(ts: Tokens)
    ensures ParseFilter(ts).Match? ==> ParseFilter(ts).rest == []
  {
  }

  // ----- printing -----

  /** What the parser only ever returns: a port range is not reversed. */
  predicate WellFormed(ast: Ast) {
    match ast
    case And(l, r) => WellFormed(l) && WellFormed(r)
    case Or(l, r) => WellFormed(l) && WellFormed(r)
    case Not(x) => WellFormed(x)
    case PortRange(lo, hi, _) => lo <= hi
    case _ => true
  }

  function LeafTree(leaf: Ast): PredicateTree
    requires leaf.Leaf()
  {
    match leaf
    case Proto(p) => PredicateTree(Any, ProtoKind(p))
    case Host(a, d) => PredicateTree(d, HostKind(a))
    case Port(n, d) => PredicateTree(d, PortKind(n))
    case PortRange(lo, hi, d) => PredicateTree(d, PortrangeKind(lo, hi))
    case EtherHost(m, d) => PredicateTree(Any, EtherKind(d, true, m))
    case Net(NetV4(a, m), d) => PredicateTree(d, NetKind(HostV4(a), Some(AddressToken(HostV4(m)))))
    case Net(NetV6(a, m), d) => PredicateTree(d, NetKind(HostV6(a), Some(AddressToken(HostV6(m)))))
    case Len(op, n) => PredicateTree(Any, LenKind(Relation(op, n)))
  }

  /** Whether the conjunction is printed with `and` or by juxtaposition. */
  type Style = Ast -> bool

  // The order in which the levels hand a filter on to each other: a level that takes the filter apart is last.
  function Height(level: nat, ast: Ast): nat
    requires level <= 3
  {
    var own := if ast.Or? then 0 else if ast.And? then 1 else if ast.Not? then 2 else 3;
    (own + 4 - level) % 4
  }

  /** The parse tree of a filter with parentheses only where the grammar needs them. */
  function OrOf(ast: Ast, style: Style): (t: OrTree)
    decreases ast, Height(0, ast)
  {
    if ast.Or? then OrTree(OrOf(ast.left, style).items + [OrMark, AndOperand(AndOf(ast.right, style))])
    else OrTree([AndOperand(AndOf(ast, style))])
  }

  function AndOf(ast: Ast, style: Style): (t: AndTree)
    decreases ast, Height(1, ast)
  {
    if ast.And? then
      AndTree(AndOf(ast.left, style).items + (if style(ast) then [AndMark] else []) +
              [NotOperand(NotOf(ast.right, style))])
    else AndTree([NotOperand(NotOf(ast, style))])
  }

  function NotOf(ast: Ast, style: Style): NotTree
    decreases ast, Height(2, ast)
  {
    if ast.Not? then NotTree(true, PrimaryOf(ast.inner, style)) else NotTree(false, PrimaryOf(ast, style))
  }

  function PrimaryOf(ast: Ast, style: Style): PrimaryTree
    decreases ast, Height(3, ast)
  {
    if ast.Leaf() then Pred(LeafTree(ast)) else Paren(OrOf(ast, style))
  }

  function Print(ast: Ast, style: Style): Tokens { OrTokens(OrOf(ast, style)) }

  // ----- round trip -----

  lemma {:induction false} AndRestAppend(items: seq<AndItem>, marked: bool, t: NotTree)
    requires AndRestShape(items) && NotShape(t)
    ensures AndRestShape(items + (if marked then [AndMark] else []) + [NotOperand(t)])
    decreases |items|
  {
    hide NotShape;
    var more := (if marked then [AndMark] else []) + [NotOperand(t)];
    var all := items + (if marked then [AndMark] else []) + [NotOperand(t)];
    assert all == items + more;
    if items == [] {
      assert all == more;
      if marked { assert more[2..] == []; } else { assert more[1..] == []; }
    } else if items[0].NotOperand? {
      AndRestAppend(items[1..], marked, t);
      assert all[1..] == items[1..] + (if marked then [AndMark] else []) + [NotOperand(t)];
    } else {
      AndRestAppend(items[2..], marked, t);
      assert all[2..] == items[2..] + (if marked then [AndMark] else []) + [NotOperand(t)];
    }
  }

  lemma {:induction false} OrRestAppend(items: seq<OrItem>, t: AndTree)
    requires OrRestShape(items) && AndShape(t)
    ensures OrRestShape(items + [OrMark, AndOperand(t)])
    decreases |items|
  {
    hide AndShape;
    var all := items + [OrMark, AndOperand(t)];
    if items == [] {
      assert all == [OrMark, AndOperand(t)] && all[2..] == [];
    } else {
      OrRestAppend(items[2..], t);
      assert all[2..] == items[2..] + [OrMark, AndOperand(t)];
    }
  }

  lemma {:induction false} AndFoldAppend(left: Ast, items: seq<AndItem>, marked: bool, t: NotTree, build: Build)
    requires AndRestShape(items) && AndFold(left, items, build).Ok? && NotAst(t, build).Ok?
    ensures AndFold(left, items + (if marked then [AndMark] else []) + [NotOperand(t)], build) ==
            Ok(And(AndFold(left, items, build).ast, NotAst(t, build).ast))
    decreases |items|
  {
    hide NotShape, NotAst;
    var mark, all := if marked then [AndMark] else [], items + (if marked then [AndMark] else []) + [NotOperand(t)];
    if items == [] {
      if marked { assert all[2..] == []; } else { assert all[1..] == []; }
      assert forall x: Ast :: AndFold(x, [], build) == Ok(x);
    } else if items[0].NotOperand? {
      var a := AndItemAst(items[0], build).ast;
      AndFoldAppend(And(left, a), items[1..], marked, t, build);
      assert all[1..] == items[1..] + mark + [NotOperand(t)];
    } else {
      var a := AndItemAst(items[1], build).ast;
      AndFoldAppend(And(left, a), items[2..], marked, t, build);
      assert all[2..] == items[2..] + mark + [NotOperand(t)];
    }
  }

  lemma {:induction false} OrFoldAppend(left: Ast, items: seq<OrItem>, t: AndTree, build: Build)
    requires OrRestShape(items) && OrFold(left, items, build).Ok? && AndAst(t, build).Ok?
    ensures OrFold(left, items + [OrMark, AndOperand(t)], build) ==
            Ok(Or(OrFold(left, items, build).ast, AndAst(t, build).ast))
    decreases |items|
  {
    hide AndShape, AndAst;
    var all := items + [OrMark, AndOperand(t)];
    if items == [] {
      assert all == [OrMark, AndOperand(t)] && all[2..] == [];
      assert forall x: Ast :: OrFold(x, [], build) == Ok(x);
    } else {
      OrFoldAppend(Or(left, OrItemAst(items[1], build).ast), items[2..], t, build);
      assert all[2..] == items[2..] + [OrMark, AndOperand(t)];
    }
  }

  lemma LeafRoundTrip(leaf: Ast, build: Build)
    requires leaf.Leaf() && WellFormed(leaf)
    ensures PredicateAst(LeafTree(leaf), build) == Ok(leaf)
  {
  }

  lemma {:induction false} PrimaryRoundTrip(ast: Ast, style: Style, build: Build)
    requires WellFormed(ast)
    ensures PrimaryShape(PrimaryOf(ast, style)) && PrimaryAst(PrimaryOf(ast, style), build) == Ok(ast)
    decreases ast, Height(3, ast)
  {
    hide OrShape, OrAst, OrOf, LeafTree, PredicateAst;
    if ast.Leaf() { LeafRoundTrip(ast, build); } else { OrRoundTrip(ast, style, build); }
  }

  lemma {:induction false} NotRoundTrip(ast: Ast, style: Style, build: Build)
    requires WellFormed(ast)
    ensures NotShape(NotOf(ast, style)) && NotAst(NotOf(ast, style), build) == Ok(ast)
    decreases ast, Height(2, ast)
  {
    hide PrimaryShape, PrimaryAst, PrimaryOf;
    if ast.Not? { PrimaryRoundTrip(ast.inner, style, build); } else { PrimaryRoundTrip(ast, style, build); }
  }

  lemma {:induction false} AndRoundTrip(ast: Ast, style: Style, build: Build)
    requires WellFormed(ast)
    ensures AndShape(AndOf(ast, style)) && AndAst(AndOf(ast, style), build) == Ok(ast)
    decreases ast, Height(1, ast)
  {
    hide NotShape, NotAst, NotOf, AndRestShape, AndFold;
    if ast.And? {
      AndRoundTrip(ast.left, style, build);
      NotRoundTrip(ast.right, style, build);
      var items, t := AndOf(ast.left, style).items, NotOf(ast.right, style);
      var mark := if style(ast) then [AndMark] else [];
      var all := AndOf(ast, style).items;
      var first := AndItemAst(items[0], build);
      AndRestAppend(items[1..], style(ast), t);
      AndFoldAppend(first.ast, items[1..], style(ast), t, build);
      assert all == items + mark + [NotOperand(t)];
      assert all[0] == items[0] && all[1..] == items[1..] + mark + [NotOperand(t)];
    } else {
      NotRoundTrip(ast, style, build);
      NoAndRest(ast, build);
      assert AndOf(ast, style).items[1..] == [];
    }
  }

  lemma NoAndRest(ast: Ast, build: Build)
    ensures AndRestShape([]) && AndFold(ast, [], build) == Ok(ast)
    ensures OrRestShape([]) && OrFold(ast, [], build) == Ok(ast)
  {
  }

  lemma {:induction false} OrRoundTrip(ast: Ast, style: Style, build: Build)
    requires WellFormed(ast)
    ensures OrShape(OrOf(ast, style)) && OrAst(OrOf(ast, style), build) == Ok(ast)
    decreases ast, Height(0, ast)
  {
    hide AndShape, AndAst, AndOf, OrRestShape, OrFold;
    if ast.Or? {
      OrRoundTrip(ast.left, style, build);
      AndRoundTrip(ast.right, style, build);
      var items, t := OrOf(ast.left, style).items, AndOf(ast.right, style);
      var all := OrOf(ast, style).items;
      var first := OrItemAst(items[0], build);
      OrRestAppend(items[1..], t);
      OrFoldAppend(first.ast, items[1..], t, build);
      assert all == items + [OrMark, AndOperand(t)];
      assert all[0] == items[0] && all[1..] == items[1..] + [OrMark, AndOperand(t)];
    } else {
      AndRoundTrip(ast, style, build);
      NoAndRest(ast, build);
      assert OrOf(ast, style).items[1..] == [];
    }
  }

  /** Parsing a printed filter gives the filter back, whichever conjunctions are written with `and`. */
  lemma RoundTrip(ast: Ast, style: Style, build: Build)
    requires WellFormed(ast)
    ensures ParseTokens(Print(ast, style), build) == Ok(ast)
  {
    hide ParseFilter, OrTokens, OrOf, OrShape, OrAst;
    OrRoundTrip(ast, style, build);
    ParserExact(Print(ast, style), OrOf(ast, style));
  }

  // ----- only well-formed filters are parsed -----

  ghost predicate Good(r: Parsed) { r.Ok? ==> WellFormed(r.ast) }

  lemma PredicateGood(p: PredicateTree, build: Build)
    ensures Good(PredicateAst(p, build))
  {
  }

  lemma {:induction false} PrimaryGood(p: PrimaryTree, build: Build)
    ensures Good(PrimaryAst(p, build))
    decreases p
  {
    hide PredicateAst;
    match p
    case Pred(t) => PredicateGood(t, build);
    case Paren(e) => OrGood(e, build);
  }

  lemma {:induction false} NotGood(t: NotTree, build: Build)
    ensures Good(NotAst(t, build))
    decreases t
  {
    PrimaryGood(t.primary, build);
  }

  lemma {:induction false} AndItemGood(i: AndItem, build: Build)
    ensures Good(AndItemAst(i, build))
    decreases i
  {
    if i.NotOperand? { NotGood(i.operand, build); }
  }

  lemma {:induction false} AndFoldGood(left: Ast, items: seq<AndItem>, build: Build)
    requires WellFormed(left)
    ensures Good(AndFold(left, items, build))
    decreases items
  {
    if items == [] {
    } else if items[0].AndMark? {
      if |items| >= 2 {
        AndItemGood(items[1], build);
        var r := AndItemAst(items[1], build);
        if r.Ok? { AndFoldGood(And(left, r.ast), items[2..], build); }
      }
    } else {
      AndItemGood(items[0], build);
      var r := AndItemAst(items[0], build);
      if r.Ok? { AndFoldGood(And(left, r.ast), items[1..], build); }
    }
  }

  lemma {:induction false} AndGood(t: AndTree, build: Build)
    ensures Good(AndAst(t, build))
    decreases t
  {
    if t.items != [] {
      AndItemGood(t.items[0], build);
      var r := AndItemAst(t.items[0], build);
      if r.Ok? { AndFoldGood(r.ast, t.items[1..], build); }
    }
  }

  lemma {:induction false} OrItemGood(i: OrItem, build: Build)
    ensures Good(OrItemAst(i, build))
    decreases i
  {
    if i.AndOperand? { AndGood(i.operand, build); }
  }

  lemma {:induction false} OrFoldGood(left: Ast, items: seq<OrItem>, build: Build)
    requires WellFormed(left)
    ensures Good(OrFold(left, items, build))
    decreases items
  {
    if items != [] && items[0].OrMark? && |items| >= 2 {
      OrItemGood(items[1], build);
      var r := OrItemAst(items[1], build);
      if r.Ok? { OrFoldGood(Or(left, r.ast), items[2..], build); }
    }
  }

  lemma {:induction false} OrGood(t: OrTree, build: Build)
    ensures Good(OrAst(t, build))
    decreases t
  {
    if t.items != [] {
      OrItemGood(t.items[0], build);
      var r := OrItemAst(t.items[0], build);
      if r.Ok? { OrFoldGood(r.ast, t.items[1..], build); }
    }
  }

  /** Printing a parsed filter in any style and parsing it again changes nothing. */
  lemma Reprint(ts: Tokens, style: Style, build: Build, build': Build)
    requires ParseTokens(ts, build).Ok?
    ensures ParseTokens(Print(ParseTokens(ts, build).ast, style), build') == ParseTokens(ts, build)
  {
    hide Print, OrAst, ParseFilter;
    OrGood(ParseFilter(ts).tree, build);
    RoundTrip(ParseTokens(ts, build).ast, style, build');
  }

  /** Dropping every `and` of a conjunction: juxtaposition means the same. */
  function Unmarked(items: seq<AndItem>): seq<AndItem> {
    if items == [] then [] else (if items[0].AndMark? then [] else [items[0]]) + Unmarked(items[1..])
  }

  lemma {:induction false} JuxtapositionIsAnd(left: Ast, items: seq<AndItem>, build: Build)
    requires AndRestShape(items)
    ensures AndRestShape(Unmarked(items)) && AndFold(left, Unmarked(items), build) == AndFold(left, items, build)
    ensures AndMark !in Unmarked(items)
    decreases |items|
  {
    hide NotShape, NotAst;
    if items != [] {
      var k := if items[0].AndMark? then 1 else 0;
      var operand, tail := items[k], items[k + 1..];
      assert k == 1 ==> items[1..][0] == items[1] && items[1..][1..] == items[2..];
      assert Unmarked(items) == [operand] + Unmarked(tail);
      assert ([operand] + Unmarked(tail))[1..] == Unmarked(tail);
      var a := AndItemAst(operand, build);
      JuxtapositionIsAnd(if a.Ok? then And(left, a.ast) else left, tail, build);
    }
  }
}
