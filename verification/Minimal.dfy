/** The printer writes no parenthesis that could be left out. */
module Minimal {
  import opened FilterAst
  import opened NetMask
  import opened Grammar
  import opened Parser

  /** How often a token occurs. */
  function Count(t: Token, ts: Tokens): nat {
    if ts == [] then 0 else (if ts[0] == t then 1 else 0) + Count(t, ts[1..])
  }

  lemma {:induction false} CountAdd(t: Token, ts: Tokens, us: Tokens)
    ensures Count(t, ts + us) == Count(t, ts) + Count(t, us)
    decreases |ts|
  {
    if ts == [] {
      assert ts + us == us;
    } else {
      assert (ts + us)[1..] == ts[1..] + us;
      CountAdd(t, ts[1..], us);
    }
  }

  /** Opening parentheses. */
  function Opening(ts: Tokens): nat { Count(LParen, ts) }

  /** Written operators of conjunctions. */
  function Ands(ts: Tokens): nat { Count(KwAnd, ts) }

  lemma OpeningAdd(ts: Tokens, us: Tokens)
    ensures Opening(ts + us) == Opening(ts) + Opening(us)
    ensures Ands(ts + us) == Ands(ts) + Ands(us)
  {
    CountAdd(LParen, ts, us);
    CountAdd(KwAnd, ts, us);
  }

  /** The conjunctions in a filter that a style writes with their operator. */
  function Marked(ast: Ast, style: Style): nat {
    match ast
    case And(l, r) => Marked(l, style) + Marked(r, style) + (if style(ast) then 1 else 0)
    case Or(l, r) => Marked(l, style) + Marked(r, style)
    case Not(x) => Marked(x, style)
    case _ => 0
  }

  // ----- how many parentheses a filter needs, by what it is an operand of -----

  function AsOr(ast: Ast): nat
    decreases ast, Height(0, ast)
  {
    if ast.Or? then AsOr(ast.left) + AsAnd(ast.right) else AsAnd(ast)
  }

  function AsAnd(ast: Ast): nat
    decreases ast, Height(1, ast)
  {
    if ast.And? then AsAnd(ast.left) + AsNot(ast.right) else AsNot(ast)
  }

  function AsNot(ast: Ast): nat
    decreases ast, Height(2, ast)
  {
    if ast.Not? then AsPrimary(ast.inner) else AsPrimary(ast)
  }

  function AsPrimary(ast: Ast): nat
    decreases ast, Height(3, ast)
  {
    if ast.Leaf() then 0 else 1 + AsOr(ast)
  }

  /** A tighter place never needs fewer parentheses. */
  lemma Tighter(ast: Ast)
    ensures AsOr(ast) <= AsAnd(ast) <= AsNot(ast) <= AsPrimary(ast) <= 1 + AsOr(ast)
  {
  }

  // ----- what any tree writes is at least that -----

  lemma LeafTokens(p: PredicateTree)
    ensures Opening(PredicateTokens(p)) == 0 && Ands(PredicateTokens(p)) == 0
  {
    NoneOpening(DirectionTokens(p.dir));
    KindNoneOpening(p.kind);
    OpeningAdd(DirectionTokens(p.dir), KindTokens(p.kind));
  }

  lemma KindNoneOpening(k: Kind)
    ensures Opening(KindTokens(k)) == 0 && Ands(KindTokens(k)) == 0
  {
    NoneOpening(KindTokens(k));
  }

  lemma NoneOpening(ts: Tokens)
    requires LParen !in ts && KwAnd !in ts
    ensures Opening(ts) == 0 && Ands(ts) == 0
  {
    NoneCounted(LParen, ts);
    NoneCounted(KwAnd, ts);
  }

  lemma {:induction false} NoneCounted(t: Token, ts: Tokens)
    requires t !in ts
    ensures Count(t, ts) == 0
    decreases |ts|
  {
    if ts != [] {
      assert ts[0] in ts && forall u :: u in ts[1..] ==> u in ts;
      NoneCounted(t, ts[1..]);
    }
  }

  lemma PredicateIsLeaf(p: PredicateTree, build: Build)
    requires PredicateAst(p, build).Ok?
    ensures PredicateAst(p, build).ast.Leaf()
  {
  }

  lemma {:induction false} PrimaryNeeds(p: PrimaryTree, build: Build)
    requires PrimaryShape(p) && PrimaryAst(p, build).Ok?
    ensures AsPrimary(PrimaryAst(p, build).ast) <= Opening(PrimaryTokens(p))
    decreases p
  {
    hide PredicateAst, PredicateTokens, OrAst, OrTokens, OrShape, AsOr;
    match p
    case Pred(t) => PredicateIsLeaf(t, build);
    case Paren(e) =>
      OrNeeds(e, build);
      OpeningAdd([LParen], OrTokens(e));
      OpeningAdd([LParen] + OrTokens(e), [RParen]);
      OpeningOne();
  }

  lemma OpeningOne()
    ensures Opening([]) == 0 && Opening([LParen]) == 1 && Opening([RParen]) == 0
    ensures Opening([KwNot]) == 0 && Opening([KwAnd]) == 0 && Opening([KwOr]) == 0
    ensures Ands([]) == 0 && Ands([LParen]) == 0 && Ands([RParen]) == 0
    ensures Ands([KwNot]) == 0 && Ands([KwAnd]) == 1 && Ands([KwOr]) == 0
  {
  }

  lemma {:induction false} NotNeeds(t: NotTree, build: Build)
    requires NotShape(t) && NotAst(t, build).Ok?
    ensures AsNot(NotAst(t, build).ast) <= Opening(NotTokens(t))
    decreases t
  {
    hide PrimaryAst, PrimaryTokens, PrimaryShape, AsPrimary, AsOr;
    PrimaryNeeds(t.primary, build);
    OpeningAdd(if t.negated then [KwNot] else [], PrimaryTokens(t.primary));
    OpeningOne();
    Tighter(PrimaryAst(t.primary, build).ast);
  }

  lemma {:induction false} AndItemNeeds(i: AndItem, build: Build)
    requires AndItemShape(i) && AndItemAst(i, build).Ok?
    ensures AsNot(AndItemAst(i, build).ast) <= Opening(AndItemTokens(i))
    decreases i
  {
    hide NotAst, NotTokens, AsNot;
    NotNeeds(i.operand, build);
  }

  lemma {:induction false} AndFoldNeeds(left: Ast, items: seq<AndItem>, build: Build)
    requires AndRestShape(items) && AndFold(left, items, build).Ok?
    ensures AsAnd(AndFold(left, items, build).ast) <= AsAnd(left) + Opening(AndItemsTokens(items))
    decreases items
  {
    hide AndItemAst, AndItemTokens, AndItemShape, AsNot, Opening, Ands;
    OpeningOne();
    if items != [] {
      var k := if items[0].AndMark? then 1 else 0;
      AndRestWritten(items);
      AndItemNeeds(items[k], build);
      var a := AndItemAst(items[k], build).ast;
      assert AsAnd(And(left, a)) == AsAnd(left) + AsNot(a);
      AndFoldNeeds(And(left, a), items[k + 1..], build);
    }
  }

  lemma AndRestWritten(items: seq<AndItem>)
    requires AndRestShape(items) && items != []
    ensures var k := if items[0].AndMark? then 1 else 0;
            k < |items| && AndItemShape(items[k]) && AndRestShape(items[k + 1..]) &&
            Opening(AndItemsTokens(items)) == Opening(AndItemTokens(items[k])) + Opening(AndItemsTokens(items[k + 1..]))
  {
    hide NotTokens, NotShape, Opening, Ands;
    OpeningOne();
    if items[0].AndMark? {
      assert items[1..][0] == items[1] && items[1..][1..] == items[2..];
      assert AndItemsTokens(items) == [KwAnd] + AndItemsTokens(items[1..]);
      assert AndItemsTokens(items[1..]) == AndItemTokens(items[1]) + AndItemsTokens(items[2..]);
      OpeningAdd([KwAnd], AndItemsTokens(items[1..]));
      OpeningAdd(AndItemTokens(items[1]), AndItemsTokens(items[2..]));
    } else {
      OpeningAdd(AndItemTokens(items[0]), AndItemsTokens(items[1..]));
    }
  }

  lemma {:induction false} AndNeeds(t: AndTree, build: Build)
    requires AndShape(t) && AndAst(t, build).Ok?
    ensures AsAnd(AndAst(t, build).ast) <= Opening(AndTokens(t))
    decreases t
  {
    hide AndItemAst, AndItemTokens, AndItemShape, AndRestShape, AndFold, AsAnd, AsNot, Opening, Ands;
    AndItemNeeds(t.items[0], build);
    var a := AndItemAst(t.items[0], build).ast;
    Tighter(a);
    AndFoldNeeds(a, t.items[1..], build);
    OpeningAdd(AndItemTokens(t.items[0]), AndItemsTokens(t.items[1..]));
  }

  lemma {:induction false} OrItemNeeds(i: OrItem, build: Build)
    requires OrItemShape(i) && OrItemAst(i, build).Ok?
    ensures AsAnd(OrItemAst(i, build).ast) <= Opening(OrItemTokens(i))
    decreases i
  {
    hide AndAst, AndTokens, AsAnd;
    AndNeeds(i.operand, build);
  }

  lemma {:induction false} OrFoldNeeds(left: Ast, items: seq<OrItem>, build: Build)
    requires OrRestShape(items) && OrFold(left, items, build).Ok?
    ensures AsOr(OrFold(left, items, build).ast) <= AsOr(left) + Opening(OrItemsTokens(items))
    decreases items
  {
    hide OrItemAst, OrItemTokens, OrItemShape, AsAnd, Opening, Ands;
    OpeningOne();
    if items != [] {
      OrRestWritten(items);
      OrItemNeeds(items[1], build);
      var a := OrItemAst(items[1], build).ast;
      assert AsOr(Or(left, a)) == AsOr(left) + AsAnd(a);
      OrFoldNeeds(Or(left, a), items[2..], build);
    }
  }

  lemma OrRestWritten(items: seq<OrItem>)
    requires OrRestShape(items) && items != []
    ensures Opening(OrItemsTokens(items)) == Opening(OrItemTokens(items[1])) + Opening(OrItemsTokens(items[2..]))
  {
    hide AndTokens, AndShape, Opening, Ands;
    OpeningOne();
    assert items[1..][0] == items[1] && items[1..][1..] == items[2..];
    assert OrItemsTokens(items) == [KwOr] + OrItemsTokens(items[1..]);
    assert OrItemsTokens(items[1..]) == OrItemTokens(items[1]) + OrItemsTokens(items[2..]);
    OpeningAdd([KwOr], OrItemsTokens(items[1..]));
    OpeningAdd(OrItemTokens(items[1]), OrItemsTokens(items[2..]));
  }

  /** However a filter is written, it takes at least as many parentheses as it needs. */
  lemma {:induction false} OrNeeds(t: OrTree, build: Build)
    requires OrShape(t) && OrAst(t, build).Ok?
    ensures AsOr(OrAst(t, build).ast) <= Opening(OrTokens(t))
    decreases t
  {
    hide OrItemAst, OrItemTokens, OrItemShape, OrRestShape, OrFold, AsOr, AsAnd, Opening, Ands;
    OrItemNeeds(t.items[0], build);
    var a := OrItemAst(t.items[0], build).ast;
    Tighter(a);
    OrFoldNeeds(a, t.items[1..], build);
    OpeningAdd(OrItemTokens(t.items[0]), OrItemsTokens(t.items[1..]));
  }

  // ----- the printer writes exactly that many -----

  lemma {:induction false} PrimaryWrites(ast: Ast, style: Style)
    ensures Opening(PrimaryTokens(PrimaryOf(ast, style))) == AsPrimary(ast)
    ensures Ands(PrimaryTokens(PrimaryOf(ast, style))) == Marked(ast, style)
    decreases ast, Height(3, ast)
  {
    hide OrTokens, OrOf, AsOr, LeafTree, PredicateTokens;
    OpeningOne();
    if ast.Leaf() {
      LeafTokens(LeafTree(ast));
    } else {
      OrWrites(ast, style);
      OpeningAdd([LParen], OrTokens(OrOf(ast, style)));
      OpeningAdd([LParen] + OrTokens(OrOf(ast, style)), [RParen]);
    }
  }

  lemma {:induction false} NotWrites(ast: Ast, style: Style)
    ensures Opening(NotTokens(NotOf(ast, style))) == AsNot(ast)
    ensures Ands(NotTokens(NotOf(ast, style))) == Marked(ast, style)
    decreases ast, Height(2, ast)
  {
    hide PrimaryTokens, PrimaryOf, AsPrimary, Opening, Ands;
    var t := NotOf(ast, style);
    if ast.Not? { PrimaryWrites(ast.inner, style); } else { PrimaryWrites(ast, style); }
    OpeningAdd(if t.negated then [KwNot] else [], PrimaryTokens(t.primary));
    OpeningOne();
  }

  lemma {:induction false} AndWrites(ast: Ast, style: Style)
    ensures Opening(AndTokens(AndOf(ast, style))) == AsAnd(ast)
    ensures Ands(AndTokens(AndOf(ast, style))) == Marked(ast, style)
    decreases ast, Height(1, ast)
  {
    hide NotTokens, NotOf, AsNot, Opening, Ands;
    OpeningOne();
    var last := if ast.And? then NotOf(ast.right, style) else NotOf(ast, style);
    var items := AndOf(ast, style).items;
    AndItemsSingle(last);
    if ast.And? {
      AndWrites(ast.left, style);
      NotWrites(ast.right, style);
      var front, mark := AndOf(ast.left, style).items, if style(ast) then [AndMark] else [];
      assert items == front + mark + [NotOperand(last)];
      AndItemsAdd(front, mark);
      AndItemsAdd(front + mark, [NotOperand(last)]);
      MarkOpening();
    } else {
      NotWrites(ast, style);
      assert items == [NotOperand(last)];
    }
  }

  lemma AndItemsSingle(t: NotTree)
    ensures AndItemsTokens([NotOperand(t)]) == NotTokens(t)
  {
    hide NotTokens;
    var items := [NotOperand(t)];
    assert items[1..] == [] && AndItemsTokens(items) == AndItemTokens(items[0]) + AndItemsTokens([]);
  }

  lemma MarkOpening()
    ensures Opening(AndItemsTokens([AndMark])) == 0 && Opening(AndItemsTokens([])) == 0
    ensures Ands(AndItemsTokens([AndMark])) == 1 && Ands(AndItemsTokens([])) == 0
    ensures Opening(OrItemsTokens([OrMark])) == 0 && Ands(OrItemsTokens([OrMark])) == 0
  {
    var a: seq<AndItem>, o: seq<OrItem> := [AndMark], [OrMark];
    assert a[1..] == [] && AndItemsTokens(a) == [KwAnd] + AndItemsTokens([]);
    assert o[1..] == [] && OrItemsTokens(o) == [KwOr] + OrItemsTokens([]);
    OpeningOne();
  }

  lemma {:induction false} AndItemsAdd(x: seq<AndItem>, y: seq<AndItem>)
    ensures Opening(AndItemsTokens(x + y)) == Opening(AndItemsTokens(x)) + Opening(AndItemsTokens(y))
    ensures Ands(AndItemsTokens(x + y)) == Ands(AndItemsTokens(x)) + Ands(AndItemsTokens(y))
    decreases |x|
  {
    hide Opening, AndItemTokens;
    OpeningOne();
    if x == [] {
      assert x + y == y;
    } else {
      assert (x + y)[1..] == x[1..] + y && (x + y)[0] == x[0];
      AndItemsAdd(x[1..], y);
      OpeningAdd(AndItemTokens(x[0]), AndItemsTokens(x[1..] + y));
      OpeningAdd(AndItemTokens(x[0]), AndItemsTokens(x[1..]));
    }
  }

  lemma {:induction false} OrItemsAdd(x: seq<OrItem>, y: seq<OrItem>)
    ensures Opening(OrItemsTokens(x + y)) == Opening(OrItemsTokens(x)) + Opening(OrItemsTokens(y))
    ensures Ands(OrItemsTokens(x + y)) == Ands(OrItemsTokens(x)) + Ands(OrItemsTokens(y))
    decreases |x|
  {
    hide Opening, OrItemTokens;
    OpeningOne();
    if x == [] {
      assert x + y == y;
    } else {
      assert (x + y)[1..] == x[1..] + y && (x + y)[0] == x[0];
      OrItemsAdd(x[1..], y);
      OpeningAdd(OrItemTokens(x[0]), OrItemsTokens(x[1..] + y));
      OpeningAdd(OrItemTokens(x[0]), OrItemsTokens(x[1..]));
    }
  }

  lemma OrItemsSingle(t: AndTree)
    ensures OrItemsTokens([AndOperand(t)]) == AndTokens(t)
  {
    hide AndTokens;
    var items := [AndOperand(t)];
    assert items[1..] == [] && OrItemsTokens(items) == OrItemTokens(items[0]) + OrItemsTokens([]);
  }

  lemma {:induction false} OrWrites(ast: Ast, style: Style)
    ensures Opening(OrTokens(OrOf(ast, style))) == AsOr(ast)
    ensures Ands(OrTokens(OrOf(ast, style))) == Marked(ast, style)
    decreases ast, Height(0, ast)
  {
    hide AndTokens, AndOf, AsAnd, Opening, Ands;
    var last := if ast.Or? then AndOf(ast.right, style) else AndOf(ast, style);
    var items := OrOf(ast, style).items;
    OrItemsSingle(last);
    if ast.Or? {
      OrWrites(ast.left, style);
      AndWrites(ast.right, style);
      var front := OrOf(ast.left, style).items;
      assert items == front + [OrMark] + [AndOperand(last)];
      OrItemsAdd(front, [OrMark]);
      OrItemsAdd(front + [OrMark], [AndOperand(last)]);
      MarkOpening();
    } else {
      AndWrites(ast, style);
      assert items == [AndOperand(last)];
    }
  }

  /** The printer writes the operators the style asks for, and no other. */
  lemma OperatorsOfStyle(ast: Ast, style: Style)
    ensures Ands(Print(ast, style)) == Marked(ast, style)
  {
    OrWrites(ast, style);
  }

  /** No way of writing a filter takes fewer parentheses than its printing. */
  lemma FewestParentheses(ts: Tokens, ast: Ast, style: Style, build: Build)
    requires ParseTokens(ts, build) == Ok(ast)
    ensures Opening(Print(ast, style)) <= Opening(ts)
  {
    hide ParseFilter, OrAst, OrTokens, OrOf, OrShape, AsOr, Opening, Ands;
    var t := ParseFilter(ts).tree;
    FilterMatches(ts);
    ParserExact(ts, t);
    OrNeeds(t, build);
    OrWrites(ast, style);
  }
}
