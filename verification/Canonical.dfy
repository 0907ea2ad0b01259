/** Rewritings of a filter that leave its program identical, instruction for instruction. */
module Canonical {
  import opened FilterAst
  import opened Layout

  /** The two filters have the same code wherever it stands and wherever its exits are. */
  ghost predicate SameCode(x: Ast, y: Ast) {
    Size(x) == Size(y) && forall s: nat, a: nat, r: nat :: CodeAt(x, s, a, r) == CodeAt(y, s, a, r)
  }

  /** A filter with one subfilter left out. */
  datatype Context =
    | Hole
    | AndLeft(outer: Context, right: Ast)
    | AndRight(left: Ast, outer: Context)
    | OrLeft(outer: Context, right: Ast)
    | OrRight(left: Ast, outer: Context)
    | Negated(outer: Context)

  function Plug(c: Context, x: Ast): Ast {
    match c
    case Hole => x
    case AndLeft(c', r) => And(Plug(c', x), r)
    case AndRight(l, c') => And(l, Plug(c', x))
    case OrLeft(c', r) => Or(Plug(c', x), r)
    case OrRight(l, c') => Or(l, Plug(c', x))
    case Negated(c') => Not(Plug(c', x))
  }

  lemma SameParts(x: Ast, x': Ast, y: Ast, y': Ast)
    requires SameCode(x, x') && SameCode(y, y')
    ensures SameCode(And(x, y), And(x', y')) && SameCode(Or(x, y), Or(x', y')) && SameCode(Not(x), Not(x'))
  {
    hide CodeAt, Size;
    forall s: nat, a: nat, r: nat
      ensures CodeAt(And(x, y), s, a, r) == CodeAt(And(x', y'), s, a, r)
      ensures CodeAt(Or(x, y), s, a, r) == CodeAt(Or(x', y'), s, a, r)
      ensures CodeAt(Not(x), s, a, r) == CodeAt(Not(x'), s, a, r)
    {
      Unfold(x, y, s, a, r);
      Unfold(x', y', s, a, r);
    }
    Sizes(x, y);
    Sizes(x', y');
  }

  lemma Sizes(x: Ast, y: Ast)
    ensures Size(And(x, y)) == Size(Or(x, y)) == Size(x) + Size(y) && Size(Not(x)) == Size(x)
  {
    hide LeafSize;
  }

  lemma Unfold(x: Ast, y: Ast, s: nat, a: nat, r: nat)
    ensures var mid := s + Size(x);
            CodeAt(And(x, y), s, a, r) == CodeAt(x, s, mid, r) + CodeAt(y, mid, a, r) &&
            CodeAt(Or(x, y), s, a, r) == CodeAt(x, s, a, mid) + CodeAt(y, mid, a, r) &&
            CodeAt(Not(x), s, a, r) == CodeAt(x, s, r, a)
  {
    hide CodeAt, Size;
    AndParts(x, y, s, a, r);
    OrParts(x, y, s, a, r);
    NotParts(x, s, a, r);
  }

  /** Having the same code is kept by every context. */
  lemma {:induction false} SameCodeInContext(c: Context, x: Ast, y: Ast)
    requires SameCode(x, y)
    ensures SameCode(Plug(c, x), Plug(c, y))
    decreases c
  {
    hide SameCode;
    match c
    case Hole =>
    case AndLeft(c', r) => SameCodeInContext(c', x, y); SameAsItself(r); SameParts(Plug(c', x), Plug(c', y), r, r);
    case AndRight(l, c') => SameCodeInContext(c', x, y); SameAsItself(l); SameParts(l, l, Plug(c', x), Plug(c', y));
    case OrLeft(c', r) => SameCodeInContext(c', x, y); SameAsItself(r); SameParts(Plug(c', x), Plug(c', y), r, r);
    case OrRight(l, c') => SameCodeInContext(c', x, y); SameAsItself(l); SameParts(l, l, Plug(c', x), Plug(c', y));
    case Negated(c') => SameCodeInContext(c', x, y); SameParts(Plug(c', x), Plug(c', y), x, y);
  }

  lemma SameAsItself(x: Ast)
    ensures SameCode(x, x)
  {
  }

  /** Double negation, De Morgan's laws and re-association. */
  predicate OneRewrite(x: Ast, y: Ast) {
    (x.Not? && x.inner.Not? && y == x.inner.inner) ||
    (x.Not? && x.inner.And? && y == Or(Not(x.inner.left), Not(x.inner.right))) ||
    (x.Not? && x.inner.Or? && y == And(Not(x.inner.left), Not(x.inner.right))) ||
    (x.And? && x.left.And? && y == And(x.left.left, And(x.left.right, x.right))) ||
    (x.Or? && x.left.Or? && y == Or(x.left.left, Or(x.left.right, x.right)))
  }

  lemma DoubleNegation(x: Ast)
    ensures SameCode(Not(Not(x)), x)
  {
    hide CodeAt, Size;
    Sizes(x, x);
    Sizes(Not(x), x);
    forall s: nat, a: nat, r: nat ensures CodeAt(Not(Not(x)), s, a, r) == CodeAt(x, s, a, r) {
      NotParts(Not(x), s, a, r);
      NotParts(x, s, r, a);
    }
  }

  lemma DeMorganAnd(x: Ast, y: Ast)
    ensures SameCode(Not(And(x, y)), Or(Not(x), Not(y)))
  {
    hide CodeAt, Size;
    Sizes(x, y);
    Sizes(Not(x), Not(y));
    Sizes(And(x, y), y);
    Sizes(y, x);
    forall s: nat, a: nat, r: nat
      ensures CodeAt(Not(And(x, y)), s, a, r) == CodeAt(Or(Not(x), Not(y)), s, a, r)
    {
      NotParts(And(x, y), s, a, r);
      AndParts(x, y, s, r, a);
      OrParts(Not(x), Not(y), s, a, r);
      NotParts(x, s, a, s + Size(x));
      NotParts(y, s + Size(x), a, r);
    }
  }

  lemma DeMorganOr(x: Ast, y: Ast)
    ensures SameCode(Not(Or(x, y)), And(Not(x), Not(y)))
  {
    hide CodeAt, Size;
    Sizes(x, y);
    Sizes(Not(x), Not(y));
    Sizes(Or(x, y), y);
    Sizes(y, x);
    forall s: nat, a: nat, r: nat
      ensures CodeAt(Not(Or(x, y)), s, a, r) == CodeAt(And(Not(x), Not(y)), s, a, r)
    {
      NotParts(Or(x, y), s, a, r);
      OrParts(x, y, s, r, a);
      AndParts(Not(x), Not(y), s, a, r);
      NotParts(x, s, s + Size(x), r);
      NotParts(y, s + Size(x), a, r);
    }
  }

  lemma AndReassociates(x: Ast, y: Ast, z: Ast)
    ensures SameCode(And(And(x, y), z), And(x, And(y, z)))
  {
    hide CodeAt, Size;
    Sizes(x, y);
    Sizes(y, z);
    Sizes(And(x, y), z);
    Sizes(x, And(y, z));
    forall s: nat, a: nat, r: nat
      ensures CodeAt(And(And(x, y), z), s, a, r) == CodeAt(And(x, And(y, z)), s, a, r)
    {
      AndParts(And(x, y), z, s, a, r);
      AndParts(x, y, s, s + Size(And(x, y)), r);
      AndParts(x, And(y, z), s, a, r);
      AndParts(y, z, s + Size(x), a, r);
    }
  }

  lemma OrReassociates(x: Ast, y: Ast, z: Ast)
    ensures SameCode(Or(Or(x, y), z), Or(x, Or(y, z)))
  {
    hide CodeAt, Size;
    Sizes(x, y);
    Sizes(y, z);
    Sizes(Or(x, y), z);
    Sizes(x, Or(y, z));
    forall s: nat, a: nat, r: nat
      ensures CodeAt(Or(Or(x, y), z), s, a, r) == CodeAt(Or(x, Or(y, z)), s, a, r)
    {
      OrParts(Or(x, y), z, s, a, r);
      OrParts(x, y, s, a, s + Size(Or(x, y)));
      OrParts(x, Or(y, z), s, a, r);
      OrParts(y, z, s + Size(x), a, r);
    }
  }

  lemma RewriteSameCode(x: Ast, y: Ast)
    requires OneRewrite(x, y)
    ensures SameCode(x, y)
  {
    hide SameCode;
    if x.And? { AndReassociates(x.left.left, x.left.right, x.right); }
    else if x.Or? { OrReassociates(x.left.left, x.left.right, x.right); }
    else if x.inner.Not? { DoubleNegation(x.inner.inner); }
    else if x.inner.And? { DeMorganAnd(x.inner.left, x.inner.right); }
    else { DeMorganOr(x.inner.left, x.inner.right); }
  }

  /** One step: a rewriting, in either direction, somewhere inside a filter. */
  ghost predicate Step(x: Ast, y: Ast) {
    exists c: Context, u: Ast, v: Ast :: (OneRewrite(u, v) || OneRewrite(v, u)) && x == Plug(c, u) && y == Plug(c, v)
  }

  lemma LawStep(c: Context, u: Ast, v: Ast)
    requires OneRewrite(u, v)
    ensures Step(Plug(c, u), Plug(c, v)) && Step(Plug(c, v), Plug(c, u))
  {
    hide Plug, OneRewrite;
  }

  /** Every one of the five laws, in any context and in both directions, is such a step. */
  lemma EveryLawIsAStep(c: Context, x: Ast, y: Ast, z: Ast)
    ensures Step(Plug(c, Not(Not(x))), Plug(c, x)) && Step(Plug(c, x), Plug(c, Not(Not(x))))
    ensures Step(Plug(c, Not(And(x, y))), Plug(c, Or(Not(x), Not(y))))
    ensures Step(Plug(c, Or(Not(x), Not(y))), Plug(c, Not(And(x, y))))
    ensures Step(Plug(c, Not(Or(x, y))), Plug(c, And(Not(x), Not(y))))
    ensures Step(Plug(c, And(Not(x), Not(y))), Plug(c, Not(Or(x, y))))
    ensures Step(Plug(c, And(And(x, y), z)), Plug(c, And(x, And(y, z))))
    ensures Step(Plug(c, And(x, And(y, z))), Plug(c, And(And(x, y), z)))
    ensures Step(Plug(c, Or(Or(x, y), z)), Plug(c, Or(x, Or(y, z))))
    ensures Step(Plug(c, Or(x, Or(y, z))), Plug(c, Or(Or(x, y), z)))
  {
    hide Plug, Step;
    LawStep(c, Not(Not(x)), x);
    LawStep(c, Not(And(x, y)), Or(Not(x), Not(y)));
    LawStep(c, Not(Or(x, y)), And(Not(x), Not(y)));
    LawStep(c, And(And(x, y), z), And(x, And(y, z)));
    LawStep(c, Or(Or(x, y), z), Or(x, Or(y, z)));
  }

  lemma StepSameProgram(x: Ast, y: Ast)
    requires Step(x, y)
    ensures SameCode(x, y) && Program(x) == Program(y)
  {
    hide CodeAt, Size, SameCode, OneRewrite;
    var c, u, v :| (OneRewrite(u, v) || OneRewrite(v, u)) && x == Plug(c, u) && y == Plug(c, v);
    if OneRewrite(u, v) {
      RewriteSameCode(u, v);
    } else {
      RewriteSameCode(v, u);
      SameBothWays(v, u);
    }
    SameCodeInContext(c, u, v);
    SameProgram(x, y);
  }

  lemma SameBothWays(x: Ast, y: Ast)
    requires SameCode(x, y)
    ensures SameCode(y, x)
  {
    hide CodeAt, Size;
  }

  lemma SameProgram(x: Ast, y: Ast)
    requires SameCode(x, y)
    ensures Program(x) == Program(y)
  {
    hide CodeAt, Size;
  }

  /** Any number of steps, anywhere in the filter, leave the program identical. */
  lemma {:induction false} RewritingKeepsProgram(chain: seq<Ast>)
    requires |chain| > 0 && forall i :: 0 <= i < |chain| - 1 ==> Step(chain[i], chain[i + 1])
    ensures Program(chain[0]) == Program(chain[|chain| - 1])
    decreases |chain|
  {
    if |chain| > 1 {
      assert Step(chain[0], chain[0 + 1]);
      StepSameProgram(chain[0], chain[1]);
      forall i | 0 <= i < |chain[1..]| - 1 ensures Step(chain[1..][i], chain[1..][i + 1]) {
        assert Step(chain[i + 1], chain[(i + 1) + 1]);
      }
      RewritingKeepsProgram(chain[1..]);
    }
  }
}
