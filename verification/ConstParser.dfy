/** The constant parser gives back every tree of the grammar, and a complete tree only for its own
    tokens. */
module ConstParser {
  import opened ConstSyntax

  // ---------------------------------------------------------------------------
  // Round trip

  /** With the tokens of a tree at `i`, followed by a token that does not bind tighter
      than the tree, parsing reaches the operator loop with exactly that tree. */
  lemma {:induction false} ParsesTree(s: Stream, e: Expr, i: nat, precedence: nat, end: nat, result: Parsed)
    requires Proper(s) && Leveled(e) && Level(e) > precedence && Here(s, i, Tokens(e)) && Tokens(e) != []
    requires TokenPrecedence(At(s, i + |Tokens(e)|)) <= Level(e)
    requires end + 1 == i + |Tokens(e)| && ParseOperators(s, e, NoError, end, precedence) == result
    ensures ParseExpr(s, i, precedence) == result
    decreases e, 1
  {
    match e
    case Name(name) =>
      HereOne(s, i, Tokens(e)[0]);
      assert "C." + name[2..] == name;
    case Lit(_, _) =>
      HereOne(s, i, Tokens(e)[0]);
    case Paren(x) => ParsesParen(s, e, i, precedence, end, result);
    case Neg(x) => ParsesNeg(s, e, i, precedence, end, result);
    case Binary(op, l, r) => ParsesBinary(s, e, i, precedence, end, result);
  }

  lemma {:induction false} TokensNonEmpty(e: Expr)
    requires Leveled(e)
    ensures Tokens(e) != []
    decreases e
  {
  }

  lemma LoopStops(s: Stream, e: Expr, j: nat, precedence: nat)
    requires Proper(s) && j < |s.tokens| && TokenPrecedence(At(s, j + 1)) <= precedence
    ensures ParseOperators(s, e, NoError, j, precedence) == Parsed(e, NoError, j)
  {
  }

  lemma ParenPlaced(s: Stream, i: nat, ts: seq<Token>)
    requires Here(s, i, [LParen] + ts + [RParen])
    ensures i + |ts| + 1 < |s.tokens| && At(s, i) == LParen && Here(s, i + 1, ts) && At(s, i + 1 + |ts|) == RParen
  {
    HereSplit(s, i, [LParen] + ts, [RParen]);
    HereSplit(s, i, [LParen], ts);
    HereOne(s, i, LParen);
    HereOne(s, i + 1 + |ts|, RParen);
  }

  lemma BinaryPlaced(s: Stream, i: nat, l: seq<Token>, op: Operator, r: seq<Token>)
    requires Here(s, i, l + [Op(op)] + r)
    ensures i + |l| + |r| < |s.tokens| && Here(s, i, l) && At(s, i + |l|) == Op(op) && Here(s, i + |l| + 1, r)
  {
    HereSplit(s, i, l + [Op(op)], r);
    HereSplit(s, i, l, [Op(op)]);
    HereOne(s, i + |l|, Op(op));
  }

  lemma {:induction false} ParsesParen(s: Stream, e: Expr, i: nat, precedence: nat, end: nat, result: Parsed)
    requires Proper(s) && e.Paren? && Leveled(e) && Here(s, i, Tokens(e))
    requires end + 1 == i + |Tokens(e)| && ParseOperators(s, e, NoError, end, precedence) == result
    ensures ParseExpr(s, i, precedence) == result
    decreases e, 0
  {
    hide Here, ParseOperators;
    var ts := Tokens(e.x);
    TokensNonEmpty(e.x);
    ParenPlaced(s, i, ts);
    ParsesWhole(s, e.x, i + 1, LOWEST);
    assert ParsePrefix(s, i) == Parsed(e, NoError, end);
  }

  lemma {:induction false} ParsesNeg(s: Stream, e: Expr, i: nat, precedence: nat, end: nat, result: Parsed)
    requires Proper(s) && e.Neg? && Leveled(e) && Here(s, i, Tokens(e))
    requires end + 1 == i + |Tokens(e)| && ParseOperators(s, e, NoError, end, precedence) == result
    ensures ParseExpr(s, i, precedence) == result
    decreases e, 0
  {
    var ts := Tokens(e.x);
    TokensNonEmpty(e.x);
    HereSplit(s, i, [Op(Sub)], ts);
    HereOne(s, i, Op(Sub));
    ParsesWhole(s, e.x, i + 1, PREFIX);
  }

  lemma {:induction false} ParsesBinary(s: Stream, e: Expr, i: nat, precedence: nat, end: nat, result: Parsed)
    requires Proper(s) && e.Binary? && Leveled(e) && Level(e) > precedence && Here(s, i, Tokens(e))
    requires TokenPrecedence(At(s, i + |Tokens(e)|)) <= Level(e)
    requires end + 1 == i + |Tokens(e)| && ParseOperators(s, e, NoError, end, precedence) == result
    ensures ParseExpr(s, i, precedence) == result
    decreases e, 0
  {
    hide Here, ParseExpr, ParseOperators, Leveled, Tokens, Level, Precedence;
    var l, r := Tokens(e.left), Tokens(e.right);
    BinaryParts(e);
    BinaryPlaced(s, i, l, e.op, r);
    ParsesWhole(s, e.right, i + |l| + 1, Precedence(e.op));
    OperatorStep(s, e, i + |l| - 1, end, precedence);
    ParsesTree(s, e.left, i, precedence, i + |l| - 1, result);
  }

  lemma BinaryParts(e: Expr)
    requires e.Binary? && Leveled(e)
    ensures Leveled(e.left) && Leveled(e.right) && Tokens(e.left) != [] && Tokens(e.right) != []
    ensures Level(e) == Precedence(e.op) && Level(e.left) >= Level(e) && Level(e.right) > Level(e)
    ensures Tokens(e) == Tokens(e.left) + [Op(e.op)] + Tokens(e.right)
  {
    TokensNonEmpty(e.left);
    TokensNonEmpty(e.right);
  }

  /** An operand that ends where the operator loop stops. */
  lemma {:induction false} ParsesWhole(s: Stream, e: Expr, i: nat, precedence: nat)
    requires Proper(s) && Leveled(e) && Level(e) > precedence && Here(s, i, Tokens(e)) && Tokens(e) != []
    requires TokenPrecedence(At(s, i + |Tokens(e)|)) <= precedence
    ensures ParseExpr(s, i, precedence) == Parsed(e, NoError, i + |Tokens(e)| - 1)
    decreases e, 2
  {
    var end := i + |Tokens(e)| - 1;
    LoopStops(s, e, end, precedence);
    ParsesTree(s, e, i, precedence, end, Parsed(e, NoError, end));
  }

  lemma OperatorStep(s: Stream, e: Expr, j: nat, k: nat, precedence: nat)
    requires Proper(s) && e.Binary? && j + 1 < |s.tokens| && At(s, j + 1) == Op(e.op) && precedence < Precedence(e.op)
    requires ParseExpr(s, j + 2, Precedence(e.op)) == Parsed(e.right, NoError, k)
    ensures k < |s.tokens|
      && ParseOperators(s, e.left, NoError, j, precedence) == ParseOperators(s, e, NoError, k, precedence)
  {
  }

  /** The grammar and the precedence table give the same trees. */
  lemma {:induction false} GrammarIsLevels(e: Expr)
    ensures IsSum(e) <==> Leveled(e)
    ensures IsTerm(e) <==> Leveled(e) && !(e.Binary? && (e.op == Add || e.op == Sub))
    ensures IsFactor(e) <==> Leveled(e) && !e.Binary?
    decreases e
  {
    assert !e.Binary? ==> (IsSum(e) <==> IsTerm(e)) && (IsTerm(e) <==> IsFactor(e));
    match e
    case Paren(x) => GrammarIsLevels(x);
    case Neg(x) => GrammarIsLevels(x);
    case Binary(op, l, r) =>
      GrammarIsLevels(l);
      GrammarIsLevels(r);
      assert !IsFactor(e);
      assert IsTerm(e) <==> !(op == Add || op == Sub) && IsTerm(l) && IsFactor(r);
      assert IsSum(e) <==> IsTerm(e) || ((op == Add || op == Sub) && IsSum(l) && IsTerm(r));
    case _ =>
  }

  lemma LeveledRoundTrip(e: Expr)
    requires Leveled(e)
    ensures Proper(Stream(Tokens(e), false)) && ParseConst(Stream(Tokens(e), false)) == (e, NoError)
  {
    hide ParseExpr, Tokens, Leveled;
    TokensAreProper(e);
    var s := Stream(Tokens(e), false);
    TokensNonEmpty(e);
    assert s.tokens[0..0 + |Tokens(e)|] == Tokens(e);
    ParsesWhole(s, e, 0, LOWEST);
  }

  /** Parsing the tokens of a tree of the grammar gives back that tree. */
  lemma RoundTrip(e: Expr)
    requires IsSum(e)
    ensures Proper(Stream(Tokens(e), false)) && ParseConst(Stream(Tokens(e), false)) == (e, NoError)
  {
    hide ParseConst, Tokens;
    GrammarIsLevels(e);
    LeveledRoundTrip(e);
  }

  /** A sequence of tokens has at most one derivation. */
  lemma Unambiguous(e: Expr, e': Expr)
    requires IsSum(e) && IsSum(e') && Tokens(e) == Tokens(e')
    ensures e == e'
  {
    hide ParseConst, Tokens;
    RoundTrip(e);
    RoundTrip(e');
  }

  /** Multiplication binds tighter than addition on either side of it, whatever the operands. */
  lemma TighterOnBothSides(a: Expr, b: Expr, c: Expr, plus: Operator, times: Operator)
    requires IsFactor(a) && IsFactor(b) && IsFactor(c)
    requires (plus == Add || plus == Sub) && (times == Mul || times == Quo || times == Rem)
    ensures var right := Stream(Tokens(a) + [Op(plus)] + (Tokens(b) + [Op(times)] + Tokens(c)), false);
      Proper(right) && ParseConst(right) == (Binary(plus, a, Binary(times, b, c)), NoError)
    ensures var left := Stream((Tokens(a) + [Op(times)] + Tokens(b)) + [Op(plus)] + Tokens(c), false);
      Proper(left) && ParseConst(left) == (Binary(plus, Binary(times, a, b), c), NoError)
  {
    hide ParseConst;
    assert IsTerm(Binary(times, b, c)) && IsTerm(Binary(times, a, b)) && IsTerm(a) && IsTerm(c);
    assert IsSum(Binary(times, a, b)) && IsSum(a);
    RoundTrip(Binary(plus, a, Binary(times, b, c)));
    RoundTrip(Binary(plus, Binary(times, a, b), c));
  }

  lemma {:induction false} TokensAreProper(e: Expr)
    ensures Proper(Stream(Tokens(e), false))
    decreases e
  {
    match e
    case Nil =>
    case Name(_) =>
    case Lit(_, _) =>
    case Paren(x) => TokensAreProper(x);
    case Neg(x) => TokensAreProper(x);
    case Binary(_, l, r) =>
      TokensAreProper(l);
      TokensAreProper(r);
  }

  // ---------------------------------------------------------------------------
  // Soundness

  /** What a result without missing parts means: it is the tree of the tokens
      consumed, and an error always leaves a missing part. */
  ghost predicate Faithful(s: Stream, i: nat, r: Parsed) {
    && (!r.err.NoError? ==> HasNil(r.expr))
    && (!HasNil(r.expr) ==>
          && Leveled(r.expr) && |Tokens(r.expr)| == r.pos + 1 - i && Here(s, i, Tokens(r.expr))
          && TokenPrecedence(At(s, r.pos + 1)) <= Level(r.expr))
  }

  lemma {:induction false} ExprFaithful(s: Stream, i: nat, precedence: nat)
    requires Proper(s) && i <= |s.tokens|
    ensures var r := ParseExpr(s, i, precedence);
      Faithful(s, i, r) && (!HasNil(r.expr) && precedence <= PREFIX ==>
        Level(r.expr) > precedence && TokenPrecedence(At(s, r.pos + 1)) <= precedence)
    decreases |s.tokens| - i, 2
  {
    if i < |s.tokens| && StartsOperand(At(s, i)) {
      PrefixFaithful(s, i);
      var p := ParsePrefix(s, i);
      OperatorsFaithful(s, i, p, precedence);
    }
  }

  lemma {:induction false} PrefixFaithful(s: Stream, i: nat)
    requires Proper(s) && i < |s.tokens| && StartsOperand(At(s, i))
    ensures var r := ParsePrefix(s, i); Faithful(s, i, r) && (!HasNil(r.expr) ==> !r.expr.Binary?)
    decreases |s.tokens| - i, 1
  {
    var t := At(s, i);
    if t.Ident? || t.Literal? {
      HereOne(s, i, t);
    } else if t.LParen? {
      ExprFaithful(s, i + 1, LOWEST);
      ParenFaithful(s, i, ParseExpr(s, i + 1, LOWEST), ParsePrefix(s, i));
    } else {
      ExprFaithful(s, i + 1, PREFIX);
      NegFaithful(s, i, ParseExpr(s, i + 1, PREFIX));
    }
  }

  lemma ParenFaithful(s: Stream, i: nat, x: Parsed, r: Parsed)
    requires i < |s.tokens| && At(s, i) == LParen && i < x.pos && x.pos < |s.tokens| + 1 && Faithful(s, i + 1, x)
    requires r == if !x.err.NoError? then Parsed(Nil, x.err, x.pos)
                  else if !At(s, x.pos + 1).RParen? then Parsed(Nil, Expected(At(s, x.pos + 1), RParen), x.pos + 1)
                  else Parsed(Paren(x.expr), NoError, x.pos + 1)
    ensures Faithful(s, i, r) && (!HasNil(r.expr) ==> !r.expr.Binary?)
  {
    hide Here;
    HereOne(s, i, LParen);
    HereOne(s, x.pos + 1, RParen);
    HereSplit(s, i, [LParen], Tokens(x.expr));
    HereSplit(s, i, [LParen] + Tokens(x.expr), [RParen]);
  }

  lemma NegFaithful(s: Stream, i: nat, x: Parsed)
    requires i < |s.tokens| && At(s, i) == Op(Sub) && i < x.pos + 1 && Faithful(s, i + 1, x)
    requires !HasNil(x.expr) ==> Level(x.expr) > PREFIX
    ensures Faithful(s, i, Parsed(Neg(x.expr), x.err, x.pos))
  {
    hide Here;
    HereOne(s, i, Op(Sub));
    HereSplit(s, i, [Op(Sub)], Tokens(x.expr));
  }

  lemma {:induction false} OperatorsFaithful(s: Stream, i: nat, p: Parsed, precedence: nat)
    requires Proper(s) && i <= p.pos <= |s.tokens| && (p.err.NoError? ==> p.pos < |s.tokens|)
    requires Faithful(s, i, p)
    requires !HasNil(p.expr) && precedence <= PREFIX ==> Level(p.expr) > precedence
    ensures var r := ParseOperators(s, p.expr, p.err, p.pos, precedence);
      Faithful(s, i, r) && (!HasNil(r.expr) && precedence <= PREFIX ==>
        Level(r.expr) > precedence && TokenPrecedence(At(s, r.pos + 1)) <= precedence)
    decreases |s.tokens| - p.pos, 0
  {
    hide Faithful, Here, Tokens, Leveled, ParseExpr;
    var next := At(s, p.pos + 1);
    if next.Op? && precedence < Precedence(next.op) {
      ExprFaithful(s, p.pos + 2, Precedence(next.op));
      var right := ParseExpr(s, p.pos + 2, Precedence(next.op));
      var b := Parsed(Binary(next.op, p.expr, right.expr), right.err, right.pos);
      BinaryFaithful(s, i, p, next.op, right);
      OperatorsFaithful(s, i, b, precedence);
    }
  }

  lemma BinaryFaithful(s: Stream, i: nat, p: Parsed, op: Operator, right: Parsed)
    requires Faithful(s, i, p) && Faithful(s, p.pos + 2, right)
    requires i <= p.pos && p.pos + 1 < |s.tokens| && At(s, p.pos + 1) == Op(op)
    requires !HasNil(right.expr) ==>
      Level(right.expr) > Precedence(op) && TokenPrecedence(At(s, right.pos + 1)) <= Precedence(op)
    ensures Faithful(s, i, Parsed(Binary(op, p.expr, right.expr), right.err, right.pos))
  {
    hide Here;
    var l, r := Tokens(p.expr), Tokens(right.expr);
    HereOne(s, p.pos + 1, Op(op));
    HereSplit(s, i, l, [Op(op)]);
    HereSplit(s, i, l + [Op(op)], r);
  }

  /** A tree without missing parts is returned without error exactly for the tokens of a tree of the
      grammar, which is that tree, followed by the end of input. */
  lemma AcceptsExactlyTrees(s: Stream, e: Expr)
    requires Proper(s)
    ensures ParseConst(s) == (e, NoError) && !HasNil(e) <==> s == Stream(Tokens(e), false) && IsSum(e)
  {
    GrammarIsLevels(e);
    if s == Stream(Tokens(e), false) && IsSum(e) {
      LeveledRoundTrip(e);
      LeveledHasNoNil(e);
    }
    if ParseConst(s) == (e, NoError) && !HasNil(e) {
      ExprFaithful(s, 0, LOWEST);
      var r := ParseExpr(s, 0, LOWEST);
      assert |s.tokens| <= r.pos + 1;
      assert s.tokens[0..0 + |s.tokens|] == s.tokens;
    }
  }

  lemma {:induction false} LeveledHasNoNil(e: Expr)
    requires Leveled(e)
    ensures !HasNil(e)
    decreases e
  {
    match e
    case Name(_) =>
    case Lit(_, _) =>
    case Paren(x) => LeveledHasNoNil(x);
    case Neg(x) => LeveledHasNoNil(x);
    case Binary(_, l, r) =>
      LeveledHasNoNil(l);
      LeveledHasNoNil(r);
  }
}
