/** C constant expressions: tokens, trees, and the precedence parser as a function of the token
    stream and the position of the current token. */
module ConstSyntax {
  datatype Operator = Add | Sub | Mul | Quo | Rem
  datatype LiteralKind = IntLiteral | FloatLiteral | StringLiteral | CharLiteral
  datatype Token =
    | Eof
    | Illegal
    | Ident(value: string)
    | Literal(kind: LiteralKind, value: string)
    | LParen
    | RParen
    | Op(op: Operator)

  /** What the tokenizer delivers: proper tokens, and then one token forever, which is the end of
      the input or an illegal character that is never consumed. */
  datatype Stream = Stream(tokens: seq<Token>, illegal: bool)

  ghost predicate Proper(s: Stream) {
    forall i :: 0 <= i < |s.tokens| ==> s.tokens[i] != Eof && s.tokens[i] != Illegal
  }

  function Ending(s: Stream): Token {
    if s.illegal then Illegal else Eof
  }

  function At(s: Stream, i: nat): Token {
    if i < |s.tokens| then s.tokens[i] else Ending(s)
  }

  /** Nil stands for a missing tree: the nil interface value of the source. */
  datatype Expr =
    | Nil
    | Name(name: string)
    | Lit(kind: LiteralKind, value: string)
    | Paren(x: Expr)
    | Neg(x: Expr)
    | Binary(op: Operator, left: Expr, right: Expr)

  datatype Error =
    | NoError
    | EmptyConstant
    | Unexpected(token: Token)
    | Expected(token: Token, expected: Token)
    | ExpectedEnd(token: Token)

  datatype Parsed = Parsed(expr: Expr, err: Error, pos: nat)

  const LOWEST: nat := 1
  const PREFIX: nat := 4

  function Precedence(op: Operator): nat {
    match op
    case Add | Sub => 2
    case Mul | Quo | Rem => 3
  }

  /** The precedence table: 0 for tokens that are not operators. */
  function TokenPrecedence(t: Token): nat {
    if t.Op? then Precedence(t.op) else 0
  }

  predicate StartsOperand(t: Token) {
    t.Ident? || t.Literal? || t.LParen? || t == Op(Sub)
  }

  // ---------------------------------------------------------------------------
  // The parser

  function ParseExpr(s: Stream, i: nat, precedence: nat): (r: Parsed)
    requires Proper(s) && i <= |s.tokens|
    ensures i <= r.pos <= |s.tokens| && (r.err.NoError? ==> r.pos < |s.tokens|)
    decreases |s.tokens| - i, 2
  {
    if At(s, i).Eof? then Parsed(Nil, EmptyConstant, i)
    else if !StartsOperand(At(s, i)) then Parsed(Nil, Unexpected(At(s, i)), i)
    else
      var p := ParsePrefix(s, i);
      ParseOperators(s, p.expr, p.err, p.pos, precedence)
  }

  function ParsePrefix(s: Stream, i: nat): (r: Parsed)
    requires Proper(s) && i < |s.tokens| && StartsOperand(At(s, i))
    ensures i <= r.pos <= |s.tokens| && (r.err.NoError? ==> r.pos < |s.tokens|)
    decreases |s.tokens| - i, 1
  {
    var t := At(s, i);
    if t.Ident? then Parsed(Name("C." + t.value), NoError, i)
    else if t.Literal? then Parsed(Lit(t.kind, t.value), NoError, i)
    else if t.LParen? then
      var x := ParseExpr(s, i + 1, LOWEST);
      if !x.err.NoError? then Parsed(Nil, x.err, x.pos)
      else if !At(s, x.pos + 1).RParen? then Parsed(Nil, Expected(At(s, x.pos + 1), RParen), x.pos + 1)
      else Parsed(Paren(x.expr), NoError, x.pos + 1)
    else
      var x := ParseExpr(s, i + 1, PREFIX);
      Parsed(Neg(x.expr), x.err, x.pos)
  }

  /** The operator loop after an operand that ends at `j`. */
  function ParseOperators(s: Stream, left: Expr, err: Error, j: nat, precedence: nat): (r: Parsed)
    requires Proper(s) && j <= |s.tokens| && (err.NoError? ==> j < |s.tokens|)
    ensures j <= r.pos <= |s.tokens| && (r.err.NoError? ==> r.pos < |s.tokens|)
    decreases |s.tokens| - j, 0
  {
    var next := At(s, j + 1);
    if next.Op? && precedence < Precedence(next.op) then
      var right := ParseExpr(s, j + 2, Precedence(next.op));
      ParseOperators(s, Binary(next.op, left, right.expr), right.err, right.pos, precedence)
    else
      Parsed(left, err, j)
  }

  /** The whole input must be consumed. */
  function ParseConst(s: Stream): (Expr, Error)
    requires Proper(s)
  {
    var r := ParseExpr(s, 0, LOWEST);
    var next := At(s, r.pos + 1);
    if !next.Eof? then (Nil, ExpectedEnd(next)) else (r.expr, r.err)
  }

  // ---------------------------------------------------------------------------
  // Trees and their tokens

  /** How tightly the root of a tree binds. */
  function Level(e: Expr): nat {
    if e.Binary? then Precedence(e.op) else PREFIX + 1
  }

  // The grammar of constants: a sum of terms, a term of factors, and a factor with prefix minus or
  // parentheses. Sums and terms group to the left.

  ghost predicate IsSum(e: Expr)
    decreases e, 2
  {
    IsTerm(e) || (e.Binary? && (e.op == Add || e.op == Sub) && IsSum(e.left) && IsTerm(e.right))
  }

  ghost predicate IsTerm(e: Expr)
    decreases e, 1
  {
    IsFactor(e) || (e.Binary? && (e.op == Mul || e.op == Quo || e.op == Rem) && IsTerm(e.left) && IsFactor(e.right))
  }

  ghost predicate IsFactor(e: Expr)
    decreases e, 0
  {
    match e
    case Name(name) => |name| >= 2 && name[..2] == "C."
    case Lit(_, _) => true
    case Paren(x) => IsSum(x)
    case Neg(x) => IsFactor(x)
    case _ => false
  }

  /** The same with numbers: parentheses wherever precedence or left associativity needs them. */
  ghost predicate Leveled(e: Expr) {
    match e
    case Nil => false
    case Name(name) => |name| >= 2 && name[..2] == "C."
    case Lit(_, _) => true
    case Paren(x) => Leveled(x)
    case Neg(x) => Leveled(x) && Level(x) > PREFIX
    case Binary(op, l, r) => Leveled(l) && Leveled(r) && Level(l) >= Precedence(op) && Level(r) > Precedence(op)
  }

  function Tokens(e: Expr): seq<Token> {
    match e
    case Nil => []
    case Name(name) => [Ident(if |name| >= 2 then name[2..] else name)]
    case Lit(kind, value) => [Literal(kind, value)]
    case Paren(x) => [LParen] + Tokens(x) + [RParen]
    case Neg(x) => [Op(Sub)] + Tokens(x)
    case Binary(op, l, r) => Tokens(l) + [Op(op)] + Tokens(r)
  }

  predicate HasNil(e: Expr) {
    match e
    case Nil => true
    case Name(_) => false
    case Lit(_, _) => false
    case Paren(x) => HasNil(x)
    case Neg(x) => HasNil(x)
    case Binary(_, l, r) => HasNil(l) || HasNil(r)
  }

  /** The given tokens stand at position `i`. */
  ghost predicate Here(s: Stream, i: nat, ts: seq<Token>) {
    i + |ts| <= |s.tokens| && s.tokens[i..i + |ts|] == ts
  }

  lemma HereSplit(s: Stream, i: nat, a: seq<Token>, b: seq<Token>)
    ensures Here(s, i, a + b) <==> Here(s, i, a) && Here(s, i + |a|, b)
  {
    if i + |a| + |b| <= |s.tokens| {
      var t := s.tokens[i..i + |a| + |b|];
      assert t == s.tokens[i..i + |a|] + s.tokens[i + |a|..i + |a| + |b|];
      assert t[..|a|] == s.tokens[i..i + |a|] && t[|a|..] == s.tokens[i + |a|..i + |a| + |b|];
      assert (a + b)[..|a|] == a && (a + b)[|a|..] == b;
    }
  }

  lemma HereOne(s: Stream, i: nat, t: Token)
    ensures Here(s, i, [t]) <==> i < |s.tokens| && s.tokens[i] == t
  {
    if i < |s.tokens| {
      assert s.tokens[i..i + 1] == [s.tokens[i]];
    }
  }
}
