/** The tokenizer with one token of lookahead and the parse functions that drive it. */
module ConstTokenizer {
  import opened ConstSyntax
  import ConstParser

  /** The proper tokens from position `k` on. */
  ghost function Rest(s: Stream, k: nat): seq<Token> {
    if k <= |s.tokens| then s.tokens[k..] else []
  }

  lemma RestNext(s: Stream, k: nat)
    ensures |Rest(s, k)| == 0 ==> At(s, k) == Ending(s) && Rest(s, k + 1) == []
    ensures |Rest(s, k)| > 0 ==> Rest(s, k)[0] == At(s, k) && Rest(s, k)[1..] == Rest(s, k + 1)
    ensures Rest(s, 0) == s.tokens
  {
  }

  class Tokenizer {
    ghost const stream: Stream
    ghost var pos: int
    const ending: Token
    var curToken: Token
    var peekToken: Token
    var buf: seq<Token>

    /** The fields show the stream around the current position. */
    ghost predicate Valid()
      reads this
    {
      && Proper(stream) && ending == Ending(stream)
      && 0 <= pos && curToken == At(stream, pos) && Ahead()
    }

    ghost predicate Ahead()
      reads this
    {
      && -1 <= pos && peekToken == At(stream, pos + 1)
      && buf == Rest(stream, pos + 2)
    }

    constructor (tokens: seq<Token>, illegal: bool)
      requires Proper(Stream(tokens, illegal))
      ensures Valid() && pos == 0 && stream == Stream(tokens, illegal)
    {
      stream := Stream(tokens, illegal);
      pos := -2;
      ending := if illegal then Illegal else Eof;
      curToken, peekToken, buf := Illegal, Illegal, tokens;
      new;
      Next();
      assert Ahead();
      Next();
    }

    method Next()
      requires ending == Ending(stream) && Proper(stream)
      requires Ahead() || (pos == -2 && buf == stream.tokens)
      modifies this
      ensures pos == old(pos) + 1 && Ahead() && curToken == old(peekToken)
    {
      hide Rest, At;
      RestNext(stream, pos + 2);
      curToken := peekToken;
      pos := pos + 1;
      if |buf| == 0 {
        peekToken := ending;
        return;
      }
      peekToken := buf[0];
      buf := buf[1..];
    }

    /** `parseConstExpr`, with the loop over operators. */
    method ParseConstExpr(precedence: nat) returns (leftExpr: Expr, err: Error)
      requires Valid() && pos <= |stream.tokens|
      modifies this
      ensures Valid() && pos >= 0 && ParseExpr(stream, old(pos), precedence) == Parsed(leftExpr, err, pos)
      decreases |stream.tokens| - pos, 2
    {
      hide ParseExpr, ParsePrefix, ParseOperators, Rest;
      ExprUnfold(stream, pos, precedence);
      if curToken == Eof {
        return Nil, EmptyConstant;
      }
      if !StartsOperand(curToken) {
        return Nil, Unexpected(curToken);
      }
      ghost var start, result := pos, ParseExpr(stream, pos, precedence);
      leftExpr, err := ParseOperand();
      while peekToken != Eof && precedence < TokenPrecedence(peekToken)
        invariant Valid() && start <= pos <= |stream.tokens| && (err.NoError? ==> pos < |stream.tokens|)
        invariant result == ParseOperators(stream, leftExpr, err, pos, precedence)
        decreases |stream.tokens| - pos
      {
        ghost var j, left, before := pos, leftExpr, err;
        Next();
        leftExpr, err := ParseBinaryExpr(leftExpr);
        OperatorUnfold(stream, left, before, j, precedence, Parsed(leftExpr, err, pos));
      }
      OperatorsEnd(stream, leftExpr, err, pos, precedence);
    }

    /** The prefix function selected by the current token. */
    method ParseOperand() returns (expr: Expr, err: Error)
      requires Valid() && pos < |stream.tokens| && StartsOperand(curToken)
      modifies this
      ensures Valid() && pos >= 0 && ParsePrefix(stream, old(pos)) == Parsed(expr, err, pos)
      decreases |stream.tokens| - pos, 1
    {
      if curToken.Ident? {
        return Name("C." + curToken.value), NoError;
      } else if curToken.Literal? {
        return Lit(curToken.kind, curToken.value), NoError;
      } else if curToken.LParen? {
        Next();
        var x;
        x, err := ParseConstExpr(LOWEST);
        if !err.NoError? {
          return Nil, err;
        }
        Next();
        if curToken != RParen {
          return Nil, Expected(curToken, RParen);
        }
        return Paren(x), NoError;
      } else {
        Next();
        var x;
        x, err := ParseConstExpr(PREFIX);
        return Neg(x), err;
      }
    }

    method ParseBinaryExpr(left: Expr) returns (expr: Expr, err: Error)
      requires Valid() && pos < |stream.tokens| && curToken.Op?
      modifies this
      ensures Valid() && pos >= 0
      ensures var op := At(stream, old(pos)).op;
        var right := ParseExpr(stream, old(pos) + 1, Precedence(op));
        Parsed(expr, err, pos) == Parsed(Binary(op, left, right.expr), right.err, right.pos)
      decreases |stream.tokens| - pos, 1
    {
      var op := curToken.op;
      Next();
      var right;
      right, err := ParseConstExpr(Precedence(op));
      return Binary(op, left, right), err;
    }
  }

  lemma ExprUnfold(s: Stream, i: nat, precedence: nat)
    requires Proper(s) && i <= |s.tokens|
    ensures var t, r := At(s, i), ParseExpr(s, i, precedence);
      if t.Eof? then r == Parsed(Nil, EmptyConstant, i)
      else if !StartsOperand(t) then r == Parsed(Nil, Unexpected(t), i)
      else i < |s.tokens| && var p := ParsePrefix(s, i); r == ParseOperators(s, p.expr, p.err, p.pos, precedence)
  {
  }

  lemma OperatorsEnd(s: Stream, left: Expr, err: Error, j: nat, precedence: nat)
    requires Proper(s) && j <= |s.tokens| && (err.NoError? ==> j < |s.tokens|)
    requires TokenPrecedence(At(s, j + 1)) <= precedence
    ensures ParseOperators(s, left, err, j, precedence) == Parsed(left, err, j)
  {
  }

  lemma OperatorUnfold(s: Stream, left: Expr, err: Error, j: nat, precedence: nat, b: Parsed)
    requires Proper(s) && j + 1 < |s.tokens| && At(s, j + 1).Op? && precedence < TokenPrecedence(At(s, j + 1))
    requires var op := At(s, j + 1).op;
      var right := ParseExpr(s, j + 2, Precedence(op));
      b == Parsed(Binary(op, left, right.expr), right.err, right.pos)
    ensures ParseOperators(s, left, err, j, precedence) == ParseOperators(s, b.expr, b.err, b.pos, precedence)
  {
  }

  /** `parseConst` on the tokens of a definition. */
  method ParseConstant(tokens: seq<Token>, illegal: bool) returns (expr: Expr, err: Error)
    requires Proper(Stream(tokens, illegal))
    ensures (expr, err) == ParseConst(Stream(tokens, illegal))
    ensures err.NoError? && !HasNil(expr) <==> IsSum(expr) && tokens == Tokens(expr) && !illegal
  {
    ghost var s := Stream(tokens, illegal);
    ConstParser.AcceptsExactlyTrees(s, ParseConst(s).0);
    var t := new Tokenizer(tokens, illegal);
    expr, err := t.ParseConstExpr(LOWEST);
    t.Next();
    if t.curToken != Eof {
      return Nil, ExpectedEnd(t.curToken);
    }
  }
}
