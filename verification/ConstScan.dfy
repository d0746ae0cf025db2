/** Which inputs the constant parser accepts, as a scan of the tokens with a depth counter.

    The operator loop overwrites the error of the operand before it (tinygo/cgo/const.go:75-83), so an
    input with a bad operand is still accepted when an operator follows it. The scan makes that
    recovery explicit. */
module ConstScan {
  import opened ConstSyntax
  import ConstParser

  /** What the scan is looking for: the operand that begins the input or a parenthesis, an operand
      after an operator or a minus, or what follows an operand. */
  datatype Mode = First | Operand | Follow

  /** Clean: accepted. Recovered: accepted although an operand or parenthesis was bad. */
  datatype Verdict = Clean | Recovered | Rejected

  /** Scan from token `i` with `depth` open parentheses. */
  function Scan(s: Stream, i: nat, depth: nat, mode: Mode, dirty: bool): Verdict
    requires Proper(s) && i <= |s.tokens|
    decreases |s.tokens| - i
  {
    var t := At(s, i);
    if mode.Follow? then
      if t.Op? then Scan(s, i + 1, depth, Operand, dirty)
      else if depth == 0 then
        if !t.Eof? then Rejected else if dirty then Recovered else Clean
      else if t.RParen? then Scan(s, i + 1, depth - 1, Follow, dirty)
      else Recover(s, i, depth - 1)
    else if t.Ident? || t.Literal? then Scan(s, i + 1, depth, Follow, dirty)
    else if t.LParen? then Scan(s, i + 1, depth + 1, First, dirty)
    else if t == Op(Sub) then Scan(s, i + 1, depth, Operand, dirty)
    else if mode.Operand? then Recover(s, i, depth)
    else if depth == 0 then Rejected
    else Recover(s, i, depth - 1)
  }

  /** Token `i` is bad: go on only if an operator follows it. */
  function Recover(s: Stream, i: nat, depth: nat): Verdict
    requires Proper(s) && i <= |s.tokens|
    decreases |s.tokens| - i, 0
  {
    if At(s, i + 1).Op? then Scan(s, i + 1, depth, Follow, true) else Rejected
  }

  /** How the scan goes on after a parse result at depth `depth`. */
  function After(s: Stream, depth: nat, r: Parsed, dirty: bool): Verdict
    requires Proper(s) && r.pos <= |s.tokens| && (r.err.NoError? ==> r.pos < |s.tokens|)
  {
    if r.err.NoError? then Scan(s, r.pos + 1, depth, Follow, dirty || HasNil(r.expr))
    else Recover(s, r.pos, depth)
  }

  ghost predicate ErrorLeavesNil(r: Parsed) {
    !r.err.NoError? ==> HasNil(r.expr)
  }

  /** An operand after an operator or a minus. */
  lemma {:induction false} OperandScan(s: Stream, i: nat, precedence: nat, depth: nat, dirty: bool)
    requires Proper(s) && i <= |s.tokens|
    ensures var r := ParseExpr(s, i, precedence);
      ErrorLeavesNil(r) && Scan(s, i, depth, Operand, dirty) == After(s, depth, r, dirty)
    decreases |s.tokens| - i, 2
  {
    if i < |s.tokens| && StartsOperand(At(s, i)) {
      var p := ParsePrefix(s, i);
      PrefixScan(s, i, depth, Operand, dirty);
      OperatorsScan(s, p, precedence, depth, dirty, ParseExpr(s, i, precedence));
    }
  }

  /** The operand at the start of the input or of a parenthesis. */
  lemma {:induction false} FirstScan(s: Stream, i: nat, depth: nat, dirty: bool)
    requires Proper(s) && i <= |s.tokens|
    ensures var r := ParseExpr(s, i, LOWEST);
      && ErrorLeavesNil(r) && (r.err.NoError? ==> !At(s, r.pos + 1).Op?)
      && Scan(s, i, depth, First, dirty) ==
           if r.err.NoError? then After(s, depth, r, dirty)
           else if depth == 0 then Rejected
           else Recover(s, r.pos, depth - 1)
    decreases |s.tokens| - i, 2
  {
    if i < |s.tokens| && StartsOperand(At(s, i)) {
      var p := ParsePrefix(s, i);
      PrefixScan(s, i, depth, First, dirty);
      OperatorsScan(s, p, LOWEST, depth, dirty, ParseExpr(s, i, LOWEST));
    }
  }

  lemma {:induction false} PrefixScan(s: Stream, i: nat, depth: nat, mode: Mode, dirty: bool)
    requires Proper(s) && i < |s.tokens| && StartsOperand(At(s, i)) && !mode.Follow?
    ensures var r := ParsePrefix(s, i);
      ErrorLeavesNil(r) && Scan(s, i, depth, mode, dirty) == After(s, depth, r, dirty)
    decreases |s.tokens| - i, 1
  {
    if At(s, i).LParen? {
      FirstScan(s, i + 1, depth + 1, dirty);
    } else if At(s, i).Op? {
      OperandScan(s, i + 1, PREFIX, depth, dirty);
    }
  }

  lemma AfterOperator(s: Stream, p: Parsed, op: Operator, right: Parsed, depth: nat, dirty: bool)
    requires Proper(s) && p.pos + 1 < |s.tokens| && At(s, p.pos + 1) == Op(op)
    requires right.pos <= |s.tokens| && (right.err.NoError? ==> right.pos < |s.tokens|)
    requires ErrorLeavesNil(p)
    requires Scan(s, p.pos + 2, depth, Operand, dirty || HasNil(p.expr)) ==
      After(s, depth, right, dirty || HasNil(p.expr))
    ensures After(s, depth, p, dirty) ==
      After(s, depth, Parsed(Binary(op, p.expr, right.expr), right.err, right.pos), dirty)
  {
    assert Scan(s, p.pos + 1, depth, Follow, dirty || HasNil(p.expr)) ==
      Scan(s, p.pos + 2, depth, Operand, dirty || HasNil(p.expr));
  }

  lemma {:induction false} OperatorsScan(s: Stream, p: Parsed, precedence: nat, depth: nat, dirty: bool, r: Parsed)
    requires Proper(s) && p.pos <= |s.tokens| && (p.err.NoError? ==> p.pos < |s.tokens|) && ErrorLeavesNil(p)
    requires r == ParseOperators(s, p.expr, p.err, p.pos, precedence)
    ensures ErrorLeavesNil(r) && After(s, depth, r, dirty) == After(s, depth, p, dirty)
    ensures TokenPrecedence(At(s, r.pos + 1)) <= precedence
    decreases |s.tokens| - p.pos, 0
  {
    var next := At(s, p.pos + 1);
    if next.Op? && precedence < Precedence(next.op) {
      var right := ParseExpr(s, p.pos + 2, Precedence(next.op));
      OperandScan(s, p.pos + 2, Precedence(next.op), depth, dirty || HasNil(p.expr));
      AfterOperator(s, p, next.op, right, depth, dirty);
      OperatorsScan(s, Parsed(Binary(next.op, p.expr, right.expr), right.err, right.pos), precedence, depth, dirty, r);
    }
  }

  /** The parser returns no error exactly when the scan does not reject, and then its tree has a
      missing part exactly when the scan had to recover. */
  lemma AcceptedIffScanned(s: Stream)
    requires Proper(s)
    ensures var (e, err) := ParseConst(s);
      && (err.NoError? <==> !Scan(s, 0, 0, First, false).Rejected?)
      && (err.NoError? ==> (HasNil(e) <==> Scan(s, 0, 0, First, false).Recovered?))
  {
    FirstScan(s, 0, 0, false);
  }

  /** The parser is right about an input (no error exactly for the tokens of a tree of the grammar) if
      and only if the scan does not recover on it. */
  lemma RightIffNoRecovery(s: Stream)
    requires Proper(s)
    ensures (ParseConst(s).1.NoError? <==> exists e :: IsSum(e) && s == Stream(Tokens(e), false))
      <==> !Scan(s, 0, 0, First, false).Recovered?
  {
    AcceptedIffScanned(s);
    var (e, err) := ParseConst(s);
    ConstParser.AcceptsExactlyTrees(s, e);
    forall w | IsSum(w) && s == Stream(Tokens(w), false) ensures ParseConst(s) == (w, NoError) && !HasNil(w) {
      ConstParser.AcceptsExactlyTrees(s, w);
    }
  }

  /** `()+1` is accepted, with a tree whose left operand is missing. */
  lemma ErrorIsOverwritten()
    ensures var s := Stream([LParen, RParen, Op(Add), Literal(IntLiteral, "1")], false);
      Proper(s) && ParseConst(s) == (Binary(Add, Nil, Lit(IntLiteral, "1")), NoError)
        && Scan(s, 0, 0, First, false).Recovered?
  {
    var s := Stream([LParen, RParen, Op(Add), Literal(IntLiteral, "1")], false);
    var one := Lit(IntLiteral, "1");
    assert ParseExpr(s, 1, LOWEST) == Parsed(Nil, Unexpected(RParen), 1);
    assert ParsePrefix(s, 0) == Parsed(Nil, Unexpected(RParen), 1);
    assert ParseOperators(s, one, NoError, 3, 2) == Parsed(one, NoError, 3);
    assert ParseExpr(s, 3, 2) == Parsed(one, NoError, 3);
    assert ParseOperators(s, Binary(Add, Nil, one), NoError, 3, LOWEST) == Parsed(Binary(Add, Nil, one), NoError, 3);
    AcceptedIffScanned(s);
  }
}
