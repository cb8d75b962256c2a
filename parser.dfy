/**
 * The precedence-climbing parser of expr.cpp (parse_atom, parse_expr,
 * Expr::parse).
 *
 * The functional part parses the stream of reads that Lexer.Lex describes:
 * a position in the stream is the number of the read whose token is the
 * current one. ParseAtomF, ParseExprF and ClimbF are the specification; the
 * methods ParseAtom, ParseExpr and Parse are the source's procedures over a
 * Tokenizer object, proved to return what the specification returns.
 */
module Parser {
  import opened Common
  import opened Chars
  import opened Lexer
  import opened Expression

  /** An entry of binary_ops. */
  datatype BinaryDef = BinaryDef(op: BinaryOp, prec: nat, rassoc: bool)

  /** An entry of unary_ops; `funcall` marks the names that may take a parenthesized argument. */
  datatype UnaryDef = UnaryDef(op: UnaryOp, prec: nat, funcall: bool)

  /** "=" is a subtraction of the lowest precedence: `lhs = rhs` becomes lhs - rhs. */
  const BinaryOps: map<string, BinaryDef> := map[
    "=" := BinaryDef(Sub, 0, false),
    "+" := BinaryDef(Add, 1, false),
    "-" := BinaryDef(Sub, 1, false),
    "*" := BinaryDef(Mul, 2, false),
    "/" := BinaryDef(Div, 2, false),
    "^" := BinaryDef(Pow, 3, true)]

  const UnaryOps: map<string, UnaryDef> := map[
    "-" := UnaryDef(Neg, 2, false),
    "sin" := UnaryDef(Sin, 2, true),
    "cos" := UnaryDef(Cos, 2, true),
    "ln" := UnaryDef(Ln, 2, true),
    "exp" := UnaryDef(Exp, 2, true),
    "sqrt" := UnaryDef(Sqrt, 2, true)]

  /**
   * The two operator tables. The grammar below is written against any pair
   * of tables and applied to the source's own, Tables.
   */
  datatype Grammar = Grammar(binary: map<string, BinaryDef>, unary: map<string, UnaryDef>)

  const Tables := Grammar(BinaryOps, UnaryOps)

  // ---------------------------------------------------------------------------
  // std::stod on the text of a number token, as an exact decimal value.

  function DigitValue(c: char): nat {
    if IsDigit(c) then c as int - '0' as int else 0
  }

  function DigitsValue(s: string): nat {
    if s == [] then 0 else 10 * DigitsValue(s[..|s| - 1]) + DigitValue(s[|s| - 1])
  }

  function Pow10(n: nat): (r: nat)
    ensures r >= 1
  {
    if n == 0 then 1 else 10 * Pow10(n - 1)
  }

  /** The index of the first '.', or |s| when there is none. */
  function DotIndex(s: string): (k: nat)
    ensures k <= |s|
    ensures k < |s| ==> s[k] == '.'
    ensures forall j :: 0 <= j < k ==> s[j] != '.'
  {
    if s == [] || s[0] == '.' then 0 else 1 + DotIndex(s[1..])
  }

  /** The value of the digits after the '.': d1 d2 ... dn is d1d2...dn / 10^n. */
  function Fraction(digits: string): (v: real)
    ensures v >= 0.0
  {
    DigitsValue(digits) as real / Pow10(|digits|) as real
  }

  /** The digits before the '.' are the integer part, those after it the fraction. */
  function NumberValue(text: string): (v: real)
    ensures v >= 0.0
  {
    var k := DotIndex(text);
    if k == |text| then DigitsValue(text) as real
    else DigitsValue(text[..k]) as real + Fraction(text[k + 1..])
  }

  /** Without a '.', DotIndex reaches the end; a '.' appended is then found there. */
  lemma {:induction false} DotIndexAfter(t: string)
    requires forall j :: 0 <= j < |t| ==> t[j] != '.'
    ensures DotIndex(t) == |t| && DotIndex(t + ".") == |t|
  {
    if t != [] {
      assert (t + ".")[1..] == t[1..] + ".";
      DotIndexAfter(t[1..]);
    }
  }

  /** A number whose only '.' is its last character has the value of the digits before it. */
  lemma TrailingDotValue(text: string)
    requires |text| > 0 && DotIndex(text) == |text| - 1
    ensures NumberValue(text) == DigitsValue(text[..|text| - 1]) as real
  {
    var fraction := text[|text|..];
    assert fraction == [];
    assert Fraction(fraction) == 0.0;
  }

  /** A number written with a trailing '.' has the value of its digits. */
  lemma TrailingDotIgnored(t: string)
    requires forall j :: 0 <= j < |t| ==> t[j] != '.'
    ensures NumberValue(t + ".") == NumberValue(t) == DigitsValue(t) as real
  {
    DotIndexAfter(t);
    TrailingDotValue(t + ".");
    assert (t + ".")[..|t|] == t;
  }

  // ---------------------------------------------------------------------------
  // The grammar, over the stream of reads.

  /** The precedence at which the right operand of op is parsed. */
  function RightPrec(op: BinaryDef): nat {
    if op.rassoc then op.prec else op.prec + 1
  }

  /** The current token starts a prefix operator. */
  predicate StartsUnary(g: Grammar, t: Token) {
    (t.kind == Op || t.kind == Ident) && t.text in g.unary
  }

  /** The current token is a binary operator that binds at least as tightly as minPrec. */
  predicate Continues(g: Grammar, t: Token, minPrec: nat) {
    t.kind == Op && t.text in g.binary && g.binary[t.text].prec >= minPrec
  }

  /**
   * The trees the parser builds: constants are non-negative (a minus sign is
   * a Neg node), and variable names are identifiers other than the names of
   * the prefix operators.
   */
  predicate ParsedTree(g: Grammar, e: Expr) {
    match e
    case Const(v) => v >= 0.0
    case Var(name) => IsIdentifier(name) && name !in g.unary
    case Binary(_, l, r) => ParsedTree(g, l) && ParsedTree(g, r)
    case Unary(_, a) => ParsedTree(g, a)
  }

  /** A tree and the index of the read after it. */
  datatype Parsed = Parsed(expr: Expr, next: nat)

  /** parse_atom, with the current token the one of read i. */
  function ParseAtomF(g: Grammar, s: Stream, i: nat): (r: Result<Parsed, ParseError>)
    requires WellLexed(s) && Readable(s, i)
    ensures r.Success? ==> i < r.value.next && Readable(s, r.value.next) && ParsedTree(g, r.value.expr)
    decreases |s.tokens| - i, 0, 1
  {
    var t := At(s, i);
    if StartsUnary(g, t) then ParseUnaryF(g, s, i, g.unary[t.text])
    else if t.kind == LParen then ParseGroupF(g, s, i)
    else if t.kind == Ident then
      var j :- Advance(s, i);
      Success(Parsed(Var(t.text), j))
    else if t.kind == Number then
      var j :- Advance(s, i);
      Success(Parsed(Const(NumberValue(t.text)), j))
    else
      Failure(Unexpected(t, Operand))
  }

  /** The prefix operator op at read i and its operand. */
  function ParseUnaryF(g: Grammar, s: Stream, i: nat, op: UnaryDef): (r: Result<Parsed, ParseError>)
    requires WellLexed(s) && Readable(s, i) && StartsUnary(g, At(s, i))
    ensures r.Success? ==> i < r.value.next && Readable(s, r.value.next) && ParsedTree(g, r.value.expr)
    decreases |s.tokens| - i, 0, 0
  {
    var j :- Advance(s, i);
    ParseOperandF(g, s, j, op)
  }

  /**
   * The operand of the prefix operator op, from read j: an atom when op is a
   * function name followed by '(', and otherwise the expression of the
   * operators that bind more tightly than op does.
   */
  function ParseOperandF(g: Grammar, s: Stream, j: nat, op: UnaryDef): (r: Result<Parsed, ParseError>)
    requires WellLexed(s) && Readable(s, j)
    ensures r.Success? ==> j < r.value.next && Readable(s, r.value.next) && ParsedTree(g, r.value.expr)
    decreases |s.tokens| - j, 3, 0
  {
    if op.funcall && At(s, j).kind == LParen then
      var a :- ParseAtomF(g, s, j);
      Success(Parsed(Unary(op.op, a.expr), a.next))
    else
      var a :- ParseExprF(g, s, j, op.prec + 1);
      Success(Parsed(Unary(op.op, a.expr), a.next))
  }

  /** A parenthesized expression: '(', an expression at the lowest precedence, ')'. */
  function ParseGroupF(g: Grammar, s: Stream, i: nat): (r: Result<Parsed, ParseError>)
    requires WellLexed(s) && Readable(s, i) && At(s, i).kind == LParen
    ensures r.Success? ==> i < r.value.next && Readable(s, r.value.next) && ParsedTree(g, r.value.expr)
    decreases |s.tokens| - i, 0, 0
  {
    var j :- Advance(s, i);
    var a :- ParseExprF(g, s, j, 0);
    if At(s, a.next).kind != RParen then Failure(Unexpected(At(s, a.next), RightParenthesis))
    else
      var k :- Advance(s, a.next);
      Success(Parsed(a.expr, k))
  }

  /** parse_expr: an atom, then the binary operators that bind at least as tightly as minPrec. */
  function ParseExprF(g: Grammar, s: Stream, i: nat, minPrec: nat): (r: Result<Parsed, ParseError>)
    requires WellLexed(s) && Readable(s, i)
    ensures r.Success? ==> i < r.value.next && Readable(s, r.value.next) && ParsedTree(g, r.value.expr)
    ensures r.Success? ==> !Continues(g, At(s, r.value.next), minPrec)
    decreases |s.tokens| - i, 2, 0
  {
    var a :- ParseAtomF(g, s, i);
    ClimbF(g, s, a.expr, a.next, minPrec)
  }

  /**
   * The loop of parse_expr from read j with the tree lhs built so far: the
   * right operand of an operator of precedence p is parsed at p for a
   * right-associative operator and at p + 1 otherwise.
   */
  function ClimbF(g: Grammar, s: Stream, lhs: Expr, j: nat, minPrec: nat): (r: Result<Parsed, ParseError>)
    requires WellLexed(s) && Readable(s, j) && ParsedTree(g, lhs)
    ensures r.Success? ==> j <= r.value.next && Readable(s, r.value.next) && ParsedTree(g, r.value.expr)
    ensures r.Success? ==> !Continues(g, At(s, r.value.next), minPrec)
    decreases |s.tokens| - j, 1, 0
  {
    var t := At(s, j);
    if Continues(g, t, minPrec) then
      var op := g.binary[t.text];
      var k :- Advance(s, j);
      var rhs :- ParseExprF(g, s, k, RightPrec(op));
      ClimbF(g, s, Binary(op.op, lhs, rhs.expr), rhs.next, minPrec)
    else
      Success(Parsed(lhs, j))
  }

  /**
   * Expr::parse over a stream: the first read, an expression, and then the end
   * of input. A parse succeeds only when the lexer met no error and the
   * expression took every token.
   */
  function ParseStream(g: Grammar, s: Stream): (r: Result<Expr, ParseError>)
    requires WellLexed(s)
    ensures r.Success? ==> s.tail.AtEof? && ParsedTree(g, r.value)
    ensures r.Success? ==> ParseExprF(g, s, 0, 0) == Success(Parsed(r.value, |s.tokens|))
  {
    if !Readable(s, 0) then Failure(s.tail.error)
    else
      var p :- ParseExprF(g, s, 0, 0);
      if At(s, p.next).kind != Eof then Failure(Unexpected(At(s, p.next), BinaryOperatorOrEof))
      else Success(p.expr)
  }

  /** Expr::parse */
  function ParseF(input: string): Result<Expr, ParseError> {
    ParseStream(Tables, Lex(input))
  }

  // ---------------------------------------------------------------------------
  // The source's procedures over the tokenizer.

  /** The result of a parse function without the position. */
  function Project(r: Result<Parsed, ParseError>): Result<Expr, ParseError> {
    match r
    case Success(p) => Success(p.expr)
    case Failure(e) => Failure(e)
  }

  /** parse_atom */
  method ParseAtom(tokens: Tokenizer, g: Grammar) returns (r: Result<Expr, ParseError>)
    requires tokens.Valid() && tokens.index >= 0
    modifies tokens
    ensures r == Project(ParseAtomF(g, tokens.stream, old(tokens.index)))
    ensures r.Success? ==> tokens.Valid() && tokens.index == ParseAtomF(g, tokens.stream, old(tokens.index)).value.next
    decreases |tokens.stream.tokens| - tokens.index, 0, 1
  {
    var t := tokens.token;
    if (t.kind == Op || t.kind == Ident) && t.text in g.unary {
      r := ParseUnary(tokens, g, g.unary[t.text]);
    } else if t.kind == LParen {
      r := ParseGroup(tokens, g);
    } else if t.kind == Ident {
      var x := Var(t.text);
      :- tokens.Read();
      return Success(x);
    } else if t.kind == Number {
      var x := Const(NumberValue(t.text));
      :- tokens.Read();
      return Success(x);
    } else {
      return Failure(Unexpected(t, Operand));
    }
  }

  /** The branch of parse_atom for the prefix operator op and its operand. */
  method ParseUnary(tokens: Tokenizer, g: Grammar, op: UnaryDef) returns (r: Result<Expr, ParseError>)
    requires tokens.Valid() && tokens.index >= 0 && StartsUnary(g, tokens.token)
    modifies tokens
    ensures r == Project(ParseUnaryF(g, tokens.stream, old(tokens.index), op))
    ensures r.Success? ==> tokens.Valid() && tokens.index == ParseUnaryF(g, tokens.stream, old(tokens.index), op).value.next
    decreases |tokens.stream.tokens| - tokens.index, 0, 0
  {
    var read := tokens.Read();
    if read.Fail? {
      return Failure(read.error);
    }
    r := ParseOperand(tokens, g, op);
  }

  /** The operand of the prefix operator op, and the tree that applies op to it. */
  method ParseOperand(tokens: Tokenizer, g: Grammar, op: UnaryDef) returns (r: Result<Expr, ParseError>)
    requires tokens.Valid() && tokens.index >= 0
    modifies tokens
    ensures r == Project(ParseOperandF(g, tokens.stream, old(tokens.index), op))
    ensures r.Success? ==> tokens.Valid() && tokens.index == ParseOperandF(g, tokens.stream, old(tokens.index), op).value.next
    decreases |tokens.stream.tokens| - tokens.index, 3, 0
  {
    var expr;
    if op.funcall && tokens.token.kind == LParen {
      expr :- ParseAtom(tokens, g);
    } else {
      expr :- ParseExpr(tokens, g, op.prec + 1);
    }
    return Success(Unary(op.op, expr));
  }

  /** The branch of parse_atom for a parenthesized expression. */
  method ParseGroup(tokens: Tokenizer, g: Grammar) returns (r: Result<Expr, ParseError>)
    requires tokens.Valid() && tokens.index >= 0 && tokens.token.kind == LParen
    modifies tokens
    ensures r == Project(ParseGroupF(g, tokens.stream, old(tokens.index)))
    ensures r.Success? ==> tokens.Valid() && tokens.index == ParseGroupF(g, tokens.stream, old(tokens.index)).value.next
    decreases |tokens.stream.tokens| - tokens.index, 0, 0
  {
    ghost var s := tokens.stream;
    ghost var i := tokens.index;
    assert !Readable(s, i + 1) ==> ParseGroupF(g, s, i) == Failure(s.tail.error);
    :- tokens.Read();
    assert tokens.index == i + 1;
    var expr :- ParseExpr(tokens, g, 0);
    if tokens.token.kind != RParen {
      return Failure(Unexpected(tokens.token, RightParenthesis));
    }
    :- tokens.Read();
    return Success(expr);
  }

  /** parse_expr: the loop reassigns lhs while binary operators follow. */
  method ParseExpr(tokens: Tokenizer, g: Grammar, minPrec: nat) returns (r: Result<Expr, ParseError>)
    requires tokens.Valid() && tokens.index >= 0
    modifies tokens
    ensures r == Project(ParseExprF(g, tokens.stream, old(tokens.index), minPrec))
    ensures r.Success? ==> tokens.Valid() && tokens.index == ParseExprF(g, tokens.stream, old(tokens.index), minPrec).value.next
    decreases |tokens.stream.tokens| - tokens.index, 2, 0
  {
    ghost var s := tokens.stream;
    ghost var i := tokens.index;
    var lhs :- ParseAtom(tokens, g);
    while tokens.token.kind == Op && tokens.token.text in g.binary && g.binary[tokens.token.text].prec >= minPrec
      invariant tokens.Valid() && i < tokens.index
      invariant ParsedTree(g, lhs)
      invariant ClimbF(g, s, lhs, tokens.index, minPrec) == ParseExprF(g, s, i, minPrec)
      decreases |s.tokens| - tokens.index
    {
      lhs :- ParseOperation(tokens, g, lhs, minPrec);
    }
    return Success(lhs);
  }

  /**
   * The body of the loop of parse_expr: the operator, its right operand, and
   * the tree that combines them with lhs.
   */
  method ParseOperation(tokens: Tokenizer, g: Grammar, lhs: Expr, minPrec: nat) returns (r: Result<Expr, ParseError>)
    requires tokens.Valid() && tokens.index >= 0 && ParsedTree(g, lhs)
    requires Continues(g, tokens.token, minPrec)
    modifies tokens
    ensures r.Failure? ==> ClimbF(g, tokens.stream, lhs, old(tokens.index), minPrec) == Failure(r.error)
    ensures r.Success? ==> tokens.Valid() && old(tokens.index) < tokens.index && ParsedTree(g, r.value)
    ensures r.Success? ==>
      ClimbF(g, tokens.stream, lhs, old(tokens.index), minPrec) == ClimbF(g, tokens.stream, r.value, tokens.index, minPrec)
    decreases |tokens.stream.tokens| - tokens.index, 1, 0
  {
    ghost var s := tokens.stream;
    ghost var j := tokens.index;
    var op := g.binary[tokens.token.text];
    assert !Readable(s, j + 1) ==> ClimbF(g, s, lhs, j, minPrec) == Failure(s.tail.error);
    :- tokens.Read();
    assert tokens.index == j + 1;
    var rhs :- ParseExpr(tokens, g, RightPrec(op));
    return Success(Binary(op.op, lhs, rhs));
  }

  /** Expr::parse */
  method Parse(input: string) returns (r: Result<Expr, ParseError>)
    ensures r == ParseF(input)
  {
    var tokens := new Tokenizer(input);
    assert tokens.stream == Lex(input);
    :- tokens.Read();
    var expr :- ParseExpr(tokens, Tables, 0);
    if tokens.token.kind != Eof {
      return Failure(Unexpected(tokens.token, BinaryOperatorOrEof));
    }
    return Success(expr);
  }
}
