/**
 * Expr::parse with the source's own operator tables on particular inputs:
 * how '=' and the prefix minus bind, which way '^' and '/' group, where a
 * function call's parentheses end, and that a number followed by a name is
 * an error. The inputs are given as the reads the lexer makes of them
 * (spaces between the tokens), except for "2x", whose reads are derived
 * from its characters.
 */
module Examples {
  import opened Common
  import opened Chars
  import opened Lexer
  import opened Expression
  import opened Parser
  import opened Grouping

  function Name(text: string): Token {
    Token(Ident, text)
  }

  function Num(text: string): Token {
    Token(Number, text)
  }

  function Sym(text: string): Token {
    Token(Op, text)
  }

  /** The value of a one-digit number. */
  lemma DigitNumber(c: char)
    requires '0' <= c <= '9'
    ensures NumberValue([c]) == (c as int - '0' as int) as real
  {
    assert DotIndex([c]) == 1 by {
      assert [c][1..] == [];
    }
    assert [c][..0] == [];
    assert DigitsValue([c]) == DigitValue(c);
  }

  /**
   * The reads of s are the tokens toks and then the end of input (stated
   * token by token, which keeps the verifier from evaluating the parser on a
   * literal stream).
   */
  predicate Reads(s: Stream, toks: seq<Token>) {
    s.tail == AtEof && |s.tokens| == |toks| && forall k :: 0 <= k < |toks| ==> s.tokens[k] == toks[k]
  }

  // ---------------------------------------------------------------------------
  // Grouping.

  /** y = x - 3: '=' is the subtraction of the lowest precedence, so this is y - (x - 3). */
  lemma Equation(s: Stream)
    requires Reads(s, [Name("y"), Sym("="), Name("x"), Sym("-"), Num("3")])
    ensures ParseStream(Tables, s) == Success(Binary(Sub, Var("y"), Binary(Sub, Var("x"), Const(3.0))))
  {
    assert Complete(s) by {
      assert IsIdentifier("y") && IsIdentifier("x") && IsNumeral("3");
    }
    GroupsRight(Tables, s);
    DigitNumber('3');
  }

  /** 2 ^ 3 ^ 2 is 2 ^ (3 ^ 2): '^' is right-associative. */
  lemma PowerGroupsRight(s: Stream)
    requires Reads(s, [Num("2"), Sym("^"), Num("3"), Sym("^"), Num("2")])
    ensures ParseStream(Tables, s) == Success(Binary(Pow, Const(2.0), Binary(Pow, Const(3.0), Const(2.0))))
  {
    assert Complete(s) by {
      assert IsNumeral("2") && IsNumeral("3");
    }
    GroupsRight(Tables, s);
    DigitNumber('2');
    DigitNumber('3');
  }

  /** 8 / 4 / 2 is (8 / 4) / 2: '/' is left-associative. */
  lemma QuotientGroupsLeft(s: Stream)
    requires Reads(s, [Num("8"), Sym("/"), Num("4"), Sym("/"), Num("2")])
    ensures ParseStream(Tables, s) == Success(Binary(Div, Binary(Div, Const(8.0), Const(4.0)), Const(2.0)))
  {
    assert Complete(s) by {
      assert IsNumeral("8") && IsNumeral("4") && IsNumeral("2");
    }
    GroupsLeft(Tables, s);
    DigitNumber('8');
    DigitNumber('4');
    DigitNumber('2');
  }

  // ---------------------------------------------------------------------------
  // Prefix operators.

  /** - 2 ^ 2 is -(2 ^ 2): '^' binds more tightly than the prefix minus. */
  lemma NegatedPower(s: Stream)
    requires Reads(s, [Sym("-"), Num("2"), Sym("^"), Num("2")])
    ensures ParseStream(Tables, s) == Success(Unary(Neg, Binary(Pow, Const(2.0), Const(2.0))))
  {
    assert Complete(s) by {
      assert IsNumeral("2");
    }
    PrefixTakesBinary(Tables, s);
    DigitNumber('2');
  }

  /** - a * b is (-a) * b: '*' binds no more tightly than the prefix minus. */
  lemma NegatedProduct(s: Stream)
    requires Reads(s, [Sym("-"), Name("a"), Sym("*"), Name("b")])
    ensures ParseStream(Tables, s) == Success(Binary(Mul, Unary(Neg, Var("a")), Var("b")))
  {
    assert Complete(s) by {
      assert IsIdentifier("a") && IsIdentifier("b");
    }
    PrefixTakesOperand(Tables, s);
  }

  /** sin - 1 is sin(-1). */
  lemma SineOfNegation(s: Stream)
    requires Reads(s, [Name("sin"), Sym("-"), Num("1")])
    ensures ParseStream(Tables, s) == Success(Unary(Sin, Unary(Neg, Const(1.0))))
  {
    assert Complete(s) by {
      assert IsIdentifier("sin") && IsNumeral("1");
    }
    NestedPrefix(Tables, s);
    DigitNumber('1');
  }

  /** sin x ^ 2 is sin(x ^ 2): without parentheses '^' binds first. */
  lemma SineOfPower(s: Stream)
    requires Reads(s, [Name("sin"), Name("x"), Sym("^"), Num("2")])
    ensures ParseStream(Tables, s) == Success(Unary(Sin, Binary(Pow, Var("x"), Const(2.0))))
  {
    assert Complete(s) by {
      assert IsIdentifier("sin") && IsIdentifier("x") && IsNumeral("2");
    }
    PrefixTakesBinary(Tables, s);
    DigitNumber('2');
  }

  /** sin ( x ) ^ 2 is (sin x) ^ 2: the parentheses are the whole argument. */
  lemma PowerOfSine(s: Stream)
    requires Reads(s, [Name("sin"), Token(LParen, "("), Name("x"), Token(RParen, ")"), Sym("^"), Num("2")])
    ensures ParseStream(Tables, s) == Success(Binary(Pow, Unary(Sin, Var("x")), Const(2.0)))
  {
    assert Complete(s) by {
      assert IsIdentifier("sin") && IsIdentifier("x") && IsNumeral("2");
    }
    CallThenBinary(Tables, s);
    DigitNumber('2');
  }

  // ---------------------------------------------------------------------------
  // From characters: "2x".

  /** The input consists of the characters of text (stated character by character, for the same reason as Reads). */
  predicate Spells(input: string, text: string) {
    |input| == |text| && forall k :: 0 <= k < |text| ==> input[k] == text[k]
  }

  /** The stream of t followed by the reads of rest. */
  function Cons(t: Token, rest: Stream): Stream {
    Stream([t] + rest.tokens, rest.tail)
  }

  /** A token starts at st, after at most one space from pos. */
  predicate SpaceThen(input: string, pos: nat, st: nat) {
    && pos <= st < |input| && !IsSpace(input[st])
    && (st == pos || (st == pos + 1 && input[pos] == ' '))
  }

  lemma {:induction false} IdentEndAt(input: string, p: nat, e: nat)
    requires p <= e <= |input| && (e == |input| || !IsIdentChar(input[e]))
    requires forall k :: p <= k < e ==> IsIdentChar(input[k])
    ensures IdentEnd(input, p) == e
    decreases e - p
  {
    if p < e {
      IdentEndAt(input, p + 1, e);
    }
  }

  lemma {:induction false} DigitsEndAt(input: string, p: nat, e: nat)
    requires p <= e <= |input| && (e == |input| || !IsDigit(input[e]))
    requires forall k :: p <= k < e ==> IsDigit(input[k])
    ensures DigitsEnd(input, p) == e
    decreases e - p
  {
    if p < e {
      DigitsEndAt(input, p + 1, e);
    }
  }

  /** A read of a letter and the identifier characters after it, up to e. */
  lemma LexName(input: string, pos: nat, st: nat, e: nat)
    requires SpaceThen(input, pos, st) && IsAlpha(input[st]) && st < e <= |input|
    requires forall k :: st < k < e ==> IsIdentChar(input[k])
    requires e == |input| || !IsIdentChar(input[e])
    ensures LexFrom(input, pos) == Cons(Name(input[st..e]), LexFrom(input, e))
  {
    IdentEndAt(input, st + 1, e);
    assert NextToken(input, pos) == Success((Name(input[st..e]), e));
  }

  /** A read of the digits from st up to e, which no digit or '.' follows. */
  lemma LexInteger(input: string, pos: nat, st: nat, e: nat)
    requires SpaceThen(input, pos, st) && st < e <= |input|
    requires forall k :: st <= k < e ==> IsDigit(input[k])
    requires e == |input| || (!IsDigit(input[e]) && input[e] != '.')
    ensures LexFrom(input, pos) == Cons(Num(input[st..e]), LexFrom(input, e))
  {
    DigitsEndAt(input, st + 1, e);
    assert NextToken(input, pos) == Success((Num(input[st..e]), e));
  }

  /** At the end of the input: no more tokens. */
  lemma LexEnd(input: string)
    ensures LexFrom(input, |input|) == Stream([], AtEof)
  {
  }

  /** "2x" is read as the number 2 and then the name x: a number ends where a letter starts. */
  lemma LexDigitLetter(input: string)
    requires Spells(input, "2x")
    ensures Lex(input) == Cons(Num("2"), Cons(Name("x"), Stream([], AtEof)))
  {
    LexEnd(input);
    LexName(input, 1, 1, 2);
    assert input[1..2] == "x";
    LexInteger(input, 0, 0, 1);
    assert input[0..1] == "2";
  }

  /** "2x" is no product: the name x is met where an operator or the end was expected. */
  lemma ImplicitProduct(input: string)
    requires Spells(input, "2x")
    ensures ParseF(input) == Failure(Unexpected(Name("x"), BinaryOperatorOrEof))
  {
    LexDigitLetter(input);
    var s := Lex(input);
    assert s.tokens == [Num("2"), Name("x")];
    Juxtaposed(Tables, s);
  }
}
