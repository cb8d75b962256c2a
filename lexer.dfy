/**
 * The tokenizer of expr.cpp.
 *
 * The source reads tokens lazily: the parser asks for the next token with
 * Tokenizer::read, which skips white space and then reads one identifier,
 * number, operator or parenthesis, or throws on a character it does not
 * recognise. The functional part of this module says what one read yields
 * (NextToken) and what the whole sequence of reads yields (Lex: the tokens
 * before the end of input, then either the end of input or the lexical error
 * that the next read would throw). The Tokenizer class is the source's
 * imperative reader, proved to follow that sequence read by read.
 */
module Lexer {
  import opened Common
  import opened Chars

  datatype TokenKind = Ident | Op | LParen | RParen | Number | Eof

  datatype Token = Token(kind: TokenKind, text: string)

  /** What the parser was looking for when it met an unexpected token. */
  datatype Expectation =
    | RightParenthesis
    | Operand              // identifier, number, unary operator or parenthesized expression
    | BinaryOperatorOrEof

  /** ParseError, told apart by kind; the message wording is not modelled. */
  datatype ParseError =
    | UnrecognizedSymbol(symbol: char)
    | Unexpected(found: Token, expecting: Expectation)

  const Operators: string := "=+-*/^"

  const EofToken: Token := Token(Eof, "")

  /** A character that may follow the first letter of an identifier. */
  predicate IsIdentChar(c: char) {
    IsAlnum(c) || c == '_' || c == '.'
  }

  predicate AllSpace(s: string) {
    forall k :: 0 <= k < |s| ==> IsSpace(s[k])
  }

  /** A letter followed by letters, digits, '_' or '.'. */
  predicate IsIdentifier(s: string) {
    |s| >= 1 && IsAlpha(s[0]) && forall k :: 1 <= k < |s| ==> IsIdentChar(s[k])
  }

  /** Digits, optionally followed by '.' and more digits: a digit first and at most one '.'. */
  predicate IsNumeral(s: string) {
    && |s| >= 1
    && IsDigit(s[0])
    && (forall k :: 0 <= k < |s| ==> IsDigit(s[k]) || s[k] == '.')
    && (forall k, l :: 0 <= k < l < |s| ==> !(s[k] == '.' && s[l] == '.'))
  }

  // ---------------------------------------------------------------------------
  // One read, as a function of the input and the reading position.

  /** The position after the white space that starts at pos. */
  function SkipSpace(input: string, pos: nat): (r: nat)
    requires pos <= |input|
    ensures pos <= r <= |input|
    ensures AllSpace(input[pos..r])
    ensures r == |input| || !IsSpace(input[r])
    decreases |input| - pos
  {
    if pos < |input| && IsSpace(input[pos]) then SkipSpace(input, pos + 1) else pos
  }

  /** The end of the identifier characters that start at pos. */
  function IdentEnd(input: string, pos: nat): (r: nat)
    requires pos <= |input|
    ensures pos <= r <= |input|
    ensures forall k :: pos <= k < r ==> IsIdentChar(input[k])
    ensures r == |input| || !IsIdentChar(input[r])
    decreases |input| - pos
  {
    if pos < |input| && IsIdentChar(input[pos]) then IdentEnd(input, pos + 1) else pos
  }

  /** The end of the digits that start at pos. */
  function DigitsEnd(input: string, pos: nat): (r: nat)
    requires pos <= |input|
    ensures pos <= r <= |input|
    ensures forall k :: pos <= k < r ==> IsDigit(input[k])
    ensures r == |input| || !IsDigit(input[r])
    decreases |input| - pos
  {
    if pos < |input| && IsDigit(input[pos]) then DigitsEnd(input, pos + 1) else pos
  }

  /**
   * The end of a number whose first digit is at pos - 1: more digits, then,
   * if a '.' follows, the '.' and the digits after it.
   */
  function NumberEnd(input: string, pos: nat): nat
    requires pos <= |input|
  {
    var d := DigitsEnd(input, pos);
    if d < |input| && input[d] == '.' then DigitsEnd(input, d + 1) else d
  }

  lemma NumberEndNumeral(input: string, pos: nat)
    requires 1 <= pos <= |input| && IsDigit(input[pos - 1])
    ensures pos <= NumberEnd(input, pos) <= |input|
    ensures IsNumeral(input[pos - 1..NumberEnd(input, pos)])
    ensures var e := NumberEnd(input, pos);
      e == |input| || (!IsDigit(input[e]) && (input[e] == '.' ==> '.' in input[pos - 1..e]))
  {
    var d := DigitsEnd(input, pos);
    if d < |input| && input[d] == '.' {
      assert input[d] == input[pos - 1..DigitsEnd(input, d + 1)][d - (pos - 1)];
    }
  }

  predicate StartsToken(c: char) {
    IsAlpha(c) || IsDigit(c) || c in Operators || c == '(' || c == ')'
  }

  /** The text each kind of token can have. */
  predicate TokenShape(t: Token) {
    match t.kind
    case Eof => t.text == ""
    case Ident => IsIdentifier(t.text)
    case Number => IsNumeral(t.text)
    case Op => |t.text| == 1 && t.text[0] in Operators
    case LParen => t.text == "("
    case RParen => t.text == ")"
  }

  /**
   * Tokenizer::read on the input from pos: the token read and the position
   * after it, or the error for an unrecognised first character. The contract
   * here is what the sequence of reads needs; NextTokenSpec states the rest.
   */
  function NextToken(input: string, pos: nat): (r: Result<(Token, nat), ParseError>)
    requires pos <= |input|
    ensures r.Success? ==> pos <= r.value.1 <= |input| && TokenShape(r.value.0)
    ensures r.Success? && r.value.0.kind != Eof ==> pos < r.value.1
    ensures r.Failure? ==> r.error.UnrecognizedSymbol?
  {
    var st := SkipSpace(input, pos);
    if st == |input| then Success((EofToken, st))
    else
      var c := input[st];
      if IsAlpha(c) then
        var e := IdentEnd(input, st + 1);
        assert forall k :: 1 <= k < |input[st..e]| ==> input[st..e][k] == input[st + k];
        Success((Token(Ident, input[st..e]), e))
      else if c in Operators then Success((Token(Op, [c]), st + 1))
      else if c == '(' then Success((Token(LParen, [c]), st + 1))
      else if c == ')' then Success((Token(RParen, [c]), st + 1))
      else if IsDigit(c) then
        NumberEndNumeral(input, st + 1);
        var e := NumberEnd(input, st + 1);
        Success((Token(Number, input[st..e]), e))
      else Failure(UnrecognizedSymbol(c))
  }


  /**
   * What a read yields. White space is skipped; the text of the token is the
   * input from there to the position returned; the end of input is reported
   * exactly when nothing but white space is left; the first character left
   * decides the kind of token, and a character that starts no token is the
   * error; an identifier or a number is read as far as it goes.
   */
  lemma NextTokenSpec(input: string, pos: nat)
    requires pos <= |input|
    ensures var r := NextToken(input, pos); var st := SkipSpace(input, pos);
      && (r.Success? ==> st <= r.value.1 <= |input| && r.value.0.text == input[st..r.value.1])
      && (r.Success? && r.value.0.kind != Eof ==> st < r.value.1)
      && ((r.Success? && r.value.0.kind == Eof) <==> st == |input|)
    ensures var r := NextToken(input, pos); var st := SkipSpace(input, pos);
      && (st < |input| && IsAlpha(input[st]) ==> r.Success? && r.value.0.kind == Ident)
      && (st < |input| && input[st] in Operators ==> r.Success? && r.value.0.kind == Op)
      && (st < |input| && input[st] == '(' ==> r.Success? && r.value.0.kind == LParen)
      && (st < |input| && input[st] == ')' ==> r.Success? && r.value.0.kind == RParen)
      && (st < |input| && IsDigit(input[st]) ==> r.Success? && r.value.0.kind == Number)
    ensures var r := NextToken(input, pos); var st := SkipSpace(input, pos);
      r.Failure? ==> st < |input| && !StartsToken(input[st]) && r.error == UnrecognizedSymbol(input[st])
    ensures var r := NextToken(input, pos);
      r.Success? && r.value.0.kind == Ident ==> r.value.1 == |input| || !IsIdentChar(input[r.value.1])
    ensures var r := NextToken(input, pos);
      r.Success? && r.value.0.kind == Number ==>
        var next := r.value.1;
        next == |input| || (!IsDigit(input[next]) && (input[next] == '.' ==> '.' in r.value.0.text))
  {
  }

  /** A read from pos is the read from the first non-space character after it. */
  lemma SpaceSkipped(input: string, pos: nat)
    requires pos <= |input|
    ensures SkipSpace(input, SkipSpace(input, pos)) == SkipSpace(input, pos)
    ensures NextToken(input, SkipSpace(input, pos)) == NextToken(input, pos)
  {
  }

  // ---------------------------------------------------------------------------
  // The sequence of reads.

  datatype Tail = AtEof | LexFailure(error: ParseError)

  /**
   * What successive reads yield: `tokens` (never an end-of-input token), and
   * then `tail`: end of input on every further read, or the error that the
   * next read throws.
   */
  datatype Stream = Stream(tokens: seq<Token>, tail: Tail)

  /** No token of the stream is an end of input, and each has the shape of its kind. */
  predicate WellLexed(s: Stream) {
    forall k :: 0 <= k < |s.tokens| ==> s.tokens[k].kind != Eof && TokenShape(s.tokens[k])
  }

  function LexFrom(input: string, pos: nat): (s: Stream)
    requires pos <= |input|
    ensures WellLexed(s)
    ensures s.tail.LexFailure? ==> s.tail.error.UnrecognizedSymbol?
    decreases |input| - pos
  {
    match NextToken(input, pos)
    case Failure(e) => Stream([], LexFailure(e))
    case Success((t, next)) =>
      if t.kind == Eof then Stream([], AtEof)
      else
        var rest := LexFrom(input, next);
        Stream([t] + rest.tokens, rest.tail)
  }

  function Lex(input: string): (s: Stream)
    ensures WellLexed(s)
  {
    LexFrom(input, 0)
  }

  function Min(a: int, b: int): int {
    if a <= b then a else b
  }

  /** The stream after its first n reads. */
  function Drop(s: Stream, n: nat): Stream {
    Stream(s.tokens[Min(n, |s.tokens|)..], s.tail)
  }

  /** The token of the read numbered i (from 0), which must have succeeded. */
  function At(s: Stream, i: nat): Token {
    if i < |s.tokens| then s.tokens[i] else EofToken
  }

  /** Read number i succeeds. */
  predicate Readable(s: Stream, i: int) {
    0 <= i && (i < |s.tokens| || (i == |s.tokens| && s.tail.AtEof?))
  }

  /**
   * Read number i + 1, after the token of read i that is not the end of input:
   * its index, or the error it throws.
   */
  function Advance(s: Stream, i: nat): (r: Result<nat, ParseError>)
    requires i < |s.tokens|
    ensures r.Success? <==> Readable(s, i + 1)
    ensures r.Success? ==> r.value == i + 1
    ensures r.Failure? ==> s.tail.LexFailure? && r.error == s.tail.error
  {
    if i + 1 < |s.tokens| || s.tail.AtEof? then Success(i + 1) else Failure(s.tail.error)
  }

  /**
   * If the stream from pos is what is left of s after k reads, the next read
   * gives read k of s, and what is left after it is what is left of s after
   * k + 1 reads.
   */
  lemma ReadStep(input: string, pos: nat, s: Stream, k: nat)
    requires pos <= |input| && LexFrom(input, pos) == Drop(s, k)
    ensures var n := NextToken(input, pos);
      n.Failure? ==> |s.tokens| <= k && s.tail == LexFailure(n.error)
    ensures var n := NextToken(input, pos);
      n.Success? ==> LexFrom(input, n.value.1) == Drop(s, k + 1)
    ensures var n := NextToken(input, pos);
      n.Success? && n.value.0.kind == Eof ==> |s.tokens| <= k && s.tail.AtEof? && n.value.0 == EofToken
    ensures var n := NextToken(input, pos);
      n.Success? && n.value.0.kind != Eof ==> k < |s.tokens| && s.tokens[k] == n.value.0
  {
    match NextToken(input, pos)
    case Success((t, next)) =>
      if t.kind == Eof {
        assert LexFrom(input, next) == Stream([], AtEof);
      } else {
        var rest := LexFrom(input, next);
        assert Drop(s, k).tokens == [t] + rest.tokens;
        assert s.tokens[k + 1..] == Drop(s, k).tokens[1..];
      }
    case Failure(e) =>
  }

  // ---------------------------------------------------------------------------
  // The imperative tokenizer.


  /**
   * Tokenizer: `iter` is the reading position in `input`, `token` the token of
   * the last read. The ghost field `stream` is Lex(input), and `index` numbers
   * the last read in it (-1 before the first read; a read at the end of input
   * stays at the end). The ghost field `rests` holds, for every position p of
   * the input, the reads that start at p; the reads left from `iter` are the
   * stream after the reads made so far.
   */
  class Tokenizer {
    const input: string
    var iter: nat
    var token: Token
    ghost const stream: Stream
    ghost const rests: seq<Stream>
    ghost var index: int

    ghost predicate Valid()
      reads this
    {
      var s := stream;
      && WellLexed(s)
      && iter <= |input|
      && -1 <= index <= |s.tokens|
      && (index == |s.tokens| ==> s.tail.AtEof?)
      && |rests| == |input| + 1
      && (forall p {:trigger LexFrom(input, p)} :: 0 <= p <= |input| ==> rests[p] == LexFrom(input, p))
      && rests[iter] == Drop(s, index + 1)
      && (index >= 0 ==> token == At(s, index))
    }

    constructor (input: string)
      ensures this.input == input && stream == Lex(input)
      ensures iter == 0 && index == -1 && token.text == ""
      ensures Valid()
    {
      this.input := input;
      stream := Lex(input);
      rests := seq(|input| + 1, p requires 0 <= p <= |input| => LexFrom(input, p));
      iter := 0;
      token := EofToken;
      index := -1;
      new;
      assert rests[0] == LexFrom(input, 0);
    }

    /** The character at the reading position, or NUL at the end. */
    function Get(): (c: char)
      reads this
      requires iter <= |input|
      ensures iter < |input| ==> c == input[iter]
    {
      if iter == |input| then '\0' else input[iter]
    }

    /** Append the current character to the token text and move past it. */
    method Consume()
      requires iter < |input|
      modifies this
      ensures token == old(token).(text := old(token.text) + [input[old(iter)]])
      ensures iter == old(iter) + 1 && index == old(index)
    {
      token := token.(text := token.text + [input[iter]]);
      iter := iter + 1;
    }

    /** Move past the current character. */
    method Skip()
      requires iter < |input|
      modifies this
      ensures iter == old(iter) + 1 && token == old(token) && index == old(index)
    {
      iter := iter + 1;
    }

    method ReadIdent()
      requires iter < |input| && IsAlpha(input[iter]) && token.text == ""
      modifies this
      ensures old(iter) < iter <= |input| && index == old(index)
      ensures token == Token(Ident, input[old(iter)..iter])
      ensures iter == IdentEnd(input, old(iter) + 1)
    {
      token := token.(kind := Ident);
      Consume();
      while IsIdentChar(Get())
        invariant old(iter) < iter <= |input| && index == old(index)
        invariant IdentEnd(input, iter) == IdentEnd(input, old(iter) + 1)
        invariant token == Token(Ident, input[old(iter)..iter])
        decreases |input| - iter
      {
        Consume();
      }
    }

    /** The `while (std::isdigit(get())) consume();` loops of read_number. */
    method ConsumeDigits()
      requires iter <= |input|
      modifies this
      ensures old(iter) <= iter <= |input| && index == old(index)
      ensures token == old(token).(text := old(token.text) + input[old(iter)..iter])
      ensures iter == DigitsEnd(input, old(iter))
    {
      while IsDigit(Get())
        invariant old(iter) <= iter <= |input| && index == old(index)
        invariant DigitsEnd(input, iter) == DigitsEnd(input, old(iter))
        invariant token == old(token).(text := old(token.text) + input[old(iter)..iter])
        decreases |input| - iter
      {
        Consume();
      }
    }

    method ReadNumber()
      requires iter < |input| && IsDigit(input[iter]) && token.text == ""
      modifies this
      ensures old(iter) < iter <= |input| && index == old(index)
      ensures token == Token(Number, input[old(iter)..iter])
      ensures iter == NumberEnd(input, old(iter) + 1)
    {
      ghost var start := iter;
      token := token.(kind := Number);
      Consume();
      assert token.text == input[start..iter];
      ConsumeDigits();
      assert token.text == input[start..iter];
      if Get() == '.' {
        // the do-while: the '.' unconditionally, then the digits after it
        Consume();
        assert token.text == input[start..iter];
        ConsumeDigits();
        assert token.text == input[start..iter];
      }
    }

    /** The one read NextToken describes, as the source performs it: white space, then a token. */
    method Scan() returns (r: Outcome<ParseError>)
      requires iter <= |input|
      modifies this
      ensures old(NextToken(input, iter)).Success? <==> r.Pass?
      ensures r.Pass? ==> token == old(NextToken(input, iter)).value.0
      ensures r.Pass? ==> iter == old(NextToken(input, iter)).value.1
      ensures index == old(index)
      ensures r.Fail? ==> r.error == old(NextToken(input, iter)).error
    {
      token := token.(text := "");
      while IsSpace(Get())
        invariant old(iter) <= iter <= |input| && index == old(index) && token.text == ""
        invariant SkipSpace(input, iter) == SkipSpace(input, old(iter))
        decreases |input| - iter
      {
        Skip();
      }
      SpaceSkipped(input, old(iter));
      r := ScanToken();
    }

    /** The token that starts at the reading position, which is not white space. */
    method ScanToken() returns (r: Outcome<ParseError>)
      requires iter <= |input| && (iter == |input| || !IsSpace(input[iter])) && token.text == ""
      modifies this
      ensures old(NextToken(input, iter)).Success? <==> r.Pass?
      ensures r.Pass? ==> token == old(NextToken(input, iter)).value.0
      ensures r.Pass? ==> iter == old(NextToken(input, iter)).value.1
      ensures index == old(index)
      ensures r.Fail? ==> r.error == old(NextToken(input, iter)).error
    {
      ghost var st := iter;
      ghost var n := NextToken(input, st);
      assert SkipSpace(input, st) == st;
      if iter == |input| {
        token := token.(kind := Eof);
        assert n == Success((EofToken, st));
      } else if IsAlpha(Get()) {
        ReadIdent();
        assert n == Success((Token(Ident, input[st..iter]), iter));
      } else if Get() in Operators {
        token := token.(kind := Op);
        Consume();
        assert n == Success((Token(Op, [input[st]]), iter));
      } else if Get() == '(' {
        token := token.(kind := LParen);
        Consume();
        assert n == Success((Token(LParen, [input[st]]), iter));
      } else if Get() == ')' {
        token := token.(kind := RParen);
        Consume();
        assert n == Success((Token(RParen, [input[st]]), iter));
      } else if IsDigit(Get()) {
        ReadNumber();
        assert n == Success((Token(Number, input[st..iter]), iter));
      } else {
        return Fail(UnrecognizedSymbol(Get()));
      }
      return Pass;
    }

    /**
     * Tokenizer::read: the next read of the stream. It succeeds while the
     * stream has a token or the end of input to give, and then the token is
     * that of the next read; otherwise it fails with the stream's error.
     */
    method Read() returns (r: Outcome<ParseError>)
      requires Valid()
      modifies this
      ensures var s := stream;
        if old(index) + 1 < |s.tokens| || s.tail.AtEof? then
          && r == Pass
          && Valid()
          && index == Min(old(index) + 1, |s.tokens|)
          && token == At(s, index)
        else
          r == Fail(s.tail.error)
    {
      ghost var s := stream;
      ghost var k := index + 1;
      ghost var pos := iter;
      assert rests[pos] == LexFrom(input, pos);
      ghost var n := NextToken(input, pos);
      r := Scan();
      ReadStep(input, pos, s, k);
      if r.Pass? {
        index := Min(k, |s.tokens|);
        assert iter == n.value.1 && token == n.value.0;
        assert rests[iter] == LexFrom(input, iter);
      }
    }
  }
}
