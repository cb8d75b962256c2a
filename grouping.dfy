/**
 * What the precedence-climbing parser builds from token streams of a known
 * shape: chains of one precedence level group to the left, or to the right
 * for a right-associative operator; of two operators the one that binds
 * more tightly takes the middle operand; a prefix operator takes an operand
 * that holds only the operators binding more tightly than it does, or a
 * single parenthesized atom after a function name; and the error each
 * malformed stream produces.
 *
 * The lemmas hold for any operator tables, and are applied to the source's
 * own (Parser.Tables) in Examples.
 */
module Grouping {
  import opened Common
  import opened Lexer
  import opened Expression
  import opened Parser

  /** A token parse_atom reads as a leaf: a number, or an identifier that names no prefix operator. */
  predicate IsOperand(g: Grammar, t: Token) {
    t.kind == Number || (t.kind == Ident && t.text !in g.unary)
  }

  /** The tree of a leaf token. */
  function Leaf(t: Token): Expr {
    if t.kind == Number then Const(NumberValue(t.text)) else Var(t.text)
  }

  predicate IsBinary(g: Grammar, t: Token) {
    t.kind == Op && t.text in g.binary
  }

  /** A complete stream: the lexer met no error. */
  predicate Complete(s: Stream) {
    WellLexed(s) && s.tail.AtEof?
  }

  /**
   * From position j to the end, the tokens alternate between operands and
   * binary operators, starting and ending with an operand.
   */
  predicate Chain(g: Grammar, toks: seq<Token>, j: nat)
    decreases |toks| - j
  {
    && j < |toks| && IsOperand(g, toks[j])
    && (j + 1 < |toks| ==> j + 2 < |toks| && IsBinary(g, toks[j + 1]) && Chain(g, toks, j + 2))
  }

  /** Every binary operator among the tokens has precedence p and associativity rassoc. */
  predicate OneLevel(g: Grammar, toks: seq<Token>, p: nat, rassoc: bool) {
    forall k :: 0 <= k < |toks| && IsBinary(g, toks[k]) ==>
      g.binary[toks[k].text].prec == p && g.binary[toks[k].text].rassoc == rassoc
  }

  /** The definition of a binary-operator token. */
  function DefOf(g: Grammar, t: Token): BinaryDef
    requires IsBinary(g, t)
  {
    g.binary[t.text]
  }

  /** The operator a binary-operator token stands for. */
  function BinaryOf(g: Grammar, t: Token): BinaryOp
    requires IsBinary(g, t)
  {
    g.binary[t.text].op
  }

  /** lhs, which ends with the operand at j, followed by the operator and operand after j. */
  function LeftLinked(g: Grammar, toks: seq<Token>, lhs: Expr, j: nat): Expr
    requires Chain(g, toks, j) && j + 1 < |toks|
  {
    Binary(BinaryOf(g, toks[j + 1]), lhs, Leaf(toks[j + 2]))
  }

  /** ((lhs o a) o a) ...: the operators after the operand at j applied left to right. */
  function LeftFold(g: Grammar, toks: seq<Token>, lhs: Expr, j: nat): Expr
    requires Chain(g, toks, j)
    decreases |toks| - j
  {
    if j + 1 < |toks| then LeftFold(g, toks, LeftLinked(g, toks, lhs, j), j + 2) else lhs
  }

  /** a o (a o (...)): the operands from j and the operators between them applied right to left. */
  function RightFold(g: Grammar, toks: seq<Token>, j: nat): Expr
    requires Chain(g, toks, j)
    decreases |toks| - j
  {
    if j + 1 < |toks| then Binary(BinaryOf(g, toks[j + 1]), Leaf(toks[j]), RightFold(g, toks, j + 2))
    else Leaf(toks[j])
  }

  // ---------------------------------------------------------------------------
  // Single steps.

  /** A leaf is a parsed tree. */
  lemma LeafParsed(g: Grammar, s: Stream, i: nat)
    requires WellLexed(s) && i < |s.tokens| && IsOperand(g, s.tokens[i])
    ensures ParsedTree(g, Leaf(s.tokens[i]))
  {
    assert TokenShape(s.tokens[i]);
  }

  /** An operand token is an atom of its own. */
  lemma OperandAtom(g: Grammar, s: Stream, i: nat)
    requires WellLexed(s) && i < |s.tokens| && Readable(s, i + 1) && IsOperand(g, s.tokens[i])
    ensures ParseAtomF(g, s, i) == Success(Parsed(Leaf(s.tokens[i]), i + 1))
  {
  }

  /**
   * An operand followed by no operator binding at least as tightly as minPrec
   * is the whole expression at that level.
   */
  lemma OperandExpr(g: Grammar, s: Stream, i: nat, minPrec: nat)
    requires WellLexed(s) && i < |s.tokens| && Readable(s, i + 1) && IsOperand(g, s.tokens[i])
    requires !Continues(g, At(s, i + 1), minPrec)
    ensures ParseExprF(g, s, i, minPrec) == Success(Parsed(Leaf(s.tokens[i]), i + 1))
  {
    OperandAtom(g, s, i);
    LeafParsed(g, s, i);
  }

  /**
   * One turn of the loop of parse_expr: a binary operator at read j that binds
   * at least as tightly as minPrec takes lhs and the right operand parsed after it.
   */
  lemma ClimbStep(g: Grammar, s: Stream, lhs: Expr, j: nat, minPrec: nat, rhs: Parsed)
    requires Complete(s) && j < |s.tokens| && ParsedTree(g, lhs)
    requires IsBinary(g, s.tokens[j]) && g.binary[s.tokens[j].text].prec >= minPrec
    requires ParseExprF(g, s, j + 1, RightPrec(g.binary[s.tokens[j].text])) == Success(rhs)
    ensures ParsedTree(g, rhs.expr) && Readable(s, rhs.next)
    ensures ClimbF(g, s, lhs, j, minPrec) == ClimbF(g, s, Binary(BinaryOf(g, s.tokens[j]), lhs, rhs.expr), rhs.next, minPrec)
  {
  }

  /** The same turn when the right operand is a single operand token. */
  lemma ClimbOperand(g: Grammar, s: Stream, lhs: Expr, j: nat, minPrec: nat)
    requires Complete(s) && j + 1 < |s.tokens| && ParsedTree(g, lhs)
    requires IsBinary(g, s.tokens[j]) && g.binary[s.tokens[j].text].prec >= minPrec
    requires IsOperand(g, s.tokens[j + 1])
    requires !Continues(g, At(s, j + 2), RightPrec(g.binary[s.tokens[j].text]))
    ensures ParsedTree(g, Binary(BinaryOf(g, s.tokens[j]), lhs, Leaf(s.tokens[j + 1])))
    ensures ClimbF(g, s, lhs, j, minPrec) ==
      ClimbF(g, s, Binary(BinaryOf(g, s.tokens[j]), lhs, Leaf(s.tokens[j + 1])), j + 2, minPrec)
  {
    OperandExpr(g, s, j + 1, RightPrec(g.binary[s.tokens[j].text]));
    ClimbStep(g, s, lhs, j, minPrec, Parsed(Leaf(s.tokens[j + 1]), j + 2));
  }

  /** parse_expr is its atom followed by its loop. */
  lemma AtomThenClimb(g: Grammar, s: Stream, i: nat, minPrec: nat, atom: Parsed)
    requires WellLexed(s) && Readable(s, i) && ParseAtomF(g, s, i) == Success(atom)
    ensures Readable(s, atom.next) && ParsedTree(g, atom.expr)
    ensures ParseExprF(g, s, i, minPrec) == ClimbF(g, s, atom.expr, atom.next, minPrec)
  {
  }

  /** The loop ends at a token that is no binary operator binding at least as tightly as minPrec. */
  lemma ClimbStops(g: Grammar, s: Stream, lhs: Expr, j: nat, minPrec: nat)
    requires WellLexed(s) && Readable(s, j) && ParsedTree(g, lhs) && !Continues(g, At(s, j), minPrec)
    ensures ClimbF(g, s, lhs, j, minPrec) == Success(Parsed(lhs, j))
  {
  }

  /** An atom that nothing binding at least as tightly as minPrec follows is the whole expression. */
  lemma AtomAlone(g: Grammar, s: Stream, i: nat, minPrec: nat, atom: Parsed)
    requires WellLexed(s) && Readable(s, i) && ParseAtomF(g, s, i) == Success(atom)
    requires !Continues(g, At(s, atom.next), minPrec)
    ensures ParseExprF(g, s, i, minPrec) == Success(atom)
  {
  }

  /**
   * A binary operator binding at least as tightly as minPrec, its right
   * operand y, and then nothing that binds that tightly: the loop takes the
   * operator once and ends.
   */
  lemma ClimbOnce(g: Grammar, s: Stream, lhs: Expr, j: nat, minPrec: nat, y: Parsed)
    requires Complete(s) && j < |s.tokens| && ParsedTree(g, lhs)
    requires IsBinary(g, s.tokens[j]) && DefOf(g, s.tokens[j]).prec >= minPrec
    requires ParseExprF(g, s, j + 1, RightPrec(DefOf(g, s.tokens[j]))) == Success(y)
    requires !Continues(g, At(s, y.next), minPrec)
    ensures ClimbF(g, s, lhs, j, minPrec) == Success(Parsed(Binary(BinaryOf(g, s.tokens[j]), lhs, y.expr), y.next))
  {
    ClimbStep(g, s, lhs, j, minPrec, y);
    ClimbStops(g, s, Binary(BinaryOf(g, s.tokens[j]), lhs, y.expr), y.next, minPrec);
  }

  /**
   * x o y: an atom x, then a binary operator binding at least as tightly as
   * minPrec and its right operand y, and then nothing that binds that tightly.
   */
  lemma AtomThenBinary(g: Grammar, s: Stream, i: nat, minPrec: nat, x: Parsed, y: Parsed)
    requires Complete(s) && Readable(s, i) && ParseAtomF(g, s, i) == Success(x)
    requires x.next < |s.tokens| && IsBinary(g, s.tokens[x.next]) && DefOf(g, s.tokens[x.next]).prec >= minPrec
    requires ParseExprF(g, s, x.next + 1, RightPrec(DefOf(g, s.tokens[x.next]))) == Success(y)
    requires !Continues(g, At(s, y.next), minPrec)
    ensures ParseExprF(g, s, i, minPrec) == Success(Parsed(Binary(BinaryOf(g, s.tokens[x.next]), x.expr, y.expr), y.next))
  {
    AtomThenClimb(g, s, i, minPrec, x);
    ClimbOnce(g, s, x.expr, x.next, minPrec, y);
  }

  /** A parse of the whole of a complete stream is the result of Expr::parse. */
  lemma WholeStream(g: Grammar, s: Stream, e: Expr)
    requires Complete(s) && ParseExprF(g, s, 0, 0) == Success(Parsed(e, |s.tokens|))
    ensures ParseStream(g, s) == Success(e)
  {
  }

  /** '(' at read i, an expression, and ')' make a group, which is an atom. */
  lemma GroupStep(g: Grammar, s: Stream, i: nat, inner: Parsed)
    requires Complete(s) && i < |s.tokens| && s.tokens[i].kind == LParen
    requires ParseExprF(g, s, i + 1, 0) == Success(inner)
    requires inner.next < |s.tokens| && s.tokens[inner.next].kind == RParen
    ensures ParseAtomF(g, s, i) == Success(Parsed(inner.expr, inner.next + 1))
  {
    assert ParseGroupF(g, s, i) == Success(Parsed(inner.expr, inner.next + 1));
  }

  // ---------------------------------------------------------------------------
  // Chains of one level.

  /** The first turn of the loop over a left-associative chain. */
  lemma LeftLink(g: Grammar, s: Stream, lhs: Expr, j: nat, p: nat, minPrec: nat)
    requires Complete(s) && Chain(g, s.tokens, j) && j + 1 < |s.tokens| && OneLevel(g, s.tokens, p, false)
    requires minPrec <= p && ParsedTree(g, lhs)
    ensures ParsedTree(g, LeftLinked(g, s.tokens, lhs, j))
    ensures ClimbF(g, s, lhs, j + 1, minPrec) == ClimbF(g, s, LeftLinked(g, s.tokens, lhs, j), j + 3, minPrec)
  {
    var toks := s.tokens;
    assert Chain(g, toks, j + 2);
    assert g.binary[toks[j + 1].text].prec == p && !g.binary[toks[j + 1].text].rassoc;
    assert !Continues(g, At(s, j + 3), p + 1) by {
      if j + 3 < |toks| {
        assert IsBinary(g, toks[j + 3]);
        assert g.binary[toks[j + 3].text].prec == p;
      }
    }
    ClimbOperand(g, s, lhs, j + 1, minPrec);
  }

  /**
   * The loop of parse_expr over a chain of left-associative operators of one
   * precedence p, entered after the operand at j with lhs built so far.
   */
  lemma {:induction false} LeftChainFrom(g: Grammar, s: Stream, lhs: Expr, j: nat, p: nat, minPrec: nat)
    requires Complete(s) && Chain(g, s.tokens, j) && OneLevel(g, s.tokens, p, false)
    requires minPrec <= p && ParsedTree(g, lhs)
    ensures ClimbF(g, s, lhs, j + 1, minPrec) == Success(Parsed(LeftFold(g, s.tokens, lhs, j), |s.tokens|))
    decreases |s.tokens| - j
  {
    if j + 1 < |s.tokens| {
      LeftLink(g, s, lhs, j, p, minPrec);
      LeftChainFrom(g, s, LeftLinked(g, s.tokens, lhs, j), j + 2, p, minPrec);
    }
  }

  /** A chain of left-associative operators of one precedence groups to the left. */
  lemma LeftChain(g: Grammar, s: Stream, p: nat)
    requires Complete(s) && Chain(g, s.tokens, 0) && OneLevel(g, s.tokens, p, false)
    ensures ParseStream(g, s) == Success(LeftFold(g, s.tokens, Leaf(s.tokens[0]), 0))
  {
    OperandAtom(g, s, 0);
    LeafParsed(g, s, 0);
    LeftChainFrom(g, s, Leaf(s.tokens[0]), 0, p, 0);
  }

  /**
   * parse_expr over a chain of right-associative operators of one precedence
   * p, from the operand at position j.
   */
  lemma {:induction false} RightChainFrom(g: Grammar, s: Stream, j: nat, p: nat, minPrec: nat)
    requires Complete(s) && Chain(g, s.tokens, j) && OneLevel(g, s.tokens, p, true) && minPrec <= p
    ensures ParseExprF(g, s, j, minPrec) == Success(Parsed(RightFold(g, s.tokens, j), |s.tokens|))
    decreases |s.tokens| - j
  {
    var toks := s.tokens;
    OperandAtom(g, s, j);
    LeafParsed(g, s, j);
    if j + 1 < |toks| {
      assert g.binary[toks[j + 1].text].prec == p && g.binary[toks[j + 1].text].rassoc;
      RightChainFrom(g, s, j + 2, p, p);
      ClimbStep(g, s, Leaf(toks[j]), j + 1, minPrec, Parsed(RightFold(g, toks, j + 2), |toks|));
    }
  }

  /** A chain of right-associative operators of one precedence groups to the right. */
  lemma RightChain(g: Grammar, s: Stream, p: nat)
    requires Complete(s) && Chain(g, s.tokens, 0) && OneLevel(g, s.tokens, p, true)
    ensures ParseStream(g, s) == Success(RightFold(g, s.tokens, 0))
  {
    RightChainFrom(g, s, 0, p, 0);
  }

  // ---------------------------------------------------------------------------
  // Two operators.

  /**
   * In a o1 b o2 c, the second operator takes b: it binds more tightly than
   * the first, or as tightly when the first is right-associative.
   */
  predicate TakesMiddle(first: BinaryDef, second: BinaryDef) {
    second.prec > first.prec || (second.prec == first.prec && first.rassoc)
  }

  /** a o1 b o2 c, when o2 takes the middle operand: a o1 (b o2 c). */
  lemma GroupsRight(g: Grammar, s: Stream)
    requires Complete(s) && |s.tokens| == 5
    requires IsOperand(g, s.tokens[0]) && IsOperand(g, s.tokens[2]) && IsOperand(g, s.tokens[4])
    requires IsBinary(g, s.tokens[1]) && IsBinary(g, s.tokens[3])
    requires TakesMiddle(DefOf(g, s.tokens[1]), DefOf(g, s.tokens[3]))
    ensures ParseStream(g, s) == Success(
      Binary(BinaryOf(g, s.tokens[1]), Leaf(s.tokens[0]), Binary(BinaryOf(g, s.tokens[3]), Leaf(s.tokens[2]), Leaf(s.tokens[4]))))
  {
    var toks := s.tokens;
    var right := Binary(BinaryOf(g, toks[3]), Leaf(toks[2]), Leaf(toks[4]));
    OperandAtom(g, s, 2);
    OperandExpr(g, s, 4, RightPrec(DefOf(g, toks[3])));
    AtomThenBinary(g, s, 2, RightPrec(DefOf(g, toks[1])), Parsed(Leaf(toks[2]), 3), Parsed(Leaf(toks[4]), 5));
    OperandAtom(g, s, 0);
    AtomThenBinary(g, s, 0, 0, Parsed(Leaf(toks[0]), 1), Parsed(right, 5));
    WholeStream(g, s, Binary(BinaryOf(g, toks[1]), Leaf(toks[0]), right));
  }

  /** a o1 b o2 c, when o2 does not take the middle operand: (a o1 b) o2 c. */
  lemma GroupsLeft(g: Grammar, s: Stream)
    requires Complete(s) && |s.tokens| == 5
    requires IsOperand(g, s.tokens[0]) && IsOperand(g, s.tokens[2]) && IsOperand(g, s.tokens[4])
    requires IsBinary(g, s.tokens[1]) && IsBinary(g, s.tokens[3])
    requires !TakesMiddle(DefOf(g, s.tokens[1]), DefOf(g, s.tokens[3]))
    ensures ParseStream(g, s) == Success(
      Binary(BinaryOf(g, s.tokens[3]), Binary(BinaryOf(g, s.tokens[1]), Leaf(s.tokens[0]), Leaf(s.tokens[2])), Leaf(s.tokens[4])))
  {
    var toks := s.tokens;
    var a, b, c := Leaf(toks[0]), Leaf(toks[2]), Leaf(toks[4]);
    var left := Binary(BinaryOf(g, toks[1]), a, b);
    OperandAtom(g, s, 0);
    AtomThenClimb(g, s, 0, 0, Parsed(a, 1));
    ClimbOperand(g, s, a, 1, 0);
    ClimbOperand(g, s, left, 3, 0);
    ClimbStops(g, s, Binary(BinaryOf(g, toks[3]), left, c), 5, 0);
    WholeStream(g, s, Binary(BinaryOf(g, toks[3]), left, c));
  }

  /**
   * a o1 b o2 c groups as a o1 (b o2 c) when o2 takes the middle operand,
   * and as (a o1 b) o2 c otherwise.
   */
  lemma TwoOperators(g: Grammar, s: Stream)
    requires Complete(s) && |s.tokens| == 5
    requires IsOperand(g, s.tokens[0]) && IsOperand(g, s.tokens[2]) && IsOperand(g, s.tokens[4])
    requires IsBinary(g, s.tokens[1]) && IsBinary(g, s.tokens[3])
    ensures ParseStream(g, s) == Success(
      if TakesMiddle(DefOf(g, s.tokens[1]), DefOf(g, s.tokens[3])) then
        Binary(BinaryOf(g, s.tokens[1]), Leaf(s.tokens[0]), Binary(BinaryOf(g, s.tokens[3]), Leaf(s.tokens[2]), Leaf(s.tokens[4])))
      else
        Binary(BinaryOf(g, s.tokens[3]), Binary(BinaryOf(g, s.tokens[1]), Leaf(s.tokens[0]), Leaf(s.tokens[2])), Leaf(s.tokens[4])))
  {
    if TakesMiddle(DefOf(g, s.tokens[1]), DefOf(g, s.tokens[3])) {
      GroupsRight(g, s);
    } else {
      GroupsLeft(g, s);
    }
  }

  // ---------------------------------------------------------------------------
  // Prefix operators.

  /** The definition of a prefix-operator token. */
  function UnaryDefOf(g: Grammar, t: Token): UnaryDef
    requires StartsUnary(g, t)
  {
    g.unary[t.text]
  }

  /**
   * A prefix operator not followed by a function call's '(' takes the
   * expression after it of the operators that bind more tightly than it does.
   */
  lemma PrefixStep(g: Grammar, s: Stream, i: nat, operand: Parsed)
    requires Complete(s) && i + 1 < |s.tokens| && StartsUnary(g, s.tokens[i])
    requires !(UnaryDefOf(g, s.tokens[i]).funcall && s.tokens[i + 1].kind == LParen)
    requires ParseExprF(g, s, i + 1, UnaryDefOf(g, s.tokens[i]).prec + 1) == Success(operand)
    ensures ParseAtomF(g, s, i) == Success(Parsed(Unary(UnaryDefOf(g, s.tokens[i]).op, operand.expr), operand.next))
  {
    var op := UnaryDefOf(g, s.tokens[i]);
    assert ParseOperandF(g, s, i + 1, op) == Success(Parsed(Unary(op.op, operand.expr), operand.next));
    assert ParseUnaryF(g, s, i, op) == ParseOperandF(g, s, i + 1, op);
  }

  /** A function name followed by '(' takes the atom that starts there. */
  lemma CallStep(g: Grammar, s: Stream, i: nat, atom: Parsed)
    requires Complete(s) && i + 1 < |s.tokens| && StartsUnary(g, s.tokens[i])
    requires UnaryDefOf(g, s.tokens[i]).funcall && s.tokens[i + 1].kind == LParen
    requires ParseAtomF(g, s, i + 1) == Success(atom)
    ensures ParseAtomF(g, s, i) == Success(Parsed(Unary(UnaryDefOf(g, s.tokens[i]).op, atom.expr), atom.next))
  {
    var op := UnaryDefOf(g, s.tokens[i]);
    assert ParseOperandF(g, s, i + 1, op) == Success(Parsed(Unary(op.op, atom.expr), atom.next));
    assert ParseUnaryF(g, s, i, op) == ParseOperandF(g, s, i + 1, op);
  }

  /** u a o b, when o binds more tightly than the prefix operator u: u (a o b). */
  lemma PrefixTakesBinary(g: Grammar, s: Stream)
    requires Complete(s) && |s.tokens| == 4 && StartsUnary(g, s.tokens[0])
    requires IsOperand(g, s.tokens[1]) && IsBinary(g, s.tokens[2]) && IsOperand(g, s.tokens[3])
    requires DefOf(g, s.tokens[2]).prec > UnaryDefOf(g, s.tokens[0]).prec
    ensures ParseStream(g, s) == Success(
      Unary(UnaryDefOf(g, s.tokens[0]).op, Binary(BinaryOf(g, s.tokens[2]), Leaf(s.tokens[1]), Leaf(s.tokens[3]))))
  {
    var toks := s.tokens;
    var u := UnaryDefOf(g, toks[0]);
    var e := Binary(BinaryOf(g, toks[2]), Leaf(toks[1]), Leaf(toks[3]));
    OperandAtom(g, s, 1);
    OperandExpr(g, s, 3, RightPrec(DefOf(g, toks[2])));
    AtomThenBinary(g, s, 1, u.prec + 1, Parsed(Leaf(toks[1]), 2), Parsed(Leaf(toks[3]), 4));
    PrefixStep(g, s, 0, Parsed(e, 4));
    AtomAlone(g, s, 0, 0, Parsed(Unary(u.op, e), 4));
    WholeStream(g, s, Unary(u.op, e));
  }

  /** u a o b, when o binds no more tightly than the prefix operator u: (u a) o b. */
  lemma PrefixTakesOperand(g: Grammar, s: Stream)
    requires Complete(s) && |s.tokens| == 4 && StartsUnary(g, s.tokens[0])
    requires IsOperand(g, s.tokens[1]) && IsBinary(g, s.tokens[2]) && IsOperand(g, s.tokens[3])
    requires DefOf(g, s.tokens[2]).prec <= UnaryDefOf(g, s.tokens[0]).prec
    ensures ParseStream(g, s) == Success(
      Binary(BinaryOf(g, s.tokens[2]), Unary(UnaryDefOf(g, s.tokens[0]).op, Leaf(s.tokens[1])), Leaf(s.tokens[3])))
  {
    var toks := s.tokens;
    var u := UnaryDefOf(g, toks[0]);
    var negated := Unary(u.op, Leaf(toks[1]));
    OperandExpr(g, s, 1, u.prec + 1);
    PrefixStep(g, s, 0, Parsed(Leaf(toks[1]), 2));
    OperandExpr(g, s, 3, RightPrec(DefOf(g, toks[2])));
    AtomThenBinary(g, s, 0, 0, Parsed(negated, 2), Parsed(Leaf(toks[3]), 4));
    WholeStream(g, s, Binary(BinaryOf(g, toks[2]), negated, Leaf(toks[3])));
  }

  /**
   * u a o b, for a prefix operator u: u takes a o b when o binds more tightly
   * than u, and a alone otherwise.
   */
  lemma PrefixThenBinary(g: Grammar, s: Stream)
    requires Complete(s) && |s.tokens| == 4 && StartsUnary(g, s.tokens[0])
    requires IsOperand(g, s.tokens[1]) && IsBinary(g, s.tokens[2]) && IsOperand(g, s.tokens[3])
    ensures ParseStream(g, s) == Success(
      if DefOf(g, s.tokens[2]).prec > UnaryDefOf(g, s.tokens[0]).prec then
        Unary(UnaryDefOf(g, s.tokens[0]).op, Binary(BinaryOf(g, s.tokens[2]), Leaf(s.tokens[1]), Leaf(s.tokens[3])))
      else
        Binary(BinaryOf(g, s.tokens[2]), Unary(UnaryDefOf(g, s.tokens[0]).op, Leaf(s.tokens[1])), Leaf(s.tokens[3])))
  {
    if DefOf(g, s.tokens[2]).prec > UnaryDefOf(g, s.tokens[0]).prec {
      PrefixTakesBinary(g, s);
    } else {
      PrefixTakesOperand(g, s);
    }
  }

  /** u1 u2 a, for prefix operators u1 and u2: each applies to what follows it. */
  lemma NestedPrefix(g: Grammar, s: Stream)
    requires Complete(s) && |s.tokens| == 3 && StartsUnary(g, s.tokens[0]) && StartsUnary(g, s.tokens[1])
    requires IsOperand(g, s.tokens[2])
    ensures ParseStream(g, s) == Success(
      Unary(UnaryDefOf(g, s.tokens[0]).op, Unary(UnaryDefOf(g, s.tokens[1]).op, Leaf(s.tokens[2]))))
  {
    var toks := s.tokens;
    var u1, u2 := UnaryDefOf(g, toks[0]), UnaryDefOf(g, toks[1]);
    var inner := Unary(u2.op, Leaf(toks[2]));
    OperandExpr(g, s, 2, u2.prec + 1);
    PrefixStep(g, s, 1, Parsed(Leaf(toks[2]), 3));
    AtomAlone(g, s, 1, u1.prec + 1, Parsed(inner, 3));
    PrefixStep(g, s, 0, Parsed(inner, 3));
    AtomAlone(g, s, 0, 0, Parsed(Unary(u1.op, inner), 3));
    WholeStream(g, s, Unary(u1.op, inner));
  }

  /**
   * f ( a ) o b, for a function name f: the parentheses are f's whole
   * operand, and o, whatever its precedence, applies to f's result.
   */
  lemma CallThenBinary(g: Grammar, s: Stream)
    requires Complete(s) && |s.tokens| == 6 && StartsUnary(g, s.tokens[0]) && UnaryDefOf(g, s.tokens[0]).funcall
    requires s.tokens[1].kind == LParen && IsOperand(g, s.tokens[2]) && s.tokens[3].kind == RParen
    requires IsBinary(g, s.tokens[4]) && IsOperand(g, s.tokens[5])
    ensures ParseStream(g, s) == Success(
      Binary(BinaryOf(g, s.tokens[4]), Unary(UnaryDefOf(g, s.tokens[0]).op, Leaf(s.tokens[2])), Leaf(s.tokens[5])))
  {
    var toks := s.tokens;
    var call := Unary(UnaryDefOf(g, toks[0]).op, Leaf(toks[2]));
    OperandExpr(g, s, 2, 0);
    GroupStep(g, s, 1, Parsed(Leaf(toks[2]), 3));
    CallStep(g, s, 0, Parsed(Leaf(toks[2]), 4));
    OperandExpr(g, s, 5, RightPrec(DefOf(g, toks[4])));
    AtomThenBinary(g, s, 0, 0, Parsed(call, 4), Parsed(Leaf(toks[5]), 6));
    WholeStream(g, s, Binary(BinaryOf(g, toks[4]), call, Leaf(toks[5])));
  }

  // ---------------------------------------------------------------------------
  // Malformed streams.

  /** Empty input: the first read is the end of input where an operand is expected. */
  lemma EmptyInput(g: Grammar, s: Stream)
    requires Complete(s) && s.tokens == []
    ensures ParseStream(g, s) == Failure(Unexpected(EofToken, Operand))
  {
  }

  /** A lexical error in the first read is the error of the parse. */
  lemma FirstReadFails(g: Grammar, s: Stream)
    requires WellLexed(s) && s.tokens == [] && s.tail.LexFailure?
    ensures ParseStream(g, s) == Failure(s.tail.error)
  {
  }

  /** A failing atom fails the expression that starts with it. */
  lemma AtomFails(g: Grammar, s: Stream, i: nat, minPrec: nat, e: ParseError)
    requires WellLexed(s) && Readable(s, i) && ParseAtomF(g, s, i) == Failure(e)
    ensures ParseExprF(g, s, i, minPrec) == Failure(e)
  {
  }

  /** A failing right operand fails the loop. */
  lemma RightOperandFails(g: Grammar, s: Stream, lhs: Expr, j: nat, minPrec: nat, e: ParseError)
    requires Complete(s) && j < |s.tokens| && ParsedTree(g, lhs)
    requires IsBinary(g, s.tokens[j]) && g.binary[s.tokens[j].text].prec >= minPrec
    requires ParseExprF(g, s, j + 1, RightPrec(g.binary[s.tokens[j].text])) == Failure(e)
    ensures ClimbF(g, s, lhs, j, minPrec) == Failure(e)
  {
  }

  /** A failing expression fails Expr::parse. */
  lemma StreamFails(g: Grammar, s: Stream, e: ParseError)
    requires WellLexed(s) && Readable(s, 0) && ParseExprF(g, s, 0, 0) == Failure(e)
    ensures ParseStream(g, s) == Failure(e)
  {
  }

  /**
   * Any expression followed by a binary operator as the last token: the
   * operator's right operand is missing, and the end of input is met where
   * it is expected.
   */
  lemma MissingOperand(g: Grammar, s: Stream, e: Expr)
    requires Complete(s) && |s.tokens| > 0 && IsBinary(g, s.tokens[|s.tokens| - 1])
    requires ParseStream(g, Cut(s)) == Success(e)
    ensures ParseStream(g, s) == Failure(Unexpected(EofToken, Operand))
  {
    var n := |s.tokens| - 1;
    CutComplete(s);
    CutExpr(g, s, 0, 0);
    assert Continues(g, At(s, n), 0);
    StreamFails(g, s, Unexpected(EofToken, Operand));
  }

  /**
   * Two operands in a row, whatever follows: the second is reported where a
   * binary operator or the end of input was expected.
   */
  lemma Juxtaposed(g: Grammar, s: Stream)
    requires WellLexed(s) && |s.tokens| >= 2 && IsOperand(g, s.tokens[0]) && IsOperand(g, s.tokens[1])
    ensures ParseStream(g, s) == Failure(Unexpected(s.tokens[1], BinaryOperatorOrEof))
  {
    assert s.tokens[1].kind != Eof;
    OperandExpr(g, s, 0, 0);
  }

  /**
   * A '(' at read i whose expression runs to the end of input: the end of
   * input is met where ')' is expected.
   */
  lemma UnclosedGroup(g: Grammar, s: Stream, i: nat, a: Parsed)
    requires Complete(s) && i < |s.tokens| && s.tokens[i].kind == LParen
    requires ParseExprF(g, s, i + 1, 0) == Success(a) && a.next == |s.tokens|
    ensures ParseAtomF(g, s, i) == Failure(Unexpected(EofToken, RightParenthesis))
  {
    assert ParseGroupF(g, s, i) == Failure(Unexpected(EofToken, RightParenthesis));
  }

  /** An input that opens with a '(' never closed: the end of input is met where ')' is expected. */
  lemma Unclosed(g: Grammar, s: Stream, a: Parsed)
    requires Complete(s) && |s.tokens| > 0 && s.tokens[0].kind == LParen
    requires ParseExprF(g, s, 1, 0) == Success(a) && a.next == |s.tokens|
    ensures ParseStream(g, s) == Failure(Unexpected(EofToken, RightParenthesis))
  {
    var e := Unexpected(EofToken, RightParenthesis);
    UnclosedGroup(g, s, 0, a);
    AtomFails(g, s, 0, 0, e);
    StreamFails(g, s, e);
  }

  // ---------------------------------------------------------------------------
  // Dropping the last token. Every parse of the stream without its last token
  // that succeeds is also the parse of the whole stream, unless the whole
  // stream fails on a missing operand after that token.

  /** The stream without its last token, read to the end of input. */
  function Cut(s: Stream): (c: Stream)
    requires |s.tokens| > 0
    ensures |c.tokens| == |s.tokens| - 1 && c.tail.AtEof?
    ensures forall k :: 0 <= k < |c.tokens| ==> c.tokens[k] == s.tokens[k]
  {
    Stream(s.tokens[..|s.tokens| - 1], AtEof)
  }

  lemma CutComplete(s: Stream)
    requires WellLexed(s) && |s.tokens| > 0
    ensures Complete(Cut(s))
  {
  }

  /** r is r', or the failure of an operand missing at the end of input. */
  predicate SameOrMissing(r: Result<Parsed, ParseError>, r': Result<Parsed, ParseError>) {
    r == r' || r == Failure(Unexpected(EofToken, Operand))
  }

  lemma CutAtom(g: Grammar, s: Stream, i: nat)
    requires Complete(s) && |s.tokens| > 0 && i < |s.tokens|
    requires Complete(Cut(s)) && ParseAtomF(g, Cut(s), i).Success?
    ensures SameOrMissing(ParseAtomF(g, s, i), ParseAtomF(g, Cut(s), i))
    decreases |s.tokens| - i, 0, 1
  {
    var c := Cut(s);
    assert i < |c.tokens|;
    var t := s.tokens[i];
    assert At(c, i) == t;
    if StartsUnary(g, t) {
      CutUnary(g, s, i, g.unary[t.text]);
    } else if t.kind == LParen {
      CutGroup(g, s, i);
    }
  }

  lemma CutUnary(g: Grammar, s: Stream, i: nat, op: UnaryDef)
    requires Complete(s) && |s.tokens| > 0 && i < |s.tokens| - 1 && StartsUnary(g, s.tokens[i])
    requires Complete(Cut(s)) && ParseUnaryF(g, Cut(s), i, op).Success?
    ensures SameOrMissing(ParseUnaryF(g, s, i, op), ParseUnaryF(g, Cut(s), i, op))
    decreases |s.tokens| - i, 0, 0
  {
    CutOperand(g, s, i + 1, op);
  }

  lemma CutOperand(g: Grammar, s: Stream, j: nat, op: UnaryDef)
    requires Complete(s) && |s.tokens| > 0 && j < |s.tokens|
    requires Complete(Cut(s)) && ParseOperandF(g, Cut(s), j, op).Success?
    ensures SameOrMissing(ParseOperandF(g, s, j, op), ParseOperandF(g, Cut(s), j, op))
    decreases |s.tokens| - j, 3, 0
  {
    var c := Cut(s);
    assert j < |c.tokens|;
    assert At(c, j) == At(s, j);
    if op.funcall && At(s, j).kind == LParen {
      CutAtom(g, s, j);
    } else {
      CutExpr(g, s, j, op.prec + 1);
    }
  }

  lemma CutGroup(g: Grammar, s: Stream, i: nat)
    requires Complete(s) && |s.tokens| > 0 && i < |s.tokens| - 1 && s.tokens[i].kind == LParen
    requires Complete(Cut(s)) && ParseGroupF(g, Cut(s), i).Success?
    ensures SameOrMissing(ParseGroupF(g, s, i), ParseGroupF(g, Cut(s), i))
    decreases |s.tokens| - i, 0, 0
  {
    var c := Cut(s);
    CutExpr(g, s, i + 1, 0);
    var a := ParseExprF(g, c, i + 1, 0).value;
    assert a.next < |c.tokens| && At(s, a.next) == At(c, a.next);
  }

  lemma CutExpr(g: Grammar, s: Stream, i: nat, minPrec: nat)
    requires Complete(s) && |s.tokens| > 0 && i < |s.tokens|
    requires Complete(Cut(s)) && ParseExprF(g, Cut(s), i, minPrec).Success?
    ensures SameOrMissing(ParseExprF(g, s, i, minPrec), ParseExprF(g, Cut(s), i, minPrec))
    decreases |s.tokens| - i, 2, 0
  {
    var c := Cut(s);
    assert i < |c.tokens|;
    CutAtom(g, s, i);
    var a := ParseAtomF(g, c, i).value;
    if ParseAtomF(g, s, i) == Success(a) {
      CutClimb(g, s, a.expr, a.next, minPrec);
    }
  }

  lemma CutClimb(g: Grammar, s: Stream, lhs: Expr, j: nat, minPrec: nat)
    requires Complete(s) && |s.tokens| > 0 && j < |s.tokens| && ParsedTree(g, lhs)
    requires Complete(Cut(s)) && ClimbF(g, Cut(s), lhs, j, minPrec).Success?
    ensures SameOrMissing(ClimbF(g, s, lhs, j, minPrec), ClimbF(g, Cut(s), lhs, j, minPrec))
    decreases |s.tokens| - j, 1, 0
  {
    var c := Cut(s);
    var t := At(s, j);
    if j == |c.tokens| {
      if Continues(g, t, minPrec) {
        assert ParseAtomF(g, s, j + 1) == Failure(Unexpected(EofToken, Operand));
        AtomFails(g, s, j + 1, RightPrec(g.binary[t.text]), Unexpected(EofToken, Operand));
      }
    } else {
      assert At(c, j) == t;
      if Continues(g, t, minPrec) {
        var op := g.binary[t.text];
        CutExpr(g, s, j + 1, RightPrec(op));
        var rhs := ParseExprF(g, c, j + 1, RightPrec(op)).value;
        if ParseExprF(g, s, j + 1, RightPrec(op)) == Success(rhs) {
          CutClimb(g, s, Binary(op.op, lhs, rhs.expr), rhs.next, minPrec);
        }
      }
    }
  }
}
