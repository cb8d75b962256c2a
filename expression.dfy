/**
 * The expression tree of expr.h and the two traversals of expr.cpp that only
 * read it: collecting the free variables and rendering it as text.
 *
 * The C++ tree holds its children through shared_ptr<const Expr>; a Dafny
 * datatype value is immutable in the same way, so sharing needs no modelling.
 */
module Expression {
  import opened Chars

  datatype BinaryOp = Add | Sub | Mul | Div | Pow

  datatype UnaryOp = Neg | Sin | Cos | Ln | Exp | Sqrt

  /** Exactly one of four variants; a node never changes after construction. */
  datatype Expr =
    | Const(val: real)
    | Var(name: string)
    | Binary(bop: BinaryOp, lhs: Expr, rhs: Expr)
    | Unary(uop: UnaryOp, arg: Expr)

  /** Every variable occurrence, in the left-to-right order of a traversal. */
  function VarList(e: Expr): seq<string> {
    match e
    case Const(_) => []
    case Var(name) => [name]
    case Binary(_, l, r) => VarList(l) + VarList(r)
    case Unary(_, a) => VarList(a)
  }

  /** Expr::variables_rec: inserts the names of e into the caller's set. */
  method VariablesRec(e: Expr, vars: set<string>) returns (out: set<string>)
    ensures forall v :: v in out <==> v in vars || v in VarList(e)
  {
    match e
    case Const(_) =>
      out := vars;
    case Var(name) =>
      out := vars + {name};
    case Binary(_, l, r) =>
      out := VariablesRec(l, vars);
      out := VariablesRec(r, out);
    case Unary(_, a) =>
      out := VariablesRec(a, vars);
  }

  /** Expr::variables: the set of names occurring in e, duplicates removed. */
  method Variables(e: Expr) returns (vars: set<string>)
    ensures forall v :: v in vars <==> v in VarList(e)
  {
    vars := VariablesRec(e, {});
  }

  // ---------------------------------------------------------------------------
  // Rendering. std::to_string of a constant is not modelled: the caller passes
  // the renderer of numbers as `render`.

  function BinarySymbol(op: BinaryOp): string {
    match op
    case Add => "+"
    case Sub => "-"
    case Mul => "*"
    case Div => "/"
    case Pow => "^"
  }

  function UnaryName(op: UnaryOp): string {
    match op
    case Neg => "-"
    case Sin => "sin"
    case Cos => "cos"
    case Ln => "ln"
    case Exp => "exp"
    case Sqrt => "sqrt"
  }

  /** The fully parenthesised infix text of e. */
  function Shown(e: Expr, render: real -> string): string {
    match e
    case Const(v) => render(v)
    case Var(name) => name
    case Binary(op, l, r) =>
      "(" + Shown(l, render) + " " + BinarySymbol(op) + " " + Shown(r, render) + ")"
    case Unary(op, a) =>
      if IsAlpha(UnaryName(op)[0]) then UnaryName(op) + "(" + Shown(a, render) + ")"
      else UnaryName(op) + Shown(a, render)
  }

  /** Expr::show_rec: appends the text of e to the caller's buffer. */
  method ShowRec(e: Expr, buf: string, render: real -> string) returns (out: string)
    ensures out == buf + Shown(e, render)
  {
    match e
    case Const(v) =>
      out := buf + render(v);
    case Var(name) =>
      out := buf + name;
    case Binary(op, l, r) =>
      out := buf + "(";
      out := ShowRec(l, out, render);
      out := out + " " + BinarySymbol(op) + " ";
      out := ShowRec(r, out, render);
      out := out + ")";
    case Unary(op, a) =>
      var name := UnaryName(op);
      if IsAlpha(name[0]) {
        out := buf + name + "(";
        out := ShowRec(a, out, render);
        out := out + ")";
      } else {
        out := buf + name;
        out := ShowRec(a, out, render);
      }
  }

  /** Expr::show */
  method Show(e: Expr, render: real -> string) returns (s: string)
    ensures s == Shown(e, render)
  {
    s := ShowRec(e, "", render);
  }

  // ---------------------------------------------------------------------------
  // The rendering is fully parenthesised: as long as neither a variable name nor
  // a rendered number contains a parenthesis, the parentheses of Shown(e) are
  // balanced.

  function Delta(c: char): int {
    if c == '(' then 1 else if c == ')' then -1 else 0
  }

  /** Number of opening minus number of closing parentheses. */
  function Level(s: string): int {
    if s == [] then 0 else Delta(s[0]) + Level(s[1..])
  }

  predicate ParenFree(s: string) {
    forall k :: 0 <= k < |s| ==> s[k] != '(' && s[k] != ')'
  }

  /** No prefix closes more parentheses than it opened, and the whole closes all. */
  predicate Balanced(s: string) {
    Level(s) == 0 && forall k :: 0 <= k <= |s| ==> Level(s[..k]) >= 0
  }

  lemma {:induction false} LevelConcat(a: string, b: string)
    ensures Level(a + b) == Level(a) + Level(b)
  {
    if a == [] {
      assert a + b == b;
    } else {
      assert (a + b)[0] == a[0] && (a + b)[1..] == a[1..] + b;
      LevelConcat(a[1..], b);
    }
  }

  lemma {:induction false} ParenFreeLevel(s: string)
    requires ParenFree(s)
    ensures Level(s) == 0
  {
    if s != [] {
      ParenFreeLevel(s[1..]);
    }
  }

  lemma ParenFreeBalanced(s: string)
    requires ParenFree(s)
    ensures Balanced(s)
  {
    ParenFreeLevel(s);
    forall k | 0 <= k <= |s| ensures Level(s[..k]) >= 0 {
      ParenFreeLevel(s[..k]);
    }
  }

  lemma BalancedConcat(a: string, b: string)
    requires Balanced(a) && Balanced(b)
    ensures Balanced(a + b)
  {
    LevelConcat(a, b);
    forall k | 0 <= k <= |a + b| ensures Level((a + b)[..k]) >= 0 {
      if k <= |a| {
        assert (a + b)[..k] == a[..k];
      } else {
        assert (a + b)[..k] == a + b[..k - |a|];
        LevelConcat(a, b[..k - |a|]);
      }
    }
  }

  lemma BalancedWrap(a: string)
    requires Balanced(a)
    ensures Balanced("(" + a + ")")
  {
    var w := "(" + a + ")";
    LevelConcat("(" + a, ")");
    LevelConcat("(", a);
    forall k | 0 <= k <= |w| ensures Level(w[..k]) >= 0 {
      if k == 0 {
      } else if k <= |a| + 1 {
        assert w[..k] == "(" + a[..k - 1];
        LevelConcat("(", a[..k - 1]);
      } else {
        assert w[..k] == w;
      }
    }
  }

  /** Every name in the tree and every rendered constant is free of parentheses. */
  predicate LeavesParenFree(e: Expr, render: real -> string) {
    match e
    case Const(v) => ParenFree(render(v))
    case Var(name) => ParenFree(name)
    case Binary(_, l, r) => LeavesParenFree(l, render) && LeavesParenFree(r, render)
    case Unary(_, a) => LeavesParenFree(a, render)
  }

  lemma BalancedInfix(l: string, mid: string, r: string)
    requires Balanced(l) && ParenFree(mid) && Balanced(r)
    ensures Balanced("(" + l + mid + r + ")")
  {
    ParenFreeBalanced(mid);
    BalancedConcat(l, mid);
    BalancedConcat(l + mid, r);
    BalancedWrap(l + mid + r);
    assert "(" + l + mid + r + ")" == "(" + (l + mid + r) + ")";
  }

  lemma BalancedCall(name: string, a: string)
    requires ParenFree(name) && Balanced(a)
    ensures Balanced(name + "(" + a + ")") && Balanced(name + a)
  {
    ParenFreeBalanced(name);
    BalancedWrap(a);
    BalancedConcat(name, "(" + a + ")");
    assert name + "(" + a + ")" == name + ("(" + a + ")");
    BalancedConcat(name, a);
  }

  lemma ShownBinaryBalanced(op: BinaryOp, l: Expr, r: Expr, render: real -> string)
    requires Balanced(Shown(l, render)) && Balanced(Shown(r, render))
    ensures Balanced(Shown(Binary(op, l, r), render))
  {
    var mid := " " + BinarySymbol(op) + " ";
    BalancedInfix(Shown(l, render), mid, Shown(r, render));
    assert Shown(Binary(op, l, r), render) == "(" + Shown(l, render) + mid + Shown(r, render) + ")";
  }

  lemma ShownUnaryBalanced(op: UnaryOp, a: Expr, render: real -> string)
    requires Balanced(Shown(a, render))
    ensures Balanced(Shown(Unary(op, a), render))
  {
    BalancedCall(UnaryName(op), Shown(a, render));
  }

  lemma {:induction false} ShownBalanced(e: Expr, render: real -> string)
    requires LeavesParenFree(e, render)
    ensures Balanced(Shown(e, render))
  {
    match e
    case Const(v) =>
      ParenFreeBalanced(render(v));
    case Var(name) =>
      ParenFreeBalanced(name);
    case Binary(op, l, r) =>
      ShownBalanced(l, render);
      ShownBalanced(r, render);
      ShownBinaryBalanced(op, l, r, render);
    case Unary(op, a) =>
      ShownBalanced(a, render);
      ShownUnaryBalanced(op, a, render);
  }
}
