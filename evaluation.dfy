/**
 * The tree walk of expr.cpp (eval_rec) and its two instantiations: Expr::eval
 * over plain numbers and Expr::diff over dual numbers.
 *
 * eval_rec is a template over the number type; here it is one function over
 * a record `Arith<N>` of the number type's operations, so both instantiations
 * share the traversal order and the operator dispatch, as in the source.
 */
module Evaluation {
  import opened Common
  import opened Numbers
  import opened Expression

  /** The operations eval_rec asks of its number type N. */
  datatype Arith<!N> = Arith(
    lit: real -> N,
    add: (N, N) -> N,
    sub: (N, N) -> N,
    mul: (N, N) -> N,
    div: (N, N) -> Result<N, MathError>,
    pow: (N, N) -> Result<N, MathError>,
    neg: N -> N,
    sin: N -> N,
    cos: N -> N,
    ln: N -> Result<N, MathError>,
    exp: N -> N,
    sqrt: N -> Result<N, MathError>)

  function ApplyBinary<N>(ops: Arith<N>, op: BinaryOp, x: N, y: N): Result<N, MathError> {
    match op
    case Add => Success(ops.add(x, y))
    case Sub => Success(ops.sub(x, y))
    case Mul => Success(ops.mul(x, y))
    case Div => ops.div(x, y)
    case Pow => ops.pow(x, y)
  }

  function ApplyUnary<N>(ops: Arith<N>, op: UnaryOp, x: N): Result<N, MathError> {
    match op
    case Neg => Success(ops.neg(x))
    case Sin => Success(ops.sin(x))
    case Cos => Success(ops.cos(x))
    case Ln => ops.ln(x)
    case Exp => Success(ops.exp(x))
    case Sqrt => ops.sqrt(x)
  }

  /**
   * eval_rec: a constant becomes a number, a variable is looked up through
   * `seed`, and an operator node evaluates its left operand, then its right
   * one, then applies the operation; the first failure is the result.
   */
  function EvalRec<N>(ops: Arith<N>, seed: string -> Result<N, MathError>, e: Expr): Result<N, MathError> {
    match e
    case Const(v) => Success(ops.lit(v))
    case Var(name) => seed(name)
    case Binary(op, l, r) =>
      var x :- EvalRec(ops, seed, l);
      var y :- EvalRec(ops, seed, r);
      ApplyBinary(ops, op, x, y)
    case Unary(op, a) =>
      var x :- EvalRec(ops, seed, a);
      ApplyUnary(ops, op, x)
  }

  /** The Float number type. */
  function FloatOps(lib: MathLib): Arith<real> {
    Arith(
      v => v,
      (x, y) => x + y,
      (x, y) => x - y,
      (x, y) => x * y,
      (x, y) => EDiv(x, y),
      (x, y) => EPow(lib, x, y),
      x => -x,
      x => lib.sin(x),
      x => lib.cos(x),
      x => ELog(lib, x),
      x => lib.exp(x),
      x => ESqrt(lib, x))
  }

  /** The Dual number type. */
  function DualOps(lib: MathLib): Arith<Dual> {
    Arith(
      v => DualConst(v),
      (x, y) => DualAdd(x, y),
      (x, y) => DualSub(x, y),
      (x, y) => DualMul(x, y),
      (x, y) => DualDiv(x, y),
      (x, y) => DualPow(lib, x, y),
      x => DualNeg(x),
      x => DualSin(lib, x),
      x => DualCos(lib, x),
      x => DualLn(lib, x),
      x => DualExp(lib, x),
      x => DualSqrt(lib, x))
  }

  type Env = map<string, real>

  /** The seed of Expr::eval: the variable's value, or "undefined variable". */
  function EnvSeed(env: Env): string -> Result<real, MathError> {
    name => if name in env then Success(env[name]) else Failure(UndefinedVariable(name))
  }

  /**
   * The seed of Expr::diff: the variable differentiated against is (v, 1, not
   * constant), every other variable is (v, 0, constant).
   */
  function DualSeed(env: Env, x: string): string -> Result<Dual, MathError> {
    name =>
      if name !in env then Failure(UndefinedVariable(name))
      else if name == x then Success(Dual(env[name], 1.0, false))
      else Success(Dual(env[name], 0.0, true))
  }

  /** Expr::eval */
  function Eval(lib: MathLib, e: Expr, env: Env): (r: Result<real, MathError>)
    ensures r.Failure? ==> r.error == DomainError || r.error.UndefinedVariable?
  {
    FloatFailsOnlyInDomain(lib);
    EnvSeedBinds(env);
    EvalRecFailures(FloatOps(lib), EnvSeed(env), env.Keys, e);
    EvalRec(FloatOps(lib), EnvSeed(env), e)
  }

  /** The dual number Expr::diff computes before it takes the derivative part. */
  function DualEval(lib: MathLib, e: Expr, x: string, env: Env): Result<Dual, MathError> {
    EvalRec(DualOps(lib), DualSeed(env, x), e)
  }

  /** Expr::diff */
  function Diff(lib: MathLib, e: Expr, x: string, env: Env): (r: Result<real, MathError>)
    ensures r.Failure? ==> r.error == DomainError || r.error.UndefinedVariable?
  {
    DualFailsOnlyInDomain(lib);
    DualSeedBinds(env, x);
    EvalRecFailures(DualOps(lib), DualSeed(env, x), env.Keys, e);
    var d :- DualEval(lib, e, x, env);
    Success(d.deriv)
  }

  // ---------------------------------------------------------------------------
  // Which failure is reported.

  /** The first name of vs that is not in keys. */
  function FirstMissing(vs: seq<string>, keys: set<string>): (r: Option<string>)
    ensures r.None? <==> forall k :: 0 <= k < |vs| ==> vs[k] in keys
    ensures r.Some? ==> r.value !in keys
    ensures r.Some? ==>
      exists k :: 0 <= k < |vs| && vs[k] == r.value && (forall j :: 0 <= j < k ==> vs[j] in keys)
  {
    if vs == [] then None
    else if vs[0] !in keys then Some(vs[0])
    else
      var r := FirstMissing(vs[1..], keys);
      assert forall k :: 1 <= k < |vs| ==> vs[k] == vs[1..][k - 1];
      r
  }

  lemma {:induction false} FirstMissingConcat(a: seq<string>, b: seq<string>, keys: set<string>)
    ensures FirstMissing(a + b, keys) ==
      if FirstMissing(a, keys).Some? then FirstMissing(a, keys) else FirstMissing(b, keys)
  {
    if a == [] {
      assert a + b == b;
    } else {
      assert (a + b)[0] == a[0] && (a + b)[1..] == a[1..] + b;
      FirstMissingConcat(a[1..], b, keys);
    }
  }

  /** The fallible operations of ops fail with a domain error only. */
  ghost predicate FailsOnlyInDomain<N(!new)>(ops: Arith<N>) {
    (forall x, y :: ops.div(x, y).Failure? ==> ops.div(x, y).error == DomainError) &&
    (forall x, y :: ops.pow(x, y).Failure? ==> ops.pow(x, y).error == DomainError) &&
    (forall x :: ops.ln(x).Failure? ==> ops.ln(x).error == DomainError) &&
    (forall x :: ops.sqrt(x).Failure? ==> ops.sqrt(x).error == DomainError)
  }

  /** seed succeeds exactly on keys and otherwise reports the name as undefined. */
  ghost predicate BindsExactly<N>(seed: string -> Result<N, MathError>, keys: set<string>) {
    forall name :: (seed(name).Success? <==> name in keys) &&
      (seed(name).Failure? ==> seed(name).error == UndefinedVariable(name))
  }

  lemma FloatFailsOnlyInDomain(lib: MathLib)
    ensures FailsOnlyInDomain(FloatOps(lib))
  {
  }

  lemma DualFailsOnlyInDomain(lib: MathLib)
    ensures FailsOnlyInDomain(DualOps(lib))
  {
  }

  lemma EnvSeedBinds(env: Env)
    ensures BindsExactly(EnvSeed(env), env.Keys)
  {
  }

  lemma DualSeedBinds(env: Env, x: string)
    ensures BindsExactly(DualSeed(env, x), env.Keys)
  {
  }

  /**
   * A walk fails with a domain error, or with "undefined variable" naming the
   * leftmost occurrence of a name the seed does not bind; it succeeds only if
   * every name occurring in the tree is bound.
   */
  lemma {:induction false} EvalRecFailures<N(!new)>(ops: Arith<N>, seed: string -> Result<N, MathError>,
                                                    keys: set<string>, e: Expr)
    requires FailsOnlyInDomain(ops) && BindsExactly(seed, keys)
    ensures EvalRec(ops, seed, e).Success? ==> FirstMissing(VarList(e), keys).None?
    ensures EvalRec(ops, seed, e).Failure? ==>
      EvalRec(ops, seed, e).error == DomainError ||
      (FirstMissing(VarList(e), keys).Some? &&
       EvalRec(ops, seed, e).error == UndefinedVariable(FirstMissing(VarList(e), keys).value))
  {
    match e
    case Const(_) =>
    case Var(name) =>
      assert VarList(e) == [name];
    case Binary(op, l, r) =>
      EvalRecFailures(ops, seed, keys, l);
      EvalRecFailures(ops, seed, keys, r);
      FirstMissingConcat(VarList(l), VarList(r), keys);
    case Unary(op, a) =>
      EvalRecFailures(ops, seed, keys, a);
  }

  /** Expr::eval succeeds only if env binds every variable of the expression. */
  lemma EvalNeedsAllVariables(lib: MathLib, e: Expr, env: Env)
    requires Eval(lib, e, env).Success?
    ensures forall v :: v in VarList(e) ==> v in env
  {
    FloatFailsOnlyInDomain(lib);
    EnvSeedBinds(env);
    EvalRecFailures(FloatOps(lib), EnvSeed(env), env.Keys, e);
  }

  /** "undefined variable" from Expr::eval names the leftmost unbound occurrence. */
  lemma EvalReportsFirstMissing(lib: MathLib, e: Expr, env: Env, v: string)
    requires Eval(lib, e, env) == Failure(UndefinedVariable(v))
    ensures FirstMissing(VarList(e), env.Keys) == Some(v)
  {
    FloatFailsOnlyInDomain(lib);
    EnvSeedBinds(env);
    EvalRecFailures(FloatOps(lib), EnvSeed(env), env.Keys, e);
  }

  /** The same two facts for Expr::diff. */
  lemma DiffReportsFirstMissing(lib: MathLib, e: Expr, x: string, env: Env)
    ensures Diff(lib, e, x, env).Success? ==> forall v :: v in VarList(e) ==> v in env
    ensures Diff(lib, e, x, env).Failure? && Diff(lib, e, x, env).error.UndefinedVariable? ==>
      FirstMissing(VarList(e), env.Keys) == Some(Diff(lib, e, x, env).error.name)
  {
    DualFailsOnlyInDomain(lib);
    DualSeedBinds(env, x);
    EvalRecFailures(DualOps(lib), DualSeed(env, x), env.Keys, e);
  }

  // ---------------------------------------------------------------------------
  // Expr::diff agrees with Expr::eval: the value part of the dual number is the
  // plain value, and differentiation fails wherever evaluation fails (and, for
  // sqrt at a zero root, also where it does not).

  /** d, computed over dual numbers, refines f, computed over plain numbers. */
  ghost predicate Refines(f: Result<real, MathError>, d: Result<Dual, MathError>) {
    && (d.Success? ==> f == Success(d.value.val))
    && (f.Failure? ==> d.Failure?)
    && (f.Failure? && f.error == DomainError ==> d == Failure(DomainError))
    && (d.Failure? && d.error.UndefinedVariable? ==> f == Failure(d.error))
    && (d.Failure? ==> d.error == DomainError || d.error.UndefinedVariable?)
  }

  lemma BinaryRefines(lib: MathLib, op: BinaryOp, x: Dual, y: Dual)
    ensures Refines(ApplyBinary(FloatOps(lib), op, x.val, y.val), ApplyBinary(DualOps(lib), op, x, y))
  {
    match op
    case Div =>
      assert ApplyBinary(DualOps(lib), op, x, y) == DualDiv(x, y);
      assert ApplyBinary(FloatOps(lib), op, x.val, y.val) == EDiv(x.val, y.val);
    case Pow =>
      assert ApplyBinary(DualOps(lib), op, x, y) == DualPow(lib, x, y);
      assert ApplyBinary(FloatOps(lib), op, x.val, y.val) == EPow(lib, x.val, y.val);
    case Add =>
      assert ApplyBinary(DualOps(lib), op, x, y) == Success(DualAdd(x, y));
    case Sub =>
      assert ApplyBinary(DualOps(lib), op, x, y) == Success(DualSub(x, y));
    case Mul =>
      assert ApplyBinary(DualOps(lib), op, x, y) == Success(DualMul(x, y));
      assert DualMul(x, y).val == x.val * y.val == FloatOps(lib).mul(x.val, y.val);
  }

  lemma UnaryRefines(lib: MathLib, op: UnaryOp, x: Dual)
    ensures Refines(ApplyUnary(FloatOps(lib), op, x.val), ApplyUnary(DualOps(lib), op, x))
  {
  }

  lemma {:induction false} DualRefinesFloat(lib: MathLib, e: Expr, x: string, env: Env)
    ensures Refines(EvalRec(FloatOps(lib), EnvSeed(env), e), DualEval(lib, e, x, env))
  {
    match e
    case Const(_) =>
    case Var(_) =>
    case Binary(op, l, r) =>
      DualRefinesFloat(lib, l, x, env);
      DualRefinesFloat(lib, r, x, env);
      var dl, dr := DualEval(lib, l, x, env), DualEval(lib, r, x, env);
      if dl.Success? && dr.Success? {
        BinaryRefines(lib, op, dl.value, dr.value);
        assert EvalRec(FloatOps(lib), EnvSeed(env), e) == ApplyBinary(FloatOps(lib), op, dl.value.val, dr.value.val);
        assert DualEval(lib, e, x, env) == ApplyBinary(DualOps(lib), op, dl.value, dr.value);
      }
    case Unary(op, a) =>
      DualRefinesFloat(lib, a, x, env);
      var da := DualEval(lib, a, x, env);
      if da.Success? {
        UnaryRefines(lib, op, da.value);
      }
  }

  /**
   * Whenever Expr::diff succeeds, Expr::eval succeeds on the same input; a
   * domain error of eval is one of diff too, and an undefined variable
   * reported by diff is the one eval reports.
   */
  lemma DiffAgreesWithEval(lib: MathLib, e: Expr, x: string, env: Env)
    ensures DualEval(lib, e, x, env).Success? ==> Eval(lib, e, env) == Success(DualEval(lib, e, x, env).value.val)
    ensures Diff(lib, e, x, env).Success? ==> Eval(lib, e, env).Success?
    ensures Eval(lib, e, env) == Failure(DomainError) ==> Diff(lib, e, x, env) == Failure(DomainError)
    ensures Diff(lib, e, x, env).Failure? && Diff(lib, e, x, env).error.UndefinedVariable? ==>
      Eval(lib, e, env) == Diff(lib, e, x, env)
  {
    DualRefinesFloat(lib, e, x, env);
  }

  /**
   * The constant flag of the dual result is set exactly when the variable
   * differentiated against does not occur in the expression.
   */
  lemma {:induction false} ConstantFlagTracksVariable(lib: MathLib, e: Expr, x: string, env: Env)
    requires DualEval(lib, e, x, env).Success?
    ensures DualEval(lib, e, x, env).value.cons <==> x !in VarList(e)
  {
    match e
    case Const(_) =>
    case Var(_) =>
    case Binary(op, l, r) =>
      ConstantFlagTracksVariable(lib, l, x, env);
      ConstantFlagTracksVariable(lib, r, x, env);
      if op == Pow {
        var dl, dr := DualEval(lib, l, x, env).value, DualEval(lib, r, x, env).value;
        assert DualEval(lib, e, x, env) == DualPow(lib, dl, dr);
      }
    case Unary(op, a) =>
      ConstantFlagTracksVariable(lib, a, x, env);
  }

  /**
   * Where the argument of sqrt evaluates to zero, Expr::eval yields the root
   * but Expr::diff fails: the derivative divides by 2 * sqrt(0).
   */
  lemma DiffSqrtAtZero(lib: MathLib, a: Expr, x: string, env: Env)
    requires lib.sqrt(0.0) == 0.0
    requires DualEval(lib, a, x, env).Success? && DualEval(lib, a, x, env).value.val == 0.0
    ensures Eval(lib, Unary(Sqrt, a), env) == Success(0.0)
    ensures Diff(lib, Unary(Sqrt, a), x, env) == Failure(DomainError)
  {
    DualRefinesFloat(lib, a, x, env);
  }

  // ---------------------------------------------------------------------------
  // The derivative with respect to a variable that does not occur is zero,
  // with the rule for a constant exponent 1 that the comment in Dual::pow
  // describes (the base's derivative). The rule as written yields 1.0 instead.

  /** A constant exponent 1 gives the base's derivative. */
  function PowDerivIntended(lib: MathLib, x: Dual, y: Dual): Result<real, MathError> {
    if y.cons && y.val == 1.0 then Success(x.deriv) else PowDeriv(lib, x, y)
  }

  function DualPowIntended(lib: MathLib, x: Dual, y: Dual): Result<Dual, MathError> {
    var d :- PowDerivIntended(lib, x, y);
    Success(Dual(lib.pow(x.val, y.val), d, x.cons && y.cons))
  }

  function DualOpsIntended(lib: MathLib): Arith<Dual> {
    DualOps(lib).(pow := (x, y) => DualPowIntended(lib, x, y))
  }

  /** Expr::diff with the intended rule for a constant exponent 1. */
  function DiffIntended(lib: MathLib, e: Expr, x: string, env: Env): Result<real, MathError> {
    var d :- EvalRec(DualOpsIntended(lib), DualSeed(env, x), e);
    Success(d.deriv)
  }

  predicate HasPow(e: Expr) {
    match e
    case Const(_) => false
    case Var(_) => false
    case Binary(op, l, r) => op == Pow || HasPow(l) || HasPow(r)
    case Unary(_, a) => HasPow(a)
  }

  /** pow maps two numbers of derivative zero to a number of derivative zero. */
  ghost predicate KeepsZeroDeriv(pow: (Dual, Dual) -> Result<Dual, MathError>) {
    forall x: Dual, y: Dual :: x.deriv == 0.0 && y.deriv == 0.0 && pow(x, y).Success? ==> pow(x, y).value.deriv == 0.0
  }

  lemma BinaryKeepsZeroDeriv(lib: MathLib, pow: (Dual, Dual) -> Result<Dual, MathError>,
                             op: BinaryOp, a: Dual, b: Dual)
    requires a.deriv == 0.0 && b.deriv == 0.0
    requires op == Pow ==> KeepsZeroDeriv(pow)
    requires ApplyBinary(DualOps(lib).(pow := pow), op, a, b).Success?
    ensures ApplyBinary(DualOps(lib).(pow := pow), op, a, b).value.deriv == 0.0
  {
    match op
    case Mul =>
      assert a.deriv * b.val == 0.0 && a.val * b.deriv == 0.0;
    case Div =>
      assert ApplyBinary(DualOps(lib).(pow := pow), op, a, b) == DualDiv(a, b);
    case _ =>
  }

  lemma UnaryKeepsZeroDeriv(lib: MathLib, pow: (Dual, Dual) -> Result<Dual, MathError>, op: UnaryOp, a: Dual)
    requires a.deriv == 0.0
    requires ApplyUnary(DualOps(lib).(pow := pow), op, a).Success?
    ensures ApplyUnary(DualOps(lib).(pow := pow), op, a).value.deriv == 0.0
  {
  }

  lemma {:induction false} DerivVanishes(lib: MathLib, pow: (Dual, Dual) -> Result<Dual, MathError>,
                                         e: Expr, x: string, env: Env)
    requires x !in VarList(e)
    requires KeepsZeroDeriv(pow) || !HasPow(e)
    requires EvalRec(DualOps(lib).(pow := pow), DualSeed(env, x), e).Success?
    ensures EvalRec(DualOps(lib).(pow := pow), DualSeed(env, x), e).value.deriv == 0.0
  {
    var ops := DualOps(lib).(pow := pow);
    match e
    case Const(_) =>
    case Var(_) =>
    case Binary(op, l, r) =>
      DerivVanishes(lib, pow, l, x, env);
      DerivVanishes(lib, pow, r, x, env);
      var dl, dr := EvalRec(ops, DualSeed(env, x), l).value, EvalRec(ops, DualSeed(env, x), r).value;
      BinaryKeepsZeroDeriv(lib, pow, op, dl, dr);
    case Unary(op, a) =>
      DerivVanishes(lib, pow, a, x, env);
      UnaryKeepsZeroDeriv(lib, pow, op, EvalRec(ops, DualSeed(env, x), a).value);
  }

  lemma IntendedPowKeepsZeroDeriv(lib: MathLib)
    ensures KeepsZeroDeriv(DualOpsIntended(lib).pow)
  {
    forall x: Dual, y: Dual | x.deriv == 0.0 && y.deriv == 0.0 && DualPowIntended(lib, x, y).Success?
      ensures DualPowIntended(lib, x, y).value.deriv == 0.0
    {
    }
  }

  /** With the intended rule: the derivative by an absent variable is zero. */
  lemma DiffIntendedVanishes(lib: MathLib, e: Expr, x: string, env: Env)
    requires x !in VarList(e)
    requires DiffIntended(lib, e, x, env).Success?
    ensures DiffIntended(lib, e, x, env).value == 0.0
  {
    IntendedPowKeepsZeroDeriv(lib);
    DerivVanishes(lib, DualOpsIntended(lib).pow, e, x, env);
  }

  /** As written, the same holds for trees without a power node. */
  lemma DiffVanishesWithoutPow(lib: MathLib, e: Expr, x: string, env: Env)
    requires x !in VarList(e) && !HasPow(e)
    requires Diff(lib, e, x, env).Success?
    ensures Diff(lib, e, x, env).value == 0.0
  {
    assert DualOps(lib).(pow := DualOps(lib).pow) == DualOps(lib);
    DerivVanishes(lib, DualOps(lib).pow, e, x, env);
  }

  /**
   * As written it fails with a power node: y^1 differentiated by x, where x
   * does not occur, yields 1 instead of 0.
   */
  lemma UnitExponentAsWritten(lib: MathLib)
    ensures var e := Binary(Pow, Var("y"), Const(1.0));
            var env := map["x" := 0.0, "y" := 2.0];
            && "x" !in VarList(e)
            && Diff(lib, e, "x", env) == Success(1.0)
            && DiffIntended(lib, e, "x", env) == Success(0.0)
  {
  }
}
