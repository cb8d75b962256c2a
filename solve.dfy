/**
 * Newton's method for a system of equations (solve.h, solve.cpp).
 *
 * Starting from the initial bindings, every iteration builds the Jacobian of
 * the functions and their values at the current point, inverts the Jacobian
 * and steps to x1 = x0 - J^-1 y. The iteration stops with a solution as soon
 * as two consecutive points are equal within the tolerances, and fails when
 * the Jacobian has no inverse or the iteration budget runs out.
 *
 * `NewtonSolve` is the iteration as a recursive function; the method `Solve`
 * is the loop of solve.cpp, on Matrix objects, proved to compute it.
 */
module Solver {
  import opened Common
  import opened Expression
  import opened Numbers
  import opened Evaluation
  import opened Grids
  import GaussJordan
  import opened Matrices

  /** A variable name with its value (std::pair<std::string, double>). */
  type Binding = (string, real)

  /** The limits and tolerances of the iteration. */
  datatype Constraints = Constraints(minIters: nat, maxIters: nat, absEpsilon: real, relEpsilon: real)

  /** The default constraints: at least one and at most 100 iterations, both tolerances the machine epsilon. */
  const Defaults: Constraints := Constraints(1, 100, GaussJordan.Epsilon, GaussJordan.Epsilon)

  /** The result of a successful solve. */
  datatype Solution = Solution(
    iters: nat,         // the number of iterations performed
    maxDiff: real,      // the largest change of a variable in the last iteration
    vars: seq<Binding>) // the computed variables, in the order of the initial bindings

  // ---------------------------------------------------------------------------
  // Approximate equality.

  function Max(a: real, b: real): (r: real)
    ensures r >= a && r >= b && (r == a || r == b)
  {
    if a < b then b else a
  }

  /** a and b are equal absolutely, |a - b| <= absEps, or relatively, |a - b| <= max(|a|, |b|) relEps. */
  predicate Equals(a: real, b: real, absEps: real, relEps: real) {
    var delta := GaussJordan.Abs(a - b);
    var scale := Max(GaussJordan.Abs(a), GaussJordan.Abs(b));
    delta <= absEps || delta <= scale * relEps
  }

  /** Equality within tolerances is symmetric. */
  lemma EqualsSymmetric(a: real, b: real, absEps: real, relEps: real)
    ensures Equals(a, b, absEps, relEps) <==> Equals(b, a, absEps, relEps)
  {
    assert GaussJordan.Abs(a - b) == GaussJordan.Abs(b - a);
    assert Max(GaussJordan.Abs(a), GaussJordan.Abs(b)) == Max(GaussJordan.Abs(b), GaussJordan.Abs(a));
  }

  /** With a non-negative absolute tolerance every number equals itself. */
  lemma EqualsReflexive(a: real, absEps: real, relEps: real)
    requires absEps >= 0.0
    ensures Equals(a, a, absEps, relEps)
  {
    assert GaussJordan.Abs(a - a) == 0.0;
  }

  /**
   * Relative equality does not depend on the scale: with no absolute
   * tolerance, c a and c b are equal exactly when a and b are, for c > 0.
   */
  lemma RelativeEqualsScales(a: real, b: real, c: real, relEps: real)
    requires c > 0.0
    ensures Equals(c * a, c * b, 0.0, relEps) <==> Equals(a, b, 0.0, relEps)
  {
    ScaledEquals(a, b, c, relEps, c * a, c * b);
  }

  /** RelativeEqualsScales with the scaled numbers named a' and b'. */
  lemma ScaledEquals(a: real, b: real, c: real, relEps: real, a': real, b': real)
    requires c > 0.0 && a' == c * a && b' == c * b
    ensures Equals(a', b', 0.0, relEps) <==> Equals(a, b, 0.0, relEps)
  {
    var d, s := GaussJordan.Abs(a - b), Max(GaussJordan.Abs(a), GaussJordan.Abs(b));
    var d', s' := GaussJordan.Abs(a' - b'), Max(GaussJordan.Abs(a'), GaussJordan.Abs(b'));
    ScaledParts(a, b, c, a', b');
    ScaleBoth(d, s, c, relEps, d', s');
    RelativeTest(a', b', relEps, d', s');
    RelativeTest(a, b, relEps, d, s);
  }

  /** The relative test of Equals, with its difference and scale given as d and s. */
  lemma RelativeTest(a: real, b: real, relEps: real, d: real, s: real)
    requires d == GaussJordan.Abs(a - b) && s == Max(GaussJordan.Abs(a), GaussJordan.Abs(b))
    ensures Equals(a, b, 0.0, relEps) <==> (d <= 0.0 || d <= s * relEps)
  {
  }

  /** Scaling a and b by c > 0 scales their difference and their scale by c. */
  lemma ScaledParts(a: real, b: real, c: real, a': real, b': real)
    requires c > 0.0 && a' == c * a && b' == c * b
    ensures GaussJordan.Abs(a' - b') == c * GaussJordan.Abs(a - b)
    ensures Max(GaussJordan.Abs(a'), GaussJordan.Abs(b')) == c * Max(GaussJordan.Abs(a), GaussJordan.Abs(b))
  {
    Distribute(c, a, b, a', b');
    AbsScales(c, a - b, a' - b');
    ScaleScales(a, b, c, a', b');
  }

  lemma ScaleScales(a: real, b: real, c: real, a': real, b': real)
    requires c > 0.0 && a' == c * a && b' == c * b
    ensures Max(GaussJordan.Abs(a'), GaussJordan.Abs(b')) == c * Max(GaussJordan.Abs(a), GaussJordan.Abs(b))
  {
    AbsScales(c, a, a');
    AbsScales(c, b, b');
    MaxScales(c, GaussJordan.Abs(a), GaussJordan.Abs(b), GaussJordan.Abs(a'), GaussJordan.Abs(b'));
  }

  lemma Distribute(c: real, a: real, b: real, a': real, b': real)
    requires a' == c * a && b' == c * b
    ensures a' - b' == c * (a - b)
  {
  }

  lemma AbsScales(c: real, x: real, x': real)
    requires c > 0.0 && x' == c * x
    ensures GaussJordan.Abs(x') == c * GaussJordan.Abs(x)
  {
    if x < 0.0 {
      assert x' < 0.0;
    } else {
      assert x' >= 0.0;
    }
  }

  lemma MaxScales(c: real, x: real, y: real, x': real, y': real)
    requires c > 0.0 && x' == c * x && y' == c * y
    ensures Max(x', y') == c * Max(x, y)
  {
    if x < y {
      assert x' < y';
    } else {
      assert x' >= y';
    }
  }

  /** Scaling both the difference and the scale by c > 0 keeps the relative test. */
  lemma ScaleBoth(d: real, s: real, c: real, relEps: real, d': real, s': real)
    requires c > 0.0 && d' == c * d && s' == c * s
    ensures (d' <= 0.0 || d' <= s' * relEps) <==> (d <= 0.0 || d <= s * relEps)
  {
    assert (c * s) * relEps == c * (s * relEps);
    if d <= s * relEps {
      assert c * d <= c * (s * relEps);
    }
    if c * d <= c * (s * relEps) {
      assert d <= s * relEps;
    }
    if d <= 0.0 {
      assert c * d <= 0.0;
    }
    if c * d <= 0.0 {
      assert d <= 0.0;
    }
  }

  /** Two matrices of one shape are equal within the tolerances, cell by cell. */
  predicate Close(a: Grid, b: Grid, h: nat, w: nat, constr: Constraints)
    requires IsGrid(a, h, w) && IsGrid(b, h, w)
  {
    forall i, j :: 0 <= i < h && 0 <= j < w ==> Equals(a[i][j], b[i][j], constr.absEpsilon, constr.relEpsilon)
  }

  /** matrix_equals: every cell of a equal to its counterpart in b, stopping at the first that is not. */
  method MatrixEquals(a: Matrix, b: Matrix, constr: Constraints) returns (equal: bool)
    requires a.Valid() && b.Valid() && b.height == a.height && b.width == a.width
    ensures equal == Close(a.rows, b.rows, a.height, a.width, constr)
  {
    var i := 0;
    while i < a.height
      invariant i <= a.height
      invariant forall q, c :: 0 <= q < i && 0 <= c < a.width ==>
        Equals(a.rows[q][c], b.rows[q][c], constr.absEpsilon, constr.relEpsilon)
    {
      var j := 0;
      while j < a.width
        invariant j <= a.width
        invariant forall q, c :: 0 <= q < a.height && 0 <= c < a.width && (q < i || (q == i && c < j)) ==>
          Equals(a.rows[q][c], b.rows[q][c], constr.absEpsilon, constr.relEpsilon)
      {
        if !Equals(a.Get(i, j), b.Get(i, j), constr.absEpsilon, constr.relEpsilon) {
          return false;
        }
        j := j + 1;
      }
      i := i + 1;
    }
    return true;
  }

  // ---------------------------------------------------------------------------
  // Matrices whose cells may fail to evaluate.

  /** Cells 0 .. w - 1 of row i, or the failure of the first cell that fails. */
  function TabulateRow(f: (nat, nat) -> Result<real, MathError>, i: nat, w: nat): (r: Result<seq<real>, MathError>)
    ensures r.Success? ==> |r.value| == w
  {
    if w == 0 then Success([])
    else
      var front :- TabulateRow(f, i, w - 1);
      var c :- f(i, w - 1);
      Success(front + [c])
  }

  /**
   * The h x w matrix of the cells f(i, j), computed row by row like the
   * seeded Matrix constructor, or the failure of the first cell that fails.
   */
  function Tabulate(f: (nat, nat) -> Result<real, MathError>, h: nat, w: nat): (r: Result<Grid, MathError>)
    ensures r.Success? ==> IsGrid(r.value, h, w)
  {
    if h == 0 then Success([])
    else
      var front :- Tabulate(f, h - 1, w);
      var row :- TabulateRow(f, h - 1, w);
      Success(front + [row])
  }

  /** A row is computed exactly when each of its cells is, and holds their values. */
  lemma {:induction false} TabulateRowCells(f: (nat, nat) -> Result<real, MathError>, i: nat, w: nat)
    ensures TabulateRow(f, i, w).Success? <==> forall j :: 0 <= j < w ==> f(i, j).Success?
    ensures TabulateRow(f, i, w).Success? ==> forall j :: 0 <= j < w ==> f(i, j) == Success(TabulateRow(f, i, w).value[j])
  {
    if w > 0 {
      TabulateRowCells(f, i, w - 1);
    }
  }

  /** A matrix is computed exactly when each of its cells is, and holds their values. */
  lemma {:induction false} TabulateCells(f: (nat, nat) -> Result<real, MathError>, h: nat, w: nat)
    ensures Tabulate(f, h, w).Success? <==> forall i, j :: 0 <= i < h && 0 <= j < w ==> f(i, j).Success?
    ensures Tabulate(f, h, w).Success? ==>
      forall i, j :: 0 <= i < h && 0 <= j < w ==> f(i, j) == Success(Tabulate(f, h, w).value[i][j])
  {
    if h > 0 {
      TabulateCells(f, h - 1, w);
      TabulateRowCells(f, h - 1, w);
    }
  }

  /** A failure in the first w cells of row i is the failure of the whole row. */
  lemma {:induction false} RowFailurePersists(f: (nat, nat) -> Result<real, MathError>, i: nat, j: nat, w: nat)
    requires j <= w && TabulateRow(f, i, j).Failure?
    ensures TabulateRow(f, i, w) == TabulateRow(f, i, j)
    decreases w
  {
    if j < w {
      RowFailurePersists(f, i, j, w - 1);
    }
  }

  /** A failure in the first i rows is the failure of the whole matrix. */
  lemma {:induction false} FailurePersists(f: (nat, nat) -> Result<real, MathError>, i: nat, h: nat, w: nat)
    requires i <= h && Tabulate(f, i, w).Failure?
    ensures Tabulate(f, h, w) == Tabulate(f, i, w)
    decreases h
  {
    if i < h {
      FailurePersists(f, i, h - 1, w);
    }
  }

  /** The failure reported is that of the first cell to fail in row-major order. */
  lemma TabulateReportsFirstFailure(f: (nat, nat) -> Result<real, MathError>, h: nat, w: nat, i: nat, j: nat)
    requires i < h && j < w && f(i, j).Failure?
    requires forall q, c :: 0 <= q < h && 0 <= c < w && (q < i || (q == i && c < j)) ==> f(q, c).Success?
    ensures Tabulate(f, h, w) == Failure(f(i, j).error)
  {
    TabulateRowCells(f, i, j);
    assert TabulateRow(f, i, j + 1) == Failure(f(i, j).error);
    RowFailurePersists(f, i, j + 1, w);
    TabulateCells(f, i, w);
    assert Tabulate(f, i + 1, w) == Failure(f(i, j).error);
    FailurePersists(f, i + 1, h, w);
  }

  /** The seeded Matrix constructor with a seed that may fail: the first failure propagates. */
  method TabulateMatrix(f: (nat, nat) -> Result<real, MathError>, h: nat, w: nat) returns (r: Result<Matrix, MathError>)
    ensures r.Success? <==> Tabulate(f, h, w).Success?
    ensures r.Failure? ==> r.error == Tabulate(f, h, w).error
    ensures r.Success? ==> fresh(r.value) && r.value.Valid() && r.value.height == h && r.value.width == w
    ensures r.Success? ==> r.value.rows == Tabulate(f, h, w).value
  {
    var m := new Matrix.Zero(h, w);
    var i := 0;
    while i < h
      invariant i <= h && m.Valid() && m.height == h && m.width == w && fresh(m) && fresh(m.cells)
      invariant Tabulate(f, i, w).Success? && m.rows[..i] == Tabulate(f, i, w).value
    {
      ghost var before := m.rows;
      var failure := FillRow(f, m, i);
      if failure.Some? {
        assert Tabulate(f, i + 1, w) == Failure(failure.value);
        FailurePersists(f, i + 1, h, w);
        return Failure(failure.value);
      }
      assert m.rows[..i + 1] == before[..i] + [m.rows[i]];
      i := i + 1;
    }
    assert m.rows[..h] == m.rows;
    return Success(m);
  }

  /** Row i of m filled with f(i, 0), f(i, 1), ... in turn, or the failure of the first cell that fails. */
  method FillRow(f: (nat, nat) -> Result<real, MathError>, m: Matrix, i: nat) returns (failure: Option<MathError>)
    requires m.Valid() && i < m.height
    modifies m, m.cells
    ensures m.Valid()
    ensures failure.None? <==> TabulateRow(f, i, m.width).Success?
    ensures failure.Some? ==> TabulateRow(f, i, m.width) == Failure(failure.value)
    ensures failure.None? ==> m.rows == old(m.rows)[i := TabulateRow(f, i, m.width).value]
  {
    ghost var before := m.rows;
    var j := 0;
    while j < m.width
      invariant j <= m.width && m.Valid() && |m.rows[i]| == m.width
      invariant m.rows == before[i := m.rows[i]]
      invariant TabulateRow(f, i, j).Success? && m.rows[i][..j] == TabulateRow(f, i, j).value
    {
      var cell := f(i, j);
      if cell.Failure? {
        assert TabulateRow(f, i, j + 1) == Failure(cell.error);
        RowFailurePersists(f, i, j + 1, m.width);
        return Some(cell.error);
      }
      ghost var row := m.rows[i];
      m.Set(i, j, cell.value);
      assert m.rows[i] == row[j := cell.value];
      assert m.rows[i][..j + 1] == row[..j] + [cell.value];
      j := j + 1;
    }
    assert m.rows[i] == m.rows[i][..m.width];
    return None;
  }

  // ---------------------------------------------------------------------------
  // One iteration.

  /** The environment of an iteration: each initial name bound to its current value, later names overriding earlier ones. */
  function Bind(init: seq<Binding>, x: Grid, n: nat): Env
    requires IsGrid(x, |init|, 1) && n <= |init|
  {
    if n == 0 then map[] else Bind(init, x, n - 1)[init[n - 1].0 := x[n - 1][0]]
  }

  /** The environment binds exactly the initial names, each to the value of its last occurrence. */
  lemma {:induction false} BindBinds(init: seq<Binding>, x: Grid, n: nat)
    requires IsGrid(x, |init|, 1) && n <= |init|
    ensures forall name :: name in Bind(init, x, n) <==> exists i :: 0 <= i < n && init[i].0 == name
    ensures forall i :: 0 <= i < n && (forall j :: i < j < n ==> init[j].0 != init[i].0) ==>
      Bind(init, x, n)[init[i].0] == x[i][0]
  {
    if n > 0 {
      BindBinds(init, x, n - 1);
    }
  }

  /** The environment of the current point x0. */
  method Environment(init: seq<Binding>, x0: Matrix) returns (env: Env)
    requires x0.Valid() && x0.height == |init| && x0.width == 1
    ensures env == Bind(init, x0.rows, |init|)
  {
    env := map[];
    var i := 0;
    while i < |init|
      invariant i <= |init| && env == Bind(init, x0.rows, i)
    {
      env := env[init[i].0 := x0.Get(i, 0)];
      i := i + 1;
    }
  }

  /** Cell (i, j) of the Jacobian: function i differentiated against variable j. */
  function JacobianSeed(lib: MathLib, funcs: seq<Expr>, init: seq<Binding>, env: Env): (nat, nat) -> Result<real, MathError> {
    (i: nat, j: nat) => if i < |funcs| && j < |init| then Diff(lib, funcs[i], init[j].0, env) else Success(0.0)
  }

  /** Cell (i, 0) of the residual vector: the value of function i. */
  function ResidualSeed(lib: MathLib, funcs: seq<Expr>, env: Env): (nat, nat) -> Result<real, MathError> {
    (i: nat, j: nat) => if i < |funcs| then Eval(lib, funcs[i], env) else Success(0.0)
  }

  /** The |funcs| x |init| Jacobian at x0. */
  function Jacobian(lib: MathLib, funcs: seq<Expr>, init: seq<Binding>, x0: Grid): Result<Grid, MathError>
    requires IsGrid(x0, |init|, 1)
  {
    Tabulate(JacobianSeed(lib, funcs, init, Bind(init, x0, |init|)), |funcs|, |init|)
  }

  /** The |funcs| x 1 vector of function values at x0. */
  function Residuals(lib: MathLib, funcs: seq<Expr>, init: seq<Binding>, x0: Grid): Result<Grid, MathError>
    requires IsGrid(x0, |init|, 1)
  {
    Tabulate(ResidualSeed(lib, funcs, Bind(init, x0, |init|)), |funcs|, 1)
  }

  /**
   * Iteration k from x0: the next point x0 - J^-1 y, or the failure of an
   * evaluation, or Stuck(k) when the Jacobian has no inverse.
   */
  function NextPoint(lib: MathLib, funcs: seq<Expr>, init: seq<Binding>, x0: Grid, k: nat): (r: Result<Grid, MathError>)
    requires IsGrid(x0, |init|, 1)
    ensures r.Success? ==> IsGrid(r.value, |init|, 1)
    ensures r.Success? ==> |funcs| == |init|
  {
    var jac :- Jacobian(lib, funcs, init, x0);
    var y :- Residuals(lib, funcs, init, x0);
    match GaussJordan.Inverse(jac, |funcs|, |init|)
    case None => Failure(Stuck(k))
    case Some(inv) =>
      Success(CellWise(x0, Product(inv, y, |init|, |init|, 1), |init|, 1, (a, b) => a - b))
  }

  /**
   * The step solves the linearised system: whenever J d = y, the next point
   * is x0 - d.
   */
  lemma StepSolvesLinearSystem(lib: MathLib, funcs: seq<Expr>, init: seq<Binding>, x0: Grid, k: nat, d: Grid)
    requires IsGrid(x0, |init|, 1) && IsGrid(d, |init|, 1)
    requires Jacobian(lib, funcs, init, x0).Success? && Residuals(lib, funcs, init, x0).Success?
    requires Product(Jacobian(lib, funcs, init, x0).value, d, |funcs|, |init|, 1) == Residuals(lib, funcs, init, x0).value
    requires NextPoint(lib, funcs, init, x0, k).Success?
    ensures forall i :: 0 <= i < |init| ==> NextPoint(lib, funcs, init, x0, k).value[i][0] == x0[i][0] - d[i][0]
  {
    var n := |init|;
    var jac, y := Jacobian(lib, funcs, init, x0).value, Residuals(lib, funcs, init, x0).value;
    var inv := GaussJordan.Inverse(jac, n, n).value;
    ProductAssociative(inv, jac, d, n, n, n, 1);
    IdentityLeft(d, n, 1);
    assert Product(inv, y, n, n, 1) == d;
  }

  /** Once the Jacobian and the residuals are computed, the iteration fails exactly when the Jacobian has no inverse, and then with Stuck(k). */
  lemma NoInverseIsStuck(lib: MathLib, funcs: seq<Expr>, init: seq<Binding>, x0: Grid, k: nat)
    requires IsGrid(x0, |init|, 1)
    requires Jacobian(lib, funcs, init, x0).Success? && Residuals(lib, funcs, init, x0).Success?
    ensures NextPoint(lib, funcs, init, x0, k).Failure? <==>
      GaussJordan.Inverse(Jacobian(lib, funcs, init, x0).value, |funcs|, |init|).None?
    ensures NextPoint(lib, funcs, init, x0, k).Failure? ==> NextPoint(lib, funcs, init, x0, k).error == Stuck(k)
  {
  }

  /** Iteration k on the current point x0 (the body of the loop of solve, up to the convergence test). */
  method Step(lib: MathLib, funcs: seq<Expr>, init: seq<Binding>, x0: Matrix, k: nat) returns (r: Result<Matrix, MathError>)
    requires x0.Valid() && x0.height == |init| && x0.width == 1
    ensures r.Success? <==> NextPoint(lib, funcs, init, x0.rows, k).Success?
    ensures r.Failure? ==> r.error == NextPoint(lib, funcs, init, x0.rows, k).error
    ensures r.Success? ==> fresh(r.value) && r.value.Valid() && r.value.height == |init| && r.value.width == 1
    ensures r.Success? ==> r.value.rows == NextPoint(lib, funcs, init, x0.rows, k).value
  {
    var env := Environment(init, x0);
    var jac :- TabulateMatrix(JacobianSeed(lib, funcs, init, env), |funcs|, |init|);
    var y :- TabulateMatrix(ResidualSeed(lib, funcs, env), |funcs|, 1);
    var inv := jac.Inverse();
    if inv.None? {
      return Failure(Stuck(k));
    }
    var step := inv.value.Mul(y);
    var x1 := x0.Sub(step.value);
    Difference(x0.rows, step.value.rows, x1.value.rows, |init|);
    return Success(x1.value);
  }

  /** Cell-by-cell differences make up the difference matrix. */
  lemma Difference(a: Grid, b: Grid, x: Grid, n: nat)
    requires IsGrid(a, n, 1) && IsGrid(b, n, 1) && IsGrid(x, n, 1)
    requires forall i, j :: 0 <= i < n && 0 <= j < 1 ==> x[i][j] == a[i][j] - b[i][j]
    ensures x == CellWise(a, b, n, 1, (p, q) => p - q)
  {
    SameGrid(x, CellWise(a, b, n, 1, (p, q) => p - q), n, 1);
  }

  // ---------------------------------------------------------------------------
  // The solution.

  /** The largest |x1[i] - x0[i]| over the first n variables, starting from zero. */
  function MaxDiff(x0: Grid, x1: Grid, n: nat): real
    requires |x0| >= n && |x1| >= n && forall i :: 0 <= i < n ==> |x0[i]| == 1 && |x1[i]| == 1
  {
    if n == 0 then 0.0 else Max(MaxDiff(x0, x1, n - 1), GaussJordan.Abs(x1[n - 1][0] - x0[n - 1][0]))
  }

  /** max_diff is non-negative, at least every |x1[i] - x0[i]|, and zero or one of them. */
  lemma {:induction false} MaxDiffIsMaximum(x0: Grid, x1: Grid, n: nat)
    requires |x0| >= n && |x1| >= n && forall i :: 0 <= i < n ==> |x0[i]| == 1 && |x1[i]| == 1
    ensures MaxDiff(x0, x1, n) >= 0.0
    ensures forall i :: 0 <= i < n ==> GaussJordan.Abs(x1[i][0] - x0[i][0]) <= MaxDiff(x0, x1, n)
    ensures MaxDiff(x0, x1, n) == 0.0 || exists i :: 0 <= i < n && MaxDiff(x0, x1, n) == GaussJordan.Abs(x1[i][0] - x0[i][0])
  {
    if n > 0 {
      MaxDiffIsMaximum(x0, x1, n - 1);
    }
  }

  /** The first n initial names, each with its value in x1. */
  function Vars(init: seq<Binding>, x1: Grid, n: nat): (r: seq<Binding>)
    requires n <= |init| && |x1| >= n && forall i :: 0 <= i < n ==> |x1[i]| == 1
    ensures |r| == n
  {
    if n == 0 then [] else Vars(init, x1, n - 1) + [(init[n - 1].0, x1[n - 1][0])]
  }

  /** Variable i of the solution is initial name i with its value in x1. */
  lemma {:induction false} VarsInOrder(init: seq<Binding>, x1: Grid, n: nat)
    requires n <= |init| && |x1| >= n && forall i :: 0 <= i < n ==> |x1[i]| == 1
    ensures forall i :: 0 <= i < n ==> Vars(init, x1, n)[i] == (init[i].0, x1[i][0])
  {
    if n > 0 {
      VarsInOrder(init, x1, n - 1);
    }
  }

  /** The solution reported at iteration k, when x0 and x1 are equal within the tolerances. */
  function Conclude(init: seq<Binding>, x0: Grid, x1: Grid, k: nat): Solution
    requires IsGrid(x0, |init|, 1) && IsGrid(x1, |init|, 1)
  {
    Solution(k, MaxDiff(x0, x1, |init|), Vars(init, x1, |init|))
  }

  /** The solution built one variable at a time. */
  method Finish(init: seq<Binding>, x0: Matrix, x1: Matrix, k: nat) returns (s: Solution)
    requires x0.Valid() && x1.Valid() && x0.height == |init| && x1.height == |init| && x0.width == 1 && x1.width == 1
    ensures s == Conclude(init, x0.rows, x1.rows, k)
  {
    var maxDiff := 0.0;
    var vars: seq<Binding> := [];
    var i := 0;
    while i < |init|
      invariant i <= |init|
      invariant maxDiff == MaxDiff(x0.rows, x1.rows, i) && vars == Vars(init, x1.rows, i)
    {
      maxDiff := Max(maxDiff, GaussJordan.Abs(x1.Get(i, 0) - x0.Get(i, 0)));
      vars := vars + [(init[i].0, x1.Get(i, 0))];
      i := i + 1;
    }
    return Solution(k, maxDiff, vars);
  }

  // ---------------------------------------------------------------------------
  // The iteration.

  /** The starting point: the initial values in their given order. */
  function InitSeed(init: seq<Binding>): (nat, nat) -> real {
    (i: nat, j: nat) => if i < |init| then init[i].1 else 0.0
  }

  /** step is defined on every point of n variables and leads to points of n variables. */
  ghost predicate KeepsShape(step: (Grid, nat) --> Result<Grid, MathError>, n: nat) {
    forall x, k :: IsGrid(x, n, 1) ==> step.requires(x, k) && (step(x, k).Success? ==> IsGrid(step(x, k).value, n, 1))
  }

  /** Newton's step for funcs over the variables of init. */
  function NewtonStep(lib: MathLib, funcs: seq<Expr>, init: seq<Binding>): (step: (Grid, nat) --> Result<Grid, MathError>)
    ensures KeepsShape(step, |init|)
  {
    (x: Grid, k: nat) requires IsGrid(x, |init|, 1) => NextPoint(lib, funcs, init, x, k)
  }

  /**
   * Iterations k, k + 1, ... from the point x0: the first iteration from
   * min_iters on whose point is close to the one before ends the iteration,
   * a failing step ends it with that failure, and so does passing max_iters.
   */
  function Iterate(step: (Grid, nat) --> Result<Grid, MathError>, init: seq<Binding>, constr: Constraints, x0: Grid, k: nat): (r: Result<Solution, MathError>)
    requires KeepsShape(step, |init|) && IsGrid(x0, |init|, 1)
    decreases constr.maxIters + 1 - k
  {
    if k > constr.maxIters then Failure(NoSolution)
    else
      var x1 :- step(x0, k);
      if k >= constr.minIters && Close(x0, x1, |init|, 1, constr) then Success(Conclude(init, x0, x1, k))
      else Iterate(step, init, constr, x1, k + 1)
  }

  /** solve: Newton's iteration from the initial values, starting at iteration 1. */
  function NewtonSolve(lib: MathLib, funcs: seq<Expr>, init: seq<Binding>, constr: Constraints): (r: Result<Solution, MathError>)
    ensures constr.maxIters == 0 ==> r == Failure(NoSolution)
  {
    Iterate(NewtonStep(lib, funcs, init), init, constr, FromSeed(|init|, 1, InitSeed(init)), 1)
  }

  /** solve as the loop of solve.cpp over Matrix objects. */
  method Solve(lib: MathLib, funcs: seq<Expr>, init: seq<Binding>, constr: Constraints) returns (r: Result<Solution, MathError>)
    ensures r == NewtonSolve(lib, funcs, init, constr)
  {
    var n := |init|;
    var x0 := new Matrix.Seeded(n, 1, InitSeed(init));
    ghost var step := NewtonStep(lib, funcs, init);
    var k := 1;
    while k <= constr.maxIters
      invariant 1 <= k && x0.Valid() && x0.height == n && x0.width == 1
      invariant Iterate(step, init, constr, x0.rows, k) == NewtonSolve(lib, funcs, init, constr)
      decreases constr.maxIters + 1 - k
    {
      var next := Step(lib, funcs, init, x0, k);
      assert step(x0.rows, k) == NextPoint(lib, funcs, init, x0.rows, k);
      if next.Failure? {
        return Failure(next.error);
      }
      var x1 := next.value;
      var converged := false;
      if k >= constr.minIters {
        converged := MatrixEquals(x0, x1, constr);
      }
      if converged {
        var s := Finish(init, x0, x1, k);
        return Success(s);
      }
      assert Iterate(step, init, constr, x0.rows, k) == Iterate(step, init, constr, x1.rows, k + 1);
      x0 := x1;
      k := k + 1;
    }
    return Failure(NoSolution);
  }

  // ---------------------------------------------------------------------------
  // What the iteration promises, for any step.

  /** A solution is found at an iteration between k and max_iters, and not before min_iters. */
  lemma {:induction false} IterateBounds(step: (Grid, nat) --> Result<Grid, MathError>, init: seq<Binding>, constr: Constraints, x0: Grid, k: nat)
    requires KeepsShape(step, |init|) && IsGrid(x0, |init|, 1)
    ensures Iterate(step, init, constr, x0, k).Success? ==>
      k <= Iterate(step, init, constr, x0, k).value.iters <= constr.maxIters &&
      constr.minIters <= Iterate(step, init, constr, x0, k).value.iters
    decreases constr.maxIters + 1 - k
  {
    if k <= constr.maxIters {
      var x1 := step(x0, k);
      if x1.Success? && !(k >= constr.minIters && Close(x0, x1.value, |init|, 1, constr)) {
        IterateBounds(step, init, constr, x1.value, k + 1);
      }
    }
  }

  /** The step from x at iteration j fails with e. */
  ghost predicate FailsAt(step: (Grid, nat) --> Result<Grid, MathError>, n: nat, x: Grid, j: nat, e: MathError) {
    IsGrid(x, n, 1) && step.requires(x, j) && step(x, j) == Failure(e)
  }

  /** A failure is NoSolution or the failure of a step at an iteration between k and max_iters. */
  lemma {:induction false} IterateFailure(step: (Grid, nat) --> Result<Grid, MathError>, init: seq<Binding>, constr: Constraints, x0: Grid, k: nat)
    requires KeepsShape(step, |init|) && IsGrid(x0, |init|, 1)
    ensures Iterate(step, init, constr, x0, k).Failure? ==>
      Iterate(step, init, constr, x0, k).error == NoSolution ||
      exists x, j :: k <= j <= constr.maxIters && FailsAt(step, |init|, x, j, Iterate(step, init, constr, x0, k).error)
    decreases constr.maxIters + 1 - k
  {
    if k <= constr.maxIters {
      var x1 := step(x0, k);
      if x1.Failure? {
        assert FailsAt(step, |init|, x0, k, x1.error);
      } else if !(k >= constr.minIters && Close(x0, x1.value, |init|, 1, constr)) {
        IterateFailure(step, init, constr, x1.value, k + 1);
      }
    }
  }

  /** s is what the iteration reports when the step from prev to last converges. */
  ghost predicate ConvergesTo(step: (Grid, nat) --> Result<Grid, MathError>, init: seq<Binding>, constr: Constraints, prev: Grid, last: Grid, s: Solution) {
    && IsGrid(prev, |init|, 1) && IsGrid(last, |init|, 1)
    && step.requires(prev, s.iters) && step(prev, s.iters) == Success(last)
    && Close(prev, last, |init|, 1, constr)
    && s == Conclude(init, prev, last, s.iters)
  }

  /** A solution comes from a step whose two points are close. */
  lemma {:induction false} IterateConverges(step: (Grid, nat) --> Result<Grid, MathError>, init: seq<Binding>, constr: Constraints, x0: Grid, k: nat)
    requires KeepsShape(step, |init|) && IsGrid(x0, |init|, 1)
    ensures Iterate(step, init, constr, x0, k).Success? ==>
      exists prev, last :: ConvergesTo(step, init, constr, prev, last, Iterate(step, init, constr, x0, k).value)
    decreases constr.maxIters + 1 - k
  {
    if k <= constr.maxIters {
      var x1 := step(x0, k);
      if x1.Success? {
        if k >= constr.minIters && Close(x0, x1.value, |init|, 1, constr) {
          assert ConvergesTo(step, init, constr, x0, x1.value, Conclude(init, x0, x1.value, k));
        } else {
          IterateConverges(step, init, constr, x1.value, k + 1);
        }
      }
    }
  }

  // ---------------------------------------------------------------------------
  // What solve promises.

  /** A failure of a row is the failure of one of its cells. */
  lemma {:induction false} RowFailureCell(f: (nat, nat) -> Result<real, MathError>, i: nat, w: nat)
    requires TabulateRow(f, i, w).Failure?
    ensures exists j :: 0 <= j < w && f(i, j) == Failure(TabulateRow(f, i, w).error)
  {
    if TabulateRow(f, i, w - 1).Failure? {
      RowFailureCell(f, i, w - 1);
    } else {
      assert f(i, w - 1) == Failure(TabulateRow(f, i, w).error);
    }
  }

  /** A failure of a matrix is the failure of one of its cells. */
  lemma {:induction false} CellFailure(f: (nat, nat) -> Result<real, MathError>, h: nat, w: nat)
    requires Tabulate(f, h, w).Failure?
    ensures exists i, j :: 0 <= i < h && 0 <= j < w && f(i, j) == Failure(Tabulate(f, h, w).error)
  {
    if Tabulate(f, h - 1, w).Failure? {
      CellFailure(f, h - 1, w);
    } else {
      RowFailureCell(f, h - 1, w);
    }
  }

  /** An iteration fails on an undefined variable, a domain error, or a Jacobian without inverse at that iteration. */
  lemma NextPointFailure(lib: MathLib, funcs: seq<Expr>, init: seq<Binding>, x0: Grid, k: nat)
    requires IsGrid(x0, |init|, 1) && NextPoint(lib, funcs, init, x0, k).Failure?
    ensures NextPoint(lib, funcs, init, x0, k).error.UndefinedVariable?
      || NextPoint(lib, funcs, init, x0, k).error == DomainError
      || NextPoint(lib, funcs, init, x0, k).error == Stuck(k)
  {
    var env := Bind(init, x0, |init|);
    var jf, yf := JacobianSeed(lib, funcs, init, env), ResidualSeed(lib, funcs, env);
    if Tabulate(jf, |funcs|, |init|).Failure? {
      CellFailure(jf, |funcs|, |init|);
    } else if Tabulate(yf, |funcs|, 1).Failure? {
      CellFailure(yf, |funcs|, 1);
    }
  }

  /** solve reports a solution only from an iteration between max(1, min_iters) and max_iters. */
  lemma SolveIterations(lib: MathLib, funcs: seq<Expr>, init: seq<Binding>, constr: Constraints)
    requires NewtonSolve(lib, funcs, init, constr).Success?
    ensures 1 <= NewtonSolve(lib, funcs, init, constr).value.iters <= constr.maxIters
    ensures constr.minIters <= NewtonSolve(lib, funcs, init, constr).value.iters
  {
    IterateBounds(NewtonStep(lib, funcs, init), init, constr, FromSeed(|init|, 1, InitSeed(init)), 1);
  }

  /**
   * solve fails on an undefined variable, a domain error, a Jacobian without
   * inverse at some iteration between 1 and max_iters, or for want of a solution.
   */
  lemma SolveFailures(lib: MathLib, funcs: seq<Expr>, init: seq<Binding>, constr: Constraints)
    requires NewtonSolve(lib, funcs, init, constr).Failure?
    ensures var e := NewtonSolve(lib, funcs, init, constr).error;
      || e == NoSolution || e.UndefinedVariable? || e == DomainError
      || (e.Stuck? && 1 <= e.iteration <= constr.maxIters)
  {
    var step := NewtonStep(lib, funcs, init);
    IterateFailure(step, init, constr, FromSeed(|init|, 1, InitSeed(init)), 1);
    var e := NewtonSolve(lib, funcs, init, constr).error;
    if e != NoSolution {
      var x, j :| 1 <= j <= constr.maxIters && FailsAt(step, |init|, x, j, e);
      NextPointFailure(lib, funcs, init, x, j);
    }
  }

  /**
   * A solution holds the values of its last point; that point is the Newton
   * step, at the solution's iteration count, from the point before, the two
   * are close, and max_diff is the largest change between them.
   */
  lemma SolveSolution(lib: MathLib, funcs: seq<Expr>, init: seq<Binding>, constr: Constraints)
    requires NewtonSolve(lib, funcs, init, constr).Success?
    ensures exists prev, last :: LastStep(lib, funcs, init, constr, NewtonSolve(lib, funcs, init, constr).value, prev, last)
  {
    var step := NewtonStep(lib, funcs, init);
    var s := NewtonSolve(lib, funcs, init, constr).value;
    IterateConverges(step, init, constr, FromSeed(|init|, 1, InitSeed(init)), 1);
    var prev, last :| ConvergesTo(step, init, constr, prev, last, s);
    VarsInOrder(init, last, |init|);
    MaxDiffIsMaximum(prev, last, |init|);
    assert LastStep(lib, funcs, init, constr, s, prev, last);
  }

  /** A solution names the initial variables in their order, and its max_diff is not negative. */
  lemma SolveNames(lib: MathLib, funcs: seq<Expr>, init: seq<Binding>, constr: Constraints)
    requires NewtonSolve(lib, funcs, init, constr).Success?
    ensures |NewtonSolve(lib, funcs, init, constr).value.vars| == |init|
    ensures NewtonSolve(lib, funcs, init, constr).value.maxDiff >= 0.0
    ensures forall i :: 0 <= i < |init| ==> NewtonSolve(lib, funcs, init, constr).value.vars[i].0 == init[i].0
  {
    var step := NewtonStep(lib, funcs, init);
    var s := NewtonSolve(lib, funcs, init, constr).value;
    IterateConverges(step, init, constr, FromSeed(|init|, 1, InitSeed(init)), 1);
    var prev, last :| ConvergesTo(step, init, constr, prev, last, s);
    VarsInOrder(init, last, |init|);
    MaxDiffIsMaximum(prev, last, |init|);
  }

  /**
   * The last step of a solution s: it leads from prev to last, the two are
   * close, the values of s are those of last, and max_diff is the largest
   * change between them (MaxDiffIsMaximum: it bounds every change and is zero
   * or one of them).
   */
  ghost predicate LastStep(lib: MathLib, funcs: seq<Expr>, init: seq<Binding>, constr: Constraints, s: Solution, prev: Grid, last: Grid) {
    && |s.vars| == |init|
    && IsGrid(prev, |init|, 1) && IsGrid(last, |init|, 1)
    && NextPoint(lib, funcs, init, prev, s.iters) == Success(last)
    && Close(prev, last, |init|, 1, constr)
    && (forall i :: 0 <= i < |init| ==> s.vars[i].1 == last[i][0])
    && (forall i :: 0 <= i < |init| ==> GaussJordan.Abs(last[i][0] - prev[i][0]) <= s.maxDiff)
    && s.maxDiff == MaxDiff(prev, last, |init|)
  }

  /** With more or fewer functions than variables the Jacobian has no inverse: solve never succeeds. */
  lemma NonSquareFails(lib: MathLib, funcs: seq<Expr>, init: seq<Binding>, constr: Constraints)
    requires |funcs| != |init|
    ensures NewtonSolve(lib, funcs, init, constr).Failure?
    ensures 1 <= constr.maxIters ==>
      || NewtonSolve(lib, funcs, init, constr).error == Stuck(1)
      || NewtonSolve(lib, funcs, init, constr).error == DomainError
      || NewtonSolve(lib, funcs, init, constr).error.UndefinedVariable?
  {
    var step := NewtonStep(lib, funcs, init);
    var x0 := FromSeed(|init|, 1, InitSeed(init));
    if 1 <= constr.maxIters {
      assert step(x0, 1).Failure?;
      NextPointFailure(lib, funcs, init, x0, 1);
    }
  }
}
