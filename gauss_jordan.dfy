/**
 * Matrix::inverse of matrix.cpp as a function on values: Gauss-Jordan
 * elimination with partial pivoting on the n x 2n matrix [a | I], followed by
 * the division of each row by its pivot. The functions below take the same
 * steps as the source, on the whole matrix at a time; the Matrix class is
 * proved to compute them in place.
 *
 * With doubles read as exact reals, a result is a left inverse of a.
 */
module GaussJordan {
  import opened Common
  import opened Grids

  /** DBL_EPSILON, 2^-52: a pivot no larger than this in magnitude counts as zero. */
  const Epsilon: real := 1.0 / 4503599627370496.0

  function Abs(x: real): (r: real)
    ensures r >= 0.0 && (r == x || r == -x)
  {
    if x < 0.0 then -x else x
  }

  /** zero(x): |x| <= epsilon. */
  predicate NearZero(x: real) {
    Abs(x) <= Epsilon
  }

  /** x / y, kept behind a name so that the verifier does not expand it everywhere. */
  function Ratio(x: real, y: real): real
    requires y != 0.0
  {
    x / y
  }

  lemma RatioTimes(x: real, y: real)
    requires y != 0.0
    ensures Ratio(x, y) * y == x
  {
  }

  lemma RatioScale(x: real, y: real)
    requires y != 0.0
    ensures Ratio(1.0, y) * x == Ratio(x, y)
  {
  }

  /** m is an augmented matrix: n rows of 2n cells. */
  predicate Augmented(m: Grid, n: nat) {
    IsGrid(m, n, 2 * n)
  }

  /** [a | I]: a on the left, the identity on the right. */
  function Augment(a: Grid, n: nat): (m: Grid)
    requires IsGrid(a, n, n)
    ensures Augmented(m, n)
    ensures forall i, j :: 0 <= i < n && 0 <= j < n ==> m[i][j] == a[i][j]
    ensures forall i, j :: 0 <= i < n && n <= j < 2 * n ==> m[i][j] == if j - n == i then 1.0 else 0.0
  {
    seq(n, i requires 0 <= i < n => seq(2 * n, j requires 0 <= j < 2 * n =>
      if j < n then a[i][j] else if j - n == i then 1.0 else 0.0))
  }

  function LeftHalf(m: Grid, n: nat): (x: Grid)
    requires Augmented(m, n)
    ensures IsGrid(x, n, n)
    ensures forall i, j :: 0 <= i < n && 0 <= j < n ==> x[i][j] == m[i][j]
  {
    seq(n, i requires 0 <= i < n => m[i][..n])
  }

  function RightHalf(m: Grid, n: nat): (x: Grid)
    requires Augmented(m, n)
    ensures IsGrid(x, n, n)
    ensures forall i, j :: 0 <= i < n && 0 <= j < n ==> x[i][j] == m[i][n + j]
  {
    seq(n, i requires 0 <= i < n => m[i][n..])
  }

  // ---------------------------------------------------------------------------
  // One step of the elimination, for column k.

  /**
   * The pivot search of column k, at row i, with best the row chosen so far:
   * a row replaces best only when its entry is strictly larger in magnitude.
   * The result is the row at or below k with the largest |m[r][k]|, the
   * earliest one on a tie.
   */
  function PivotFrom(m: Grid, n: nat, k: nat, i: nat, best: nat): (p: nat)
    requires Augmented(m, n) && k <= best < i <= n
    requires forall r :: k <= r < i ==> Abs(m[r][k]) <= Abs(m[best][k])
    requires forall r :: k <= r < best ==> Abs(m[r][k]) < Abs(m[best][k])
    ensures k <= p < n
    ensures forall r :: k <= r < n ==> Abs(m[r][k]) <= Abs(m[p][k])
    ensures forall r :: k <= r < p ==> Abs(m[r][k]) < Abs(m[p][k])
    decreases n - i
  {
    if i == n then best
    else PivotFrom(m, n, k, i + 1, if Abs(m[i][k]) > Abs(m[best][k]) then i else best)
  }

  /** The pivot row of column k: the largest magnitude at or below row k, the earliest one on a tie. */
  function Pivot(m: Grid, n: nat, k: nat): (p: nat)
    requires Augmented(m, n) && k < n
    ensures k <= p < n
    ensures forall r :: k <= r < n ==> Abs(m[r][k]) <= Abs(m[p][k])
    ensures forall r :: k <= r < p ==> Abs(m[r][k]) < Abs(m[p][k])
  {
    PivotFrom(m, n, k, k + 1, k)
  }

  /**
   * Rows k and p exchange their cells from column k on; the cells before
   * column k stay where they are.
   */
  function SwapFrom(m: Grid, n: nat, k: nat, p: nat): (x: Grid)
    requires Augmented(m, n) && k <= p < n
    ensures Augmented(x, n)
    ensures forall r, j :: 0 <= r < n && 0 <= j < k ==> x[r][j] == m[r][j]
    ensures forall r :: 0 <= r < n && r != k && r != p ==> x[r] == m[r]
    ensures forall j :: k <= j < 2 * n ==> x[k][j] == m[p][j] && x[p][j] == m[k][j]
  {
    if p == k then m
    else m[k := m[k][..k] + m[p][k..]][p := m[p][..k] + m[k][k..]]
  }

  /**
   * Row i after the elimination of column k with the pivot row: cell k is set
   * to zero, and each later cell loses ratio times the pivot row's cell.
   */
  function EliminateRow(row: seq<real>, pivot: seq<real>, k: nat): (x: seq<real>)
    requires |row| == |pivot| && k < |row| && pivot[k] != 0.0
    ensures |x| == |row| && x[k] == 0.0
    ensures forall j :: 0 <= j < k ==> x[j] == row[j]
  {
    var ratio := Ratio(row[k], pivot[k]);
    seq(|row|, j requires 0 <= j < |row| =>
      if j < k then row[j] else if j == k then 0.0 else row[j] - ratio * pivot[j])
  }

  /** Every row but k eliminated against row k, which is left as it is. */
  function EliminateAll(m: Grid, n: nat, k: nat): (x: Grid)
    requires Augmented(m, n) && k < n && m[k][k] != 0.0
    ensures Augmented(x, n) && x[k] == m[k]
    ensures forall i :: 0 <= i < n && i != k ==> x[i][k] == 0.0
    ensures forall i, j :: 0 <= i < n && 0 <= j < k ==> x[i][j] == m[i][j]
  {
    seq(n, i requires 0 <= i < n => if i == k then m[k] else EliminateRow(m[i], m[k], k))
  }

  /** Columns before k are cleared: their pivots are not near zero and every other cell in them is zero. */
  predicate Reduced(m: Grid, n: nat, k: nat) {
    && Augmented(m, n) && k <= n
    && (forall c :: 0 <= c < k ==> !NearZero(m[c][c]))
    && (forall i, c :: 0 <= i < n && 0 <= c < k && i != c ==> m[i][c] == 0.0)
  }

  /**
   * Step k: none when the pivot is near zero, otherwise the pivot row is
   * brought up to row k and column k is cleared. Columns already cleared
   * stay cleared, and column k joins them.
   */
  function Step(m: Grid, n: nat, k: nat): (r: Option<Grid>)
    requires Augmented(m, n) && k < n
    ensures r.None? <==> NearZero(m[Pivot(m, n, k)][k])
    ensures r.Some? ==> Augmented(r.value, n)
    ensures r.Some? ==> forall i :: 0 <= i < n && i != k ==> r.value[i][k] == 0.0
    ensures r.Some? && Reduced(m, n, k) ==> Reduced(r.value, n, k + 1)
  {
    var p := Pivot(m, n, k);
    if NearZero(m[p][k]) then None
    else
      var s := SwapFrom(m, n, k, p);
      assert s[k][k] == m[p][k];
      Some(EliminateAll(s, n, k))
  }

  /** Steps k to n - 1, stopping at the first near-zero pivot. */
  function Eliminate(m: Grid, n: nat, k: nat): (r: Option<Grid>)
    requires Augmented(m, n) && k <= n
    ensures r.Some? ==> Augmented(r.value, n)
    ensures r.Some? && Reduced(m, n, k) ==> Reduced(r.value, n, n)
    ensures r.Some? && Reduced(m, n, k) ==>
      forall a :: IsGrid(a, n, n) && Inverts(m, a, n) ==> Inverts(r.value, a, n)
    decreases n - k
  {
    if k == n then Some(m)
    else
      match Step(m, n, k)
      case None => None
      case Some(m') =>
        StepInvertsAll(m, n, k);
        Eliminate(m', n, k + 1)
  }

  /** Row k divided by its pivot: the right half is divided, the pivot set to one. */
  function NormalizeRow(row: seq<real>, n: nat, k: nat): (x: seq<real>)
    requires |row| == 2 * n && k < n && row[k] != 0.0
    ensures |x| == 2 * n && x[k] == 1.0
  {
    seq(2 * n, j requires 0 <= j < 2 * n =>
      if j == k then 1.0 else if j >= n then Ratio(row[j], row[k]) else row[j])
  }

  function Normalize(m: Grid, n: nat): (x: Grid)
    requires Reduced(m, n, n)
    ensures Augmented(x, n)
  {
    seq(n, k requires 0 <= k < n => NormalizeRow(m[k], n, k))
  }

  /**
   * The inverse of the h x w matrix a: none unless a is square and every
   * pivot is larger than epsilon in magnitude; otherwise a matrix b with
   * b a = I.
   */
  function Inverse(a: Grid, h: nat, w: nat): (r: Option<Grid>)
    requires IsGrid(a, h, w)
    ensures w != h ==> r.None?
    ensures r.Some? ==> IsGrid(r.value, h, h) && Product(r.value, a, h, h, h) == Identity(h)
  {
    if w != h then None
    else
      var start := Augment(a, h);
      match Eliminate(start, h, 0)
      case None => None
      case Some(m) =>
        assert Reduced(m, h, h);
        InverseFound(a, h, m);
        Some(RightHalf(Normalize(m, h), h))
  }

  // ---------------------------------------------------------------------------
  // Why the result is a left inverse: every step is a row operation on the
  // whole of [L | R], and row operations keep R a = L, which holds for [a | I]
  // and, at the end, for L = I.

  /** R a = L for the halves L and R of m, cell by cell. */
  predicate Inverts(m: Grid, a: Grid, n: nat)
    requires Augmented(m, n) && IsGrid(a, n, n)
  {
    forall i, j {:trigger Dot(m[i][n..], a, j, n)} :: 0 <= i < n && 0 <= j < n ==> Dot(m[i][n..], a, j, n) == m[i][j]
  }

  lemma InvertsProduct(m: Grid, a: Grid, n: nat)
    requires Augmented(m, n) && IsGrid(a, n, n)
    ensures Inverts(m, a, n) <==> Product(RightHalf(m, n), a, n, n, n) == LeftHalf(m, n)
  {
    var p := Product(RightHalf(m, n), a, n, n, n);
    var l := LeftHalf(m, n);
    if Inverts(m, a, n) {
      forall i | 0 <= i < n
        ensures p[i] == l[i]
      {
        forall j | 0 <= j < n
          ensures p[i][j] == l[i][j]
        {
          assert RightHalf(m, n)[i] == m[i][n..];
        }
      }
    }
    if p == l {
      forall i, j | 0 <= i < n && 0 <= j < n
        ensures Dot(m[i][n..], a, j, n) == m[i][j]
      {
        assert RightHalf(m, n)[i] == m[i][n..];
        assert p[i][j] == l[i][j];
      }
    }
  }

  lemma HalvesSwap(m: Grid, n: nat, k: nat, p: nat)
    requires Augmented(m, n) && k < n && p < n
    ensures Augmented(Swap(m, k, p), n)
    ensures LeftHalf(Swap(m, k, p), n) == Swap(LeftHalf(m, n), k, p)
    ensures RightHalf(Swap(m, k, p), n) == Swap(RightHalf(m, n), k, p)
  {
  }

  lemma LeftHalfCombine(m: Grid, n: nat, k: nat, s: seq<real>, r: seq<real>)
    requires Augmented(m, n) && k < n && |s| == n && |r| == n
    ensures Augmented(Combine(m, k, s, r), n)
    ensures LeftHalf(Combine(m, k, s, r), n) == Combine(LeftHalf(m, n), k, s, r)
  {
    var x := LeftHalf(Combine(m, k, s, r), n);
    var y := Combine(LeftHalf(m, n), k, s, r);
    forall i | 0 <= i < n
      ensures x[i] == y[i]
    {
      forall j | 0 <= j < n
        ensures x[i][j] == y[i][j]
      {
      }
    }
  }

  lemma RightHalfCombine(m: Grid, n: nat, k: nat, s: seq<real>, r: seq<real>)
    requires Augmented(m, n) && k < n && |s| == n && |r| == n
    ensures Augmented(Combine(m, k, s, r), n)
    ensures RightHalf(Combine(m, k, s, r), n) == Combine(RightHalf(m, n), k, s, r)
  {
    var x := RightHalf(Combine(m, k, s, r), n);
    var y := Combine(RightHalf(m, n), k, s, r);
    forall i | 0 <= i < n
      ensures x[i] == y[i]
    {
      forall j | 0 <= j < n
        ensures x[i][j] == y[i][j]
      {
      }
    }
  }

  /** Exchanging two rows keeps R a = L. */
  lemma InvertsSwap(m: Grid, a: Grid, n: nat, k: nat, p: nat)
    requires Augmented(m, n) && IsGrid(a, n, n) && k < n && p < n && Inverts(m, a, n)
    ensures Augmented(Swap(m, k, p), n) && Inverts(Swap(m, k, p), a, n)
  {
    InvertsProduct(m, a, n);
    HalvesSwap(m, n, k, p);
    ProductSwap(RightHalf(m, n), a, n, n, n, k, p);
    InvertsProduct(Swap(m, k, p), a, n);
  }

  /** Combining rows keeps R a = L. */
  lemma InvertsCombine(m: Grid, a: Grid, n: nat, k: nat, s: seq<real>, r: seq<real>)
    requires Augmented(m, n) && IsGrid(a, n, n) && k < n && |s| == n && |r| == n && Inverts(m, a, n)
    ensures Augmented(Combine(m, k, s, r), n) && Inverts(Combine(m, k, s, r), a, n)
  {
    LeftHalfCombine(m, n, k, s, r);
    RightHalfCombine(m, n, k, s, r);
    InvertsProduct(m, a, n);
    ProductCombine(RightHalf(m, n), a, n, n, n, k, s, r);
    InvertsProduct(Combine(m, k, s, r), a, n);
  }

  /** Once the cells before column k of rows k and p are zero, SwapFrom is a full row exchange. */
  lemma SwapFromIsSwap(m: Grid, n: nat, k: nat, p: nat)
    requires Augmented(m, n) && k <= p < n
    requires forall j :: 0 <= j < k ==> m[k][j] == 0.0 && m[p][j] == 0.0
    ensures SwapFrom(m, n, k, p) == Swap(m, k, p)
  {
    var x := SwapFrom(m, n, k, p);
    if p != k {
      assert x[k] == m[p];
      assert x[p] == m[k];
    }
  }

  /** The multiples of row k that EliminateAll subtracts. */
  function Ratios(m: Grid, n: nat, k: nat): (r: seq<real>)
    requires Augmented(m, n) && k < n && m[k][k] != 0.0
    ensures |r| == n
  {
    seq(n, i requires 0 <= i < n => if i == k then 0.0 else Ratio(m[i][k], m[k][k]))
  }

  function Ones(n: nat): (s: seq<real>)
    ensures |s| == n
  {
    seq(n, i => 1.0)
  }

  /** Once the cells before column k of row k are zero, EliminateAll subtracts multiples of the whole row k. */
  lemma EliminateIsCombine(m: Grid, n: nat, k: nat)
    requires Augmented(m, n) && k < n && m[k][k] != 0.0
    requires forall j :: 0 <= j < k ==> m[k][j] == 0.0
    ensures EliminateAll(m, n, k) == Combine(m, k, Ones(n), Ratios(m, n, k))
  {
    var x := EliminateAll(m, n, k);
    var c := Combine(m, k, Ones(n), Ratios(m, n, k));
    forall i | 0 <= i < n
      ensures x[i] == c[i]
    {
      forall j | 0 <= j < 2 * n
        ensures x[i][j] == c[i][j]
      {
        if i != k && j == k {
          RatioTimes(m[i][k], m[k][k]);
        }
      }
    }
  }

  /** A step keeps R a = L. */
  lemma StepInverts(m: Grid, a: Grid, n: nat, k: nat)
    requires Reduced(m, n, k) && k < n && IsGrid(a, n, n) && Inverts(m, a, n)
    requires Step(m, n, k).Some?
    ensures Inverts(Step(m, n, k).value, a, n)
  {
    var p := Pivot(m, n, k);
    SwapFromIsSwap(m, n, k, p);
    InvertsSwap(m, a, n, k, p);
    var s := SwapFrom(m, n, k, p);
    EliminateIsCombine(s, n, k);
    InvertsCombine(s, a, n, k, Ones(n), Ratios(s, n, k));
  }

  /** A step keeps R a = L, for every a. */
  lemma StepInvertsAll(m: Grid, n: nat, k: nat)
    requires Augmented(m, n) && k < n && Step(m, n, k).Some?
    ensures Reduced(m, n, k) ==>
      forall a :: IsGrid(a, n, n) && Inverts(m, a, n) ==> Inverts(Step(m, n, k).value, a, n)
  {
    if Reduced(m, n, k) {
      forall a | IsGrid(a, n, n) && Inverts(m, a, n)
        ensures Inverts(Step(m, n, k).value, a, n)
      {
        StepInverts(m, a, n, k);
      }
    }
  }

  /** 1 / pivot for every row. */
  function Reciprocals(m: Grid, n: nat): (s: seq<real>)
    requires Reduced(m, n, n)
    ensures |s| == n
  {
    seq(n, i requires 0 <= i < n => Ratio(1.0, m[i][i]))
  }

  lemma NormalizeCell(m: Grid, n: nat, i: nat, j: nat)
    requires Reduced(m, n, n) && i < n && j < 2 * n
    ensures NormalizeRow(m[i], n, i)[j] == Ratio(1.0, m[i][i]) * m[i][j] - 0.0 * m[0][j]
  {
    RatioScale(m[i][j], m[i][i]);
    RatioTimes(1.0, m[i][i]);
  }

  /** Once the left half is diagonal, Normalize divides whole rows by their pivots. */
  lemma NormalizeIsCombine(m: Grid, n: nat)
    requires Reduced(m, n, n) && n > 0
    ensures Normalize(m, n) == Combine(m, 0, Reciprocals(m, n), seq(n, i => 0.0))
  {
    var x := Normalize(m, n);
    var c := Combine(m, 0, Reciprocals(m, n), seq(n, i => 0.0));
    forall i | 0 <= i < n
      ensures x[i] == c[i]
    {
      forall j | 0 <= j < 2 * n
        ensures x[i][j] == c[i][j]
      {
        NormalizeCell(m, n, i, j);
      }
    }
  }

  /** Once the left half is diagonal, Normalize leaves the identity there. */
  lemma NormalizeLeavesIdentity(m: Grid, n: nat)
    requires Reduced(m, n, n)
    ensures LeftHalf(Normalize(m, n), n) == Identity(n)
  {
    var x := LeftHalf(Normalize(m, n), n);
    forall i | 0 <= i < n
      ensures x[i] == Identity(n)[i]
    {
      forall j | 0 <= j < n
        ensures x[i][j] == Identity(n)[i][j]
      {
      }
    }
  }

  /** [a | I] has halves a and I. */
  lemma AugmentHalves(a: Grid, n: nat)
    requires IsGrid(a, n, n)
    ensures LeftHalf(Augment(a, n), n) == a
    ensures RightHalf(Augment(a, n), n) == Identity(n)
  {
    var l := LeftHalf(Augment(a, n), n);
    var r := RightHalf(Augment(a, n), n);
    forall i | 0 <= i < n
      ensures l[i] == a[i] && r[i] == Identity(n)[i]
    {
      forall j | 0 <= j < n
        ensures l[i][j] == a[i][j] && r[i][j] == Identity(n)[i][j]
      {
      }
    }
  }

  /** Normalizing the result of the elimination of [a | I] leaves [I | b] with b a = I. */
  lemma InverseFound(a: Grid, n: nat, m: Grid)
    requires IsGrid(a, n, n) && Eliminate(Augment(a, n), n, 0) == Some(m) && Reduced(m, n, n)
    ensures Augmented(Normalize(m, n), n)
    ensures Product(RightHalf(Normalize(m, n), n), a, n, n, n) == Identity(n)
  {
    var start := Augment(a, n);
    AugmentHalves(a, n);
    IdentityLeft(a, n, n);
    InvertsProduct(start, a, n);
    NormalizeLeavesIdentity(m, n);
    if n > 0 {
      NormalizeIsCombine(m, n);
      InvertsCombine(m, a, n, 0, Reciprocals(m, n), seq(n, i => 0.0));
      InvertsProduct(Normalize(m, n), a, n);
    }
  }

  /** A 1 x 1 matrix [x] has the inverse [1 / x] unless |x| <= epsilon. */
  lemma InverseOfScalar(a: Grid)
    requires IsGrid(a, 1, 1)
    ensures Inverse(a, 1, 1) == if NearZero(a[0][0]) then None else Some([[Ratio(1.0, a[0][0])]])
  {
    var m := Augment(a, 1);
    assert m[0] == [a[0][0], 1.0];
    assert Pivot(m, 1, 0) == 0;
    if NearZero(a[0][0]) {
      assert Step(m, 1, 0) == None;
      assert Eliminate(m, 1, 0) == None;
    } else {
      assert SwapFrom(m, 1, 0, 0) == m;
      var e := EliminateAll(m, 1, 0);
      assert e == m;
      assert Step(m, 1, 0) == Some(m);
      assert Eliminate(m, 1, 0) == Some(m);
      var x := Normalize(m, 1);
      assert x[0][1] == Ratio(1.0, a[0][0]);
      assert RightHalf(x, 1)[0] == [Ratio(1.0, a[0][0])];
      assert RightHalf(x, 1) == [[Ratio(1.0, a[0][0])]];
      assert Inverse(a, 1, 1) == Some(RightHalf(x, 1));
    }
  }

  /** A square matrix whose first column is near zero throughout has no inverse: the first pivot fails. */
  lemma FirstColumnNearZero(a: Grid, n: nat)
    requires IsGrid(a, n, n) && n > 0
    requires forall i :: 0 <= i < n ==> NearZero(a[i][0])
    ensures Inverse(a, n, n) == None
  {
    var m := Augment(a, n);
    var p := Pivot(m, n, 0);
    assert m[p][0] == a[p][0];
    assert Step(m, n, 0) == None;
    assert Eliminate(m, n, 0) == None;
  }
}
