/**
 * The Matrix class of matrix.h and matrix.cpp: a height x width matrix of
 * doubles whose cells are kept in one array, row after row. Every operation
 * is proved against the value-level definitions of Grids and GaussJordan,
 * through the ghost field `rows` that holds the contents.
 */
module Matrices {
  import opened Common
  import opened Grids
  import GaussJordan

  /** std::invalid_argument: the operands' dimensions do not fit the operation. */
  datatype MatrixError = DimensionMismatch

  /** Where cell (i, j) of an h x w matrix is stored. */
  function Offset(h: nat, w: nat, i: nat, j: nat): (k: nat)
    requires i < h && j < w
    ensures k < h * w
  {
    OffsetBelow(h, w, i, j);
    w * i + j
  }

  lemma OffsetBelow(h: nat, w: nat, i: nat, j: nat)
    requires i < h && j < w
    ensures w * i + j < h * w
  {
    assert w * i + j < w * (i + 1);
    assert w * (i + 1) <= w * h;
  }

  /** Distinct cells are stored at distinct offsets. */
  lemma OffsetsDiffer(h: nat, w: nat, i: nat, j: nat, r: nat, c: nat)
    requires i < h && j < w && r < h && c < w && (i != r || j != c)
    ensures Offset(h, w, i, j) != Offset(h, w, r, c)
  {
    if i < r {
      assert w * i + j < w * (i + 1) <= w * r;
    } else if r < i {
      assert w * r + c < w * (r + 1) <= w * i;
    }
  }

  class Matrix {
    const height: nat
    const width: nat
    const cells: array<real>
    /** The contents, row by row. */
    ghost var rows: Grid

    ghost predicate Valid()
      reads this, cells
    {
      && cells.Length == height * width
      && IsGrid(rows, height, width)
      && forall i, j :: 0 <= i < height && 0 <= j < width ==> cells[Offset(height, width, i, j)] == rows[i][j]
    }

    /** The zero matrix of the given dimensions. */
    constructor Zero(h: nat, w: nat)
      ensures Valid() && height == h && width == w && rows == Zeros(h, w)
      ensures fresh(cells)
    {
      height, width := h, w;
      cells := new real[h * w](_ => 0.0);
      rows := Zeros(h, w);
    }

    /** The matrix whose cell (i, j) is seed(i, j), filled row by row. */
    constructor Seeded(h: nat, w: nat, seed: (nat, nat) -> real)
      ensures Valid() && height == h && width == w && rows == FromSeed(h, w, seed)
      ensures fresh(cells)
    {
      height, width := h, w;
      cells := new real[h * w](_ => 0.0);
      rows := Zeros(h, w);
      new;
      var i := 0;
      while i < h
        invariant i <= h && Valid() && fresh(cells)
        invariant forall r, c :: 0 <= r < h && 0 <= c < w ==> rows[r][c] == if r < i then seed(r, c) else 0.0
      {
        var j := 0;
        while j < w
          invariant j <= w && Valid() && fresh(cells)
          invariant forall r, c :: 0 <= r < h && 0 <= c < w ==>
            rows[r][c] == if r < i || (r == i && c < j) then seed(r, c) else 0.0
        {
          Set(i, j, seed(i, j));
          j := j + 1;
        }
        i := i + 1;
      }
      SameGrid(rows, FromSeed(h, w, seed), h, w);
    }

    /** The literal matrix with the given rows: a dimension error unless all rows are as long as the first. */
    static method FromRows(init: seq<seq<real>>) returns (r: Result<Matrix, MatrixError>)
      ensures r.Failure? <==> exists k :: 0 <= k < |init| && |init[k]| != |init[0]|
      ensures r.Success? ==> fresh(r.value) && fresh(r.value.cells) && r.value.Valid()
      ensures r.Success? ==> r.value.height == |init| && r.value.width == (if |init| == 0 then 0 else |init[0]|)
      ensures r.Success? ==> r.value.rows == init
    {
      var h := |init|;
      var w := 0;
      if h > 0 {
        w := |init[0]|;
        var k := 0;
        while k < h
          invariant k <= h && forall q :: 0 <= q < k ==> |init[q]| == w
        {
          if |init[k]| != w {
            return Failure(DimensionMismatch);
          }
          k := k + 1;
        }
      }
      var m := new Matrix.Zero(h, w);
      var i := 0;
      while i < h
        invariant i <= h && m.Valid() && m.height == h && m.width == w && fresh(m) && fresh(m.cells)
        invariant forall q, c {:trigger m.rows[q][c]} :: 0 <= q < h && 0 <= c < w ==> m.rows[q][c] == if q < i then init[q][c] else 0.0
      {
        var j := 0;
        while j < w
          invariant j <= w && m.Valid() && fresh(m) && fresh(m.cells)
          invariant forall q, c {:trigger m.rows[q][c]} :: 0 <= q < h && 0 <= c < w ==>
            m.rows[q][c] == if q < i || (q == i && c < j) then init[q][c] else 0.0
        {
          m.Set(i, j, init[i][j]);
          j := j + 1;
        }
        i := i + 1;
      }
      SameGrid(m.rows, init, h, w);
      return Success(m);
    }

    /**
     * op applied to the cells of this and rhs, one pair at a time: a
     * dimension error unless both have the same height and width.
     */
    method Apply(op: (real, real) -> real, rhs: Matrix) returns (r: Result<Matrix, MatrixError>)
      requires Valid() && rhs.Valid()
      ensures r.Failure? <==> width != rhs.width || height != rhs.height
      ensures r.Success? ==> fresh(r.value) && fresh(r.value.cells) && r.value.Valid()
      ensures r.Success? ==> r.value.height == height && r.value.width == width
      ensures r.Success? ==> r.value.rows == CellWise(rows, rhs.rows, height, width, op)
    {
      if width != rhs.width || height != rhs.height {
        return Failure(DimensionMismatch);
      }
      var res := new Matrix.Zero(height, width);
      var i := 0;
      while i < height
        invariant i <= height && res.Valid() && res.height == height && res.width == width
        invariant fresh(res) && fresh(res.cells)
        invariant forall q, c {:trigger res.rows[q][c]} :: 0 <= q < height && 0 <= c < width ==>
          res.rows[q][c] == if q < i then op(rows[q][c], rhs.rows[q][c]) else 0.0
      {
        var j := 0;
        while j < width
          invariant j <= width && res.Valid() && fresh(res) && fresh(res.cells)
          invariant forall q, c {:trigger res.rows[q][c]} :: 0 <= q < height && 0 <= c < width ==>
            res.rows[q][c] == if q < i || (q == i && c < j) then op(rows[q][c], rhs.rows[q][c]) else 0.0
        {
          res.Set(i, j, op(Get(i, j), rhs.Get(i, j)));
          j := j + 1;
        }
        i := i + 1;
      }
      SameGrid(res.rows, CellWise(rows, rhs.rows, height, width, op), height, width);
      return Success(res);
    }

    /** operator+: the cell-by-cell sum. */
    method Add(rhs: Matrix) returns (r: Result<Matrix, MatrixError>)
      requires Valid() && rhs.Valid()
      ensures r.Failure? <==> width != rhs.width || height != rhs.height
      ensures r.Success? ==> fresh(r.value) && r.value.Valid()
      ensures r.Success? ==> r.value.height == height && r.value.width == width
      ensures r.Success? ==> forall i, j :: 0 <= i < height && 0 <= j < width ==>
        r.value.rows[i][j] == rows[i][j] + rhs.rows[i][j]
    {
      r := Apply((x, y) => x + y, rhs);
    }

    /** operator-: the cell-by-cell difference. */
    method Sub(rhs: Matrix) returns (r: Result<Matrix, MatrixError>)
      requires Valid() && rhs.Valid()
      ensures r.Failure? <==> width != rhs.width || height != rhs.height
      ensures r.Success? ==> fresh(r.value) && r.value.Valid()
      ensures r.Success? ==> r.value.height == height && r.value.width == width
      ensures r.Success? ==> forall i, j :: 0 <= i < height && 0 <= j < width ==>
        r.value.rows[i][j] == rows[i][j] - rhs.rows[i][j]
    {
      r := Apply((x, y) => x - y, rhs);
    }

    /**
     * operator*: a dimension error unless this is as wide as rhs is high;
     * otherwise the product, each cell accumulated from the first term on.
     */
    method Mul(rhs: Matrix) returns (r: Result<Matrix, MatrixError>)
      requires Valid() && rhs.Valid()
      ensures r.Failure? <==> width != rhs.height
      ensures r.Success? ==> fresh(r.value) && fresh(r.value.cells) && r.value.Valid()
      ensures r.Success? ==> r.value.height == height && r.value.width == rhs.width
      ensures r.Success? ==> r.value.rows == Product(rows, rhs.rows, height, width, rhs.width)
    {
      if width != rhs.height {
        return Failure(DimensionMismatch);
      }
      var len, h, w := width, height, rhs.width;
      var res := new Matrix.Zero(h, w);
      var i := 0;
      while i < h
        invariant i <= h && res.Valid() && res.height == h && res.width == w
        invariant fresh(res) && fresh(res.cells)
        invariant forall q, c {:trigger res.rows[q][c]} :: 0 <= q < h && 0 <= c < w ==>
          res.rows[q][c] == if q < i then Dot(rows[q], rhs.rows, c, len) else 0.0
      {
        var j := 0;
        while j < w
          invariant j <= w && res.Valid() && fresh(res) && fresh(res.cells)
          invariant forall q, c {:trigger res.rows[q][c]} :: 0 <= q < h && 0 <= c < w ==>
            res.rows[q][c] == if q < i || (q == i && c < j) then Dot(rows[q], rhs.rows, c, len) else 0.0
        {
          AccumulateCell(rhs, res, i, j);
          j := j + 1;
        }
        i := i + 1;
      }
      SameGrid(res.rows, Product(rows, rhs.rows, h, len, w), h, w);
      return Success(res);
    }

    /** Cell (i, j) of the product this rhs, accumulated in place in cell (i, j) of res. */
    method AccumulateCell(rhs: Matrix, res: Matrix, i: nat, j: nat)
      requires Valid() && rhs.Valid() && res.Valid() && width == rhs.height
      requires res.height == height && res.width == rhs.width && i < height && j < rhs.width
      requires res != this && res != rhs && res.cells != cells && res.cells != rhs.cells
      modifies res, res.cells
      ensures res.Valid()
      ensures forall q, c {:trigger res.rows[q][c]} :: 0 <= q < res.height && 0 <= c < res.width ==>
        res.rows[q][c] == if q == i && c == j then Dot(rows[i], rhs.rows, j, width) else old(res.rows[q][c])
    {
      ghost var before, u, b := res.rows, rows[i], rhs.rows;
      res.Set(i, j, 0.0);
      var k := 0;
      while k < width
        invariant k <= width && res.Valid() && Valid() && rhs.Valid()
        invariant rows[i] == u && rhs.rows == b
        invariant forall q, c {:trigger res.rows[q][c]} :: 0 <= q < res.height && 0 <= c < res.width ==>
          res.rows[q][c] == if q == i && c == j then Dot(u, b, j, k) else before[q][c]
      {
        var sum := res.Get(i, j);
        var term := Get(i, k) * rhs.Get(k, j);
        assert Dot(u, b, j, k + 1) == sum + term;
        res.Set(i, j, sum + term);
        k := k + 1;
      }
    }

    // -------------------------------------------------------------------------
    // inverse: Gauss-Jordan elimination on the augmented matrix [this | I].

    /**
     * The inverse: none unless the matrix is square and every pivot exceeds
     * epsilon in magnitude. The matrix itself is not changed.
     */
    method Inverse() returns (r: Option<Matrix>)
      requires Valid()
      ensures r.None? <==> GaussJordan.Inverse(rows, height, width).None?
      ensures r.Some? ==> fresh(r.value) && r.value.Valid() && r.value.height == height && r.value.width == height
      ensures r.Some? ==> r.value.rows == GaussJordan.Inverse(rows, height, width).value
    {
      if width != height {
        return None;
      }
      var mat := Augmented();
      var found := mat.Eliminate();
      if !found {
        return None;
      }
      mat.Normalize();
      var res := mat.RightHalf();
      return Some(res);
    }

    /** Columns 0 .. n - 1 of this augmented matrix cleared, one step at a time; false at the first pivot within epsilon of zero. */
    method Eliminate() returns (found: bool)
      requires Valid() && width == 2 * height
      modifies this, cells
      ensures Valid()
      ensures found <==> GaussJordan.Eliminate(old(rows), height, 0).Some?
      ensures found ==> rows == GaussJordan.Eliminate(old(rows), height, 0).value
    {
      ghost var start := rows;
      var k := 0;
      while k < height
        invariant k <= height && Valid()
        invariant GaussJordan.Eliminate(rows, height, k) == GaussJordan.Eliminate(start, height, 0)
      {
        var stepped := Step(k);
        if !stepped {
          return false;
        }
        k := k + 1;
      }
      return true;
    }

    /** One elimination step on column k: choose the pivot, swap it into row k, clear the column. */
    method Step(k: nat) returns (stepped: bool)
      requires Valid() && width == 2 * height && k < height
      modifies this, cells
      ensures Valid()
      ensures stepped <==> GaussJordan.Step(old(rows), height, k).Some?
      ensures stepped ==> rows == GaussJordan.Step(old(rows), height, k).value
      ensures !stepped ==> rows == old(rows)
    {
      ghost var before := rows;
      var max := PivotRow(k);
      if GaussJordan.NearZero(Get(max, k)) {
        return false;
      }
      if max != k {
        SwapFrom(k, max);
      }
      assert rows == GaussJordan.SwapFrom(before, height, k, max);
      EliminateColumn(k);
      return true;
    }

    /** [this | I]: a zero n x 2n matrix, this copied into its left half and ones set on the right diagonal. */
    method Augmented() returns (mat: Matrix)
      requires Valid() && height == width
      ensures fresh(mat) && fresh(mat.cells) && mat.Valid()
      ensures mat.height == height && mat.width == 2 * height
      ensures mat.rows == GaussJordan.Augment(rows, height)
    {
      var n := height;
      mat := new Matrix.Zero(n, 2 * n);
      var i := 0;
      while i < n
        invariant i <= n && mat.Valid() && mat.height == n && mat.width == 2 * n
        invariant fresh(mat) && fresh(mat.cells)
        invariant forall q, c {:trigger mat.rows[q][c]} :: 0 <= q < n && 0 <= c < 2 * n ==>
          mat.rows[q][c] == if q < i && c < n then rows[q][c] else 0.0
      {
        var j := 0;
        while j < n
          invariant j <= n && mat.Valid() && fresh(mat) && fresh(mat.cells)
          invariant forall q, c {:trigger mat.rows[q][c]} :: 0 <= q < n && 0 <= c < 2 * n ==>
            mat.rows[q][c] == if (q < i || (q == i && c < j)) && c < n then rows[q][c] else 0.0
        {
          mat.Set(i, j, Get(i, j));
          j := j + 1;
        }
        i := i + 1;
      }
      i := 0;
      while i < n
        invariant i <= n && mat.Valid() && mat.height == n && mat.width == 2 * n
        invariant fresh(mat) && fresh(mat.cells)
        invariant forall q, c {:trigger mat.rows[q][c]} :: 0 <= q < n && 0 <= c < 2 * n ==>
          mat.rows[q][c] == if c < n then rows[q][c] else if c - n == q && q < i then 1.0 else 0.0
      {
        mat.Set(i, n + i, 1.0);
        i := i + 1;
      }
      SameGrid(mat.rows, GaussJordan.Augment(rows, n), n, 2 * n);
    }

    /** The pivot row of column k of this augmented matrix. */
    method PivotRow(k: nat) returns (max: nat)
      requires Valid() && width == 2 * height && k < height
      ensures max == GaussJordan.Pivot(rows, height, k)
    {
      max := k;
      var i := k + 1;
      while i < height
        invariant k <= max < i <= height
        invariant forall r :: k <= r < i ==> GaussJordan.Abs(rows[r][k]) <= GaussJordan.Abs(rows[max][k])
        invariant forall r :: k <= r < max ==> GaussJordan.Abs(rows[r][k]) < GaussJordan.Abs(rows[max][k])
        invariant GaussJordan.PivotFrom(rows, height, k, i, max) == GaussJordan.Pivot(rows, height, k)
      {
        if GaussJordan.Abs(Get(i, k)) > GaussJordan.Abs(Get(max, k)) {
          max := i;
        }
        i := i + 1;
      }
    }

    /** Rows k and p of this augmented matrix exchange their cells from column k on. */
    method SwapFrom(k: nat, p: nat)
      requires Valid() && width == 2 * height && k < p < height
      modifies this, cells
      ensures Valid() && rows == GaussJordan.SwapFrom(old(rows), height, k, p)
    {
      ghost var before := rows;
      var i := k;
      while i < width
        invariant k <= i <= width && Valid()
        invariant forall q, c {:trigger rows[q][c]} :: 0 <= q < height && 0 <= c < width ==>
          rows[q][c] ==
            if k <= c < i && q == k then before[p][c]
            else if k <= c < i && q == p then before[k][c]
            else before[q][c]
      {
        var a, b := Get(k, i), Get(p, i);
        assert a == before[k][i] && b == before[p][i];
        Set(k, i, b);
        Set(p, i, a);
        i := i + 1;
      }
      var x := GaussJordan.SwapFrom(before, height, k, p);
      forall q, c | 0 <= q < height && 0 <= c < width
        ensures rows[q][c] == x[q][c]
      {
        if q != k && q != p {
          assert x[q] == before[q];
        } else if c < k {
          assert x[q][c] == before[q][c];
        } else if q == k {
          assert x[k][c] == before[p][c];
        } else {
          assert x[p][c] == before[k][c];
        }
      }
      SameGrid(rows, x, height, width);
    }

    /** Column k of this augmented matrix cleared in every row but k. */
    method EliminateColumn(k: nat)
      requires Valid() && width == 2 * height && k < height && rows[k][k] != 0.0
      modifies this, cells
      ensures Valid() && rows == GaussJordan.EliminateAll(old(rows), height, k)
    {
      ghost var before := rows;
      var i := 0;
      while i < height
        invariant i <= height && Valid()
        invariant rows == EliminatedUpTo(before, height, k, i)
      {
        if i != k {
          EliminateRowOf(k, i);
        }
        assert EliminatedUpTo(before, height, k, i + 1) == rows;
        i := i + 1;
      }
      assert EliminatedUpTo(before, height, k, height) == GaussJordan.EliminateAll(before, height, k);
    }

    /** Row i of this augmented matrix eliminated against row k. */
    method EliminateRowOf(k: nat, i: nat)
      requires Valid() && width == 2 * height && k < height && i < height && i != k && rows[k][k] != 0.0
      modifies this, cells
      ensures Valid() && rows == old(rows)[i := GaussJordan.EliminateRow(old(rows[i]), old(rows[k]), k)]
    {
      ghost var before := rows;
      var ratio := Get(i, k) / Get(k, k);
      assert ratio == GaussJordan.Ratio(before[i][k], before[k][k]);
      Set(i, k, 0.0);
      var j := k + 1;
      while j < width
        invariant k < j <= width && Valid()
        invariant forall q, c {:trigger rows[q][c]} :: 0 <= q < height && 0 <= c < width ==>
          rows[q][c] ==
            if q == i && c < j then GaussJordan.EliminateRow(before[i], before[k], k)[c] else before[q][c]
      {
        Set(i, j, Get(i, j) - ratio * Get(k, j));
        j := j + 1;
      }
      SameGrid(rows, before[i := GaussJordan.EliminateRow(before[i], before[k], k)], height, width);
    }

    /** Each row of this augmented matrix divided by its pivot: the right half divided, the pivot set to one. */
    method Normalize()
      requires Valid() && width == 2 * height && GaussJordan.Reduced(rows, height, height)
      modifies this, cells
      ensures Valid() && rows == GaussJordan.Normalize(old(rows), height)
    {
      ghost var before := rows;
      var k := 0;
      while k < height
        invariant k <= height && Valid()
        invariant forall q, c {:trigger rows[q][c]} :: 0 <= q < height && 0 <= c < width ==>
          rows[q][c] == if q < k then GaussJordan.NormalizeRow(before[q], height, q)[c] else before[q][c]
      {
        NormalizeRowOf(k);
        k := k + 1;
      }
      SameGrid(rows, GaussJordan.Normalize(before, height), height, width);
    }

    /** Row k of this augmented matrix divided by its pivot. */
    method NormalizeRowOf(k: nat)
      requires Valid() && width == 2 * height && k < height && rows[k][k] != 0.0
      modifies this, cells
      ensures Valid()
      ensures forall q, c {:trigger rows[q][c]} :: 0 <= q < height && 0 <= c < width ==>
        rows[q][c] == if q == k then GaussJordan.NormalizeRow(old(rows[k]), height, k)[c] else old(rows[q][c])
    {
      ghost var before := rows;
      var n := height;
      var i := n;
      while i < width
        invariant n <= i <= width && Valid()
        invariant forall q, c {:trigger rows[q][c]} :: 0 <= q < height && 0 <= c < width ==>
          rows[q][c] == if q == k && n <= c < i then GaussJordan.Ratio(before[k][c], before[k][k]) else before[q][c]
      {
        Set(k, i, Get(k, i) / Get(k, k));
        i := i + 1;
      }
      Set(k, k, 1.0);
    }

    /** The right half of this augmented matrix, copied into a new n x n matrix. */
    method RightHalf() returns (res: Matrix)
      requires Valid() && width == 2 * height
      ensures fresh(res) && fresh(res.cells) && res.Valid()
      ensures res.height == height && res.width == height
      ensures res.rows == GaussJordan.RightHalf(rows, height)
    {
      var n := height;
      res := new Matrix.Zero(n, n);
      var i := 0;
      while i < n
        invariant i <= n && res.Valid() && res.height == n && res.width == n
        invariant fresh(res) && fresh(res.cells)
        invariant forall q, c {:trigger res.rows[q][c]} :: 0 <= q < n && 0 <= c < n ==> res.rows[q][c] == if q < i then rows[q][n + c] else 0.0
      {
        var j := 0;
        while j < n
          invariant j <= n && res.Valid() && fresh(res) && fresh(res.cells)
          invariant forall q, c {:trigger res.rows[q][c]} :: 0 <= q < n && 0 <= c < n ==>
            res.rows[q][c] == if q < i || (q == i && c < j) then rows[q][n + c] else 0.0
        {
          res.Set(i, j, Get(i, n + j));
          j := j + 1;
        }
        i := i + 1;
      }
      SameGrid(res.rows, GaussJordan.RightHalf(rows, n), n, n);
    }

    /** Cell (i, j). */
    function Get(i: nat, j: nat): (v: real)
      requires Valid() && i < height && j < width
      reads this, cells
      ensures v == rows[i][j]
    {
      cells[Offset(height, width, i, j)]
    }

    /** Cell (i, j) := v; nothing else changes. */
    method Set(i: nat, j: nat, v: real)
      requires Valid() && i < height && j < width
      modifies this, cells
      ensures Valid() && rows == old(rows)[i := old(rows)[i][j := v]]
      ensures forall q, c {:trigger rows[q][c]} :: 0 <= q < height && 0 <= c < width ==>
        rows[q][c] == if q == i && c == j then v else old(rows[q][c])
    {
      cells[Offset(height, width, i, j)] := v;
      rows := rows[i := rows[i][j := v]];
      forall r, c | 0 <= r < height && 0 <= c < width && (r != i || c != j)
        ensures Offset(height, width, r, c) != Offset(height, width, i, j)
      {
        OffsetsDiffer(height, width, r, c, i, j);
      }
    }
  }

  /** The augmented matrix m with rows 0 to i - 1, except k, eliminated against row k. */
  ghost function EliminatedUpTo(m: Grid, n: nat, k: nat, i: nat): (x: Grid)
    requires GaussJordan.Augmented(m, n) && k < n && i <= n && m[k][k] != 0.0
  {
    seq(n, q requires 0 <= q < n => if q < i && q != k then GaussJordan.EliminateRow(m[q], m[k], k) else m[q])
  }

  /** Two grids of one shape that agree cell by cell are equal. */
  lemma SameGrid(a: Grid, b: Grid, h: nat, w: nat)
    requires IsGrid(a, h, w) && IsGrid(b, h, w)
    requires forall i, j :: 0 <= i < h && 0 <= j < w ==> a[i][j] == b[i][j]
    ensures a == b
  {
    forall i | 0 <= i < h
      ensures a[i] == b[i]
    {
    }
  }
}
