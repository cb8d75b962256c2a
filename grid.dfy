/**
 * Matrices as values: a grid is the sequence of a matrix's rows. These are
 * the specifications the Matrix class of matrix.cpp is proved against, and
 * the facts about them that the inversion proof needs.
 */
module Grids {
  /** A matrix as its rows. */
  type Grid = seq<seq<real>>

  /** m has h rows of w cells each. */
  predicate IsGrid(m: Grid, h: nat, w: nat) {
    |m| == h && forall i :: 0 <= i < h ==> |m[i]| == w
  }

  /** The h x w matrix whose cell (i, j) is seed(i, j). */
  function FromSeed(h: nat, w: nat, seed: (nat, nat) -> real): (m: Grid)
    ensures IsGrid(m, h, w)
  {
    seq(h, i requires 0 <= i < h => seq(w, j requires 0 <= j < w => seed(i, j)))
  }

  /** The h x w matrix of zeros. */
  function Zeros(h: nat, w: nat): (m: Grid)
    ensures IsGrid(m, h, w)
  {
    seq(h, i requires 0 <= i < h => seq(w, j requires 0 <= j < w => 0.0))
  }

  /** The n x n identity matrix. */
  function Identity(n: nat): (m: Grid)
    ensures IsGrid(m, n, n)
  {
    seq(n, i requires 0 <= i < n => seq(n, j requires 0 <= j < n => if i == j then 1.0 else 0.0))
  }

  /** op applied cell by cell to two matrices of one shape. */
  function CellWise(a: Grid, b: Grid, h: nat, w: nat, op: (real, real) -> real): (m: Grid)
    requires IsGrid(a, h, w) && IsGrid(b, h, w)
    ensures IsGrid(m, h, w)
  {
    seq(h, i requires 0 <= i < h => seq(w, j requires 0 <= j < w => op(a[i][j], b[i][j])))
  }

  /**
   * The first len terms of the product of row u with column j of b, summed
   * from the first term on.
   */
  function Dot(u: seq<real>, b: Grid, j: nat, len: nat): real
    requires len <= |u| && len <= |b| && forall k :: 0 <= k < len ==> j < |b[k]|
  {
    if len == 0 then 0.0 else Dot(u, b, j, len - 1) + u[len - 1] * b[len - 1][j]
  }

  /** The h x w product of an h x len matrix a and a len x w matrix b. */
  function Product(a: Grid, b: Grid, h: nat, len: nat, w: nat): (m: Grid)
    requires IsGrid(a, h, len) && IsGrid(b, len, w)
    ensures IsGrid(m, h, w)
  {
    seq(h, i requires 0 <= i < h => seq(w, j requires 0 <= j < w => Dot(a[i], b, j, len)))
  }

  // ---------------------------------------------------------------------------
  // The identity.

  /** Row i of the identity picks row i of b, when i is among the first len rows. */
  lemma {:induction false} DotUnitRow(n: nat, i: nat, b: Grid, j: nat, len: nat)
    requires i < n && len <= n && len <= |b| && forall k :: 0 <= k < len ==> j < |b[k]|
    ensures Dot(Identity(n)[i], b, j, len) == if i < len then b[i][j] else 0.0
  {
    if len > 0 {
      DotUnitRow(n, i, b, j, len - 1);
    }
  }

  /** Column j of the identity picks cell j of u, when j is among the first len cells. */
  lemma {:induction false} DotUnitColumn(u: seq<real>, n: nat, j: nat, len: nat)
    requires j < n && len <= n && len <= |u|
    ensures Dot(u, Identity(n), j, len) == if j < len then u[j] else 0.0
  {
    if len > 0 {
      DotUnitColumn(u, n, j, len - 1);
    }
  }

  /** The identity is a left unit of the product. */
  lemma IdentityLeft(b: Grid, n: nat, w: nat)
    requires IsGrid(b, n, w)
    ensures Product(Identity(n), b, n, n, w) == b
  {
    var p := Product(Identity(n), b, n, n, w);
    forall i | 0 <= i < n
      ensures p[i] == b[i]
    {
      forall j | 0 <= j < w
        ensures p[i][j] == b[i][j]
      {
        DotUnitRow(n, i, b, j, n);
      }
    }
  }

  /** The identity is a right unit of the product. */
  lemma IdentityRight(a: Grid, h: nat, n: nat)
    requires IsGrid(a, h, n)
    ensures Product(a, Identity(n), h, n, n) == a
  {
    var p := Product(a, Identity(n), h, n, n);
    forall i | 0 <= i < h
      ensures p[i] == a[i]
    {
      forall j | 0 <= j < n
        ensures p[i][j] == a[i][j]
      {
        DotUnitColumn(a[i], n, j, n);
      }
    }
  }

  // ---------------------------------------------------------------------------
  // Row operations: every row i becomes s[i] times itself minus r[i] times row k.

  /** s u - r v, cell by cell. */
  function Lin(u: seq<real>, v: seq<real>, s: real, r: real): (x: seq<real>)
    requires |u| == |v|
    ensures |x| == |u|
  {
    seq(|u|, j requires 0 <= j < |u| => s * u[j] - r * v[j])
  }

  /** Row i replaced by s[i] times row i minus r[i] times row k, for every i at once. */
  function Combine(m: Grid, k: nat, s: seq<real>, r: seq<real>): (x: Grid)
    requires k < |m| && |s| == |m| && |r| == |m| && forall i :: 0 <= i < |m| ==> |m[i]| == |m[k]|
    ensures |x| == |m| && forall i :: 0 <= i < |m| ==> |x[i]| == |m[i]|
  {
    seq(|m|, i requires 0 <= i < |m| => Lin(m[i], m[k], s[i], r[i]))
  }

  /** Rows k and p exchanged. */
  function Swap(m: Grid, k: nat, p: nat): (x: Grid)
    requires k < |m| && p < |m|
    ensures |x| == |m|
  {
    m[k := m[p]][p := m[k]]
  }

  lemma LinTerm(s: real, r: real, x: real, y: real, c: real)
    ensures (s * x - r * y) * c == s * (x * c) - r * (y * c)
  {
  }

  lemma PlusTerm(x: real, a: real, y: real)
    ensures 1.0 * x - (-a) * y == x + a * y
  {
  }

  /** The product is linear in the row: Dot(s u - r v) = s Dot(u) - r Dot(v). */
  lemma {:induction false} DotLin(u: seq<real>, v: seq<real>, s: real, r: real, b: Grid, j: nat, len: nat)
    requires |u| == |v| && len <= |u| && len <= |b| && forall k :: 0 <= k < len ==> j < |b[k]|
    ensures Dot(Lin(u, v, s, r), b, j, len) == s * Dot(u, b, j, len) - r * Dot(v, b, j, len)
  {
    if len > 0 {
      DotLin(u, v, s, r, b, j, len - 1);
      LinTerm(s, r, u[len - 1], v[len - 1], b[len - 1][j]);
    }
  }

  /** A row combination of a commutes with multiplying a on the right. */
  lemma ProductCombine(a: Grid, b: Grid, h: nat, len: nat, w: nat, k: nat, s: seq<real>, r: seq<real>)
    requires IsGrid(a, h, len) && IsGrid(b, len, w) && k < h && |s| == h && |r| == h
    ensures IsGrid(Combine(a, k, s, r), h, len)
    ensures Product(Combine(a, k, s, r), b, h, len, w) == Combine(Product(a, b, h, len, w), k, s, r)
  {
    var c := Combine(a, k, s, r);
    var p := Product(a, b, h, len, w);
    var x := Product(c, b, h, len, w);
    var y := Combine(p, k, s, r);
    forall i | 0 <= i < h
      ensures x[i] == y[i]
    {
      forall j | 0 <= j < w
        ensures x[i][j] == y[i][j]
      {
        DotLin(a[i], a[k], s[i], r[i], b, j, len);
      }
    }
  }

  /** Exchanging two rows of a commutes with multiplying a on the right. */
  lemma ProductSwap(a: Grid, b: Grid, h: nat, len: nat, w: nat, k: nat, p: nat)
    requires IsGrid(a, h, len) && IsGrid(b, len, w) && k < h && p < h
    ensures IsGrid(Swap(a, k, p), h, len)
    ensures Product(Swap(a, k, p), b, h, len, w) == Swap(Product(a, b, h, len, w), k, p)
  {
  }

  // ---------------------------------------------------------------------------
  // Associativity.

  /** The first m cells of row u times b, each summed over the first l terms only. */
  function PartialRow(u: seq<real>, b: Grid, l: nat, m: nat): (x: seq<real>)
    requires l <= |u| && l <= |b| && forall k :: 0 <= k < l ==> m <= |b[k]|
    ensures |x| == m
  {
    seq(m, p requires 0 <= p < m => Dot(u, b, p, l))
  }

  /** A row of zeros contributes nothing. */
  lemma {:induction false} DotZeroRow(u: seq<real>, c: Grid, j: nat, len: nat)
    requires len <= |u| && len <= |c| && forall k :: 0 <= k < len ==> j < |c[k]|
    requires forall k :: 0 <= k < len ==> u[k] == 0.0
    ensures Dot(u, c, j, len) == 0.0
  {
    if len > 0 {
      DotZeroRow(u, c, j, len - 1);
    }
  }

  /** One more term in every cell: the row plus u[len - 1] times row len - 1 of b. */
  lemma PartialRowStep(u: seq<real>, b: Grid, l: nat, m: nat, len: nat)
    requires IsGrid(b, l, m) && |u| == l && 0 < len <= l
    ensures PartialRow(u, b, len, m) == Lin(PartialRow(u, b, len - 1, m), b[len - 1], 1.0, -u[len - 1])
  {
    var prev := PartialRow(u, b, len - 1, m);
    var next := Lin(prev, b[len - 1], 1.0, -u[len - 1]);
    forall p | 0 <= p < m
      ensures PartialRow(u, b, len, m)[p] == next[p]
    {
      assert Dot(u, b, p, len) == Dot(u, b, p, len - 1) + u[len - 1] * b[len - 1][p];
    }
  }

  /** One more term of u b, multiplied by c: the previous value plus u[len - 1] times row len - 1 of b c. */
  lemma PartialRowTimes(u: seq<real>, b: Grid, c: Grid, l: nat, m: nat, w: nat, j: nat, len: nat)
    requires IsGrid(b, l, m) && IsGrid(c, m, w) && |u| == l && 0 < len <= l && j < w
    ensures Dot(PartialRow(u, b, len, m), c, j, m)
      == Dot(PartialRow(u, b, len - 1, m), c, j, m) + u[len - 1] * Dot(b[len - 1], c, j, m)
  {
    var prev := PartialRow(u, b, len - 1, m);
    PartialRowStep(u, b, l, m, len);
    DotLin(prev, b[len - 1], 1.0, -u[len - 1], c, j, m);
    PlusTerm(Dot(prev, c, j, m), u[len - 1], Dot(b[len - 1], c, j, m));
  }

  /** (u b) c = u (b c), for the first len terms of u, where q is b c. */
  lemma {:induction false} DotPartialRow(u: seq<real>, b: Grid, c: Grid, q: Grid, l: nat, m: nat, w: nat, j: nat, len: nat)
    requires IsGrid(b, l, m) && IsGrid(c, m, w) && IsGrid(q, l, w) && |u| == l && len <= l && j < w
    requires forall k :: 0 <= k < l ==> q[k][j] == Dot(b[k], c, j, m)
    ensures Dot(PartialRow(u, b, len, m), c, j, m) == Dot(u, q, j, len)
  {
    if len == 0 {
      DotZeroRow(PartialRow(u, b, 0, m), c, j, m);
    } else {
      DotPartialRow(u, b, c, q, l, m, w, j, len - 1);
      PartialRowTimes(u, b, c, l, m, w, j, len);
    }
  }

  /** The product is associative. */
  lemma ProductAssociative(a: Grid, b: Grid, c: Grid, h: nat, l: nat, m: nat, w: nat)
    requires IsGrid(a, h, l) && IsGrid(b, l, m) && IsGrid(c, m, w)
    ensures Product(Product(a, b, h, l, m), c, h, m, w) == Product(a, Product(b, c, l, m, w), h, l, w)
  {
    var ab := Product(a, b, h, l, m);
    var x := Product(ab, c, h, m, w);
    var bc := Product(b, c, l, m, w);
    var y := Product(a, bc, h, l, w);
    forall i | 0 <= i < h
      ensures x[i] == y[i]
    {
      assert ab[i] == PartialRow(a[i], b, l, m);
      forall j | 0 <= j < w
        ensures x[i][j] == y[i][j]
      {
        DotPartialRow(a[i], b, c, bc, l, m, w, j, l);
      }
    }
  }
}
