/**
 * Dense linear algebra over `real`, as much of it as the manifold traits and the
 * pose aligner use: vectors are `seq<real>`, matrices are lists of rows.
 */
module LinAlg {

  type Vector = seq<real>

  function Abs(x: real): (a: real)
    ensures a >= 0.0 && (a == x || a == -x)
  {
    if x < 0.0 then -x else x
  }

  /** A matrix as its list of rows: `m[i][j]` is the entry in row `i`, column `j`. */
  type Grid = seq<seq<real>>

  predicate IsMatrix(m: Grid, rows: nat, cols: nat) {
    |m| == rows && forall i :: 0 <= i < rows ==> |m[i]| == cols
  }

  /** Two M-by-N matrices with the same entries are equal. */
  lemma MatrixExt(a: Grid, b: Grid, M: nat, N: nat)
    requires IsMatrix(a, M, N) && IsMatrix(b, M, N)
    requires forall i, j :: 0 <= i < M && 0 <= j < N ==> a[i][j] == b[i][j]
    ensures a == b
  {
    forall i | 0 <= i < M
      ensures a[i] == b[i]
    {
    }
  }

  /** Inner product of two vectors of the same length. */
  function Dot(u: Vector, v: Vector): (d: real)
    requires |u| == |v|
  {
    if |u| == 0 then 0.0 else u[0] * v[0] + Dot(u[1..], v[1..])
  }

  function SquaredNorm(v: Vector): (s: real) {
    Dot(v, v)
  }

  /** Column `j` of a matrix with `rows` rows. */
  function Column(m: Grid, rows: nat, cols: nat, j: nat): (c: Vector)
    requires IsMatrix(m, rows, cols) && j < cols
    ensures |c| == rows && forall i :: 0 <= i < rows ==> c[i] == m[i][j]
  {
    seq(rows, i requires 0 <= i < rows => m[i][j])
  }

  function Zeros(n: nat): (v: Vector)
    ensures |v| == n && forall i :: 0 <= i < n ==> v[i] == 0.0
  {
    seq(n, _ => 0.0)
  }

  function VecAdd(u: Vector, v: Vector): (w: Vector)
    requires |u| == |v|
    ensures |w| == |u| && forall i :: 0 <= i < |u| ==> w[i] == u[i] + v[i]
  {
    seq(|u|, i requires 0 <= i < |u| => u[i] + v[i])
  }

  function VecSub(u: Vector, v: Vector): (w: Vector)
    requires |u| == |v|
    ensures |w| == |u| && forall i :: 0 <= i < |u| ==> w[i] == u[i] - v[i]
  {
    seq(|u|, i requires 0 <= i < |u| => u[i] - v[i])
  }

  function VecScale(c: real, v: Vector): (w: Vector)
    ensures |w| == |v| && forall i :: 0 <= i < |v| ==> w[i] == c * v[i]
  {
    seq(|v|, i requires 0 <= i < |v| => c * v[i])
  }

  function MatAdd(a: Grid, b: Grid, rows: nat, cols: nat): (c: Grid)
    requires IsMatrix(a, rows, cols) && IsMatrix(b, rows, cols)
    ensures IsMatrix(c, rows, cols)
    ensures forall i, j :: 0 <= i < rows && 0 <= j < cols ==> c[i][j] == a[i][j] + b[i][j]
  {
    seq(rows, i requires 0 <= i < rows => seq(cols, j requires 0 <= j < cols => a[i][j] + b[i][j]))
  }

  function MatSub(a: Grid, b: Grid, rows: nat, cols: nat): (c: Grid)
    requires IsMatrix(a, rows, cols) && IsMatrix(b, rows, cols)
    ensures IsMatrix(c, rows, cols)
    ensures forall i, j :: 0 <= i < rows && 0 <= j < cols ==> c[i][j] == a[i][j] - b[i][j]
  {
    seq(rows, i requires 0 <= i < rows => seq(cols, j requires 0 <= j < cols => a[i][j] - b[i][j]))
  }

  function MatNeg(a: Grid, rows: nat, cols: nat): (c: Grid)
    requires IsMatrix(a, rows, cols)
    ensures IsMatrix(c, rows, cols)
    ensures forall i, j :: 0 <= i < rows && 0 <= j < cols ==> c[i][j] == -a[i][j]
  {
    seq(rows, i requires 0 <= i < rows => seq(cols, j requires 0 <= j < cols => -a[i][j]))
  }

  /** The `n`-by-`n` identity matrix. */
  function IdentityMatrix(n: nat): (e: Grid)
    ensures IsMatrix(e, n, n)
    ensures forall i, j :: 0 <= i < n && 0 <= j < n ==> e[i][j] == if i == j then 1.0 else 0.0
  {
    seq(n, i => seq(n, j => if i == j then 1.0 else 0.0))
  }

  /** Matrix-vector product. */
  function MatVec(m: Grid, rows: nat, cols: nat, v: Vector): (w: Vector)
    requires IsMatrix(m, rows, cols) && |v| == cols
    ensures |w| == rows
  {
    seq(rows, i requires 0 <= i < rows => Dot(m[i], v))
  }

  predicate Symmetric(m: Grid, n: nat)
    requires IsMatrix(m, n, n)
  {
    forall i, j :: 0 <= i < n && 0 <= j < n ==> m[i][j] == m[j][i]
  }

  lemma {:induction false} DotSymmetric(u: Vector, v: Vector)
    requires |u| == |v|
    ensures Dot(u, v) == Dot(v, u)
  {
    if |u| > 0 {
      DotSymmetric(u[1..], v[1..]);
    }
  }

  lemma {:induction false} DotNonNegative(v: Vector)
    ensures SquaredNorm(v) >= 0.0
  {
    if |v| > 0 {
      DotNonNegative(v[1..]);
    }
  }

  lemma {:induction false} DotZeroLeft(u: Vector, v: Vector)
    requires |u| == |v|
    requires forall k :: 0 <= k < |u| ==> u[k] == 0.0
    ensures Dot(u, v) == 0.0
  {
    if |u| > 0 {
      DotZeroLeft(u[1..], v[1..]);
    }
  }

  lemma {:induction false} DotZeroRight(u: Vector, v: Vector)
    requires |u| == |v|
    requires forall k :: 0 <= k < |v| ==> v[k] == 0.0
    ensures Dot(u, v) == 0.0
  {
    if |u| > 0 {
      DotZeroRight(u[1..], v[1..]);
    }
  }

  /** The inner product with the `i`-th unit vector selects entry `i`. */
  lemma {:induction false} DotUnit(u: Vector, v: Vector, i: nat)
    requires |u| == |v| && i < |u|
    requires forall k :: 0 <= k < |u| ==> u[k] == if k == i then 1.0 else 0.0
    ensures Dot(u, v) == v[i]
  {
    if i == 0 {
      DotZeroLeft(u[1..], v[1..]);
    } else {
      DotUnit(u[1..], v[1..], i - 1);
    }
  }

  lemma {:induction false} DotScaleLeft(c: real, u: Vector, v: Vector)
    requires |u| == |v|
    ensures Dot(VecScale(c, u), v) == c * Dot(u, v)
  {
    if |u| > 0 {
      var w := VecScale(c, u);
      assert w[1..] == VecScale(c, u[1..]) by {
        assert |w[1..]| == |VecScale(c, u[1..])|;
        forall k | 0 <= k < |u| - 1 ensures w[1..][k] == VecScale(c, u[1..])[k] {
        }
      }
      DotScaleLeft(c, u[1..], v[1..]);
      var head := u[0] * v[0];
      var rest := Dot(u[1..], v[1..]);
      assert w[0] * v[0] == c * head;
      assert Dot(w, v) == c * head + c * rest;
      assert c * head + c * rest == c * (head + rest);
    }
  }

  /** Multiplying by the identity leaves a vector unchanged. */
  lemma IdentityMatVec(n: nat, v: Vector)
    requires |v| == n
    ensures MatVec(IdentityMatrix(n), n, n, v) == v
  {
    var w := MatVec(IdentityMatrix(n), n, n, v);
    forall i | 0 <= i < n
      ensures w[i] == v[i]
    {
      DotUnit(IdentityMatrix(n)[i], v, i);
    }
  }

  /** Multiplying by the negated identity negates a vector. */
  lemma NegIdentityMatVec(n: nat, v: Vector)
    requires |v| == n
    ensures MatVec(MatNeg(IdentityMatrix(n), n, n), n, n, v) == VecScale(-1.0, v)
  {
    var e := IdentityMatrix(n);
    var w := MatVec(MatNeg(e, n, n), n, n, v);
    forall i | 0 <= i < n
      ensures w[i] == -v[i]
    {
      var row := MatNeg(e, n, n)[i];
      assert row == VecScale(-1.0, e[i]);
      DotScaleLeft(-1.0, e[i], v);
      DotUnit(e[i], v, i);
    }
  }
}
