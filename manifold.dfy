/**
 * Flat-manifold traits (include/ze/common/manifold.h): the map between a
 * parameter type and its tangent space for scalars and for fixed-size double
 * matrices.  Every operation is exact algebra over `real`; optional Jacobian
 * out-pointers are modelled as a "requested" flag and an `Option` result that is
 * `None` exactly when the pointer was null.
 */

/** `internal::ScalarTraits` for `float` and `double`; 1x1 tangent vectors and Jacobians are their single entry. */
module ScalarTraits {
  import opened Wrappers
  import opened LinAlg

  const Dimension: nat := 1

  /** The default tolerance of `Equals`. */
  const DefaultTolerance: real := 0.00000001

  /** A value together with the Jacobians whose pointers were non-null. */
  datatype Linearized2 = Linearized2(value: real, H1: Option<real>, H2: Option<real>)
  datatype Linearized1 = Linearized1(value: real, H: Option<real>)

  /** Strict tolerance test: `v1` and `v2` are closer than `tol`. */
  function Equals(v1: real, v2: real, tol: real := DefaultTolerance): (b: bool)
    ensures b <==> v2 - tol < v1 < v2 + tol
  {
    Abs(v1 - v2) < tol
  }

  /** The identity element: the point from which every step and every local coordinate is measured. */
  function Identity(): (z: real)
    ensures forall x :: Retract(z, x) == x && Local(z, x) == x
  {
    0.0
  }

  /** `other` relative to `origin`. */
  function Local(origin: real, other: real): (v: real)
    ensures origin + v == other
  {
    other - origin
  }

  /** `origin` moved by the tangent step `v`. */
  function Retract(origin: real, v: real): (x: real)
    ensures x - origin == v
  {
    origin + v
  }

  /** Logmap is Local relative to the identity. */
  function Logmap(m: real): (v: real)
    ensures Identity() + v == m
  {
    Local(0.0, m)
  }

  function Expmap(v: real): (m: real)
    ensures Logmap(m) == v
  {
    v
  }

  /** Local with optional Jacobians: -1 with respect to `origin`, +1 with respect to `other`. */
  function LocalWithJacobians(origin: real, other: real, wantH1: bool, wantH2: bool): (r: Linearized2)
    ensures r.value == Local(origin, other)
    ensures r.H1.Some? <==> wantH1
    ensures r.H2.Some? <==> wantH2
  {
    Linearized2(Local(origin, other), if wantH1 then Some(-1.0) else None, if wantH2 then Some(1.0) else None)
  }

  function RetractWithJacobians(origin: real, v: real, wantH1: bool, wantH2: bool): (r: Linearized2)
    ensures r.value == Retract(origin, v)
    ensures r.H1.Some? <==> wantH1
    ensures r.H2.Some? <==> wantH2
  {
    Linearized2(Retract(origin, v), if wantH1 then Some(1.0) else None, if wantH2 then Some(1.0) else None)
  }

  function LogmapWithJacobian(m: real, wantH: bool): (r: Linearized1)
    ensures r.value == Logmap(m)
    ensures r.H.Some? <==> wantH
  {
    Linearized1(Logmap(m), if wantH then Some(1.0) else None)
  }

  function ExpmapWithJacobian(v: real, wantH: bool): (r: Linearized1)
    ensures r.value == Expmap(v)
    ensures r.H.Some? <==> wantH
  {
    Linearized1(Expmap(v), if wantH then Some(1.0) else None)
  }

  lemma RetractLocal(origin: real, x: real)
    ensures Retract(origin, Local(origin, x)) == x
  {
  }

  lemma LocalRetract(origin: real, v: real)
    ensures Local(origin, Retract(origin, v)) == v
  {
  }

  lemma LogmapExpmap(m: real, v: real)
    ensures Identity() == 0.0
    ensures Logmap(m) == Local(Identity(), m) == m
    ensures Expmap(Logmap(m)) == m && Logmap(Expmap(v)) == v
  {
  }

  /**
   * The Jacobians are exact derivatives: perturbing the arguments by `d1` and
   * `d2` changes the result by exactly `H1 * d1 + H2 * d2`.
   */
  lemma LocalJacobiansExact(origin: real, other: real, d1: real, d2: real)
    ensures var r := LocalWithJacobians(origin, other, true, true);
      Local(Retract(origin, d1), Retract(other, d2)) == r.value + r.H1.value * d1 + r.H2.value * d2
  {
  }

  lemma RetractJacobiansExact(origin: real, v: real, d1: real, d2: real)
    ensures var r := RetractWithJacobians(origin, v, true, true);
      Retract(Retract(origin, d1), v + d2) == r.value + r.H1.value * d1 + r.H2.value * d2
  {
  }

  lemma LogExpJacobiansExact(m: real, v: real, d: real)
    ensures Logmap(m + d) == LogmapWithJacobian(m, true).value + LogmapWithJacobian(m, true).H.value * d
    ensures Expmap(v + d) == ExpmapWithJacobian(v, true).value + ExpmapWithJacobian(v, true).H.value * d
  {
  }

  /** Equals is reflexive exactly when the tolerance is positive, and always symmetric. */
  lemma EqualsReflexiveSymmetric(v1: real, v2: real, tol: real)
    ensures Equals(v1, v1, tol) <==> tol > 0.0
    ensures Equals(v1, v2, tol) == Equals(v2, v1, tol)
  {
  }

  /** A difference of exactly `tol` is rejected. */
  lemma EqualsRejectsBoundary(v: real, tol: real)
    ensures !Equals(v + tol, v, tol)
  {
  }
}

/** `traits<Eigen::Matrix<double, M, N>>`: an M-by-N matrix, tangent vector of dimension M*N. */
module MatrixTraits {
  import opened Wrappers
  import opened LinAlg

  const DefaultTolerance: real := 0.00000001

  datatype Linearized2<T> = Linearized2(value: T, H1: Option<Grid>, H2: Option<Grid>)
  datatype Linearized1<T> = Linearized1(value: T, H: Option<Grid>)

  /** The tangent dimension: one coordinate per entry, none when either side is empty. */
  function Dimension(M: nat, N: nat): (d: nat)
    ensures d == 0 <==> M == 0 || N == 0
  {
    M * N
  }

  lemma MulLeft(a: int, b: int, c: nat)
    requires a <= b
    ensures a * c <= b * c
  {
  }

  lemma DivModUnique(k: int, M: int, q: int, r: int)
    requires M > 0 && 0 <= r < M && k == q * M + r
    ensures k / M == q && k % M == r
  {
    var q0, r0 := k / M, k % M;
    assert k == q0 * M + r0;
    if q0 > q {
      MulLeft(q + 1, q0, M);
      assert false;
    } else if q0 < q {
      MulLeft(q0 + 1, q, M);
      assert false;
    }
  }

  /** Entry (i, j) sits at position i + j*M of the column-major flattening. */
  lemma IndexJoin(i: nat, j: nat, M: nat, N: nat)
    requires i < M && j < N
    ensures i + j * M < M * N
    ensures (i + j * M) % M == i && (i + j * M) / M == j
  {
    MulLeft(j + 1, N, M);
    DivModUnique(i + j * M, M, j, i);
  }

  /** Position k of the column-major flattening is entry (k % M, k / M). */
  lemma IndexSplit(k: nat, M: nat, N: nat)
    requires k < M * N
    ensures 0 < M && k % M < M && k / M < N && k % M + (k / M) * M == k
  {
  }

  /** Position of entry (i, j) in the column-major flattening of an M-by-N matrix. */
  function FlatIndex(i: nat, j: nat, M: nat, N: nat): (k: nat)
    requires i < M && j < N
    ensures k < Dimension(M, N)
  {
    IndexJoin(i, j, M, N);
    i + j * M
  }

  /** Row of the entry at position k of the column-major flattening. */
  function RowOf(k: nat, M: nat, N: nat): (i: nat)
    requires k < Dimension(M, N)
    ensures i < M
  {
    IndexSplit(k, M, N);
    k % M
  }

  /** Column of the entry at position k of the column-major flattening. */
  function ColOf(k: nat, M: nat, N: nat): (j: nat)
    requires k < Dimension(M, N)
    ensures j < N
  {
    IndexSplit(k, M, N);
    k / M
  }

  /** FlatIndex is a bijection between the M-by-N positions and [0, M*N). */
  lemma FlatIndexInverse(i: nat, j: nat, M: nat, N: nat)
    requires i < M && j < N
    ensures RowOf(FlatIndex(i, j, M, N), M, N) == i && ColOf(FlatIndex(i, j, M, N), M, N) == j
  {
    IndexJoin(i, j, M, N);
  }

  lemma FlatIndexSplit(k: nat, M: nat, N: nat)
    requires k < Dimension(M, N)
    ensures FlatIndex(RowOf(k, M, N), ColOf(k, M, N), M, N) == k
  {
    IndexSplit(k, M, N);
  }

  /** The tangent vector of a matrix: its column-major flattening (`Eigen::Map` over the tangent's storage). */
  function Flatten(m: Grid, M: nat, N: nat): (v: Vector)
    requires IsMatrix(m, M, N)
    ensures |v| == Dimension(M, N)
    ensures forall i, j :: 0 <= i < M && 0 <= j < N ==> v[FlatIndex(i, j, M, N)] == m[i][j]
  {
    var v := seq(Dimension(M, N), k requires 0 <= k < Dimension(M, N) => m[RowOf(k, M, N)][ColOf(k, M, N)]);
    assert forall i, j :: 0 <= i < M && 0 <= j < N ==> v[FlatIndex(i, j, M, N)] == m[i][j] by {
      forall i, j | 0 <= i < M && 0 <= j < N
        ensures v[FlatIndex(i, j, M, N)] == m[i][j]
      {
        FlatIndexInverse(i, j, M, N);
      }
    }
    v
  }

  /** The matrix whose column-major flattening is `v`. */
  function Unflatten(v: Vector, M: nat, N: nat): (m: Grid)
    requires |v| == Dimension(M, N)
    ensures IsMatrix(m, M, N)
    ensures forall i, j :: 0 <= i < M && 0 <= j < N ==> m[i][j] == v[FlatIndex(i, j, M, N)]
  {
    seq(M, i requires 0 <= i < M => seq(N, j requires 0 <= j < N => v[FlatIndex(i, j, M, N)]))
  }

  lemma {:induction false} UnflattenFlatten(m: Grid, M: nat, N: nat)
    requires IsMatrix(m, M, N)
    ensures Unflatten(Flatten(m, M, N), M, N) == m
  {
    MatrixExt(Unflatten(Flatten(m, M, N), M, N), m, M, N);
  }

  lemma {:induction false} FlattenUnflatten(v: Vector, M: nat, N: nat)
    requires |v| == Dimension(M, N)
    ensures Flatten(Unflatten(v, M, N), M, N) == v
  {
    var w := Flatten(Unflatten(v, M, N), M, N);
    forall k | 0 <= k < Dimension(M, N)
      ensures w[k] == v[k]
    {
      FlatIndexSplit(k, M, N);
    }
  }

  function Cols(m: Grid): (n: nat) {
    if |m| == 0 then 0 else |m[0]|
  }

  /** Every row has as many entries as the first. */
  predicate Rectangular(m: Grid) {
    forall i :: 0 <= i < |m| ==> |m[i]| == Cols(m)
  }

  /** Eigen's `size()`: the number of entries. */
  function Size(m: Grid): (n: nat) {
    Dimension(|m|, Cols(m))
  }

  /** Eigen's linear coefficient access `m[k]` in column-major storage order. */
  function Coeff(m: Grid, k: nat): (c: real)
    requires Rectangular(m) && k < Size(m)
  {
    m[RowOf(k, |m|, Cols(m))][ColOf(k, |m|, Cols(m))]
  }

  /** The linear coefficient at the column-major position of (i, j) is entry (i, j). */
  lemma CoeffAt(m: Grid, i: nat, j: nat)
    requires Rectangular(m) && i < |m| && j < Cols(m)
    ensures FlatIndex(i, j, |m|, Cols(m)) < Size(m)
    ensures Coeff(m, FlatIndex(i, j, |m|, Cols(m))) == m[i][j]
  {
    FlatIndexInverse(i, j, |m|, Cols(m));
  }

  lemma RectangularIsMatrix(m: Grid, M: nat, N: nat)
    requires IsMatrix(m, M, N)
    ensures Rectangular(m) && Size(m) == Dimension(M, N)
    ensures M > 0 ==> Cols(m) == N
  {
  }

  /** The scan of `Equals`: no entry from position `from` on differs by more than `tol`. */
  function NoEntryExceeds(v1: Grid, v2: Grid, tol: real, from: nat): (b: bool)
    requires Rectangular(v1) && Rectangular(v2) && Size(v1) == Size(v2) && from <= Size(v1)
    ensures b <==> forall k :: from <= k < Size(v1) ==> Abs(Coeff(v1, k) - Coeff(v2, k)) <= tol
    decreases Size(v1) - from
  {
    if from == Size(v1) then true
    else if Abs(Coeff(v1, from) - Coeff(v2, from)) > tol then false
    else NoEntryExceeds(v1, v2, tol, from + 1)
  }

  /**
   * Approximate equality: false on a size mismatch and false as soon as one entry
   * differs by more than `tol`; a difference of exactly `tol` is accepted.
   */
  function Equals(v1: Grid, v2: Grid, tol: real := DefaultTolerance): (b: bool)
    requires Rectangular(v1) && Rectangular(v2)
    ensures Size(v1) != Size(v2) ==> !b
    ensures b <==> Size(v1) == Size(v2) && forall k :: 0 <= k < Size(v1) ==> Abs(Coeff(v1, k) - Coeff(v2, k)) <= tol
  {
    Size(v1) == Size(v2) && NoEntryExceeds(v1, v2, tol, 0)
  }

  /** For two M-by-N matrices, Equals is the entrywise test `|v1[i][j] - v2[i][j]| <= tol`. */
  lemma EqualsEntrywise(v1: Grid, v2: Grid, M: nat, N: nat, tol: real)
    requires IsMatrix(v1, M, N) && IsMatrix(v2, M, N)
    ensures Rectangular(v1) && Rectangular(v2)
    ensures Equals(v1, v2, tol) <==> forall i, j :: 0 <= i < M && 0 <= j < N ==> Abs(v1[i][j] - v2[i][j]) <= tol
  {
    RectangularIsMatrix(v1, M, N);
    RectangularIsMatrix(v2, M, N);
    if Equals(v1, v2, tol) {
      forall i, j | 0 <= i < M && 0 <= j < N
        ensures Abs(v1[i][j] - v2[i][j]) <= tol
      {
        var k := FlatIndex(i, j, M, N);
        FlatIndexInverse(i, j, M, N);
        assert Abs(Coeff(v1, k) - Coeff(v2, k)) <= tol;
      }
    }
    if forall i, j :: 0 <= i < M && 0 <= j < N ==> Abs(v1[i][j] - v2[i][j]) <= tol {
      forall k | 0 <= k < Size(v1)
        ensures Abs(Coeff(v1, k) - Coeff(v2, k)) <= tol
      {
        var i, j := RowOf(k, M, N), ColOf(k, M, N);
        assert Abs(v1[i][j] - v2[i][j]) <= tol;
      }
    }
  }

  /** Equals is reflexive for a non-negative tolerance and symmetric. */
  lemma EqualsReflexiveSymmetric(v1: Grid, v2: Grid, tol: real)
    requires Rectangular(v1) && Rectangular(v2)
    ensures tol >= 0.0 ==> Equals(v1, v1, tol)
    ensures Equals(v1, v2, tol) == Equals(v2, v1, tol)
  {
    if Equals(v1, v2, tol) {
      assert forall k :: 0 <= k < Size(v2) ==> Abs(Coeff(v2, k) - Coeff(v1, k)) <= tol by {
        forall k | 0 <= k < Size(v2)
          ensures Abs(Coeff(v2, k) - Coeff(v1, k)) <= tol
        {
          assert Abs(Coeff(v1, k) - Coeff(v2, k)) <= tol;
        }
      }
    }
  }

  /** Unlike the scalar test, a difference of exactly `tol` is accepted. */
  lemma EqualsAcceptsBoundary(x: real, tol: real)
    requires tol >= 0.0
    ensures Rectangular([[x]]) && Rectangular([[x + tol]])
    ensures Equals([[x + tol]], [[x]], tol)
  {
    assert Size([[x]]) == 1;
    assert Coeff([[x + tol]], 0) == x + tol;
  }

  /** The identity element of a flat matrix manifold is the zero matrix. */
  function Identity(M: nat, N: nat): (z: Grid)
    ensures IsMatrix(z, M, N)
    ensures forall i, j :: 0 <= i < M && 0 <= j < N ==> z[i][j] == 0.0
  {
    seq(M, i => seq(N, j => 0.0))
  }

  /** `other - origin`, flattened. */
  function Local(origin: Grid, other: Grid, M: nat, N: nat): (v: Vector)
    requires IsMatrix(origin, M, N) && IsMatrix(other, M, N)
    ensures |v| == Dimension(M, N)
    ensures forall i, j :: 0 <= i < M && 0 <= j < N ==> v[FlatIndex(i, j, M, N)] == other[i][j] - origin[i][j]
  {
    Flatten(MatSub(other, origin, M, N), M, N)
  }

  /** `origin` plus the matrix whose flattening is `v`. */
  function Retract(origin: Grid, v: Vector, M: nat, N: nat): (x: Grid)
    requires IsMatrix(origin, M, N) && |v| == Dimension(M, N)
    ensures IsMatrix(x, M, N)
    ensures forall i, j :: 0 <= i < M && 0 <= j < N ==> x[i][j] == origin[i][j] + Unflatten(v, M, N)[i][j]
  {
    MatAdd(origin, Unflatten(v, M, N), M, N)
  }

  function Logmap(m: Grid, M: nat, N: nat): (v: Vector)
    requires IsMatrix(m, M, N)
    ensures |v| == Dimension(M, N)
    ensures forall i, j :: 0 <= i < M && 0 <= j < N ==> v[FlatIndex(i, j, M, N)] == m[i][j]
  {
    Flatten(m, M, N)
  }

  /** A zero matrix plus the matrix whose flattening is `v`. */
  function Expmap(v: Vector, M: nat, N: nat): (m: Grid)
    requires |v| == Dimension(M, N)
    ensures IsMatrix(m, M, N)
  {
    MatAdd(Identity(M, N), Unflatten(v, M, N), M, N)
  }

  function JacobianIdentity(M: nat, N: nat): (e: Grid)
    ensures IsMatrix(e, Dimension(M, N), Dimension(M, N))
    ensures forall i, j :: 0 <= i < Dimension(M, N) && 0 <= j < Dimension(M, N) ==> e[i][j] == if i == j then 1.0 else 0.0
  {
    IdentityMatrix(Dimension(M, N))
  }

  function LocalWithJacobians(origin: Grid, other: Grid, M: nat, N: nat, wantH1: bool, wantH2: bool): (r: Linearized2<Vector>)
    requires IsMatrix(origin, M, N) && IsMatrix(other, M, N)
    ensures r.value == Local(origin, other, M, N)
    ensures r.H1.Some? <==> wantH1
    ensures r.H2.Some? <==> wantH2
  {
    var d := Dimension(M, N);
    Linearized2(Local(origin, other, M, N),
      if wantH1 then Some(MatNeg(JacobianIdentity(M, N), d, d)) else None,
      if wantH2 then Some(JacobianIdentity(M, N)) else None)
  }

  function RetractWithJacobians(origin: Grid, v: Vector, M: nat, N: nat, wantH1: bool, wantH2: bool): (r: Linearized2<Grid>)
    requires IsMatrix(origin, M, N) && |v| == Dimension(M, N)
    ensures r.value == Retract(origin, v, M, N)
    ensures r.H1.Some? <==> wantH1
    ensures r.H2.Some? <==> wantH2
  {
    Linearized2(Retract(origin, v, M, N),
      if wantH1 then Some(JacobianIdentity(M, N)) else None,
      if wantH2 then Some(JacobianIdentity(M, N)) else None)
  }

  function LogmapWithJacobian(m: Grid, M: nat, N: nat, wantH: bool): (r: Linearized1<Vector>)
    requires IsMatrix(m, M, N)
    ensures r.value == Logmap(m, M, N)
    ensures r.H.Some? <==> wantH
  {
    Linearized1(Logmap(m, M, N), if wantH then Some(JacobianIdentity(M, N)) else None)
  }

  function ExpmapWithJacobian(v: Vector, M: nat, N: nat, wantH: bool): (r: Linearized1<Grid>)
    requires |v| == Dimension(M, N)
    ensures r.value == Expmap(v, M, N)
    ensures r.H.Some? <==> wantH
  {
    Linearized1(Expmap(v, M, N), if wantH then Some(JacobianIdentity(M, N)) else None)
  }

  lemma {:induction false} RetractLocal(origin: Grid, x: Grid, M: nat, N: nat)
    requires IsMatrix(origin, M, N) && IsMatrix(x, M, N)
    ensures Retract(origin, Local(origin, x, M, N), M, N) == x
  {
    var diff := MatSub(x, origin, M, N);
    UnflattenFlatten(diff, M, N);
    MatrixExt(Retract(origin, Local(origin, x, M, N), M, N), x, M, N);
  }

  lemma {:induction false} LocalRetract(origin: Grid, v: Vector, M: nat, N: nat)
    requires IsMatrix(origin, M, N) && |v| == Dimension(M, N)
    ensures Local(origin, Retract(origin, v, M, N), M, N) == v
  {
    var u := Unflatten(v, M, N);
    var diff := MatSub(Retract(origin, v, M, N), origin, M, N);
    MatrixExt(diff, u, M, N);
    FlattenUnflatten(v, M, N);
  }

  lemma {:induction false} LogmapExpmap(m: Grid, v: Vector, M: nat, N: nat)
    requires IsMatrix(m, M, N) && |v| == Dimension(M, N)
    ensures Logmap(m, M, N) == Local(Identity(M, N), m, M, N)
    ensures Expmap(Logmap(m, M, N), M, N) == m
    ensures Logmap(Expmap(v, M, N), M, N) == v
  {
    MatrixExt(MatSub(m, Identity(M, N), M, N), m, M, N);
    UnflattenFlatten(m, M, N);
    MatrixExt(Expmap(Logmap(m, M, N), M, N), m, M, N);
    MatrixExt(Expmap(v, M, N), Unflatten(v, M, N), M, N);
    FlattenUnflatten(v, M, N);
  }

  /**
   * The Local Jacobians are exact: perturbing `origin` and `other` by the
   * tangent steps `d1` and `d2` changes the result by exactly `H1 d1 + H2 d2`.
   */
  lemma {:induction false} LocalJacobiansExact(origin: Grid, other: Grid, d1: Vector, d2: Vector, M: nat, N: nat)
    requires IsMatrix(origin, M, N) && IsMatrix(other, M, N)
    requires |d1| == Dimension(M, N) && |d2| == Dimension(M, N)
    ensures var r := LocalWithJacobians(origin, other, M, N, true, true);
      var d := Dimension(M, N);
      Local(Retract(origin, d1, M, N), Retract(other, d2, M, N), M, N)
        == VecAdd(VecAdd(r.value, MatVec(r.H1.value, d, d, d1)), MatVec(r.H2.value, d, d, d2))
  {
    var d := Dimension(M, N);
    NegIdentityMatVec(d, d1);
    IdentityMatVec(d, d2);
    var lhs := Local(Retract(origin, d1, M, N), Retract(other, d2, M, N), M, N);
    var rhs := VecAdd(VecAdd(Local(origin, other, M, N), VecScale(-1.0, d1)), d2);
    forall k | 0 <= k < d
      ensures lhs[k] == rhs[k]
    {
      FlatIndexSplit(k, M, N);
    }
  }

  lemma {:induction false} RetractJacobiansExact(origin: Grid, v: Vector, d1: Vector, d2: Vector, M: nat, N: nat)
    requires IsMatrix(origin, M, N)
    requires |v| == Dimension(M, N) && |d1| == Dimension(M, N) && |d2| == Dimension(M, N)
    ensures var r := RetractWithJacobians(origin, v, M, N, true, true);
      var d := Dimension(M, N);
      Retract(Retract(origin, d1, M, N), VecAdd(v, d2), M, N)
        == Retract(r.value, VecAdd(MatVec(r.H1.value, d, d, d1), MatVec(r.H2.value, d, d, d2)), M, N)
  {
    var d := Dimension(M, N);
    IdentityMatVec(d, d1);
    IdentityMatVec(d, d2);
    var lhs := Retract(Retract(origin, d1, M, N), VecAdd(v, d2), M, N);
    var rhs := Retract(Retract(origin, v, M, N), VecAdd(d1, d2), M, N);
    forall i, j | 0 <= i < M && 0 <= j < N
      ensures lhs[i][j] == rhs[i][j]
    {
    }
    MatrixExt(lhs, rhs, M, N);
  }

  lemma {:induction false} LogmapJacobianExact(m: Grid, dv: Vector, M: nat, N: nat)
    requires IsMatrix(m, M, N) && |dv| == Dimension(M, N)
    ensures var d := Dimension(M, N);
      Logmap(Retract(m, dv, M, N), M, N)
        == VecAdd(Logmap(m, M, N), MatVec(LogmapWithJacobian(m, M, N, true).H.value, d, d, dv))
  {
    var d := Dimension(M, N);
    IdentityMatVec(d, dv);
    var lhs := Logmap(Retract(m, dv, M, N), M, N);
    var rhs := VecAdd(Logmap(m, M, N), dv);
    forall k | 0 <= k < d
      ensures lhs[k] == rhs[k]
    {
      FlatIndexSplit(k, M, N);
    }
  }

  lemma {:induction false} ExpmapJacobianExact(v: Vector, dv: Vector, M: nat, N: nat)
    requires |v| == Dimension(M, N) && |dv| == Dimension(M, N)
    ensures var d := Dimension(M, N);
      Expmap(VecAdd(v, dv), M, N)
        == Retract(Expmap(v, M, N), MatVec(ExpmapWithJacobian(v, M, N, true).H.value, d, d, dv), M, N)
  {
    IdentityMatVec(Dimension(M, N), dv);
    MatrixExt(Expmap(VecAdd(v, dv), M, N), Retract(Expmap(v, M, N), dv, M, N), M, N);
  }
}
