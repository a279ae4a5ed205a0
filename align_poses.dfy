/**
 * The pose aligner (src/align_poses.cpp): the robust Gauss-Newton cost of a
 * candidate relative transform T_A_B between two index-paired pose sequences,
 * and the in-place accumulation of the normal equations H and g.
 *
 * The Lie-group geometry and the robust weight function are foreign code; they
 * enter as the function values of a `Geometry` record, about which nothing is
 * assumed.  What is modelled exactly is the residual assembly, the whitening,
 * the weighting, the cost and the accumulation loop.
 */
module PoseAlignment {
  import opened Wrappers
  import opened LinAlg

  type Vector3 = v: Vector | |v| == 3 witness [0.0, 0.0, 0.0]
  type Vector6 = v: Vector | |v| == 6 witness [0.0, 0.0, 0.0, 0.0, 0.0, 0.0]
  type Matrix6 = m: Grid | IsMatrix(m, 6, 6) witness IdentityMatrix(6)

  /** The operations the aligner takes from the geometry and robust-cost libraries. */
  datatype Geometry<!Pose, !Rotation> = Geometry(
    position: Pose -> Vector3,                     // Transformation::getPosition
    rotation: Pose -> Rotation,                    // Transformation::getRotation
    transformPoint: (Pose, Vector3) -> Vector3,    // Transformation * point
    inverse: Rotation -> Rotation,                 // Quaternion::inverse
    multiply: (Rotation, Rotation) -> Rotation,    // Quaternion * Quaternion
    log: Rotation -> Vector3,                      // Quaternion::log
    compose: (Pose, Pose) -> Pose,                 // Transformation * Transformation
    exp: Vector6 -> Pose,                          // Transformation::exp
    dRelpose: (Pose, Pose, Pose) -> Matrix6,       // dRelpose_dTransformation(T_A_B, T_W_A, T_W_B)
    sqrt: real -> real,                            // square root of the column norm
    weight: real -> real)                          // the weight function, entry by entry

  /** The aligner holds the two pose sequences and the two noise scalars. */
  datatype PoseAligner<Pose> = PoseAligner(T_W_A: seq<Pose>, T_W_B: seq<Pose>, sigmaPos: real, sigmaRot: real)

  datatype ConstructionError = SizeMismatch(sizeA: nat, sizeB: nat)

  /** The construction-time check: both sequences have one pose per correspondence. */
  predicate WellFormed<Pose>(al: PoseAligner<Pose>) {
    |al.T_W_A| == |al.T_W_B|
  }

  /** Positive noise scalars: assumed by the aligner, never checked by it. */
  predicate PositiveNoise<Pose>(al: PoseAligner<Pose>) {
    al.sigmaPos > 0.0 && al.sigmaRot > 0.0
  }

  /** The constructor: a size mismatch is a failed check, never a truncation. */
  function Create<Pose>(T_W_A: seq<Pose>, T_W_B: seq<Pose>, sigmaPos: real, sigmaRot: real)
    : (r: Result<PoseAligner<Pose>, ConstructionError>)
    ensures r.Success? <==> |T_W_A| == |T_W_B|
    ensures r.Success? ==> WellFormed(r.value) && r.value.T_W_A == T_W_A && r.value.T_W_B == T_W_B
    ensures r.Success? ==> r.value.sigmaPos == sigmaPos && r.value.sigmaRot == sigmaRot
    ensures r.Failure? ==> r.error == SizeMismatch(|T_W_A|, |T_W_B|)
  {
    if |T_W_A| == |T_W_B| then Success(PoseAligner(T_W_A, T_W_B, sigmaPos, sigmaRot))
    else Failure(SizeMismatch(|T_W_A|, |T_W_B|))
  }

  function Count<Pose>(al: PoseAligner<Pose>): (n: nat) {
    |al.T_W_A|
  }

  /**
   * The prediction error of one correspondence before whitening: the position
   * error `T_W_A * p(T_A_B) - p(T_W_B)` followed by the rotation error
   * `log(q(T_W_B)^-1 * q(T_W_A) * q(T_A_B))`.
   */
  function RawResidual<Pose, Rotation>(geo: Geometry<Pose, Rotation>, a: Pose, b: Pose, T_A_B: Pose): (e: Vector6)
    ensures e[..3] == VecSub(geo.transformPoint(a, geo.position(T_A_B)), geo.position(b))
    ensures e[3..] == geo.log(geo.multiply(geo.multiply(geo.inverse(geo.rotation(b)), geo.rotation(a)), geo.rotation(T_A_B)))
  {
    VecSub(geo.transformPoint(a, geo.position(T_A_B)), geo.position(b))
      + geo.log(geo.multiply(geo.multiply(geo.inverse(geo.rotation(b)), geo.rotation(a)), geo.rotation(T_A_B)))
  }

  /** The standard deviation of residual row `k`: position rows 0-2, rotation rows 3-5. */
  function NoiseScale<Pose>(al: PoseAligner<Pose>, k: nat): (s: real) {
    if k < 3 then al.sigmaPos else al.sigmaRot
  }

  /** Whitening: each row divided by its standard deviation. */
  function Whiten<Pose>(al: PoseAligner<Pose>, e: Vector6): (r: Vector6)
    requires PositiveNoise(al)
    ensures forall k :: 0 <= k < 6 ==> r[k] * NoiseScale(al, k) == e[k]
  {
    seq(6, k requires 0 <= k < 6 => if k < 3 then e[k] / al.sigmaPos else e[k] / al.sigmaRot)
  }

  /** The whitened residual of correspondence `i`. */
  function Residual<Pose, Rotation>(al: PoseAligner<Pose>, geo: Geometry<Pose, Rotation>, T_A_B: Pose, i: nat): (r: Vector6)
    requires WellFormed(al) && PositiveNoise(al) && i < Count(al)
    ensures forall k :: 0 <= k < 6 ==> r[k] * NoiseScale(al, k) == RawResidual(geo, al.T_W_A[i], al.T_W_B[i], T_A_B)[k]
  {
    Whiten(al, RawResidual(geo, al.T_W_A[i], al.T_W_B[i], T_A_B))
  }

  /** The robust weight of correspondence `i`, from the norm of its whitened residual. */
  function Weight<Pose, Rotation>(al: PoseAligner<Pose>, geo: Geometry<Pose, Rotation>, T_A_B: Pose, i: nat): (w: real)
    requires WellFormed(al) && PositiveNoise(al) && i < Count(al)
  {
    geo.weight(geo.sqrt(SquaredNorm(Residual(al, geo, T_A_B, i))))
  }

  function Weights<Pose, Rotation>(al: PoseAligner<Pose>, geo: Geometry<Pose, Rotation>, T_A_B: Pose): (w: seq<real>)
    requires WellFormed(al) && PositiveNoise(al)
    ensures |w| == Count(al)
    ensures forall i :: 0 <= i < |w| ==> w[i] == geo.weight(geo.sqrt(SquaredNorm(Residual(al, geo, T_A_B, i))))
  {
    seq(Count(al), i requires 0 <= i < Count(al) => Weight(al, geo, T_A_B, i))
  }

  function SquaredNorms<Pose, Rotation>(al: PoseAligner<Pose>, geo: Geometry<Pose, Rotation>, T_A_B: Pose): (s: seq<real>)
    requires WellFormed(al) && PositiveNoise(al)
    ensures |s| == Count(al)
    ensures forall i :: 0 <= i < |s| ==> s[i] == SquaredNorm(Residual(al, geo, T_A_B, i)) && s[i] >= 0.0
  {
    var s := seq(Count(al), i requires 0 <= i < Count(al) => SquaredNorm(Residual(al, geo, T_A_B, i)));
    assert forall i :: 0 <= i < |s| ==> s[i] >= 0.0 by {
      forall i | 0 <= i < |s|
        ensures s[i] >= 0.0
      {
        DotNonNegative(Residual(al, geo, T_A_B, i));
      }
    }
    s
  }

  /** The returned cost: one half of the weighted sum of squared whitened residual norms. */
  function Cost<Pose, Rotation>(al: PoseAligner<Pose>, geo: Geometry<Pose, Rotation>, T_A_B: Pose): (chi2: real)
    requires WellFormed(al) && PositiveNoise(al)
  {
    0.5 * Dot(Weights(al, geo, T_A_B), SquaredNorms(al, geo, T_A_B))
  }

  /** The diagonal of the square root of the inverse covariance. */
  function SqrtInformation<Pose>(al: PoseAligner<Pose>): (d: Vector6)
    requires PositiveNoise(al)
    ensures forall k :: 0 <= k < 6 ==> d[k] * NoiseScale(al, k) == 1.0
  {
    [1.0 / al.sigmaPos, 1.0 / al.sigmaPos, 1.0 / al.sigmaPos, 1.0 / al.sigmaRot, 1.0 / al.sigmaRot, 1.0 / al.sigmaRot]
  }

  /** `J * diag(d)`: column `b` of `J` scaled by `d[b]`. */
  function ScaleColumns(J: Matrix6, d: Vector6): (W: Matrix6)
    ensures forall a, b :: 0 <= a < 6 && 0 <= b < 6 ==> W[a][b] == J[a][b] * d[b]
  {
    seq(6, a requires 0 <= a < 6 => seq(6, b requires 0 <= b < 6 => J[a][b] * d[b]))
  }

  /** `diag(d) * J`: row `a` of `J` scaled by `d[a]`. */
  function ScaleRows(d: Vector6, J: Matrix6): (W: Matrix6)
    ensures forall a, b :: 0 <= a < 6 && 0 <= b < 6 ==> W[a][b] == d[a] * J[a][b]
  {
    seq(6, a requires 0 <= a < 6 => seq(6, b requires 0 <= b < 6 => d[a] * J[a][b]))
  }

  /**
   * The whitened Jacobian of correspondence `i`, `J := J * R` as the code writes
   * it: column `b` of `dRelpose` times the inverse sigma `R[b]` of that column.
   */
  function Jacobian<Pose, Rotation>(al: PoseAligner<Pose>, geo: Geometry<Pose, Rotation>, T_A_B: Pose, i: nat): (J: Matrix6)
    requires WellFormed(al) && PositiveNoise(al) && i < Count(al)
    ensures forall a, b :: 0 <= a < 6 && 0 <= b < 6 ==>
      J[a][b] == geo.dRelpose(T_A_B, al.T_W_A[i], al.T_W_B[i])[a][b] * SqrtInformation(al)[b]
  {
    ScaleColumns(geo.dRelpose(T_A_B, al.T_W_A[i], al.T_W_B[i]), SqrtInformation(al))
  }

  /** `J^T * J * w`: symmetric whatever `J` and `w`. */
  function HessianTerm(J: Matrix6, w: real): (t: Matrix6)
    ensures Symmetric(t, 6)
    ensures forall a, b :: 0 <= a < 6 && 0 <= b < 6 ==> t[a][b] == Dot(Column(J, 6, 6, a), Column(J, 6, 6, b)) * w
  {
    var t := seq(6, a requires 0 <= a < 6 => seq(6, b requires 0 <= b < 6 => Dot(Column(J, 6, 6, a), Column(J, 6, 6, b)) * w));
    assert Symmetric(t, 6) by {
      forall a, b | 0 <= a < 6 && 0 <= b < 6
        ensures t[a][b] == t[b][a]
      {
        DotSymmetric(Column(J, 6, 6, a), Column(J, 6, 6, b));
      }
    }
    t
  }

  /** `J^T * r * w`. */
  function GradientTerm(J: Matrix6, r: Vector6, w: real): (t: Vector6)
    ensures forall a :: 0 <= a < 6 ==> t[a] == Dot(Column(J, 6, 6, a), r) * w
  {
    seq(6, a requires 0 <= a < 6 => Dot(Column(J, 6, 6, a), r) * w)
  }

  function HessianTerms<Pose, Rotation>(al: PoseAligner<Pose>, geo: Geometry<Pose, Rotation>, T_A_B: Pose): (ts: seq<Matrix6>)
    requires WellFormed(al) && PositiveNoise(al)
    ensures |ts| == Count(al)
  {
    seq(Count(al), i requires 0 <= i < Count(al) => HessianTerm(Jacobian(al, geo, T_A_B, i), Weight(al, geo, T_A_B, i)))
  }

  function GradientTerms<Pose, Rotation>(al: PoseAligner<Pose>, geo: Geometry<Pose, Rotation>, T_A_B: Pose): (ts: seq<Vector6>)
    requires WellFormed(al) && PositiveNoise(al)
    ensures |ts| == Count(al)
  {
    seq(Count(al), i requires 0 <= i < Count(al) =>
      GradientTerm(Jacobian(al, geo, T_A_B, i), Residual(al, geo, T_A_B, i), Weight(al, geo, T_A_B, i)))
  }

  /** `H` after `H += t` for each term in order. */
  function AccumulateHessian(H: Matrix6, terms: seq<Matrix6>): (acc: Matrix6)
    decreases |terms|
  {
    if |terms| == 0 then H
    else MatAdd(AccumulateHessian(H, terms[..|terms| - 1]), terms[|terms| - 1], 6, 6)
  }

  /** `g` after `g -= t` for each term in order. */
  function AccumulateGradient(g: Vector6, terms: seq<Vector6>): (acc: Vector6)
    decreases |terms|
  {
    if |terms| == 0 then g
    else VecSub(AccumulateGradient(g, terms[..|terms| - 1]), terms[|terms| - 1])
  }

  // ---------------------------------------------------------------------------
  // Properties of the specification
  // ---------------------------------------------------------------------------

  /** The sum of entry (a, b) over a list of Hessian terms. */
  function HessianEntrySum(terms: seq<Matrix6>, a: nat, b: nat): (s: real)
    requires a < 6 && b < 6
    decreases |terms|
  {
    if |terms| == 0 then 0.0 else HessianEntrySum(terms[1..], a, b) + terms[0][a][b]
  }

  /** The sum of entry `a` over a list of gradient terms. */
  function GradientEntrySum(terms: seq<Vector6>, a: nat): (s: real)
    requires a < 6
    decreases |terms|
  {
    if |terms| == 0 then 0.0 else GradientEntrySum(terms[1..], a) + terms[0][a]
  }

  lemma {:induction false} HessianEntrySumSnoc(terms: seq<Matrix6>, a: nat, b: nat)
    requires a < 6 && b < 6 && |terms| > 0
    ensures HessianEntrySum(terms, a, b) == HessianEntrySum(terms[..|terms| - 1], a, b) + terms[|terms| - 1][a][b]
    decreases |terms|
  {
    if |terms| > 1 {
      var rest := terms[1..];
      assert rest[..|rest| - 1] == terms[..|terms| - 1][1..];
      assert rest[|rest| - 1] == terms[|terms| - 1];
      HessianEntrySumSnoc(rest, a, b);
    } else {
      assert terms[1..] == [] && terms[..0] == [];
    }
  }

  lemma {:induction false} GradientEntrySumSnoc(terms: seq<Vector6>, a: nat)
    requires a < 6 && |terms| > 0
    ensures GradientEntrySum(terms, a) == GradientEntrySum(terms[..|terms| - 1], a) + terms[|terms| - 1][a]
    decreases |terms|
  {
    if |terms| > 1 {
      var rest := terms[1..];
      assert rest[..|rest| - 1] == terms[..|terms| - 1][1..];
      assert rest[|rest| - 1] == terms[|terms| - 1];
      GradientEntrySumSnoc(rest, a);
    } else {
      assert terms[1..] == [] && terms[..0] == [];
    }
  }

  /** `H += t` in order adds to each entry of `H` the sum of that entry over the terms. */
  lemma {:induction false} AccumulateHessianEntries(H: Matrix6, terms: seq<Matrix6>)
    ensures forall a, b :: 0 <= a < 6 && 0 <= b < 6 ==>
      AccumulateHessian(H, terms)[a][b] == H[a][b] + HessianEntrySum(terms, a, b)
    decreases |terms|
  {
    if |terms| > 0 {
      var n := |terms|;
      AccumulateHessianEntries(H, terms[..n - 1]);
      forall a, b | 0 <= a < 6 && 0 <= b < 6
        ensures AccumulateHessian(H, terms)[a][b] == H[a][b] + HessianEntrySum(terms, a, b)
      {
        HessianEntrySumSnoc(terms, a, b);
      }
    }
  }

  /** `g -= t` in order subtracts from each entry of `g` the sum of that entry over the terms. */
  lemma {:induction false} AccumulateGradientEntries(g: Vector6, terms: seq<Vector6>)
    ensures forall a :: 0 <= a < 6 ==> AccumulateGradient(g, terms)[a] == g[a] - GradientEntrySum(terms, a)
    decreases |terms|
  {
    if |terms| > 0 {
      var n := |terms|;
      AccumulateGradientEntries(g, terms[..n - 1]);
      forall a | 0 <= a < 6
        ensures AccumulateGradient(g, terms)[a] == g[a] - GradientEntrySum(terms, a)
      {
        GradientEntrySumSnoc(terms, a);
      }
    }
  }

  /** The sum of the products `u[k] * v[k]` over the first `n` positions. */
  function ProductSum(u: Vector, v: Vector, n: nat): (p: real)
    requires n <= |u| && n <= |v|
  {
    if n == 0 then 0.0 else ProductSum(u, v, n - 1) + u[n - 1] * v[n - 1]
  }

  /** The inner product is the sum of the entrywise products. */
  lemma {:induction false} DotIsProductSum(u: Vector, v: Vector, n: nat)
    requires |u| == |v| && n <= |u|
    ensures Dot(u[..n], v[..n]) == ProductSum(u, v, n)
  {
    if n > 0 {
      DotIsProductSum(u, v, n - 1);
      DotSnoc(u, v, n);
    }
  }

  /** The inner product of two prefixes grows by the product of the next entries. */
  lemma DotSnoc(u: Vector, v: Vector, n: nat)
    requires |u| == |v| && 0 < n <= |u|
    ensures Dot(u[..n], v[..n]) == Dot(u[..n - 1], v[..n - 1]) + u[n - 1] * v[n - 1]
  {
    assert u[..n] == u[..n - 1] + [u[n - 1]];
    assert v[..n] == v[..n - 1] + [v[n - 1]];
    DotAppend(u[..n - 1], v[..n - 1], [u[n - 1]], [v[n - 1]]);
    assert Dot([u[n - 1]], [v[n - 1]]) == u[n - 1] * v[n - 1] + Dot([u[n - 1]][1..], [v[n - 1]][1..]);
  }

  /**
   * The cost is one half of the sum, over the correspondences, of each weight
   * times its squared whitened residual norm.
   */
  lemma CostIsWeightedSum<Pose, Rotation>(al: PoseAligner<Pose>, geo: Geometry<Pose, Rotation>, T_A_B: Pose)
    requires WellFormed(al) && PositiveNoise(al)
    ensures Cost(al, geo, T_A_B) == 0.5 * ProductSum(Weights(al, geo, T_A_B), SquaredNorms(al, geo, T_A_B), Count(al))
  {
    var w, s := Weights(al, geo, T_A_B), SquaredNorms(al, geo, T_A_B);
    DotIsProductSum(w, s, Count(al));
    assert w[..Count(al)] == w && s[..Count(al)] == s;
  }

  /** Accumulating two batches one after the other is accumulating their concatenation. */
  lemma {:induction false} AccumulateHessianAppend(H: Matrix6, t1: seq<Matrix6>, t2: seq<Matrix6>)
    ensures AccumulateHessian(AccumulateHessian(H, t1), t2) == AccumulateHessian(H, t1 + t2)
    decreases |t2|
  {
    if |t2| > 0 {
      assert (t1 + t2)[..|t1 + t2| - 1] == t1 + t2[..|t2| - 1];
      AccumulateHessianAppend(H, t1, t2[..|t2| - 1]);
    } else {
      assert t1 + t2 == t1;
    }
  }

  lemma {:induction false} AccumulateGradientAppend(g: Vector6, t1: seq<Vector6>, t2: seq<Vector6>)
    ensures AccumulateGradient(AccumulateGradient(g, t1), t2) == AccumulateGradient(g, t1 + t2)
    decreases |t2|
  {
    if |t2| > 0 {
      assert (t1 + t2)[..|t1 + t2| - 1] == t1 + t2[..|t2| - 1];
      AccumulateGradientAppend(g, t1, t2[..|t2| - 1]);
    } else {
      assert t1 + t2 == t1;
    }
  }

  /** Adding symmetric terms to a symmetric matrix keeps it symmetric. */
  lemma {:induction false} AccumulateHessianSymmetric(H: Matrix6, terms: seq<Matrix6>)
    requires Symmetric(H, 6)
    requires forall k :: 0 <= k < |terms| ==> Symmetric(terms[k], 6)
    ensures Symmetric(AccumulateHessian(H, terms), 6)
    decreases |terms|
  {
    if |terms| > 0 {
      AccumulateHessianSymmetric(H, terms[..|terms| - 1]);
    }
  }

  /** A symmetric `H` stays symmetric through the accumulation of one evaluation. */
  lemma HessianStaysSymmetric<Pose, Rotation>(al: PoseAligner<Pose>, geo: Geometry<Pose, Rotation>, T_A_B: Pose, H: Matrix6)
    requires WellFormed(al) && PositiveNoise(al)
    requires Symmetric(H, 6)
    ensures Symmetric(AccumulateHessian(H, HessianTerms(al, geo, T_A_B)), 6)
  {
    AccumulateHessianSymmetric(H, HessianTerms(al, geo, T_A_B));
  }

  /** The aligner over the concatenation of two batches of correspondences. */
  function Concat<Pose>(al1: PoseAligner<Pose>, al2: PoseAligner<Pose>): (al: PoseAligner<Pose>) {
    PoseAligner(al1.T_W_A + al2.T_W_A, al1.T_W_B + al2.T_W_B, al1.sigmaPos, al1.sigmaRot)
  }

  lemma {:induction false} DotAppend(u1: Vector, v1: Vector, u2: Vector, v2: Vector)
    requires |u1| == |v1| && |u2| == |v2|
    ensures Dot(u1 + u2, v1 + v2) == Dot(u1, v1) + Dot(u2, v2)
    decreases |u1|
  {
    if |u1| > 0 {
      assert (u1 + u2)[1..] == u1[1..] + u2;
      assert (v1 + v2)[1..] == v1[1..] + v2;
      DotAppend(u1[1..], v1[1..], u2, v2);
    } else {
      assert u1 + u2 == u2 && v1 + v2 == v2;
    }
  }

  /** Correspondence `i` of a concatenation is correspondence `i` of the first batch or `i - n1` of the second. */
  lemma ConcatEntry<Pose, Rotation>(al1: PoseAligner<Pose>, al2: PoseAligner<Pose>, geo: Geometry<Pose, Rotation>,
                                    T_A_B: Pose, i: nat)
    requires WellFormed(al1) && WellFormed(al2) && PositiveNoise(al1)
    requires al2.sigmaPos == al1.sigmaPos && al2.sigmaRot == al1.sigmaRot
    requires i < Count(al1) + Count(al2)
    ensures WellFormed(Concat(al1, al2)) && PositiveNoise(Concat(al1, al2)) && Count(Concat(al1, al2)) == Count(al1) + Count(al2)
    ensures i < Count(al1) ==>
      Residual(Concat(al1, al2), geo, T_A_B, i) == Residual(al1, geo, T_A_B, i) &&
      Jacobian(Concat(al1, al2), geo, T_A_B, i) == Jacobian(al1, geo, T_A_B, i)
    ensures i >= Count(al1) ==>
      Residual(Concat(al1, al2), geo, T_A_B, i) == Residual(al2, geo, T_A_B, i - Count(al1)) &&
      Jacobian(Concat(al1, al2), geo, T_A_B, i) == Jacobian(al2, geo, T_A_B, i - Count(al1))
  {
    var al := Concat(al1, al2);
    var n1 := Count(al1);
    if i < n1 {
      assert al.T_W_A[i] == al1.T_W_A[i] && al.T_W_B[i] == al1.T_W_B[i];
    } else {
      assert al.T_W_A[i] == al2.T_W_A[i - n1] && al.T_W_B[i] == al2.T_W_B[i - n1];
    }
  }

  /** The per-correspondence terms of a concatenation are the concatenated terms. */
  lemma ConcatTerms<Pose, Rotation>(al1: PoseAligner<Pose>, al2: PoseAligner<Pose>, geo: Geometry<Pose, Rotation>, T_A_B: Pose)
    requires WellFormed(al1) && WellFormed(al2) && PositiveNoise(al1)
    requires al2.sigmaPos == al1.sigmaPos && al2.sigmaRot == al1.sigmaRot
    ensures WellFormed(Concat(al1, al2)) && PositiveNoise(Concat(al1, al2))
    ensures HessianTerms(Concat(al1, al2), geo, T_A_B) == HessianTerms(al1, geo, T_A_B) + HessianTerms(al2, geo, T_A_B)
    ensures GradientTerms(Concat(al1, al2), geo, T_A_B) == GradientTerms(al1, geo, T_A_B) + GradientTerms(al2, geo, T_A_B)
    ensures Weights(Concat(al1, al2), geo, T_A_B) == Weights(al1, geo, T_A_B) + Weights(al2, geo, T_A_B)
    ensures SquaredNorms(Concat(al1, al2), geo, T_A_B) == SquaredNorms(al1, geo, T_A_B) + SquaredNorms(al2, geo, T_A_B)
  {
    ConcatHessianTerms(al1, al2, geo, T_A_B);
    ConcatGradientTerms(al1, al2, geo, T_A_B);
    ConcatWeights(al1, al2, geo, T_A_B);
    ConcatSquaredNorms(al1, al2, geo, T_A_B);
  }

  lemma ConcatHessianTerms<Pose, Rotation>(al1: PoseAligner<Pose>, al2: PoseAligner<Pose>, geo: Geometry<Pose, Rotation>, T_A_B: Pose)
    requires WellFormed(al1) && WellFormed(al2) && PositiveNoise(al1)
    requires al2.sigmaPos == al1.sigmaPos && al2.sigmaRot == al1.sigmaRot
    ensures WellFormed(Concat(al1, al2)) && PositiveNoise(Concat(al1, al2))
    ensures HessianTerms(Concat(al1, al2), geo, T_A_B) == HessianTerms(al1, geo, T_A_B) + HessianTerms(al2, geo, T_A_B)
  {
    var t := HessianTerms(Concat(al1, al2), geo, T_A_B);
    var t12 := HessianTerms(al1, geo, T_A_B) + HessianTerms(al2, geo, T_A_B);
    assert |t| == |t12|;
    forall i | 0 <= i < |t|
      ensures t[i] == t12[i]
    {
      ConcatEntry(al1, al2, geo, T_A_B, i);
    }
  }

  lemma ConcatGradientTerms<Pose, Rotation>(al1: PoseAligner<Pose>, al2: PoseAligner<Pose>, geo: Geometry<Pose, Rotation>, T_A_B: Pose)
    requires WellFormed(al1) && WellFormed(al2) && PositiveNoise(al1)
    requires al2.sigmaPos == al1.sigmaPos && al2.sigmaRot == al1.sigmaRot
    ensures WellFormed(Concat(al1, al2)) && PositiveNoise(Concat(al1, al2))
    ensures GradientTerms(Concat(al1, al2), geo, T_A_B) == GradientTerms(al1, geo, T_A_B) + GradientTerms(al2, geo, T_A_B)
  {
    var t := GradientTerms(Concat(al1, al2), geo, T_A_B);
    var t12 := GradientTerms(al1, geo, T_A_B) + GradientTerms(al2, geo, T_A_B);
    assert |t| == |t12|;
    forall i | 0 <= i < |t|
      ensures t[i] == t12[i]
    {
      ConcatEntry(al1, al2, geo, T_A_B, i);
    }
  }

  lemma ConcatWeights<Pose, Rotation>(al1: PoseAligner<Pose>, al2: PoseAligner<Pose>, geo: Geometry<Pose, Rotation>, T_A_B: Pose)
    requires WellFormed(al1) && WellFormed(al2) && PositiveNoise(al1)
    requires al2.sigmaPos == al1.sigmaPos && al2.sigmaRot == al1.sigmaRot
    ensures WellFormed(Concat(al1, al2)) && PositiveNoise(Concat(al1, al2))
    ensures Weights(Concat(al1, al2), geo, T_A_B) == Weights(al1, geo, T_A_B) + Weights(al2, geo, T_A_B)
  {
    var t := Weights(Concat(al1, al2), geo, T_A_B);
    var t12 := Weights(al1, geo, T_A_B) + Weights(al2, geo, T_A_B);
    assert |t| == |t12|;
    forall i | 0 <= i < |t|
      ensures t[i] == t12[i]
    {
      ConcatEntry(al1, al2, geo, T_A_B, i);
    }
  }

  lemma ConcatSquaredNorms<Pose, Rotation>(al1: PoseAligner<Pose>, al2: PoseAligner<Pose>, geo: Geometry<Pose, Rotation>, T_A_B: Pose)
    requires WellFormed(al1) && WellFormed(al2) && PositiveNoise(al1)
    requires al2.sigmaPos == al1.sigmaPos && al2.sigmaRot == al1.sigmaRot
    ensures WellFormed(Concat(al1, al2)) && PositiveNoise(Concat(al1, al2))
    ensures SquaredNorms(Concat(al1, al2), geo, T_A_B) == SquaredNorms(al1, geo, T_A_B) + SquaredNorms(al2, geo, T_A_B)
  {
    var t := SquaredNorms(Concat(al1, al2), geo, T_A_B);
    var t12 := SquaredNorms(al1, geo, T_A_B) + SquaredNorms(al2, geo, T_A_B);
    assert |t| == |t12|;
    forall i | 0 <= i < |t|
      ensures t[i] == t12[i]
    {
      ConcatEntry(al1, al2, geo, T_A_B, i);
    }
  }

  /**
   * Batch accumulation: evaluating two partitions one after the other into the
   * same H and g gives what one evaluation over all correspondences gives, and
   * the costs add up.
   */
  lemma Partition<Pose, Rotation>(al1: PoseAligner<Pose>, al2: PoseAligner<Pose>, geo: Geometry<Pose, Rotation>,
                                  T_A_B: Pose, H: Matrix6, g: Vector6)
    requires WellFormed(al1) && WellFormed(al2) && PositiveNoise(al1)
    requires al2.sigmaPos == al1.sigmaPos && al2.sigmaRot == al1.sigmaRot
    ensures WellFormed(Concat(al1, al2)) && PositiveNoise(Concat(al1, al2))
    ensures AccumulateHessian(AccumulateHessian(H, HessianTerms(al1, geo, T_A_B)), HessianTerms(al2, geo, T_A_B))
         == AccumulateHessian(H, HessianTerms(Concat(al1, al2), geo, T_A_B))
    ensures AccumulateGradient(AccumulateGradient(g, GradientTerms(al1, geo, T_A_B)), GradientTerms(al2, geo, T_A_B))
         == AccumulateGradient(g, GradientTerms(Concat(al1, al2), geo, T_A_B))
    ensures Cost(al1, geo, T_A_B) + Cost(al2, geo, T_A_B) == Cost(Concat(al1, al2), geo, T_A_B)
  {
    ConcatTerms(al1, al2, geo, T_A_B);
    AccumulateHessianAppend(H, HessianTerms(al1, geo, T_A_B), HessianTerms(al2, geo, T_A_B));
    AccumulateGradientAppend(g, GradientTerms(al1, geo, T_A_B), GradientTerms(al2, geo, T_A_B));
    DotAppend(Weights(al1, geo, T_A_B), SquaredNorms(al1, geo, T_A_B), Weights(al2, geo, T_A_B), SquaredNorms(al2, geo, T_A_B));
  }

  lemma {:induction false} DotNonNegativeEntries(u: Vector, v: Vector)
    requires |u| == |v|
    requires forall k :: 0 <= k < |u| ==> u[k] >= 0.0 && v[k] >= 0.0
    ensures Dot(u, v) >= 0.0
  {
    if |u| > 0 {
      DotNonNegativeEntries(u[1..], v[1..]);
    }
  }

  /** With non-negative weights the cost is non-negative. */
  lemma CostNonNegative<Pose, Rotation>(al: PoseAligner<Pose>, geo: Geometry<Pose, Rotation>, T_A_B: Pose)
    requires WellFormed(al) && PositiveNoise(al)
    requires forall i :: 0 <= i < Count(al) ==> Weight(al, geo, T_A_B, i) >= 0.0
    ensures Cost(al, geo, T_A_B) >= 0.0
  {
    var s := SquaredNorms(al, geo, T_A_B);
    forall i | 0 <= i < Count(al)
      ensures s[i] >= 0.0
    {
      DotNonNegative(Residual(al, geo, T_A_B, i));
    }
    DotNonNegativeEntries(Weights(al, geo, T_A_B), s);
  }

  /** No correspondences: zero cost and untouched accumulators. */
  lemma EmptyAlignment<Pose, Rotation>(al: PoseAligner<Pose>, geo: Geometry<Pose, Rotation>, T_A_B: Pose, H: Matrix6, g: Vector6)
    requires WellFormed(al) && PositiveNoise(al) && Count(al) == 0
    ensures Cost(al, geo, T_A_B) == 0.0
    ensures AccumulateHessian(H, HessianTerms(al, geo, T_A_B)) == H
    ensures AccumulateGradient(g, GradientTerms(al, geo, T_A_B)) == g
  {
  }

  lemma {:induction false} AccumulateZeroGradient(g: Vector6, terms: seq<Vector6>)
    requires forall k, a :: 0 <= k < |terms| && 0 <= a < 6 ==> terms[k][a] == 0.0
    ensures AccumulateGradient(g, terms) == g
    decreases |terms|
  {
    if |terms| > 0 {
      AccumulateZeroGradient(g, terms[..|terms| - 1]);
    }
  }

  /**
   * A candidate that explains every correspondence exactly (every raw residual
   * is zero, as for T_A_B = identity and T_W_A[i] = T_W_B[i]) has cost zero and
   * leaves the gradient where it was.
   */
  lemma PerfectFit<Pose, Rotation>(al: PoseAligner<Pose>, geo: Geometry<Pose, Rotation>, T_A_B: Pose, g: Vector6)
    requires WellFormed(al) && PositiveNoise(al)
    requires forall i :: 0 <= i < Count(al) ==> RawResidual(geo, al.T_W_A[i], al.T_W_B[i], T_A_B) == Zeros(6)
    ensures Cost(al, geo, T_A_B) == 0.0
    ensures AccumulateGradient(g, GradientTerms(al, geo, T_A_B)) == g
  {
    var ts := GradientTerms(al, geo, T_A_B);
    var norms := SquaredNorms(al, geo, T_A_B);
    forall i | 0 <= i < Count(al)
      ensures norms[i] == 0.0
      ensures forall a :: 0 <= a < 6 ==> ts[i][a] == 0.0
    {
      PerfectFitTerm(al, geo, T_A_B, i);
    }
    DotZeroRight(Weights(al, geo, T_A_B), norms);
    AccumulateZeroGradient(g, ts);
  }

  /** Whitening maps the zero error to the zero residual. */
  lemma WhitenZero<Pose>(al: PoseAligner<Pose>, e: Vector6)
    requires PositiveNoise(al) && e == Zeros(6)
    ensures forall k :: 0 <= k < 6 ==> Whiten(al, e)[k] == 0.0
  {
    var r := Whiten(al, e);
    forall k | 0 <= k < 6
      ensures r[k] == 0.0
    {
      ZeroQuotient(e[k], NoiseScale(al, k), r[k]);
    }
  }

  lemma ZeroQuotient(x: real, s: real, q: real)
    requires s > 0.0 && x == 0.0 && q * s == x
    ensures q == 0.0
  {
  }

  /** A zero raw residual whitens to zero, so its squared norm and gradient term vanish. */
  lemma PerfectFitTerm<Pose, Rotation>(al: PoseAligner<Pose>, geo: Geometry<Pose, Rotation>, T_A_B: Pose, i: nat)
    requires WellFormed(al) && PositiveNoise(al) && i < Count(al)
    requires RawResidual(geo, al.T_W_A[i], al.T_W_B[i], T_A_B) == Zeros(6)
    ensures SquaredNorm(Residual(al, geo, T_A_B, i)) == 0.0
    ensures forall a :: 0 <= a < 6 ==>
      GradientTerm(Jacobian(al, geo, T_A_B, i), Residual(al, geo, T_A_B, i), Weight(al, geo, T_A_B, i))[a] == 0.0
  {
    var r := Residual(al, geo, T_A_B, i);
    WhitenZero(al, RawResidual(geo, al.T_W_A[i], al.T_W_B[i], T_A_B));
    DotZeroLeft(r, r);
    var J := Jacobian(al, geo, T_A_B, i);
    forall a | 0 <= a < 6
      ensures Dot(Column(J, 6, 6, a), r) == 0.0
    {
      DotZeroRight(Column(J, 6, 6, a), r);
    }
  }

  /** Rows 0-2 and columns 0-2 are the position block, rows 3-5 and columns 3-5 the rotation block. */
  predicate BlockDiagonal(J: Matrix6) {
    && (forall a, b :: 0 <= a < 3 && 3 <= b < 6 ==> J[a][b] == 0.0)
    && (forall a, b :: 3 <= a < 6 && 0 <= b < 3 ==> J[a][b] == 0.0)
  }

  /**
   * The code whitens the Jacobian by scaling its columns (`J * R`), while the
   * residual is whitened row by row (`R * e`).  The two agree whenever the
   * Jacobian has no cross terms between position and rotation.
   */
  lemma ColumnScalingIsRowScaling<Pose>(al: PoseAligner<Pose>, J: Matrix6)
    requires PositiveNoise(al) && BlockDiagonal(J)
    ensures ScaleColumns(J, SqrtInformation(al)) == ScaleRows(SqrtInformation(al), J)
  {
    BlockScalingCommutes(SqrtInformation(al), J);
  }

  /** `J * diag(d) == diag(d) * J` when `J` is block diagonal and `d` constant on each block. */
  lemma BlockScalingCommutes(d: Vector6, J: Matrix6)
    requires BlockDiagonal(J)
    requires forall k :: 0 <= k < 6 ==> d[k] == if k < 3 then d[0] else d[3]
    ensures ScaleColumns(J, d) == ScaleRows(d, J)
  {
    forall a | 0 <= a < 6
      ensures ScaleColumns(J, d)[a] == ScaleRows(d, J)[a]
    {
      assert forall b :: 0 <= b < 6 ==> d[a] == d[b] || J[a][b] == 0.0;
      ScaledRowAgrees(d, J, a);
    }
  }

  /** Row `a` of `J * diag(d)` and `diag(d) * J` agree when each entry is zero or scaled alike. */
  lemma ScaledRowAgrees(d: Vector6, J: Matrix6, a: nat)
    requires a < 6
    requires forall b :: 0 <= b < 6 ==> d[a] == d[b] || J[a][b] == 0.0
    ensures ScaleColumns(J, d)[a] == ScaleRows(d, J)[a]
  {
    var byColumns := ScaleColumns(J, d)[a];
    var byRows := ScaleRows(d, J)[a];
    assert |byColumns| == 6 == |byRows|;
    forall b | 0 <= b < 6
      ensures byColumns[b] == byRows[b]
    {
      ScaledEntryAgrees(d, J, a, b);
    }
  }

  lemma ScaledEntryAgrees(d: Vector6, J: Matrix6, a: nat, b: nat)
    requires a < 6 && b < 6
    requires d[a] == d[b] || J[a][b] == 0.0
    ensures ScaleColumns(J, d)[a][b] == ScaleRows(d, J)[a][b]
  {
    var x := J[a][b];
    assert ScaleColumns(J, d)[a][b] == x * d[b];
    assert ScaleRows(d, J)[a][b] == d[a] * x;
    if x != 0.0 {
      assert d[a] == d[b];
    }
  }

  /** ... and can differ when it has such terms. */
  lemma ColumnScalingDiffers()
    ensures var al: PoseAligner<int> := PoseAligner([], [], 1.0, 2.0);
      var J := seq(6, a => seq(6, b => if a == 0 && b == 3 then 1.0 else 0.0));
      IsMatrix(J, 6, 6) && ScaleColumns(J, SqrtInformation(al))[0][3] == 0.5
      && ScaleRows(SqrtInformation(al), J)[0][3] == 1.0
  {
  }

  // ---------------------------------------------------------------------------
  // The operations
  // ---------------------------------------------------------------------------

  /** The entries of a 2-D array as a list of rows. */
  function Entries(a: array2<real>): (m: Grid)
    reads a
    ensures IsMatrix(m, a.Length0, a.Length1)
    ensures forall i, j :: 0 <= i < a.Length0 && 0 <= j < a.Length1 ==> m[i][j] == a[i, j]
  {
    seq(a.Length0, i requires 0 <= i < a.Length0 reads a =>
      seq(a.Length1, j requires 0 <= j < a.Length1 reads a => a[i, j]))
  }

  /** Column `c` of a 6-row array. */
  function ColumnOf(a: array2<real>, c: nat): (v: Vector6)
    reads a
    requires a.Length0 == 6 && c < a.Length1
    ensures forall r :: 0 <= r < 6 ==> v[r] == a[r, c]
  {
    seq(6, r requires 0 <= r < 6 reads a => a[r, c])
  }

  /** `a.col(c) = v`. */
  method SetColumn(a: array2<real>, c: nat, v: Vector6)
    requires a.Length0 == 6 && c < a.Length1
    modifies a
    ensures forall r, k :: 0 <= r < 6 && 0 <= k < a.Length1 ==> a[r, k] == if k == c then v[r] else old(a[r, k])
  {
    for r := 0 to 6
      invariant forall r', k :: 0 <= r' < 6 && 0 <= k < a.Length1 ==>
        a[r', k] == if k == c && r' < r then v[r'] else old(a[r', k])
    {
      a[r, c] := v[r];
    }
  }

  /** Rows `lo` to `hi - 1` of `a` divided in place by `s` (`a.middleRows(lo, hi - lo) /= s`). */
  method DivideRows(a: array2<real>, lo: nat, hi: nat, s: real)
    requires lo <= hi <= a.Length0 && s != 0.0
    modifies a
    ensures forall r, k :: 0 <= r < a.Length0 && 0 <= k < a.Length1 ==>
      a[r, k] == if lo <= r < hi then old(a[r, k]) / s else old(a[r, k])
  {
    for r := lo to hi
      invariant forall r', k :: 0 <= r' < a.Length0 && 0 <= k < a.Length1 ==>
        a[r', k] == if lo <= r' < r then old(a[r', k]) / s else old(a[r', k])
    {
      for k := 0 to a.Length1
        invariant forall r', k' :: 0 <= r' < a.Length0 && 0 <= k' < a.Length1 ==>
          a[r', k'] == if (lo <= r' < r) || (r' == r && k' < k) then old(a[r', k']) / s else old(a[r', k'])
      {
        a[r, k] := a[r, k] / s;
      }
    }
  }

  /** `*H += t`. */
  method AddToMatrix(H: array2<real>, t: Matrix6)
    requires H.Length0 == 6 && H.Length1 == 6
    modifies H
    ensures IsMatrix(old(Entries(H)), 6, 6)
    ensures Entries(H) == MatAdd(old(Entries(H)), t, 6, 6)
  {
    ghost var H0 := Entries(H);
    for a := 0 to 6
      invariant forall a', b :: 0 <= a' < 6 && 0 <= b < 6 ==> H[a', b] == if a' < a then H0[a'][b] + t[a'][b] else H0[a'][b]
    {
      for b := 0 to 6
        invariant forall a', b' :: 0 <= a' < 6 && 0 <= b' < 6 ==>
          H[a', b'] == if a' < a || (a' == a && b' < b) then H0[a'][b'] + t[a'][b'] else H0[a'][b']
      {
        H[a, b] := H[a, b] + t[a][b];
      }
    }
    MatrixExt(Entries(H), MatAdd(H0, t, 6, 6), 6, 6);
  }

  /** `*g -= t`. */
  method SubtractFromVector(g: array<real>, t: Vector6)
    requires g.Length == 6
    modifies g
    ensures g[..] == VecSub(old(g[..]), t)
  {
    for a := 0 to 6
      invariant forall a' :: 0 <= a' < 6 ==> g[a'] == if a' < a then old(g[a']) - t[a'] else old(g[a'])
    {
      g[a] := g[a] - t[a];
    }
  }

  /** The residual matrix: one raw residual per column, then whitened row block by row block. */
  method WhitenedResiduals<Pose, Rotation>(al: PoseAligner<Pose>, geo: Geometry<Pose, Rotation>, T_A_B: Pose)
    returns (residuals: array2<real>)
    requires WellFormed(al) && PositiveNoise(al)
    ensures fresh(residuals) && residuals.Length0 == 6 && residuals.Length1 == Count(al)
    ensures forall c :: 0 <= c < Count(al) ==> ColumnOf(residuals, c) == Residual(al, geo, T_A_B, c)
  {
    var n := |al.T_W_A|;
    residuals := new real[6, n];
    // Compute the prediction error.
    for i := 0 to n
      invariant forall r, c :: 0 <= r < 6 && 0 <= c < i ==>
        residuals[r, c] == RawResidual(geo, al.T_W_A[c], al.T_W_B[c], T_A_B)[r]
    {
      SetColumn(residuals, i, RawResidual(geo, al.T_W_A[i], al.T_W_B[i], T_A_B));
    }
    // Whiten the error.
    DivideRows(residuals, 0, 3, al.sigmaPos);
    DivideRows(residuals, 3, 6, al.sigmaRot);
    forall c | 0 <= c < n
      ensures ColumnOf(residuals, c) == Residual(al, geo, T_A_B, c)
    {
    }
  }

  lemma AccumulateHessianStep(H: Matrix6, terms: seq<Matrix6>, i: nat)
    requires i < |terms|
    ensures AccumulateHessian(H, terms[..i + 1]) == MatAdd(AccumulateHessian(H, terms[..i]), terms[i], 6, 6)
  {
    assert terms[..i + 1][..i] == terms[..i];
  }

  lemma AccumulateGradientStep(g: Vector6, terms: seq<Vector6>, i: nat)
    requires i < |terms|
    ensures AccumulateGradient(g, terms[..i + 1]) == VecSub(AccumulateGradient(g, terms[..i]), terms[i])
  {
    assert terms[..i + 1][..i] == terms[..i];
  }

  /** The accumulation loop: `H += w J^T J` and `g -= w J^T r` for every correspondence. */
  method AccumulateNormalEquations<Pose, Rotation>(al: PoseAligner<Pose>, geo: Geometry<Pose, Rotation>, T_A_B: Pose,
                                                   residuals: array2<real>, weights: seq<real>,
                                                   H: array2<real>, g: array<real>)
    requires WellFormed(al) && PositiveNoise(al)
    requires residuals.Length0 == 6 && residuals.Length1 == Count(al) && residuals != H
    requires forall c :: 0 <= c < Count(al) ==> ColumnOf(residuals, c) == Residual(al, geo, T_A_B, c)
    requires weights == Weights(al, geo, T_A_B)
    requires H.Length0 == 6 && H.Length1 == 6 && g.Length == 6
    modifies H, g
    ensures IsMatrix(old(Entries(H)), 6, 6) && |old(g[..])| == 6
    ensures Entries(H) == AccumulateHessian(old(Entries(H)), HessianTerms(al, geo, T_A_B))
    ensures g[..] == AccumulateGradient(old(g[..]), GradientTerms(al, geo, T_A_B))
  {
    var n := |al.T_W_A|;
    ghost var H0 := Entries(H);
    ghost var g0 := g[..];
    ghost var hTerms := HessianTerms(al, geo, T_A_B);
    ghost var gTerms := GradientTerms(al, geo, T_A_B);
    for i := 0 to n
      invariant Entries(H) == AccumulateHessian(H0, hTerms[..i])
      invariant g[..] == AccumulateGradient(g0, gTerms[..i])
    {
      var J := geo.dRelpose(T_A_B, al.T_W_A[i], al.T_W_B[i]);
      // Square root of the inverse covariance, and the whitened Jacobian J * R.
      var R := SqrtInformation(al);
      J := ScaleColumns(J, R);
      var r := ColumnOf(residuals, i);
      assert r == Residual(al, geo, T_A_B, i);
      var hTerm := HessianTerm(J, weights[i]);
      var gTerm := GradientTerm(J, r, weights[i]);
      assert hTerm == hTerms[i] && gTerm == gTerms[i];
      AccumulateHessianStep(H0, hTerms, i);
      AccumulateGradientStep(g0, gTerms, i);
      AddToMatrix(H, hTerm);
      SubtractFromVector(g, gTerm);
    }
    assert hTerms[..n] == hTerms;
    assert gTerms[..n] == gTerms;
  }

  /**
   * `evaluateError(T_A_B, H, g)`: returns the robust cost and, when both `H`
   * and `g` are given, adds the weighted normal equations of every
   * correspondence to them; when either is null neither is touched.
   */
  method EvaluateError<Pose, Rotation>(al: PoseAligner<Pose>, geo: Geometry<Pose, Rotation>, T_A_B: Pose,
                                       H: array2?<real>, g: array?<real>) returns (chi2: real)
    requires WellFormed(al) && PositiveNoise(al)
    requires H != null ==> H.Length0 == 6 && H.Length1 == 6
    requires g != null ==> g.Length == 6
    modifies H, g
    ensures chi2 == Cost(al, geo, T_A_B)
    ensures H != null && g != null ==>
      IsMatrix(old(Entries(H)), 6, 6) && |old(g[..])| == 6 &&
      Entries(H) == AccumulateHessian(old(Entries(H)), HessianTerms(al, geo, T_A_B)) &&
      g[..] == AccumulateGradient(old(g[..]), GradientTerms(al, geo, T_A_B))
    ensures H == null || g == null ==>
      (H != null ==> Entries(H) == old(Entries(H))) && (g != null ==> g[..] == old(g[..]))
  {
    var n := |al.T_W_A|;
    chi2 := 0.0;

    var residuals := WhitenedResiduals(al, geo, T_A_B);

    // Robust cost function.
    var squaredNorms := seq(n, c requires 0 <= c < n reads residuals => SquaredNorm(ColumnOf(residuals, c)));
    var weights := seq(n, c requires 0 <= c < n => geo.weight(geo.sqrt(squaredNorms[c])));
    assert squaredNorms == SquaredNorms(al, geo, T_A_B);
    assert weights == Weights(al, geo, T_A_B);

    if H != null && g != null {
      AccumulateNormalEquations(al, geo, T_A_B, residuals, weights, H, g);
    }

    // Log-likelihood.
    chi2 := chi2 + 0.5 * Dot(weights, squaredNorms);
  }

  /** `update(T_A_Bold, dx)`: the right-multiplicative retraction `T_A_Bold * exp(dx)`. */
  method Update<Pose, Rotation>(geo: Geometry<Pose, Rotation>, T_A_Bold: Pose, dx: Vector6) returns (T_A_Bnew: Pose)
    ensures T_A_Bnew == geo.compose(T_A_Bold, geo.exp(dx))
  {
    T_A_Bnew := geo.compose(T_A_Bold, geo.exp(dx));
  }
}
