# A verified model of the ze_oss geometry, manifold, image-bridge and combinatorics core

This project models four pieces of the ze_oss visual-inertial toolkit in Dafny and proves
properties of the model:

- **Flat-manifold traits** (`include/ze/common/manifold.h`), in `manifold.dfy`. This covers the
  scalar traits (`ScalarTraits`) and the traits of a fixed-size double matrix (`MatrixTraits`):
  - approximate equality;
  - the identity element;
  - `Local`/`Retract` and `Logmap`/`Expmap`, with their optional Jacobians.

  A matrix's tangent vector is its column-major flattening, which is Eigen's default storage.
  The model proves:
  - the retraction/local round trips in both directions;
  - that every Jacobian the traits hand out is the exact derivative, since flat manifolds are
    linear.
- **The pose aligner** (`src/align_poses.cpp`), in `align_poses.dfy`. This is the robust
  Gauss-Newton cost of a relative transform `T_A_B` between two index-paired pose sequences.
  - `EvaluateError` is an imperative method over `array2`/`array`. It builds the residual
    matrix column by column and whitens it row block by row block. It then computes the
    weights and accumulates `H += w J^T J` and `g -= w J^T r` in place, when both `H` and `g`
    are non-null.
  - It is proved against specification functions (`Cost`, `AccumulateHessian`,
    `AccumulateGradient`). Lemmas about those functions prove:
    - symmetry of `H` is preserved;
    - batch additivity over partitions of the correspondences;
    - non-negativity of the cost;
    - the empty and perfect-fit cases;
    - the exact effect of the code's column-wise Jacobian whitening `J *= R`.
- **The ROS image bridge** (`imp_bridge_ros/src/ros_bridge.cpp`), in `ros_bridge.dfy`. This covers:
  - the encoding-to-pixel-type table;
  - the row-pitch sanity check in the code's unsigned 32-bit arithmetic, wrap-around included;
  - the dispatch of `toImageCpu`, which converts only single-channel 8-bit images.

  Every `LOG(FATAL)` or failed `CHECK` becomes a `Failure` carrying its message.
- **Index combinatorics** (`getMatchIndices`, `getUnmatchedIndices`,
  `getOutlierIndicesFromInlierIndices`), whose behaviour `test/test_combinatorics.cpp` pins
  down, in `combinatorics.dfy`. The three operations are specified completely:
  - bounds, membership in both directions and ascending order;
  - the unmatched indices are exactly the valid indices that are not matched;
  - the number of outliers;
  - an imperative mask-based complement, proved equal to the function.

  Each test fixture is a lemma.

`wrappers.dfy` holds the `Option` and `Result` datatypes. `linalg.dfy` holds the vector and
matrix algebra over `seq<real>` that the rest uses.

In the aligner, the foreign geometry is a record of function values (`PoseAlignment.Geometry`),
about which nothing is assumed. That geometry is:
- `Transformation` and `Quaternion` operations;
- `dRelpose_dTransformation`;
- the square root;
- the robust weight function.

## Model

| member | source | states |
|---|---|---|
| ScalarTraits.Equals | include/ze/common/manifold.h:20-23 | true exactly when `v1` lies strictly within `tol` of `v2` |
| ScalarTraits.EqualsReflexiveSymmetric | include/ze/common/manifold.h:20-23 | a value equals itself exactly when the tolerance is positive; the test is symmetric |
| ScalarTraits.EqualsRejectsBoundary | include/ze/common/manifold.h:22 | a difference of exactly `tol` is rejected (strict comparison) |
| ScalarTraits.Identity | include/ze/common/manifold.h:25-28 | the identity is neutral: retracting it by `x` gives `x`, and the local coordinates of `x` from it are `x` |
| ScalarTraits.Local | include/ze/common/manifold.h:30-38 | the tangent step takes `origin` to `other` |
| ScalarTraits.Retract | include/ze/common/manifold.h:40-46 | the result differs from `origin` by the tangent step |
| ScalarTraits.Logmap | include/ze/common/manifold.h:48-52 | the logarithm is the step from the identity 0 |
| ScalarTraits.Expmap | include/ze/common/manifold.h:54-58 | the exponential is inverted by the logarithm |
| ScalarTraits.LocalWithJacobians | include/ze/common/manifold.h:30-38 | the value is `Local`; a Jacobian is produced exactly when its pointer is non-null |
| ScalarTraits.RetractWithJacobians | include/ze/common/manifold.h:40-46 | the value is `Retract`; a Jacobian is produced exactly when its pointer is non-null |
| ScalarTraits.LogmapWithJacobian | include/ze/common/manifold.h:48-52 | the value is `Logmap`; the Jacobian is produced exactly when requested |
| ScalarTraits.ExpmapWithJacobian | include/ze/common/manifold.h:54-58 | the value is `Expmap`; the Jacobian is produced exactly when requested |
| ScalarTraits.RetractLocal | include/ze/common/manifold.h:30-46 | retracting by the local coordinates of `x` gives back `x` |
| ScalarTraits.LocalRetract | include/ze/common/manifold.h:30-46 | the local coordinates of a retraction are the step retracted by |
| ScalarTraits.LogmapExpmap | include/ze/common/manifold.h:25-58 | the identity is 0; Logmap is Local from the identity; Expmap and Logmap are mutually inverse |
| ScalarTraits.LocalJacobiansExact | include/ze/common/manifold.h:33-36 | perturbing both arguments changes Local by exactly `H1 d1 + H2 d2` (Jacobians -1 and +1) |
| ScalarTraits.RetractJacobiansExact | include/ze/common/manifold.h:43-45 | perturbing origin and step changes Retract by exactly `H1 d1 + H2 d2` |
| ScalarTraits.LogExpJacobiansExact | include/ze/common/manifold.h:48-58 | the unit Jacobians of Logmap and Expmap are exact derivatives |
| MatrixTraits.FlatIndex | include/ze/common/manifold.h:71-73 | entry (i, j) has a position inside the M*N tangent vector |
| MatrixTraits.Dimension | include/ze/common/manifold.h:71 | the tangent dimension `M * N` is zero exactly when the matrix has no rows or no columns |
| MatrixTraits.FlatIndexInverse | include/ze/common/manifold.h:102 | the row and column of the position of (i, j) are i and j |
| MatrixTraits.FlatIndexSplit | include/ze/common/manifold.h:102 | every tangent position is the position of its own row and column |
| MatrixTraits.Flatten | include/ze/common/manifold.h:102 | the flattening has M*N entries and holds entry (i, j) at its column-major position |
| MatrixTraits.Unflatten | include/ze/common/manifold.h:111 | the M-by-N matrix whose column-major positions hold the vector's entries |
| MatrixTraits.UnflattenFlatten | include/ze/common/manifold.h:102-111 | mapping a matrix to its tangent storage and back is the identity |
| MatrixTraits.FlattenUnflatten | include/ze/common/manifold.h:102-111 | mapping a tangent vector to a matrix and back is the identity |
| MatrixTraits.NoEntryExceeds | include/ze/common/manifold.h:81-88 | the scan from `from` on succeeds exactly when no coefficient differs by more than `tol` |
| MatrixTraits.CoeffAt | include/ze/common/manifold.h:83-85 | the linear coefficient `v[k]` read by the scan, at the column-major position of (i, j), is entry (i, j) |
| MatrixTraits.Equals | include/ze/common/manifold.h:76-89 | false on a size mismatch; otherwise true exactly when every linear coefficient differs by at most `tol` |
| MatrixTraits.EqualsEntrywise | include/ze/common/manifold.h:76-89 | for two M-by-N matrices, Equals is the entrywise test, both directions |
| MatrixTraits.EqualsReflexiveSymmetric | include/ze/common/manifold.h:76-89 | reflexive for a non-negative tolerance; symmetric |
| MatrixTraits.EqualsAcceptsBoundary | include/ze/common/manifold.h:85 | a difference of exactly `tol` is accepted (unlike the scalar test) |
| MatrixTraits.Identity | include/ze/common/manifold.h:91-94 | the M-by-N zero matrix |
| MatrixTraits.Local | include/ze/common/manifold.h:96-104 | the tangent vector holds `other - origin` at each column-major position |
| MatrixTraits.Retract | include/ze/common/manifold.h:106-112 | each entry is origin's entry plus the matching entry of the step |
| MatrixTraits.Logmap | include/ze/common/manifold.h:114-120 | the tangent vector holds the matrix at its column-major positions |
| MatrixTraits.Expmap | include/ze/common/manifold.h:122-128 | the result is an M-by-N matrix; see LogmapExpmap for its value |
| MatrixTraits.JacobianIdentity | include/ze/common/manifold.h:74 | the (M*N)-by-(M*N) identity: ones on the diagonal, zeros elsewhere |
| MatrixTraits.LocalWithJacobians | include/ze/common/manifold.h:96-104 | the value is Local; each Jacobian is produced exactly when its pointer is non-null |
| MatrixTraits.RetractWithJacobians | include/ze/common/manifold.h:106-112 | the value is Retract; each Jacobian is produced exactly when its pointer is non-null |
| MatrixTraits.LogmapWithJacobian | include/ze/common/manifold.h:114-120 | the value is Logmap; the Jacobian is produced exactly when requested |
| MatrixTraits.ExpmapWithJacobian | include/ze/common/manifold.h:122-128 | the value is Expmap; the Jacobian is produced exactly when requested |
| MatrixTraits.RetractLocal | include/ze/common/manifold.h:96-112 | retracting by the local coordinates of `x` gives back `x` |
| MatrixTraits.LocalRetract | include/ze/common/manifold.h:96-112 | the local coordinates of a retraction are the step retracted by |
| MatrixTraits.LogmapExpmap | include/ze/common/manifold.h:91-128 | Logmap is Local from the zero identity; Expmap and Logmap are mutually inverse |
| MatrixTraits.LocalJacobiansExact | include/ze/common/manifold.h:99-102 | perturbing both arguments changes Local by exactly `H1 d1 + H2 d2` with `H1 = -I`, `H2 = I` |
| MatrixTraits.RetractJacobiansExact | include/ze/common/manifold.h:109-111 | perturbing origin and step changes Retract by exactly the retraction by `H1 d1 + H2 d2` |
| MatrixTraits.LogmapJacobianExact | include/ze/common/manifold.h:116-118 | the identity Jacobian of Logmap is its exact derivative |
| MatrixTraits.ExpmapJacobianExact | include/ze/common/manifold.h:124-127 | the identity Jacobian of Expmap is its exact derivative |
| PoseAlignment.Create | src/align_poses.cpp:13-24 | succeeds exactly when the sequences have equal length, keeping all four fields; a mismatch fails with both sizes |
| PoseAlignment.RawResidual | src/align_poses.cpp:37-41 | rows 0-2 are the position error and rows 3-5 the rotation log error of one correspondence |
| PoseAlignment.Whiten | src/align_poses.cpp:45-46 | each row times its noise sigma gives back the raw error |
| PoseAlignment.Residual | src/align_poses.cpp:37-46 | each row of the whitened residual of correspondence i, times its sigma, is the raw residual row |
| PoseAlignment.SquaredNorms | src/align_poses.cpp:74 | one squared whitened residual norm per correspondence, each non-negative |
| PoseAlignment.Weights | src/align_poses.cpp:49-50 | one weight per correspondence: the weight function of the norm (square root of the squared norm) of its whitened residual |
| PoseAlignment.SqrtInformation | src/align_poses.cpp:60-62 | each diagonal entry times its noise sigma is 1 |
| PoseAlignment.ScaleColumns | src/align_poses.cpp:65 | `J * R`: column b scaled by `R[b]` |
| PoseAlignment.ScaleRows | src/align_poses.cpp:65 | `R * J`: row a scaled by `R[a]`, the textbook whitening |
| PoseAlignment.Jacobian | src/align_poses.cpp:57-65 | entry (a, b) of the whitened Jacobian is entry (a, b) of `dRelpose` times the inverse sigma `R[b]` of column b |
| PoseAlignment.HessianTerm | src/align_poses.cpp:68 | `w J^T J`, entry (a, b) the weighted dot of columns a and b, and symmetric |
| PoseAlignment.GradientTerm | src/align_poses.cpp:69 | `w J^T r`, entry a the weighted dot of column a with the residual |
| PoseAlignment.AccumulateHessianEntries | src/align_poses.cpp:54-70 | after the loop each entry of H is its old value plus the sum of that entry over every correspondence's term |
| PoseAlignment.AccumulateGradientEntries | src/align_poses.cpp:54-70 | after the loop each entry of g is its old value minus the sum of that entry over every correspondence's term |
| PoseAlignment.CostIsWeightedSum | src/align_poses.cpp:73-74 | the returned cost is one half of the sum over correspondences of weight times squared whitened norm |
| PoseAlignment.AccumulateHessianAppend | src/align_poses.cpp:54-70 | accumulating two batches one after the other is accumulating their concatenation |
| PoseAlignment.AccumulateGradientAppend | src/align_poses.cpp:54-70 | the same for the gradient |
| PoseAlignment.AccumulateHessianSymmetric | src/align_poses.cpp:68 | adding symmetric terms to a symmetric H keeps it symmetric |
| PoseAlignment.HessianStaysSymmetric | src/align_poses.cpp:52-71 | a symmetric H stays symmetric through one evaluation |
| PoseAlignment.ConcatEntry | src/align_poses.cpp:34-69 | correspondence i of a concatenation has the residual and Jacobian of i in the first batch or of i - n1 in the second |
| PoseAlignment.ConcatTerms | src/align_poses.cpp:34-74 | Hessian terms, gradient terms, weights and squared norms of a concatenation are the concatenated lists |
| PoseAlignment.Partition | src/align_poses.cpp:26-77 | evaluating two batches into the same H and g equals one evaluation over all; the costs add up |
| PoseAlignment.CostNonNegative | src/align_poses.cpp:74 | with non-negative weights the cost is non-negative |
| PoseAlignment.EmptyAlignment | src/align_poses.cpp:26-77 | no correspondences: zero cost, H and g unchanged |
| PoseAlignment.PerfectFit | src/align_poses.cpp:26-77 | when every raw residual is zero the cost is zero and g is unchanged |
| PoseAlignment.WhitenZero | src/align_poses.cpp:45-46 | whitening maps the zero error to the zero residual |
| PoseAlignment.ColumnScalingIsRowScaling | src/align_poses.cpp:60-65 | for a block-diagonal J, the code's `J * R` equals `R * J` |
| PoseAlignment.ColumnScalingDiffers | src/align_poses.cpp:60-65 | with unequal sigmas and an off-block entry, `J * R` and `R * J` differ |
| PoseAlignment.Entries | src/align_poses.cpp:34 | the rows-of-entries view of a 2-D array |
| PoseAlignment.ColumnOf | src/align_poses.cpp:69 | `residuals.col(c)`: the six entries of column c |
| PoseAlignment.SetColumn | src/align_poses.cpp:37-41 | column c becomes `v`; every other entry is unchanged |
| PoseAlignment.DivideRows | src/align_poses.cpp:45-46 | rows lo..hi-1 are divided by `s`; the others are unchanged |
| PoseAlignment.AddToMatrix | src/align_poses.cpp:68 | the new H is the old H plus the term |
| PoseAlignment.SubtractFromVector | src/align_poses.cpp:69 | the new g is the old g minus the term |
| PoseAlignment.WhitenedResiduals | src/align_poses.cpp:33-46 | a fresh 6-by-n array whose column c is the whitened residual of correspondence c |
| PoseAlignment.AccumulateNormalEquations | src/align_poses.cpp:54-70 | H and g become the accumulation of every correspondence's Hessian and gradient terms in order |
| PoseAlignment.EvaluateError | src/align_poses.cpp:26-77 | returns the cost; with both H and g non-null they receive the accumulated terms; with either null neither changes |
| PoseAlignment.Update | src/align_poses.cpp:79-85 | the new pose is the old one composed with `exp(dx)` |
| RosBridge.GetPixelTypeFromRosImageEncoding | imp_bridge_ros/src/ros_bridge.cpp:39-85 | succeeds exactly on the ten supported encodings, with a pixel type and order that agree with the encoding's channels and bit depth; anything else fails with the code's message |
| RosBridge.EncodingTable | imp_bridge_ros/src/ros_bridge.cpp:43-82 | the decoding of each of the ten encodings |
| RosBridge.DecodingInjective | imp_bridge_ros/src/ros_bridge.cpp:43-82 | no two supported encodings decode to the same pair |
| RosBridge.BitDepth | imp_bridge_ros/src/ros_bridge.cpp:96 | the bit depth of a supported encoding is 8 or 16 |
| RosBridge.NumChannels | imp_bridge_ros/src/ros_bridge.cpp:97 | the channel count of a supported encoding is 1, 3 or 4 |
| RosBridge.EncodingNames | imp_bridge_ros/src/ros_bridge.cpp:96-97 | 16 bits exactly for the names ending in "16"; one channel exactly for the "mono" names; four exactly for the names with an alpha channel |
| RosBridge.RequiredPitch | imp_bridge_ros/src/ros_bridge.cpp:96-103 | the minimum pitch, computed with 32-bit wrap-around, is below 2^32 |
| RosBridge.RequiredPitchExact | imp_bridge_ros/src/ros_bridge.cpp:103 | without overflow the minimum pitch is the row size in bytes |
| RosBridge.RequiredPitchWraps | imp_bridge_ros/src/ros_bridge.cpp:98-103 | a 2^29-pixel mono8 row wraps to a required pitch of 0 |
| RosBridge.ToImageCpu | imp_bridge_ros/src/ros_bridge.cpp:88-161 | succeeds exactly on mono8 with a sufficient pitch, giving a copy of an 8-bit gray image of the source's size, described with the pitch the message data was wrapped with; an unsupported encoding fails with the decoding message |
| RosBridge.OnlyMono8Converts | imp_bridge_ros/src/ros_bridge.cpp:105-158 | any other supported encoding with a valid pitch reaches the fatal default branch |
| RosBridge.PitchCheckedFirst | imp_bridge_ros/src/ros_bridge.cpp:103-105 | an insufficient pitch fails with the sanity-check message before the dispatch |
| RosBridge.PixelOrderIgnored | imp_bridge_ros/src/ros_bridge.cpp:89 | the result does not depend on the requested pixel order |
| Combinatorics.StrictlyIncreasingUnique | test/test_combinatorics.cpp:43-56 | an ascending index list is determined by its elements |
| Combinatorics.IsValidLandmarkId | test/test_combinatorics.cpp:22 | the validity test of the tests rejects exactly the id -1 |
| Combinatorics.FirstIndexOfCorrect | test/test_combinatorics.cpp:24-27 | the lookup finds an id exactly when it occurs, at its first occurrence |
| Combinatorics.MatchPrefixIsMatching | test/test_combinatorics.cpp:21-27 | the matches among a prefix satisfy bounds, validity, equal ids, first partner, ascending order and completeness |
| Combinatorics.GetMatchIndices | test/test_combinatorics.cpp:21-27 | each valid current id that occurs in the reference list is paired, in ascending order, with the first reference index of an equal id; nothing else is paired |
| Combinatorics.UnmatchedPrefixCorrect | test/test_combinatorics.cpp:41-46 | the unmatched indices of a prefix are ascending and are exactly its valid ids absent from the reference |
| Combinatorics.GetUnmatchedIndices | test/test_combinatorics.cpp:41-46 | ascending, in range, and exactly the valid current indices whose id is not in the reference |
| Combinatorics.MatchedUnmatchedPartition | test/test_combinatorics.cpp:21-46 | an index is valid exactly when it is matched or unmatched, and never both |
| Combinatorics.OutlierPrefix | test/test_combinatorics.cpp:52-56 | the ascending indices below `upTo` that are not inliers |
| Combinatorics.GetOutlierIndicesFromInlierIndices | test/test_combinatorics.cpp:52-63 | ascending, and exactly the indices in [0, n) that are not inliers, whatever the inliers' order |
| Combinatorics.OutlierPrefixCount | test/test_combinatorics.cpp:53 | outliers and distinct inliers below `upTo` together count `upTo` |
| Combinatorics.OutlierCount | test/test_combinatorics.cpp:53 | there are n minus the number of distinct inliers below n outliers |
| Combinatorics.AllInliersNoOutliers | test/test_combinatorics.cpp:61-63 | when the inliers cover [0, n) the outlier list is empty |
| Combinatorics.OutlierIndicesByMask | test/test_combinatorics.cpp:52-56 | the boolean-mask complement returns exactly the outlier list |
| Combinatorics.FixtureFirstIndices | test/test_combinatorics.cpp:18 | first positions of 2, 3, 9 and 12 in the reference fixture |
| Combinatorics.FixtureAbsent | test/test_combinatorics.cpp:17-18 | 7, 10, 4 and 5 do not occur in the reference fixture |
| Combinatorics.FixtureMembership | test/test_combinatorics.cpp:17-18 | which current fixture ids occur in the reference fixture |
| Combinatorics.MatchFixture | test/test_combinatorics.cpp:16-27 | the fixture has exactly the four matches (1,2), (2,3), (4,5), (7,4), each pairing equal ids |
| Combinatorics.UnmatchedFixture | test/test_combinatorics.cpp:36-46 | the unmatched fixture indices are 3, 6, 8, 9 |
| Combinatorics.OutlierFixture | test/test_combinatorics.cpp:49-57 | inliers {0, 1, 5, 4} out of 7 leave the outliers 2, 3, 6 |
| Combinatorics.NoOutlierFixture | test/test_combinatorics.cpp:59-64 | inliers {0, 1, 2} out of 3 leave no outliers |

## Left out

- Floating point: every `double`/`float` is a `real`. Rounding, NaN and infinities are not modelled.
- MatrixTraits.Equals: the `isnan` exclusive-or test is dropped, since reals have no NaN. The
  rest of the scan is modelled exactly.
- MatrixTraits: only Eigen's default column-major storage is modelled. The `Options`,
  `MaxRows` and `MaxCols` template parameters (row-major and dynamic storage) are not. The sizes
  are run-time parameters, not compile-time ones.
- ScalarTraits: `float` and `double` are both `real`. The 1x1 tangent vector and Jacobian are
  represented by their single entry.
- PoseAlignment: the foreign code is an uninterpreted `Geometry` record, so no property of the
  geometry is used. That code is:
  - `Transformation` and `Quaternion` (compose, inverse, log, exp);
  - `dRelpose_dTransformation`;
  - `sqrt`;
  - `WeightFunction::weightVectorized`, modelled as a function applied entry by entry.
- PoseAlignment.Create: nothing checks the noise sigmas, and the code does not check them
  either. The aligner's operations take positive sigmas as a precondition (`PositiveNoise`),
  because whitening divides by them. Behaviour with a zero sigma (an IEEE division) is not
  modelled.
- PoseAlignment.EvaluateError: positive semi-definiteness of `H` is not proved. Only its
  preserved symmetry is.
- PoseAlignment.EvaluateError: the `noalias()` products are modelled as plain updates. `H` and
  the residual matrix are required to be distinct arrays.
- RosBridge.ToImageCpu: the result holds only the image's pixel type, size, pitch and order.
  The function returns a deep copy of the wrapped message data. The pitch it carries is the
  message's `step`, the pitch the data was wrapped with. The copy's own pitch, which the copy
  constructor picks, is not modelled. These parts are not modelled either:
  - the pixel data;
  - the wrapping of the message buffer;
  - the deep copy into a new image.
- RosBridge.BitDepth / RosBridge.NumChannels: `sensor_msgs::image_encodings` is not part of
  this model. Its `bitDepth` and `numChannels` are given as a table over the ten supported
  encodings.
- RosBridge: `LOG(FATAL)` and a failing `CHECK_GE` abort the program. Here they are a
  `Failure` carrying the message. The unreachable return value after them is not modelled.
- Combinatorics: `ze/common/combinatorics.hpp` is not part of this model, so the three
  operations are specified from their tests and their names. Three resolutions are choices of this
  model, and all are consistent with the tests:
  - a valid current id is paired with the first reference index holding the same id;
  - all results are in ascending order of index;
  - inliers that are negative, at least `n`, or repeated are ignored by
    `GetOutlierIndicesFromInlierIndices`; no test fixes this behaviour.
- Combinatorics: the `Eigen` vector and `std::vector` containers are `seq<int>`. The integer
  widths (`int32_t`, `size_t`) are not modelled.
- Not modelled, as outside this core: `include/ze/cameras/camera.h`,
  `imp_cu_imgproc/src/image_pyramid.cpp`, `src/test_main.cpp` and
  `test/test_robust_cost.cpp`.
