# OpenCSP geometry and camera core, modelled in Dafny

This project models three parts of OpenCSP, a Python toolkit for
concentrating-solar-power optics, and proves properties about them:

- `Vxy`, the 2×N container of plane points and vectors. The model covers
  construction and its shape checks, columnwise arithmetic with numpy
  broadcasting, magnitude, normalisation, rotation about the origin or a
  pivot, dot and cross products, indexing, concatenation and merge
  (`vxy.dfy`, module `Vxy`).
- `LineXY`, the normalised line `a·x + b·y + c = 0`. The model covers
  the normalising constructor, the normal vector, slope, the line through
  two points, signed and unsigned distances, `y_from_x`, `x_from_y`,
  intersection and flipping (`line_xy.dfy`, module `LineXY`). It also
  covers the RANSAC candidate selection of `fit_from_points` (`line_fit.dfy`,
  module `LineFit`).
- `ImageAcquisitionAbstract`, the camera base class. The model covers its
  multiton registry of camera instances (`camera_registry.dfy`, module
  `ImageAcquisition`) and the binary search of `calibrate_exposure`
  (`exposure_calibration.dfy`, module `ExposureCalibration`).

Shared pieces:

- `errors.dfy` (module `Errors`) gives the Python exceptions as an `Error`
  datatype, with `Result` and `Option`.
- `real_sqrt.dfy` (module `RealSqrt`) states what a square root is. It is
  the hypothesis `IsSqrt(sqrt)` on a function parameter that every member
  needing a root receives.

Floats are modelled as mathematical reals. Arithmetic that yields NaN or
infinity in numpy is modelled as `None`: a line built from the
coefficients (0, 0, c), or a division by a zero coefficient. All
operations are pure functions on values. The in-place mutators of the
source return the new value, together with the exception raised when
there is one. The one exception is the exposure search, which is a
method with a loop, as in the source.

Where the documented behaviour and the code differ, the model follows
the code. Building a line from two coincident points raises nothing in
the code. It divides by a zero norm and yields a NaN line, which
`LineXY.FromTwoPoints` models as `Ok(None)`.

## Model

| member | source | states |
|---|---|---|
| Vxy.FromData | opencsp/common/lib/geometry/Vxy.py:19-30 | An ndarray is accepted exactly when, squeezed, it is 1-D with an even count or 2-D with first dimension 2; a list exactly when it has two scalars or two rows of one length; anything else is a ValueError, and input without a length a TypeError. The stored rows are the input's rows. |
| Vxy.FromStoredData | opencsp/common/lib/geometry/Vxy.py:19-50 | Rebuilding a vector from its own (2, N) store gives it back for every N, N = 1 included. |
| Vxy.FromRowList | opencsp/common/lib/geometry/Vxy.py:19-30 | Constructing from the list [x-row, y-row] gives the vector back. |
| Vxy.Len | opencsp/common/lib/geometry/Vxy.py:98-99 | The length is N of the stored (2, N) array. |
| Vxy.Add | opencsp/common/lib/geometry/Vxy.py:52-66 | A non-Vxy operand is a TypeError. Column counts that do not broadcast are a ValueError. Otherwise column i is the sum of the broadcast columns, and equal counts keep N. |
| Vxy.Sub | opencsp/common/lib/geometry/Vxy.py:68-73 | The same as `Add`, with differences. |
| Vxy.Mul | opencsp/common/lib/geometry/Vxy.py:75-86 | A number scales every column. A Vxy multiplies columnwise. A 1-D array scales column i by its element i. Other types are a TypeError, and counts that do not broadcast a ValueError. |
| Vxy.Neg | opencsp/common/lib/geometry/Vxy.py:101-102 | Every coordinate is negated and N is kept. |
| Vxy.AddCommutes | opencsp/common/lib/geometry/Vxy.py:61-66 | a + b equals b + a, errors included. |
| Vxy.SubIsAddOfNeg | opencsp/common/lib/geometry/Vxy.py:61-73 | a − b equals a + (−b). |
| Vxy.AddUndoesSub | opencsp/common/lib/geometry/Vxy.py:61-73 | For equal lengths, (a − b) + b gives a back. |
| Vxy.NegInvolution | opencsp/common/lib/geometry/Vxy.py:101-102 | Negating twice gives the vector back. |
| Vxy.MulByMinusOneIsNeg | opencsp/common/lib/geometry/Vxy.py:75-102 | Multiplying by −1 is negation. |
| Vxy.Magnitude | opencsp/common/lib/geometry/Vxy.py:142-152 | One non-negative entry per column, whose square is x² + y². It is zero exactly for a zero column. |
| Vxy.Normalize | opencsp/common/lib/geometry/Vxy.py:104-140 | ValueError exactly when some column is zero. Otherwise every column has length 1 and points the same way as the input column. |
| Vxy.NormalizeIdempotent | opencsp/common/lib/geometry/Vxy.py:121-140 | Normalising a normalised vector changes nothing. |
| Vxy.RotationArg | opencsp/common/lib/geometry/Vxy.py:207-211 | A rotation operand is accepted exactly when it is an ndarray of shape (2, 2). A non-array is a TypeError and any other shape a ValueError. |
| Vxy.Rotate | opencsp/common/lib/geometry/Vxy.py:154-213 | Fails exactly as the operand check does. Otherwise every column is R·column, with N kept. |
| Vxy.RotatePreservesMagnitude | opencsp/common/lib/geometry/Vxy.py:196-213 | A matrix with orthonormal columns keeps the length of every column. |
| Vxy.RotateRoundTrip | opencsp/common/lib/geometry/Vxy.py:196-213 | Rotating by R and then by its transpose gives the vector back. |
| Vxy.RotateAboutInPlaceAsWritten | opencsp/common/lib/geometry/Vxy.py:215-233 | The in-place rotation as written keeps N. It raises exactly when R is invalid or the pivot does not broadcast. A pivot that does not broadcast raises ValueError and leaves the data alone. An invalid R raises the error R's check gives, and leaves every column shifted by −pivot. On success each column's offset from the pivot is R times its old offset. |
| Vxy.RotateAboutAsWrittenMutatesOnError | opencsp/common/lib/geometry/Vxy.py:215-233 | A concrete input for which the in-place rotation raises TypeError and still leaves the receiver shifted by the pivot. |
| Vxy.RotateAboutAsWrittenCorruptsReceiver | opencsp/common/lib/geometry/Vxy.py:215-233 | For every invalid rotation operand and non-zero pivot, the in-place rotation raises and leaves the receiver changed. |
| Vxy.RotateAboutInPlace | opencsp/common/lib/geometry/Vxy.py:215-233 | Corrected rotation about a pivot. On error the data is unchanged. It succeeds exactly for a valid R and a pivot that broadcasts, and then each column's offset from the pivot is rotated by R. |
| Vxy.RotateAbout | opencsp/common/lib/geometry/Vxy.py:174-194 | The copying rotation succeeds exactly for a valid R and a pivot that broadcasts, and keeps N. Each column's offset from the pivot is then R times its old offset: translate by −pivot, rotate, translate back. |
| Vxy.RotateAboutCopyAgrees | opencsp/common/lib/geometry/Vxy.py:174-194 | The copy gets what the source's in-place rotation gives its copy: the exception, or the rotated data. |
| Vxy.PivotIsFixed | opencsp/common/lib/geometry/Vxy.py:215-233 | The pivot point itself does not move. |
| Vxy.RotateAboutKeepsDistanceToPivot | opencsp/common/lib/geometry/Vxy.py:215-233 | Under an orthonormal R, every point keeps its distance to the pivot. |
| Vxy.RotateAboutOrigin | opencsp/common/lib/geometry/Vxy.py:215-233 | Rotating about the origin is plain rotation. |
| Vxy.Dot | opencsp/common/lib/geometry/Vxy.py:235-252 | A non-Vxy operand is a TypeError. Otherwise entry i is x1·x2 + y1·y2 of the broadcast columns. |
| Vxy.Cross | opencsp/common/lib/geometry/Vxy.py:254-271 | A non-Vxy operand is a TypeError. Otherwise entry i is x1·y2 − y1·x2 of the broadcast columns. |
| Vxy.DotSymmetric | opencsp/common/lib/geometry/Vxy.py:235-252 | a·b equals b·a, errors included. |
| Vxy.CrossAntisymmetric | opencsp/common/lib/geometry/Vxy.py:254-271 | a×b is defined exactly when b×a is, and is its negation entry by entry. |
| Vxy.CrossWithSelfIsZero | opencsp/common/lib/geometry/Vxy.py:254-271 | v×v is all zeros. |
| Vxy.DotWithSelfIsSquaredMagnitude | opencsp/common/lib/geometry/Vxy.py:142-252 | v·v is the squared magnitude, column by column. |
| Vxy.GetItem | opencsp/common/lib/geometry/Vxy.py:88-93 | An integer index is valid exactly in [−N, N) and picks one column, counting from the end when negative. An index list picks its columns in order. A boolean mask must have length N. Out-of-range keys are an IndexError, and a tuple with a slice is a ValueError. |
| Vxy.SelectIsTake | opencsp/common/lib/geometry/Vxy.py:88-93 | Selecting by mask is taking the mask's true positions. |
| Vxy.MaskIsTakeOfTrueIndices | opencsp/common/lib/geometry/Vxy.py:88-93 | Indexing by a mask equals indexing by the increasing list of its true positions. |
| Vxy.NegativeIndexCountsFromEnd | opencsp/common/lib/geometry/Vxy.py:88-93 | Index −k is index N − k. |
| Vxy.Concatenate | opencsp/common/lib/geometry/Vxy.py:290-305 | Rebuilding from the joined rows gives a's columns followed by b's. |
| Vxy.Merge | opencsp/common/lib/geometry/Vxy.py:307-325 | The result is the columns of the list's vectors in list order. The empty list gives the empty vector. |
| Vxy.MergeAppend | opencsp/common/lib/geometry/Vxy.py:290-325 | Merging two lists joined equals concatenating their merges. |
| LineXY.Make | opencsp/common/lib/geometry/LineXY.py:30-37 | None (the NaN line) exactly when a = b = 0. Otherwise (a, b) is a unit normal pointing the same way as the input's. |
| LineXY.MakeKeepsPoints | opencsp/common/lib/geometry/LineXY.py:30-37 | Normalising keeps exactly the same points on the line. |
| LineXY.MakeOfLine | opencsp/common/lib/geometry/LineXY.py:30-37 | Normalising a line that is already normal changes nothing. |
| LineXY.MakeOfNegation | opencsp/common/lib/geometry/LineXY.py:30-37 | Negated coefficients give the negated line. |
| LineXY.NVec | opencsp/common/lib/geometry/LineXY.py:42-53 | The normal is one column of length 1. |
| LineXY.NVecFromList | opencsp/common/lib/geometry/LineXY.py:42-53 | The normal is the vector the constructor builds from the list [a, b]. |
| LineXY.ABC | opencsp/common/lib/geometry/LineXY.py:55-66 | The three coefficients in order. |
| LineXY.SlopeOf | opencsp/common/lib/geometry/LineXY.py:68-73 | Infinite exactly when \|b\| < 1e-10. Otherwise s solves a + b·s = 0. |
| LineXY.SlopeIsRiseOverRun | opencsp/common/lib/geometry/LineXY.py:68-73 | A finite slope is the rise over run between any two points of the line. |
| LineXY.LineThrough | opencsp/common/lib/geometry/LineXY.py:182-191 | None exactly for equal points. Otherwise both points are on the line, and its normal is the direction turned clockwise. |
| LineXY.FromTwoPoints | opencsp/common/lib/geometry/LineXY.py:162-191 | ValueError exactly when an input is not of length 1. The NaN line exactly for coincident points. Otherwise both points lie on the line and the normal points to the right of p1→p2. |
| LineXY.OnLineThroughIffCollinear | opencsp/common/lib/geometry/LineXY.py:162-191 | A point is on the line through p1 and p2 exactly when it is collinear with them. |
| LineXY.FromTwoPointsSwapped | opencsp/common/lib/geometry/LineXY.py:162-312 | Swapping the points gives the flipped line. |
| LineXY.DistSigned | opencsp/common/lib/geometry/LineXY.py:244-260 | One entry per point, zero exactly for the points on the line. Its value is given by DistSignedFromAnyPointOnLine. |
| LineXY.DistSignedFromAnyPointOnLine | opencsp/common/lib/geometry/LineXY.py:244-260 | Measured from any point q of the line, the signed distance is the point's offset from q projected onto the normal (a, b). So it is positive on the side the normal points to. |
| LineXY.DistSignedIsDotWithNormal | opencsp/common/lib/geometry/LineXY.py:244-260 | The signed distance is the points' dot product with `n_vec`, plus c. |
| LineXY.DistFrom | opencsp/common/lib/geometry/LineXY.py:227-242 | One entry per point: the absolute value of the signed distance. It is zero exactly for points on the line. |
| LineXY.FootOfPerpendicular | opencsp/common/lib/geometry/LineXY.py:227-260 | Stepping back along the normal by the signed distance lands on the line, at exactly that distance. |
| LineXY.DistanceIsLowerBound | opencsp/common/lib/geometry/LineXY.py:227-260 | No point of the line is closer to p than the distance `dist_from` reports. |
| LineXY.DistanceIsAttained | opencsp/common/lib/geometry/LineXY.py:227-260 | Some point of the line, the foot of the perpendicular, is exactly the reported distance from p. |
| LineXY.DistanceIsMinimal | opencsp/common/lib/geometry/LineXY.py:227-260 | The distance is the perpendicular distance: no point of the line is closer, and some point of the line is exactly that far. |
| LineXY.YFromX | opencsp/common/lib/geometry/LineXY.py:193-208 | None (division by zero) exactly when b = 0. Otherwise every (x, y) pair is on the line. |
| LineXY.XFromY | opencsp/common/lib/geometry/LineXY.py:210-225 | None exactly when a = 0. Otherwise every (x, y) pair is on the line. |
| LineXY.YFromXIsUnique | opencsp/common/lib/geometry/LineXY.py:193-208 | For a point on a non-vertical line, the y given for its x is its own y. |
| LineXY.XFromYIsUnique | opencsp/common/lib/geometry/LineXY.py:210-225 | For a point on a non-horizontal line, the x given for its y is its own x. |
| LineXY.Cross3 | opencsp/common/lib/geometry/LineXY.py:287 | The cross product of the coefficient triples is orthogonal to both. |
| LineXY.NotParallelCross | opencsp/common/lib/geometry/LineXY.py:277-284 | Lines that pass the parallel test have non-parallel normals. |
| LineXY.Meet | opencsp/common/lib/geometry/LineXY.py:286-288 | The dehomogenised cross product lies on both lines. |
| LineXY.MeetIsUnique | opencsp/common/lib/geometry/LineXY.py:286-288 | It is the only point on both lines. |
| LineXY.IntersectWith | opencsp/common/lib/geometry/LineXY.py:262-288 | None exactly when both \|a\| < 1e-10, both \|b\| < 1e-10, or both slopes are finite and within 1e-10. Otherwise one point lying on both lines. |
| LineXY.ParallelLinesDoNotIntersect | opencsp/common/lib/geometry/LineXY.py:262-288 | Exactly parallel lines give None. |
| LineXY.NearlyParallelSymmetric | opencsp/common/lib/geometry/LineXY.py:277-284 | The parallel test is symmetric. |
| LineXY.IntersectSymmetric | opencsp/common/lib/geometry/LineXY.py:262-288 | Intersecting in either order gives the same result. |
| LineXY.IntersectionIsUnique | opencsp/common/lib/geometry/LineXY.py:262-288 | Any point on both lines is the one returned. |
| LineXY.FlipInPlace | opencsp/common/lib/geometry/LineXY.py:304-312 | The same points are on the line, and the normal is reversed. |
| LineXY.Flip | opencsp/common/lib/geometry/LineXY.py:290-302 | The copy has the same points and the reversed normal. |
| LineXY.FlipInvolution | opencsp/common/lib/geometry/LineXY.py:290-312 | Flipping twice gives the line back. |
| LineXY.FlipNegatesSignedDistance | opencsp/common/lib/geometry/LineXY.py:244-312 | Flipping negates every signed distance and keeps every unsigned one. |
| LineFit.Threshold | opencsp/common/lib/geometry/LineXY.py:99 | t is the integer part of 0.99·n. |
| LineFit.DrawIndex | opencsp/common/lib/geometry/LineXY.py:107-110 | floor(r·n) is a valid column index. |
| LineFit.CountZeroIff | opencsp/common/lib/geometry/LineXY.py:120 | A mask counts zero exactly when no entry is set. |
| LineFit.InlierMask | opencsp/common/lib/geometry/LineXY.py:118-119 | Entry i is set exactly when point i is closer to the line than the neighbour distance. |
| LineFit.MakeTrial | opencsp/common/lib/geometry/LineXY.py:112-120 | The line passes through both sampled points, with their inlier mask and its count. |
| LineFit.Redraw | opencsp/common/lib/geometry/LineXY.py:108-110 | A redraw that finishes ends on a point different from the first. A differing second point is kept as drawn. |
| LineFit.NextTrial | opencsp/common/lib/geometry/LineXY.py:106-120 | One pass consumes at least two draws and yields a trial through two different points. |
| LineFit.Step | opencsp/common/lib/geometry/LineXY.py:105-120 | Every pass on a stream of draws yields a sampled trial, and a pass with fewer than two draws left yields none. |
| LineFit.RunTrials | opencsp/common/lib/geometry/LineXY.py:105-135 | A finished loop has at most 1000 trials, all sampled as above. All but the last are at or below the threshold, and a run shorter than 1000 stops on a trial above it. |
| LineFit.AfterTrial | opencsp/common/lib/geometry/LineXY.py:122-135 | The same as `RunTrials`, for the rest of a pass. |
| LineFit.Bookkeep | opencsp/common/lib/geometry/LineXY.py:104-131 | Nothing is kept exactly when every count is 0. Otherwise the kept trial has the maximum count and no earlier trial reaches it. |
| LineFit.FitFromPoints | opencsp/common/lib/geometry/LineXY.py:98-135 | ValueError exactly for n ≤ 15. The only other failure is the unbound `active_mask`. A fit keeps a trial with a positive count, the first that is maximal among ≤ 1000 sampled trials, and returns that trial's line and inliers. |
| LineFit.SampledCount | opencsp/common/lib/geometry/LineXY.py:115-120 | The sampled points are inliers of their own line exactly when the neighbour distance is positive. |
| LineFit.KeptIffPositiveDistance | opencsp/common/lib/geometry/LineXY.py:104-152 | When the loop finishes, a line is kept exactly when the neighbour distance is positive. Otherwise the fit fails with UnboundLocalError. |
| LineFit.RedrawNeverEnds | opencsp/common/lib/geometry/LineXY.py:109-110 | With all points equal, the redraw loop uses up any stream of draws. |
| LineFit.AsWrittenNeverFinishes | opencsp/common/lib/geometry/LineXY.py:98-110 | With more than 15 points that all coincide, no stream of draws lets the fit finish. |
| LineFit.FitFromPointsGuarded | opencsp/common/lib/geometry/LineXY.py:98-110 | The corrected fit rejects coincident points with a ValueError. Otherwise it is the source's fit. |
| LineFit.SteadyRunFinishes | opencsp/common/lib/geometry/LineXY.py:105-135 | When every remaining pass yields the same trial, the loop finishes, whether or not that trial passes the threshold. |
| LineFit.GuardedCanFinish | opencsp/common/lib/geometry/LineXY.py:98-135 | For every input, some stream of draws lets the corrected fit finish. |
| ImageAcquisition.EmptyValid | opencsp/common/lib/camera/ImageAcquisitionAbstract.py:12-16 | The initial registry (no instances, next index 0) meets the registry invariant. |
| ImageAcquisition.FirstOpenFrom | opencsp/common/lib/camera/ImageAcquisitionAbstract.py:60-65 | The first open camera at or after an index, or None when every one is closed. |
| ImageAcquisition.Instance | opencsp/common/lib/camera/ImageAcquisitionAbstract.py:46-72 | With an index: the camera exactly when it is registered and open. Without one: the first open camera in index order, or None exactly when none is open. |
| ImageAcquisition.InstancesFrom | opencsp/common/lib/camera/ImageAcquisitionAbstract.py:88-96 | The open cameras of the class from an index on, in increasing order. |
| ImageAcquisition.Instances | opencsp/common/lib/camera/ImageAcquisitionAbstract.py:74-96 | Exactly the open cameras, filtered by class when one is given, in index order. |
| ImageAcquisition.FirstInstanceIsFirstListed | opencsp/common/lib/camera/ImageAcquisitionAbstract.py:46-96 | `instance()` is the first entry of `instances()`, or None when that list is empty. |
| ImageAcquisition.OpenCameras | opencsp/common/lib/camera/ImageAcquisitionAbstract.py:35 | The list handed to `instance_matches` holds every open camera and no closed one. It holds only registry cameras, one per entry of `instances()`, in index order. |
| ImageAcquisition.Register | opencsp/common/lib/camera/ImageAcquisitionAbstract.py:34-44 | RuntimeError exactly when the new camera matches an open one, and then nothing is registered. Otherwise the camera is stored open, without callbacks, at the next index, the counter grows by one and other entries are kept. |
| ImageAcquisition.RegisterThenFind | opencsp/common/lib/camera/ImageAcquisitionAbstract.py:34-96 | A new camera is found by its index and is listed last by `instances()`. |
| ImageAcquisition.AddOnClose | opencsp/common/lib/camera/ImageAcquisitionAbstract.py:43 | Appending a callback changes only that camera's list. Its other fields and every other camera are unchanged. |
| ImageAcquisition.Close | opencsp/common/lib/camera/ImageAcquisitionAbstract.py:253-265 | Only the camera's flag changes: it ends closed, and its other fields and other cameras are untouched. A closed camera runs nothing. An open one runs its callbacks in order until one raises a `BaseException` that is not an `Exception`; that exception leaves `close`, with the flag already set. |
| ImageAcquisition.RunCallbacks | opencsp/common/lib/camera/ImageAcquisitionAbstract.py:263-265 | The called callbacks are a prefix of the list. Something escapes exactly when some callback raises a non-`Exception`, and then the last one called is such a callback. Without one, every callback is called. No callback before the last one called escapes. |
| ImageAcquisition.EveryCallbackRuns | opencsp/common/lib/camera/ImageAcquisitionAbstract.py:262-265 | Every callback is called, in order, exactly when none but the last raises a non-`Exception`. A callback raising an `Exception` does not stop the later ones. |
| ImageAcquisition.StopsAtFirstEscape | opencsp/common/lib/camera/ImageAcquisitionAbstract.py:262-265 | The first callback raising a non-`Exception` is the last one called, and its exception escapes. |
| ImageAcquisition.CloseIdempotent | opencsp/common/lib/camera/ImageAcquisitionAbstract.py:256-260 | A second `close` changes nothing and runs no callback. |
| ImageAcquisition.CloseHides | opencsp/common/lib/camera/ImageAcquisitionAbstract.py:46-96 | After `close`, `instance(h)` is None and `instances` lists the same cameras minus that one. |
| ImageAcquisition.CallbacksRunAtMostOnce | opencsp/common/lib/camera/ImageAcquisitionAbstract.py:253-265 | However often a camera is closed, only the first `close` of an open camera calls callbacks, and a `close` of a camera that is already closed calls none. Callbacks cut off by an escaping exception are not called later. |
| ImageAcquisition.RegisterKeepsOnePerDevice | opencsp/common/lib/camera/ImageAcquisition_DCAM_mono.py:96-102 | With the Basler matching rule, registration keeps at most one open camera per device index. |
| ImageAcquisition.CloseKeepsOnePerDevice | opencsp/common/lib/camera/ImageAcquisitionAbstract.py:253-260 | Closing keeps at most one open camera per device index. |
| ImageAcquisition.ClosedDoNotBlock | opencsp/common/lib/camera/ImageAcquisition_DCAM_mono.py:96-102 | When every camera of a device is closed, a new camera for that device registers. |
| ExposureCalibration.CeilLog2 | opencsp/common/lib/camera/ImageAcquisitionAbstract.py:164 | The least e with n ≤ 2^e. |
| ExposureCalibration.CeilLog2OfPow2 | opencsp/common/lib/camera/ImageAcquisitionAbstract.py:164 | The logarithm of 2^e is e. |
| ExposureCalibration.MaxIters | opencsp/common/lib/camera/ImageAcquisitionAbstract.py:164 | The loop allows ceil(log2 n) + 1 probes, and n ≤ 2^(probes − 1). |
| ExposureCalibration.DcamMaxIters | opencsp/common/lib/camera/ImageAcquisition_DCAM_mono.py:78 | The DCAM camera's 2^13 calibration exposures allow 14 probes. |
| ExposureCalibration.FirstIndexOf | opencsp/common/lib/camera/ImageAcquisitionAbstract.py:123 | The first position holding the value, or None exactly when there is none. |
| ExposureCalibration.LastIndexOf | opencsp/common/lib/camera/ImageAcquisitionAbstract.py:121 | The last position holding the value, or None exactly when there is none. |
| ExposureCalibration.ExposureIdxs | opencsp/common/lib/camera/ImageAcquisitionAbstract.py:118-124 | The last −1 and the first +1. IndexError exactly when either is missing. |
| ExposureCalibration.CheckSet | opencsp/common/lib/camera/ImageAcquisitionAbstract.py:126-132 | True exactly when the first +1 directly follows the last −1. |
| ExposureCalibration.NextIdx | opencsp/common/lib/camera/ImageAcquisitionAbstract.py:134-137 | The floor of the midpoint of the last −1 and the first +1. |
| ExposureCalibration.BracketIdxs | opencsp/common/lib/camera/ImageAcquisitionAbstract.py:118-124 | Under the bracket invariant, the helper finds exactly its two ends. |
| ExposureCalibration.ProbeKeepsBracket | opencsp/common/lib/camera/ImageAcquisitionAbstract.py:165-182 | Marking the midpoint keeps the bracket (all −1 marks before all +1 marks, each agreeing with the frames) and at least halves its width, rounding up. |
| ExposureCalibration.Probe | opencsp/common/lib/camera/ImageAcquisitionAbstract.py:165-186 | One pass probes the floor of the midpoint, which is never the last exposure. It keeps the bracket, and reports it set exactly when its ends are neighbours. |
| ExposureCalibration.Search | opencsp/common/lib/camera/ImageAcquisitionAbstract.py:163-195 | From the initial marks, the loop closes the bracket within `max_iters` probes. The final ValueError is unreachable, and the exposure chosen is unsaturated with a saturated successor. |
| ExposureCalibration.CalibrateExposure | opencsp/common/lib/camera/ImageAcquisitionAbstract.py:111-195 | IndexError with no exposures. ValueError when the smallest exposure saturates or the largest does not. Otherwise success, setting an unsaturated exposure whose successor saturates, after at most ceil(log2 n) + 1 probes, none of them the last exposure. |
| ExposureCalibration.CrossingExists | opencsp/common/lib/camera/ImageAcquisitionAbstract.py:151-161 | Between an unsaturated and a saturated exposure there is always an unsaturated one followed by a saturated one. |
| ExposureCalibration.MonotoneCrossingIsThreshold | opencsp/common/lib/camera/ImageAcquisitionAbstract.py:111-116 | When saturation never goes away as exposure grows, the chosen exposure is the last unsaturated one. |
| ExposureCalibration.MonotoneCrossingUnique | opencsp/common/lib/camera/ImageAcquisitionAbstract.py:111-116 | With such saturation, the search's answer is unique. |

## Left out

- Floating point: reals stand for float64, with no rounding, overflow or signed zeros. NaN and infinity appear only as `None` where the source divides by zero.
- The square root is a function parameter satisfying `IsSqrt`, because Dafny has no real square root.
- `Vxy.draw` and `Vxy.__repr__`: matplotlib output and text formatting.
- The `dtype` argument of the `Vxy` constructor and of `_from_data`: every store holds reals.
- Vxy.GetItem: slice keys and multi-dimensional index arrays are not modelled. Only integers, integer lists, boolean masks and the rejected tuple-with-slice key are.
- Vxy.Mul: ndarray operands are modelled as 1-D arrays only. A 2-D ndarray operand is not modelled.
- `LineXY.__repr__`: text formatting.
- LineFit.FitFromPoints: stops at the kept candidate (`A_active`, `B_active`, `C_active`, `active_mask`). The scipy `minimize` refinement (LineXY.py:137-160) is a floating-point optimiser and is not modelled.
- LineFit.FitFromPoints: the MT19937 generator is replaced by the sequence of values `rs.rand()` returns, each in [0, 1). A sequence too short to finish gives `NeedsMoreDraws`.
- LineFit.Threshold: uses the exact quotient ⌊99·n/100⌋, not the floating-point product 0.99·n. The two could differ for some n.
- `ImageAcquisitionAbstract.cam_options`: imports driver classes and has no logic.
- The hardware side of cameras: `get_frame`, `gain`, `exposure_time`, `frame_size`, `frame_rate`, `max_value`, `shutter_cal_values`, and the pypylon connection in the DCAM driver.
- `_check_saturated` (ImageAcquisitionAbstract.py:139-141) is replaced by an oracle `saturated[i]` for the frame at exposure i. The oracle gives one fixed answer per exposure, whereas a real camera could answer differently when the same exposure is captured twice.
- `exposure_time_seconds` (ImageAcquisitionAbstract.py:214-220): float/int conversion of the exposure.
- ExposureCalibration.CalibrateExposure: does not model the exposures written to the camera along the way, or the `print` calls. `probes` records the indices tried, and the result records the final setting.
- ExposureCalibration.CeilLog2: integer definition. `np.log2` is computed in floating point, which only matters for counts far beyond the 2^13 exposures the cameras use.
- ImageAcquisition.Register: `instance_matches` is abstract in the base class and is a parameter here. The only subclass rule modelled is the DCAM `basler_index` rule.
- ImageAcquisition.Instance: returns the camera's index, which names the camera object because each object is stored once, instead of returning the object.
- The class-level dictionary is global mutable state in the source. Here the registry is a value passed in and returned.
- The callbacks' own effects are not modelled. A callback is an identifier and how a call to it ends: normally, with an `Exception`, or with another `BaseException`.
- Vxy.RotateAboutInPlace: takes its operands as values. A pivot that is the receiver itself is not represented. In the source, `data` returns the receiver's own array, so `v.rotate_about_in_place(R, v)` first zeroes v and then adds back zeros, leaving v all zeros.

## Findings

| source | as written | input that shows it | evidently intended | confidence | as-written member | corrected member |
|---|---|---|---|---|---|---|
| opencsp/common/lib/geometry/Vxy.py:215-233 | `rotate_about_in_place` subtracts the pivot from the data before `rotate_in_place` checks R. An invalid R raises with the receiver left shifted by the pivot. | data (1, 1), pivot (1, 0), R a Python scalar: TypeError, data left at (0, 1) | R is checked before any change, so a failed call leaves the vector untouched | medium, not executed | Vxy.RotateAboutAsWrittenMutatesOnError | Vxy.RotateAboutInPlace |
| opencsp/common/lib/geometry/LineXY.py:105-110 | The inner `while` redraws i2 until its point differs from point i1. When every point has the same coordinates, no draw ever succeeds and the loop never ends. | 16 copies of the point (0, 0) | coincident input is rejected with a ValueError, like too few points | high, not executed | LineFit.AsWrittenNeverFinishes | LineFit.FitFromPointsGuarded |
