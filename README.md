# Panorama stitching, modelled in Dafny

This project models the core of a Kotlin panorama-stitching library and proves properties of the model. The pipeline has five stages:

- keypoint matching: brute-force top-2 matching, FLANN k-NN pairs and Lowe's ratio test;
- homography estimation between image pairs: RANSAC over four-point DLT solves;
- composition of pairwise homographies along a tree of images;
- a bounding box of the transformed image corners;
- a first-match inverse warp of every panorama pixel.

Results flow through the sealed `Output` type, modelled as `Success(data) | Failure(msg, cause)`. Exceptions that escape a Kotlin function are modelled separately, as `Try` = `Returned(value) | Thrown(exception)`. `transform`, for instance, throws through RANSAC and through `estimateResultBBox`.

Modules, one per concern:

| module | file | models |
|---|---|---|
| `Outputs` | outputs.dfy | `Output`, escaping exceptions, `$i` string templates |
| `KotlinNumbers` | kotlin_numbers.dfy | `kotlin.math.round` (ties to even), `Double.toInt()` (saturating), 32-bit `Int` addition, the `Double` constants |
| `LinAlg` | linalg.dfy | 3x3 row-major matrices with a concrete product, small Multik arrays |
| `PointEx` | point_ex.dfy | `plus`, `transform`, `pt`, `repeatAsColumn`, `asMk` |
| `Images` | images.dfy | a `D3Array<Byte>` image as a grid of three-byte pixels |
| `BoundingBox` | bbox.dfy | class `Bbox` with its two mutable corner points |
| `Homography` | homography.dfy | `randomSample`, `estimateHomographyRANSAC`, `estimateHomography4Points`, `MultikImplementation.estimateHomography` |
| `Stitching` | stitching.dfy | the edge memo, the chain composer, the bounding box, the inversion and the warp |
| `Matching` | matching.dfy | class `BruteForceMatcher` |
| `Keypoints` | keypoints.dfy | `ratioTestFilter`, `OpencvFlannMatcher.match`, `OpencvKeypointsPipeline.run` |

Each library call the code cannot see is a function-typed parameter:

- `JvmLinAlg.solve` and `JvmLinAlg.inv`: a `Solver` and an `Inverter`, each returning a value or an exception;
- `java.util.Random`: a `RandomStream`, giving the k-th `nextInt(bound)` of a fresh `Random(seed)`;
- the homography algorithm behind `StitchingAlgorithm`: an `Estimator`;
- SIFT detection: a `Detector`;
- FLANN `knnMatch`: a `KnnMatcher`;
- OpenCV's `norm`: a `Distance`.

`JvmLinAlg.dot` on 3x3 matrices is modelled concretely, and is proved associative with the identity as its unit.

The model follows the code's imperative form wherever the code has it. The following are methods with loop invariants, each proved equal to a specification function:

- the sampling loops, the RANSAC loop and the filling of the DLT matrix;
- the edge loop and the chain `while` loop;
- the bounding-box accumulation over a `Bbox` object;
- the warp's nested loops over an `array2`;
- the matcher's nested loops.

Properties are then proved about those functions.

Where the code and its own description differ, the model follows the code:

- **Composition order.** The chain loop right-multiplies, `H = H . E(p, parent[p])`, starting from the identity. So the chain 2 -> 1 -> 0 gives `E(2,1) . E(1,0)` (`Stitching.ComposeChainOfThree`). It is not `E(1,0) . E(2,1)`.
- **No division in `transform`.** `transform` returns the first two components of `H . (x, y, 1)` without dividing by the third. It only throws when the third is zero.
- **The canvas size rounds half to even.** `width()` and `height()` are `round(max - min).toInt()` (bbox.kt:18-24), and `kotlin.math.round` sends a tie to the even integer. The description speaks of a ceiling, so a box 2.5 wide gives a width of 2 here, not 3 (`KotlinNumbers.Round`, `BoundingBox.Bbox.Width`).
- **One image with `parent = [-1]` is not returned unchanged.** Its homography is the identity, and its box runs from (0, 0) to (cols, rows). The canvas is `height() + 1` by `width() + 1`, that is (rows + 1) x (cols + 1). The extra last row and column round to `rows` and `cols`, which `0 until rows` and `0 until cols` exclude, so they stay zero. The rest of the canvas is the image (`Stitching.SingleImagePanorama`, for an inverter that maps the identity to itself).
- **The invalid-tree failure is never reported.** A parent index outside the image list throws an index exception in the edge loop. A cycle makes the `while` loop run forever. A well-formed forest has every edge the walk asks for, so the `"Invalid tree of images supplied"` branch cannot be reached from `stitchPanorama` (`Stitching.ForEachImgNeverInvalid`, `Stitching.StitchedFailureCauses`).

Three consequences of the code as written are made explicit:

- **Every RANSAC trial is the same.** `randomSample` creates `Random(seed)` afresh on every call, with the constant seed 1007. So all 100 RANSAC trials draw the same sample, and RANSAC equals a single trial (`Homography.RansacIsOneTrial`).
- **The bounding box's start value.** Its max corner starts at `Double.MIN_VALUE`, the smallest positive double, so it never drops below that (`BoundingBox.MaxStaysPositive`). Points that all lie left of 0 leave it at that value (`BoundingBox.MaxIgnoresNegativePoints`).
- **No images gives no canvas.** With no images, `width()` saturates to `Int.MIN_VALUE` and the canvas cannot be allocated (`Stitching.NoImagesNoCanvas`).

## Model

| member | source | states |
|---|---|---|
| Outputs.NatToString | src/main/kotlin/stitching.kt:76-78 | the decimal text of a non-negative number is a non-empty string of digits that denotes exactly that number, with no leading zero |
| Outputs.IntToString | src/main/kotlin/stitching.kt:76-78 | the text of an Int is `-` and digits, and it denotes exactly that Int, so different values print differently |
| KotlinNumbers.Round | src/main/kotlin/bbox.kt:18-24 | `round` is within 0.5 of its argument and rounds a tie to the even integer |
| KotlinNumbers.RoundIntegral | src/main/kotlin/bbox.kt:18-24 | `round` leaves an integral value unchanged |
| KotlinNumbers.SaturateToInt | src/main/kotlin/bbox.kt:18-24 | `toInt()` keeps an `Int`-range value and clamps the rest to `Int.MIN_VALUE`/`Int.MAX_VALUE` |
| KotlinNumbers.RoundToInt | src/main/kotlin/bbox.kt:18-24 | `round(x).toInt()` is an `Int`, equals `round(x)` when that fits, and is `Int.MIN_VALUE` below the range |
| KotlinNumbers.AddInt32 | src/main/kotlin/stitching.kt:43-44 | `Int` addition stays in range, is exact without overflow and wraps by 2^32 above `Int.MAX_VALUE` |
| LinAlg.Dot | src/main/kotlin/stitching.kt:94 | every entry of the product is the row-by-column sum |
| LinAlg.DotIdentityLeft | src/main/kotlin/stitching.kt:90-94 | I . B = B |
| LinAlg.DotIdentityRight | src/main/kotlin/stitching.kt:90-94 | A . I = A |
| LinAlg.DotAssociative | src/main/kotlin/stitching.kt:89-96 | (A . B) . C = A . (B . C), so the order of the chain's multiplications is immaterial |
| LinAlg.Minus | src/main/kotlin/homography.kt:93 | the difference of two arrays has their shape and is entrywise |
| LinAlg.SumSquares | src/main/kotlin/homography.kt:93 | a sum of squares is never negative |
| LinAlg.SquaredNorm | src/main/kotlin/homography.kt:93 | the squared L2 norm is never negative |
| PointEx.PlusCommutative | src/main/kotlin/pointEx.kt:15-17 | p + q = q + p |
| PointEx.PlusAssociative | src/main/kotlin/pointEx.kt:15-17 | (p + q) + s = p + (q + s) |
| PointEx.Transform | src/main/kotlin/pointEx.kt:26-31 | throws exactly when the third homogeneous component is 0, with that exception; otherwise returns the first two components, undivided |
| PointEx.TransformThrowsExactly | src/main/kotlin/pointEx.kt:28-29 | throws iff H[2][0] x + H[2][1] y + H[2][2] = 0 |
| PointEx.TransformKeepsScale | src/main/kotlin/pointEx.kt:26-31 | if H (x, y, 1) = w (qx, qy, 1) with w nonzero, the result is (w qx, w qy), not q |
| PointEx.TransformIdentity | src/main/kotlin/pointEx.kt:27-30 | the identity leaves a point unchanged |
| PointEx.PtInt | src/main/kotlin/pointEx.kt:33-35 | `pt(Int, Int)` keeps both coordinates, converted |
| PointEx.PtDouble | src/main/kotlin/pointEx.kt:37-39 | `pt(Double, Double)` keeps both coordinates |
| PointEx.RepeatAsColumn | src/main/kotlin/pointEx.kt:41-43 | a 3 x n array whose every column is (x, y, 0) |
| PointEx.AsMk | src/main/kotlin/pointEx.kt:45-47 | the 2 x 1 column [x; y] |
| PointEx.AsMkDistance | src/main/kotlin/homography.kt:93 | the squared norm of asMk(a) - asMk(b) is the squared Euclidean distance of a and b |
| BoundingBox.MutablePoint.constructor | src/main/kotlin/bbox.kt:7-8 | a new point holds the given coordinates |
| BoundingBox.Grown | src/main/kotlin/bbox.kt:10-16 | after grow(p), min <= p <= max; min never rises and max never falls; each new coordinate is the old one or p's |
| BoundingBox.Bbox.constructor | src/main/kotlin/bbox.kt:7-8 | a new box has min (MAX_VALUE, MAX_VALUE) and max (MIN_VALUE, MIN_VALUE), in two distinct fresh objects |
| BoundingBox.Bbox.Grow | src/main/kotlin/bbox.kt:10-16 | `grow` changes only the two corner objects, to the grown extent |
| BoundingBox.Bbox.Width | src/main/kotlin/bbox.kt:18-20 | `width()` is an `Int`, and is non-negative once max >= min |
| BoundingBox.Bbox.Height | src/main/kotlin/bbox.kt:22-24 | `height()` is an `Int`, and is non-negative once max >= min |
| BoundingBox.Bbox.Min | src/main/kotlin/bbox.kt:26-28 | `min()` returns the `_min` object itself, as an alias rather than a copy |
| BoundingBox.GrowAllOrdered | src/main/kotlin/bbox.kt:10-16 | after at least one grow, max >= min in both coordinates |
| BoundingBox.GrowAllExtreme | src/main/kotlin/bbox.kt:10-16 | after a sequence of grows the box contains every point; each corner coordinate is the starting one or some point's |
| BoundingBox.GrowAllAppend | src/main/kotlin/bbox.kt:10-16 | growing with ps then qs equals growing with ps + qs |
| BoundingBox.GrowAllOrderIndependent | src/main/kotlin/bbox.kt:11-15 | the final box does not depend on the order of the points |
| BoundingBox.GrowIdempotent | src/main/kotlin/bbox.kt:11-15 | growing with the same point twice equals growing once |
| BoundingBox.MaxStaysPositive | src/main/kotlin/bbox.kt:8 | the max corner never drops below Double.MIN_VALUE > 0 |
| BoundingBox.MaxIgnoresNegativePoints | src/main/kotlin/bbox.kt:8-16 | with no point right of 0, max.x stays exactly Double.MIN_VALUE |
| BoundingBox.SizeNonNegative | src/main/kotlin/bbox.kt:18-24 | after at least one grow, width and height are non-negative |
| Homography.DrawSlot | src/main/kotlin/homography.kt:44-50 | one slot's draws throw only on a non-positive bound; an accepted value is new and in [0, maxId) |
| Homography.DrawOne | src/main/kotlin/homography.kt:44-50 | the inner `for` with `break` over the 1000 attempts computes one slot's draws |
| Homography.SampleFrom | src/main/kotlin/homography.kt:43-54 | a completed sample extends what was drawn before, has the requested size and holds distinct ids in [0, maxId) |
| Homography.RandomSample | src/main/kotlin/homography.kt:38-55 | `randomSample` starts from an empty list and returns exactly sampleSize distinct ids in [0, maxId); it is a function of its arguments alone |
| Homography.DistinctInRangeBound | src/main/kotlin/homography.kt:43-53 | distinct ids in [0, m) number at most m |
| Homography.SampleFailsWhenTooFewIds | src/main/kotlin/homography.kt:43-53 | with maxId < sampleSize, including maxId = 0, sampling throws |
| Homography.RowY | src/main/kotlin/homography.kt:139 | row 2i of A has nine entries |
| Homography.RowX | src/main/kotlin/homography.kt:140 | row 2i+1 of A has nine entries |
| Homography.DltSystem | src/main/kotlin/homography.kt:135-141 | A is 8 x 9, with rows 2i and 2i+1 built from correspondence i |
| Homography.LeadingBlock | src/main/kotlin/homography.kt:144 | `A[0..8, 0..8]` is the leading 8 x 8 block |
| Homography.LastColumn | src/main/kotlin/homography.kt:144 | `A[0..8, 8]` is the last column |
| Homography.PinLast | src/main/kotlin/homography.kt:146-152 | the 3 x 3 result holds h[0..7] row-major, followed by 1.0 |
| Homography.Dlt | src/main/kotlin/homography.kt:143-156 | a failing solve gives "Failed to solve DLT system" with the cause; a success has entry [2][2] = 1.0 |
| Homography.SetRow | src/main/kotlin/homography.kt:139-140 | assigning A[r] sets row r and leaves the other rows |
| Homography.EstimateHomography4Points | src/main/kotlin/homography.kt:118-157 | the array filled in the loop and solved is the DLT system |
| Homography.DltExactFit | src/main/kotlin/homography.kt:135-156 | when the solver returns an exact solution of the block system, the result maps every l_i to a multiple of (r_i, 1) |
| Homography.RowPairEquation | src/main/kotlin/homography.kt:139-144 | the two equations of one correspondence, solved, fix H's image of l up to the third component |
| Homography.RowYFit | src/main/kotlin/homography.kt:139 | row 2i solved exactly says h3·x + h4·y + h5 = y'·(h6·x + h7·y + 1) |
| Homography.RowXFit | src/main/kotlin/homography.kt:140 | row 2i+1 solved exactly says h0·x + h1·y + h2 = x'·(h6·x + h7·y + 1) |
| Homography.ExactFitOne | src/main/kotlin/homography.kt:139-152 | both rows of one correspondence solved exactly make the pinned H map (x, y, 1) to a multiple of (x', y', 1) |
| Homography.Support | src/main/kotlin/homography.kt:90-96 | the support counts at most the correspondences seen; a throw is transform's |
| Homography.CountSupport | src/main/kotlin/homography.kt:90-96 | the support loop computes the specified count, or the exception of the first throwing transform |
| Homography.SupportThrownStays | src/main/kotlin/homography.kt:90-96 | once a transform throws, the trial's scoring has thrown |
| Homography.Trial | src/main/kotlin/homography.kt:73-96 | a trial's support is at most the number of correspondences |
| Homography.FirstAtLeast | src/main/kotlin/homography.kt:98-104 | the first trial scoring at least s, with none before it |
| Homography.BestIsFirstMaximum | src/main/kotlin/homography.kt:98-104 | the best support is the maximum over the trials, and its model is that of the first trial reaching it: ties keep the earlier model, and stopping at full support loses nothing |
| Homography.BestOfRepeat | src/main/kotlin/homography.kt:72-105 | over identical trials, the outcome is decided by the first |
| Homography.RansacIsOneTrial | src/main/kotlin/homography.kt:62-110 | with a fresh `Random(1007)` in every trial, RANSAC is one trial: failure when it is skipped or has no inlier, its model otherwise; a throwing transform escapes |
| Homography.FewCorrespondencesFail | src/main/kotlin/homography.kt:72-110 | with fewer than 4 correspondences every trial is skipped and RANSAC fails without exception |
| Homography.RansacSuccessSolved | src/main/kotlin/homography.kt:107-110 | a success is the DLT model of a sample of 4 ids in range, solved without failure, with support > 0 |
| Homography.EstimateHomographyRansac | src/main/kotlin/homography.kt:57-111 | the loop computes the RANSAC result; unequal lengths fail at once with the size message |
| Homography.EstimateHomography | src/main/kotlin/homography.kt:28-37 | a pipeline failure is passed on with its message and cause; otherwise RANSAC runs on the correspondences |
| Matching.MatchOf | src/main/kotlin/matching.kt:38-46 | a match carries its query row, its train row, image 0 and the distance of the train row from the query row |
| Matching.MatchRows | src/main/kotlin/matching.kt:29-36 | one list per query row |
| Matching.BruteForceMatcher.constructor | src/main/kotlin/matching.kt:10 | a new matcher is untrained |
| Matching.BruteForceMatcher.Train | src/main/kotlin/matching.kt:12-18 | fewer than 2 rows throw and store nothing; otherwise the rows are stored |
| Matching.BruteForceMatcher.Match | src/main/kotlin/matching.kt:20-70 | with k defaulting to 2: untrained throws; k != 2 throws; otherwise the nested loops compute the per-row top-2 lists |
| Matching.NearestIsTopTwo | src/main/kotlin/matching.kt:48-63 | after every train row, dst holds one or two entries: dst[0] is the earliest row of least distance, and dst[1] is no farther than any other row; the size > 2 branch is never taken |
| Matching.OfferSecondKeepsTopTwo | src/main/kotlin/matching.kt:50-53 | the second train row turns the one-entry list into a pair sorted by distance |
| Matching.OfferLaterKeepsTopTwo | src/main/kotlin/matching.kt:54-61 | every later row displaces the first entry, the second entry or neither, and the top-2 rule still holds |
| Matching.MatchRowsTopTwo | src/main/kotlin/matching.kt:35-67 | every finished list follows the top-2 rule over all train rows |
| Matching.MatchEntries | src/main/kotlin/matching.kt:29-69 | with >= 2 train rows: one list of exactly 2 entries per query row, each with queryIdx = qi, imgIdx = 0, a train index in range and that row's distance |
| Keypoints.RatioTestFilter | src/main/kotlin/keypoints.kt:63-65 | the output is never longer than the input and holds only input pairs that pass the test |
| Keypoints.FilterIsSubsequence | src/main/kotlin/keypoints.kt:64 | the output is a subsequence of the input, in order |
| Keypoints.FilterKeepsExactly | src/main/kotlin/keypoints.kt:64 | each passing pair is kept as often as it occurs; every other pair is dropped |
| Keypoints.FilterAppend | src/main/kotlin/keypoints.kt:64 | filtering a concatenation concatenates the filtered parts |
| Keypoints.FilterIdempotent | src/main/kotlin/keypoints.kt:64 | filtering twice equals filtering once |
| Keypoints.PairsOf | src/main/kotlin/keypoints.kt:59 | each k-NN list becomes (element 0, element 1), in order and length; a list shorter than 2 throws at its first missing index |
| Keypoints.Firsts | src/main/kotlin/keypoints.kt:31 | the best match of every surviving pair, in order |
| Keypoints.PointsAt | src/main/kotlin/keypoints.kt:33-34 | one point per match, the key point at its index; an index out of range throws |
| Keypoints.Run | src/main/kotlin/keypoints.kt:24-39 | a failure carries the fixed message and a cause |
| Keypoints.RunAligned | src/main/kotlin/keypoints.kt:29-36 | both point lists have one entry per good match; entry k is keypoints1[m.queryIdx] and keypoints2[m.trainIdx] for the same match m |
| Keypoints.RunCatches | src/main/kotlin/keypoints.kt:25-39 | the run fails iff detection, matching or a lookup throws, with that exception as cause |
| Stitching.ChainParents | src/main/kotlin/stitching.kt:24-27 | `[-1, 0, ..., n-1]` has n+1 entries with parent[i] = i-1 |
| Stitching.ChainParentsEnds | src/main/kotlin/stitching.kt:24-27 | the walk from image i ends within i steps |
| Stitching.ChainParentsForest | src/main/kotlin/stitching.kt:24-27 | that parent list is a forest rooted at image 0 |
| Stitching.BuildEdges | src/main/kotlin/stitching.kt:70-85 | the edge loop computes the specified memo or early exit |
| Stitching.EdgesFromComplete | src/main/kotlin/stitching.kt:70-85 | a finished edge loop from i keeps the earlier edges and adds exactly (j, parent[j]) for the non-root j >= i, with their estimates |
| Stitching.EstimatedEdgesComplete | src/main/kotlin/stitching.kt:70-85 | a finished memo holds exactly one edge (i, parent[i]) per non-root image, its estimate, and every parent is -1 or an image |
| Stitching.EdgesFromFailure | src/main/kotlin/stitching.kt:71-81 | a failing edge loop from i names the first non-root image j >= i whose estimate failed, with its parent and cause; every image in [i, j) is a root or solved |
| Stitching.EdgesFromFailureStep | src/main/kotlin/stitching.kt:72-81 | one step of a failing loop: a root or a solved edge passes the same failure to the next image; a failed edge gives the message with i and parent[i] |
| Stitching.EstimatedEdgesFailure | src/main/kotlin/stitching.kt:71-81 | the first estimation failure aborts with "Failed to estimate homography for i and parent[i] images" and its cause |
| Stitching.EdgeFailureMsgNamesPair | src/main/kotlin/stitching.kt:76-78 | the estimation failure message determines its image and parent: two different pairs never give the same message |
| Stitching.Chain | src/main/kotlin/stitching.kt:89-96 | the walk fails only with "Invalid tree of images supplied" |
| Stitching.ComposeFrom | src/main/kotlin/stitching.kt:87-98 | a finished outer loop keeps what was collected and has one matrix per image |
| Stitching.ComposeChains | src/main/kotlin/stitching.kt:87-98 | the nested loops compute the composed list or the invalid-tree failure |
| Stitching.ChainFromAcc | src/main/kotlin/stitching.kt:89-96 | starting the walk from H multiplies its result by H on the left |
| Stitching.ComposeFromResult | src/main/kotlin/stitching.kt:87-98 | the composition succeeds iff every walk finds its edges, and then Hs[j] is the walk from j |
| Stitching.ComposeRecurrence | src/main/kotlin/stitching.kt:87-98 | Hs has n entries; a root gets I; a non-root i gets E(i, parent[i]) . Hs[parent[i]] |
| Stitching.ComposeChainOfThree | src/main/kotlin/stitching.kt:89-96 | for the chain 2 -> 1 -> 0, Hs[2] = E(2,1) . E(1,0) |
| Stitching.ChainWithAllEdges | src/main/kotlin/stitching.kt:91-95 | with every (p, parent[p]) in the memo the walk succeeds |
| Stitching.ForEachImg | src/main/kotlin/stitching.kt:66-101 | a success has one homography per image |
| Stitching.ForEachImgNeverInvalid | src/main/kotlin/stitching.kt:70-98 | after a successful edge loop the composer always succeeds: the invalid-tree branch is unreachable from `stitchPanorama` |
| Stitching.EstimateHomographyForEachImg | src/main/kotlin/stitching.kt:66-101 | the two loops compute `ForEachImg` |
| Stitching.CornerPoints | src/main/kotlin/stitching.kt:106-110 | the corners (0,0), (w,0), (w,h), (0,h), in that order |
| Stitching.TransformedCorners | src/main/kotlin/stitching.kt:107-110 | the four corners transformed by H, or transform's exception from a corner that throws |
| Stitching.BoxPoints | src/main/kotlin/stitching.kt:103-114 | four points per image, or transform's exception |
| Stitching.BoxPointsExact | src/main/kotlin/stitching.kt:105-111 | the box is grown with exactly the transformed corners of each image, in order, and this succeeds iff no corner transform throws |
| Stitching.EstimateResultBBox | src/main/kotlin/stitching.kt:103-114 | a fresh box, grown with exactly those points; or the exception of the first throwing transform |
| Stitching.BoxPointsThrownStays | src/main/kotlin/stitching.kt:105-111 | a thrown transform ends the bounding box |
| Stitching.BoxCoversCorners | src/main/kotlin/stitching.kt:104-113 | every transformed corner of every image lies inside the final box |
| Stitching.InvertAll | src/main/kotlin/stitching.kt:48-52 | every inverse in order, or the exception of an inversion that threw; it succeeds whenever every inversion does |
| Stitching.Claim | src/main/kotlin/stitching.kt:137-149 | the image search can only throw transform's exception |
| Stitching.ClaimIsFirstLanding | src/main/kotlin/stitching.kt:137-149 | a claimed pixel comes from the lowest-index image its rounded source point lands in, after every earlier image missed |
| Stitching.ClaimNoneIffAllMiss | src/main/kotlin/stitching.kt:137-149 | a pixel is left unclaimed iff every image misses it |
| Stitching.ClaimThrowsAtFirstThrow | src/main/kotlin/stitching.kt:137-149 | a throwing search threw at the first image that did not miss |
| Stitching.SourcePixel | src/main/kotlin/stitching.kt:137-149 | the inner loop with `break` computes that search |
| Stitching.WarpImages | src/main/kotlin/stitching.kt:120-153 | the warp throws iff some pixel's transform throws, with transform's exception; otherwise every pixel holds its claimed source pixel or keeps its old value |
| Stitching.WarpRow | src/main/kotlin/stitching.kt:134-149 | one row: it throws only when some pixel of the row throws; otherwise each pixel of the row is its claim or its old value; other rows are untouched |
| Stitching.Canvas | src/main/kotlin/stitching.kt:130-152 | the warped zero canvas has the given rows and columns |
| Stitching.CanvasPixel | src/main/kotlin/stitching.kt:134-149 | on a warp that did not throw, each canvas pixel is zero when every image misses, and otherwise the pixel under the first landing image |
| Stitching.StitchedCanvas | src/main/kotlin/stitching.kt:41-60 | a stitched result is the warped canvas of height()+1 by width()+1 over the estimated box and the inverses, with no throwing pixel |
| Stitching.CanvasIsStitched | src/main/kotlin/stitching.kt:33-61 | the converse: homographies, box points, a positive size, the inverses and a warp that does not throw give the warped canvas as the panorama |
| Stitching.StitchPanoramaTree | src/main/kotlin/stitching.kt:33-61 | `stitchPanorama(imgs, parent)` returns a fresh panorama whose pixels are the specified canvas, or the specified failure |
| Stitching.StitchPanorama | src/main/kotlin/stitching.kt:24-27 | `stitchPanorama(imgs)` is the tree version on `[-1, 0, ..., n-1]`, which is acyclic |
| Stitching.PanoramaPixel | src/main/kotlin/stitching.kt:134-149 | the panorama has height()+1 rows and width()+1 columns; each pixel is the pixel under the first image its source point lands in, or zero when every image misses |
| Stitching.StitchedFailureCauses | src/main/kotlin/stitching.kt:33-61 | failure is an estimation failure of the first failing image, an inversion failure with its cause, or a warp failure from transform; never "Invalid tree", never a partial panorama |
| Stitching.StitchedFailureSource | src/main/kotlin/stitching.kt:33-61 | a failure is the estimation's failure, the inversion failure or the warp failure |
| Stitching.NoImagesNoCanvas | src/main/kotlin/stitching.kt:41-46 | with no images, width() and height() are Int.MIN_VALUE and allocating the canvas throws |
| Stitching.SingleRootHomography | src/main/kotlin/stitching.kt:66-101 | one image with `parent = [-1]` needs no estimate and gets the identity as its homography |
| Stitching.IdentityBoxPoints | src/main/kotlin/stitching.kt:103-114 | under the identity the box is grown with the image's own four corners |
| Stitching.CornerBox | src/main/kotlin/bbox.kt:7-16 | those corners grow the new box to (0, 0)-(cols, rows): both start values are replaced |
| Stitching.IdentityCanvasSize | src/main/kotlin/stitching.kt:43-44 | on that box `height() + 1` and `width() + 1` are rows + 1 and cols + 1 |
| Stitching.InvertIdentity | src/main/kotlin/stitching.kt:48-52 | an inverter that maps I to I inverts `[I]` to `[I]` |
| Stitching.IdentityClaim | src/main/kotlin/stitching.kt:137-149 | the identity warp copies pixel (x, y) inside the image and claims nothing on row `rows` or column `cols` |
| Stitching.IdentityCanvas | src/main/kotlin/stitching.kt:120-153 | the identity warp onto the larger canvas does not throw, copies the image and leaves the extra row and column zero |
| Stitching.SingleImageStitched | src/main/kotlin/stitching.kt:33-61 | one image with `parent = [-1]` stitches to the identity warp onto the (rows + 1) x (cols + 1) canvas |
| Stitching.SingleImagePanorama | src/main/kotlin/stitching.kt:33-61 | that panorama is a success of rows + 1 by cols + 1 pixels: the image, plus a zero last row and column |

## Left out

- `OpencvImplementation` (homography.kt:163-180) is not modelled. It only wraps `Calib3d.findHomography`.
- `JvmLinAlg.solve`, `JvmLinAlg.inv` and OpenCV's `norm` are collaborators passed as functions. Their numerical behaviour is not modelled. `Homography.DltExactFit` assumes a solver that returns an exact solution.
- `java.util.Random` is an abstract deterministic stream. It is only assumed to return values in [0, bound), to throw on a non-positive bound, and to be fixed by its seed. The linear congruential generator is not reimplemented.
- Floating point is not modelled: values are exact reals. Left out with it:
  - rounding of arithmetic;
  - NaN and infinities, except in the ratio test's zero divisor (next line);
  - signed zero;
  - the `toFloat()` narrowing of match distances.
- `Keypoints.PassesRatio`: a zero second distance follows IEEE division. The test passes only when the first distance is negative, that is, when the quotient is −∞. The sign of a zero is not modelled.
- The inlier test `norm(d) < 2.0` is stated as squared norm < 4.0. The two are equivalent over the reals.
- `mk.zeros` with a non-positive dimension is assumed to throw. Its Multik exception is `Stitching.ZerosFailure`.
- Parallelism is not modelled. Warping runs the per-row body `Stitching.WarpRow` for the rows in order, in `Stitching.WarpImages`. How a parallel stream rewraps a worker's exception is left out: a warp failure carries `transform`'s exception as its cause.
- `Stitching.StitchPanoramaTree` and its spec require the parent walks to be acyclic, because the source's `while` loop never ends on a cycle. A parent list shorter than the image list is modelled (the index exception is thrown). So is a parent index out of range (the index exception is thrown).
- `Homography.RandomSample` returns the sample as a value. The source clears and fills the caller's list in place instead.
- `PointEx.RepeatAsColumn` requires n >= 1. `mk.stack` on an empty list is not modelled.
- The third image dimension (channels) is fixed at 3, and pixels are three bytes.
- When descriptor rows differ in length, OpenCV's `subtract` fails. This is not modelled: the distance is any function of two rows.
- SIFT detection and FLANN `knnMatch` are collaborators. `KeyPoint` is reduced to its location.
- Not modelled:
  - logging;
  - image I/O (io.kt);
  - array conversions (opencvInteropEx.kt);
  - the SIFT wrapper (features.kt);
  - the duplicate helpers in types.kt, modelled once in `PointEx`.
