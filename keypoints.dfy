/** `OpencvKeypointsPipeline.run`, `OpencvFlannMatcher.match` and
    `ratioTestFilter`: from two images to two index-aligned lists of
    corresponding points. SIFT detection and FLANN k-NN matching are
    collaborators passed in as functions. */
module Keypoints {
  import opened Outputs
  import opened PointEx
  import opened Images
  import opened Matching

  /** An OpenCV `KeyPoint`; only its location is used. */
  datatype KeyPoint = KeyPoint(pt: Point)

  /** `detector.detectAndCompute(img)`: key points and their descriptors. */
  type Detector = Image -> Try<(seq<KeyPoint>, seq<Row>)>

  /** `matcher.knnMatch(descriptors1, descriptors2, matches, 2)`. */
  type KnnMatcher = (seq<Row>, seq<Row>) -> Try<seq<seq<DMatch>>>

  /** The best and the second-best match of one query descriptor. */
  type MatchPair = (DMatch, DMatch)

  /** `0.7f`, the Float nearest to 0.7. */
  const DefaultRatio: real := 0.699999988079071044921875

  const PipelineFailureMsg := "Failed to find corresponding keypoint on two images"

  // ---------------------------------------------------------------------
  // ratioTestFilter

  /** `it.first.distance / it.second.distance < ratio`. Dividing by a zero
      second distance gives +infinity, NaN or -infinity as the first is
      positive, zero or negative, so only the last passes. */
  predicate PassesRatio(p: MatchPair, ratio: real)
  {
    if p.1.distance == 0.0 then p.0.distance < 0.0
    else p.0.distance / p.1.distance < ratio
  }

  /** `ratioTestFilter(ratio)`: `filter` with the ratio test. */
  function RatioTestFilter(pairs: seq<MatchPair>, ratio: real): (r: seq<MatchPair>)
    ensures |r| <= |pairs|
    ensures forall p :: p in r ==> p in pairs && PassesRatio(p, ratio)
  {
    if pairs == [] then []
    else
      var rest := RatioTestFilter(pairs[1..], ratio);
      if PassesRatio(pairs[0], ratio) then [pairs[0]] + rest else rest
  }

  /** s is obtained from t by deleting elements: order is preserved. */
  predicate IsSubsequence<T(==)>(s: seq<T>, t: seq<T>)
    decreases |t|
  {
    if s == [] then true
    else if t == [] then false
    else if s[0] == t[0] then IsSubsequence(s[1..], t[1..])
    else IsSubsequence(s, t[1..])
  }

  /** The filter keeps the surviving pairs in their original order. */
  lemma {:induction false} FilterIsSubsequence(pairs: seq<MatchPair>, ratio: real)
    ensures IsSubsequence(RatioTestFilter(pairs, ratio), pairs)
  {
    if pairs != [] {
      FilterIsSubsequence(pairs[1..], ratio);
      var rest := RatioTestFilter(pairs[1..], ratio);
      if PassesRatio(pairs[0], ratio) {
        assert ([pairs[0]] + rest)[1..] == rest;
      } else if rest != [] {
        assert rest[0] in rest;
      }
    }
  }

  /** Exactly the pairs passing the test are kept, each as often as it occurs. */
  lemma {:induction false} FilterKeepsExactly(pairs: seq<MatchPair>, ratio: real)
    ensures forall p :: multiset(RatioTestFilter(pairs, ratio))[p] ==
                        (if PassesRatio(p, ratio) then multiset(pairs)[p] else 0)
  {
    if pairs != [] {
      FilterKeepsExactly(pairs[1..], ratio);
      assert pairs == [pairs[0]] + pairs[1..];
    }
  }

  /** Filtering commutes with concatenation. */
  lemma {:induction false} FilterAppend(a: seq<MatchPair>, b: seq<MatchPair>, ratio: real)
    ensures RatioTestFilter(a + b, ratio) == RatioTestFilter(a, ratio) + RatioTestFilter(b, ratio)
  {
    if a == [] {
      assert a + b == b;
    } else {
      assert (a + b)[0] == a[0] && (a + b)[1..] == a[1..] + b;
      FilterAppend(a[1..], b, ratio);
    }
  }

  /** Filtering twice keeps what filtering once keeps. */
  lemma {:induction false} FilterIdempotent(pairs: seq<MatchPair>, ratio: real)
    ensures RatioTestFilter(RatioTestFilter(pairs, ratio), ratio) == RatioTestFilter(pairs, ratio)
  {
    if pairs != [] {
      FilterIdempotent(pairs[1..], ratio);
      var rest := RatioTestFilter(pairs[1..], ratio);
      if PassesRatio(pairs[0], ratio) {
        assert ([pairs[0]] + rest)[0] == pairs[0] && ([pairs[0]] + rest)[1..] == rest;
      }
    }
  }

  // ---------------------------------------------------------------------
  // OpencvFlannMatcher.match

  /** `map { it[0] to it[1] }`: element 0 and element 1 of every k-NN list;
      a list shorter than two throws at the first missing index. */
  function PairsOf(knn: seq<seq<DMatch>>): (r: Try<seq<MatchPair>>)
    ensures r.Returned? ==> |r.value| == |knn|
    ensures r.Returned? ==> forall k :: 0 <= k < |knn| ==> |knn[k]| >= 2 && r.value[k] == (knn[k][0], knn[k][1])
    ensures r.Thrown? ==> exists k :: 0 <= k < |knn| && |knn[k]| < 2 && r.exception == IndexOutOfBounds(|knn[k]|)
    ensures (forall k :: 0 <= k < |knn| ==> |knn[k]| >= 2) ==> r.Returned?
  {
    if knn == [] then Returned([])
    else if |knn[0]| < 2 then Thrown(IndexOutOfBounds(|knn[0]|))
    else match PairsOf(knn[1..])
      case Thrown(e) =>
        var k :| 0 <= k < |knn[1..]| && |knn[1..][k]| < 2 && e == IndexOutOfBounds(|knn[1..][k]|);
        assert knn[k + 1] == knn[1..][k];
        Thrown(e)
      case Returned(ps) =>
        assert forall k :: 1 <= k < |knn| ==> knn[k] == knn[1..][k - 1];
        Returned([(knn[0][0], knn[0][1])] + ps)
  }

  /** `OpencvFlannMatcher.match(descriptors1, descriptors2)`. */
  function FlannMatch(d1: seq<Row>, d2: seq<Row>, knn: KnnMatcher): Try<seq<MatchPair>>
  {
    match knn(d1, d2)
    case Thrown(e) => Thrown(e)
    case Returned(lists) => PairsOf(lists)
  }

  // ---------------------------------------------------------------------
  // OpencvKeypointsPipeline.run

  /** `map { it.first }`. */
  function Firsts(pairs: seq<MatchPair>): (ms: seq<DMatch>)
    ensures |ms| == |pairs| && forall k :: 0 <= k < |pairs| ==> ms[k] == pairs[k].0
  {
    seq(|pairs|, k requires 0 <= k < |pairs| => pairs[k].0)
  }

  /** `matches.map { kps[idx(it)].pt }`; an index outside `kps` throws. */
  function PointsAt(ms: seq<DMatch>, kps: seq<KeyPoint>, idx: DMatch -> int): (r: Try<seq<Point>>)
    ensures r.Returned? ==> |r.value| == |ms|
    ensures r.Returned? ==> forall k :: 0 <= k < |ms| ==> 0 <= idx(ms[k]) < |kps| && r.value[k] == kps[idx(ms[k])].pt
    ensures r.Thrown? ==> exists k :: 0 <= k < |ms| && !(0 <= idx(ms[k]) < |kps|) && r.exception == IndexOutOfBounds(idx(ms[k]))
  {
    if ms == [] then Returned([])
    else if !(0 <= idx(ms[0]) < |kps|) then Thrown(IndexOutOfBounds(idx(ms[0])))
    else match PointsAt(ms[1..], kps, idx)
      case Thrown(e) =>
        var k :| 0 <= k < |ms[1..]| && !(0 <= idx(ms[1..][k]) < |kps|) && e == IndexOutOfBounds(idx(ms[1..][k]));
        assert ms[k + 1] == ms[1..][k];
        Thrown(e)
      case Returned(ps) =>
        assert forall k :: 1 <= k < |ms| ==> ms[k] == ms[1..][k - 1];
        Returned([kps[idx(ms[0])].pt] + ps)
  }

  /** The best match of every pair that passes the ratio test with 0.7f. */
  function GoodMatches(pairs: seq<MatchPair>): seq<DMatch>
  {
    Firsts(RatioTestFilter(pairs, DefaultRatio))
  }

  /** The body of the `try` in `run`, or the exception that escapes it. */
  function Correspondences(img1: Image, img2: Image, detect: Detector, knn: KnnMatcher)
    : Try<(seq<Point>, seq<Point>)>
  {
    match detect(img1)
    case Thrown(e) => Thrown(e)
    case Returned((keypoints1, descriptors1)) =>
      match detect(img2)
      case Thrown(e) => Thrown(e)
      case Returned((keypoints2, descriptors2)) =>
        match FlannMatch(descriptors1, descriptors2, knn)
        case Thrown(e) => Thrown(e)
        case Returned(pairs) =>
          var matches := GoodMatches(pairs);
          match PointsAt(matches, keypoints1, (m: DMatch) => m.queryIdx)
          case Thrown(e) => Thrown(e)
          case Returned(points1) =>
            match PointsAt(matches, keypoints2, (m: DMatch) => m.trainIdx)
            case Thrown(e) => Thrown(e)
            case Returned(points2) => Returned((points1, points2))
  }

  /** `OpencvKeypointsPipeline.run(img1, img2)`: the correspondences, or a
      failure carrying the exception raised on the way. */
  function Run(img1: Image, img2: Image, detect: Detector, knn: KnnMatcher): (r: Output<(seq<Point>, seq<Point>)>)
    ensures r.Failure? ==> r.msg == PipelineFailureMsg && r.cause.Some?
  {
    match Correspondences(img1, img2, detect, knn)
    case Thrown(e) => Failure(PipelineFailureMsg, Some(e))
    case Returned(points) => Success(points)
  }

  /** The two point lists are index-aligned: entry k of each is the
      location, in its own image, of the k-th good match. */
  lemma {:induction false} RunAligned(img1: Image, img2: Image, detect: Detector, knn: KnnMatcher,
                                      keypoints1: seq<KeyPoint>, descriptors1: seq<Row>,
                                      keypoints2: seq<KeyPoint>, descriptors2: seq<Row>,
                                      pairs: seq<MatchPair>)
    requires detect(img1) == Returned((keypoints1, descriptors1))
    requires detect(img2) == Returned((keypoints2, descriptors2))
    requires FlannMatch(descriptors1, descriptors2, knn) == Returned(pairs)
    requires Run(img1, img2, detect, knn).Success?
    ensures var (points1, points2) := Run(img1, img2, detect, knn).data;
      var ms := GoodMatches(pairs);
      && |points1| == |ms| && |points2| == |ms|
      && forall k :: 0 <= k < |ms| ==>
           && 0 <= ms[k].queryIdx < |keypoints1| && points1[k] == keypoints1[ms[k].queryIdx].pt
           && 0 <= ms[k].trainIdx < |keypoints2| && points2[k] == keypoints2[ms[k].trainIdx].pt
  {
  }

  /** Any exception while detecting, matching or looking up key points
      becomes the pipeline's failure with that exception as cause. */
  lemma {:induction false} RunCatches(img1: Image, img2: Image, detect: Detector, knn: KnnMatcher)
    ensures Correspondences(img1, img2, detect, knn).Thrown? <==> Run(img1, img2, detect, knn).Failure?
    ensures Correspondences(img1, img2, detect, knn).Thrown? ==>
      Run(img1, img2, detect, knn) == Failure(PipelineFailureMsg, Some(Correspondences(img1, img2, detect, knn).exception))
    ensures detect(img1).Thrown? ==> Run(img1, img2, detect, knn) == Failure(PipelineFailureMsg, Some(detect(img1).exception))
  {
  }
}
