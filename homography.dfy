/** `MultikImplementation`: homography estimation by RANSAC over the 4-point
    direct linear transform. The random number generator, the 8x8 linear
    solve and the keypoint pipeline are collaborators passed in as functions. */
module Homography {
  import opened Outputs
  import opened LinAlg
  import opened PointEx
  import opened Images

  const NTrials: nat := 100
  const NSamples: nat := 4
  const Seed: int := 1007
  const PxErrorThresh: real := 2.0
  const Attempts: nat := 1000

  const SizeMismatchMsg := "estimateHomographyRANSAC: points_lhs.size() != points_rhs.size()"
  const NoConsensusMsg := "estimateHomographyRANSAC: failed to estimate homography"
  const SampleFailure: Exception := RuntimeException("Failed to sample ids")
  const BoundNotPositive: Exception := LibraryException("bound must be positive")
  const DltFailureMsg := "Failed to solve DLT system"

  // ---------------------------------------------------------------------
  // randomSample

  /** `java.util.Random`: `rng(seed, bound, k)` is the value of the k-th call
      (counting from 0) of `nextInt(bound)` on a `Random(seed)` created fresh. */
  type RandomStream = (int, int, nat) -> int

  /** `nextInt(bound)` returns a value in [0, bound) whenever bound > 0. */
  ghost predicate NextIntInRange(rng: RandomStream)
  {
    forall seed, bound, k :: bound > 0 ==> 0 <= rng(seed, bound, k) < bound
  }

  predicate Distinct(s: seq<int>)
  {
    forall i, j :: 0 <= i < j < |s| ==> s[i] != s[j]
  }

  /** One slot of `randomSample`: up to `attempts` draws, the first of them
      being call number `k` on the generator. Gives the number of calls made
      so far and the accepted value, if any. `nextInt` throws on a bound
      that is not positive. */
  function DrawSlot(rng: RandomStream, seed: int, maxId: int, dst: seq<int>, k: nat, attempts: nat)
    : (r: Try<(nat, Option<int>)>)
    requires NextIntInRange(rng)
    ensures r.Thrown? ==> attempts > 0 && maxId <= 0 && r.exception == BoundNotPositive
    ensures r.Returned? && r.value.1.Some? ==> r.value.1.value !in dst && 0 <= r.value.1.value < maxId
    decreases attempts
  {
    if attempts == 0 then Returned((k, None))
    else if maxId <= 0 then Thrown(BoundNotPositive)
    else
      var v := rng(seed, maxId, k);
      if v !in dst then Returned((k + 1, Some(v)))
      else DrawSlot(rng, seed, maxId, dst, k + 1, attempts - 1)
  }

  /** The remaining slots of `randomSample`, with `dst` filled so far and `k`
      calls made on the generator. */
  function SampleFrom(rng: RandomStream, seed: int, maxId: int, size: nat, dst: seq<int>, k: nat)
    : (r: Try<seq<int>>)
    requires NextIntInRange(rng)
    requires |dst| <= size && Distinct(dst) && forall v :: v in dst ==> 0 <= v < maxId
    ensures r.Returned? ==> |r.value| == size && Distinct(r.value) && dst <= r.value
    ensures r.Returned? ==> forall v :: v in r.value ==> 0 <= v < maxId
    decreases size - |dst|
  {
    if |dst| == size then Returned(dst)
    else match DrawSlot(rng, seed, maxId, dst, k, Attempts)
      case Thrown(e) => Thrown(e)
      case Returned((k', None)) => Thrown(SampleFailure)
      case Returned((k', Some(v))) => SampleFrom(rng, seed, maxId, size, dst + [v], k')
  }

  /** What `randomSample(dst, maxId, sampleSize, seed)` leaves in `dst`, or
      the exception it throws. A function of its arguments alone: the
      generator is created afresh from `seed` on every call. */
  function Sample(rng: RandomStream, maxId: int, size: nat, seed: int): Try<seq<int>>
    requires NextIntInRange(rng)
  {
    SampleFrom(rng, seed, maxId, size, [], 0)
  }

  /** The inner loop of `randomSample` for one slot: up to 1000 draws,
      stopping at the first value not yet in `dst`. */
  method DrawOne(rng: RandomStream, seed: int, maxId: int, dst: seq<int>, calls: nat)
    returns (r: Try<(nat, Option<int>)>)
    requires NextIntInRange(rng)
    ensures r == DrawSlot(rng, seed, maxId, dst, calls, Attempts)
  {
    var k := calls;
    for attempt := 0 to Attempts
      invariant k == calls + attempt
      invariant DrawSlot(rng, seed, maxId, dst, k, Attempts - attempt) == DrawSlot(rng, seed, maxId, dst, calls, Attempts)
    {
      if maxId <= 0 {
        return Thrown(BoundNotPositive);
      }
      var v := rng(seed, maxId, k);
      k := k + 1;
      if v !in dst {
        return Returned((k, Some(v)));
      }
    }
    return Returned((k, None));
  }

  /** `randomSample`. `dst` is cleared first, so the sample is returned
      instead of filling the caller's list. */
  method RandomSample(maxId: int, sampleSize: nat, seed: int, rng: RandomStream) returns (r: Try<seq<int>>)
    requires NextIntInRange(rng)
    ensures r == Sample(rng, maxId, sampleSize, seed)
    ensures r.Returned? ==> |r.value| == sampleSize && Distinct(r.value)
    ensures r.Returned? ==> forall v :: v in r.value ==> 0 <= v < maxId
  {
    var dst: seq<int> := [];
    var calls: nat := 0;   // calls of nextInt on the generator so far
    for i := 0 to sampleSize
      invariant |dst| == i && Distinct(dst) && forall v :: v in dst ==> 0 <= v < maxId
      invariant SampleFrom(rng, seed, maxId, sampleSize, dst, calls) == Sample(rng, maxId, sampleSize, seed)
    {
      var slot := DrawOne(rng, seed, maxId, dst, calls);
      if slot.Thrown? {
        return Thrown(slot.exception);
      }
      calls := slot.value.0;
      if slot.value.1.Some? {
        dst := dst + [slot.value.1.value];
      }
      if |dst| < i + 1 {
        return Thrown(SampleFailure);
      }
    }
    return Returned(dst);
  }

  lemma {:induction false} DistinctInRangeBound(s: seq<int>, m: nat)
    requires Distinct(s) && forall v :: v in s ==> 0 <= v < m
    ensures |s| <= m
    decreases m
  {
    if s == [] {
      return;
    }
    assert s[0] in s;
    if j :| 0 <= j < |s| && s[j] == m - 1 {
      var s' := s[..j] + s[j + 1..];
      assert forall k :: 0 <= k < |s'| ==> s'[k] == (if k < j then s[k] else s[k + 1]);
      forall v | v in s' ensures 0 <= v < m - 1 {
        var k :| 0 <= k < |s'| && s'[k] == v;
        var k0 := if k < j then k else k + 1;
        assert v == s[k0] && k0 != j && s[k0] in s;
      }
      DistinctInRangeBound(s', m - 1);
    } else {
      forall v | v in s ensures 0 <= v < m - 1 {
        var k :| 0 <= k < |s| && s[k] == v;
      }
      DistinctInRangeBound(s, m - 1);
    }
  }

  /** Fewer ids than slots: sampling always fails, whether by exhausting the
      1000 attempts or because `nextInt(0)` throws. */
  lemma {:induction false} SampleFailsWhenTooFewIds(rng: RandomStream, maxId: int, size: nat, seed: int)
    requires NextIntInRange(rng)
    requires 0 < size && maxId < size
    ensures Sample(rng, maxId, size, seed).Thrown?
  {
    var r := Sample(rng, maxId, size, seed);
    if r.Returned? && maxId >= 0 {
      DistinctInRangeBound(r.value, maxId);
    }
  }

  // ---------------------------------------------------------------------
  // estimateHomography4Points (DLT)

  /** A solution vector of the 8x8 system. */
  type Vec8 = s: seq<real> | |s| == 8 witness [0.0, 0.0, 0.0, 0.0, 0.0, 0.0, 0.0, 0.0]

  /** `JvmLinAlg.solve(a, b)`: a vector, or the exception it throws. */
  type Solver = (Matrix, seq<real>) -> Try<Vec8>

  /** The equation `A[2*i]` for the correspondence l -> r, with ws0 = ws1 = 1. */
  function RowY(l: Point, r: Point): (row: seq<real>)
    ensures |row| == 9
  {
    var (x0, y0, w0, y1, w1) := (l.x, l.y, 1.0, r.y, 1.0);
    [0.0, 0.0, 0.0, -x0 * w1, -y0 * w1, -w0 * w1, x0 * y1, y0 * y1, -w0 * y1]
  }

  /** The equation `A[2*i+1]` for the correspondence l -> r, with ws0 = ws1 = 1. */
  function RowX(l: Point, r: Point): (row: seq<real>)
    ensures |row| == 9
  {
    var (x0, y0, w0, x1, w1) := (l.x, l.y, 1.0, r.x, 1.0);
    [x0 * w1, y0 * w1, w0 * w1, 0.0, 0.0, 0.0, -x0 * x1, -y0 * x1, w0 * x1]
  }

  /** The 8x9 coefficient matrix A: two rows per correspondence. */
  function DltSystem(ls: seq<Point>, rs: seq<Point>): (a: Matrix)
    requires |ls| == 4 && |rs| == 4
    ensures HasShape(a, 8, 9)
    ensures forall i :: 0 <= i < 4 ==> a[2 * i] == RowY(ls[i], rs[i]) && a[2 * i + 1] == RowX(ls[i], rs[i])
  {
    [RowY(ls[0], rs[0]), RowX(ls[0], rs[0]), RowY(ls[1], rs[1]), RowX(ls[1], rs[1]),
     RowY(ls[2], rs[2]), RowX(ls[2], rs[2]), RowY(ls[3], rs[3]), RowX(ls[3], rs[3])]
  }

  /** `A[0..8, 0..8]`. */
  function LeadingBlock(a: Matrix): (m: Matrix)
    requires HasShape(a, 8, 9)
    ensures HasShape(m, 8, 8)
    ensures forall r, c :: 0 <= r < 8 && 0 <= c < 8 ==> m[r][c] == a[r][c]
  {
    seq(8, r requires 0 <= r < 8 => a[r][..8])
  }

  /** `A[0..8, 8]`. */
  function LastColumn(a: Matrix): (b: seq<real>)
    requires HasShape(a, 8, 9)
    ensures |b| == 8 && forall r :: 0 <= r < 8 ==> b[r] == a[r][8]
  {
    seq(8, r requires 0 <= r < 8 => a[r][8])
  }

  /** h[0..7] followed by 1.0, read row-major as a 3x3 matrix. */
  function PinLast(h: Vec8): (m: Mat3)
    ensures m[8] == 1.0 && forall k :: 0 <= k < 8 ==> m[k] == h[k]
  {
    h + [1.0]
  }

  /** The result of `estimateHomography4Points(l0..l3, r0..r3)`. */
  function Dlt(ls: seq<Point>, rs: seq<Point>, solve: Solver): (r: Output<Mat3>)
    requires |ls| == 4 && |rs| == 4
    ensures r.Failure? ==> r.msg == DltFailureMsg && r.cause.Some?
    ensures r.Success? ==> At(r.data, 2, 2) == 1.0
  {
    var a := DltSystem(ls, rs);
    match solve(LeadingBlock(a), LastColumn(a))
    case Thrown(e) => Failure(DltFailureMsg, Some(e))
    case Returned(h) => Success(PinLast(h))
  }

  /** `A[r] = row`. */
  method SetRow(a: array2<real>, r: nat, row: seq<real>)
    requires r < a.Length0 && |row| == a.Length1
    modifies a
    ensures forall j :: 0 <= j < a.Length1 ==> a[r, j] == row[j]
    ensures forall i, j :: 0 <= i < a.Length0 && 0 <= j < a.Length1 && i != r ==> a[i, j] == old(a[i, j])
  {
    forall j | 0 <= j < a.Length1 {
      a[r, j] := row[j];
    }
  }

  /** `estimateHomography4Points`: fills the 8x9 matrix A row by row, solves
      the leading 8x8 block against the last column and pins entry [2][2]
      to 1.0; a throwing solve becomes a `Failure` carrying its exception. */
  method EstimateHomography4Points(l0: Point, l1: Point, l2: Point, l3: Point,
                                   r0: Point, r1: Point, r2: Point, r3: Point,
                                   solve: Solver) returns (r: Output<Mat3>)
    ensures r == Dlt([l0, l1, l2, l3], [r0, r1, r2, r3], solve)
  {
    var ls, rs := [l0, l1, l2, l3], [r0, r1, r2, r3];
    var a := new real[8, 9]((_, _) => 0.0);
    for i := 0 to 4
      invariant forall k, j :: 0 <= k < 2 * i && 0 <= j < 9 ==> a[k, j] == DltSystem(ls, rs)[k][j]
    {
      SetRow(a, 2 * i, RowY(ls[i], rs[i]));
      SetRow(a, 2 * i + 1, RowX(ls[i], rs[i]));
    }
    var block := seq(8, k requires 0 <= k < 8 reads a => seq(8, j requires 0 <= j < 8 reads a => a[k, j]));
    var column := seq(8, k requires 0 <= k < 8 reads a => a[k, 8]);
    SliceAgrees(DltSystem(ls, rs), block, column);
    var h := solve(block, column);
    match h {
      case Thrown(e) => r := Failure(DltFailureMsg, Some(e));
      case Returned(v) => r := Success(PinLast(v));
    }
  }

  /** The slices read from the filled array are those of the system. */
  lemma {:induction false} SliceAgrees(a: Matrix, block: Matrix, column: seq<real>)
    requires HasShape(a, 8, 9) && HasShape(block, 8, 8) && |column| == 8
    requires forall k, j :: 0 <= k < 8 && 0 <= j < 8 ==> block[k][j] == a[k][j]
    requires forall k :: 0 <= k < 8 ==> column[k] == a[k][8]
    ensures block == LeadingBlock(a) && column == LastColumn(a)
  {
    forall k | 0 <= k < 8 ensures block[k] == LeadingBlock(a)[k] {
      assert forall j :: 0 <= j < 8 ==> block[k][j] == LeadingBlock(a)[k][j];
    }
  }

  /** H maps (l.x, l.y, 1) to w . (r.x, r.y, 1), w being the third
      component of the image. */
  predicate FitsUpToScale(h: Mat3, l: Point, r: Point)
  {
    var v := HomogeneousImage(l, h);
    v.0 == v.2 * r.x && v.1 == v.2 * r.y
  }

  /** Row r of `m` times `h`. */
  function RowTimes(row: seq<real>, h: Vec8): real
    requires |row| >= 8
  {
    row[0] * h[0] + row[1] * h[1] + row[2] * h[2] + row[3] * h[3]
    + row[4] * h[4] + row[5] * h[5] + row[6] * h[6] + row[7] * h[7]
  }

  /** `h` solves the system m . h == b exactly. */
  predicate Solves(m: Matrix, b: seq<real>, h: Vec8)
    requires HasShape(m, 8, 8) && |b| == 8
  {
    forall r :: 0 <= r < 8 ==> RowTimes(m[r], h) == b[r]
  }

  /** The two equations of one correspondence, solved exactly, say that H
      maps (x, y, 1) to w . (x', y', 1) for w the third component. */
  lemma {:induction false} ExactFitOne(l: Point, r: Point, h: Vec8)
    requires RowTimes(RowY(l, r), h) == RowY(l, r)[8]
    requires RowTimes(RowX(l, r), h) == RowX(l, r)[8]
    ensures FitsUpToScale(PinLast(h), l, r)
  {
    var m := PinLast(h);
    assert At(m, 2, 2) == 1.0;
    assert At(m, 0, 0) == h[0] && At(m, 0, 1) == h[1] && At(m, 0, 2) == h[2];
    assert At(m, 1, 0) == h[3] && At(m, 1, 1) == h[4] && At(m, 1, 2) == h[5];
    assert At(m, 2, 0) == h[6] && At(m, 2, 1) == h[7];
    RowYFit(l, r, h);
    RowXFit(l, r, h);
  }

  /** Equation `A[2*i]`, solved: H's second row against the scale. */
  lemma {:induction false} RowYFit(l: Point, r: Point, h: Vec8)
    requires RowTimes(RowY(l, r), h) == RowY(l, r)[8]
    ensures h[3] * l.x + h[4] * l.y + h[5] == r.y * (h[6] * l.x + h[7] * l.y + 1.0)
  {
    var ry := RowY(l, r);
    assert ry[0] == 0.0 && ry[1] == 0.0 && ry[2] == 0.0 && ry[3] == -l.x && ry[4] == -l.y && ry[5] == -1.0;
    assert ry[6] == l.x * r.y && ry[7] == l.y * r.y && ry[8] == -r.y;
    ScaledEquation(l.x, l.y, r.y, h[3], h[4], h[5], h[6], h[7]);
  }

  /** Equation `A[2*i+1]`, solved: H's first row against the scale. */
  lemma {:induction false} RowXFit(l: Point, r: Point, h: Vec8)
    requires RowTimes(RowX(l, r), h) == RowX(l, r)[8]
    ensures h[0] * l.x + h[1] * l.y + h[2] == r.x * (h[6] * l.x + h[7] * l.y + 1.0)
  {
    var rx := RowX(l, r);
    assert rx[0] == l.x && rx[1] == l.y && rx[2] == 1.0 && rx[3] == 0.0 && rx[4] == 0.0 && rx[5] == 0.0;
    assert rx[6] == -l.x * r.x && rx[7] == -l.y * r.x && rx[8] == r.x;
    ScaledEquation(l.x, l.y, r.x, h[0], h[1], h[2], h[6], h[7]);
  }

  /** One DLT row equation, rearranged: a x + b y + c = t (g x + k y + 1). */
  lemma {:induction false} ScaledEquation(x: real, y: real, t: real, a: real, b: real, c: real, g: real, k: real)
    requires (-x) * a + (-y) * b + (-1.0) * c + (x * t) * g + (y * t) * k == -t
          || x * a + y * b + 1.0 * c + (-x * t) * g + (-y * t) * k == t
    ensures a * x + b * y + c == t * (g * x + k * y + 1.0)
  {
    assert (x * t) * g == t * (g * x) && (y * t) * k == t * (k * y);
    assert (-x * t) * g == -(t * (g * x)) && (-y * t) * k == -(t * (k * y));
    assert t * (g * x + k * y + 1.0) == t * (g * x) + t * (k * y) + t;
  }

  /** Exact fit: when the solver returns an exact solution of the system,
      the DLT matrix maps each of the four left points to its right point
      up to the homogeneous scale w, and `transform` then yields
      (w x', w y'), which is the right point only where w = 1. */
  lemma {:induction false} DltExactFit(ls: seq<Point>, rs: seq<Point>, solve: Solver, i: nat)
    requires |ls| == 4 && |rs| == 4 && i < 4
    requires var a := DltSystem(ls, rs);
      solve(LeadingBlock(a), LastColumn(a)).Returned? &&
      Solves(LeadingBlock(a), LastColumn(a), solve(LeadingBlock(a), LastColumn(a)).value)
    ensures Dlt(ls, rs, solve).Success?
    ensures FitsUpToScale(Dlt(ls, rs, solve).data, ls[i], rs[i])
  {
    var a := DltSystem(ls, rs);
    var h := solve(LeadingBlock(a), LastColumn(a)).value;
    var H := PinLast(h);
    assert Dlt(ls, rs, solve) == Success(H);
    RowPairEquation(a, h, i, ls[i], rs[i]);
  }

  /** The two rows of correspondence i of a solved system give the exact fit. */
  lemma {:induction false} RowPairEquation(a: Matrix, h: Vec8, i: nat, l: Point, r: Point)
    requires HasShape(a, 8, 9) && i < 4
    requires a[2 * i] == RowY(l, r) && a[2 * i + 1] == RowX(l, r)
    requires Solves(LeadingBlock(a), LastColumn(a), h)
    ensures FitsUpToScale(PinLast(h), l, r)
  {
    RowEquation(a, h, 2 * i);
    RowEquation(a, h, 2 * i + 1);
    ExactFitOne(l, r, h);
  }

  /** Row k of a solved system, written with the full row of A. */
  lemma {:induction false} RowEquation(a: Matrix, h: Vec8, k: nat)
    requires HasShape(a, 8, 9) && k < 8
    requires Solves(LeadingBlock(a), LastColumn(a), h)
    ensures RowTimes(a[k], h) == a[k][8]
  {
    var m := LeadingBlock(a);
    assert RowTimes(m[k], h) == LastColumn(a)[k];
    assert m[k][0] == a[k][0] && m[k][1] == a[k][1] && m[k][2] == a[k][2] && m[k][3] == a[k][3];
    assert m[k][4] == a[k][4] && m[k][5] == a[k][5] && m[k][6] == a[k][6] && m[k][7] == a[k][7];
  }

  // ---------------------------------------------------------------------
  // estimateHomographyRANSAC

  /** `JvmLinAlg.norm(proj.asMk() - target.asMk()) < pxErrorThresh`, compared
      through squares. */
  predicate IsInlier(proj: Point, target: Point)
  {
    SquaredNorm(Minus(AsMk(proj), AsMk(target))) < PxErrorThresh * PxErrorThresh
  }

  /** The support of H over the first k correspondences, or the exception
      of the first `transform` that throws. */
  function Support(lhs: seq<Point>, rhs: seq<Point>, h: Mat3, k: nat): (r: Try<nat>)
    requires |lhs| == |rhs| && k <= |lhs|
    ensures r.Returned? ==> r.value <= k
    ensures r.Thrown? ==> r.exception == TransformError
  {
    if k == 0 then Returned(0)
    else match Support(lhs, rhs, h, k - 1)
      case Thrown(e) => Thrown(e)
      case Returned(c) =>
        match Transform(lhs[k - 1], h)
        case Thrown(e) => Thrown(e)
        case Returned(p) => Returned(c + if IsInlier(p, rhs[k - 1]) then 1 else 0)
  }

  /** Once a `transform` has thrown, the scoring loop never completes. */
  lemma {:induction false} SupportThrownStays(lhs: seq<Point>, rhs: seq<Point>, h: Mat3, k: nat, k': nat)
    requires |lhs| == |rhs| && k <= k' <= |lhs|
    requires Support(lhs, rhs, h, k).Thrown?
    ensures Support(lhs, rhs, h, k') == Support(lhs, rhs, h, k)
    decreases k' - k
  {
    if k' > k {
      SupportThrownStays(lhs, rhs, h, k, k' - 1);
    }
  }

  /** What one RANSAC trial contributes. */
  datatype TrialResult =
    | Skipped                           // sampling or solving failed: `continue`
    | Scored(h: Mat3, support: nat)     // a candidate and its support
    | Aborted(exception: Exception)     // `transform` threw while scoring

  /** One trial of `estimateHomographyRANSAC`. It has no trial number: the
      sample comes from a generator created afresh with the same seed. */
  function Trial(lhs: seq<Point>, rhs: seq<Point>, rng: RandomStream, solve: Solver): (t: TrialResult)
    requires |lhs| == |rhs| && NextIntInRange(rng)
    ensures t.Scored? ==> t.support <= |lhs|
  {
    match Sample(rng, |lhs|, NSamples, Seed)
    case Thrown(_) => Skipped
    case Returned(s) =>
      assert s[0] in s && s[1] in s && s[2] in s && s[3] in s;
      match Dlt([lhs[s[0]], lhs[s[1]], lhs[s[2]], lhs[s[3]]], [rhs[s[0]], rhs[s[1]], rhs[s[2]], rhs[s[3]]], solve)
      case Failure(_, _) => Skipped
      case Success(h) =>
        match Support(lhs, rhs, h, |lhs|)
        case Thrown(e) => Aborted(e)
        case Returned(c) => Scored(h, c)
  }

  /** The best model after the remaining trials `ts`, from a best
      (support, h) so far: replaced only on strictly greater support, with an
      early stop once the support covers all n correspondences. */
  function Best(ts: seq<TrialResult>, n: nat, support: nat, h: Mat3): Try<(nat, Mat3)>
    decreases |ts|
  {
    if ts == [] then Returned((support, h))
    else match ts[0]
      case Aborted(e) => Thrown(e)
      case Skipped => Best(ts[1..], n, support, h)
      case Scored(h', s) =>
        if s > support then
          if s == n then Returned((s, h')) else Best(ts[1..], n, s, h')
        else Best(ts[1..], n, support, h)
  }

  /** The result of `estimateHomographyRANSAC(lhs, rhs)`. */
  function Ransac(lhs: seq<Point>, rhs: seq<Point>, rng: RandomStream, solve: Solver): Try<Output<Mat3>>
    requires NextIntInRange(rng)
  {
    if |lhs| != |rhs| then Returned(Failure(SizeMismatchMsg, None))
    else
      var t := Trial(lhs, rhs, rng, solve);
      match Best(seq(NTrials, _ => t), |lhs|, 0, Ones)
      case Thrown(e) => Thrown(e)
      case Returned((support, h)) =>
        Returned(if support == 0 then Failure(NoConsensusMsg, None) else Success(h))
  }

  /** The best support over the trials, 0 for none scored. */
  function MaxScore(ts: seq<TrialResult>): nat
  {
    if ts == [] then 0
    else
      var s := if ts[0].Scored? then ts[0].support else 0;
      var rest := MaxScore(ts[1..]);
      if s > rest then s else rest
  }

  /** Index of the first scored trial with support at least s, or |ts|. */
  function FirstAtLeast(ts: seq<TrialResult>, s: nat): (j: nat)
    ensures j <= |ts|
    ensures j < |ts| ==> ts[j].Scored? && ts[j].support >= s
    ensures forall k :: 0 <= k < j ==> !(ts[k].Scored? && ts[k].support >= s)
  {
    if ts == [] then 0
    else if ts[0].Scored? && ts[0].support >= s then 0
    else 1 + FirstAtLeast(ts[1..], s)
  }

  lemma {:induction false} MaxScoreBound(ts: seq<TrialResult>, n: nat)
    requires forall k :: 0 <= k < |ts| && ts[k].Scored? ==> ts[k].support <= n
    ensures MaxScore(ts) <= n
  {
    if ts != [] {
      MaxScoreBound(ts[1..], n);
    }
  }

  /** The selection rule: with no aborted trial, the best support is the
      maximum over the trials (or the starting one), and its model is that
      of the FIRST trial reaching it: replacement on strictly greater support
      keeps the earlier of two equal models, and stopping at full support n
      loses nothing, as no trial can exceed n. */
  lemma {:induction false} BestIsFirstMaximum(ts: seq<TrialResult>, n: nat, support: nat, h: Mat3)
    requires support <= n
    requires forall k :: 0 <= k < |ts| ==> !ts[k].Aborted?
    requires forall k :: 0 <= k < |ts| && ts[k].Scored? ==> ts[k].support <= n
    ensures Best(ts, n, support, h).Returned?
    ensures var (s, _) := Best(ts, n, support, h).value;
      s == if support >= MaxScore(ts) then support else MaxScore(ts)
    ensures var (s, h') := Best(ts, n, support, h).value;
      s == support ==> h' == h
    ensures var (s, h') := Best(ts, n, support, h).value;
      s > support ==> FirstAtLeast(ts, s) < |ts| && ts[FirstAtLeast(ts, s)] == Scored(h', s)
    decreases |ts|
  {
    if ts == [] {
      return;
    }
    assert !ts[0].Aborted?;
    var rest := ts[1..];
    assert forall k :: 0 <= k < |rest| ==> rest[k] == ts[k + 1];
    MaxScoreBound(rest, n);
    match ts[0]
    case Skipped =>
      BestIsFirstMaximum(rest, n, support, h);
    case Scored(h0, s0) =>
      if s0 > support {
        if s0 < n {
          BestIsFirstMaximum(rest, n, s0, h0);
        }
      } else {
        BestIsFirstMaximum(rest, n, support, h);
      }
  }

  /** Trials all alike: the outcome is decided by the first of them. */
  lemma {:induction false} BestOfRepeat(t: TrialResult, m: nat, n: nat, support: nat, h: Mat3)
    requires m > 0
    ensures Best(seq(m, _ => t), n, support, h) ==
      match t
      case Aborted(e) => Thrown(e)
      case Skipped => Returned((support, h))
      case Scored(h', s) => if s > support then Returned((s, h')) else Returned((support, h))
  {
    var ts := seq(m, _ => t);
    assert ts[0] == t;
    if m > 1 {
      assert ts[1..] == seq(m - 1, _ => t);
      match t
      case Aborted(_) =>
      case Skipped =>
        BestOfRepeat(t, m - 1, n, support, h);
      case Scored(h', s) =>
        if s > support {
          BestOfRepeat(t, m - 1, n, s, h');
        } else {
          BestOfRepeat(t, m - 1, n, support, h);
        }
    } else {
      assert ts[1..] == [];
    }
  }

  /** With the seed fixed and the generator created afresh for every sample,
      all 100 trials draw the same ids: RANSAC is one trial. It fails when
      that trial is skipped or scores no inlier, succeeds with the trial's
      model otherwise, and passes on the exception of a throwing `transform`. */
  lemma {:induction false} RansacIsOneTrial(lhs: seq<Point>, rhs: seq<Point>, rng: RandomStream, solve: Solver)
    requires |lhs| == |rhs| && NextIntInRange(rng)
    ensures var t := Trial(lhs, rhs, rng, solve);
      Ransac(lhs, rhs, rng, solve) ==
        match t
        case Aborted(e) => Thrown(e)
        case Skipped => Returned(Failure(NoConsensusMsg, None))
        case Scored(h, s) => Returned(if s == 0 then Failure(NoConsensusMsg, None) else Success(h))
  {
    BestOfRepeat(Trial(lhs, rhs, rng, solve), NTrials, |lhs|, 0, Ones);
  }

  /** Fewer than four correspondences: no sample of four distinct ids
      exists, every trial is skipped, and RANSAC fails without an exception. */
  lemma {:induction false} FewCorrespondencesFail(lhs: seq<Point>, rhs: seq<Point>, rng: RandomStream, solve: Solver)
    requires |lhs| == |rhs| < NSamples && NextIntInRange(rng)
    ensures Ransac(lhs, rhs, rng, solve) == Returned(Failure(NoConsensusMsg, None))
  {
    SampleFailsWhenTooFewIds(rng, |lhs|, NSamples, Seed);
    RansacIsOneTrial(lhs, rhs, rng, solve);
  }

  /** A successful RANSAC result is the DLT model of the (single) sample,
      solved without failure and supported by at least one correspondence. */
  lemma {:induction false} RansacSuccessSolved(lhs: seq<Point>, rhs: seq<Point>, rng: RandomStream, solve: Solver)
    requires |lhs| == |rhs| && NextIntInRange(rng)
    requires Ransac(lhs, rhs, rng, solve).Returned? && Ransac(lhs, rhs, rng, solve).value.Success?
    ensures var s := Sample(rng, |lhs|, NSamples, Seed);
      s.Returned? && |s.value| == 4 &&
      (forall k :: 0 <= k < 4 ==> 0 <= s.value[k] < |lhs|) &&
      var ids := s.value;
      var d := Dlt([lhs[ids[0]], lhs[ids[1]], lhs[ids[2]], lhs[ids[3]]],
                   [rhs[ids[0]], rhs[ids[1]], rhs[ids[2]], rhs[ids[3]]], solve);
      d == Success(Ransac(lhs, rhs, rng, solve).value.data) &&
      Support(lhs, rhs, d.data, |lhs|).Returned? && Support(lhs, rhs, d.data, |lhs|).value > 0
  {
    RansacIsOneTrial(lhs, rhs, rng, solve);
    var s := Sample(rng, |lhs|, NSamples, Seed);
    assert s.Returned?;
    assert s.value[0] in s.value && s.value[1] in s.value && s.value[2] in s.value && s.value[3] in s.value;
  }

  /** The support loop of one trial: inliers among all correspondences, or
      the exception of the first throwing `transform`. */
  method CountSupport(lhs: seq<Point>, rhs: seq<Point>, h: Mat3) returns (r: Try<nat>)
    requires |lhs| == |rhs|
    ensures r == Support(lhs, rhs, h, |lhs|)
  {
    var support: nat := 0;
    for idx := 0 to |lhs|
      invariant Support(lhs, rhs, h, idx) == Returned(support)
    {
      var proj := Transform(lhs[idx], h);
      if proj.Thrown? {
        SupportThrownStays(lhs, rhs, h, idx + 1, |lhs|);
        return Thrown(proj.exception);
      }
      if IsInlier(proj.value, rhs[idx]) {
        support := support + 1;
      }
    }
    return Returned(support);
  }

  /** `estimateHomographyRANSAC`. */
  method EstimateHomographyRansac(lhs: seq<Point>, rhs: seq<Point>, rng: RandomStream, solve: Solver)
    returns (r: Try<Output<Mat3>>)
    requires NextIntInRange(rng)
    ensures r == Ransac(lhs, rhs, rng, solve)
    ensures |lhs| != |rhs| ==> r == Returned(Failure(SizeMismatchMsg, None))
  {
    if |lhs| != |rhs| {
      return Returned(Failure(SizeMismatchMsg, None));
    }
    var nMatches := |lhs|;
    var bestSupport: nat := 0;
    var bestH := Ones;
    ghost var t := Trial(lhs, rhs, rng, solve);
    ghost var trials := seq(NTrials, _ => t);
    for trial := 0 to NTrials
      invariant Best(trials[trial..], nMatches, bestSupport, bestH) == Best(trials, nMatches, 0, Ones)
    {
      assert trials[trial..][0] == t;
      var sample := RandomSample(nMatches, NSamples, Seed, rng);
      if sample.Thrown? {
        continue;
      }
      var s := sample.value;
      assert s[0] in s && s[1] in s && s[2] in s && s[3] in s;
      var result := EstimateHomography4Points(lhs[s[0]], lhs[s[1]], lhs[s[2]], lhs[s[3]],
                                              rhs[s[0]], rhs[s[1]], rhs[s[2]], rhs[s[3]], solve);
      if result.Failure? {
        continue;
      }
      var h := result.data;
      var counted := CountSupport(lhs, rhs, h);
      if counted.Thrown? {
        return Thrown(counted.exception);
      }
      var support := counted.value;
      if support > bestSupport {
        bestSupport := support;
        bestH := h;
        if bestSupport == nMatches {
          break;
        }
      }
    }
    if bestSupport == 0 {
      r := Returned(Failure(NoConsensusMsg, None));
    } else {
      r := Returned(Success(bestH));
    }
  }

  /** Keypoint matching as `MultikImplementation` consumes it. */
  type KeypointsPipeline = (Image, Image) -> Output<(seq<Point>, seq<Point>)>

  /** `MultikImplementation.estimateHomography(img1, img2)`: a failure of the
      keypoint pipeline is passed on with its message and cause; otherwise
      RANSAC runs on the correspondences. */
  method EstimateHomography(img1: Image, img2: Image, pipeline: KeypointsPipeline,
                            rng: RandomStream, solve: Solver) returns (r: Try<Output<Mat3>>)
    requires NextIntInRange(rng)
    ensures pipeline(img1, img2).Failure? ==>
      r == Returned(Failure(pipeline(img1, img2).msg, pipeline(img1, img2).cause))
    ensures pipeline(img1, img2).Success? ==>
      r == Ransac(pipeline(img1, img2).data.0, pipeline(img1, img2).data.1, rng, solve)
  {
    var result := pipeline(img1, img2);
    match result {
      case Failure(msg, e) => return Returned(Failure(msg, e));
      case Success((points1, points2)) => r := EstimateHomographyRansac(points1, points2, rng, solve);
    }
  }
}
