/** The extension functions on OpenCV's `Point` used by the core:
    `plus`, `transform`, the two `pt` overloads, `repeatAsColumn`, `asMk`. */
module PointEx {
  import opened Outputs
  import opened LinAlg

  /** An OpenCV `Point` read by value: two doubles. */
  datatype Point = Point(x: real, y: real)

  /** `operator fun Point.plus`: component-wise addition. */
  function Plus(p: Point, q: Point): (r: Point)
  {
    Point(p.x + q.x, p.y + q.y)
  }

  lemma {:induction false} PlusCommutative(p: Point, q: Point)
    ensures Plus(p, q) == Plus(q, p)
  {
  }

  lemma {:induction false} PlusAssociative(p: Point, q: Point, s: Point)
    ensures Plus(Plus(p, q), s) == Plus(p, Plus(q, s))
  {
  }

  /** The homogeneous product H . (x, y, 1) as a column (a, b, w). */
  function HomogeneousImage(p: Point, h: Mat3): (v: (real, real, real))
  {
    (At(h, 0, 0) * p.x + At(h, 0, 1) * p.y + At(h, 0, 2) * 1.0,
     At(h, 1, 0) * p.x + At(h, 1, 1) * p.y + At(h, 1, 2) * 1.0,
     At(h, 2, 0) * p.x + At(h, 2, 1) * p.y + At(h, 2, 2) * 1.0)
  }

  /** The exception `transform` throws on a zero third component. */
  const TransformError: Exception := RuntimeException("Invalid result of homogenous transform")

  /** `infix fun Point.transform(H)`: the first two components of
      H . (x, y, 1). It throws when the third component is zero and does NOT
      divide by it otherwise. */
  function Transform(p: Point, h: Mat3): (r: Try<Point>)
    ensures r.Thrown? <==> HomogeneousImage(p, h).2 == 0.0
    ensures r.Thrown? ==> r.exception == TransformError
    ensures r.Returned? ==> r.value == Point(HomogeneousImage(p, h).0, HomogeneousImage(p, h).1)
  {
    var v := HomogeneousImage(p, h);
    if v.2 == 0.0 then Thrown(TransformError) else Returned(Point(v.0, v.1))
  }

  /** The condition under which `transform` throws, written out. */
  lemma {:induction false} TransformThrowsExactly(p: Point, h: Mat3)
    ensures Transform(p, h).Thrown? <==> h[6] * p.x + h[7] * p.y + h[8] == 0.0
  {
  }

  /** No dehomogenisation: with third component w != 0 the result is
      (w x', w y') for the projective image (x', y'), not (x', y'). */
  lemma {:induction false} TransformKeepsScale(p: Point, h: Mat3, q: Point, w: real)
    requires w != 0.0
    requires HomogeneousImage(p, h) == (w * q.x, w * q.y, w)
    ensures Transform(p, h) == Returned(Point(w * q.x, w * q.y))
  {
  }

  /** Transforming by the identity returns the point unchanged. */
  lemma {:induction false} TransformIdentity(p: Point)
    ensures Transform(p, Identity) == Returned(p)
  {
    assert Identity[0] == 1.0 && Identity[1] == 0.0 && Identity[2] == 0.0;
    assert Identity[3] == 0.0 && Identity[4] == 1.0 && Identity[5] == 0.0;
    assert Identity[6] == 0.0 && Identity[7] == 0.0 && Identity[8] == 1.0;
  }

  /** `pt(x: Int, y: Int)`: the same coordinates as doubles. */
  function PtInt(x: int, y: int): (p: Point)
    ensures p.x == x as real && p.y == y as real
  {
    Point(x as real, y as real)
  }

  /** `pt(x: Double, y: Double)`: plain construction. */
  function PtDouble(x: real, y: real): (p: Point)
    ensures p.x == x && p.y == y
  {
    Point(x, y)
  }

  /** `Point.repeatAsColumn(n)`: a 3 x n matrix whose every column is (x, y, 0). */
  function RepeatAsColumn(p: Point, n: nat): (m: Matrix)
    requires n >= 1
    ensures HasShape(m, 3, n)
    ensures forall j :: 0 <= j < n ==> m[0][j] == p.x && m[1][j] == p.y && m[2][j] == 0.0
  {
    var column := [p.x, p.y, 0.0];
    seq(3, i requires 0 <= i < 3 => seq(n, j => column[i]))
  }

  /** `Point.asMk()`: the 2 x 1 column [x; y]. */
  function AsMk(p: Point): (m: Matrix)
    ensures HasShape(m, 2, 1) && m[0][0] == p.x && m[1][0] == p.y
  {
    [[p.x], [p.y]]
  }

  /** `JvmLinAlg.norm(a.asMk() - b.asMk())`, squared, is the squared
      Euclidean distance of the two points. */
  lemma {:induction false} AsMkDistance(a: Point, b: Point)
    ensures SquaredNorm(Minus(AsMk(a), AsMk(b))) == (a.x - b.x) * (a.x - b.x) + (a.y - b.y) * (a.y - b.y)
  {
    var d := Minus(AsMk(a), AsMk(b));
    assert d[0] == [a.x - b.x] && d[1] == [a.y - b.y];
    assert d[1..][1..] == [];
    assert SumSquares(d[0][1..]) == 0.0 && SumSquares(d[1][1..]) == 0.0;
    assert SumSquares(d[0]) == (a.x - b.x) * (a.x - b.x);
    assert SumSquares(d[1..][0]) == (a.y - b.y) * (a.y - b.y);
    assert SquaredNorm(d[1..]) == SumSquares(d[1..][0]) + SquaredNorm(d[1..][1..]);
  }
}
