/** `class Bbox`: the running bounding box of the transformed image
    corners, with its two mutable corner points. */
module BoundingBox {
  import opened PointEx
  import opened KotlinNumbers

  /** An OpenCV `Point` object whose `x` and `y` are assigned in place. */
  class MutablePoint {
    var x: real
    var y: real

    constructor (x0: real, y0: real)
      ensures x == x0 && y == y0
    {
      x, y := x0, y0;
    }

    /** The coordinates the object holds now. */
    function Value(): Point
      reads this
    {
      Point(x, y)
    }
  }

  /** The values held by `_min` and `_max`. */
  datatype Extent = Extent(lo: Point, hi: Point)

  /** A new box: `_min` = (MAX_VALUE, MAX_VALUE) and `_max` =
      (Double.MIN_VALUE, Double.MIN_VALUE), the smallest positive double. */
  const Initial: Extent := Extent(Point(DoubleMaxValue, DoubleMaxValue), Point(DoubleMinValue, DoubleMinValue))

  /** `java.lang.Double.min` over reals. */
  function MinOf(a: real, b: real): real { if a <= b then a else b }

  /** `java.lang.Double.max` over reals. */
  function MaxOf(a: real, b: real): real { if a >= b then a else b }

  /** The effect of `grow(p)` on the two corners. */
  function Grown(e: Extent, p: Point): (r: Extent)
    ensures r.lo.x <= p.x && r.lo.y <= p.y && r.hi.x >= p.x && r.hi.y >= p.y
    ensures r.lo.x <= e.lo.x && r.lo.y <= e.lo.y && r.hi.x >= e.hi.x && r.hi.y >= e.hi.y
    ensures r.lo.x in {e.lo.x, p.x} && r.lo.y in {e.lo.y, p.y}
    ensures r.hi.x in {e.hi.x, p.x} && r.hi.y in {e.hi.y, p.y}
  {
    Extent(Point(MinOf(e.lo.x, p.x), MinOf(e.lo.y, p.y)), Point(MaxOf(e.hi.x, p.x), MaxOf(e.hi.y, p.y)))
  }

  /** The corners after `grow` has been called with the points of `ps`, in order. */
  function GrowAll(e: Extent, ps: seq<Point>): Extent
    decreases |ps|
  {
    if ps == [] then e else GrowAll(Grown(e, ps[0]), ps[1..])
  }

  /** `width()` on given corners: `round(max.x - min.x).toInt()`. */
  function WidthOf(e: Extent): int { RoundToInt(e.hi.x - e.lo.x) }

  /** `height()` on given corners: `round(max.y - min.y).toInt()`. */
  function HeightOf(e: Extent): int { RoundToInt(e.hi.y - e.lo.y) }

  /** Once the box holds a point its max corner is not below its min corner. */
  predicate Ordered(e: Extent) { e.lo.x <= e.hi.x && e.lo.y <= e.hi.y }

  class Bbox {
    const lo: MutablePoint   // `_min`
    const hi: MutablePoint   // `_max`

    ghost predicate Valid()
      reads this
    {
      lo != hi
    }

    /** The current values of the two corners. */
    function Corners(): Extent
      reads this, lo, hi
    {
      Extent(lo.Value(), hi.Value())
    }

    constructor ()
      ensures Valid() && fresh(lo) && fresh(hi)
      ensures Corners() == Initial
    {
      lo := new MutablePoint(DoubleMaxValue, DoubleMaxValue);
      hi := new MutablePoint(DoubleMinValue, DoubleMinValue);
    }

    /** `grow(pt)`: lowers `_min` and raises `_max` to take in `pt`; only
        the two corner objects change. */
    method Grow(p: Point)
      requires Valid()
      modifies lo, hi
      ensures Valid()
      ensures Corners() == Grown(old(Corners()), p)
    {
      lo.x := MinOf(lo.x, p.x);
      lo.y := MinOf(lo.y, p.y);
      hi.x := MaxOf(hi.x, p.x);
      hi.y := MaxOf(hi.y, p.y);
    }

    /** `width()`; it is non-negative once the box holds a point. */
    function Width(): (w: int)
      reads this, lo, hi
      ensures IsInt32(w)
      ensures Ordered(Corners()) ==> w >= 0
    {
      WidthOf(Corners())
    }

    /** `height()`; it is non-negative once the box holds a point. */
    function Height(): (h: int)
      reads this, lo, hi
      ensures IsInt32(h)
      ensures Ordered(Corners()) ==> h >= 0
    {
      HeightOf(Corners())
    }

    /** `min()` hands out the `_min` object itself, not a copy: later calls
        of `grow` are visible through it. */
    function Min(): (m: MutablePoint)
      ensures m == lo
    {
      lo
    }
  }

  /** After at least one `grow` the box is ordered, whatever it held before. */
  lemma {:induction false} GrowAllOrdered(e: Extent, ps: seq<Point>)
    requires ps != [] || Ordered(e)
    ensures Ordered(GrowAll(e, ps))
    decreases |ps|
  {
    if ps != [] {
      GrowAllOrdered(Grown(e, ps[0]), ps[1..]);
    }
  }

  /** The corners after a sequence of `grow` calls are the extreme
      coordinates of the starting corners and the points. */
  lemma {:induction false} GrowAllExtreme(e: Extent, ps: seq<Point>)
    ensures var r := GrowAll(e, ps);
      && (forall p | p in ps :: r.lo.x <= p.x && r.lo.y <= p.y && r.hi.x >= p.x && r.hi.y >= p.y)
      && r.lo.x <= e.lo.x && r.lo.y <= e.lo.y && r.hi.x >= e.hi.x && r.hi.y >= e.hi.y
      && (r.lo.x == e.lo.x || exists p | p in ps :: r.lo.x == p.x)
      && (r.lo.y == e.lo.y || exists p | p in ps :: r.lo.y == p.y)
      && (r.hi.x == e.hi.x || exists p | p in ps :: r.hi.x == p.x)
      && (r.hi.y == e.hi.y || exists p | p in ps :: r.hi.y == p.y)
    decreases |ps|
  {
    if ps != [] {
      var e' := Grown(e, ps[0]);
      GrowAllExtreme(e', ps[1..]);
      assert forall p | p in ps :: p == ps[0] || p in ps[1..];
      assert forall p | p in ps[1..] :: p in ps;
    }
  }

  /** Growing with `ps` and then `qs` is growing with `ps + qs`. */
  lemma {:induction false} GrowAllAppend(e: Extent, ps: seq<Point>, qs: seq<Point>)
    ensures GrowAll(e, ps + qs) == GrowAll(GrowAll(e, ps), qs)
    decreases |ps|
  {
    if ps != [] {
      assert (ps + qs)[1..] == ps[1..] + qs;
      GrowAllAppend(Grown(e, ps[0]), ps[1..], qs);
    } else {
      assert ps + qs == qs;
    }
  }

  /** The final box does not depend on the order of the `grow` calls. */
  lemma {:induction false} GrowAllOrderIndependent(e: Extent, ps: seq<Point>, qs: seq<Point>)
    requires multiset(ps) == multiset(qs)
    ensures GrowAll(e, ps) == GrowAll(e, qs)
  {
    var r1, r2 := GrowAll(e, ps), GrowAll(e, qs);
    GrowAllExtreme(e, ps);
    GrowAllExtreme(e, qs);
    assert forall p :: p in ps <==> p in qs by {
      forall p ensures p in ps <==> p in qs {
        assert p in ps <==> p in multiset(ps);
        assert p in qs <==> p in multiset(qs);
      }
    }
    assert r1.lo.x == r2.lo.x;
    assert r1.lo.y == r2.lo.y;
    assert r1.hi.x == r2.hi.x;
    assert r1.hi.y == r2.hi.y;
  }

  /** Growing with the same point twice is the same as growing once. */
  lemma {:induction false} GrowIdempotent(e: Extent, p: Point)
    ensures Grown(Grown(e, p), p) == Grown(e, p)
  {
  }

  /** `_max` never goes below `Double.MIN_VALUE`, a positive number. */
  lemma {:induction false} MaxStaysPositive(ps: seq<Point>)
    ensures GrowAll(Initial, ps).hi.x >= DoubleMinValue > 0.0
    ensures GrowAll(Initial, ps).hi.y >= DoubleMinValue
  {
    GrowAllExtreme(Initial, ps);
  }

  /** With only points of non-positive x, `_max.x` stays at `Double.MIN_VALUE`
      instead of becoming the largest x seen. */
  lemma {:induction false} MaxIgnoresNegativePoints(ps: seq<Point>)
    requires forall p | p in ps :: p.x <= 0.0
    ensures GrowAll(Initial, ps).hi.x == DoubleMinValue
  {
    GrowAllExtreme(Initial, ps);
  }

  /** Width and height are non-negative once at least one point was grown in. */
  lemma {:induction false} SizeNonNegative(e: Extent, ps: seq<Point>)
    requires ps != []
    ensures WidthOf(GrowAll(e, ps)) >= 0 && HeightOf(GrowAll(e, ps)) >= 0
  {
    GrowAllOrdered(e, ps);
  }
}
