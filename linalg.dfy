/** The small part of Multik's linear algebra the core uses concretely:
    3x3 homographies (`mk.identity(3)`, `mk.ones(3, 3)`, `JvmLinAlg.dot`),
    and general real matrices for the point helpers. Solving and inverting
    stay with the caller as collaborators (see Homography and Stitching). */
module LinAlg {

  /** A 3x3 matrix stored row-major, the layout of `DoubleArray(9).reshape(3, 3)`. */
  type Mat3 = s: seq<real> | |s| == 9 witness [0.0, 0.0, 0.0, 0.0, 0.0, 0.0, 0.0, 0.0, 0.0]

  /** Entry [r][c]. */
  function At(h: Mat3, r: nat, c: nat): real
    requires r < 3 && c < 3
  {
    h[3 * r + c]
  }

  /** `mk.identity(3)`. */
  const Identity: Mat3 := [1.0, 0.0, 0.0, 0.0, 1.0, 0.0, 0.0, 0.0, 1.0]

  /** `mk.ones(3, 3)`. */
  const Ones: Mat3 := [1.0, 1.0, 1.0, 1.0, 1.0, 1.0, 1.0, 1.0, 1.0]

  /** Entry [r][c] of the product a . b. */
  function ProductEntry(a: Mat3, b: Mat3, r: nat, c: nat): real
    requires r < 3 && c < 3
  {
    At(a, r, 0) * At(b, 0, c) + At(a, r, 1) * At(b, 1, c) + At(a, r, 2) * At(b, 2, c)
  }

  /** `JvmLinAlg.dot(a, b)` on two 3x3 matrices. */
  function Dot(a: Mat3, b: Mat3): (p: Mat3)
    ensures forall r, c :: 0 <= r < 3 && 0 <= c < 3 ==> At(p, r, c) == ProductEntry(a, b, r, c)
  {
    [ProductEntry(a, b, 0, 0), ProductEntry(a, b, 0, 1), ProductEntry(a, b, 0, 2),
     ProductEntry(a, b, 1, 0), ProductEntry(a, b, 1, 1), ProductEntry(a, b, 1, 2),
     ProductEntry(a, b, 2, 0), ProductEntry(a, b, 2, 1), ProductEntry(a, b, 2, 2)]
  }

  /** The identity is a left unit of `Dot`: the composer's starting value
      contributes nothing. */
  lemma {:induction false} DotIdentityLeft(b: Mat3)
    ensures Dot(Identity, b) == b
  {
    var p := Dot(Identity, b);
    forall k | 0 <= k < 9 ensures p[k] == b[k] {
      assert p[k] == At(p, k / 3, k % 3);
    }
  }

  /** The identity is a right unit of `Dot`. */
  lemma {:induction false} DotIdentityRight(a: Mat3)
    ensures Dot(a, Identity) == a
  {
    var p := Dot(a, Identity);
    forall k | 0 <= k < 9 ensures p[k] == a[k] {
      assert p[k] == At(p, k / 3, k % 3);
    }
  }

  /** `Dot` is associative, so a chain of right-multiplications from the
      identity equals the product of its factors in any bracketing. */
  lemma {:induction false} DotAssociative(a: Mat3, b: Mat3, c: Mat3)
    ensures Dot(Dot(a, b), c) == Dot(a, Dot(b, c))
  {
    var p, q := Dot(Dot(a, b), c), Dot(a, Dot(b, c));
    forall k | 0 <= k < 9 ensures p[k] == q[k] {
      var r, j := k / 3, k % 3;
      assert p[k] == At(p, r, j) && q[k] == At(q, r, j);
      EntryAssociative(a, b, c, r, j);
    }
  }

  lemma {:induction false} EntryAssociative(a: Mat3, b: Mat3, c: Mat3, r: nat, j: nat)
    requires r < 3 && j < 3
    ensures ProductEntry(Dot(a, b), c, r, j) == ProductEntry(a, Dot(b, c), r, j)
  {
    var ab, bc := Dot(a, b), Dot(b, c);
    assert At(ab, r, 0) == ProductEntry(a, b, r, 0);
    assert At(ab, r, 1) == ProductEntry(a, b, r, 1);
    assert At(ab, r, 2) == ProductEntry(a, b, r, 2);
    assert At(bc, 0, j) == ProductEntry(b, c, 0, j);
    assert At(bc, 1, j) == ProductEntry(b, c, 1, j);
    assert At(bc, 2, j) == ProductEntry(b, c, 2, j);
  }

  /** A general Multik `D2Array<Double>`, as a sequence of rows. */
  type Matrix = seq<seq<real>>

  predicate HasShape(m: Matrix, rows: nat, cols: nat)
  {
    |m| == rows && forall i :: 0 <= i < rows ==> |m[i]| == cols
  }

  /** Element-wise `a - b` (Multik `minus`) on matrices of one shape. */
  function Minus(a: Matrix, b: Matrix): (d: Matrix)
    requires |a| == |b| && forall i :: 0 <= i < |a| ==> |a[i]| == |b[i]|
    ensures |d| == |a|
    ensures forall i :: 0 <= i < |a| ==> |d[i]| == |a[i]|
    ensures forall i, j :: 0 <= i < |a| && 0 <= j < |a[i]| ==> d[i][j] == a[i][j] - b[i][j]
  {
    seq(|a|, i requires 0 <= i < |a| => seq(|a[i]|, j requires 0 <= j < |a[i]| => a[i][j] - b[i][j]))
  }

  /** Sum of the squares of a row. */
  function SumSquares(row: seq<real>): (s: real)
    ensures s >= 0.0
  {
    if row == [] then 0.0 else row[0] * row[0] + SumSquares(row[1..])
  }

  /** The square of `JvmLinAlg.norm(m)`, the Frobenius norm. Comparing it
      with the square of a positive bound is the same test as comparing the
      norm with the bound, and needs no square root. */
  function SquaredNorm(m: Matrix): (s: real)
    ensures s >= 0.0
  {
    if m == [] then 0.0 else SumSquares(m[0]) + SquaredNorm(m[1..])
  }
}
