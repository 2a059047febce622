/** `StitchingAlgorithm`: homographies along a tree of images, the bounding
    box of the warped corners, and the first-match warp onto the canvas.
    The pairwise estimator and the 3x3 inverse are collaborators passed in
    as functions; the product of homographies is the concrete `Dot`. */
module Stitching {
  import opened Outputs
  import opened KotlinNumbers
  import opened LinAlg
  import opened PointEx
  import opened Images
  import opened BoundingBox

  /** `homographyAlgorithm.estimateHomography(img1, img2)`: its `Output`,
      or an exception escaping it (a throwing `transform` in RANSAC). */
  type Estimator = (Image, Image) -> Try<Output<Mat3>>

  /** `JvmLinAlg.inv`: the inverse, or the exception it throws. */
  type Inverter = Mat3 -> Try<Mat3>

  /** The memo of pairwise homographies, keyed by (image, parent). */
  type Edges = map<(int, int), Mat3>

  const InvalidTreeMsg := "Invalid tree of images supplied"
  const InvertFailureMsg := "Failed to invert one of the Homography matrix"
  const WarpFailureMsg := "Failed to warp imgs to panorama"

  /** What `mk.zeros` throws for a dimension that is not positive. */
  const ZerosFailure: Exception := LibraryException("Dimension must be positive")

  const EdgeFailurePrefix := "Failed to estimate homography for "

  /** The message of an estimation failure: `"... for $i and ${parent[i]} images"`. */
  function EdgeFailureMsg(i: int, p: int): string
  {
    EdgeFailurePrefix + IntToString(i) + " and " + IntToString(p) + " images"
  }

  /** The length of the longest prefix of s without a space. */
  function SpaceFreePrefix(s: string): (n: nat)
    ensures n <= |s|
  {
    if s == [] || s[0] == ' ' then 0 else 1 + SpaceFreePrefix(s[1..])
  }

  /** A numeral followed by a text that starts with a space ends where the
      first space is. */
  lemma {:induction false} SpaceFreePrefixOf(a: string, r: string)
    requires forall k :: 0 <= k < |a| ==> a[k] != ' '
    requires |r| > 0 && r[0] == ' '
    ensures SpaceFreePrefix(a + r) == |a|
  {
    if a != [] {
      assert (a + r)[0] == a[0];
      assert (a + r)[1..] == a[1..] + r;
      SpaceFreePrefixOf(a[1..], r);
    }
  }

  /** Two numerals followed by texts that both start with a space split the
      same way: a numeral holds no space. */
  lemma {:induction false} SplitAtSpace(a: string, r: string, a2: string, r2: string)
    requires a + r == a2 + r2
    requires forall k :: 0 <= k < |a| ==> a[k] != ' '
    requires forall k :: 0 <= k < |a2| ==> a2[k] != ' '
    requires |r| > 0 && r[0] == ' ' && |r2| > 0 && r2[0] == ' '
    ensures a == a2 && r == r2
  {
    var m := a + r;
    SpaceFreePrefixOf(a, r);
    SpaceFreePrefixOf(a2, r2);
    assert a == m[..|a|] == a2;
    assert r == m[|a|..] == r2;
  }

  /** Texts with a common prefix agree after it. */
  lemma {:induction false} CancelPrefix(pre: string, x: string, x2: string)
    requires pre + x == pre + x2
    ensures x == x2
  {
    assert x == (pre + x)[|pre|..];
    assert x2 == (pre + x2)[|pre|..];
  }

  /** The message regrouped from the right. */
  lemma {:induction false} RegroupMessage(pre: string, a: string, mid: string, b: string, post: string)
    ensures pre + a + mid + b + post == pre + (a + (mid + (b + post)))
  {
  }

  /** The failure message names its pair: different (image, parent) pairs
      never give the same message. */
  lemma {:induction false} EdgeFailureMsgNamesPair(i: int, p: int, i2: int, p2: int)
    requires EdgeFailureMsg(i, p) == EdgeFailureMsg(i2, p2)
    ensures i == i2 && p == p2
  {
    var a, b, a2, b2 := IntToString(i), IntToString(p), IntToString(i2), IntToString(p2);
    var mid, post := " and ", " images";
    RegroupMessage(EdgeFailurePrefix, a, mid, b, post);
    RegroupMessage(EdgeFailurePrefix, a2, mid, b2, post);
    CancelPrefix(EdgeFailurePrefix, a + (mid + (b + post)), a2 + (mid + (b2 + post)));
    SplitAtSpace(a, mid + (b + post), a2, mid + (b2 + post));
    CancelPrefix(mid, b + post, b2 + post);
    SplitAtSpace(b, post, b2, post);
  }

  // ---------------------------------------------------------------------
  // Parent lists

  /** `listOf(-1 until n).flatten()`: -1, 0, ..., n - 1, that is n + 1
      entries, so image i is stitched onto image i - 1. */
  function ChainParents(n: nat): (parent: seq<int>)
    ensures |parent| == n + 1
    ensures forall i :: 0 <= i <= n ==> parent[i] == i - 1
  {
    seq(n + 1, i => i - 1)
  }

  /** Following the parent links from p leaves the images [0, n) or meets a
      root (parent -1) within `fuel` steps. */
  ghost predicate ChainEnds(parent: seq<int>, n: nat, p: int, fuel: nat)
    decreases fuel
  {
    || !(0 <= p < n && p < |parent|)
    || parent[p] == -1
    || (fuel > 0 && ChainEnds(parent, n, parent[p], fuel - 1))
  }

  /** No parent walk of images [0, n) runs in a cycle, so each ends within
      n steps: without this the composer's `while` loop does not terminate. */
  ghost predicate Acyclic(parent: seq<int>, n: nat)
  {
    forall i :: 0 <= i < n ==> ChainEnds(parent, n, i, n)
  }

  /** Every image has a parent entry: -1 or another image. */
  predicate ParentsInRange(parent: seq<int>, n: nat)
  {
    |parent| >= n && forall i :: 0 <= i < n ==> parent[i] == -1 || 0 <= parent[i] < n
  }

  /** `parent` describes a forest over images [0, n). */
  ghost predicate IsForest(parent: seq<int>, n: nat)
  {
    ParentsInRange(parent, n) && Acyclic(parent, n)
  }

  lemma {:induction false} ChainParentsEnds(n: nat, i: nat, fuel: nat)
    requires i <= fuel
    ensures ChainEnds(ChainParents(n), n, i, fuel)
    decreases i
  {
    var parent := ChainParents(n);
    if i < n && i > 0 {
      assert parent[i] == i - 1;
      ChainParentsEnds(n, i - 1, fuel - 1);
    }
  }

  /** The parent list of the one-argument `stitchPanorama` is a forest: a
      single chain n - 1 -> ... -> 0 with root 0. */
  lemma {:induction false} ChainParentsForest(n: nat)
    ensures IsForest(ChainParents(n), n)
    ensures n > 0 ==> ChainParents(n)[0] == -1
    ensures forall i :: 0 < i < n ==> ChainParents(n)[i] == i - 1
  {
    forall i | 0 <= i < n ensures ChainEnds(ChainParents(n), n, i, n) {
      ChainParentsEnds(n, i, n);
    }
  }

  // ---------------------------------------------------------------------
  // estimateHomographyForEachImg, phase 1: the edge memo

  /** The edge loop from image i on, with `edges` memoised so far. An index
      outside `parent` or `imgs` throws as the Kotlin list access does. */
  function EdgesFrom(imgs: seq<Image>, parent: seq<int>, estimate: Estimator, i: nat, edges: Edges)
    : Try<Output<Edges>>
    requires i <= |imgs|
    decreases |imgs| - i
  {
    if i == |imgs| then Returned(Success(edges))
    else if i >= |parent| then Thrown(IndexOutOfBounds(i))
    else if parent[i] == -1 then EdgesFrom(imgs, parent, estimate, i + 1, edges)
    else if !(0 <= parent[i] < |imgs|) then Thrown(IndexOutOfBounds(parent[i]))
    else match estimate(imgs[i], imgs[parent[i]])
      case Thrown(e) => Thrown(e)
      case Returned(Failure(_, cause)) => Returned(Failure(EdgeFailureMsg(i, parent[i]), cause))
      case Returned(Success(h)) => EdgesFrom(imgs, parent, estimate, i + 1, edges[(i, parent[i]) := h])
  }

  /** The edge memo built by the first loop, or how that loop ends early. */
  function EstimatedEdges(imgs: seq<Image>, parent: seq<int>, estimate: Estimator): Try<Output<Edges>>
  {
    EdgesFrom(imgs, parent, estimate, 0, map[])
  }

  /** The first loop of `estimateHomographyForEachImg`. */
  method BuildEdges(imgs: seq<Image>, parent: seq<int>, estimate: Estimator) returns (r: Try<Output<Edges>>)
    ensures r == EstimatedEdges(imgs, parent, estimate)
  {
    var n := |imgs|;
    var edges: Edges := map[];
    for i := 0 to n
      invariant EdgesFrom(imgs, parent, estimate, i, edges) == EstimatedEdges(imgs, parent, estimate)
    {
      if i >= |parent| {
        return Thrown(IndexOutOfBounds(i));
      }
      if parent[i] != -1 {
        if !(0 <= parent[i] < n) {
          return Thrown(IndexOutOfBounds(parent[i]));
        }
        var result := estimate(imgs[i], imgs[parent[i]]);
        if result.Thrown? {
          return Thrown(result.exception);
        }
        match result.value {
          case Failure(_, cause) =>
            return Returned(Failure(EdgeFailureMsg(i, parent[i]), cause));
          case Success(h) =>
            edges := edges[(i, parent[i]) := h];
        }
      }
    }
    return Returned(Success(edges));
  }

  /** A completed edge loop: the parent list covers every image, and the
      memo holds exactly one entry (i, parent[i]) per non-root image i, the
      estimate of image i against its parent. */
  lemma {:induction false} EdgesFromComplete(imgs: seq<Image>, parent: seq<int>, estimate: Estimator,
                                             i: nat, edges: Edges, result: Edges)
    requires i <= |imgs|
    requires forall k :: k in edges ==> k.0 < i
    requires EdgesFrom(imgs, parent, estimate, i, edges) == Returned(Success(result))
    ensures |parent| >= |imgs| || i == |imgs|
    ensures forall j :: i <= j < |imgs| ==> parent[j] == -1 || 0 <= parent[j] < |imgs|
    ensures forall k :: k in result <==>
      (k in edges || (i <= k.0 < |imgs| && parent[k.0] != -1 && k.1 == parent[k.0]))
    ensures forall k :: k in edges ==> result[k] == edges[k]
    ensures forall j :: i <= j < |imgs| && parent[j] != -1 ==>
      (j, parent[j]) in result && estimate(imgs[j], imgs[parent[j]]) == Returned(Success(result[(j, parent[j])]))
    decreases |imgs| - i
  {
    if i < |imgs| {
      if parent[i] == -1 {
        EdgesFromComplete(imgs, parent, estimate, i + 1, edges, result);
      } else {
        var h := estimate(imgs[i], imgs[parent[i]]).value.data;
        var edges' := edges[(i, parent[i]) := h];
        EdgesFromComplete(imgs, parent, estimate, i + 1, edges', result);
      }
    }
  }

  /** The memo of a completed edge loop, from image 0 on. */
  lemma {:induction false} EstimatedEdgesComplete(imgs: seq<Image>, parent: seq<int>, estimate: Estimator, result: Edges)
    requires EstimatedEdges(imgs, parent, estimate) == Returned(Success(result))
    ensures ParentsInRange(parent, |imgs|)
    ensures forall k :: k in result <==> 0 <= k.0 < |imgs| && parent[k.0] != -1 && k.1 == parent[k.0]
    ensures forall j :: 0 <= j < |imgs| && parent[j] != -1 ==>
      estimate(imgs[j], imgs[parent[j]]) == Returned(Success(result[(j, parent[j])]))
  {
    EdgesFromComplete(imgs, parent, estimate, 0, map[], result);
  }

  /** Image k is a root, or its estimate against its parent succeeded. */
  predicate EdgeSolved(imgs: seq<Image>, parent: seq<int>, estimate: Estimator, k: nat)
    requires k < |imgs| && k < |parent|
  {
    parent[k] == -1 ||
    (0 <= parent[k] < |imgs| && estimate(imgs[k], imgs[parent[k]]).Returned? &&
     estimate(imgs[k], imgs[parent[k]]).value.Success?)
  }

  /** The estimate of non-root image j against its parent returned a
      failure with this cause, and the edge loop reports it with msg. */
  predicate EdgeFailsAt(imgs: seq<Image>, parent: seq<int>, estimate: Estimator, j: nat,
                        msg: string, cause: Option<Exception>)
    requires j < |imgs| && j < |parent|
  {
    parent[j] != -1 && 0 <= parent[j] < |imgs| &&
    estimate(imgs[j], imgs[parent[j]]).Returned? &&
    estimate(imgs[j], imgs[parent[j]]).value.Failure? &&
    estimate(imgs[j], imgs[parent[j]]).value.cause == cause &&
    msg == EdgeFailureMsg(j, parent[j])
  }

  /** An edge loop from i that fails names the first non-root image j >= i
      whose estimate failed, with its parent, and keeps the cause. */
  lemma {:induction false} EdgesFromFailure(imgs: seq<Image>, parent: seq<int>, estimate: Estimator,
                                            i: nat, edges: Edges, msg: string, cause: Option<Exception>)
      returns (j: nat)
    requires i <= |imgs|
    requires EdgesFrom(imgs, parent, estimate, i, edges) == Returned(Failure(msg, cause))
    ensures i <= j < |imgs| && j < |parent|
    ensures EdgeFailsAt(imgs, parent, estimate, j, msg, cause)
    ensures forall k :: i <= k < j ==> EdgeSolved(imgs, parent, estimate, k)
    decreases |imgs| - i
  {
    var next := EdgesFromFailureStep(imgs, parent, estimate, i, edges, msg, cause);
    if next.Some? {
      j := EdgesFromFailure(imgs, parent, estimate, i + 1, next.value, msg, cause);
      forall k | i <= k < j
        ensures EdgeSolved(imgs, parent, estimate, k)
      {
        if k == i {
          assert EdgeSolved(imgs, parent, estimate, i);
        }
      }
    } else {
      j := i;
    }
  }

  /** One step of a failing edge loop: a root or a solved edge passes the
      same failure on to the next image with the memo it leaves; a failed
      edge is reported here. */
  lemma EdgesFromFailureStep(imgs: seq<Image>, parent: seq<int>, estimate: Estimator,
                             i: nat, edges: Edges, msg: string, cause: Option<Exception>)
      returns (next: Option<Edges>)
    requires i <= |imgs|
    requires EdgesFrom(imgs, parent, estimate, i, edges) == Returned(Failure(msg, cause))
    ensures i < |imgs| && i < |parent|
    ensures next.Some? ==> EdgeSolved(imgs, parent, estimate, i)
    ensures next.Some? ==> EdgesFrom(imgs, parent, estimate, i + 1, next.value) == Returned(Failure(msg, cause))
    ensures next.None? ==> EdgeFailsAt(imgs, parent, estimate, i, msg, cause)
  {
    if parent[i] == -1 {
      next := Some(edges);
    } else if estimate(imgs[i], imgs[parent[i]]).value.Success? {
      next := Some(edges[(i, parent[i]) := estimate(imgs[i], imgs[parent[i]]).value.data]);
    } else {
      next := None;
    }
  }

  /** A failing edge loop names the first image whose estimate failed. */
  lemma {:induction false} EstimatedEdgesFailure(imgs: seq<Image>, parent: seq<int>, estimate: Estimator,
                                                 msg: string, cause: Option<Exception>)
    requires EstimatedEdges(imgs, parent, estimate) == Returned(Failure(msg, cause))
    ensures exists j ::
      && 0 <= j < |imgs| && j < |parent|
      && EdgeFailsAt(imgs, parent, estimate, j, msg, cause)
      && (forall k :: 0 <= k < j ==> EdgeSolved(imgs, parent, estimate, k))
  {
    var j := EdgesFromFailure(imgs, parent, estimate, 0, map[], msg, cause);
  }

  // ---------------------------------------------------------------------
  // estimateHomographyForEachImg, phase 2: the chain composer

  /** The `while` loop from p with H = acc: H is right-multiplied by each
      edge on the way to the root; a missing edge is an invalid tree. */
  function Chain(edges: Edges, parent: seq<int>, n: nat, p: nat, acc: Mat3, fuel: nat): (r: Output<Mat3>)
    requires ParentsInRange(parent, n) && p < n && ChainEnds(parent, n, p, fuel)
    ensures r.Failure? ==> r == Failure(InvalidTreeMsg, None)
    decreases fuel
  {
    if parent[p] == -1 then Success(acc)
    else if (p, parent[p]) !in edges then Failure(InvalidTreeMsg, None)
    else Chain(edges, parent, n, parent[p], Dot(acc, edges[(p, parent[p])]), fuel - 1)
  }

  /** The outer loop from image i on, with `hs` collected so far. */
  function ComposeFrom(edges: Edges, parent: seq<int>, n: nat, i: nat, hs: seq<Mat3>): (r: Output<seq<Mat3>>)
    requires IsForest(parent, n) && i <= n && |hs| == i
    ensures r.Success? ==> |r.data| == n && r.data[..i] == hs
    ensures r.Failure? ==> r == Failure(InvalidTreeMsg, None)
    decreases n - i
  {
    if i == n then Success(hs)
    else match Chain(edges, parent, n, i, Identity, n)
      case Failure(m, c) => Failure(m, c)
      case Success(h) =>
        var r := ComposeFrom(edges, parent, n, i + 1, hs + [h]);
        assert r.Success? ==> r.data[..i] == r.data[..i + 1][..i];
        r
  }

  /** `Hs` as the second loop builds it, or the invalid-tree failure. */
  function Compose(edges: Edges, parent: seq<int>, n: nat): Output<seq<Mat3>>
    requires IsForest(parent, n)
  {
    ComposeFrom(edges, parent, n, 0, [])
  }

  /** The second loop of `estimateHomographyForEachImg`, over any memo. */
  method ComposeChains(edges: Edges, parent: seq<int>, n: nat) returns (r: Output<seq<Mat3>>)
    requires IsForest(parent, n)
    ensures r == Compose(edges, parent, n)
  {
    var hs: seq<Mat3> := [];
    for i := 0 to n
      invariant |hs| == i
      invariant ComposeFrom(edges, parent, n, i, hs) == Compose(edges, parent, n)
    {
      var p := i;
      var h := Identity;
      ghost var fuel: nat := n;
      while parent[p] != -1
        invariant 0 <= p < n && ChainEnds(parent, n, p, fuel)
        invariant Chain(edges, parent, n, p, h, fuel) == Chain(edges, parent, n, i, Identity, n)
        decreases fuel
      {
        if (p, parent[p]) !in edges {
          return Failure(InvalidTreeMsg, None);
        }
        h := Dot(h, edges[(p, parent[p])]);
        p := parent[p];
        fuel := fuel - 1;
      }
      hs := hs + [h];
    }
    return Success(hs);
  }

  /** The walk does not depend on the fuel, as long as it suffices. */
  lemma {:induction false} ChainFuel(edges: Edges, parent: seq<int>, n: nat, p: nat, acc: Mat3, f1: nat, f2: nat)
    requires ParentsInRange(parent, n) && p < n
    requires ChainEnds(parent, n, p, f1) && ChainEnds(parent, n, p, f2)
    ensures Chain(edges, parent, n, p, acc, f1) == Chain(edges, parent, n, p, acc, f2)
    decreases f1
  {
    if parent[p] != -1 && (p, parent[p]) in edges {
      ChainFuel(edges, parent, n, parent[p], Dot(acc, edges[(p, parent[p])]), f1 - 1, f2 - 1);
    }
  }

  /** Starting the walk from acc instead of the identity multiplies the
      result by acc on the left, and fails exactly when the walk fails. */
  lemma {:induction false} ChainFromAcc(edges: Edges, parent: seq<int>, n: nat, p: nat, acc: Mat3, fuel: nat)
    requires ParentsInRange(parent, n) && p < n && ChainEnds(parent, n, p, fuel)
    ensures Chain(edges, parent, n, p, acc, fuel).Success? == Chain(edges, parent, n, p, Identity, fuel).Success?
    ensures Chain(edges, parent, n, p, acc, fuel).Success? ==>
      Chain(edges, parent, n, p, acc, fuel).data == Dot(acc, Chain(edges, parent, n, p, Identity, fuel).data)
    decreases fuel
  {
    if parent[p] == -1 {
      DotIdentityRight(acc);
    } else if (p, parent[p]) in edges {
      var e := edges[(p, parent[p])];
      var q := parent[p];
      ChainFromAcc(edges, parent, n, q, Dot(acc, e), fuel - 1);
      DotIdentityLeft(e);
      ChainFromAcc(edges, parent, n, q, e, fuel - 1);
      if Chain(edges, parent, n, q, Identity, fuel - 1).Success? {
        DotAssociative(acc, e, Chain(edges, parent, n, q, Identity, fuel - 1).data);
      }
    }
  }

  /** `Hs` has one matrix per image exactly when every walk finds its
      edges; each entry is the walk from the identity, and any failure is
      the invalid-tree failure. */
  lemma {:induction false} ComposeFromResult(edges: Edges, parent: seq<int>, n: nat, i: nat, hs: seq<Mat3>)
    requires IsForest(parent, n) && i <= n && |hs| == i
    ensures (forall j :: i <= j < n ==> Chain(edges, parent, n, j, Identity, n).Success?) ==>
      ComposeFrom(edges, parent, n, i, hs).Success?
    ensures ComposeFrom(edges, parent, n, i, hs).Success? ==>
      forall j :: i <= j < n ==> Chain(edges, parent, n, j, Identity, n).Success?
    ensures ComposeFrom(edges, parent, n, i, hs).Success? ==>
      forall j :: i <= j < n ==> ComposeFrom(edges, parent, n, i, hs).data[j] == Chain(edges, parent, n, j, Identity, n).data
    decreases n - i
  {
    if i < n && !Chain(edges, parent, n, i, Identity, n).Success? {
      assert ComposeFrom(edges, parent, n, i, hs).Failure?;
    } else if i < n {
      var h := Chain(edges, parent, n, i, Identity, n).data;
      ComposeFromResult(edges, parent, n, i + 1, hs + [h]);
      var r := ComposeFrom(edges, parent, n, i + 1, hs + [h]);
      if r.Success? {
        assert r.data[i] == r.data[..i + 1][i];
      }
    }
  }

  /** The composed homographies: one per image, `Hs[i]` = I . E(i, p(i)) .
      E(p(i), p(p(i))) ... in walk order, and the identity for a root. */
  lemma {:induction false} ComposeRecurrence(edges: Edges, parent: seq<int>, n: nat, i: nat)
    requires IsForest(parent, n) && i < n
    requires Compose(edges, parent, n).Success?
    ensures |Compose(edges, parent, n).data| == n
    ensures parent[i] == -1 ==> Compose(edges, parent, n).data[i] == Identity
    ensures parent[i] != -1 ==>
      && (i, parent[i]) in edges
      && Compose(edges, parent, n).data[i] == Dot(edges[(i, parent[i])], Compose(edges, parent, n).data[parent[i]])
  {
    var hs := Compose(edges, parent, n).data;
    ComposeFromResult(edges, parent, n, 0, []);
    assert Chain(edges, parent, n, i, Identity, n).Success?;
    if parent[i] != -1 {
      var q := parent[i];
      var e := edges[(i, q)];
      assert ChainEnds(parent, n, q, n - 1);
      DotIdentityLeft(e);
      assert hs[i] == Chain(edges, parent, n, q, e, n - 1).data;
      ChainFromAcc(edges, parent, n, q, e, n - 1);
      ChainFuel(edges, parent, n, q, Identity, n - 1, n);
      assert hs[q] == Chain(edges, parent, n, q, Identity, n).data;
    }
  }

  /** The chain 2 -> 1 -> 0 composes as E(2,1) . E(1,0). */
  lemma {:induction false} ComposeChainOfThree(edges: Edges, parent: seq<int>)
    requires IsForest(parent, 3)
    requires parent[0] == -1 && parent[1] == 0 && parent[2] == 1
    requires Compose(edges, parent, 3).Success?
    ensures (2, 1) in edges && (1, 0) in edges
    ensures Compose(edges, parent, 3).data[2] == Dot(edges[(2, 1)], edges[(1, 0)])
  {
    ComposeRecurrence(edges, parent, 3, 0);
    ComposeRecurrence(edges, parent, 3, 1);
    ComposeRecurrence(edges, parent, 3, 2);
    DotIdentityRight(edges[(1, 0)]);
  }

  /** With every edge (p, parent[p]) present, the walk from p succeeds. */
  lemma {:induction false} ChainWithAllEdges(edges: Edges, parent: seq<int>, n: nat, p: nat, acc: Mat3, fuel: nat)
    requires ParentsInRange(parent, n) && p < n && ChainEnds(parent, n, p, fuel)
    requires forall j :: 0 <= j < n && parent[j] != -1 ==> (j, parent[j]) in edges
    ensures Chain(edges, parent, n, p, acc, fuel).Success?
    decreases fuel
  {
    if parent[p] != -1 {
      ChainWithAllEdges(edges, parent, n, parent[p], Dot(acc, edges[(p, parent[p])]), fuel - 1);
    }
  }

  /** The result of `estimateHomographyForEachImg(imgs, parent)`. */
  function ForEachImg(imgs: seq<Image>, parent: seq<int>, estimate: Estimator): (r: Try<Output<seq<Mat3>>>)
    requires Acyclic(parent, |imgs|)
    ensures r.Returned? && r.value.Success? ==> |r.value.data| == |imgs|
  {
    match EstimatedEdges(imgs, parent, estimate)
    case Thrown(e) => Thrown(e)
    case Returned(Failure(m, c)) => Returned(Failure(m, c))
    case Returned(Success(edges)) =>
      EstimatedEdgesComplete(imgs, parent, estimate, edges);
      Returned(Compose(edges, parent, |imgs|))
  }

  /** The memo of the first loop holds every edge the second loop asks
      for, so an acyclic parent list never yields the invalid-tree failure:
      `estimateHomographyForEachImg` fails only with an estimation failure. */
  lemma {:induction false} ForEachImgNeverInvalid(imgs: seq<Image>, parent: seq<int>, estimate: Estimator)
    requires Acyclic(parent, |imgs|)
    requires EstimatedEdges(imgs, parent, estimate).Returned?
    requires EstimatedEdges(imgs, parent, estimate).value.Success?
    ensures ForEachImg(imgs, parent, estimate).Returned?
    ensures ForEachImg(imgs, parent, estimate).value.Success?
  {
    var n := |imgs|;
    var edges := EstimatedEdges(imgs, parent, estimate).value.data;
    EstimatedEdgesComplete(imgs, parent, estimate, edges);
    forall j | 0 <= j < n ensures Chain(edges, parent, n, j, Identity, n).Success? {
      ChainWithAllEdges(edges, parent, n, j, Identity, n);
    }
    ComposeFromResult(edges, parent, n, 0, []);
  }

  /** `estimateHomographyForEachImg`. */
  method EstimateHomographyForEachImg(imgs: seq<Image>, parent: seq<int>, estimate: Estimator)
    returns (r: Try<Output<seq<Mat3>>>)
    requires Acyclic(parent, |imgs|)
    ensures r == ForEachImg(imgs, parent, estimate)
  {
    var edges := BuildEdges(imgs, parent, estimate);
    match edges {
      case Thrown(e) => return Thrown(e);
      case Returned(Failure(m, c)) => return Returned(Failure(m, c));
      case Returned(Success(es)) =>
        EstimatedEdgesComplete(imgs, parent, estimate, es);
        var hs := ComposeChains(es, parent, |imgs|);
        return Returned(hs);
    }
  }

  // ---------------------------------------------------------------------
  // estimateResultBBox

  /** `pt(0, 0)`, `pt(w, 0)`, `pt(w, h)`, `pt(0, h)` for an image of h rows
      and w columns, in the order they are grown in. */
  function CornerPoints(img: Image): (cs: seq<Point>)
    ensures |cs| == 4
    ensures cs[0] == Point(0.0, 0.0) && cs[1] == Point(img.cols as real, 0.0)
    ensures cs[2] == Point(img.cols as real, img.rows as real) && cs[3] == Point(0.0, img.rows as real)
  {
    [PtInt(0, 0), PtInt(img.cols, 0), PtInt(img.cols, img.rows), PtInt(0, img.rows)]
  }

  /** The four corners transformed by h, or the first `transform` that throws. */
  function TransformedCorners(img: Image, h: Mat3): (r: Try<seq<Point>>)
    ensures r.Returned? ==> |r.value| == 4
    ensures r.Returned? ==> forall j :: 0 <= j < 4 ==> Transform(CornerPoints(img)[j], h) == Returned(r.value[j])
    ensures r.Thrown? ==> r.exception == TransformError
    ensures r.Thrown? ==> exists j :: 0 <= j < 4 && Transform(CornerPoints(img)[j], h).Thrown?
  {
    var cs := CornerPoints(img);
    match Transform(cs[0], h)
    case Thrown(e) => Thrown(e)
    case Returned(p0) =>
      match Transform(cs[1], h)
      case Thrown(e) => Thrown(e)
      case Returned(p1) =>
        match Transform(cs[2], h)
        case Thrown(e) => Thrown(e)
        case Returned(p2) =>
          match Transform(cs[3], h)
          case Thrown(e) => Thrown(e)
          case Returned(p3) => Returned([p0, p1, p2, p3])
  }

  /** The points the box is grown with for images [0, k), in order. */
  function BoxPoints(imgs: seq<Image>, hs: seq<Mat3>, k: nat): (r: Try<seq<Point>>)
    requires k <= |imgs| && |hs| == |imgs|
    ensures r.Returned? ==> |r.value| == 4 * k
    ensures r.Thrown? ==> r.exception == TransformError
  {
    if k == 0 then Returned([])
    else match BoxPoints(imgs, hs, k - 1)
      case Thrown(e) => Thrown(e)
      case Returned(ps) =>
        match TransformedCorners(imgs[k - 1], hs[k - 1])
        case Thrown(e) => Thrown(e)
        case Returned(qs) => Returned(ps + qs)
  }

  /** The box is grown with exactly the four transformed corners of each
      image, image by image; it throws exactly when some corner's
      `transform` throws. */
  lemma {:induction false} BoxPointsExact(imgs: seq<Image>, hs: seq<Mat3>, k: nat)
    requires k <= |imgs| && |hs| == |imgs|
    ensures BoxPoints(imgs, hs, k).Returned? <==>
      forall i, j :: 0 <= i < k && 0 <= j < 4 ==> Transform(CornerPoints(imgs[i])[j], hs[i]).Returned?
    ensures BoxPoints(imgs, hs, k).Returned? ==>
      forall i, j :: 0 <= i < k && 0 <= j < 4 ==>
        Transform(CornerPoints(imgs[i])[j], hs[i]) == Returned(BoxPoints(imgs, hs, k).value[4 * i + j])
  {
    if k > 0 {
      BoxPointsExact(imgs, hs, k - 1);
      var r := BoxPoints(imgs, hs, k);
      if r.Returned? {
        var ps := BoxPoints(imgs, hs, k - 1).value;
        var qs := TransformedCorners(imgs[k - 1], hs[k - 1]).value;
        assert r.value == ps + qs;
        forall i, j | 0 <= i < k && 0 <= j < 4
          ensures Transform(CornerPoints(imgs[i])[j], hs[i]) == Returned(r.value[4 * i + j])
        {
          if i < k - 1 {
            assert r.value[4 * i + j] == ps[4 * i + j];
          } else {
            assert r.value[4 * i + j] == qs[j];
          }
        }
      } else if BoxPoints(imgs, hs, k - 1).Returned? {
        var j :| 0 <= j < 4 && Transform(CornerPoints(imgs[k - 1])[j], hs[k - 1]).Thrown?;
        assert !Transform(CornerPoints(imgs[k - 1])[j], hs[k - 1]).Returned?;
      }
    }
  }

  /** `estimateResultBBox`: a new box grown with the transformed corners of
      every image; a throwing `transform` escapes. */
  method EstimateResultBBox(imgs: seq<Image>, hs: seq<Mat3>) returns (r: Try<Bbox>)
    requires |hs| == |imgs|
    ensures r.Thrown? <==> BoxPoints(imgs, hs, |imgs|).Thrown?
    ensures r.Thrown? ==> r.exception == TransformError
    ensures r.Returned? ==> fresh(r.value) && fresh(r.value.lo) && fresh(r.value.hi) && r.value.Valid()
    ensures r.Returned? ==> r.value.Corners() == GrowAll(Initial, BoxPoints(imgs, hs, |imgs|).value)
  {
    var bbox := new Bbox();
    ghost var ps: seq<Point> := [];
    for i := 0 to |imgs|
      invariant BoxPoints(imgs, hs, i) == Returned(ps)
      invariant bbox.Valid() && fresh(bbox.lo) && fresh(bbox.hi)
      invariant bbox.Corners() == GrowAll(Initial, ps)
    {
      var h, w := imgs[i].rows, imgs[i].cols;
      var p0 := Transform(PtInt(0, 0), hs[i]);
      if p0.Thrown? {
        BoxPointsThrownStays(imgs, hs, i + 1, |imgs|);
        return Thrown(p0.exception);
      }
      bbox.Grow(p0.value);
      var p1 := Transform(PtInt(w, 0), hs[i]);
      if p1.Thrown? {
        BoxPointsThrownStays(imgs, hs, i + 1, |imgs|);
        return Thrown(p1.exception);
      }
      bbox.Grow(p1.value);
      var p2 := Transform(PtInt(w, h), hs[i]);
      if p2.Thrown? {
        BoxPointsThrownStays(imgs, hs, i + 1, |imgs|);
        return Thrown(p2.exception);
      }
      bbox.Grow(p2.value);
      var p3 := Transform(PtInt(0, h), hs[i]);
      if p3.Thrown? {
        BoxPointsThrownStays(imgs, hs, i + 1, |imgs|);
        return Thrown(p3.exception);
      }
      bbox.Grow(p3.value);
      var qs := [p0.value, p1.value, p2.value, p3.value];
      GrowFour(GrowAll(Initial, ps), qs);
      GrowAllAppend(Initial, ps, qs);
      ps := ps + qs;
    }
    return Returned(bbox);
  }

  lemma {:induction false} GrowFour(e: Extent, qs: seq<Point>)
    requires |qs| == 4
    ensures GrowAll(e, qs) == Grown(Grown(Grown(Grown(e, qs[0]), qs[1]), qs[2]), qs[3])
  {
    var e1 := Grown(e, qs[0]);
    var e2 := Grown(e1, qs[1]);
    var e3 := Grown(e2, qs[2]);
    var e4 := Grown(e3, qs[3]);
    assert GrowAll(e4, qs[4..]) == e4;
    assert GrowAll(e3, qs[3..]) == GrowAll(e4, qs[3..][1..]);
    assert qs[3..][1..] == qs[4..];
    assert GrowAll(e2, qs[2..]) == GrowAll(e3, qs[2..][1..]);
    assert qs[2..][1..] == qs[3..];
    assert GrowAll(e1, qs[1..]) == GrowAll(e2, qs[1..][1..]);
    assert qs[1..][1..] == qs[2..];
    assert GrowAll(e, qs) == GrowAll(e1, qs[1..]);
  }

  /** Once a corner's `transform` has thrown, the box is never completed. */
  lemma {:induction false} BoxPointsThrownStays(imgs: seq<Image>, hs: seq<Mat3>, k: nat, k': nat)
    requires k <= k' <= |imgs| && |hs| == |imgs|
    requires BoxPoints(imgs, hs, k).Thrown?
    ensures BoxPoints(imgs, hs, k') == BoxPoints(imgs, hs, k)
    decreases k' - k
  {
    if k' > k {
      BoxPointsThrownStays(imgs, hs, k, k' - 1);
    }
  }

  /** Every transformed corner of every image lies inside the final box. */
  lemma {:induction false} BoxCoversCorners(imgs: seq<Image>, hs: seq<Mat3>, i: nat, j: nat)
    requires |hs| == |imgs| && i < |imgs| && j < 4
    requires BoxPoints(imgs, hs, |imgs|).Returned?
    ensures Transform(CornerPoints(imgs[i])[j], hs[i]).Returned?
    ensures var e := GrowAll(Initial, BoxPoints(imgs, hs, |imgs|).value);
      var q := Transform(CornerPoints(imgs[i])[j], hs[i]).value;
      e.lo.x <= q.x <= e.hi.x && e.lo.y <= q.y <= e.hi.y
  {
    var ps := BoxPoints(imgs, hs, |imgs|).value;
    BoxPointsExact(imgs, hs, |imgs|);
    GrowAllExtreme(Initial, ps);
    assert ps[4 * i + j] in ps;
  }

  // ---------------------------------------------------------------------
  // Inversion

  /** `Hs.map { JvmLinAlg.inv(it) }`: every inverse in order, or the first
      exception. */
  function InvertAll(hs: seq<Mat3>, inv: Inverter): (r: Try<seq<Mat3>>)
    ensures r.Returned? ==> |r.value| == |hs| && forall i :: 0 <= i < |hs| ==> inv(hs[i]) == Returned(r.value[i])
    ensures r.Thrown? ==> exists i :: 0 <= i < |hs| && inv(hs[i]) == Thrown(r.exception)
    ensures (forall i :: 0 <= i < |hs| ==> inv(hs[i]).Returned?) ==> r.Returned?
  {
    if hs == [] then Returned([])
    else match inv(hs[0])
      case Thrown(e) => Thrown(e)
      case Returned(m) =>
        match InvertAll(hs[1..], inv)
        case Thrown(e) =>
          var i :| 0 <= i < |hs[1..]| && inv(hs[1..][i]) == Thrown(e);
          assert hs[i + 1] == hs[1..][i];
          Thrown(e)
        case Returned(ms) =>
          assert forall i :: 1 <= i < |hs| ==> hs[i] == hs[1..][i - 1];
          Returned([m] + ms)
  }

  // ---------------------------------------------------------------------
  // warpImages

  /** Where output pixel (x, y), shifted by the box origin, comes from in
      the image whose inverse homography is h. */
  function SourcePoint(origin: Point, h: Mat3, x: int, y: int): Try<Point>
  {
    Transform(Plus(PtInt(x, y), origin), h)
  }

  /** The rounded source point lies in [0, cols) x [0, rows) of img. */
  predicate Lands(img: Image, src: Point)
  {
    0 <= RoundToInt(src.x) < img.cols && 0 <= RoundToInt(src.y) < img.rows
  }

  /** The pixel of img under the rounded source point. */
  function PixelUnder(img: Image, src: Point): Pixel
    requires img.Valid() && Lands(img, src)
  {
    img.pixels[RoundToInt(src.y)][RoundToInt(src.x)]
  }

  /** The search over images i, i + 1, ... for output pixel (x, y): the
      pixel of the first image the source point lands in, none, or the
      exception of a throwing `transform`. */
  function Claim(imgs: seq<Image>, origin: Point, hsInv: seq<Mat3>, x: int, y: int, i: nat): (r: Try<Option<Pixel>>)
    requires AllValid(imgs) && |hsInv| == |imgs| && i <= |imgs|
    ensures r.Thrown? ==> r.exception == TransformError
    decreases |imgs| - i
  {
    if i == |imgs| then Returned(None)
    else match SourcePoint(origin, hsInv[i], x, y)
      case Thrown(e) => Thrown(e)
      case Returned(src) =>
        if Lands(imgs[i], src) then Returned(Some(PixelUnder(imgs[i], src)))
        else Claim(imgs, origin, hsInv, x, y, i + 1)
  }

  /** Image j's source point for (x, y) is defined and falls outside it. */
  predicate Misses(imgs: seq<Image>, origin: Point, hsInv: seq<Mat3>, x: int, y: int, j: nat)
    requires |hsInv| == |imgs| && j < |imgs|
  {
    SourcePoint(origin, hsInv[j], x, y).Returned? && !Lands(imgs[j], SourcePoint(origin, hsInv[j], x, y).value)
  }

  /** Nothing is claimed exactly when every image from i on is missed. */
  lemma {:induction false} ClaimNoneIffAllMiss(imgs: seq<Image>, origin: Point, hsInv: seq<Mat3>, x: int, y: int, i: nat)
    requires AllValid(imgs) && |hsInv| == |imgs| && i <= |imgs|
    ensures Claim(imgs, origin, hsInv, x, y, i) == Returned(None) ==>
      forall j :: i <= j < |imgs| ==> Misses(imgs, origin, hsInv, x, y, j)
    ensures (forall j :: i <= j < |imgs| ==> Misses(imgs, origin, hsInv, x, y, j)) ==>
      Claim(imgs, origin, hsInv, x, y, i) == Returned(None)
    decreases |imgs| - i
  {
    if i < |imgs| {
      ClaimNoneIffAllMiss(imgs, origin, hsInv, x, y, i + 1);
      if !Misses(imgs, origin, hsInv, x, y, i) {
        assert i <= i < |imgs|;
      }
    }
  }

  /** The first-match rule: a claimed pixel comes from an image k whose
      source point lands in it, every image from i before k being missed. */
  lemma {:induction false} ClaimIsFirstLanding(imgs: seq<Image>, origin: Point, hsInv: seq<Mat3>, x: int, y: int, i: nat)
    requires AllValid(imgs) && |hsInv| == |imgs| && i <= |imgs|
    requires Claim(imgs, origin, hsInv, x, y, i).Returned? && Claim(imgs, origin, hsInv, x, y, i).value.Some?
    ensures exists k ::
              && i <= k < |imgs|
              && (forall j :: i <= j < k ==> Misses(imgs, origin, hsInv, x, y, j))
              && SourcePoint(origin, hsInv[k], x, y).Returned?
              && Lands(imgs[k], SourcePoint(origin, hsInv[k], x, y).value)
              && Claim(imgs, origin, hsInv, x, y, i).value.value == PixelUnder(imgs[k], SourcePoint(origin, hsInv[k], x, y).value)
    decreases |imgs| - i
  {
    if Misses(imgs, origin, hsInv, x, y, i) {
      ClaimIsFirstLanding(imgs, origin, hsInv, x, y, i + 1);
      var k :| i + 1 <= k < |imgs| &&
        (forall j :: i + 1 <= j < k ==> Misses(imgs, origin, hsInv, x, y, j)) &&
        SourcePoint(origin, hsInv[k], x, y).Returned? && Lands(imgs[k], SourcePoint(origin, hsInv[k], x, y).value) &&
        Claim(imgs, origin, hsInv, x, y, i).value.value == PixelUnder(imgs[k], SourcePoint(origin, hsInv[k], x, y).value);
    } else {
      assert i <= i < |imgs|;
    }
  }

  /** The search throws exactly at an image whose `transform` throws, every
      image from i before it being missed. */
  lemma {:induction false} ClaimThrowsAtFirstThrow(imgs: seq<Image>, origin: Point, hsInv: seq<Mat3>, x: int, y: int, i: nat)
    requires AllValid(imgs) && |hsInv| == |imgs| && i <= |imgs|
    requires Claim(imgs, origin, hsInv, x, y, i).Thrown?
    ensures exists k ::
              && i <= k < |imgs|
              && (forall j :: i <= j < k ==> Misses(imgs, origin, hsInv, x, y, j))
              && SourcePoint(origin, hsInv[k], x, y).Thrown?
    decreases |imgs| - i
  {
    if Misses(imgs, origin, hsInv, x, y, i) {
      ClaimThrowsAtFirstThrow(imgs, origin, hsInv, x, y, i + 1);
      var k :| i + 1 <= k < |imgs| &&
        (forall j :: i + 1 <= j < k ==> Misses(imgs, origin, hsInv, x, y, j)) &&
        SourcePoint(origin, hsInv[k], x, y).Thrown?;
    } else {
      assert i <= i < |imgs|;
    }
  }

  /** Output pixel (y, x) after the warp, from the value it had before. */
  function Warped(c: Try<Option<Pixel>>, before: Pixel): Pixel
  {
    if c.Returned? && c.value.Some? then c.value.value else before
  }

  /** Some output pixel of a rows x cols canvas makes a `transform` throw. */
  predicate WarpThrows(imgs: seq<Image>, origin: Point, hsInv: seq<Mat3>, rows: int, cols: int)
    requires AllValid(imgs) && |hsInv| == |imgs|
  {
    exists y, x | 0 <= y < rows && 0 <= x < cols :: Claim(imgs, origin, hsInv, x, y, 0).Thrown?
  }

  /** The inner loop over the images for one output pixel: the source
      pixel to copy, if any. */
  method SourcePixel(imgs: seq<Image>, origin: Point, hsInv: seq<Mat3>, x: int, y: int)
    returns (r: Try<Option<Pixel>>)
    requires AllValid(imgs) && |hsInv| == |imgs|
    ensures r == Claim(imgs, origin, hsInv, x, y, 0)
  {
    var ptDst := PtInt(x, y);
    for i := 0 to |imgs|
      invariant Claim(imgs, origin, hsInv, x, y, i) == Claim(imgs, origin, hsInv, x, y, 0)
    {
      var ptSrc := Transform(Plus(ptDst, origin), hsInv[i]);
      if ptSrc.Thrown? {
        return Thrown(ptSrc.exception);
      }
      var rows, cols := imgs[i].rows, imgs[i].cols;
      var xSrc := RoundToInt(ptSrc.value.x);
      var ySrc := RoundToInt(ptSrc.value.y);
      if 0 <= xSrc < cols && 0 <= ySrc < rows {
        return Returned(Some(imgs[i].pixels[ySrc][xSrc]));
      }
    }
    return Returned(None);
  }

  /** The body of the per-row lambda of `warpImages`: every pixel of row y
      takes the pixel its first landing image offers and otherwise keeps its
      value; a throwing `transform` stops the row with its exception. No
      other row is touched. */
  method WarpRow(imgs: seq<Image>, bbox: Bbox, hsInv: seq<Mat3>, result: array2<Pixel>, y: nat, resultWidth: int)
    returns (err: Option<Exception>)
    requires AllValid(imgs) && |hsInv| == |imgs|
    requires y < result.Length0 && resultWidth == result.Length1
    modifies result
    ensures err.Some? ==> err.value == TransformError
    ensures err.Some? ==> exists x | 0 <= x < resultWidth :: Claim(imgs, bbox.Corners().lo, hsInv, x, y, 0).Thrown?
    ensures err.None? ==> forall x :: 0 <= x < resultWidth ==>
      && Claim(imgs, bbox.Corners().lo, hsInv, x, y, 0).Returned?
      && result[y, x] == Warped(Claim(imgs, bbox.Corners().lo, hsInv, x, y, 0), old(result[y, x]))
    ensures forall yy, xx :: 0 <= yy < result.Length0 && 0 <= xx < result.Length1 && yy != y ==>
      result[yy, xx] == old(result[yy, xx])
  {
    ghost var origin := bbox.Corners().lo;
    for x := 0 to resultWidth
      invariant forall xx :: 0 <= xx < x ==>
        && Claim(imgs, origin, hsInv, xx, y, 0).Returned?
        && result[y, xx] == Warped(Claim(imgs, origin, hsInv, xx, y, 0), old(result[y, xx]))
      invariant forall yy, xx :: 0 <= yy < result.Length0 && 0 <= xx < result.Length1 && (yy != y || xx >= x) ==>
        result[yy, xx] == old(result[yy, xx])
    {
      var c := SourcePixel(imgs, bbox.Min().Value(), hsInv, x, y);
      if c.Thrown? {
        assert Claim(imgs, origin, hsInv, x, y, 0).Thrown?;
        assert origin == bbox.Corners().lo;
        return Some(c.exception);
      }
      if c.value.Some? {
        result[y, x] := c.value.value;
      }
    }
    return None;
  }

  /** `warpImages`, row after row: every output pixel takes the pixel its
      first landing image offers and otherwise keeps its value; a throwing
      `transform` stops the warp with its exception. */
  method WarpImages(imgs: seq<Image>, bbox: Bbox, hsInv: seq<Mat3>, result: array2<Pixel>)
    returns (err: Option<Exception>)
    requires AllValid(imgs) && |hsInv| == |imgs|
    requires result.Length0 == AddInt32(bbox.Height(), 1) && result.Length1 == AddInt32(bbox.Width(), 1)
    modifies result
    ensures err.Some? <==> WarpThrows(imgs, bbox.Corners().lo, hsInv, result.Length0, result.Length1)
    ensures err.Some? ==> err.value == TransformError
    ensures err.None? ==> forall y, x :: 0 <= y < result.Length0 && 0 <= x < result.Length1 ==>
      result[y, x] == Warped(Claim(imgs, bbox.Corners().lo, hsInv, x, y, 0), old(result[y, x]))
  {
    var resultWidth := AddInt32(bbox.Width(), 1);
    var resultHeight := AddInt32(bbox.Height(), 1);
    ghost var origin := bbox.Corners().lo;
    for y := 0 to resultHeight
      invariant forall yy, xx :: 0 <= yy < y && 0 <= xx < resultWidth ==>
        && Claim(imgs, origin, hsInv, xx, yy, 0).Returned?
        && result[yy, xx] == Warped(Claim(imgs, origin, hsInv, xx, yy, 0), old(result[yy, xx]))
      invariant forall yy, xx :: y <= yy < resultHeight && 0 <= xx < resultWidth ==> result[yy, xx] == old(result[yy, xx])
    {
      err := WarpRow(imgs, bbox, hsInv, result, y, resultWidth);
      assert origin == bbox.Corners().lo;
      if err.Some? {
        return;
      }
    }
    return None;
  }

  // ---------------------------------------------------------------------
  // stitchPanorama

  /** The two-dimensional contents of an array. */
  function Grid(a: array2<Pixel>): (g: seq<seq<Pixel>>)
    reads a
    ensures |g| == a.Length0
    ensures forall y :: 0 <= y < a.Length0 ==> |g[y]| == a.Length1
    ensures forall y, x :: 0 <= y < a.Length0 && 0 <= x < a.Length1 ==> g[y][x] == a[y, x]
  {
    seq(a.Length0, y requires 0 <= y < a.Length0 reads a =>
      seq(a.Length1, x requires 0 <= x < a.Length1 reads a => a[y, x]))
  }

  /** A zero canvas of rows x cols after the warp with the given inverses. */
  function Canvas(imgs: seq<Image>, origin: Point, hsInv: seq<Mat3>, rows: nat, cols: nat): (g: seq<seq<Pixel>>)
    requires AllValid(imgs) && |hsInv| == |imgs|
    ensures |g| == rows && forall y :: 0 <= y < rows ==> |g[y]| == cols
  {
    seq(rows, y => seq(cols, x => Warped(Claim(imgs, origin, hsInv, x, y, 0), Black)))
  }

  /** The result of `stitchPanorama(imgs, parent)`, with the panorama as
      its grid of pixels. */
  function Stitched(imgs: seq<Image>, parent: seq<int>, estimate: Estimator, inv: Inverter)
    : Try<Output<seq<seq<Pixel>>>>
    requires AllValid(imgs) && Acyclic(parent, |imgs|)
  {
    match ForEachImg(imgs, parent, estimate)
    case Thrown(e) => Thrown(e)
    case Returned(Failure(m, c)) => Returned(Failure(m, c))
    case Returned(Success(hs)) =>
      match BoxPoints(imgs, hs, |imgs|)
      case Thrown(e) => Thrown(e)
      case Returned(ps) =>
        var box := GrowAll(Initial, ps);
        var width, height := AddInt32(WidthOf(box), 1), AddInt32(HeightOf(box), 1);
        if height <= 0 || width <= 0 then Thrown(ZerosFailure)
        else match InvertAll(hs, inv)
          case Thrown(e) => Returned(Failure(InvertFailureMsg, Some(e)))
          case Returned(hsInv) =>
            if WarpThrows(imgs, box.lo, hsInv, height, width) then
              Returned(Failure(WarpFailureMsg, Some(TransformError)))
            else Returned(Success(Canvas(imgs, box.lo, hsInv, height, width)))
  }

  lemma {:induction false} GridIsCanvas(a: array2<Pixel>, imgs: seq<Image>, origin: Point, hsInv: seq<Mat3>)
    requires AllValid(imgs) && |hsInv| == |imgs|
    requires forall y, x :: 0 <= y < a.Length0 && 0 <= x < a.Length1 ==>
      a[y, x] == Warped(Claim(imgs, origin, hsInv, x, y, 0), Black)
    ensures Grid(a) == Canvas(imgs, origin, hsInv, a.Length0, a.Length1)
  {
    var g, c := Grid(a), Canvas(imgs, origin, hsInv, a.Length0, a.Length1);
    forall y | 0 <= y < a.Length0 ensures g[y] == c[y] {
      assert forall x :: 0 <= x < a.Length1 ==> g[y][x] == c[y][x];
    }
  }

  /** A result of `stitchPanorama` with the panorama array read as a grid. */
  ghost function Render(r: Try<Output<array2<Pixel>>>): Try<Output<seq<seq<Pixel>>>>
    reads if r.Returned? && r.value.Success? then {r.value.data} else {}
  {
    match r
    case Thrown(e) => Thrown(e)
    case Returned(Failure(m, c)) => Returned(Failure(m, c))
    case Returned(Success(a)) => Returned(Success(Grid(a)))
  }

  /** `stitchPanorama(imgs, parent)`: homographies, box, zero canvas of
      (height() + 1) x (width() + 1), inverses, warp. A failure to invert or
      to warp is reported with its cause and no panorama. */
  method StitchPanoramaTree(imgs: seq<Image>, parent: seq<int>, estimate: Estimator, inv: Inverter)
    returns (r: Try<Output<array2<Pixel>>>)
    requires AllValid(imgs) && Acyclic(parent, |imgs|)
    ensures r.Returned? && r.value.Success? ==> fresh(r.value.data)
    ensures Render(r) == Stitched(imgs, parent, estimate, inv)
  {
    var result := EstimateHomographyForEachImg(imgs, parent, estimate);
    if result.Thrown? {
      return Thrown(result.exception);
    }
    var hs: seq<Mat3>;
    match result.value {
      case Failure(msg, e) => return Returned(Failure(msg, e));
      case Success(data) => hs := data;
    }
    var b := EstimateResultBBox(imgs, hs);
    if b.Thrown? {
      return Thrown(b.exception);
    }
    var bbox := b.value;
    var resultWidth := AddInt32(bbox.Width(), 1);
    var resultHeight := AddInt32(bbox.Height(), 1);
    if resultHeight <= 0 || resultWidth <= 0 {
      return Thrown(ZerosFailure);
    }
    var panorama := new Pixel[resultHeight, resultWidth]((_, _) => Black);
    var hsInv := InvertAll(hs, inv);
    if hsInv.Thrown? {
      return Returned(Failure(InvertFailureMsg, Some(hsInv.exception)));
    }
    var err := WarpImages(imgs, bbox, hsInv.value, panorama);
    if err.Some? {
      return Returned(Failure(WarpFailureMsg, Some(err.value)));
    }
    GridIsCanvas(panorama, imgs, bbox.Corners().lo, hsInv.value);
    r := Returned(Success(panorama));
  }

  /** `stitchPanorama(imgs)`: each image is stitched onto the one before. */
  method StitchPanorama(imgs: seq<Image>, estimate: Estimator, inv: Inverter)
    returns (r: Try<Output<array2<Pixel>>>)
    requires AllValid(imgs)
    ensures Acyclic(ChainParents(|imgs|), |imgs|)
    ensures r.Returned? && r.value.Success? ==> fresh(r.value.data)
    ensures Render(r) == Stitched(imgs, ChainParents(|imgs|), estimate, inv)
  {
    ChainParentsForest(|imgs|);
    r := StitchPanoramaTree(imgs, ChainParents(|imgs|), estimate, inv);
  }

  /** The first-match rule for the value p of output pixel (x, y): the
      pixel of the first image, by index, that its shifted and
      inverse-transformed coordinate lands in, or zero when it lands in none. */
  predicate FirstLanding(imgs: seq<Image>, origin: Point, hsInv: seq<Mat3>, x: int, y: int, p: Pixel)
    requires AllValid(imgs) && |hsInv| == |imgs|
  {
    || (p == Black && forall j :: 0 <= j < |imgs| ==> Misses(imgs, origin, hsInv, x, y, j))
    || exists k :: 0 <= k < |imgs| &&
         (forall j :: 0 <= j < k ==> Misses(imgs, origin, hsInv, x, y, j)) &&
         SourcePoint(origin, hsInv[k], x, y).Returned? &&
         Lands(imgs[k], SourcePoint(origin, hsInv[k], x, y).value) &&
         p == PixelUnder(imgs[k], SourcePoint(origin, hsInv[k], x, y).value)
  }

  /** On a canvas whose warp did not throw, every pixel follows the
      first-match rule. */
  lemma {:induction false} CanvasPixel(imgs: seq<Image>, origin: Point, hsInv: seq<Mat3>, rows: nat, cols: nat,
                                       y: nat, x: nat)
    requires AllValid(imgs) && |hsInv| == |imgs| && y < rows && x < cols
    requires !WarpThrows(imgs, origin, hsInv, rows, cols)
    ensures FirstLanding(imgs, origin, hsInv, x, y, Canvas(imgs, origin, hsInv, rows, cols)[y][x])
  {
    var c := Claim(imgs, origin, hsInv, x, y, 0);
    assert !c.Thrown?;
    ClaimNoneIffAllMiss(imgs, origin, hsInv, x, y, 0);
    if c.value.Some? {
      ClaimIsFirstLanding(imgs, origin, hsInv, x, y, 0);
    }
  }

  /** A stitched panorama is the warped canvas of height() + 1 rows and
      width() + 1 columns, computed as Kotlin `Int`s, on which no
      `transform` threw. */
  lemma {:induction false} StitchedCanvas(imgs: seq<Image>, parent: seq<int>, estimate: Estimator, inv: Inverter,
                                          g: seq<seq<Pixel>>)
    requires AllValid(imgs) && Acyclic(parent, |imgs|)
    requires Stitched(imgs, parent, estimate, inv) == Returned(Success(g))
    ensures ForEachImg(imgs, parent, estimate).Returned? && ForEachImg(imgs, parent, estimate).value.Success?
    ensures var hs := ForEachImg(imgs, parent, estimate).value.data;
      && BoxPoints(imgs, hs, |imgs|).Returned?
      && InvertAll(hs, inv).Returned?
      && var box := GrowAll(Initial, BoxPoints(imgs, hs, |imgs|).value);
         var hsInv := InvertAll(hs, inv).value;
         var rows, cols := AddInt32(HeightOf(box), 1), AddInt32(WidthOf(box), 1);
         && rows > 0 && cols > 0
         && !WarpThrows(imgs, box.lo, hsInv, rows, cols)
         && g == Canvas(imgs, box.lo, hsInv, rows, cols)
  {
  }

  /** The converse of `StitchedCanvas`: homographies, a box, a positive
      canvas size, the inverses and a warp that does not throw give the
      warped canvas as the panorama. */
  lemma {:induction false} CanvasIsStitched(imgs: seq<Image>, parent: seq<int>, estimate: Estimator, inv: Inverter,
                                            hs: seq<Mat3>, ps: seq<Point>, hsInv: seq<Mat3>)
    requires AllValid(imgs) && Acyclic(parent, |imgs|)
    ensures var box := GrowAll(Initial, ps);
      var rows, cols := AddInt32(HeightOf(box), 1), AddInt32(WidthOf(box), 1);
      && ForEachImg(imgs, parent, estimate) == Returned(Success(hs))
      && BoxPoints(imgs, hs, |imgs|) == Returned(ps)
      && InvertAll(hs, inv) == Returned(hsInv)
      && rows > 0 && cols > 0
      && !WarpThrows(imgs, box.lo, hsInv, rows, cols)
      ==> Stitched(imgs, parent, estimate, inv) == Returned(Success(Canvas(imgs, box.lo, hsInv, rows, cols)))
  {
  }

  /** Every pixel of a stitched panorama follows the first-match rule, on a
      canvas of height() + 1 rows and width() + 1 columns. */
  lemma {:induction false} PanoramaPixel(imgs: seq<Image>, parent: seq<int>, estimate: Estimator, inv: Inverter,
                                         g: seq<seq<Pixel>>, y: nat, x: nat)
    requires AllValid(imgs) && Acyclic(parent, |imgs|)
    requires Stitched(imgs, parent, estimate, inv) == Returned(Success(g))
    requires y < |g| && x < |g[y]|
    ensures ForEachImg(imgs, parent, estimate).Returned? && ForEachImg(imgs, parent, estimate).value.Success?
    ensures var hs := ForEachImg(imgs, parent, estimate).value.data;
      && BoxPoints(imgs, hs, |imgs|).Returned?
      && InvertAll(hs, inv).Returned?
      && var box := GrowAll(Initial, BoxPoints(imgs, hs, |imgs|).value);
         var hsInv := InvertAll(hs, inv).value;
         && |g| == AddInt32(HeightOf(box), 1)
         && |g[y]| == AddInt32(WidthOf(box), 1)
         && FirstLanding(imgs, box.lo, hsInv, x, y, g[y][x])
  {
    StitchedCanvas(imgs, parent, estimate, inv, g);
    var hs := ForEachImg(imgs, parent, estimate).value.data;
    var box := GrowAll(Initial, BoxPoints(imgs, hs, |imgs|).value);
    var hsInv := InvertAll(hs, inv).value;
    CanvasPixel(imgs, box.lo, hsInv, AddInt32(HeightOf(box), 1), AddInt32(WidthOf(box), 1), y, x);
  }

  /** How `stitchPanorama` can fail: an estimation failure of the first
      image whose estimate failed, with its cause; an inversion failure with
      the inverter's exception; or a warp failure caused by `transform`. It
      never reports an invalid tree, and never returns a partial panorama. */
  lemma {:induction false} StitchedFailureCauses(imgs: seq<Image>, parent: seq<int>, estimate: Estimator, inv: Inverter,
                                                 msg: string, cause: Option<Exception>)
    requires AllValid(imgs) && Acyclic(parent, |imgs|)
    requires Stitched(imgs, parent, estimate, inv) == Returned(Failure(msg, cause))
    ensures msg != InvalidTreeMsg
    ensures || (msg == InvertFailureMsg && cause.Some?)
            || (msg == WarpFailureMsg && cause == Some(TransformError))
            || exists j ::
                 && 0 <= j < |imgs| && j < |parent|
                 && EdgeFailsAt(imgs, parent, estimate, j, msg, cause)
                 && (forall k :: 0 <= k < j ==> EdgeSolved(imgs, parent, estimate, k))
  {
    StitchedFailureSource(imgs, parent, estimate, inv, msg, cause);
    var edges := EstimatedEdges(imgs, parent, estimate);
    if ForEachImg(imgs, parent, estimate) != Returned(Failure(msg, cause)) {
    } else if edges.Returned? && edges.value.Success? {
      ForEachImgNeverInvalid(imgs, parent, estimate);
    } else if edges.Returned? {
      EstimatedEdgesFailure(imgs, parent, estimate, msg, cause);
      var j :| && 0 <= j < |imgs| && j < |parent|
               && EdgeFailsAt(imgs, parent, estimate, j, msg, cause)
               && (forall k :: 0 <= k < j ==> EdgeSolved(imgs, parent, estimate, k));
      assert msg[..34] == "Failed to estimate homography for ";
    }
  }

  /** A failure of `stitchPanorama` is the failure of the homography
      estimation, or one of the two failures it reports itself. */
  lemma StitchedFailureSource(imgs: seq<Image>, parent: seq<int>, estimate: Estimator, inv: Inverter,
                              msg: string, cause: Option<Exception>)
    requires AllValid(imgs) && Acyclic(parent, |imgs|)
    requires Stitched(imgs, parent, estimate, inv) == Returned(Failure(msg, cause))
    ensures || ForEachImg(imgs, parent, estimate) == Returned(Failure(msg, cause))
            || (msg == InvertFailureMsg && cause.Some?)
            || (msg == WarpFailureMsg && cause == Some(TransformError))
  {
  }

  // ---------------------------------------------------------------------
  // One image and no parent

  /** A single root needs no estimate: its homography is the identity. */
  lemma {:induction false} SingleRootHomography(img: Image, estimate: Estimator)
    ensures Acyclic([-1], 1)
    ensures ForEachImg([img], [-1], estimate) == Returned(Success([Identity]))
  {
    assert ChainEnds([-1], 1, 0, 1);
    assert EdgesFrom([img], [-1], estimate, 1, map[]) == Returned(Success(map[]));
    assert EstimatedEdges([img], [-1], estimate) == Returned(Success(map[]));
    assert Chain(map[], [-1], 1, 0, Identity, 1) == Success(Identity);
    assert ComposeFrom(map[], [-1], 1, 1, [Identity]) == Success([Identity]);
  }

  /** Under the identity the box is grown with the image's own corners. */
  lemma {:induction false} IdentityBoxPoints(img: Image)
    ensures BoxPoints([img], [Identity], 1) == Returned(CornerPoints(img))
  {
    var cs := CornerPoints(img);
    TransformIdentity(cs[0]);
    TransformIdentity(cs[1]);
    TransformIdentity(cs[2]);
    TransformIdentity(cs[3]);
    assert TransformedCorners(img, Identity) == Returned(cs);
    assert BoxPoints([img], [Identity], 0) == Returned([]);
    assert [] + cs == cs;
  }

  /** The corners of an image with at least one row and one column grow
      the new box to (0, 0)-(cols, rows): the starting `_min` of MAX_VALUE
      and `_max` of MIN_VALUE are both replaced. */
  lemma {:induction false} CornerBox(img: Image)
    requires img.rows > 0 && img.cols > 0
    ensures GrowAll(Initial, CornerPoints(img)) == Extent(Point(0.0, 0.0), Point(img.cols as real, img.rows as real))
  {
    var cs := CornerPoints(img);
    var w, h := img.cols as real, img.rows as real;
    var tiny := Point(DoubleMinValue, DoubleMinValue);
    DoubleMinValueBelowOne();
    GrowFour(Initial, cs);
    var e1 := Grown(Initial, cs[0]);
    assert e1 == Extent(Point(0.0, 0.0), tiny);
    var e2 := Grown(e1, cs[1]);
    assert e2 == Extent(Point(0.0, 0.0), Point(w, DoubleMinValue));
    var e3 := Grown(e2, cs[2]);
    assert e3 == Extent(Point(0.0, 0.0), Point(w, h));
    assert Grown(e3, cs[3]) == e3;
  }

  lemma DoubleMinValueBelowOne()
    ensures 0.0 < DoubleMinValue <= 1.0
  {
    assert TwoPow1074 as real >= 1.0;
  }

  /** On the box (0, 0)-(cols, rows), `height() + 1` and `width() + 1`
      are rows + 1 and cols + 1. */
  lemma {:induction false} IdentityCanvasSize(img: Image)
    requires 0 < img.rows < IntMax && 0 < img.cols < IntMax
    ensures var box := Extent(Point(0.0, 0.0), Point(img.cols as real, img.rows as real));
      AddInt32(HeightOf(box), 1) == img.rows + 1 && AddInt32(WidthOf(box), 1) == img.cols + 1
  {
    RoundIntegral(img.rows);
    RoundIntegral(img.cols);
    assert img.rows as real - 0.0 == img.rows as real;
    assert img.cols as real - 0.0 == img.cols as real;
  }

  /** An inverter that maps the identity to itself inverts `[I]` to `[I]`. */
  lemma {:induction false} InvertIdentity(inv: Inverter)
    requires inv(Identity) == Returned(Identity)
    ensures InvertAll([Identity], inv) == Returned([Identity])
  {
    var r := InvertAll([Identity], inv);
    assert [Identity][0] == Identity;
    assert r.Returned? && |r.value| == 1 && r.value[0] == Identity;
    assert r.value == [r.value[0]];
  }

  /** Output pixel (x, y) of the identity warp takes the input pixel at
      (x, y) inside the image, and nothing on the extra row and column. */
  lemma {:induction false} IdentityClaim(img: Image, x: nat, y: nat)
    requires img.Valid() && img.rows < IntMax && img.cols < IntMax
    requires x <= img.cols && y <= img.rows
    ensures AllValid([img])
    ensures x < img.cols && y < img.rows ==>
      Claim([img], Point(0.0, 0.0), [Identity], x, y, 0) == Returned(Some(img.pixels[y][x]))
    ensures x == img.cols || y == img.rows ==>
      Claim([img], Point(0.0, 0.0), [Identity], x, y, 0) == Returned(None)
  {
    var q := Plus(PtInt(x, y), Point(0.0, 0.0));
    assert q == Point(x as real, y as real);
    TransformIdentity(q);
    RoundIntegral(x);
    RoundIntegral(y);
    assert RoundToInt(q.x) == x && RoundToInt(q.y) == y;
    assert Claim([img], Point(0.0, 0.0), [Identity], x, y, 1) == Returned(None);
  }

  /** The identity warp of one image onto a canvas one row and one column
      larger does not throw; it copies the image and leaves the extra row
      and column zero. */
  lemma {:induction false} IdentityCanvas(img: Image)
    requires img.Valid() && img.rows < IntMax && img.cols < IntMax
    ensures AllValid([img])
    ensures !WarpThrows([img], Point(0.0, 0.0), [Identity], img.rows + 1, img.cols + 1)
    ensures var p := Canvas([img], Point(0.0, 0.0), [Identity], img.rows + 1, img.cols + 1);
      && (forall y, x :: 0 <= y < img.rows && 0 <= x < img.cols ==> p[y][x] == img.pixels[y][x])
      && (forall x :: 0 <= x <= img.cols ==> p[img.rows][x] == Black)
      && (forall y :: 0 <= y <= img.rows ==> p[y][img.cols] == Black)
  {
    var imgs, origin := [img], Point(0.0, 0.0);
    var rows, cols := img.rows + 1, img.cols + 1;
    assert AllValid(imgs);
    var p := Canvas(imgs, origin, [Identity], rows, cols);
    forall y, x | 0 <= y < rows && 0 <= x < cols
      ensures Claim(imgs, origin, [Identity], x, y, 0).Returned?
      ensures p[y][x] == if y < img.rows && x < img.cols then img.pixels[y][x] else Black
    {
      IdentityClaim(img, x, y);
    }
  }

  /** With one image and `parent = [-1]` the panorama is the identity warp
      onto the (rows + 1) x (cols + 1) canvas at origin (0, 0). */
  lemma {:induction false} SingleImageStitched(img: Image, estimate: Estimator, inv: Inverter)
    requires img.Valid() && 0 < img.rows < IntMax && 0 < img.cols < IntMax
    requires inv(Identity) == Returned(Identity)
    ensures AllValid([img]) && Acyclic([-1], 1)
    ensures Stitched([img], [-1], estimate, inv) ==
      Returned(Success(Canvas([img], Point(0.0, 0.0), [Identity], img.rows + 1, img.cols + 1)))
  {
    SingleRootHomography(img, estimate);
    IdentityBoxPoints(img);
    CornerBox(img);
    IdentityCanvasSize(img);
    InvertIdentity(inv);
    IdentityCanvas(img);
    CanvasIsStitched([img], [-1], estimate, inv, [Identity], CornerPoints(img), [Identity]);
  }

  /** Stitching one image with `parent = [-1]` and an inverter that maps
      the identity to itself: the panorama is the image with one more row
      and one more column of zero pixels, because the canvas is
      `height() + 1` by `width() + 1` and the last row and column round to
      `rows` and `cols`, which `until` excludes. */
  lemma {:induction false} SingleImagePanorama(img: Image, estimate: Estimator, inv: Inverter)
    requires img.Valid() && 0 < img.rows < IntMax && 0 < img.cols < IntMax
    requires inv(Identity) == Returned(Identity)
    ensures AllValid([img]) && Acyclic([-1], 1)
    ensures Stitched([img], [-1], estimate, inv).Returned?
    ensures Stitched([img], [-1], estimate, inv).value.Success?
    ensures var p := Stitched([img], [-1], estimate, inv).value.data;
      && |p| == img.rows + 1
      && (forall y :: 0 <= y <= img.rows ==> |p[y]| == img.cols + 1)
      && (forall y, x :: 0 <= y < img.rows && 0 <= x < img.cols ==> p[y][x] == img.pixels[y][x])
      && (forall x :: 0 <= x <= img.cols ==> p[img.rows][x] == Black)
      && (forall y :: 0 <= y <= img.rows ==> p[y][img.cols] == Black)
  {
    SingleImageStitched(img, estimate, inv);
    IdentityCanvas(img);
  }

  /** With no images the box is never grown: `width()` is round(MIN_VALUE -
      MAX_VALUE) saturated to `Int.MIN_VALUE`, the canvas width is not
      positive and allocating it throws. */
  lemma {:induction false} NoImagesNoCanvas(parent: seq<int>, estimate: Estimator, inv: Inverter)
    ensures Acyclic(parent, 0)
    ensures WidthOf(Initial) == IntMin && HeightOf(Initial) == IntMin
    ensures Stitched([], parent, estimate, inv) == Thrown(ZerosFailure)
  {
    assert Round(DoubleMinValue - DoubleMaxValue) < IntMin;
    assert EstimatedEdges([], parent, estimate) == Returned(Success(map[]));
    assert Compose(map[], parent, 0) == Success([]);
  }
}
