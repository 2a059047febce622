/** `BruteForceMatcher`: for every query descriptor, the two nearest train
    descriptors, kept in a two-element list that is updated in place as
    the train rows are scanned. The OpenCV distance is a collaborator. */
module Matching {
  import opened Outputs

  /** One descriptor: a row of the descriptor matrix. */
  type Row = seq<real>

  /** `norm(train - query, NORM_L2)`: the distance of a train row from a query row. */
  type Distance = (Row, Row) -> real

  /** OpenCV's `DMatch`. */
  datatype DMatch = DMatch(queryIdx: int, trainIdx: int, imgIdx: int, distance: real)

  const TooFewTrainRows: Exception := RuntimeException("BruteforceMatcher:: train : needed at least 2 train descriptors")
  const NotTrained: Exception := RuntimeException("BruteforceMatcher:: Match : matcher is not trained")
  const OnlyKTwo: Exception := RuntimeException("BruteforceMatcher:: Match : only k = 2 supported")
  const InvalidCount: Exception := RuntimeException("BruteforceMatcher:: match : invalid number of matches")

  /** The match of query row qi against train row ti. */
  function MatchOf(query: seq<Row>, train: seq<Row>, dist: Distance, qi: nat, ti: nat): (m: DMatch)
    requires qi < |query| && ti < |train|
    ensures m.queryIdx == qi && m.trainIdx == ti && m.imgIdx == 0
    ensures m.distance == dist(train[ti], query[qi])
  {
    DMatch(qi, ti, 0, dist(train[ti], query[qi]))
  }

  /** The `when` on `dst.size`: the list after offering it match m. */
  function Offer(dst: seq<DMatch>, m: DMatch): Try<seq<DMatch>>
  {
    if |dst| == 0 then Returned([m])
    else if |dst| == 1 then
      var d := dst + [m];
      Returned(if d[0].distance > d[1].distance then [d[1], d[0]] else d)
    else if |dst| == 2 then
      if dst[0].distance > m.distance then Returned([m, dst[0]])
      else if dst[1].distance >= m.distance then Returned([dst[0], m])
      else Returned(dst)
    else Thrown(InvalidCount)
  }

  /** The list of query row qi after the train rows [0, t). */
  function Nearest(query: seq<Row>, train: seq<Row>, dist: Distance, qi: nat, t: nat): Try<seq<DMatch>>
    requires qi < |query| && t <= |train|
  {
    if t == 0 then Returned([])
    else match Nearest(query, train, dist, qi, t - 1)
      case Thrown(e) => Thrown(e)
      case Returned(dst) => Offer(dst, MatchOf(query, train, dist, qi, t - 1))
  }

  /** The lists of the first n query rows, or the first exception. */
  function MatchRows(query: seq<Row>, train: seq<Row>, dist: Distance, n: nat): (r: Try<seq<seq<DMatch>>>)
    requires n <= |query|
    ensures r.Returned? ==> |r.value| == n
  {
    if n == 0 then Returned([])
    else match MatchRows(query, train, dist, n - 1)
      case Thrown(e) => Thrown(e)
      case Returned(ms) =>
        match Nearest(query, train, dist, n - 1, |train|)
        case Thrown(e) => Thrown(e)
        case Returned(dst) => Returned(ms + [dst])
  }

  class BruteForceMatcher {
    /** `lateinit var trainDescriptors`: None until `train` succeeds. */
    var trainDescriptors: Option<seq<Row>>

    /** Only a matrix of two rows or more is ever stored. */
    predicate Valid()
      reads this
    {
      trainDescriptors.Some? ==> |trainDescriptors.value| >= 2
    }

    constructor ()
      ensures Valid() && trainDescriptors == None
    {
      trainDescriptors := None;
    }

    /** `train(trainDesc)`: refuses fewer than two rows, stores the rest. */
    method Train(trainDesc: seq<Row>) returns (err: Option<Exception>)
      requires Valid()
      modifies this
      ensures Valid()
      ensures |trainDesc| < 2 ==> err == Some(TooFewTrainRows) && trainDescriptors == old(trainDescriptors)
      ensures |trainDesc| >= 2 ==> err == None && trainDescriptors == Some(trainDesc)
    {
      if |trainDesc| < 2 {
        return Some(TooFewTrainRows);
      }
      trainDescriptors := Some(trainDesc);
      return None;
    }

    /** `match(query, k = 2)`: refuses an untrained matcher and any k but 2;
        otherwise scans the train rows for every query row, keeping the two
        nearest in `dst`. */
    method Match(query: seq<Row>, dist: Distance, k: int := 2) returns (r: Try<seq<seq<DMatch>>>)
      requires Valid()
      ensures trainDescriptors.None? ==> r == Thrown(NotTrained)
      ensures trainDescriptors.Some? && k != 2 ==> r == Thrown(OnlyKTwo)
      ensures trainDescriptors.Some? && k == 2 ==> r == MatchRows(query, trainDescriptors.value, dist, |query|)
    {
      if trainDescriptors.None? {
        return Thrown(NotTrained);
      }
      if k != 2 {
        return Thrown(OnlyKTwo);
      }
      var ndesc := |query|;
      var matches: seq<seq<DMatch>> := seq(ndesc, _ => []);
      var train := trainDescriptors.value;
      var ntrain := |train|;
      for qi := 0 to ndesc
        invariant |matches| == ndesc
        invariant MatchRows(query, train, dist, qi) == Returned(matches[..qi])
        invariant forall j :: qi <= j < ndesc ==> matches[j] == []
      {
        var dst := matches[qi];
        for ti := 0 to ntrain
          invariant Nearest(query, train, dist, qi, ti) == Returned(dst)
        {
          var m := DMatch(qi, ti, 0, dist(train[ti], query[qi]));
          assert m == MatchOf(query, train, dist, qi, ti);
          ghost var dst0 := dst;
          assert Nearest(query, train, dist, qi, ti + 1) == Offer(dst0, m);
          if |dst| == 0 {
            dst := dst + [m];
            assert dst == [m];
          } else if |dst| == 1 {
            dst := dst + [m];
            if dst[0].distance > dst[1].distance {
              dst := [dst[1], dst[0]];
            }
          } else if |dst| == 2 {
            if dst[0].distance > m.distance {
              dst := dst[1 := dst[0]];
              dst := dst[0 := m];
              assert dst == [m, dst0[0]];
            } else if dst[1].distance >= m.distance {
              dst := dst[1 := m];
              assert dst == [dst0[0], m];
            }
          } else {
            return Thrown(InvalidCount);
          }
        }
        ghost var done := matches[..qi];
        matches := matches[qi := dst];
        assert matches[..qi + 1] == done + [dst];
      }
      assert matches[..ndesc] == matches;
      return Returned(matches);
    }
  }

  // ---------------------------------------------------------------------
  // The two nearest rows

  /** The distance of train row j from query row qi. */
  function D(query: seq<Row>, train: seq<Row>, dist: Distance, qi: nat, j: nat): real
    requires qi < |query| && j < |train|
  {
    dist(train[j], query[qi])
  }

  /** What `dst` holds after the train rows [0, t), t >= 1: one entry per
      row seen up to two, each the match of its own row; dst[0] is the
      earliest row of minimal distance, and dst[1] is no farther than any
      other row seen. */
  ghost predicate TopTwo(query: seq<Row>, train: seq<Row>, dist: Distance, qi: nat, t: nat, dst: seq<DMatch>)
    requires qi < |query| && 0 < t <= |train|
  {
    && |dst| == (if t == 1 then 1 else 2)
    && (forall e :: 0 <= e < |dst| ==>
          0 <= dst[e].trainIdx < t && dst[e] == MatchOf(query, train, dist, qi, dst[e].trainIdx))
    && (forall j :: 0 <= j < t ==> dst[0].distance <= D(query, train, dist, qi, j))
    && (forall j :: 0 <= j < dst[0].trainIdx ==> dst[0].distance < D(query, train, dist, qi, j))
    && (|dst| == 2 ==>
          && dst[0].trainIdx != dst[1].trainIdx
          && dst[0].distance <= dst[1].distance
          && forall j :: 0 <= j < t && j != dst[0].trainIdx ==> dst[1].distance <= D(query, train, dist, qi, j))
  }

  /** The top-2 invariant holds after every train row, so the list never
      grows past two entries and the size > 2 branch is never taken. */
  lemma {:induction false} NearestIsTopTwo(query: seq<Row>, train: seq<Row>, dist: Distance, qi: nat, t: nat)
    requires qi < |query| && 0 < t <= |train|
    ensures Nearest(query, train, dist, qi, t).Returned?
    ensures TopTwo(query, train, dist, qi, t, Nearest(query, train, dist, qi, t).value)
  {
    if t > 1 {
      NearestIsTopTwo(query, train, dist, qi, t - 1);
      var dst := Nearest(query, train, dist, qi, t - 1).value;
      if t == 2 {
        OfferSecondKeepsTopTwo(query, train, dist, qi, dst);
      } else {
        OfferLaterKeepsTopTwo(query, train, dist, qi, t, dst);
      }
    }
  }

  /** The second train row makes the one-entry list a sorted pair. */
  lemma {:induction false} OfferSecondKeepsTopTwo(query: seq<Row>, train: seq<Row>, dist: Distance, qi: nat,
                                                  dst: seq<DMatch>)
    requires qi < |query| && 2 <= |train|
    requires TopTwo(query, train, dist, qi, 1, dst)
    ensures Offer(dst, MatchOf(query, train, dist, qi, 1)).Returned?
    ensures TopTwo(query, train, dist, qi, 2, Offer(dst, MatchOf(query, train, dist, qi, 1)).value)
  {
    assert dst[0] == MatchOf(query, train, dist, qi, 0);
    assert D(query, train, dist, qi, 1) == MatchOf(query, train, dist, qi, 1).distance;
  }

  /** A later train row displaces the first, the second or neither entry. */
  lemma {:induction false} OfferLaterKeepsTopTwo(query: seq<Row>, train: seq<Row>, dist: Distance, qi: nat, t: nat,
                                                 dst: seq<DMatch>)
    requires qi < |query| && 2 < t <= |train|
    requires TopTwo(query, train, dist, qi, t - 1, dst)
    ensures Offer(dst, MatchOf(query, train, dist, qi, t - 1)).Returned?
    ensures TopTwo(query, train, dist, qi, t, Offer(dst, MatchOf(query, train, dist, qi, t - 1)).value)
  {
    var m := MatchOf(query, train, dist, qi, t - 1);
    assert D(query, train, dist, qi, t - 1) == m.distance;
  }

  /** Every list of a finished match follows the top-2 rule over all train
      rows; with two train rows or more it has exactly two entries. */
  lemma {:induction false} MatchRowsTopTwo(query: seq<Row>, train: seq<Row>, dist: Distance, n: nat)
    requires n <= |query| && 0 < |train|
    ensures MatchRows(query, train, dist, n).Returned?
    ensures forall qi :: 0 <= qi < n ==> TopTwo(query, train, dist, qi, |train|, MatchRows(query, train, dist, n).value[qi])
  {
    if n > 0 {
      MatchRowsTopTwo(query, train, dist, n - 1);
      NearestIsTopTwo(query, train, dist, n - 1, |train|);
      var ms := MatchRows(query, train, dist, n - 1).value;
      var r := MatchRows(query, train, dist, n).value;
      assert forall qi :: 0 <= qi < n - 1 ==> r[qi] == ms[qi];
    }
  }

  /** On a trained matcher with k = 2, `match` returns one list per query
      row, in order; every entry carries its query row, image 0, and the
      train row it was computed from, with that row's distance. */
  lemma {:induction false} MatchEntries(query: seq<Row>, train: seq<Row>, dist: Distance)
    requires |train| >= 2
    ensures MatchRows(query, train, dist, |query|).Returned?
    ensures |MatchRows(query, train, dist, |query|).value| == |query|
    ensures forall qi :: 0 <= qi < |query| ==> |MatchRows(query, train, dist, |query|).value[qi]| == 2
    ensures forall qi, e :: 0 <= qi < |query| && 0 <= e < |MatchRows(query, train, dist, |query|).value[qi]| ==>
      var m := MatchRows(query, train, dist, |query|).value[qi][e];
      m.queryIdx == qi && m.imgIdx == 0 && 0 <= m.trainIdx < |train| &&
      m.distance == D(query, train, dist, qi, m.trainIdx)
  {
    MatchRowsTopTwo(query, train, dist, |query|);
  }
}
