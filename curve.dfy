/**
 * The precision-recall curve: the dataset is re-evaluated at 500 evenly
 * spaced confidence thresholds, each time keeping only the predictions whose
 * confidence score reaches the threshold.
 */
module Curve {
  import opened Geometry
  import opened Matching
  import opened Scoring

  const NumThresholds: nat := 500

  /**
   * Threshold `t` of the sweep: 0, 1/499, ..., 1, the exact values of an even
   * spacing of [0, 1] in NumThresholds = 500 points (499 = NumThresholds - 1,
   * written as a literal so that the division stays linear).
   */
  function Threshold(t: nat): real {
    t as real / 499.0
  }

  lemma ThresholdRange(t: nat)
    requires t < NumThresholds
    ensures 0.0 <= Threshold(t) <= 1.0
    ensures t == 0 ==> Threshold(t) == 0.0
    ensures t == NumThresholds - 1 ==> Threshold(t) == 1.0
  {
  }

  lemma ThresholdIncreasing(t1: nat, t2: nat)
    requires t1 < t2
    ensures Threshold(t1) < Threshold(t2)
  {
  }

  // ---------------------------------------------------------------------------
  // Filtering one image
  // ---------------------------------------------------------------------------

  /** Indices, among the first `n`, of the boxes whose score reaches `thr`, in increasing order. */
  function Survivors(scores: seq<real>, thr: real, n: nat): (r: seq<nat>)
    requires n <= |scores|
    ensures forall i {:trigger r[i]} :: 0 <= i < |r| ==> r[i] < n
    ensures forall i, j {:trigger r[i], r[j]} :: 0 <= i < j < |r| ==> r[i] < r[j]
    ensures forall k: nat {:trigger k in r} :: k in r <==> k < n && scores[k] >= thr
  {
    if n == 0 then []
    else Survivors(scores, thr, n - 1) + (if scores[n - 1] >= thr then [n - 1] else [])
  }

  /** The boxes among the first `n` whose score reaches `thr`, in their original order. */
  function FilterByScore(boxes: seq<Box>, scores: seq<real>, thr: real, n: nat): (r: seq<Box>)
    requires n <= |scores| && n <= |boxes|
    ensures |r| == |Survivors(scores, thr, n)|
  {
    if n == 0 then []
    else FilterByScore(boxes, scores, thr, n - 1) + (if scores[n - 1] >= thr then [boxes[n - 1]] else [])
  }

  /** The `i`-th kept box is the box of the `i`-th surviving index. */
  lemma {:induction false} FilterByScoreAt(boxes: seq<Box>, scores: seq<real>, thr: real, n: nat, i: nat)
    requires n <= |scores| && n <= |boxes|
    requires i < |Survivors(scores, thr, n)|
    ensures FilterByScore(boxes, scores, thr, n)[i] == boxes[Survivors(scores, thr, n)[i]]
  {
    if i < |Survivors(scores, thr, n - 1)| {
      FilterByScoreAt(boxes, scores, thr, n - 1, i);
    }
  }

  /** The innermost loop: keeps the boxes of one image that reach the threshold. */
  method FilterImage(boxes: seq<Box>, scores: seq<real>, thr: real) returns (kept: seq<Box>)
    requires |scores| <= |boxes|
    ensures kept == FilterByScore(boxes, scores, thr, |scores|)
  {
    kept := [];
    for box := 0 to |scores|
      invariant kept == FilterByScore(boxes, scores, thr, box)
    {
      if scores[box] >= thr {
        kept := kept + [boxes[box]];
      }
    }
  }

  /** A higher threshold keeps no more boxes. */
  lemma {:induction false} SurvivorsShrink(scores: seq<real>, thr1: real, thr2: real, n: nat)
    requires thr1 <= thr2 && n <= |scores|
    ensures |Survivors(scores, thr2, n)| <= |Survivors(scores, thr1, n)|
  {
    if n > 0 {
      SurvivorsShrink(scores, thr1, thr2, n - 1);
    }
  }

  /** When every score is at least `thr`, nothing is dropped. */
  lemma {:induction false} FilterKeepsAll(boxes: seq<Box>, scores: seq<real>, thr: real, n: nat)
    requires n <= |scores| && n <= |boxes|
    requires forall k :: 0 <= k < n ==> scores[k] >= thr
    ensures FilterByScore(boxes, scores, thr, n) == boxes[..n]
  {
    if n > 0 {
      FilterKeepsAll(boxes, scores, thr, n - 1);
      assert boxes[..n] == boxes[..n - 1] + [boxes[n - 1]];
    }
  }

  /** When no score reaches `thr`, the image keeps no box (but is still there, empty). */
  lemma {:induction false} FilterDropsAll(boxes: seq<Box>, scores: seq<real>, thr: real, n: nat)
    requires n <= |scores| && n <= |boxes|
    requires forall k :: 0 <= k < n ==> scores[k] < thr
    ensures FilterByScore(boxes, scores, thr, n) == []
  {
    if n > 0 {
      FilterDropsAll(boxes, scores, thr, n - 1);
    }
  }

  // ---------------------------------------------------------------------------
  // Filtering every image
  // ---------------------------------------------------------------------------

  /** Every scored image has a prediction list, with at least one box per score. */
  predicate ScoresFit(allPreds: seq<seq<Box>>, scores: seq<seq<real>>) {
    |scores| <= |allPreds| &&
    forall i :: 0 <= i < |scores| ==> |scores[i]| <= |allPreds[i]|
  }

  /** The filtered prediction lists of the first `m` scored images, one list per image, empty ones included. */
  function FilterImages(allPreds: seq<seq<Box>>, scores: seq<seq<real>>, thr: real, m: nat): (r: seq<seq<Box>>)
    requires ScoresFit(allPreds, scores) && m <= |scores|
    ensures |r| == m
    ensures forall i {:trigger r[i]} :: 0 <= i < m ==> r[i] == FilterByScore(allPreds[i], scores[i], thr, |scores[i]|)
  {
    if m == 0 then []
    else FilterImages(allPreds, scores, thr, m - 1) + [FilterByScore(allPreds[m - 1], scores[m - 1], thr, |scores[m - 1]|)]
  }

  /** The middle loop: filters every scored image, keeping the empty ones. */
  method FilterAllImages(allPreds: seq<seq<Box>>, scores: seq<seq<real>>, thr: real) returns (allOver: seq<seq<Box>>)
    requires ScoresFit(allPreds, scores)
    ensures allOver == FilterImages(allPreds, scores, thr, |scores|)
  {
    allOver := [];
    for image := 0 to |scores|
      invariant allOver == FilterImages(allPreds, scores, thr, image)
    {
      var imageOver := FilterImage(allPreds[image], scores[image], thr);
      allOver := allOver + [imageOver];
    }
  }

  /** A higher threshold keeps no more boxes over the whole dataset. */
  lemma {:induction false} FilteredBoxCountShrinks(allPreds: seq<seq<Box>>, scores: seq<seq<real>>,
                                                   thr1: real, thr2: real, m: nat)
    requires ScoresFit(allPreds, scores) && m <= |scores| && thr1 <= thr2
    ensures BoxCount(FilterImages(allPreds, scores, thr2, m), m) <= BoxCount(FilterImages(allPreds, scores, thr1, m), m)
  {
    if m > 0 {
      var lo, hi := FilterImages(allPreds, scores, thr1, m), FilterImages(allPreds, scores, thr2, m);
      FilteredBoxCountShrinks(allPreds, scores, thr1, thr2, m - 1);
      BoxCountSamePrefix(lo, FilterImages(allPreds, scores, thr1, m - 1), m - 1);
      BoxCountSamePrefix(hi, FilterImages(allPreds, scores, thr2, m - 1), m - 1);
      SurvivorsShrink(scores[m - 1], thr1, thr2, |scores[m - 1]|);
    }
  }

  /** The box count of the first `n` images reads only those images. */
  lemma {:induction false} BoxCountSamePrefix(a: seq<seq<Box>>, b: seq<seq<Box>>, n: nat)
    requires n <= |a| && n <= |b|
    requires forall i :: 0 <= i < n ==> a[i] == b[i]
    ensures BoxCount(a, n) == BoxCount(b, n)
  {
    if n > 0 {
      BoxCountSamePrefix(a, b, n - 1);
    }
  }

  // ---------------------------------------------------------------------------
  // The sweep
  // ---------------------------------------------------------------------------

  /**
   * What the sweep needs: the scores fit the prediction lists, there is a
   * ground-truth list for every scored image, and every box that any
   * threshold can keep (score >= 0) has a non-zero union with every
   * ground truth of its image.
   */
  predicate CurveDefined(allPreds: seq<seq<Box>>, allGts: seq<seq<Box>>, scores: seq<seq<real>>) {
    ScoresFit(allPreds, scores) && |scores| <= |allGts| &&
    forall i, b, g :: 0 <= i < |scores| && 0 <= b < |scores[i]| && scores[i][b] >= 0.0 && 0 <= g < |allGts[i]| ==>
      UnionArea(allPreds[i][b], allGts[i][g]) != 0.0
  }

  /** The filtered images can all be matched against their ground truths. */
  lemma FilteredImagesDefined(allPreds: seq<seq<Box>>, allGts: seq<seq<Box>>, scores: seq<seq<real>>, thr: real)
    requires CurveDefined(allPreds, allGts, scores) && thr >= 0.0
    ensures ImagesDefined(FilterImages(allPreds, scores, thr, |scores|), allGts, |scores|)
  {
    var filtered := FilterImages(allPreds, scores, thr, |scores|);
    forall i | 0 <= i < |scores|
      ensures IouDefined(filtered[i], allGts[i])
    {
      var kept := Survivors(scores[i], thr, |scores[i]|);
      forall p, g | 0 <= p < |filtered[i]| && 0 <= g < |allGts[i]|
        ensures UnionArea(filtered[i][p], allGts[i][g]) != 0.0
      {
        FilterByScoreAt(allPreds[i], scores[i], thr, |scores[i]|, p);
        assert kept[p] in kept;
      }
    }
  }

  /** The dataset counts at confidence threshold `thr`, against the unfiltered ground truths. */
  function CountsAt(allPreds: seq<seq<Box>>, allGts: seq<seq<Box>>, scores: seq<seq<real>>, iouThreshold: real, thr: real): (r: Counts)
    requires CurveDefined(allPreds, allGts, scores) && thr >= 0.0
    ensures r.tp >= 0 && r.fp >= 0 && r.fn >= 0
    ensures r.tp + r.fp == BoxCount(FilterImages(allPreds, scores, thr, |scores|), |scores|)
    ensures r.tp + r.fn == BoxCount(allGts, |scores|)
  {
    FilteredImagesDefined(allPreds, allGts, scores, thr);
    Totals(FilterImages(allPreds, scores, thr, |scores|), allGts, iouThreshold, |scores|)
  }

  function PrecisionAt(allPreds: seq<seq<Box>>, allGts: seq<seq<Box>>, scores: seq<seq<real>>, iouThreshold: real, t: nat): (r: real)
    requires CurveDefined(allPreds, allGts, scores)
    ensures 0.0 <= r <= 1.0
  {
    var c := CountsAt(allPreds, allGts, scores, iouThreshold, Threshold(t));
    Precision(c.tp, c.fp, c.fn)
  }

  function RecallAt(allPreds: seq<seq<Box>>, allGts: seq<seq<Box>>, scores: seq<seq<real>>, iouThreshold: real, t: nat): (r: real)
    requires CurveDefined(allPreds, allGts, scores)
    ensures 0.0 <= r <= 1.0
  {
    var c := CountsAt(allPreds, allGts, scores, iouThreshold, Threshold(t));
    Recall(c.tp, c.fp, c.fn)
  }

  /** The precisions of thresholds 0 .. n-1, in order. */
  function PrecisionsUpTo(allPreds: seq<seq<Box>>, allGts: seq<seq<Box>>, scores: seq<seq<real>>, iouThreshold: real, n: nat): (r: seq<real>)
    requires CurveDefined(allPreds, allGts, scores)
    ensures |r| == n
    ensures forall t {:trigger r[t]} :: 0 <= t < n ==> 0.0 <= r[t] <= 1.0
  {
    if n == 0 then []
    else PrecisionsUpTo(allPreds, allGts, scores, iouThreshold, n - 1) + [PrecisionAt(allPreds, allGts, scores, iouThreshold, n - 1)]
  }

  /** The recalls of thresholds 0 .. n-1, in order. */
  function RecallsUpTo(allPreds: seq<seq<Box>>, allGts: seq<seq<Box>>, scores: seq<seq<real>>, iouThreshold: real, n: nat): (r: seq<real>)
    requires CurveDefined(allPreds, allGts, scores)
    ensures |r| == n
    ensures forall t {:trigger r[t]} :: 0 <= t < n ==> 0.0 <= r[t] <= 1.0
  {
    if n == 0 then []
    else RecallsUpTo(allPreds, allGts, scores, iouThreshold, n - 1) + [RecallAt(allPreds, allGts, scores, iouThreshold, n - 1)]
  }

  /** Entry `t` of the precision curve is the precision at threshold `t`, whatever the curve's length beyond it. */
  lemma {:induction false} PrecisionsUpToAt(allPreds: seq<seq<Box>>, allGts: seq<seq<Box>>, scores: seq<seq<real>>,
                                            iouThreshold: real, n: nat, t: nat)
    requires CurveDefined(allPreds, allGts, scores) && t < n
    ensures PrecisionsUpTo(allPreds, allGts, scores, iouThreshold, n)[t] == PrecisionAt(allPreds, allGts, scores, iouThreshold, t)
  {
    if t < n - 1 {
      PrecisionsUpToAt(allPreds, allGts, scores, iouThreshold, n - 1, t);
    }
  }

  /** Entry `t` of the recall curve is the recall at threshold `t`. */
  lemma {:induction false} RecallsUpToAt(allPreds: seq<seq<Box>>, allGts: seq<seq<Box>>, scores: seq<seq<real>>,
                                         iouThreshold: real, n: nat, t: nat)
    requires CurveDefined(allPreds, allGts, scores) && t < n
    ensures RecallsUpTo(allPreds, allGts, scores, iouThreshold, n)[t] == RecallAt(allPreds, allGts, scores, iouThreshold, t)
  {
    if t < n - 1 {
      RecallsUpToAt(allPreds, allGts, scores, iouThreshold, n - 1, t);
    }
  }

  /**
   * Sweeps the 500 thresholds into two freshly allocated arrays; by
   * PrecisionsUpToAt and RecallsUpToAt, entry `t` of each result is the
   * precision (recall) of the dataset restricted to the predictions scoring
   * at least threshold `t`, so both have 500 entries in [0, 1].
   */
  method GetPrecisionRecallCurve(allPreds: seq<seq<Box>>, allGts: seq<seq<Box>>, scores: seq<seq<real>>, iouThreshold: real)
    returns (precisions: seq<real>, recalls: seq<real>)
    requires CurveDefined(allPreds, allGts, scores)
    ensures precisions == PrecisionsUpTo(allPreds, allGts, scores, iouThreshold, NumThresholds)
    ensures recalls == RecallsUpTo(allPreds, allGts, scores, iouThreshold, NumThresholds)
  {
    var ps := new real[NumThresholds];
    var rs := new real[NumThresholds];
    for t := 0 to NumThresholds
      invariant ps[..t] == PrecisionsUpTo(allPreds, allGts, scores, iouThreshold, t)
      invariant rs[..t] == RecallsUpTo(allPreds, allGts, scores, iouThreshold, t)
    {
      SweepStep(allPreds, allGts, scores, iouThreshold, ps, rs, t);
    }
    precisions, recalls := ps[..], rs[..];
    assert ps[..] == ps[..NumThresholds];
    assert rs[..] == rs[..NumThresholds];
  }

  /** One turn of the sweep: evaluates threshold `t` and stores the point at index `t` of both arrays. */
  method SweepStep(allPreds: seq<seq<Box>>, allGts: seq<seq<Box>>, scores: seq<seq<real>>, iouThreshold: real,
                   ps: array<real>, rs: array<real>, t: nat)
    requires CurveDefined(allPreds, allGts, scores)
    requires ps != rs && t < ps.Length && t < rs.Length
    requires ps[..t] == PrecisionsUpTo(allPreds, allGts, scores, iouThreshold, t)
    requires rs[..t] == RecallsUpTo(allPreds, allGts, scores, iouThreshold, t)
    modifies ps, rs
    ensures ps[..t + 1] == PrecisionsUpTo(allPreds, allGts, scores, iouThreshold, t + 1)
    ensures rs[..t + 1] == RecallsUpTo(allPreds, allGts, scores, iouThreshold, t + 1)
  {
    var p, r := CurvePoint(allPreds, allGts, scores, iouThreshold, t);
    StorePrecision(allPreds, allGts, scores, iouThreshold, ps, t, p);
    StoreRecall(allPreds, allGts, scores, iouThreshold, rs, t, r);
  }

  /** `precisions[t] = p`: extends the filled prefix of the precision array by the point of threshold `t`. */
  method StorePrecision(allPreds: seq<seq<Box>>, allGts: seq<seq<Box>>, scores: seq<seq<real>>, iouThreshold: real,
                        ps: array<real>, t: nat, p: real)
    requires CurveDefined(allPreds, allGts, scores) && t < ps.Length
    requires ps[..t] == PrecisionsUpTo(allPreds, allGts, scores, iouThreshold, t)
    requires p == PrecisionAt(allPreds, allGts, scores, iouThreshold, t)
    modifies ps
    ensures ps[..t + 1] == PrecisionsUpTo(allPreds, allGts, scores, iouThreshold, t + 1)
  {
    ps[t] := p;
    assert ps[..t + 1] == ps[..t] + [p];
  }

  /** `recalls[t] = r`: extends the filled prefix of the recall array by the point of threshold `t`. */
  method StoreRecall(allPreds: seq<seq<Box>>, allGts: seq<seq<Box>>, scores: seq<seq<real>>, iouThreshold: real,
                     rs: array<real>, t: nat, r: real)
    requires CurveDefined(allPreds, allGts, scores) && t < rs.Length
    requires rs[..t] == RecallsUpTo(allPreds, allGts, scores, iouThreshold, t)
    requires r == RecallAt(allPreds, allGts, scores, iouThreshold, t)
    modifies rs
    ensures rs[..t + 1] == RecallsUpTo(allPreds, allGts, scores, iouThreshold, t + 1)
  {
    rs[t] := r;
    assert rs[..t + 1] == rs[..t] + [r];
  }

  /** One turn of the sweep: filter at threshold `t`, then evaluate the filtered dataset. */
  method CurvePoint(allPreds: seq<seq<Box>>, allGts: seq<seq<Box>>, scores: seq<seq<real>>, iouThreshold: real, t: nat)
    returns (precision: real, recall: real)
    requires CurveDefined(allPreds, allGts, scores)
    ensures precision == PrecisionAt(allPreds, allGts, scores, iouThreshold, t)
    ensures recall == RecallAt(allPreds, allGts, scores, iouThreshold, t)
    ensures 0.0 <= precision <= 1.0 && 0.0 <= recall <= 1.0
  {
    var allOver := FilterAllImages(allPreds, scores, Threshold(t));
    FilteredImagesDefined(allPreds, allGts, scores, Threshold(t));
    precision, recall := CalculatePrecisionRecallAllImages(allOver, allGts, iouThreshold);
  }

  // ---------------------------------------------------------------------------
  // Properties of the curve
  // ---------------------------------------------------------------------------

  /** Every point of the curve is scored against the same ground truths, so recall shares one denominator. */
  lemma RecallDenominatorFixed(allPreds: seq<seq<Box>>, allGts: seq<seq<Box>>, scores: seq<seq<real>>,
                               iouThreshold: real, t1: nat, t2: nat)
    requires CurveDefined(allPreds, allGts, scores)
    ensures var c1, c2 := CountsAt(allPreds, allGts, scores, iouThreshold, Threshold(t1)),
                          CountsAt(allPreds, allGts, scores, iouThreshold, Threshold(t2));
      c1.tp + c1.fn == c2.tp + c2.fn
  {
  }

  /** Raising the threshold never adds predictions: tp + fp does not grow along the curve. */
  lemma PredictionsShrinkAlongCurve(allPreds: seq<seq<Box>>, allGts: seq<seq<Box>>, scores: seq<seq<real>>,
                                    iouThreshold: real, t1: nat, t2: nat)
    requires CurveDefined(allPreds, allGts, scores) && t1 <= t2
    ensures var c1, c2 := CountsAt(allPreds, allGts, scores, iouThreshold, Threshold(t1)),
                          CountsAt(allPreds, allGts, scores, iouThreshold, Threshold(t2));
      c2.tp + c2.fp <= c1.tp + c1.fp
  {
    FilteredBoxCountShrinks(allPreds, scores, Threshold(t1), Threshold(t2), |scores|);
  }

  /** At threshold 0, an image whose scores are all non-negative keeps every scored box. */
  lemma FirstThresholdKeepsAll(allPreds: seq<seq<Box>>, scores: seq<seq<real>>, i: nat)
    requires ScoresFit(allPreds, scores) && i < |scores|
    requires forall k :: 0 <= k < |scores[i]| ==> scores[i][k] >= 0.0
    ensures FilterImages(allPreds, scores, Threshold(0), |scores|)[i] == allPreds[i][..|scores[i]|]
  {
    var filtered := FilterImages(allPreds, scores, Threshold(0), |scores|);
    assert filtered[i] == FilterByScore(allPreds[i], scores[i], 0.0, |scores[i]|);
    FilterKeepsAll(allPreds[i], scores[i], 0.0, |scores[i]|);
  }

  /** An image none of whose boxes reaches the threshold stays in the dataset with no predictions. */
  lemma EmptyImagesKept(allPreds: seq<seq<Box>>, scores: seq<seq<real>>, thr: real, i: nat)
    requires ScoresFit(allPreds, scores) && i < |scores|
    requires forall k :: 0 <= k < |scores[i]| ==> scores[i][k] < thr
    ensures |FilterImages(allPreds, scores, thr, |scores|)| == |scores|
    ensures FilterImages(allPreds, scores, thr, |scores|)[i] == []
  {
    FilterDropsAll(allPreds[i], scores[i], thr, |scores[i]|);
  }
}
