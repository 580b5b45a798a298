/**
 * The whole evaluation: the precision-recall sweep at IoU threshold 0.5
 * followed by the 11-point average, and what the chain guarantees about
 * the resulting mean average precision.
 */
module Evaluation {
  import opened Geometry
  import opened Matching
  import opened Scoring
  import opened Curve
  import opened AveragePrecision

  /** The IoU threshold the dataset evaluation uses. */
  const EvaluationIouThreshold: real := 0.5

  /** The mean average precision of the curve of any evaluable dataset lies in [0, 1]. */
  lemma CurveMeanAveragePrecisionInUnitInterval(allPreds: seq<seq<Box>>, allGts: seq<seq<Box>>, scores: seq<seq<real>>,
                                                iouThreshold: real)
    requires CurveDefined(allPreds, allGts, scores)
    ensures var ps, rs := PrecisionsUpTo(allPreds, allGts, scores, iouThreshold, NumThresholds),
                          RecallsUpTo(allPreds, allGts, scores, iouThreshold, NumThresholds);
      0.0 <= MeanAveragePrecision(ps, rs) <= 1.0
  {
    var ps := PrecisionsUpTo(allPreds, allGts, scores, iouThreshold, NumThresholds);
    var rs := RecallsUpTo(allPreds, allGts, scores, iouThreshold, NumThresholds);
    MeanAveragePrecisionInUnitInterval(ps, rs);
  }

  /** Sweeps the curve at IoU threshold 0.5 and averages it over the 11 recall levels. */
  method EvaluateDataset(allPreds: seq<seq<Box>>, allGts: seq<seq<Box>>, scores: seq<seq<real>>)
    returns (meanAveragePrecision: real)
    requires CurveDefined(allPreds, allGts, scores)
    ensures meanAveragePrecision
         == MeanAveragePrecision(PrecisionsUpTo(allPreds, allGts, scores, EvaluationIouThreshold, NumThresholds),
                                 RecallsUpTo(allPreds, allGts, scores, EvaluationIouThreshold, NumThresholds))
    ensures 0.0 <= meanAveragePrecision <= 1.0
  {
    var precisions, recalls := GetPrecisionRecallCurve(allPreds, allGts, scores, EvaluationIouThreshold);
    meanAveragePrecision := CalculateMeanAveragePrecision(precisions, recalls);
    CurveMeanAveragePrecisionInUnitInterval(allPreds, allGts, scores, EvaluationIouThreshold);
  }

  // ---------------------------------------------------------------------------
  // A perfect detector
  // ---------------------------------------------------------------------------

  /**
   * Every image has exactly one ground truth, of positive width and height,
   * and its only prediction is that box, scored with full confidence.
   */
  predicate PerfectDataset(allPreds: seq<seq<Box>>, allGts: seq<seq<Box>>, scores: seq<seq<real>>) {
    |allPreds| == |scores| && |allGts| == |scores| &&
    forall i :: 0 <= i < |scores| ==>
      |allGts[i]| == 1 && PositiveExtent(allGts[i][0]) && allPreds[i] == allGts[i] && scores[i] == [1.0]
  }

  /**
   * A single ground truth of positive width and height, predicted exactly,
   * is one true positive at any IoU threshold up to 1.
   */
  lemma ExactImageCounts(preds: seq<Box>, gts: seq<Box>, threshold: real)
    requires |gts| == 1 && PositiveExtent(gts[0]) && preds == gts && threshold <= 1.0
    ensures IouDefined(preds, gts)
    ensures ImageCounts(preds, gts, threshold) == Counts(1, 0, 0)
  {
    IouWithItself(gts[0]);
    var c := Candidate(0, 0, 1.0);
    assert Qualifies(preds, gts, threshold, c);
    MatchesStartWithBest(preds, gts, threshold, c);
    MatchesOneToOne(preds, gts, threshold);
  }

  /** Every image of a perfect dataset can be matched. */
  lemma PerfectImagesDefined(allPreds: seq<seq<Box>>, allGts: seq<seq<Box>>, scores: seq<seq<real>>)
    requires PerfectDataset(allPreds, allGts, scores)
    ensures ImagesDefined(allPreds, allGts, |scores|)
  {
    forall i | 0 <= i < |scores|
      ensures IouDefined(allPreds[i], allGts[i])
    {
      ExactImageCounts(allPreds[i], allGts[i], 1.0);
    }
  }

  /** Over the first `n` images of a perfect dataset, every image is one true positive. */
  lemma PerfectSum(allPreds: seq<seq<Box>>, allGts: seq<seq<Box>>, scores: seq<seq<real>>,
                    threshold: real, n: nat)
    requires PerfectDataset(allPreds, allGts, scores) && n <= |scores| && threshold <= 1.0
    ensures ImagesDefined(allPreds, allGts, n)
    ensures Sum(PerImageCounts(allPreds, allGts, threshold, n)) == Counts(n, 0, 0)
  {
    PerfectImagesDefined(allPreds, allGts, scores);
    forall i | 0 <= i < n
      ensures ImageCounts(allPreds[i], allGts[i], threshold) == Counts(1, 0, 0)
    {
      ExactImageCounts(allPreds[i], allGts[i], threshold);
    }
    SumOfSingleMatches(allPreds, allGts, threshold, n);
  }

  /** Images that are each one true positive add up to as many true positives. */
  lemma {:induction false} SumOfSingleMatches(allPreds: seq<seq<Box>>, allGts: seq<seq<Box>>, threshold: real, n: nat)
    requires ImagesDefined(allPreds, allGts, n)
    requires forall i :: 0 <= i < n ==> ImageCounts(allPreds[i], allGts[i], threshold) == Counts(1, 0, 0)
    ensures Sum(PerImageCounts(allPreds, allGts, threshold, n)) == Counts(n, 0, 0)
  {
    if n > 0 {
      SumOfSingleMatches(allPreds, allGts, threshold, n - 1);
      TotalsStep(allPreds, allGts, threshold, n - 1);
    }
  }

  /** A perfect dataset can be swept. */
  lemma PerfectCurveDefined(allPreds: seq<seq<Box>>, allGts: seq<seq<Box>>, scores: seq<seq<real>>)
    requires PerfectDataset(allPreds, allGts, scores)
    ensures CurveDefined(allPreds, allGts, scores)
  {
    forall i | 0 <= i < |scores|
      ensures UnionArea(allPreds[i][0], allGts[i][0]) != 0.0
    {
      IouWithItself(allGts[i][0]);
    }
  }

  /** No threshold of the sweep drops a prediction scored 1. */
  lemma PerfectFilter(allPreds: seq<seq<Box>>, allGts: seq<seq<Box>>, scores: seq<seq<real>>, t: nat)
    requires PerfectDataset(allPreds, allGts, scores) && t < NumThresholds
    ensures ScoresFit(allPreds, scores)
    ensures FilterImages(allPreds, scores, Threshold(t), |scores|) == allPreds
  {
    ThresholdRange(t);
    var filtered := FilterImages(allPreds, scores, Threshold(t), |scores|);
    forall i | 0 <= i < |scores|
      ensures filtered[i] == allPreds[i]
    {
      FilterKeepsAll(allPreds[i], scores[i], Threshold(t), 1);
      assert allPreds[i][..1] == allPreds[i];
    }
  }

  /** Every point of the curve of a non-empty perfect dataset has precision 1 and recall 1. */
  lemma PerfectCurvePoint(allPreds: seq<seq<Box>>, allGts: seq<seq<Box>>, scores: seq<seq<real>>,
                          iouThreshold: real, t: nat)
    requires PerfectDataset(allPreds, allGts, scores) && 0 < |scores| && t < NumThresholds && iouThreshold <= 1.0
    ensures CurveDefined(allPreds, allGts, scores)
    ensures PrecisionAt(allPreds, allGts, scores, iouThreshold, t) == 1.0
    ensures RecallAt(allPreds, allGts, scores, iouThreshold, t) == 1.0
  {
    PerfectCurveDefined(allPreds, allGts, scores);
    PerfectFilter(allPreds, allGts, scores, t);
    PerfectSum(allPreds, allGts, scores, iouThreshold, |scores|);
    ThresholdRange(t);
    assert CountsAt(allPreds, allGts, scores, iouThreshold, Threshold(t)) == Counts(|scores|, 0, 0);
  }

  /**
   * A non-empty dataset in which every image has exactly one ground truth,
   * of positive width and height, and its only prediction is that box,
   * scored 1, has a mean average precision of exactly 1.
   */
  lemma PerfectDatasetGivesOne(allPreds: seq<seq<Box>>, allGts: seq<seq<Box>>, scores: seq<seq<real>>, iouThreshold: real)
    requires PerfectDataset(allPreds, allGts, scores) && 0 < |scores| && iouThreshold <= 1.0
    ensures CurveDefined(allPreds, allGts, scores)
    ensures MeanAveragePrecision(PrecisionsUpTo(allPreds, allGts, scores, iouThreshold, NumThresholds),
                                 RecallsUpTo(allPreds, allGts, scores, iouThreshold, NumThresholds)) == 1.0
  {
    PerfectCurveDefined(allPreds, allGts, scores);
    var ps := PrecisionsUpTo(allPreds, allGts, scores, iouThreshold, NumThresholds);
    var rs := RecallsUpTo(allPreds, allGts, scores, iouThreshold, NumThresholds);
    forall t | 0 <= t < NumThresholds
      ensures ps[t] == 1.0 && rs[t] == 1.0
    {
      PrecisionsUpToAt(allPreds, allGts, scores, iouThreshold, NumThresholds, t);
      RecallsUpToAt(allPreds, allGts, scores, iouThreshold, NumThresholds, t);
      PerfectCurvePoint(allPreds, allGts, scores, iouThreshold, t);
    }
    AllOnesCurveGivesOne(ps, rs);
  }

  /** Two images, each with one box found exactly with score 1, evaluate to a mean average precision of 1. */
  lemma TwoPerfectImages()
    ensures var b1, b2 := Box(0.0, 0.0, 1.0, 1.0), Box(2.0, 1.0, 4.0, 3.0);
      CurveDefined([[b1], [b2]], [[b1], [b2]], [[1.0], [1.0]]) &&
      MeanAveragePrecision(PrecisionsUpTo([[b1], [b2]], [[b1], [b2]], [[1.0], [1.0]], EvaluationIouThreshold, NumThresholds),
                           RecallsUpTo([[b1], [b2]], [[b1], [b2]], [[1.0], [1.0]], EvaluationIouThreshold, NumThresholds)) == 1.0
  {
    var b1, b2 := Box(0.0, 0.0, 1.0, 1.0), Box(2.0, 1.0, 4.0, 3.0);
    PerfectDatasetGivesOne([[b1], [b2]], [[b1], [b2]], [[1.0], [1.0]], EvaluationIouThreshold);
  }
}
