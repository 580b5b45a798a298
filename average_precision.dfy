/**
 * Eleven-point interpolated average precision of a precision-recall curve:
 * for each recall level 0, 0.1, ..., 1 the largest precision among the points
 * whose recall reaches the level (0 when there is none), averaged over the
 * eleven levels.
 */
module AveragePrecision {

  const NumRecallLevels: nat := 11

  /** Recall level `k`: k / 10, the exact values of an even spacing of [0, 1] in 11 points. */
  function RecallLevel(k: nat): real {
    k as real / 10.0
  }

  lemma RecallLevelRange(k: nat)
    requires k < NumRecallLevels
    ensures 0.0 <= RecallLevel(k) <= 1.0
    ensures k == 0 ==> RecallLevel(k) == 0.0
    ensures k == NumRecallLevels - 1 ==> RecallLevel(k) == 1.0
  {
  }

  /**
   * The running maximum after the first `n` curve points: starts at 0 and is
   * replaced by a point's precision when the point's recall reaches `level`
   * and its precision exceeds the maximum so far. The curve is read up to the
   * number of recall entries, so there must be a precision for each of them.
   */
  function MaxPrecision(precisions: seq<real>, recalls: seq<real>, level: real, n: nat): (r: real)
    requires n <= |recalls| <= |precisions|
    ensures r >= 0.0
    ensures forall k {:trigger precisions[k]} :: 0 <= k < n && recalls[k] >= level ==> precisions[k] <= r
  {
    if n == 0 then 0.0
    else
      var m := MaxPrecision(precisions, recalls, level, n - 1);
      if recalls[n - 1] >= level && precisions[n - 1] > m then precisions[n - 1] else m
  }

  /** The maximum is 0 or the precision of a point whose recall reaches the level. */
  lemma {:induction false} MaxPrecisionAttained(precisions: seq<real>, recalls: seq<real>, level: real, n: nat)
    requires n <= |recalls| <= |precisions|
    ensures var r := MaxPrecision(precisions, recalls, level, n);
      r == 0.0 || exists k :: 0 <= k < n && recalls[k] >= level && precisions[k] == r
  {
    if n > 0 {
      MaxPrecisionAttained(precisions, recalls, level, n - 1);
    }
  }

  /** A level that no point's recall reaches contributes 0. */
  lemma {:induction false} UnreachedLevelGivesZero(precisions: seq<real>, recalls: seq<real>, level: real, n: nat)
    requires n <= |recalls| <= |precisions|
    requires forall k :: 0 <= k < n ==> recalls[k] < level
    ensures MaxPrecision(precisions, recalls, level, n) == 0.0
  {
    if n > 0 {
      UnreachedLevelGivesZero(precisions, recalls, level, n - 1);
    }
  }

  /** With every precision at most 1, so is the maximum. */
  lemma {:induction false} MaxPrecisionAtMostOne(precisions: seq<real>, recalls: seq<real>, level: real, n: nat)
    requires n <= |recalls| <= |precisions|
    requires forall k :: 0 <= k < n ==> precisions[k] <= 1.0
    ensures MaxPrecision(precisions, recalls, level, n) <= 1.0
  {
    if n > 0 {
      MaxPrecisionAtMostOne(precisions, recalls, level, n - 1);
    }
  }

  /** Interpolation: a higher recall level admits fewer points, so its maximum is no larger. */
  lemma {:induction false} MaxPrecisionAntitone(precisions: seq<real>, recalls: seq<real>, level1: real, level2: real, n: nat)
    requires n <= |recalls| <= |precisions| && level1 <= level2
    ensures MaxPrecision(precisions, recalls, level2, n) <= MaxPrecision(precisions, recalls, level1, n)
  {
    MaxPrecisionAttained(precisions, recalls, level2, n);
  }

  /** Sum of the maxima of recall levels 0 .. levels-1. */
  function SumMaxPrecisions(precisions: seq<real>, recalls: seq<real>, levels: nat): (r: real)
    requires |recalls| <= |precisions|
    ensures r >= 0.0
  {
    if levels == 0 then 0.0
    else SumMaxPrecisions(precisions, recalls, levels - 1) + MaxPrecision(precisions, recalls, RecallLevel(levels - 1), |recalls|)
  }

  /** With every precision at most 1, the sum over `levels` levels is at most `levels`. */
  lemma {:induction false} SumMaxPrecisionsBounded(precisions: seq<real>, recalls: seq<real>, levels: nat)
    requires |recalls| <= |precisions|
    requires forall k :: 0 <= k < |recalls| ==> precisions[k] <= 1.0
    ensures SumMaxPrecisions(precisions, recalls, levels) <= levels as real
  {
    if levels > 0 {
      SumMaxPrecisionsBounded(precisions, recalls, levels - 1);
      MaxPrecisionAtMostOne(precisions, recalls, RecallLevel(levels - 1), |recalls|);
    }
  }

  /** The mean of the eleven interpolated maxima. */
  function MeanAveragePrecision(precisions: seq<real>, recalls: seq<real>): (r: real)
    requires |recalls| <= |precisions|
    ensures r >= 0.0
  {
    SumMaxPrecisions(precisions, recalls, NumRecallLevels) / NumRecallLevels as real
  }

  /** A curve whose precisions are at most 1 has a mean average precision in [0, 1]. */
  lemma MeanAveragePrecisionInUnitInterval(precisions: seq<real>, recalls: seq<real>)
    requires |recalls| <= |precisions|
    requires forall k :: 0 <= k < |recalls| ==> precisions[k] <= 1.0
    ensures 0.0 <= MeanAveragePrecision(precisions, recalls) <= 1.0
  {
    SumMaxPrecisionsBounded(precisions, recalls, NumRecallLevels);
  }

  /**
   * A curve with precisions at most 1 that has a point of recall 1 and
   * precision 1 scores exactly 1: every level's maximum is that point's 1.
   */
  lemma {:induction false} PerfectPointGivesOne(precisions: seq<real>, recalls: seq<real>, levels: nat, p: nat)
    requires p < |recalls| <= |precisions|
    requires forall k :: 0 <= k < |recalls| ==> precisions[k] <= 1.0
    requires recalls[p] >= 1.0 && precisions[p] == 1.0
    requires levels <= NumRecallLevels
    ensures SumMaxPrecisions(precisions, recalls, levels) == levels as real
  {
    if levels > 0 {
      PerfectPointGivesOne(precisions, recalls, levels - 1, p);
      var level := RecallLevel(levels - 1);
      MaxPrecisionAtMostOne(precisions, recalls, level, |recalls|);
      assert precisions[p] <= MaxPrecision(precisions, recalls, level, |recalls|);
    }
  }

  /** A non-empty curve of all-1 precisions and recalls has mean average precision exactly 1. */
  lemma AllOnesCurveGivesOne(precisions: seq<real>, recalls: seq<real>)
    requires 0 < |recalls| <= |precisions|
    requires forall k :: 0 <= k < |recalls| ==> precisions[k] == 1.0 && recalls[k] == 1.0
    ensures MeanAveragePrecision(precisions, recalls) == 1.0
  {
    PerfectPointGivesOne(precisions, recalls, NumRecallLevels, 0);
  }

  /** An empty curve has mean average precision 0. */
  lemma EmptyCurveGivesZero(precisions: seq<real>, recalls: seq<real>)
    requires recalls == [] && |recalls| <= |precisions|
    ensures MeanAveragePrecision(precisions, recalls) == 0.0
  {
    ZeroSum(precisions, recalls, NumRecallLevels);
  }

  lemma {:induction false} ZeroSum(precisions: seq<real>, recalls: seq<real>, levels: nat)
    requires recalls == [] && |recalls| <= |precisions|
    ensures SumMaxPrecisions(precisions, recalls, levels) == 0.0
  {
    if levels > 0 {
      ZeroSum(precisions, recalls, levels - 1);
    }
  }

  /** Sums the eleven interpolated maxima, each found by a pass over the curve, and divides by 11. */
  method CalculateMeanAveragePrecision(precisions: seq<real>, recalls: seq<real>) returns (averagePrecision: real)
    requires |recalls| <= |precisions|
    ensures averagePrecision == MeanAveragePrecision(precisions, recalls)
  {
    var sumMaxPrecisions := 0.0;
    for level := 0 to NumRecallLevels
      invariant sumMaxPrecisions == SumMaxPrecisions(precisions, recalls, level)
    {
      var maxPrecision := 0.0;
      for n := 0 to |recalls|
        invariant maxPrecision == MaxPrecision(precisions, recalls, RecallLevel(level), n)
      {
        if recalls[n] >= RecallLevel(level) && precisions[n] > maxPrecision {
          maxPrecision := precisions[n];
        }
      }
      sumMaxPrecisions := sumMaxPrecisions + maxPrecision;
    }
    averagePrecision := sumMaxPrecisions / NumRecallLevels as real;
  }
}
