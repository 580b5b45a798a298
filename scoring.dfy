/**
 * True/false positive/negative counts of one image, their sum over a dataset,
 * and the precision and recall derived from the sum.
 */
module Scoring {
  import opened Geometry
  import opened Matching

  /** True positives, false positives and false negatives. */
  datatype Counts = Counts(tp: int, fp: int, fn: int)

  /** Precision tp / (tp + fp), with 1 when nothing was predicted; `fn` is accepted and ignored. */
  function Precision(tp: int, fp: int, fn: int): (r: real)
    ensures tp + fp == 0 ==> r == 1.0
    ensures tp + fp != 0 ==> r * (tp + fp) as real == tp as real
    ensures tp >= 0 && fp >= 0 ==> 0.0 <= r <= 1.0 && (r == 1.0 <==> fp == 0)
  {
    if tp + fp == 0 then 1.0 else tp as real / (tp + fp) as real
  }

  /** Recall tp / (tp + fn), with 0 when there is nothing to find; `fp` is accepted and ignored. */
  function Recall(tp: int, fp: int, fn: int): (r: real)
    ensures tp + fn == 0 ==> r == 0.0
    ensures tp + fn != 0 ==> r * (tp + fn) as real == tp as real
    ensures tp >= 0 && fn >= 0 ==> 0.0 <= r <= 1.0 && (r == 0.0 <==> tp == 0) && (r == 1.0 <==> tp > 0 && fn == 0)
  {
    if tp + fn == 0 then 0.0 else tp as real / (tp + fn) as real
  }

  /** Precision does not read its false-negative argument, recall not its false-positive one. */
  lemma UnusedArguments(tp: int, fp: int, fn: int, other: int)
    ensures Precision(tp, fp, fn) == Precision(tp, fp, other)
    ensures Recall(tp, fp, fn) == Recall(tp, other, fn)
  {
  }

  /** The counts of one image: matched pairs are true positives, the rest of each side are errors. */
  function ImageCounts(preds: seq<Box>, gts: seq<Box>, threshold: real): (r: Counts)
    requires IouDefined(preds, gts)
    ensures r.tp >= 0 && r.fp >= 0 && r.fn >= 0
    ensures r.tp + r.fp == |preds| && r.tp + r.fn == |gts|
  {
    MatchesOneToOne(preds, gts, threshold);
    var n := |Matches(preds, gts, threshold)|;
    Counts(n, |preds| - n, |gts| - n)
  }

  /** Runs the matcher and counts what it matched. */
  method CalculateIndividualImageResult(preds: seq<Box>, gts: seq<Box>, threshold: real) returns (r: Counts)
    requires IouDefined(preds, gts)
    ensures r == ImageCounts(preds, gts, threshold)
    ensures r.tp == |Matches(preds, gts, threshold)|
  {
    var predictionMatches, gtMatches := GetAllBoxMatches(preds, gts, threshold);
    var numMatches := |predictionMatches|;
    r := Counts(numMatches, |preds| - numMatches, |gts| - numMatches);
  }

  function Plus(a: Counts, b: Counts): Counts {
    Counts(a.tp + b.tp, a.fp + b.fp, a.fn + b.fn)
  }

  /** The first `n` images can each be matched. */
  predicate ImagesDefined(allPreds: seq<seq<Box>>, allGts: seq<seq<Box>>, n: nat) {
    n <= |allPreds| && n <= |allGts| &&
    forall i :: 0 <= i < n ==> IouDefined(allPreds[i], allGts[i])
  }

  /** Total number of boxes in the first `n` images. */
  function BoxCount(images: seq<seq<Box>>, n: nat): nat
    requires n <= |images|
  {
    if n == 0 then 0 else BoxCount(images, n - 1) + |images[n - 1]|
  }

  /** The counts of each of the first `n` images. */
  function PerImageCounts(allPreds: seq<seq<Box>>, allGts: seq<seq<Box>>, threshold: real, n: nat): (r: seq<Counts>)
    requires ImagesDefined(allPreds, allGts, n)
    ensures |r| == n
    ensures forall i {:trigger r[i]} :: 0 <= i < n ==> r[i] == ImageCounts(allPreds[i], allGts[i], threshold)
  {
    seq(n, i requires 0 <= i < n => ImageCounts(allPreds[i], allGts[i], threshold))
  }

  /** Element-wise sum. */
  function Sum(cs: seq<Counts>): Counts {
    if cs == [] then Counts(0, 0, 0) else Plus(Sum(cs[..|cs| - 1]), cs[|cs| - 1])
  }

  lemma {:induction false} SumAppend(a: seq<Counts>, b: seq<Counts>)
    ensures Sum(a + b) == Plus(Sum(a), Sum(b))
  {
    if b == [] {
      assert a + b == a;
    } else {
      SumAppend(a, b[..|b| - 1]);
      assert (a + b)[..|a + b| - 1] == a + b[..|b| - 1];
    }
  }

  /** The counts of the first `n` images, summed. */
  function Totals(allPreds: seq<seq<Box>>, allGts: seq<seq<Box>>, threshold: real, n: nat): (r: Counts)
    requires ImagesDefined(allPreds, allGts, n)
    ensures r.tp >= 0 && r.fp >= 0 && r.fn >= 0
    ensures r.tp + r.fp == BoxCount(allPreds, n)
    ensures r.tp + r.fn == BoxCount(allGts, n)
  {
    TotalsBalance(allPreds, allGts, threshold, n);
    Sum(PerImageCounts(allPreds, allGts, threshold, n))
  }

  /** Adding one more image adds its counts. */
  lemma TotalsStep(allPreds: seq<seq<Box>>, allGts: seq<seq<Box>>, threshold: real, n: nat)
    requires ImagesDefined(allPreds, allGts, n + 1)
    ensures Sum(PerImageCounts(allPreds, allGts, threshold, n + 1))
         == Plus(Sum(PerImageCounts(allPreds, allGts, threshold, n)), ImageCounts(allPreds[n], allGts[n], threshold))
  {
    var longer := PerImageCounts(allPreds, allGts, threshold, n + 1);
    assert longer[..n] == PerImageCounts(allPreds, allGts, threshold, n);
  }

  /** Every prediction is a true or a false positive; every ground truth a true positive or a false negative. */
  lemma {:induction false} TotalsBalance(allPreds: seq<seq<Box>>, allGts: seq<seq<Box>>, threshold: real, n: nat)
    requires ImagesDefined(allPreds, allGts, n)
    ensures var r := Sum(PerImageCounts(allPreds, allGts, threshold, n));
      r.tp >= 0 && r.fp >= 0 && r.fn >= 0 &&
      r.tp + r.fp == BoxCount(allPreds, n) && r.tp + r.fn == BoxCount(allGts, n)
  {
    if n > 0 {
      TotalsBalance(allPreds, allGts, threshold, n - 1);
      TotalsStep(allPreds, allGts, threshold, n - 1);
    }
  }

  /** Two image lists placed one after the other can still each be matched. */
  lemma ImagesDefinedAppend(preds1: seq<seq<Box>>, gts1: seq<seq<Box>>,
                            preds2: seq<seq<Box>>, gts2: seq<seq<Box>>, n2: nat)
    requires |preds1| == |gts1| && ImagesDefined(preds1, gts1, |preds1|)
    requires ImagesDefined(preds2, gts2, n2)
    ensures ImagesDefined(preds1 + preds2, gts1 + gts2, |preds1| + n2)
  {
    var ps, gs, m := preds1 + preds2, gts1 + gts2, |preds1|;
    forall i | 0 <= i < m + n2
      ensures IouDefined(ps[i], gs[i])
    {
      if i < m {
        assert ps[i] == preds1[i] && gs[i] == gts1[i];
      } else {
        assert ps[i] == preds2[i - m] && gs[i] == gts2[i - m];
      }
    }
  }

  /** The counts of a run of images depend only on those images. */
  lemma PerImageCountsSlice(allPreds: seq<seq<Box>>, allGts: seq<seq<Box>>, n: nat,
                            preds: seq<seq<Box>>, gts: seq<seq<Box>>, off: nat, len: nat, threshold: real)
    requires ImagesDefined(allPreds, allGts, n) && ImagesDefined(preds, gts, len) && off + len <= n
    requires forall k :: 0 <= k < len ==> allPreds[off + k] == preds[k] && allGts[off + k] == gts[k]
    ensures PerImageCounts(allPreds, allGts, threshold, n)[off..off + len] == PerImageCounts(preds, gts, threshold, len)
  {
    var whole, part := PerImageCounts(allPreds, allGts, threshold, n), PerImageCounts(preds, gts, threshold, len);
    forall k | 0 <= k < len
      ensures whole[off..off + len][k] == part[k]
    {
      assert whole[off..off + len][k] == whole[off + k];
    }
  }

  /** The per-image counts of two image lists placed one after the other. */
  lemma PerImageCountsAppend(preds1: seq<seq<Box>>, gts1: seq<seq<Box>>,
                             preds2: seq<seq<Box>>, gts2: seq<seq<Box>>, threshold: real, n2: nat)
    requires |preds1| == |gts1| && ImagesDefined(preds1, gts1, |preds1|)
    requires ImagesDefined(preds2, gts2, n2)
    requires ImagesDefined(preds1 + preds2, gts1 + gts2, |preds1| + n2)
    ensures PerImageCounts(preds1 + preds2, gts1 + gts2, threshold, |preds1| + n2)
         == PerImageCounts(preds1, gts1, threshold, |preds1|) + PerImageCounts(preds2, gts2, threshold, n2)
  {
    var both := PerImageCounts(preds1 + preds2, gts1 + gts2, threshold, |preds1| + n2);
    PerImageCountsFront(preds1, gts1, preds2, gts2, threshold, n2);
    PerImageCountsBack(preds1, gts1, preds2, gts2, threshold, n2);
    SplitAt(both, |preds1|);
  }

  lemma SplitAt(s: seq<Counts>, m: nat)
    requires m <= |s|
    ensures s == s[0..m] + s[m..|s|]
  {
  }

  lemma PerImageCountsFront(preds1: seq<seq<Box>>, gts1: seq<seq<Box>>,
                            preds2: seq<seq<Box>>, gts2: seq<seq<Box>>, threshold: real, n2: nat)
    requires |preds1| == |gts1| && ImagesDefined(preds1, gts1, |preds1|)
    requires ImagesDefined(preds1 + preds2, gts1 + gts2, |preds1| + n2)
    ensures PerImageCounts(preds1 + preds2, gts1 + gts2, threshold, |preds1| + n2)[0..|preds1|]
         == PerImageCounts(preds1, gts1, threshold, |preds1|)
  {
    PerImageCountsSlice(preds1 + preds2, gts1 + gts2, |preds1| + n2, preds1, gts1, 0, |preds1|, threshold);
  }

  lemma PerImageCountsBack(preds1: seq<seq<Box>>, gts1: seq<seq<Box>>,
                           preds2: seq<seq<Box>>, gts2: seq<seq<Box>>, threshold: real, n2: nat)
    requires |preds1| == |gts1| && ImagesDefined(preds2, gts2, n2)
    requires ImagesDefined(preds1 + preds2, gts1 + gts2, |preds1| + n2)
    ensures PerImageCounts(preds1 + preds2, gts1 + gts2, threshold, |preds1| + n2)[|preds1|..|preds1| + n2]
         == PerImageCounts(preds2, gts2, threshold, n2)
  {
    PerImageCountsSlice(preds1 + preds2, gts1 + gts2, |preds1| + n2, preds2, gts2, |preds1|, n2, threshold);
  }

  /** Evaluating two image lists one after the other gives the sum of their totals. */
  lemma TotalsAppend(preds1: seq<seq<Box>>, gts1: seq<seq<Box>>,
                     preds2: seq<seq<Box>>, gts2: seq<seq<Box>>, threshold: real, n2: nat)
    requires |preds1| == |gts1| && ImagesDefined(preds1, gts1, |preds1|)
    requires ImagesDefined(preds2, gts2, n2)
    ensures ImagesDefined(preds1 + preds2, gts1 + gts2, |preds1| + n2)
    ensures Totals(preds1 + preds2, gts1 + gts2, threshold, |preds1| + n2)
         == Plus(Totals(preds1, gts1, threshold, |preds1|), Totals(preds2, gts2, threshold, n2))
  {
    ImagesDefinedAppend(preds1, gts1, preds2, gts2, n2);
    PerImageCountsAppend(preds1, gts1, preds2, gts2, threshold, n2);
    SumAppend(PerImageCounts(preds1, gts1, threshold, |preds1|), PerImageCounts(preds2, gts2, threshold, n2));
  }

  /** Sums the per-image counts over every image that has predictions, then derives precision and recall. */
  method CalculatePrecisionRecallAllImages(allPreds: seq<seq<Box>>, allGts: seq<seq<Box>>, threshold: real)
    returns (precision: real, recall: real)
    requires ImagesDefined(allPreds, allGts, |allPreds|)
    ensures var t := Totals(allPreds, allGts, threshold, |allPreds|);
      precision == Precision(t.tp, t.fp, t.fn) && recall == Recall(t.tp, t.fp, t.fn)
    ensures 0.0 <= precision <= 1.0 && 0.0 <= recall <= 1.0
  {
    var numImages := |allPreds|;
    var totTruePositives, totFalsePositives, totFalseNegatives := 0, 0, 0;
    for image := 0 to numImages
      invariant Counts(totTruePositives, totFalsePositives, totFalseNegatives)
             == Sum(PerImageCounts(allPreds, allGts, threshold, image))
    {
      TotalsStep(allPreds, allGts, threshold, image);
      totTruePositives, totFalsePositives, totFalseNegatives :=
        AddImageResult(allPreds[image], allGts[image], threshold, totTruePositives, totFalsePositives, totFalseNegatives);
    }
    precision := Precision(totTruePositives, totFalsePositives, totFalseNegatives);
    recall := Recall(totTruePositives, totFalsePositives, totFalseNegatives);
  }

  /** The body of the accumulation loop: evaluates one image and adds its counts to the running totals. */
  method AddImageResult(preds: seq<Box>, gts: seq<Box>, threshold: real, tp: int, fp: int, fn: int)
    returns (totTruePositives: int, totFalsePositives: int, totFalseNegatives: int)
    requires IouDefined(preds, gts)
    ensures Counts(totTruePositives, totFalsePositives, totFalseNegatives)
         == Plus(Counts(tp, fp, fn), ImageCounts(preds, gts, threshold))
  {
    var imageResult := CalculateIndividualImageResult(preds, gts, threshold);
    totTruePositives := tp + imageResult.tp;
    totFalsePositives := fp + imageResult.fp;
    totFalseNegatives := fn + imageResult.fn;
  }
}
