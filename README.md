# Object-detection evaluation, modelled in Dafny

This project models the evaluation core of `src/task2.py`, which scores an
object detector against ground truth. It has six Dafny modules, one per
component of that file:

- **Geometry** (`geometry.dfy`) — intersection over union (IoU) of two
  axis-aligned boxes `[xmin, ymin, xmax, ymax]`.
- **Matching** (`matching.dfy`) — greedy one-to-one matching of the
  predicted boxes of one image to its ground-truth boxes. It has three steps:
  - every pair whose IoU reaches the IoU threshold becomes a candidate;
  - the candidates are ranked by decreasing IoU;
  - a candidate is accepted unless its prediction or its ground truth is
    already taken.
- **Scoring** (`scoring.dfy`):
  - precision and recall from true/false positive/negative counts;
  - the counts of one image;
  - their sum over a dataset.
- **Curve** (`curve.dfy`) — the precision-recall curve. The dataset is
  re-evaluated at 500 confidence thresholds `t/499`. Each time only the
  predictions whose score reaches the threshold are kept, and images left
  with no prediction are kept as empty images.
- **AveragePrecision** (`average_precision.dfy`) — 11-point interpolated
  average precision over the recall levels `k/10`.
- **Evaluation** (`evaluation.dfy`) — the curve at IoU threshold 0.5
  followed by the average, as `mean_average_precision` chains them.

Box coordinates, IoU values, thresholds, precisions and recalls are exact
`real`s. Counts are unbounded integers. Every loop of the modelled functions is a
Dafny method proved against a specification function or predicate. The properties
the source promises are proved about those functions as lemmas:
- one-to-one, ordered and maximal matching;
- counts that balance;
- totals that add up;
- curve entries that use exactly the predictions above their threshold;
- interpolated maxima;
- a mean average precision in [0, 1] for every dataset, and exactly 1 when
  every image has exactly one ground truth, of positive width and height,
  and its only prediction is that box, scored 1.

## Model

| member | source | states |
|---|---|---|
| Geometry.Intersection | src/task2.py:23-29 | The overlap area is never negative, and it is positive exactly when the boxes overlap along both x and y. |
| Geometry.Iou | src/task2.py:8-38 | IoU times the union area equals the intersection (the union is intersection-inclusive: area(a) + area(b) - overlap). IoU is 0 exactly when the boxes do not overlap along x or along y. |
| Geometry.IouSymmetric | src/task2.py:23-36 | Swapping prediction and ground truth changes neither the union nor the IoU. |
| Geometry.IntersectionWithinArea | src/task2.py:23-31 | For well-formed boxes, the overlap lies between 0 and the area of either box. |
| Geometry.IouInUnitInterval | src/task2.py:23-36 | For well-formed boxes with a non-zero union, the IoU lies in [0, 1]. |
| Geometry.IouWithItself | src/task2.py:23-36 | A box of positive width and height has union equal to its own area, and IoU 1 with itself. |
| Geometry.IouOfShiftedUnitBoxes | src/task2.py:23-36 | Worked example: [0,0,1,1] against [0.5,0.5,1.5,1.5] gives intersection 0.25, union 1.75 and IoU 1/7. |
| Scoring.Precision | src/task2.py:40-56 | Precision is 1 when tp + fp = 0, and otherwise satisfies precision·(tp+fp) = tp. For non-negative counts it lies in [0, 1] and equals 1 exactly when fp = 0. |
| Scoring.Recall | src/task2.py:59-74 | Recall is 0 when tp + fn = 0, and otherwise satisfies recall·(tp+fn) = tp. For non-negative counts it lies in [0, 1], is 0 exactly when tp = 0, and is 1 exactly when tp > 0 and fn = 0. |
| Scoring.UnusedArguments | src/task2.py:40-74 | Precision does not depend on the false-negative count, and recall does not depend on the false-positive count. |
| Matching.RowCandidates | src/task2.py:103-106 | The candidates of prediction p among the first n ground truths are exactly the qualifying pairs (p, g) with g < n. |
| Matching.CandidatesUpTo | src/task2.py:101-106 | The candidates of the first m predictions are exactly the qualifying pairs whose prediction index is below m. A pair qualifies when its indices exist, its IoU is recorded, and that IoU reaches the threshold. |
| Matching.EnumerateCandidates | src/task2.py:100-106 | The nested loops produce the prediction-major enumeration. A pair is in the result if and only if it qualifies. |
| Matching.EnumerateRow | src/task2.py:103-106 | The inner loop appends the candidates of prediction p, in ground-truth order, to what was collected before. |
| Matching.PrecedesTotalOrder | src/task2.py:113-116 | The ranking order is a total order: any two candidates are comparable, it is antisymmetric and it is transitive. The order is IoU descending, then prediction index descending, then ground-truth index descending. |
| Matching.Insert | src/task2.py:115-116 | Inserting a candidate into a ranked list gives a ranked list with that candidate added to the multiset. |
| Matching.RankSort | src/task2.py:111-116 | The sorted-then-flipped candidates are ranked and are a permutation of the input. |
| Matching.RankedUnique | src/task2.py:111-116 | Two ranked permutations of the same candidates are equal, so the ranked order is fully determined. |
| Matching.ConflictsGrow | src/task2.py:124-130 | Accepting another candidate never removes a clash that already existed. |
| Matching.Greedy | src/task2.py:119-130 | The accepted list is one-to-one and contains only input candidates. Every input candidate is either accepted or clashes with an accepted one. A non-empty input has its first candidate accepted first. |
| Matching.GreedyPrefix | src/task2.py:119-130 | What is accepted from a prefix of the walk stays accepted, in the same positions. |
| Matching.GreedyRanked | src/task2.py:119-130 | On a ranked input, the accepted list is ranked. |
| Matching.GreedyRejectsOnlyForEarlierClash | src/task2.py:121-130 | On a ranked input, every rejected candidate shares a box with an accepted candidate ranked no later than it. |
| Matching.GreedyStep | src/task2.py:121-130 | One more step of the walk appends the next candidate exactly when it clashes with nothing accepted so far. |
| Matching.ExistsBetterMatch | src/task2.py:122-127 | The early-exit scan returns true if and only if some accepted pair shares the prediction or the ground truth of the candidate. |
| Matching.SelectMatches | src/task2.py:119-130 | The acceptance loop, seeded with the first ranked candidate, returns exactly the greedy walk of the ranked list. |
| Matching.GetAllBoxMatches | src/task2.py:77-144 | The two outputs are aligned and have one entry per accepted pair. Entry k holds the prediction box and the ground-truth box of the k-th accepted pair. When nothing qualifies, both are empty. |
| Matching.CollectMatchedBoxes | src/task2.py:132-144 | The output arrays are filled so that position k holds the two boxes of accepted pair k. |
| Matching.MatchesAreQualifying | src/task2.py:100-130 | Every accepted pair names existing boxes, carries their IoU, and reaches the threshold. |
| Matching.MatchesOneToOne | src/task2.py:77-130 | No prediction and no ground truth is matched twice, so the number of matches is at most both the number of predictions and the number of ground truths. |
| Matching.MatchesRanked | src/task2.py:111-130 | Matches come out in ranked order, so their IoU is non-increasing. |
| Matching.MatchesMaximal | src/task2.py:119-130 | Every qualifying pair left out shares a box with a different accepted pair ranked before it. |
| Matching.MatchesEmptyIff | src/task2.py:100-109 | There are no matches if and only if every prediction/ground-truth pair has IoU below the threshold. |
| Matching.MatchesStartWithBest | src/task2.py:111-120 | When some pair qualifies, the first match is ranked no later than any qualifying pair, so it has the highest IoU. |
| Matching.DistinctBelow | src/task2.py:119-130 | Distinct indices that are all below n number at most n. This bounds the matches. |
| Scoring.ImageCounts | src/task2.py:168-177 | The image counts are non-negative, and tp + fp equals the number of predictions and tp + fn the number of ground truths. |
| Scoring.CalculateIndividualImageResult | src/task2.py:148-181 | Running the matcher and counting its output gives the image counts: tp is the number of matches. |
| Scoring.SumAppend | src/task2.py:211-216 | The sum of counts is additive over concatenation. |
| Scoring.Totals | src/task2.py:204-216 | The dataset totals are the sum of the image counts of the first n images (PerImageCounts, a definitional helper). They are non-negative. tp + fp equals the number of predicted boxes over all images, and tp + fn the number of ground-truth boxes over them. |
| Scoring.TotalsStep | src/task2.py:211-216 | Evaluating one more image adds its counts to the running totals. |
| Scoring.TotalsBalance | src/task2.py:204-216 | The per-image balance carries over to the dataset sum. |
| Scoring.ImagesDefinedAppend | src/task2.py:211-212 | Two evaluable datasets placed one after the other form an evaluable dataset. |
| Scoring.PerImageCountsSlice | src/task2.py:211-212 | The counts of a run of images depend only on those images. |
| Scoring.PerImageCountsAppend | src/task2.py:211-216 | The per-image counts of two concatenated datasets are the concatenation of their per-image counts. |
| Scoring.TotalsAppend | src/task2.py:204-216 | The totals of two datasets placed one after the other are the sum of their totals. Aggregation is additive. |
| Scoring.CalculatePrecisionRecallAllImages | src/task2.py:185-222 | The loop sums the image counts over every image that has a prediction list. Precision and recall are those of the totals, and both lie in [0, 1]. |
| Scoring.AddImageResult | src/task2.py:212-216 | One turn of the accumulation adds the image's counts to the running totals. |
| Curve.ThresholdRange | src/task2.py:253-254 | The 500 thresholds lie in [0, 1], the first is 0 and the last is 1. |
| Curve.ThresholdIncreasing | src/task2.py:253-254 | The thresholds strictly increase. |
| Curve.Survivors | src/task2.py:270-272 | The surviving indices are in range and strictly increasing. An index survives if and only if it is scored and its score reaches the threshold. |
| Curve.FilterByScore | src/task2.py:267-274 | The kept boxes are as many as the surviving indices. |
| Curve.FilterByScoreAt | src/task2.py:267-274 | The i-th kept box is the box of the i-th surviving index, so order is preserved. |
| Curve.FilterImage | src/task2.py:267-274 | The innermost loop keeps exactly the boxes whose score reaches the threshold, in their original order. |
| Curve.SurvivorsShrink | src/task2.py:270-272 | A higher threshold keeps no more boxes of an image. |
| Curve.FilterKeepsAll | src/task2.py:270-272 | When every score reaches the threshold, the image keeps all its scored boxes. |
| Curve.FilterDropsAll | src/task2.py:270-274 | When no score reaches the threshold, the image keeps no box. |
| Curve.FilterImages | src/task2.py:263-275 | There is one filtered list per scored image, empty ones included, and entry i is image i filtered. |
| Curve.FilterAllImages | src/task2.py:263-275 | The middle loop builds exactly that list of filtered images. |
| Curve.FilteredBoxCountShrinks | src/task2.py:263-275 | Over the whole dataset, a higher threshold keeps no more predictions. |
| Curve.BoxCountSamePrefix | src/task2.py:263-275 | The box count of the first n images reads only those images. |
| Curve.FilteredImagesDefined | src/task2.py:263-277 | Every filtered image can be matched against its unfiltered ground truths. |
| Curve.CountsAt | src/task2.py:263-277 | The counts at a threshold are non-negative. tp + fp equals the number of kept predictions, and tp + fn the number of ground-truth boxes of the scored images. |
| Curve.PrecisionAt | src/task2.py:277 | The precision at threshold t lies in [0, 1]. |
| Curve.RecallAt | src/task2.py:277 | The recall at threshold t lies in [0, 1]. |
| Curve.PrecisionsUpTo | src/task2.py:258-277 | The precision curve up to n has n entries, all in [0, 1]. |
| Curve.RecallsUpTo | src/task2.py:258-277 | The recall curve up to n has n entries, all in [0, 1]. |
| Curve.PrecisionsUpToAt | src/task2.py:262-277 | Entry t of the precision curve is the precision of the dataset filtered at threshold t/499. |
| Curve.RecallsUpToAt | src/task2.py:262-277 | Entry t of the recall curve is the recall of the dataset filtered at threshold t/499. |
| Curve.GetPrecisionRecallCurve | src/task2.py:225-280 | The two arrays of 500 entries returned by the sweep are exactly the precision and recall curves. By the two lemmas above, entry t uses the predictions scoring at least t/499. |
| Curve.SweepStep | src/task2.py:262-277 | One turn of the sweep extends both filled prefixes by the point of threshold t. |
| Curve.StorePrecision | src/task2.py:277 | Writing precisions[t] extends the filled prefix of the precision array by one point. |
| Curve.StoreRecall | src/task2.py:277 | Writing recalls[t] extends the filled prefix of the recall array by one point. |
| Curve.CurvePoint | src/task2.py:263-277 | Filtering at threshold t and evaluating gives the precision and recall at t, both in [0, 1]. |
| Curve.RecallDenominatorFixed | src/task2.py:277 | All points are scored against the same ground truths, so tp + fn is the same at every threshold. |
| Curve.PredictionsShrinkAlongCurve | src/task2.py:262-277 | tp + fp does not grow as the threshold rises. |
| Curve.FirstThresholdKeepsAll | src/task2.py:254-272 | At threshold 0, an image with non-negative scores keeps every scored box. |
| Curve.EmptyImagesKept | src/task2.py:263-275 | An image none of whose scores reaches the threshold stays in the dataset as an empty image. |
| AveragePrecision.RecallLevelRange | src/task2.py:319-320 | The 11 recall levels lie in [0, 1], the first is 0 and the last is 1. |
| AveragePrecision.MaxPrecision | src/task2.py:327-330 | The running maximum is non-negative and at least every precision whose recall reaches the level. |
| AveragePrecision.MaxPrecisionAttained | src/task2.py:327-330 | The maximum is 0 or the precision of some point whose recall reaches the level. |
| AveragePrecision.UnreachedLevelGivesZero | src/task2.py:327-330 | A level that no point's recall reaches contributes 0. |
| AveragePrecision.MaxPrecisionAtMostOne | src/task2.py:327-330 | With all precisions at most 1, so is the maximum. |
| AveragePrecision.MaxPrecisionAntitone | src/task2.py:326-330 | A higher recall level never has a larger interpolated precision. |
| AveragePrecision.SumMaxPrecisions | src/task2.py:325-331 | The sum of the level maxima is non-negative. |
| AveragePrecision.SumMaxPrecisionsBounded | src/task2.py:325-331 | With all precisions at most 1, the sum over L levels is at most L. |
| AveragePrecision.MeanAveragePrecision | src/task2.py:333 | The mean average precision is non-negative. |
| AveragePrecision.MeanAveragePrecisionInUnitInterval | src/task2.py:306-335 | With all precisions at most 1, the mean average precision lies in [0, 1]. |
| AveragePrecision.PerfectPointGivesOne | src/task2.py:325-331 | With all precisions at most 1 and one point of recall 1 and precision 1, every level's maximum is 1, so the sum over L levels is L. |
| AveragePrecision.AllOnesCurveGivesOne | src/task2.py:306-335 | A non-empty curve of all-1 precisions and recalls has mean average precision exactly 1. |
| AveragePrecision.EmptyCurveGivesZero | src/task2.py:306-335 | An empty curve has mean average precision 0. |
| AveragePrecision.CalculateMeanAveragePrecision | src/task2.py:306-335 | The nested loops return the mean of the 11 interpolated maxima. |
| Evaluation.CurveMeanAveragePrecisionInUnitInterval | src/task2.py:225-335 | The mean average precision of the 500-point curve of any evaluable dataset lies in [0, 1]. |
| Evaluation.EvaluateDataset | src/task2.py:370-375 | Sweeping the curve at IoU threshold 0.5 and averaging it gives the mean average precision of the curve functions, a value in [0, 1]. |
| Evaluation.ExactImageCounts | src/task2.py:148-181 | An image whose one ground truth of positive width and height is predicted exactly is one true positive, with no false positive or false negative, at any IoU threshold up to 1. |
| Evaluation.PerfectImagesDefined | src/task2.py:23-36 | Every image of a perfect dataset has a non-zero union for each of its pairs, so it can be matched. |
| Evaluation.SumOfSingleMatches | src/task2.py:204-216 | Images that are each one true positive sum to n true positives and no errors. |
| Evaluation.PerfectSum | src/task2.py:185-216 | The first n images of a perfect dataset total n true positives and no errors. |
| Evaluation.PerfectCurveDefined | src/task2.py:263-277 | A perfect dataset meets what the sweep needs. |
| Evaluation.PerfectFilter | src/task2.py:263-275 | No threshold of the sweep drops a prediction scored 1, so every filtered dataset is the whole dataset. |
| Evaluation.PerfectCurvePoint | src/task2.py:262-277 | Every point of the curve of a non-empty perfect dataset has precision 1 and recall 1. |
| Evaluation.PerfectDatasetGivesOne | src/task2.py:225-335 | A non-empty dataset in which every image has exactly one ground truth, of positive width and height, and its only prediction is that box, scored 1, has mean average precision exactly 1 at any IoU threshold up to 1. |
| Evaluation.TwoPerfectImages | src/task2.py:370-375 | Two images, each with one box found exactly with score 1, give mean average precision 1 at IoU threshold 0.5. |

## Left out

- Floating point: all arithmetic is on exact reals. `np.linspace` is modelled by its exact values `t/499` and `k/10`, so rounding differences at a threshold boundary are not captured.
- Geometry.Iou: requires a non-zero union. The source divides by the union and raises `ZeroDivisionError` when it is 0. Matching.IouDefined asks for this for every prediction/ground-truth pair of an image, because the source computes the IoU of every such pair.
- Matching.RankSort: stands for `np.sort(order='iou')` followed by `np.flip`. Sorting a structured array on `iou` breaks ties on the remaining fields in ascending order, and the flip reverses everything. The model therefore fixes the order IoU descending, then prediction index descending, then ground-truth index descending. Matching.RankedUnique shows that any ranked permutation gives the same list.
- Matching.GetAllBoxMatches: returns sequences of boxes instead of `[n, 4]` float arrays. The empty `np.array([])` of the no-candidate case is modelled as empty sequences.
- Scoring.CalculateIndividualImageResult: returns a `Counts` value instead of the dictionary with keys `true_pos`, `false_pos` and `false_neg`.
- Scoring.CalculatePrecisionRecallAllImages: iterates over the prediction lists, as the source does. It therefore requires a ground-truth list for each of them, where the source would raise `IndexError`. Extra ground-truth lists are ignored, as in the source.
- Curve.GetPrecisionRecallCurve: requires CurveDefined:
  - every score has a box. The source reads a box only when its score reaches the threshold, so it raises `IndexError` only for a box-less score of at least 0; the model excludes box-less scores altogether;
  - every scored image has a ground-truth list;
  - every box with a non-negative score has a non-zero union with every ground truth of its image. Only these boxes can be kept, because every threshold is at least 0.
- Curve.GetPrecisionRecallCurve: each turn of the sweep is split into SweepStep, StorePrecision and StoreRecall, and the innermost loops into FilterImage and FilterAllImages. The values computed and stored are those of the inline loops.
- AveragePrecision.MaxPrecision: requires `|recalls| <= |precisions|`. The source reads `precisions[n]` only after `recalls[n]` reaches the level (a short-circuit `and`), so a shorter precision array raises `IndexError` only at such a point; the model leaves that error path out. The one caller passes two arrays of 500 entries.
- AveragePrecision.SumMaxPrecisions: requires `|recalls| <= |precisions|`, for the reason given for MaxPrecision.
- AveragePrecision.MeanAveragePrecision: requires `|recalls| <= |precisions|`, for the reason given for MaxPrecision.
- AveragePrecision.CalculateMeanAveragePrecision: requires `|recalls| <= |precisions|`, for the reason given for MaxPrecision.
- Curve.GetPrecisionRecallCurve: the arrays are created without the zero fill of `np.zeros`. Every entry is overwritten before it is read, so the returned values are the same.
- Plotting (`plot_precision_recall_curve`) is not part of this model. It is output only.
- Evaluation.EvaluateDataset: models the computation of `mean_average_precision` from the three lists onwards. Building the lists from the loaded dictionaries, the plot and the print are not part of this model. The same goes for the file reading at the end of the module and the helpers of `task2_tools`. These are I/O only.
