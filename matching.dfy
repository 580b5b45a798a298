/**
 * Greedy one-to-one matching of predicted boxes to ground-truth boxes of one
 * image: every (prediction, ground truth) pair whose IoU reaches the threshold
 * is a candidate; the candidates are ranked by decreasing IoU and accepted in
 * that order unless one of their two boxes is already taken.
 */
module Matching {
  import opened Geometry

  /** A pair of box indices and their IoU. */
  datatype Candidate = Candidate(pred: nat, gt: nat, iou: real)

  /** Every prediction/ground-truth pair has a non-zero union, so its IoU exists. */
  predicate IouDefined(preds: seq<Box>, gts: seq<Box>) {
    forall p, g {:trigger UnionArea(preds[p], gts[g])} :: 0 <= p < |preds| && 0 <= g < |gts| ==> UnionArea(preds[p], gts[g]) != 0.0
  }

  /** `c` names a pair of existing boxes, carries their IoU, and that IoU reaches the threshold. */
  predicate Qualifies(preds: seq<Box>, gts: seq<Box>, threshold: real, c: Candidate)
    requires IouDefined(preds, gts)
  {
    c.pred < |preds| && c.gt < |gts| && c.iou == Iou(preds[c.pred], gts[c.gt]) && c.iou >= threshold
  }

  // ---------------------------------------------------------------------------
  // Step 1: enumeration of the qualifying pairs, prediction-major.
  // ---------------------------------------------------------------------------

  /** The qualifying pairs of prediction `p` with the first `n` ground truths, by ground-truth index. */
  function RowCandidates(preds: seq<Box>, gts: seq<Box>, threshold: real, p: nat, n: nat): (r: seq<Candidate>)
    requires IouDefined(preds, gts) && p < |preds| && n <= |gts|
    ensures forall c :: c in r <==> c.pred == p && c.gt < n && Qualifies(preds, gts, threshold, c)
  {
    if n == 0 then []
    else
      var iou := Iou(preds[p], gts[n - 1]);
      RowCandidates(preds, gts, threshold, p, n - 1)
        + (if iou >= threshold then [Candidate(p, n - 1, iou)] else [])
  }

  /** The qualifying pairs of the first `m` predictions, in the order the nested loops meet them. */
  function CandidatesUpTo(preds: seq<Box>, gts: seq<Box>, threshold: real, m: nat): (r: seq<Candidate>)
    requires IouDefined(preds, gts) && m <= |preds|
    ensures forall c :: c in r <==> c.pred < m && Qualifies(preds, gts, threshold, c)
  {
    if m == 0 then []
    else CandidatesUpTo(preds, gts, threshold, m - 1) + RowCandidates(preds, gts, threshold, m - 1, |gts|)
  }

  function Candidates(preds: seq<Box>, gts: seq<Box>, threshold: real): seq<Candidate>
    requires IouDefined(preds, gts)
  {
    CandidatesUpTo(preds, gts, threshold, |preds|)
  }

  /** The two nested loops that collect every pair with IoU >= threshold. */
  method EnumerateCandidates(preds: seq<Box>, gts: seq<Box>, threshold: real) returns (all: seq<Candidate>)
    requires IouDefined(preds, gts)
    ensures all == Candidates(preds, gts, threshold)
    ensures forall c :: c in all <==> Qualifies(preds, gts, threshold, c)
  {
    all := [];
    for p := 0 to |preds|
      invariant all == CandidatesUpTo(preds, gts, threshold, p)
    {
      all := EnumerateRow(preds, gts, threshold, p, all);
    }
  }

  /** The inner loop: appends the qualifying pairs of prediction `p`, by ground-truth index. */
  method EnumerateRow(preds: seq<Box>, gts: seq<Box>, threshold: real, p: nat, before: seq<Candidate>)
    returns (all: seq<Candidate>)
    requires IouDefined(preds, gts) && p < |preds|
    ensures all == before + RowCandidates(preds, gts, threshold, p, |gts|)
  {
    all := before;
    for g := 0 to |gts|
      invariant all == before + RowCandidates(preds, gts, threshold, p, g)
    {
      var iou := Iou(preds[p], gts[g]);
      if iou >= threshold {
        all := all + [Candidate(p, g, iou)];
      }
    }
  }

  // ---------------------------------------------------------------------------
  // Step 2: ranking. Sorting the structured array on 'iou' breaks ties on the
  // remaining fields (prediction index, then ground-truth index) ascending, and
  // the flip that follows reverses the whole order.
  // ---------------------------------------------------------------------------

  /** `a` is ranked no later than `b`: higher IoU, then higher prediction index, then higher ground-truth index. */
  predicate Precedes(a: Candidate, b: Candidate) {
    a.iou > b.iou || (a.iou == b.iou && (a.pred > b.pred || (a.pred == b.pred && a.gt >= b.gt)))
  }

  predicate Ranked(s: seq<Candidate>) {
    forall i, j :: 0 <= i < j < |s| ==> Precedes(s[i], s[j])
  }

  /** The ranking is a total order on candidates. */
  lemma PrecedesTotalOrder(a: Candidate, b: Candidate, c: Candidate)
    ensures Precedes(a, b) || Precedes(b, a)
    ensures Precedes(a, b) && Precedes(b, a) ==> a == b
    ensures Precedes(a, b) && Precedes(b, c) ==> Precedes(a, c)
  {
  }

  function Insert(c: Candidate, s: seq<Candidate>): (r: seq<Candidate>)
    requires Ranked(s)
    ensures Ranked(r)
    ensures multiset(r) == multiset(s) + multiset{c}
  {
    if s == [] then [c]
    else if Precedes(c, s[0]) then [c] + s
    else
      var rest := Insert(c, s[1..]);
      InsertBehindHead(c, s, rest);
      [s[0]] + rest
  }

  /** When `c` ranks after the head of `s`, the head stays in front of `c` inserted into the tail. */
  lemma InsertBehindHead(c: Candidate, s: seq<Candidate>, rest: seq<Candidate>)
    requires Ranked(s) && s != [] && !Precedes(c, s[0])
    requires Ranked(rest) && multiset(rest) == multiset(s[1..]) + multiset{c}
    ensures Ranked([s[0]] + rest)
    ensures multiset([s[0]] + rest) == multiset(s) + multiset{c}
  {
    assert s == [s[0]] + s[1..];
    var r := [s[0]] + rest;
    forall i, j | 0 <= i < j < |r|
      ensures Precedes(r[i], r[j])
    {
      if i == 0 {
        var x := rest[j - 1];
        assert x in multiset(rest);
        if x != c {
          assert x in multiset(s[1..]);
          var k :| 0 <= k < |s[1..]| && s[1..][k] == x;
          assert s[k + 1] == x;
        }
      } else {
        assert r[i] == rest[i - 1] && r[j] == rest[j - 1];
      }
    }
  }

  /** The candidates in ranked order; stands for the library sort followed by the flip. */
  function RankSort(s: seq<Candidate>): (r: seq<Candidate>)
    ensures Ranked(r)
    ensures multiset(r) == multiset(s)
  {
    if s == [] then [] else
      assert s == [s[0]] + s[1..];
      Insert(s[0], RankSort(s[1..]))
  }

  /** The ranked order is fully determined: any two ranked arrangements of the same candidates coincide. */
  lemma {:induction false} RankedUnique(s: seq<Candidate>, t: seq<Candidate>)
    requires Ranked(s) && Ranked(t)
    requires multiset(s) == multiset(t)
    ensures s == t
  {
    if s != [] {
      RankedSameHead(s, t);
      MultisetOfTail(s);
      MultisetOfTail(t);
      RankedUnique(s[1..], t[1..]);
      assert s == [s[0]] + s[1..] && t == [t[0]] + t[1..];
    }
  }

  /** Two ranked permutations of one another start with the same candidate. */
  lemma RankedSameHead(s: seq<Candidate>, t: seq<Candidate>)
    requires Ranked(s) && Ranked(t) && s != []
    requires multiset(s) == multiset(t)
    ensures t != [] && s[0] == t[0]
  {
    assert s[0] in multiset(t);
    var i :| 0 <= i < |t| && t[i] == s[0];
    assert t[0] in multiset(s);
    var j :| 0 <= j < |s| && s[j] == t[0];
    assert Precedes(t[0], s[0]) && Precedes(s[0], t[0]);
    PrecedesTotalOrder(s[0], t[0], t[0]);
  }

  lemma MultisetOfTail(s: seq<Candidate>)
    requires s != []
    ensures multiset(s[1..]) == multiset(s) - multiset{s[0]}
  {
    assert s == [s[0]] + s[1..];
  }

  // ---------------------------------------------------------------------------
  // Step 3: greedy acceptance.
  // ---------------------------------------------------------------------------

  /** The two candidates claim the same prediction or the same ground truth. */
  predicate Clash(a: Candidate, b: Candidate) {
    a.pred == b.pred || a.gt == b.gt
  }

  predicate Conflicts(accepted: seq<Candidate>, c: Candidate) {
    exists k :: 0 <= k < |accepted| && Clash(accepted[k], c)
  }

  /** Appending to the accepted list keeps every clash it already had. */
  lemma ConflictsGrow(accepted: seq<Candidate>, c: Candidate)
    ensures forall x :: Conflicts(accepted, x) ==> Conflicts(accepted + [c], x)
  {
    forall x | Conflicts(accepted, x)
      ensures Conflicts(accepted + [c], x)
    {
      var k :| 0 <= k < |accepted| && Clash(accepted[k], x);
      assert (accepted + [c])[k] == accepted[k];
    }
  }

  /** No prediction and no ground truth is used twice. */
  predicate OneToOne(r: seq<Candidate>) {
    forall i, j :: 0 <= i < j < |r| ==> !Clash(r[i], r[j])
  }

  /** Walks `s` front to back, accepting a candidate when it clashes with nothing accepted so far. */
  function Greedy(s: seq<Candidate>): (r: seq<Candidate>)
    ensures OneToOne(r)
    ensures forall x :: x in r ==> x in s
    ensures forall x :: x in s ==> x in r || Conflicts(r, x)
    ensures s != [] ==> r != [] && r[0] == s[0]
  {
    if s == [] then []
    else
      var acc := Greedy(s[..|s| - 1]);
      var c := s[|s| - 1];
      assert forall x :: x in s ==> x in s[..|s| - 1] || x == c;
      ConflictsGrow(acc, c);
      if Conflicts(acc, c) then acc else acc + [c]
  }

  /** What is accepted from a prefix stays accepted, in the same positions. */
  lemma {:induction false} GreedyPrefix(s: seq<Candidate>, j: nat)
    requires j <= |s|
    ensures Greedy(s[..j]) <= Greedy(s)
    decreases |s|
  {
    if j < |s| {
      assert s[..|s| - 1][..j] == s[..j];
      GreedyPrefix(s[..|s| - 1], j);
    } else {
      assert s[..j] == s;
    }
  }

  /** On a ranked list, greedy acceptance keeps the ranking. */
  lemma {:induction false} GreedyRanked(s: seq<Candidate>)
    requires Ranked(s)
    ensures Ranked(Greedy(s))
  {
    if s != [] {
      var prefix := s[..|s| - 1];
      GreedyRanked(prefix);
      var acc := Greedy(prefix);
      var c := s[|s| - 1];
      if !Conflicts(acc, c) {
        var r := acc + [c];
        forall i, j | 0 <= i < j < |r|
          ensures Precedes(r[i], r[j])
        {
          if j == |acc| {
            assert acc[i] in prefix;
            var i' :| 0 <= i' < |prefix| && prefix[i'] == acc[i];
            assert s[i'] == acc[i];
          }
        }
      }
    }
  }

  /**
   * On a ranked list, a candidate that was not accepted shares a box with an
   * accepted candidate ranked no later than it.
   */
  lemma GreedyRejectsOnlyForEarlierClash(s: seq<Candidate>, j: nat)
    requires Ranked(s) && j < |s|
    requires s[j] !in Greedy(s)
    ensures exists k :: 0 <= k < |Greedy(s)| && Clash(Greedy(s)[k], s[j]) && Precedes(Greedy(s)[k], s[j])
  {
    GreedyPrefix(s, j + 1);
    GreedyPrefix(s[..j + 1], j);
    assert s[..j + 1][..j] == s[..j];
    var before := Greedy(s[..j]);
    assert s[..j + 1][j] == s[j] && s[..j + 1][..j] == s[..j];
    if !Conflicts(before, s[j]) {
      assert false;
    }
    var k :| 0 <= k < |before| && Clash(before[k], s[j]);
    assert before[k] in s[..j];
    var i :| 0 <= i < j && s[i] == before[k];
    assert Greedy(s)[k] == before[k];
  }

  /** Extending the walk by one candidate accepts it exactly when it clashes with nothing accepted. */
  lemma GreedyStep(s: seq<Candidate>, i: nat)
    requires i < |s|
    ensures Greedy(s[..i + 1]) == if Conflicts(Greedy(s[..i]), s[i]) then Greedy(s[..i]) else Greedy(s[..i]) + [s[i]]
  {
    assert s[..i + 1][..i] == s[..i];
  }

  /** The inner scan: stops at the first accepted pair that shares a box with `c`. */
  method ExistsBetterMatch(best: seq<Candidate>, c: Candidate) returns (existsBetterMatch: bool)
    ensures existsBetterMatch <==> Conflicts(best, c)
  {
    existsBetterMatch := false;
    var j := 0;
    while j < |best|
      invariant 0 <= j <= |best|
      invariant !existsBetterMatch
      invariant forall k :: 0 <= k < j ==> !Clash(best[k], c)
    {
      if c.pred == best[j].pred || c.gt == best[j].gt {
        existsBetterMatch := true;
        break;
      }
      j := j + 1;
    }
  }

  /** The method form of the acceptance walk, as written with an early-exit scan. */
  method SelectMatches(sorted: seq<Candidate>) returns (best: seq<Candidate>)
    requires sorted != []
    ensures best == Greedy(sorted)
  {
    best := [sorted[0]];
    assert sorted[..1] == [sorted[0]];
    for i := 1 to |sorted|
      invariant best == Greedy(sorted[..i])
    {
      var existsBetterMatch := ExistsBetterMatch(best, sorted[i]);
      GreedyStep(sorted, i);
      if !existsBetterMatch {
        best := best + [sorted[i]];
      }
    }
    assert sorted[..|sorted|] == sorted;
  }

  // ---------------------------------------------------------------------------
  // The whole matcher.
  // ---------------------------------------------------------------------------

  /** The accepted pairs, in acceptance order. */
  function Matches(preds: seq<Box>, gts: seq<Box>, threshold: real): seq<Candidate>
    requires IouDefined(preds, gts)
  {
    Greedy(RankSort(Candidates(preds, gts, threshold)))
  }

  /**
   * Returns the matched prediction boxes and the matched ground-truth boxes,
   * position i of each being the two boxes of the i-th accepted pair.
   */
  method GetAllBoxMatches(preds: seq<Box>, gts: seq<Box>, threshold: real)
    returns (predictionMatches: seq<Box>, gtMatches: seq<Box>)
    requires IouDefined(preds, gts)
    ensures |predictionMatches| == |gtMatches| == |Matches(preds, gts, threshold)|
    ensures forall k :: 0 <= k < |predictionMatches| ==>
      Matches(preds, gts, threshold)[k].pred < |preds| &&
      predictionMatches[k] == preds[Matches(preds, gts, threshold)[k].pred]
    ensures forall k :: 0 <= k < |gtMatches| ==>
      Matches(preds, gts, threshold)[k].gt < |gts| &&
      gtMatches[k] == gts[Matches(preds, gts, threshold)[k].gt]
  {
    var all := EnumerateCandidates(preds, gts, threshold);
    if |all| == 0 {
      assert RankSort(all) == [];
      return [], [];
    }
    var sorted := RankSort(all);
    assert sorted != [] by { assert |multiset(sorted)| == |multiset(all)|; }
    var best := SelectMatches(sorted);
    assert best == Matches(preds, gts, threshold);
    MatchesAreQualifying(preds, gts, threshold);
    predictionMatches, gtMatches := CollectMatchedBoxes(preds, gts, best);
  }

  /** Fills the two freshly allocated output arrays with the boxes of each accepted pair. */
  method CollectMatchedBoxes(preds: seq<Box>, gts: seq<Box>, best: seq<Candidate>)
    returns (predictionMatches: seq<Box>, gtMatches: seq<Box>)
    requires forall k :: 0 <= k < |best| ==> best[k].pred < |preds| && best[k].gt < |gts|
    ensures |predictionMatches| == |gtMatches| == |best|
    ensures forall k :: 0 <= k < |best| ==> predictionMatches[k] == preds[best[k].pred]
    ensures forall k :: 0 <= k < |best| ==> gtMatches[k] == gts[best[k].gt]
  {
    var n := |best|;
    var predArray := new Box[n];
    var gtArray := new Box[n];
    for k := 0 to n
      invariant forall i :: 0 <= i < k ==> predArray[i] == preds[best[i].pred] && gtArray[i] == gts[best[i].gt]
    {
      predArray[k] := preds[best[k].pred];
      gtArray[k] := gts[best[k].gt];
    }
    predictionMatches, gtMatches := predArray[..], gtArray[..];
  }

  // ---------------------------------------------------------------------------
  // Properties of the matcher.
  // ---------------------------------------------------------------------------

  /** Every accepted pair names two existing boxes, carries their IoU, and reaches the threshold. */
  lemma MatchesAreQualifying(preds: seq<Box>, gts: seq<Box>, threshold: real)
    requires IouDefined(preds, gts)
    ensures forall k :: 0 <= k < |Matches(preds, gts, threshold)| ==>
      Qualifies(preds, gts, threshold, Matches(preds, gts, threshold)[k])
  {
    var sorted := RankSort(Candidates(preds, gts, threshold));
    forall k | 0 <= k < |Matches(preds, gts, threshold)|
      ensures Qualifies(preds, gts, threshold, Matches(preds, gts, threshold)[k])
    {
      var c := Matches(preds, gts, threshold)[k];
      assert c in sorted;
      assert c in multiset(sorted);
    }
  }

  /** A set of naturals all below n has at most n elements. */
  lemma {:induction false} BoundedSetSize(xs: set<nat>, n: nat)
    requires forall x :: x in xs ==> x < n
    ensures |xs| <= n
  {
    if n > 0 {
      BoundedSetSize(xs - {n - 1}, n - 1);
    } else {
      assert xs == {};
    }
  }

  function ToSet(xs: seq<nat>): (r: set<nat>)
    ensures forall x :: x in r <==> x in xs
  {
    if xs == [] then {} else {xs[0]} + ToSet(xs[1..])
  }

  /** A sequence without repetitions has as many distinct elements as positions. */
  lemma {:induction false} DistinctSize(xs: seq<nat>)
    requires forall i, j :: 0 <= i < j < |xs| ==> xs[i] != xs[j]
    ensures |ToSet(xs)| == |xs|
  {
    if xs != [] {
      var tail := xs[1..];
      DistinctSize(tail);
      assert xs[0] !in tail;
    }
  }

  /** Distinct indices all below n number at most n. */
  lemma DistinctBelow(xs: seq<nat>, n: nat)
    requires forall i, j :: 0 <= i < j < |xs| ==> xs[i] != xs[j]
    requires forall i :: 0 <= i < |xs| ==> xs[i] < n
    ensures |xs| <= n
  {
    DistinctSize(xs);
    BoundedSetSize(ToSet(xs), n);
  }

  /** No prediction and no ground truth is matched twice, so there are at most min(#pred, #gt) matches. */
  lemma MatchesOneToOne(preds: seq<Box>, gts: seq<Box>, threshold: real)
    requires IouDefined(preds, gts)
    ensures OneToOne(Matches(preds, gts, threshold))
    ensures |Matches(preds, gts, threshold)| <= |preds|
    ensures |Matches(preds, gts, threshold)| <= |gts|
  {
    var r := Matches(preds, gts, threshold);
    MatchesAreQualifying(preds, gts, threshold);
    var predIndices := seq(|r|, k requires 0 <= k < |r| => r[k].pred);
    var gtIndices := seq(|r|, k requires 0 <= k < |r| => r[k].gt);
    DistinctBelow(predIndices, |preds|);
    DistinctBelow(gtIndices, |gts|);
  }

  /** Accepted pairs come in ranked order, so with non-increasing IoU. */
  lemma MatchesRanked(preds: seq<Box>, gts: seq<Box>, threshold: real)
    requires IouDefined(preds, gts)
    ensures Ranked(Matches(preds, gts, threshold))
    ensures forall i, j :: 0 <= i < j < |Matches(preds, gts, threshold)| ==>
      Matches(preds, gts, threshold)[i].iou >= Matches(preds, gts, threshold)[j].iou
  {
    GreedyRanked(RankSort(Candidates(preds, gts, threshold)));
  }

  /**
   * The matching is maximal: every qualifying pair that was not accepted
   * shares a box with an accepted pair ranked before it.
   */
  lemma MatchesMaximal(preds: seq<Box>, gts: seq<Box>, threshold: real, c: Candidate)
    requires IouDefined(preds, gts)
    requires Qualifies(preds, gts, threshold, c)
    requires c !in Matches(preds, gts, threshold)
    ensures exists k :: (0 <= k < |Matches(preds, gts, threshold)| &&
      Clash(Matches(preds, gts, threshold)[k], c) &&
      Precedes(Matches(preds, gts, threshold)[k], c) && Matches(preds, gts, threshold)[k] != c)
  {
    var sorted := RankSort(Candidates(preds, gts, threshold));
    assert c in Candidates(preds, gts, threshold);
    assert c in multiset(sorted);
    var j :| 0 <= j < |sorted| && sorted[j] == c;
    GreedyRejectsOnlyForEarlierClash(sorted, j);
  }

  /** There are matches exactly when some pair reaches the threshold. */
  lemma MatchesEmptyIff(preds: seq<Box>, gts: seq<Box>, threshold: real)
    requires IouDefined(preds, gts)
    ensures Matches(preds, gts, threshold) == [] <==>
      forall p, g :: 0 <= p < |preds| && 0 <= g < |gts| ==> Iou(preds[p], gts[g]) < threshold
  {
    var matches := Matches(preds, gts, threshold);
    if matches != [] {
      MatchesAreQualifying(preds, gts, threshold);
      assert Qualifies(preds, gts, threshold, matches[0]);
    }
    if exists p, g :: 0 <= p < |preds| && 0 <= g < |gts| && Iou(preds[p], gts[g]) >= threshold {
      var p, g :| 0 <= p < |preds| && 0 <= g < |gts| && Iou(preds[p], gts[g]) >= threshold;
      MatchesStartWithBest(preds, gts, threshold, Candidate(p, g, Iou(preds[p], gts[g])));
    }
  }

  /** The first accepted pair is ranked no later than any qualifying pair: greedy starts from the best IoU. */
  lemma MatchesStartWithBest(preds: seq<Box>, gts: seq<Box>, threshold: real, c: Candidate)
    requires IouDefined(preds, gts)
    requires Qualifies(preds, gts, threshold, c)
    ensures Matches(preds, gts, threshold) != []
    ensures Precedes(Matches(preds, gts, threshold)[0], c)
  {
    var sorted := RankSort(Candidates(preds, gts, threshold));
    assert c in multiset(sorted);
    var i :| 0 <= i < |sorted| && sorted[i] == c;
  }
}
