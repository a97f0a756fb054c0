/**
 * What `evaluate` guarantees end to end: every record's weights add up to one, the
 * records refer to every ground-truth edit and every kept prediction exactly as
 * often as there are such edits, and an accepted pair scores between 0.1 and 1.
 */
module EvaluationFacts {
  import opened Wrappers
  import opened Types
  import opened Matching
  import opened Evaluate
  import opened Metrics

  /** The first records of a successful emission are those of the accepted pairs. */
  lemma MatchedDetail(gts: seq<EditOperation>, preds: seq<EditOperation>, judge: Judge, r: Refined,
                      details: seq<EditMatch>, i: nat)
    requires Emittable(r, gts, preds) && Collect(RecordsOf(gts, preds, judge, r)) == Success(details)
    requires i < |r.kept|
    ensures var g, p := gts[r.kept[i].0], preds[r.kept[i].1];
            i < |details| && MatchedRecord(g, p, judge(g, p), i) == Success(details[i])
  {
    var rs := RecordsOf(gts, preds, judge, r);
    CollectAt(rs, details, i);
    assert rs[i] == MatchedRecords(gts, preds, judge, r.kept)[i];
  }

  /** Then come the false positives', numbered on from the accepted count. */
  lemma FalsePositiveDetail(gts: seq<EditOperation>, preds: seq<EditOperation>, judge: Judge, r: Refined,
                            details: seq<EditMatch>, i: nat)
    requires Emittable(r, gts, preds) && Collect(RecordsOf(gts, preds, judge, r)) == Success(details)
    requires |r.kept| <= i < |r.kept| + |r.fp|
    ensures i < |details| && FalsePositiveRecord(preds[r.fp[i - |r.kept|]], i) == Success(details[i])
  {
    CollectAt(RecordsOf(gts, preds, judge, r), details, i);
    FalsePositiveRecordAt(gts, preds, judge, r, i);
  }

  lemma FalsePositiveRecordAt(gts: seq<EditOperation>, preds: seq<EditOperation>, judge: Judge, r: Refined, i: nat)
    requires Emittable(r, gts, preds)
    requires |r.kept| <= i < |r.kept| + |r.fp|
    ensures RecordsOf(gts, preds, judge, r)[i] == FalsePositiveRecord(preds[r.fp[i - |r.kept|]], i)
  {
    var fpr := FalsePositiveRecords(preds, r.fp, |r.kept|);
    var back := fpr + FalseNegativeRecords(gts, r.fn, |r.kept|);
    assert RecordsOf(gts, preds, judge, r) == MatchedRecords(gts, preds, judge, r.kept) + back;
    assert back[i - |r.kept|] == fpr[i - |r.kept|];
  }

  /** And last the false negatives', numbered on from the accepted count too. */
  lemma FalseNegativeDetail(gts: seq<EditOperation>, preds: seq<EditOperation>, judge: Judge, r: Refined,
                            details: seq<EditMatch>, i: nat)
    requires Emittable(r, gts, preds) && Collect(RecordsOf(gts, preds, judge, r)) == Success(details)
    requires |r.kept| + |r.fp| <= i < |r.kept| + |r.fp| + |r.fn|
    ensures i < |details| && FalseNegativeRecord(gts[r.fn[i - |r.kept| - |r.fp|]], i - |r.fp|) == Success(details[i])
  {
    var rs := RecordsOf(gts, preds, judge, r);
    CollectAt(rs, details, i);
    var front := MatchedRecords(gts, preds, judge, r.kept) + FalsePositiveRecords(preds, r.fp, |r.kept|);
    assert rs == front + FalseNegativeRecords(gts, r.fn, |r.kept|);
    assert |front| == |r.kept| + |r.fp|;
    assert rs[i] == FalseNegativeRecords(gts, r.fn, |r.kept|)[i - |front|];
  }

  /** The shape of the emitted records: matched, then false positives, then false negatives. */
  lemma RecordsShape(gts: seq<EditOperation>, preds: seq<EditOperation>, judge: Judge, r: Refined,
                     details: seq<EditMatch>)
    requires Emittable(r, gts, preds) && Collect(RecordsOf(gts, preds, judge, r)) == Success(details)
    ensures |details| == |r.kept| + |r.fp| + |r.fn|
    ensures forall i :: 0 <= i < |details| ==> WeightsSumToOne(details[i]) && NonNegativeWeights(details[i])
    ensures forall i :: 0 <= i < |r.kept| ==>
              && details[i].observedEditNum == Some(i) && details[i].expectedEditNum == Some(i)
              && details[i].tp == 1.0 - Penalty(LineDiff(gts[r.kept[i].0], preds[r.kept[i].1]))
    ensures forall i :: |r.kept| <= i < |r.kept| + |r.fp| ==>
              details[i].observedEditNum == Some(i) && details[i].expectedEditNum.None? && details[i].fp == 1.0
    ensures forall i :: |r.kept| + |r.fp| <= i < |details| ==>
              details[i].observedEditNum.None? && details[i].expectedEditNum == Some(i - |r.fp|) && details[i].fn == 1.0
  {
    assert |details| == |r.kept| + |r.fp| + |r.fn|;
    forall i | 0 <= i < |r.kept|
      ensures WeightsSumToOne(details[i]) && NonNegativeWeights(details[i])
      ensures details[i].observedEditNum == Some(i) && details[i].expectedEditNum == Some(i)
      ensures details[i].tp == 1.0 - Penalty(LineDiff(gts[r.kept[i].0], preds[r.kept[i].1]))
    {
      MatchedDetail(gts, preds, judge, r, details, i);
    }
    forall i | |r.kept| <= i < |r.kept| + |r.fp|
      ensures WeightsSumToOne(details[i]) && NonNegativeWeights(details[i])
      ensures details[i].observedEditNum == Some(i) && details[i].expectedEditNum.None? && details[i].fp == 1.0
    {
      FalsePositiveDetail(gts, preds, judge, r, details, i);
    }
    forall i | |r.kept| + |r.fp| <= i < |details|
      ensures WeightsSumToOne(details[i]) && NonNegativeWeights(details[i])
      ensures details[i].observedEditNum.None? && details[i].expectedEditNum == Some(i - |r.fp|)
      ensures details[i].fn == 1.0
    {
      FalseNegativeDetail(gts, preds, judge, r, details, i);
    }
  }

  /** Which records refer to a ground-truth edit and which to a prediction. */
  lemma RecordsKinds(gts: seq<EditOperation>, preds: seq<EditOperation>, judge: Judge, r: Refined,
                     details: seq<EditMatch>)
    requires Emittable(r, gts, preds) && Collect(RecordsOf(gts, preds, judge, r)) == Success(details)
    ensures |details| == |r.kept| + |r.fp| + |r.fn|
    ensures forall i :: 0 <= i < |r.kept| ==> HasExpected(details[i]) && HasObserved(details[i])
    ensures forall i :: |r.kept| <= i < |r.kept| + |r.fp| ==> !HasExpected(details[i]) && HasObserved(details[i])
    ensures forall i :: |r.kept| + |r.fp| <= i < |details| ==> HasExpected(details[i]) && !HasObserved(details[i])
  {
    RecordsShape(gts, preds, judge, r, details);
  }

  /** How many records refer to a ground-truth edit, and how many to a prediction. */
  lemma RecordsCounts(gts: seq<EditOperation>, preds: seq<EditOperation>, judge: Judge, r: Refined,
                      details: seq<EditMatch>)
    requires Emittable(r, gts, preds) && Collect(RecordsOf(gts, preds, judge, r)) == Success(details)
    ensures ExpectedCount(details) == |r.kept| + |r.fn|
    ensures ObservedCount(details) == |r.kept| + |r.fp|
  {
    RecordsKinds(gts, preds, judge, r, details);
    CountsOfKinds(details, |r.kept|, |r.fp|);
  }

  /** Counting over records laid out as matched, then false positives, then false negatives. */
  lemma CountsOfKinds(details: seq<EditMatch>, k: nat, f: nat)
    requires k + f <= |details|
    requires forall i :: 0 <= i < k ==> HasExpected(details[i]) && HasObserved(details[i])
    requires forall i :: k <= i < k + f ==> !HasExpected(details[i]) && HasObserved(details[i])
    requires forall i :: k + f <= i < |details| ==> HasExpected(details[i]) && !HasObserved(details[i])
    ensures ExpectedCount(details) == |details| - f
    ensures ObservedCount(details) == k + f
  {
    var a, b, c := details[..k], details[k..k + f], details[k + f..];
    ThreeRuns(details, k, f, HasExpected);
    ThreeRuns(details, k, f, HasObserved);
    assert forall i :: 0 <= i < |a| ==> a[i] == details[i];
    assert forall i :: 0 <= i < |b| ==> b[i] == details[k + i];
    assert forall i :: 0 <= i < |c| ==> c[i] == details[k + f + i];
    CountWhereAll(a, HasExpected);
    CountWhereNone(b, HasExpected);
    CountWhereAll(c, HasExpected);
    CountWhereAll(a, HasObserved);
    CountWhereAll(b, HasObserved);
    CountWhereNone(c, HasObserved);
  }

  /** A count over a list is the sum of the counts over three consecutive runs of it. */
  lemma ThreeRuns(ds: seq<EditMatch>, k: nat, f: nat, p: EditMatch -> bool)
    requires k + f <= |ds|
    ensures CountWhere(ds, p) == CountWhere(ds[..k], p) + CountWhere(ds[k..k + f], p) + CountWhere(ds[k + f..], p)
  {
    var a, b, c := ds[..k], ds[k..k + f], ds[k + f..];
    assert ds == a + b + c;
    CountWhereConcat(a + b, c, p);
    CountWhereConcat(a, b, p);
  }

  /** The refined state of a successful matching, with the pieces that describe it. */
  lemma RefinedOfMatching(gts: seq<EditOperation>, preds: seq<EditOperation>, judge: Judge, m: Matching)
    requires Greedy(gts, preds, |gts|) == Success(m)
    ensures Lined(m.tp, gts, preds)
    ensures var r := RefineSpec(m.tp, Verdicts(gts, preds, judge, m.tp), StartOf(m));
            && Emittable(r, gts, preds)
            && |r.kept| + |r.fn| == |gts|
            && |r.kept| + |r.fp| == |preds|
            && forall x :: x in r.kept ==> x in m.tp
  {
    MatchedLined(gts, preds, m);
    var oks := Verdicts(gts, preds, judge, m.tp);
    RefineEmittable(m.tp, oks, StartOf(m), gts, preds);
    MatchingCounts(gts, preds);
    assert DistinctGts(m.tp) by {
      forall i, j | 0 <= i < j < |m.tp| ensures m.tp[i].0 != m.tp[j].0 {
        assert GtsOf(m.tp)[i] < GtsOf(m.tp)[j];
      }
    }
    OccurrencesOfDistinct(m.tp);
    RefinePartition(m.tp, oks, StartOf(m));
  }

  /**
   * End to end: `evaluate` emits one record per ground-truth edit with an expected
   * number and one per kept prediction with an observed number, and the weights of
   * every record are non-negative and add up to one.
   */
  lemma EvaluationCounts(truth: EditAnnotation, prediction: EditAnnotation, modelName: string, date: string,
                         judge: Judge, res: EvaluationResult)
    requires Evaluation(truth, prediction, modelName, date, judge) == Success(res)
    ensures ExpectedCount(res.details) == |truth.edits|
    ensures ObservedCount(res.details) == |Filtered(prediction.edits)|
    ensures forall i :: 0 <= i < |res.details| ==> WeightsSumToOne(res.details[i]) && NonNegativeWeights(res.details[i])
    ensures var t := Sums(res.details); t.tp + t.fp + t.fn == |res.details| as real
  {
    var gts, preds := truth.edits, Filtered(prediction.edits);
    var m := Greedy(gts, preds, |gts|).value;
    RefinedOfMatching(gts, preds, judge, m);
    var r := RefineSpec(m.tp, Verdicts(gts, preds, judge, m.tp), StartOf(m));
    RecordsShape(gts, preds, judge, r, res.details);
    RecordsCounts(gts, preds, judge, r, res.details);
    SumsOfUnitWeights(res.details);
  }

  /** An accepted pair comes from the matching, so its lines are at most three apart. */
  lemma KeptWithinThreeLines(gts: seq<EditOperation>, preds: seq<EditOperation>, judge: Judge, m: Matching, x: Pair)
    requires Greedy(gts, preds, |gts|) == Success(m) && Lined(m.tp, gts, preds)
    requires x in RefineSpec(m.tp, Verdicts(gts, preds, judge, m.tp), StartOf(m)).kept
    ensures x.0 < |gts| && x.1 < |preds| && HasLine(gts[x.0]) && HasLine(preds[x.1])
    ensures LineDiff(gts[x.0], preds[x.1]) <= 3 && Penalty(LineDiff(gts[x.0], preds[x.1])) <= 0.9
  {
    RefinedOfMatching(gts, preds, judge, m);
    GreedyWellFormed(gts, preds, |gts|, m);
    var k :| 0 <= k < |m.tp| && m.tp[k] == x;
    assert TestPair(gts[x.0], preds[x.1]) == Candidate;
    var d := LineDiff(gts[x.0], preds[x.1]);
    PenaltyTable(d);
    assert d == 0 || d == 1 || d == 2 || d == 3;
  }

  /**
   * Every accepted pair scores between 0.1 and 1, and what the penalty takes off is
   * split evenly between fp and fn.
   */
  lemma EvaluationMatchedScores(truth: EditAnnotation, prediction: EditAnnotation, modelName: string, date: string,
                                judge: Judge, res: EvaluationResult, i: nat)
    requires Evaluation(truth, prediction, modelName, date, judge) == Success(res)
    requires i < |res.details| && res.details[i].observedEditNum.Some? && res.details[i].expectedEditNum.Some?
    ensures 0.1 <= res.details[i].tp <= 1.0
    ensures res.details[i].fp == res.details[i].fn == (1.0 - res.details[i].tp) / 2.0
  {
    var gts, preds := truth.edits, Filtered(prediction.edits);
    var m := Greedy(gts, preds, |gts|).value;
    RefinedOfMatching(gts, preds, judge, m);
    var r := RefineSpec(m.tp, Verdicts(gts, preds, judge, m.tp), StartOf(m));
    assert |res.details| == |r.kept| + |r.fp| + |r.fn|;
    if i < |r.kept| {
      MatchedDetail(gts, preds, judge, r, res.details, i);
      KeptWithinThreeLines(gts, preds, judge, m, r.kept[i]);
    } else if i < |r.kept| + |r.fp| {
      FalsePositiveDetail(gts, preds, judge, r, res.details, i);
      assert false;
    } else {
      FalseNegativeDetail(gts, preds, judge, r, res.details, i);
      assert false;
    }
  }
}
