/**
 * The precision, recall and F1 reductions of the evaluation module: the summary
 * that `display_results` computes from the `EditMatch` records (overall and per edit
 * type), and the older `calculate_metrics`, which works from the matched pairs and
 * a list of scored judgments. Every ratio is 0 when its denominator is not positive.
 */
module Metrics {
  import opened Wrappers
  import opened Strings
  import opened Types
  import opened Dicts

  // ---------------------------------------------------------------------
  // Guarded ratios
  // ---------------------------------------------------------------------

  /** `num / den if den > 0 else 0.0`. */
  function Ratio(num: real, den: real): (r: real)
    ensures den <= 0.0 ==> r == 0.0
    ensures den > 0.0 ==> r * den == num
  {
    if den > 0.0 then num / den else 0.0
  }

  /** A part of a non-negative whole is a fraction between 0 and 1. */
  lemma RatioBounds(num: real, den: real)
    requires 0.0 <= num <= den
    ensures 0.0 <= Ratio(num, den) <= 1.0
  {
    if den > 0.0 {
      assert num / den <= den / den;
    }
  }

  /** The sign of a product of non-negative reals. */
  lemma MulSign(a: real, b: real)
    requires 0.0 <= a && 0.0 <= b
    ensures 0.0 <= a * b
    ensures 0.0 < a && 0.0 < b ==> 0.0 < a * b
  {
  }

  /** `2 * p * r / (p + r) if (p + r) > 0 else 0.0`. */
  function F1(p: real, r: real): real {
    Ratio(2.0 * p * r, p + r)
  }

  /** The F1 score of two fractions is a fraction, and 0 exactly when both are 0. */
  lemma F1Bounds(p: real, r: real)
    requires 0.0 <= p <= 1.0 && 0.0 <= r <= 1.0
    ensures 0.0 <= F1(p, r) <= 1.0
    ensures F1(p, r) == 0.0 <==> p == 0.0 || r == 0.0
  {
    var pr := p * r;
    MulSign(p, r);
    MulSign(p, 1.0 - r);
    MulSign(1.0 - p, r);
    assert p * (1.0 - r) == p - pr;
    assert (1.0 - p) * r == r - pr;
    assert 2.0 * p * r == 2.0 * pr;
    RatioBounds(2.0 * pr, p + r);
    if p == 0.0 || r == 0.0 {
      assert pr == 0.0;
    }
  }

  // ---------------------------------------------------------------------
  // display_results: the overall summary
  // ---------------------------------------------------------------------

  datatype Totals = Totals(tp: real, fp: real, fn: real)

  /** `sum(edit.tp …)`, `sum(edit.fp …)` and `sum(edit.fn …)` over the records. */
  function Sums(ds: seq<EditMatch>): Totals
  {
    if ds == [] then Totals(0.0, 0.0, 0.0)
    else
      var t := Sums(ds[..|ds| - 1]);
      var d := ds[|ds| - 1];
      Totals(t.tp + d.tp, t.fp + d.fp, t.fn + d.fn)
  }

  ghost predicate NonNegativeWeights(d: EditMatch) {
    d.tp >= 0.0 && d.fp >= 0.0 && d.fn >= 0.0
  }

  /** With records whose weights add up to one, the three sums add up to the number of records. */
  lemma {:induction false} SumsOfUnitWeights(ds: seq<EditMatch>)
    requires forall i :: 0 <= i < |ds| ==> WeightsSumToOne(ds[i])
    ensures var t := Sums(ds); t.tp + t.fp + t.fn == |ds| as real
  {
    if ds != [] {
      SumsOfUnitWeights(ds[..|ds| - 1]);
    }
  }

  /** Non-negative weights give non-negative sums. */
  lemma {:induction false} SumsNonNegative(ds: seq<EditMatch>)
    requires forall i :: 0 <= i < |ds| ==> NonNegativeWeights(ds[i])
    ensures var t := Sums(ds); t.tp >= 0.0 && t.fp >= 0.0 && t.fn >= 0.0
  {
    if ds != [] {
      SumsNonNegative(ds[..|ds| - 1]);
    }
  }

  /** How many records satisfy `p`. */
  function CountWhere(ds: seq<EditMatch>, p: EditMatch -> bool): (n: nat)
    ensures n <= |ds|
  {
    if ds == [] then 0 else CountWhere(ds[..|ds| - 1], p) + (if p(ds[|ds| - 1]) then 1 else 0)
  }

  lemma {:induction false} CountWhereConcat(a: seq<EditMatch>, b: seq<EditMatch>, p: EditMatch -> bool)
    ensures CountWhere(a + b, p) == CountWhere(a, p) + CountWhere(b, p)
  {
    if b == [] {
      assert a + b == a;
    } else {
      var n := |b| - 1;
      assert (a + b)[..|a| + n] == a + b[..n];
      CountWhereConcat(a, b[..n], p);
    }
  }

  lemma {:induction false} CountWhereAll(ds: seq<EditMatch>, p: EditMatch -> bool)
    requires forall i :: 0 <= i < |ds| ==> p(ds[i])
    ensures CountWhere(ds, p) == |ds|
  {
    if ds != [] {
      CountWhereAll(ds[..|ds| - 1], p);
    }
  }

  lemma {:induction false} CountWhereNone(ds: seq<EditMatch>, p: EditMatch -> bool)
    requires forall i :: 0 <= i < |ds| ==> !p(ds[i])
    ensures CountWhere(ds, p) == 0
  {
    if ds != [] {
      CountWhereNone(ds[..|ds| - 1], p);
    }
  }

  predicate IsCorrect(d: EditMatch) { d.tp >= 0.5 }
  predicate HasExpected(d: EditMatch) { d.expectedEditNum.Some? }
  predicate HasObserved(d: EditMatch) { d.observedEditNum.Some? }

  /** `correct_count`: records with tp of at least one half. */
  function CorrectCount(ds: seq<EditMatch>): nat {
    CountWhere(ds, IsCorrect)
  }

  /** `expected_count`: records that refer to a ground-truth edit. */
  function ExpectedCount(ds: seq<EditMatch>): nat {
    CountWhere(ds, HasExpected)
  }

  /** Records that refer to a prediction. */
  function ObservedCount(ds: seq<EditMatch>): nat {
    CountWhere(ds, HasObserved)
  }

  datatype Summary = Summary(precision: real, recall: real, f1: real, correct: nat, expected: nat)

  /** The figures of the main table. */
  function Summarize(ds: seq<EditMatch>): Summary {
    var t := Sums(ds);
    var precision := Ratio(t.tp, t.tp + t.fp);
    var recall := Ratio(t.tp, t.tp + t.fn);
    Summary(precision, recall, F1(precision, recall), CorrectCount(ds), ExpectedCount(ds))
  }

  /**
   * On records with non-negative weights the precision, recall and F1 are fractions,
   * and the "Correct / Total" figures count at most all records.
   */
  lemma SummaryBounds(ds: seq<EditMatch>)
    requires forall i :: 0 <= i < |ds| ==> NonNegativeWeights(ds[i])
    ensures var s := Summarize(ds);
            && 0.0 <= s.precision <= 1.0 && 0.0 <= s.recall <= 1.0 && 0.0 <= s.f1 <= 1.0
            && s.correct <= |ds| && s.expected <= |ds|
  {
    SumsNonNegative(ds);
    var t := Sums(ds);
    RatioBounds(t.tp, t.tp + t.fp);
    RatioBounds(t.tp, t.tp + t.fn);
    F1Bounds(Ratio(t.tp, t.tp + t.fp), Ratio(t.tp, t.tp + t.fn));
  }

  /** With nothing predicted correctly all three scores are 0. */
  lemma SummaryOfNoTp(ds: seq<EditMatch>)
    requires Sums(ds).tp == 0.0
    ensures Summarize(ds).precision == 0.0 && Summarize(ds).recall == 0.0 && Summarize(ds).f1 == 0.0
  {
  }

  // ---------------------------------------------------------------------
  // display_results: per edit type
  // ---------------------------------------------------------------------

  /** The running `{"tp", "fp", "fn", "count"}` entry of one edit type. */
  datatype Tally = Tally(tp: real, fp: real, fn: real, count: nat)

  const EmptyTally := Tally(0.0, 0.0, 0.0, 0)

  function AddRecord(t: Tally, d: EditMatch): Tally {
    Tally(t.tp + d.tp, t.fp + d.fp, t.fn + d.fn, if d.expectedEditNum.Some? then t.count + 1 else t.count)
  }

  /** Folding `AddRecord` over records, from an empty entry. */
  function TallyOf(ds: seq<EditMatch>): Tally {
    if ds == [] then EmptyTally else AddRecord(TallyOf(ds[..|ds| - 1]), ds[|ds| - 1])
  }

  /** The records of type `t`, in order. */
  function OfType(ds: seq<EditMatch>, t: EditType): (r: seq<EditMatch>)
    ensures |r| <= |ds|
  {
    if ds == [] then []
    else OfType(ds[..|ds| - 1], t) + (if ds[|ds| - 1].editType == Some(t) then [ds[|ds| - 1]] else [])
  }

  /** The edit types of the records, each once, in order of first appearance. */
  function TypesOf(ds: seq<EditMatch>): (ts: seq<EditType>)
  {
    if ds == [] then []
    else
      var ts := TypesOf(ds[..|ds| - 1]);
      var d := ds[|ds| - 1];
      if d.editType.Some? && d.editType.value !in ts then ts + [d.editType.value] else ts
  }

  /** `metrics_by_type` after the loop has seen the records in `ds`. */
  function TallyByType(ds: seq<EditMatch>): Dict<EditType, Tally>
  {
    if ds == [] then []
    else
      var byType := TallyByType(ds[..|ds| - 1]);
      var d := ds[|ds| - 1];
      match d.editType
      case None => byType
      case Some(t) => Put(byType, t, AddRecord(Get(byType, t).GetOr(EmptyTally), d))
  }

  /**
   * The per-type table: its keys are the edit types that occur, once each and in
   * order of first appearance, and each entry is the fold over that type's records.
   */
  lemma {:induction false} TallyByTypeMeaning(ds: seq<EditMatch>)
    ensures DistinctKeys(TallyByType(ds))
    ensures Keys(TallyByType(ds)) == TypesOf(ds)
    ensures forall t :: Get(TallyByType(ds), t) == if t in TypesOf(ds) then Some(TallyOf(OfType(ds, t))) else None
  {
    if ds != [] {
      var init, d := ds[..|ds| - 1], ds[|ds| - 1];
      TallyByTypeMeaning(init);
      var prev := TallyByType(init);
      FindInKeys(prev, d.editType.GetOr(Insertion));
      match d.editType
      case None =>
        forall t ensures OfType(ds, t) == OfType(init, t) {
        }
      case Some(t0) =>
        var entry := AddRecord(Get(prev, t0).GetOr(EmptyTally), d);
        PutKeys(prev, t0, entry);
        PutGet(prev, t0, entry);
        forall t ensures Get(TallyByType(ds), t) == if t in TypesOf(ds) then Some(TallyOf(OfType(ds, t))) else None {
          if t != t0 {
            PutGetOther(prev, t0, entry, t);
            assert OfType(ds, t) == OfType(init, t);
          } else {
            assert OfType(ds, t) == OfType(init, t) + [d];
            assert (OfType(init, t) + [d])[..|OfType(init, t)|] == OfType(init, t);
            if t !in TypesOf(init) {
              NoneOfType(init, t);
              assert [d][..0] == [];
            }
          }
        }
    }
  }

  /** A type that does not occur has no records. */
  lemma {:induction false} NoneOfType(ds: seq<EditMatch>, t: EditType)
    requires t !in TypesOf(ds)
    ensures OfType(ds, t) == []
  {
    if ds != [] {
      var init := ds[..|ds| - 1];
      assert t !in TypesOf(init);
      NoneOfType(init, t);
    }
  }

  /** The loop that fills `metrics_by_type`. */
  method TallyTypes(details: seq<EditMatch>) returns (byType: Dict<EditType, Tally>)
    ensures byType == TallyByType(details)
  {
    byType := [];
    for i := 0 to |details|
      invariant byType == TallyByType(details[..i])
    {
      assert details[..i + 1][..i] == details[..i];
      var edit := details[i];
      if edit.editType.Some? {
        var editType := edit.editType.value;
        var k := Find(byType, editType);
        var entry := if k < |byType| then byType[k].1 else EmptyTally;
        entry := Tally(entry.tp + edit.tp, entry.fp + edit.fp, entry.fn + edit.fn,
                       if edit.expectedEditNum.Some? then entry.count + 1 else entry.count);
        byType := Put(byType, editType, entry);
      }
    }
    assert details[..|details|] == details;
  }

  datatype TypeRow = TypeRow(editType: EditType, precision: real, recall: real, f1: real, count: nat)

  /** One row of the per-type table. */
  function TypeRowOf(t: EditType, m: Tally): TypeRow {
    var p := Ratio(m.tp, m.tp + m.fp);
    var r := Ratio(m.tp, m.tp + m.fn);
    TypeRow(t, p, r, F1(p, r), m.count)
  }

  /** A type's figures are fractions when its summed weights are non-negative. */
  lemma TypeRowBounds(t: EditType, m: Tally)
    requires m.tp >= 0.0 && m.fp >= 0.0 && m.fn >= 0.0
    ensures var row := TypeRowOf(t, m);
            0.0 <= row.precision <= 1.0 && 0.0 <= row.recall <= 1.0 && 0.0 <= row.f1 <= 1.0
  {
    RatioBounds(m.tp, m.tp + m.fp);
    RatioBounds(m.tp, m.tp + m.fn);
    F1Bounds(Ratio(m.tp, m.tp + m.fp), Ratio(m.tp, m.tp + m.fn));
  }

  // ---------------------------------------------------------------------
  // calculate_metrics
  // ---------------------------------------------------------------------

  /** A judgment dictionary as `calculate_metrics` reads it. */
  datatype ScoredJudgment = ScoredJudgment(score: real, isCorrect: bool, isCorrectWithPenalty: Option<bool>)

  /** `j.get("is_correct_with_penalty", j["is_correct"])`. */
  function JudgedCorrect(j: ScoredJudgment): bool {
    j.isCorrectWithPenalty.GetOr(j.isCorrect)
  }

  function SumScores(js: seq<ScoredJudgment>): real {
    if js == [] then 0.0 else SumScores(js[..|js| - 1]) + js[|js| - 1].score
  }

  function CountCorrect(js: seq<ScoredJudgment>): (n: nat)
    ensures n <= |js|
  {
    if js == [] then 0 else CountCorrect(js[..|js| - 1]) + (if JudgedCorrect(js[|js| - 1]) then 1 else 0)
  }

  datatype Scores = Scores(precision: real, recall: real, f1: real)

  /**
   * The score-weighted precision and recall: the summed score over the judged pairs
   * plus the false positives (or false negatives); all zero when the sum is 0.
   */
  function ScoresOf(js: seq<ScoredJudgment>, fps: nat, fns: nat): (s: Scores)
    ensures SumScores(js) == 0.0 ==> s == Scores(0.0, 0.0, 0.0)
    ensures SumScores(js) != 0.0 ==>
              && s.precision * ((|js| + fps) as real) == SumScores(js)
              && s.recall * ((|js| + fns) as real) == SumScores(js)
  {
    var total := SumScores(js);
    if total == 0.0 then Scores(0.0, 0.0, 0.0)
    else
      // A non-zero sum has at least one term, so neither denominator is 0.
      assert js != [];
      var precision := total / ((|js| + fps) as real);
      var recall := total / ((|js| + fns) as real);
      Scores(precision, recall, F1(precision, recall))
  }

  /** With scores between 0 and 1, the score-weighted figures are fractions. */
  lemma {:induction false} SumScoresBounds(js: seq<ScoredJudgment>)
    requires forall i :: 0 <= i < |js| ==> 0.0 <= js[i].score <= 1.0
    ensures 0.0 <= SumScores(js) <= |js| as real
  {
    if js != [] {
      SumScoresBounds(js[..|js| - 1]);
    }
  }

  lemma ScoresBounds(js: seq<ScoredJudgment>, fps: nat, fns: nat)
    requires forall i :: 0 <= i < |js| ==> 0.0 <= js[i].score <= 1.0
    ensures var s := ScoresOf(js, fps, fns);
            0.0 <= s.precision <= 1.0 && 0.0 <= s.recall <= 1.0 && 0.0 <= s.f1 <= 1.0
  {
    SumScoresBounds(js);
    var total := SumScores(js);
    if total != 0.0 {
      RatioBounds(total, (|js| + fps) as real);
      RatioBounds(total, (|js| + fns) as real);
      F1Bounds(total / ((|js| + fps) as real), total / ((|js| + fns) as real));
    }
  }

  datatype TypeMetrics = TypeMetrics(scores: Scores, count: nat)

  datatype CalculatedMetrics = CalculatedMetrics(
    scores: Scores,
    byType: map<string, TypeMetrics>,
    correctCount: nat,
    totalGroundTruth: nat,
    totalPredicted: nat)

  type MatchedPair = (EditOperation, EditOperation)

  /** The lower-cased type of an edit. */
  function TypeKey(e: EditOperation): string {
    Lower(e.editType)
  }

  /** The edits of lower-cased type `t`. */
  function EditsOfType(es: seq<EditOperation>, t: string): (r: seq<EditOperation>)
    ensures |r| <= |es|
    ensures forall i :: 0 <= i < |r| ==> TypeKey(r[i]) == t
  {
    if es == [] then []
    else EditsOfType(es[..|es| - 1], t) + (if TypeKey(es[|es| - 1]) == t then [es[|es| - 1]] else [])
  }

  /**
   * `[(j, tp) for (tp, _), j in zip(true_positives, judgments) if …]`: the judgments of
   * the pairs whose ground-truth edit has type `t`; `zip` stops at the shorter list.
   */
  function JudgmentsOfType(tps: seq<MatchedPair>, js: seq<ScoredJudgment>, t: string): (r: seq<ScoredJudgment>)
    ensures |r| <= |tps| && |r| <= |js|
  {
    if tps == [] || js == [] then []
    else (if TypeKey(tps[0].0) == t then [js[0]] else []) + JudgmentsOfType(tps[1..], js[1..], t)
  }

  /** The lower-cased types that occur among the pairs' ground truth, the false positives and the false negatives. */
  function TypesSeen(tps: seq<MatchedPair>, fps: seq<EditOperation>, fns: seq<EditOperation>): set<string> {
    (set k | 0 <= k < |tps| :: TypeKey(tps[k].0))
    + (set k | 0 <= k < |fps| :: TypeKey(fps[k]))
    + (set k | 0 <= k < |fns| :: TypeKey(fns[k]))
  }

  function TypeMetricsOf(tps: seq<MatchedPair>, fps: seq<EditOperation>, fns: seq<EditOperation>,
                         js: seq<ScoredJudgment>, t: string): (m: TypeMetrics)
    ensures m.count == |JudgmentsOfType(tps, js, t)| + |EditsOfType(fns, t)|
  {
    var typeJudgments := JudgmentsOfType(tps, js, t);
    var typeFns := EditsOfType(fns, t);
    TypeMetrics(ScoresOf(typeJudgments, |EditsOfType(fps, t)|, |typeFns|), |typeJudgments| + |typeFns|)
  }

  /** `calculate_metrics`. */
  function CalculateMetrics(tps: seq<MatchedPair>, fps: seq<EditOperation>, fns: seq<EditOperation>,
                            js: seq<ScoredJudgment>): (m: CalculatedMetrics)
    ensures m.byType.Keys == TypesSeen(tps, fps, fns)
    ensures m.totalGroundTruth == |tps| + |fns| && m.totalPredicted == |tps| + |fps|
    ensures m.correctCount <= |js|
  {
    var byType := map t | t in TypesSeen(tps, fps, fns) :: TypeMetricsOf(tps, fps, fns, js, t);
    CalculatedMetrics(ScoresOf(js, |fps|, |fns|), byType, CountCorrect(js), |tps| + |fns|, |tps| + |fps|)
  }

  /** When the judgment scores sum to 0 every overall figure is 0. */
  lemma CalculateMetricsZero(tps: seq<MatchedPair>, fps: seq<EditOperation>, fns: seq<EditOperation>,
                             js: seq<ScoredJudgment>)
    requires SumScores(js) == 0.0
    ensures CalculateMetrics(tps, fps, fns, js).scores == Scores(0.0, 0.0, 0.0)
  {
  }

  /**
   * With one judgment per pair, a type's count is the number of its ground-truth edits
   * among the pairs and the false negatives.
   */
  lemma TypeCountIsGroundTruth(tps: seq<MatchedPair>, fps: seq<EditOperation>, fns: seq<EditOperation>,
                               js: seq<ScoredJudgment>, t: string)
    requires |js| == |tps| && t in TypesSeen(tps, fps, fns)
    ensures CalculateMetrics(tps, fps, fns, js).byType[t].count
         == |EditsOfType(GroundTruthOf(tps), t)| + |EditsOfType(fns, t)|
  {
    JudgmentsOfTypeCount(tps, js, t);
  }

  /** The ground-truth side of the pairs. */
  function GroundTruthOf(tps: seq<MatchedPair>): (gs: seq<EditOperation>)
    ensures |gs| == |tps|
    ensures forall k :: 0 <= k < |tps| ==> gs[k] == tps[k].0
  {
    seq(|tps|, k requires 0 <= k < |tps| => tps[k].0)
  }

  lemma {:induction false} JudgmentsOfTypeCount(tps: seq<MatchedPair>, js: seq<ScoredJudgment>, t: string)
    requires |js| == |tps|
    ensures |JudgmentsOfType(tps, js, t)| == |EditsOfType(GroundTruthOf(tps), t)|
  {
    if tps != [] {
      JudgmentsOfTypeCount(tps[1..], js[1..], t);
      var gs := GroundTruthOf(tps);
      assert GroundTruthOf(tps[1..]) == gs[1..];
      EditsOfTypeCons(gs, t);
    }
  }

  /** Counting from the front gives the same filter. */
  lemma {:induction false} EditsOfTypeCons(es: seq<EditOperation>, t: string)
    requires es != []
    ensures |EditsOfType(es, t)| == (if TypeKey(es[0]) == t then 1 else 0) + |EditsOfType(es[1..], t)|
  {
    if |es| > 1 {
      var n := |es| - 1;
      EditsOfTypeCons(es[..n], t);
      assert es[..n][1..] == es[1..][..n - 1];
      assert es[..n][0] == es[0];
    } else {
      assert es[1..] == [];
      assert es[..0] == [];
    }
  }
}
