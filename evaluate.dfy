/**
 * The body of `evaluate` after matching: every matched pair is judged and charged a
 * line-distance penalty; a pair that fails is moved back to the false positives and
 * its ground-truth edit to the false negatives. Then a flat list of `EditMatch`
 * records is emitted: accepted pairs, then pure false positives, then pure false
 * negatives, with running counters as edit numbers.
 *
 * The judge (an LLM call in the system) is the function parameter `judge`.
 */
module Evaluate {
  import opened Wrappers
  import opened Types
  import opened Matching

  // ---------------------------------------------------------------------
  // Line penalty and score
  // ---------------------------------------------------------------------

  /** `get_penalty`: 0.1 times the squared distance, capped at 1. */
  function Penalty(d: nat): (p: real)
    ensures 0.0 <= p <= 1.0
  {
    var raw := 0.1 * (d * d) as real;
    if 1.0 < raw then 1.0 else raw
  }

  /** The penalty for 0, 1, 2, 3 lines off, and the full penalty beyond. */
  lemma PenaltyTable(d: nat)
    ensures Penalty(0) == 0.0 && Penalty(1) == 0.1 && Penalty(2) == 0.4 && Penalty(3) == 0.9
    ensures d >= 4 ==> Penalty(d) == 1.0
  {
    if d >= 4 {
      assert d * d >= 4 * d >= 16;
    }
  }

  /** The penalty is below 1 exactly within three lines. */
  lemma PenaltyBelowOne(d: nat)
    ensures Penalty(d) < 1.0 <==> d <= 3
  {
    PenaltyTable(d);
    if d <= 3 { assert d == 0 || d == 1 || d == 2 || d == 3; }
  }

  function LineDiff(g: EditOperation, p: EditOperation): nat
    requires HasLine(g) && HasLine(p)
  {
    Abs(g.lineNumber.value - p.lineNumber.value)
  }

  /** `max(0.0, 1.0 - penalty)`. */
  function Score(penalty: real): (s: real)
    ensures 0.0 <= s
    ensures penalty <= 1.0 ==> s == 1.0 - penalty
  {
    if 0.0 > 1.0 - penalty then 0.0 else 1.0 - penalty
  }

  // ---------------------------------------------------------------------
  // The judge
  // ---------------------------------------------------------------------

  /** The judge's answer: `is_correct` and `reasoning`, either of which may be missing. */
  datatype Judgment = Judgment(isCorrect: Option<bool>, reasoning: Option<string>)

  type Judge = (EditOperation, EditOperation) -> Judgment

  /** Both indices of every pair are in range and both edits carry a line number. */
  predicate Lined(pairs: seq<Pair>, gts: seq<EditOperation>, preds: seq<EditOperation>) {
    forall k :: 0 <= k < |pairs| ==>
      pairs[k].0 < |gts| && pairs[k].1 < |preds| && HasLine(gts[pairs[k].0]) && HasLine(preds[pairs[k].1])
  }

  /** `judgment.get("is_correct", False) and not line_penalty >= 1.0`. */
  function Verdict(gts: seq<EditOperation>, preds: seq<EditOperation>, judge: Judge, pr: Pair): bool
    requires pr.0 < |gts| && pr.1 < |preds| && HasLine(gts[pr.0]) && HasLine(preds[pr.1])
  {
    var g, p := gts[pr.0], preds[pr.1];
    judge(g, p).isCorrect.GetOr(false) && !(Penalty(LineDiff(g, p)) >= 1.0)
  }

  /** For a pair that passed the candidate test the penalty test never fails: the judge decides alone. */
  lemma CandidateVerdict(gts: seq<EditOperation>, preds: seq<EditOperation>, judge: Judge, pr: Pair)
    requires pr.0 < |gts| && pr.1 < |preds| && TestPair(gts[pr.0], preds[pr.1]) == Candidate
    ensures Verdict(gts, preds, judge, pr) == judge(gts[pr.0], preds[pr.1]).isCorrect.GetOr(false)
  {
    PenaltyBelowOne(LineDiff(gts[pr.0], preds[pr.1]));
  }

  // ---------------------------------------------------------------------
  // Refinement: specification
  // ---------------------------------------------------------------------

  /**
   * The refinement state: the pairs kept so far, the false positives, the false
   * negatives, and how many pairs each ground-truth edit still has.
   */
  datatype Refined = Refined(kept: seq<Pair>, fp: seq<nat>, fn: seq<nat>, counts: map<nat, int>)

  /** `gt_edits_in_true_positives`: how many pairs each ground-truth edit occurs in. */
  function Occurrences(pairs: seq<Pair>): (m: map<nat, int>)
    ensures forall k :: 0 <= k < |pairs| ==> pairs[k].0 in m
  {
    if pairs == [] then map[]
    else
      var m := Occurrences(pairs[..|pairs| - 1]);
      var g := pairs[|pairs| - 1].0;
      m[g := (if g in m then m[g] else 0) + 1]
  }

  ghost predicate DistinctGts(pairs: seq<Pair>) {
    forall i, j :: 0 <= i < j < |pairs| ==> pairs[i].0 != pairs[j].0
  }

  /** With distinct ground-truth edits each one occurs exactly once. */
  lemma {:induction false} OccurrencesOfDistinct(pairs: seq<Pair>)
    requires DistinctGts(pairs)
    ensures forall k :: 0 <= k < |pairs| ==> Occurrences(pairs)[pairs[k].0] == 1
    ensures forall g :: g in Occurrences(pairs) ==> g in GtsOf(pairs)
  {
    if pairs != [] {
      var init := pairs[..|pairs| - 1];
      OccurrencesOfDistinct(init);
      var g := pairs[|pairs| - 1].0;
      LastGtFresh(pairs);
      assert g !in Occurrences(init);
      forall g' | g' in Occurrences(pairs) ensures g' in GtsOf(pairs) {
        if g' != g {
          var i :| 0 <= i < |init| && GtsOf(init)[i] == g';
          assert GtsOf(pairs)[i] == g';
        } else {
          assert GtsOf(pairs)[|pairs| - 1] == g;
        }
      }
    }
  }

  /** The verdict on each pair, in order. */
  function Verdicts(gts: seq<EditOperation>, preds: seq<EditOperation>, judge: Judge, pairs: seq<Pair>): (oks: seq<bool>)
    requires Lined(pairs, gts, preds)
    ensures |oks| == |pairs|
  {
    seq(|pairs|, k requires 0 <= k < |pairs| && Lined(pairs, gts, preds) => Verdict(gts, preds, judge, pairs[k]))
  }

  lemma VerdictAt(gts: seq<EditOperation>, preds: seq<EditOperation>, judge: Judge, pairs: seq<Pair>, k: nat)
    requires Lined(pairs, gts, preds) && k < |pairs|
    ensures Verdicts(gts, preds, judge, pairs)[k] == Verdict(gts, preds, judge, pairs[k])
  {
  }

  ghost predicate KeysPresent(pairs: seq<Pair>, counts: map<nat, int>) {
    forall k :: 0 <= k < |pairs| ==> pairs[k].0 in counts
  }

  /** One iteration of the refinement loop. */
  function RefineStep(st: Refined, pr: Pair, accepted: bool): (r: Refined)
    requires pr.0 in st.counts
    ensures r.counts.Keys == st.counts.Keys
  {
    if accepted then st.(kept := st.kept + [pr])
    else
      var c := st.counts[pr.0] - 1;
      Refined(st.kept, st.fp + [pr.1], if c == 0 then st.fn + [pr.0] else st.fn, st.counts[pr.0 := c])
  }

  /** The state after the refinement loop has processed `pairs` with verdicts `oks`, in order. */
  function RefineSpec(pairs: seq<Pair>, oks: seq<bool>, start: Refined): (r: Refined)
    requires |oks| == |pairs| && KeysPresent(pairs, start.counts)
    ensures r.counts.Keys == start.counts.Keys
  {
    if pairs == [] then start
    else
      var n := |pairs| - 1;
      RefineStep(RefineSpec(pairs[..n], oks[..n], start), pairs[n], oks[n])
  }

  /** Processing one more pair is one more step. */
  lemma RefineSnoc(pairs: seq<Pair>, oks: seq<bool>, start: Refined, n: nat)
    requires |oks| == |pairs| && KeysPresent(pairs, start.counts) && n < |pairs|
    ensures pairs[n].0 in RefineSpec(pairs[..n], oks[..n], start).counts
    ensures RefineSpec(pairs[..n + 1], oks[..n + 1], start)
         == RefineStep(RefineSpec(pairs[..n], oks[..n], start), pairs[n], oks[n])
  {
    assert pairs[..n + 1][..n] == pairs[..n];
    assert oks[..n + 1][..n] == oks[..n];
  }

  /** The pairs whose verdict is true, in order. */
  function Accepted(pairs: seq<Pair>, oks: seq<bool>): (r: seq<Pair>)
    requires |oks| == |pairs|
    ensures |r| <= |pairs|
    ensures forall x :: x in r ==> x in pairs
  {
    if pairs == [] then []
    else
      var n := |pairs| - 1;
      Accepted(pairs[..n], oks[..n]) + (if oks[n] then [pairs[n]] else [])
  }

  /** The pairs whose verdict is false, in order. */
  function Rejected(pairs: seq<Pair>, oks: seq<bool>): (r: seq<Pair>)
    requires |oks| == |pairs|
    ensures |Accepted(pairs, oks)| + |r| == |pairs|
    ensures forall x :: x in r ==> x in pairs
  {
    if pairs == [] then []
    else
      var n := |pairs| - 1;
      Rejected(pairs[..n], oks[..n]) + (if oks[n] then [] else [pairs[n]])
  }

  /** The last pair's ground-truth edit occurs in no earlier pair. */
  lemma LastGtFresh(pairs: seq<Pair>)
    requires DistinctGts(pairs) && pairs != []
    ensures pairs[|pairs| - 1].0 !in GtsOf(pairs[..|pairs| - 1])
  {
    var init := pairs[..|pairs| - 1];
    forall i | 0 <= i < |init| ensures GtsOf(init)[i] != pairs[|pairs| - 1].0 {
    }
  }

  /** Refinement touches only the counters of the ground-truth edits it processes. */
  lemma {:induction false} RefineCounts(pairs: seq<Pair>, oks: seq<bool>, start: Refined, g: nat)
    requires |oks| == |pairs| && KeysPresent(pairs, start.counts)
    requires g in start.counts && g !in GtsOf(pairs)
    ensures RefineSpec(pairs, oks, start).counts[g] == start.counts[g]
  {
    if pairs != [] {
      var n := |pairs| - 1;
      assert GtsOf(pairs) == GtsOf(pairs[..n]) + [pairs[n].0];
      RefineCounts(pairs[..n], oks[..n], start, g);
    }
  }

  /**
   * When every ground-truth edit has exactly one pair, refinement partitions the pairs:
   * the accepted ones are kept, every rejected prediction is appended to the false
   * positives and every rejected ground-truth edit to the false negatives.
   */
  lemma {:induction false} RefinePartition(pairs: seq<Pair>, oks: seq<bool>, start: Refined)
    requires |oks| == |pairs| && DistinctGts(pairs)
    requires forall k :: 0 <= k < |pairs| ==> pairs[k].0 in start.counts && start.counts[pairs[k].0] == 1
    ensures var r := RefineSpec(pairs, oks, start);
            && r.kept == start.kept + Accepted(pairs, oks)
            && r.fp == start.fp + PredsOf(Rejected(pairs, oks))
            && r.fn == start.fn + GtsOf(Rejected(pairs, oks))
  {
    if pairs != [] {
      var n := |pairs| - 1;
      var init, pr := pairs[..n], pairs[n];
      RefinePartition(init, oks[..n], start);
      var r0 := RefineSpec(init, oks[..n], start);
      assert RefineSpec(pairs, oks, start) == RefineStep(r0, pr, oks[n]);
      var rej := Rejected(init, oks[..n]);
      if oks[n] {
        assert Rejected(pairs, oks) == rej;
      } else {
        assert r0.counts[pr.0] == 1 by {
          LastGtFresh(pairs);
          RefineCounts(init, oks[..n], start, pr.0);
        }
        assert Rejected(pairs, oks) == rej + [pr];
        assert PredsOf(rej + [pr]) == PredsOf(rej) + [pr.1];
        assert GtsOf(rej + [pr]) == GtsOf(rej) + [pr.0];
      }
    }
  }

  /** Candidate pairs are in range and carry line numbers on both sides. */
  lemma CandidatesLined(pairs: seq<Pair>, gts: seq<EditOperation>, preds: seq<EditOperation>)
    requires PairsAreCandidates(pairs, gts, preds, |gts|)
    ensures Lined(pairs, gts, preds)
  {
    forall k | 0 <= k < |pairs| ensures HasLine(gts[pairs[k].0]) && HasLine(preds[pairs[k].1]) {
      assert TestPair(gts[pairs[k].0], preds[pairs[k].1]) == Candidate;
    }
  }

  /**
   * For pairs that passed the candidate test, the kept pairs are exactly those the judge
   * calls correct: the penalty test never rejects one.
   */
  lemma JudgeDecides(gts: seq<EditOperation>, preds: seq<EditOperation>, judge: Judge, pairs: seq<Pair>)
    requires PairsAreCandidates(pairs, gts, preds, |gts|)
    ensures Lined(pairs, gts, preds)
    ensures forall k :: 0 <= k < |pairs| ==>
              Verdicts(gts, preds, judge, pairs)[k] == judge(gts[pairs[k].0], preds[pairs[k].1]).isCorrect.GetOr(false)
  {
    CandidatesLined(pairs, gts, preds);
    forall k | 0 <= k < |pairs|
      ensures Verdict(gts, preds, judge, pairs[k]) == judge(gts[pairs[k].0], preds[pairs[k].1]).isCorrect.GetOr(false)
    {
      CandidateVerdict(gts, preds, judge, pairs[k]);
    }
  }

  // ---------------------------------------------------------------------
  // Refinement: the loop
  // ---------------------------------------------------------------------

  /** The initial state of the refinement: the matching's three lists and the pair counts. */
  function StartOf(m: Matching): Refined {
    Refined([], m.pool, m.fn, Occurrences(m.tp))
  }

  /** The counting loop: `counts[id(gt)] = counts.get(id(gt), 0) + 1` for every pair. */
  method CountPairs(pairs: seq<Pair>) returns (counts: map<nat, int>)
    ensures counts == Occurrences(pairs)
  {
    counts := map[];
    for j := 0 to |pairs|
      invariant counts == Occurrences(pairs[..j])
    {
      assert pairs[..j + 1][..j] == pairs[..j];
      var g := pairs[j].0;
      counts := counts[g := (if g in counts then counts[g] else 0) + 1];
    }
    assert pairs[..|pairs|] == pairs;
  }

  /** Combined condition: the judge says correct and the line penalty is not complete. */
  method JudgePair(gts: seq<EditOperation>, preds: seq<EditOperation>, judge: Judge, g: nat, p: nat)
    returns (isCorrect: bool)
    requires g < |gts| && p < |preds| && HasLine(gts[g]) && HasLine(preds[p])
    ensures isCorrect == Verdict(gts, preds, judge, (g, p))
  {
    var judgment := judge(gts[g], preds[p]);
    var linePenalty := Penalty(LineDiff(gts[g], preds[p]));
    isCorrect := judgment.isCorrect.GetOr(false) && !(linePenalty >= 1.0);
  }

  /**
   * The loop variables after the first `done` pairs: `remaining` holds the kept pairs
   * followed by the unprocessed ones, `i` is the number kept, and the lists and
   * counters are those of the specification state.
   */
  ghost predicate Refining(pairs: seq<Pair>, oks: seq<bool>, start: Refined, done: nat,
                           remaining: seq<Pair>, i: nat, fp: seq<nat>, fn: seq<nat>, counts: map<nat, int>) {
    && done <= |pairs| && |oks| == |pairs| && KeysPresent(pairs, start.counts)
    && var st := RefineSpec(pairs[..done], oks[..done], start);
       && i == |st.kept| && remaining == st.kept + pairs[done..]
       && fp == st.fp && fn == st.fn && counts == st.counts
  }

  /**
   * One iteration: the current pair sits at `i`. An accepted pair is stepped over; a
   * rejected one is popped there, its prediction becomes a false positive and its
   * counter drops, adding the ground-truth edit to the false negatives at zero.
   */
  lemma RefineAdvance(pairs: seq<Pair>, oks: seq<bool>, start: Refined, done: nat,
                      remaining: seq<Pair>, i: nat, fp: seq<nat>, fn: seq<nat>, counts: map<nat, int>)
    requires Refining(pairs, oks, start, done, remaining, i, fp, fn, counts) && done < |pairs|
    ensures i < |remaining| && remaining[i] == pairs[done] && pairs[done].0 in counts
    ensures oks[done] ==> Refining(pairs, oks, start, done + 1, remaining, i + 1, fp, fn, counts)
    ensures !oks[done] ==>
              var g, c := remaining[i].0, counts[remaining[i].0] - 1;
              && (c == 0 ==> Refining(pairs, oks, start, done + 1, remaining[..i] + remaining[i + 1..], i,
                                      fp + [remaining[i].1], fn + [g], counts[g := c]))
              && (c != 0 ==> Refining(pairs, oks, start, done + 1, remaining[..i] + remaining[i + 1..], i,
                                      fp + [remaining[i].1], fn, counts[g := c]))
  {
    RefineSnoc(pairs, oks, start, done);
    var st := RefineSpec(pairs[..done], oks[..done], start);
    assert remaining[i..] == pairs[done..];
    assert remaining[..i] == st.kept;
    assert remaining[i + 1..] == pairs[done + 1..];
    if oks[done] {
      assert remaining == (st.kept + [pairs[done]]) + pairs[done + 1..];
    }
  }

  /**
   * The `while i < len(remaining_true_positives)` loop: a rejected pair is popped
   * at `i` (and `i` stays), an accepted one is stepped over.
   */
  method RefineMatches(gts: seq<EditOperation>, preds: seq<EditOperation>, judge: Judge, m: Matching)
    returns (r: Refined)
    requires Lined(m.tp, gts, preds)
    ensures r == RefineSpec(m.tp, Verdicts(gts, preds, judge, m.tp), StartOf(m))
  {
    var counts: map<nat, int> := CountPairs(m.tp);
    ghost var start := StartOf(m);
    ghost var oks := Verdicts(gts, preds, judge, m.tp);

    var remaining := m.tp;
    var fp: seq<nat>, fn: seq<nat> := m.pool, m.fn;
    var i := 0;
    ghost var done := 0;
    assert Refining(m.tp, oks, start, 0, remaining, i, fp, fn, counts);
    while i < |remaining|
      invariant Refining(m.tp, oks, start, done, remaining, i, fp, fn, counts)
      decreases |remaining| - i
    {
      RefineAdvance(m.tp, oks, start, done, remaining, i, fp, fn, counts);
      VerdictAt(gts, preds, judge, m.tp, done);
      var g: nat, p: nat := remaining[i].0, remaining[i].1;
      var isCorrect := JudgePair(gts, preds, judge, g, p);
      assert isCorrect == oks[done];
      done := done + 1;
      if !isCorrect {
        fp := fp + [p];
        var c := counts[g] - 1;
        counts := counts[g := c];
        if c == 0 {
          fn := fn + [g];
        }
        remaining := remaining[..i] + remaining[i + 1..];
      } else {
        i := i + 1;
      }
    }
    RefineDone(m.tp, oks, start, done, remaining, i, fp, fn, counts);
    r := Refined(remaining, fp, fn, counts);
  }

  /** The loop stops once every pair is processed, in the specification's final state. */
  lemma RefineDone(pairs: seq<Pair>, oks: seq<bool>, start: Refined, done: nat,
                   remaining: seq<Pair>, i: nat, fp: seq<nat>, fn: seq<nat>, counts: map<nat, int>)
    requires Refining(pairs, oks, start, done, remaining, i, fp, fn, counts) && i >= |remaining|
    ensures Refined(remaining, fp, fn, counts) == RefineSpec(pairs, oks, start)
  {
    assert pairs[..done] == pairs && oks[..done] == oks;
  }

  // ---------------------------------------------------------------------
  // Emission of EditMatch records
  // ---------------------------------------------------------------------

  datatype EvalError =
    | MatchFailed(cause: MatchError)
    | NotAnEditType(value: string)

  const FalsePositiveNote: string := "False positive: no matching ground truth edit found"
  const FalseNegativeNote: string := "False negative: ground truth edit not found in prediction"

  /** `EditType(edit.get("type", "unknown"))`: the record's type must be one of the seven values. */
  function TypeOf(e: EditOperation): (r: Result<EditType, EvalError>)
    ensures r.Success? <==> ParseEditType(e.editType).Some?
    ensures r.Success? ==> EditTypeValue(r.value) == e.editType
    ensures r.Failure? ==> r.error == NotAnEditType(e.editType)
  {
    match ParseEditType(e.editType)
    case None => Failure(NotAnEditType(e.editType))
    case Some(t) =>
      ParseEditTypeExact(e.editType, t);
      Success(t)
  }

  /**
   * The record of an accepted pair, numbered `k`: the score is one minus the line
   * penalty and the rest of the weight is split evenly between fp and fn; type,
   * texts and line come from the prediction, the note from the judge's reasoning.
   */
  function MatchedRecord(g: EditOperation, p: EditOperation, j: Judgment, k: nat): (r: Result<EditMatch, EvalError>)
    requires HasLine(g) && HasLine(p)
    ensures r.Success? <==> TypeOf(p).Success?
    ensures r.Success? ==>
              && WeightsSumToOne(r.value)
              && r.value.observedEditNum == Some(k) && r.value.expectedEditNum == Some(k)
              && r.value.lineNumberPenalty == Penalty(LineDiff(g, p))
              && r.value.tp == 1.0 - r.value.lineNumberPenalty
              && r.value.fp == r.value.fn
              && r.value.editType == Some(TypeOf(p).value)
              && r.value.observedLineNumber == p.lineNumber
  {
    var d := LineDiff(g, p);
    var penalty := Penalty(d);
    var score := Score(penalty);
    match TypeOf(p)
    case Failure(e) => Failure(e)
    case Success(t) =>
      Success(EditMatch(Some(k), Some(k), score, (1.0 - score) / 2.0, (1.0 - score) / 2.0, Some(t),
                        Some(p.originalText), Some(p.correctedText), p.lineNumber, Some(d), penalty,
                        Some(j.reasoning.GetOr(""))))
  }

  /** The record of a prediction left unmatched, numbered `k`: all weight on fp. */
  function FalsePositiveRecord(p: EditOperation, k: nat): (r: Result<EditMatch, EvalError>)
    ensures r.Success? <==> TypeOf(p).Success?
    ensures r.Success? ==>
              && WeightsSumToOne(r.value) && r.value.fp == 1.0 && r.value.tp == r.value.fn == 0.0
              && r.value.observedEditNum == Some(k) && r.value.expectedEditNum.None?
              && r.value.lineNumberPenalty == 0.0 && r.value.lineDiff.None?
              && r.value.editType == Some(TypeOf(p).value)
  {
    match TypeOf(p)
    case Failure(e) => Failure(e)
    case Success(t) =>
      Success(EditMatch(Some(k), None, 0.0, 1.0, 0.0, Some(t), Some(p.originalText), Some(p.correctedText),
                        p.lineNumber, None, 0.0, Some(FalsePositiveNote)))
  }

  /** The record of a ground-truth edit left unmatched, numbered `k`: all weight on fn. */
  function FalseNegativeRecord(g: EditOperation, k: nat): (r: Result<EditMatch, EvalError>)
    ensures r.Success? <==> TypeOf(g).Success?
    ensures r.Success? ==>
              && WeightsSumToOne(r.value) && r.value.fn == 1.0 && r.value.tp == r.value.fp == 0.0
              && r.value.observedEditNum.None? && r.value.expectedEditNum == Some(k)
              && r.value.lineNumberPenalty == 0.0 && r.value.lineDiff.None?
              && r.value.observedLineNumber.None?
              && r.value.editType == Some(TypeOf(g).value)
  {
    match TypeOf(g)
    case Failure(e) => Failure(e)
    case Success(t) =>
      Success(EditMatch(None, Some(k), 0.0, 0.0, 1.0, Some(t), Some(g.originalText), Some(g.correctedText),
                        None, None, 0.0, Some(FalseNegativeNote)))
  }

  /** Every index the refined state holds points into the edit lists, and kept pairs carry lines. */
  ghost predicate Emittable(r: Refined, gts: seq<EditOperation>, preds: seq<EditOperation>) {
    && Lined(r.kept, gts, preds)
    && InRange(r.fp, |preds|)
    && InRange(r.fn, |gts|)
  }

  /** The records of the accepted pairs, numbered from 0. */
  function MatchedRecords(gts: seq<EditOperation>, preds: seq<EditOperation>, judge: Judge, kept: seq<Pair>)
    : (rs: seq<Result<EditMatch, EvalError>>)
    requires Lined(kept, gts, preds)
    ensures |rs| == |kept|
  {
    seq(|kept|, k requires 0 <= k < |kept| && Lined(kept, gts, preds) =>
                  var g, p := gts[kept[k].0], preds[kept[k].1];
                  MatchedRecord(g, p, judge(g, p), k))
  }

  /** The records of the false positives, numbered on from `base`. */
  function FalsePositiveRecords(preds: seq<EditOperation>, fp: seq<nat>, base: nat): (rs: seq<Result<EditMatch, EvalError>>)
    requires InRange(fp, |preds|)
    ensures |rs| == |fp|
  {
    seq(|fp|, i requires 0 <= i < |fp| && InRange(fp, |preds|) => FalsePositiveRecord(preds[fp[i]], base + i))
  }

  /** The records of the false negatives, numbered on from `base`. */
  function FalseNegativeRecords(gts: seq<EditOperation>, fn: seq<nat>, base: nat): (rs: seq<Result<EditMatch, EvalError>>)
    requires InRange(fn, |gts|)
    ensures |rs| == |fn|
  {
    seq(|fn|, i requires 0 <= i < |fn| && InRange(fn, |gts|) => FalseNegativeRecord(gts[fn[i]], base + i))
  }

  /**
   * The records in emission order: accepted pairs numbered from 0, then false
   * positives and then false negatives, both numbered on from the accepted count.
   */
  function RecordsOf(gts: seq<EditOperation>, preds: seq<EditOperation>, judge: Judge, r: Refined)
    : (rs: seq<Result<EditMatch, EvalError>>)
    requires Emittable(r, gts, preds)
    ensures |rs| == |r.kept| + |r.fp| + |r.fn|
  {
    MatchedRecords(gts, preds, judge, r.kept)
    + FalsePositiveRecords(preds, r.fp, |r.kept|)
    + FalseNegativeRecords(gts, r.fn, |r.kept|)
  }

  /** Refinement only moves indices between the lists, so they stay in range. */
  lemma {:induction false} RefineEmittable(pairs: seq<Pair>, oks: seq<bool>, start: Refined,
                                           gts: seq<EditOperation>, preds: seq<EditOperation>)
    requires |oks| == |pairs| && KeysPresent(pairs, start.counts)
    requires Lined(pairs, gts, preds) && Emittable(start, gts, preds)
    ensures Emittable(RefineSpec(pairs, oks, start), gts, preds)
  {
    if pairs != [] {
      var n := |pairs| - 1;
      assert forall k :: 0 <= k < n ==> pairs[..n][k] == pairs[k];
      RefineEmittable(pairs[..n], oks[..n], start, gts, preds);
    }
  }

  /** The second pass: one record per accepted pair, numbered by `valid_match_index`. */
  method EmitMatched(gts: seq<EditOperation>, preds: seq<EditOperation>, judge: Judge, kept: seq<Pair>)
    returns (res: Result<seq<EditMatch>, EvalError>)
    requires Lined(kept, gts, preds)
    ensures res == Collect(MatchedRecords(gts, preds, judge, kept))
  {
    ghost var rs := MatchedRecords(gts, preds, judge, kept);
    var editMatches: seq<EditMatch> := [];
    var validMatchIndex: nat := 0;
    while validMatchIndex < |kept|
      invariant validMatchIndex <= |kept| && Collect(rs[..validMatchIndex]) == Success(editMatches)
    {
      var g, p := gts[kept[validMatchIndex].0], preds[kept[validMatchIndex].1];
      var reasoning := judge(g, p).reasoning.GetOr("");
      var lineDiff := LineDiff(g, p);
      var linePenalty := Penalty(lineDiff);
      var score := Score(linePenalty);
      var t := ParseEditType(p.editType);
      if t.None? {
        CollectStops(rs, validMatchIndex);
        return Failure(NotAnEditType(p.editType));
      }
      var editMatch := EditMatch(Some(validMatchIndex), Some(validMatchIndex), score, (1.0 - score) / 2.0,
                                 (1.0 - score) / 2.0, Some(t.value), Some(p.originalText), Some(p.correctedText),
                                 p.lineNumber, Some(lineDiff), linePenalty, Some(reasoning));
      CollectSnoc(rs, validMatchIndex, editMatches);
      editMatches := editMatches + [editMatch];
      validMatchIndex := validMatchIndex + 1;
    }
    assert rs[..validMatchIndex] == rs;
    res := Success(editMatches);
  }

  /** The loop over the false positives, numbered on from `valid_match_index`. */
  method EmitFalsePositives(preds: seq<EditOperation>, fp: seq<nat>, validMatchIndex: nat, editMatches: seq<EditMatch>)
    returns (res: Result<seq<EditMatch>, EvalError>)
    requires InRange(fp, |preds|)
    ensures res == CollectOnto(editMatches, FalsePositiveRecords(preds, fp, validMatchIndex))
  {
    ghost var rs := FalsePositiveRecords(preds, fp, validMatchIndex);
    var out := editMatches;
    for i := 0 to |fp|
      invariant Collect(rs[..i]).Success? && out == editMatches + Collect(rs[..i]).value
    {
      var p := preds[fp[i]];
      var t := ParseEditType(p.editType);
      if t.None? {
        CollectStops(rs, i);
        return Failure(NotAnEditType(p.editType));
      }
      var editMatch := EditMatch(Some(validMatchIndex + i), None, 0.0, 1.0, 0.0, Some(t.value), Some(p.originalText),
                                 Some(p.correctedText), p.lineNumber, None, 0.0, Some(FalsePositiveNote));
      CollectSnoc(rs, i, Collect(rs[..i]).value);
      out := out + [editMatch];
    }
    assert rs[..|fp|] == rs;
    res := Success(out);
  }

  /** The loop over the false negatives, numbered on from `valid_match_index` too. */
  method EmitFalseNegatives(gts: seq<EditOperation>, fn: seq<nat>, validMatchIndex: nat, editMatches: seq<EditMatch>)
    returns (res: Result<seq<EditMatch>, EvalError>)
    requires InRange(fn, |gts|)
    ensures res == CollectOnto(editMatches, FalseNegativeRecords(gts, fn, validMatchIndex))
  {
    ghost var rs := FalseNegativeRecords(gts, fn, validMatchIndex);
    var out := editMatches;
    for i := 0 to |fn|
      invariant Collect(rs[..i]).Success? && out == editMatches + Collect(rs[..i]).value
    {
      var g := gts[fn[i]];
      var t := ParseEditType(g.editType);
      if t.None? {
        CollectStops(rs, i);
        return Failure(NotAnEditType(g.editType));
      }
      var editMatch := EditMatch(None, Some(validMatchIndex + i), 0.0, 0.0, 1.0, Some(t.value), Some(g.originalText),
                                 Some(g.correctedText), None, None, 0.0, Some(FalseNegativeNote));
      CollectSnoc(rs, i, Collect(rs[..i]).value);
      out := out + [editMatch];
    }
    assert rs[..|fn|] == rs;
    res := Success(out);
  }

  /** Emission: the three loops in turn; the first record whose type is not an edit type raises. */
  method EmitRecords(gts: seq<EditOperation>, preds: seq<EditOperation>, judge: Judge, r: Refined)
    returns (res: Result<seq<EditMatch>, EvalError>)
    requires Emittable(r, gts, preds)
    ensures res == Collect(RecordsOf(gts, preds, judge, r))
  {
    ghost var ms := MatchedRecords(gts, preds, judge, r.kept);
    ghost var ps := FalsePositiveRecords(preds, r.fp, |r.kept|);
    ghost var ns := FalseNegativeRecords(gts, r.fn, |r.kept|);
    CollectConcat(ms, ps);
    CollectConcat(ms + ps, ns);
    res := EmitMatched(gts, preds, judge, r.kept);
    if res.Failure? {
      return;
    }
    res := EmitFalsePositives(preds, r.fp, |r.kept|, res.value);
    if res.Failure? {
      return;
    }
    res := EmitFalseNegatives(gts, r.fn, |r.kept|, res.value);
  }

  // ---------------------------------------------------------------------
  // evaluate
  // ---------------------------------------------------------------------

  /** What the assignment guarantees the refinement and the emission. */
  lemma MatchedLined(gts: seq<EditOperation>, preds: seq<EditOperation>, m: Matching)
    requires Greedy(gts, preds, |gts|) == Success(m)
    ensures Lined(m.tp, gts, preds) && Emittable(StartOf(m), gts, preds)
  {
    GreedyWellFormed(gts, preds, |gts|, m);
    CandidatesLined(m.tp, gts, preds);
  }

  /** `prediction.annotator or model_name`: an absent or empty annotator falls back to the model. */
  function Annotator(prediction: EditAnnotation, modelName: string): (a: string)
    ensures prediction.annotator.Some? && prediction.annotator.value != "" ==> a == prediction.annotator.value
    ensures prediction.annotator.None? || prediction.annotator.value == "" ==> a == modelName
  {
    match prediction.annotator
    case Some(name) => if name != "" then name else modelName
    case None => modelName
  }

  /**
   * The result of `evaluate` on two loaded annotations: match, refine with the judge,
   * emit. `date` stands for the current time.
   */
  function Evaluation(truth: EditAnnotation, prediction: EditAnnotation, modelName: string, date: string, judge: Judge)
    : Result<EvaluationResult, EvalError>
  {
    var gts, preds := truth.edits, Filtered(prediction.edits);
    match Greedy(gts, preds, |gts|)
    case Failure(e) => Failure(MatchFailed(e))
    case Success(m) =>
      MatchedLined(gts, preds, m);
      var oks := Verdicts(gts, preds, judge, m.tp);
      RefineEmittable(m.tp, oks, StartOf(m), gts, preds);
      match Collect(RecordsOf(gts, preds, judge, RefineSpec(m.tp, oks, StartOf(m))))
      case Failure(e) => Failure(e)
      case Success(details) =>
        Success(EvaluationResult(modelName, date, Some(Annotator(prediction, modelName)),
                                 prediction.annotationDate, details))
  }

  /** `evaluate` after the two files are loaded and validated. */
  method Evaluate(truth: EditAnnotation, prediction: EditAnnotation, modelName: string, date: string, judge: Judge)
    returns (res: Result<EvaluationResult, EvalError>)
    ensures res == Evaluation(truth, prediction, modelName, date, judge)
  {
    var gts := truth.edits;
    var matched, filtered, skipped := MatchEdits(gts, prediction.edits);
    if matched.Failure? {
      return Failure(MatchFailed(matched.error));
    }
    var m := matched.value;
    MatchedLined(gts, filtered, m);
    var refined := RefineMatches(gts, filtered, judge, m);
    RefineEmittable(m.tp, Verdicts(gts, filtered, judge, m.tp), StartOf(m), gts, filtered);
    var details := EmitRecords(gts, filtered, judge, refined);
    if details.Failure? {
      return Failure(details.error);
    }
    var annotator := if prediction.annotator.Some? && prediction.annotator.value != "" then prediction.annotator.value
                     else modelName;
    res := Success(EvaluationResult(modelName, date, Some(annotator), prediction.annotationDate, details.value));
  }
}
