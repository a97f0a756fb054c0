/**
 * `match_edits`: predicted edits without a line number are dropped, then each
 * ground-truth edit in turn takes the FIRST still-unused prediction that is a
 * candidate (same type ignoring case, line numbers at most 3 apart, and one of four
 * substring tests). The assignment is greedy, not optimal.
 *
 * Edits are identified by position: a ground-truth edit by its index in the
 * ground-truth list, a prediction by its index in the filtered prediction list.
 * This is the identity (`id()`) the evaluation later keys its bookkeeping on.
 */
module Matching {
  import opened Wrappers
  import opened Strings
  import opened Types

  // ---------------------------------------------------------------------
  // The candidate test
  // ---------------------------------------------------------------------

  /**
   * Outcome of the candidate test for one pair. `LineFault` is the `TypeError` of
   * `abs(None - n)`: the line numbers are compared only once the types agree.
   */
  datatype PairTest = Candidate | NotCandidate | LineFault

  datatype MatchError = LineNumberNotComparable(gtIndex: nat)

  function Abs(x: int): nat { if x < 0 then -x else x }

  predicate SameType(g: EditOperation, p: EditOperation) {
    Lower(g.editType) == Lower(p.editType)
  }

  /** One of the four containment tests in either direction, on either text. */
  predicate TextOverlap(g: EditOperation, p: EditOperation) {
    || Contains(g.originalText, p.originalText)
    || Contains(p.originalText, g.originalText)
    || Contains(g.correctedText, p.correctedText)
    || Contains(p.correctedText, g.correctedText)
  }

  function TestPair(g: EditOperation, p: EditOperation): (t: PairTest)
    ensures t == Candidate <==>
              && SameType(g, p) && g.lineNumber.Some? && p.lineNumber.Some?
              && Abs(g.lineNumber.value - p.lineNumber.value) <= 3 && TextOverlap(g, p)
    ensures t == LineFault <==> SameType(g, p) && (g.lineNumber.None? || p.lineNumber.None?)
  {
    if !SameType(g, p) then NotCandidate
    else if g.lineNumber.None? || p.lineNumber.None? then LineFault
    else if Abs(g.lineNumber.value - p.lineNumber.value) <= 3 && TextOverlap(g, p) then Candidate
    else NotCandidate
  }

  /** An empty text on either side passes its containment test. */
  lemma EmptyTextOverlaps(g: EditOperation, p: EditOperation)
    requires g.originalText == "" || p.originalText == "" || g.correctedText == "" || p.correctedText == ""
    ensures TextOverlap(g, p)
  {
    ContainsEmpty(p.originalText);
    ContainsEmpty(g.originalText);
    ContainsEmpty(p.correctedText);
    ContainsEmpty(g.correctedText);
  }

  // ---------------------------------------------------------------------
  // Dropping predictions without a line number
  // ---------------------------------------------------------------------

  predicate HasLine(e: EditOperation) { e.lineNumber.Some? }

  /** The predictions that carry a line number, in their original order. */
  function Filtered(preds: seq<EditOperation>): (r: seq<EditOperation>)
    ensures |r| <= |preds|
    ensures forall j :: 0 <= j < |r| ==> HasLine(r[j])
  {
    if preds == [] then []
    else Filtered(preds[..|preds| - 1]) + (if HasLine(preds[|preds| - 1]) then [preds[|preds| - 1]] else [])
  }

  /** Number of predictions without a line number (the skipped count the warning reports). */
  function Skipped(preds: seq<EditOperation>): nat
  {
    if preds == [] then 0
    else Skipped(preds[..|preds| - 1]) + (if HasLine(preds[|preds| - 1]) then 0 else 1)
  }

  lemma {:induction false} FilteredConcat(a: seq<EditOperation>, b: seq<EditOperation>)
    ensures Filtered(a + b) == Filtered(a) + Filtered(b)
    decreases |b|
  {
    if b == [] {
      assert a + b == a;
    } else {
      var b' := b[..|b| - 1];
      assert (a + b)[..|a + b| - 1] == a + b';
      FilteredConcat(a, b');
    }
  }

  /** Exactly the predictions with a line number are kept: kept and skipped add up to all. */
  lemma {:induction false} FilteredKeepsExactly(preds: seq<EditOperation>)
    ensures |Filtered(preds)| + Skipped(preds) == |preds|
    ensures forall e :: e in preds && HasLine(e) ==> e in Filtered(preds)
    ensures forall e :: e in Filtered(preds) ==> e in preds
  {
    if preds != [] {
      var init := preds[..|preds| - 1];
      FilteredKeepsExactly(init);
      assert preds == init + [preds[|preds| - 1]];
    }
  }

  /** A list whose edits all carry line numbers passes unchanged. */
  lemma {:induction false} FilteredAllLines(preds: seq<EditOperation>)
    requires forall j :: 0 <= j < |preds| ==> HasLine(preds[j])
    ensures Filtered(preds) == preds
  {
    if preds != [] {
      FilteredAllLines(preds[..|preds| - 1]);
      assert preds == preds[..|preds| - 1] + [preds[|preds| - 1]];
    }
  }

  // ---------------------------------------------------------------------
  // Greedy first-fit assignment
  // ---------------------------------------------------------------------

  type Pair = (nat, nat)

  /**
   * The three lists `match_edits` returns: matched (gt, prediction) pairs, the unused
   * predictions (`false_positives`, in order) and the unmatched ground truth.
   */
  datatype Matching = Matching(tp: seq<Pair>, pool: seq<nat>, fn: seq<nat>)

  function Range(n: nat): (r: seq<nat>)
    ensures |r| == n && forall i :: 0 <= i < n ==> r[i] == i
  {
    seq(n, i => i)
  }

  function GtsOf(tp: seq<Pair>): (r: seq<nat>)
    ensures |r| == |tp| && forall i :: 0 <= i < |tp| ==> r[i] == tp[i].0
  {
    seq(|tp|, i requires 0 <= i < |tp| => tp[i].0)
  }

  function PredsOf(tp: seq<Pair>): (r: seq<nat>)
    ensures |r| == |tp| && forall i :: 0 <= i < |tp| ==> r[i] == tp[i].1
  {
    seq(|tp|, i requires 0 <= i < |tp| => tp[i].1)
  }

  ghost predicate Increasing(s: seq<nat>) {
    forall i, j :: 0 <= i < j < |s| ==> s[i] < s[j]
  }

  ghost predicate InRange(s: seq<nat>, n: nat) {
    forall i :: 0 <= i < |s| ==> s[i] < n
  }

  /** Where the scan of the unused predictions, from position `k` on, stops. */
  datatype Fit = Found(pos: nat) | NoneFound | Fault

  function FirstFit(g: EditOperation, pool: seq<nat>, preds: seq<EditOperation>, k: nat): (f: Fit)
    requires k <= |pool| && InRange(pool, |preds|)
    ensures f.Found? ==> k <= f.pos < |pool| && TestPair(g, preds[pool[f.pos]]) == Candidate
    ensures f.Found? ==> forall j :: k <= j < f.pos ==> TestPair(g, preds[pool[j]]) == NotCandidate
    ensures f.NoneFound? <==> forall j :: k <= j < |pool| ==> TestPair(g, preds[pool[j]]) == NotCandidate
    ensures f.Fault? ==> exists j :: k <= j < |pool| && TestPair(g, preds[pool[j]]) == LineFault
    decreases |pool| - k
  {
    if k == |pool| then NoneFound
    else
      match TestPair(g, preds[pool[k]])
      case Candidate => Found(k)
      case LineFault => Fault
      case NotCandidate => FirstFit(g, pool, preds, k + 1)
  }

  /** Processes ground-truth edit `gi` against the current state. */
  function Step(gts: seq<EditOperation>, preds: seq<EditOperation>, gi: nat, m: Matching): Result<Matching, MatchError>
    requires gi < |gts| && InRange(m.pool, |preds|)
  {
    match FirstFit(gts[gi], m.pool, preds, 0)
    case Found(k) => Success(Matching(m.tp + [(gi, m.pool[k])], m.pool[..k] + m.pool[k + 1..], m.fn))
    case NoneFound => Success(Matching(m.tp, m.pool, m.fn + [gi]))
    case Fault => Failure(LineNumberNotComparable(gi))
  }

  /** The state after the first `n` ground-truth edits have been processed. */
  function Greedy(gts: seq<EditOperation>, preds: seq<EditOperation>, n: nat): (r: Result<Matching, MatchError>)
    requires n <= |gts|
    ensures r.Success? ==> InRange(r.value.pool, |preds|)
  {
    if n == 0 then Success(Matching([], Range(|preds|), []))
    else
      match Greedy(gts, preds, n - 1)
      case Failure(e) => Failure(e)
      case Success(m) =>
        var r := Step(gts, preds, n - 1, m);
        assert r.Success? ==> InRange(r.value.pool, |preds|) by {
          if r.Success? && FirstFit(gts[n - 1], m.pool, preds, 0).Found? {
            var k := FirstFit(gts[n - 1], m.pool, preds, 0).pos;
            forall i | 0 <= i < |r.value.pool| ensures r.value.pool[i] < |preds| {
              if i < k { assert r.value.pool[i] == m.pool[i]; }
              else { assert r.value.pool[i] == m.pool[i + 1]; }
            }
          }
        }
        r
  }

  /**
   * The invariant of the greedy pass after `n` ground-truth edits:
   * every matched pair is a candidate; every one of the first `n` ground-truth edits
   * is matched or unmatched, exactly once; every prediction is matched or unused,
   * exactly once; and no unmatched ground-truth edit is a candidate for any unused
   * prediction.
   */
  ghost predicate WellFormed(m: Matching, gts: seq<EditOperation>, preds: seq<EditOperation>, n: nat) {
    && n <= |gts|
    && PairsAreCandidates(m.tp, gts, preds, n)
    && InRange(m.fn, n) && InRange(m.pool, |preds|)
    && Partitioned(m, n, |preds|)
    && Increasing(GtsOf(m.tp)) && Increasing(m.fn) && Increasing(m.pool)
    && Maximal(m, gts, preds)
  }

  ghost predicate PairsAreCandidates(tp: seq<Pair>, gts: seq<EditOperation>, preds: seq<EditOperation>, n: nat)
    requires n <= |gts|
  {
    forall j :: 0 <= j < |tp| ==>
      tp[j].0 < n && tp[j].1 < |preds| && TestPair(gts[tp[j].0], preds[tp[j].1]) == Candidate
  }

  ghost predicate Partitioned(m: Matching, n: nat, np: nat) {
    && multiset(GtsOf(m.tp)) + multiset(m.fn) == multiset(Range(n))
    && multiset(PredsOf(m.tp)) + multiset(m.pool) == multiset(Range(np))
  }

  ghost predicate Maximal(m: Matching, gts: seq<EditOperation>, preds: seq<EditOperation>)
    requires InRange(m.fn, |gts|) && InRange(m.pool, |preds|)
  {
    forall a, b :: 0 <= a < |m.fn| && 0 <= b < |m.pool| ==>
      TestPair(gts[m.fn[a]], preds[m.pool[b]]) != Candidate
  }

  lemma RemoveAt(s: seq<nat>, k: nat)
    requires k < |s|
    ensures multiset(s[..k] + s[k + 1..]) + multiset{s[k]} == multiset(s)
    ensures |s[..k] + s[k + 1..]| == |s| - 1
    ensures forall i :: 0 <= i < |s| - 1 ==> (s[..k] + s[k + 1..])[i] == if i < k then s[i] else s[i + 1]
  {
    assert s == s[..k] + [s[k]] + s[k + 1..];
  }

  lemma RemoveAtIncreasing(s: seq<nat>, k: nat, n: nat)
    requires k < |s| && Increasing(s) && InRange(s, n)
    ensures Increasing(s[..k] + s[k + 1..]) && InRange(s[..k] + s[k + 1..], n)
  {
    RemoveAt(s, k);
  }

  lemma BelowRange(s: seq<nat>, rest: multiset<nat>, n: nat)
    requires multiset(s) + rest == multiset(Range(n))
    ensures InRange(s, n)
  {
    forall i | 0 <= i < |s| ensures s[i] < n {
      assert s[i] in multiset(Range(n));
    }
  }

  lemma StepFoundPartition(m: Matching, n: nat, np: nat, k: nat)
    requires k < |m.pool| && Partitioned(m, n, np) && InRange(m.fn, n)
    ensures Partitioned(Matching(m.tp + [(n, m.pool[k])], m.pool[..k] + m.pool[k + 1..], m.fn), n + 1, np)
  {
    var p := m.pool[k];
    var tp', pool' := m.tp + [(n, p)], m.pool[..k] + m.pool[k + 1..];
    RemoveAt(m.pool, k);
    assert GtsOf(tp') == GtsOf(m.tp) + [n];
    assert PredsOf(tp') == PredsOf(m.tp) + [p];
    assert Range(n + 1) == Range(n) + [n];
  }

  lemma StepFound(gts: seq<EditOperation>, preds: seq<EditOperation>, n: nat, m: Matching, k: nat)
    requires WellFormed(m, gts, preds, n) && n < |gts|
    requires FirstFit(gts[n], m.pool, preds, 0) == Found(k)
    ensures WellFormed(Matching(m.tp + [(n, m.pool[k])], m.pool[..k] + m.pool[k + 1..], m.fn), gts, preds, n + 1)
  {
    var tp', pool' := m.tp + [(n, m.pool[k])], m.pool[..k] + m.pool[k + 1..];
    var m' := Matching(tp', pool', m.fn);
    StepFoundPartition(m, n, |preds|, k);
    RemoveAtIncreasing(m.pool, k, |preds|);
    BelowRange(GtsOf(m.tp), multiset(m.fn), n);
    assert GtsOf(tp') == GtsOf(m.tp) + [n];
    assert PairsAreCandidates(tp', gts, preds, n + 1);
    assert InRange(m.fn, n + 1);
    assert Maximal(m', gts, preds);
  }

  lemma StepNoneFound(gts: seq<EditOperation>, preds: seq<EditOperation>, n: nat, m: Matching)
    requires WellFormed(m, gts, preds, n) && n < |gts|
    requires FirstFit(gts[n], m.pool, preds, 0) == NoneFound
    ensures WellFormed(Matching(m.tp, m.pool, m.fn + [n]), gts, preds, n + 1)
  {
    assert Range(n + 1) == Range(n) + [n];
    var fn' := m.fn + [n];
    assert Partitioned(Matching(m.tp, m.pool, fn'), n + 1, |preds|);
    assert InRange(fn', n + 1) && Increasing(fn');
    NoneFoundMaximal(gts, preds, n, m);
    assert PairsAreCandidates(m.tp, gts, preds, n + 1);
  }

  /** An edit with no candidate among the unused predictions leaves none for the unmatched. */
  lemma NoneFoundMaximal(gts: seq<EditOperation>, preds: seq<EditOperation>, n: nat, m: Matching)
    requires WellFormed(m, gts, preds, n) && n < |gts|
    requires FirstFit(gts[n], m.pool, preds, 0) == NoneFound
    ensures InRange(m.fn + [n], |gts|)
    ensures Maximal(Matching(m.tp, m.pool, m.fn + [n]), gts, preds)
  {
    var fn' := m.fn + [n];
    assert InRange(fn', |gts|);
    forall a, b | 0 <= a < |fn'| && 0 <= b < |m.pool|
      ensures TestPair(gts[fn'[a]], preds[m.pool[b]]) != Candidate
    {
      if a == |m.fn| { assert TestPair(gts[n], preds[m.pool[b]]) == NotCandidate; }
    }
  }

  /** The greedy pass keeps its invariant after every ground-truth edit. */
  lemma {:induction false} GreedyWellFormed(gts: seq<EditOperation>, preds: seq<EditOperation>, n: nat, m: Matching)
    requires n <= |gts| && Greedy(gts, preds, n) == Success(m)
    ensures WellFormed(m, gts, preds, n)
  {
    if n == 0 {
      assert m == Matching([], Range(|preds|), []);
      InitialWellFormed(gts, preds);
    } else {
      var prev := GreedyPrevious(gts, preds, n, m);
      GreedyWellFormed(gts, preds, n - 1, prev);
      StepKeepsWellFormed(gts, preds, n, prev, m);
    }
  }

  /** The `n`-th ground-truth edit keeps the invariant of the state before it. */
  lemma StepKeepsWellFormed(gts: seq<EditOperation>, preds: seq<EditOperation>, n: nat, prev: Matching, m: Matching)
    requires 0 < n <= |gts| && InRange(prev.pool, |preds|)
    requires Step(gts, preds, n - 1, prev) == Success(m)
    ensures WellFormed(prev, gts, preds, n - 1) ==> WellFormed(m, gts, preds, n)
  {
    if WellFormed(prev, gts, preds, n - 1) {
      var k := n - 1;
      assert k + 1 == n;
      match FirstFit(gts[k], prev.pool, preds, 0)
      case Found(j) =>
        assert m == Matching(prev.tp + [(k, prev.pool[j])], prev.pool[..j] + prev.pool[j + 1..], prev.fn);
        StepFound(gts, preds, k, prev, j);
      case NoneFound =>
        assert m == Matching(prev.tp, prev.pool, prev.fn + [k]);
        StepNoneFound(gts, preds, k, prev);
    }
  }

  /** A successful state after `n` edits comes from a successful state after `n - 1`. */
  lemma GreedyPrevious(gts: seq<EditOperation>, preds: seq<EditOperation>, n: nat, m: Matching) returns (prev: Matching)
    requires 0 < n <= |gts| && Greedy(gts, preds, n) == Success(m)
    ensures Greedy(gts, preds, n - 1) == Success(prev) && InRange(prev.pool, |preds|)
    ensures Step(gts, preds, n - 1, prev) == Success(m)
  {
    prev := Greedy(gts, preds, n - 1).value;
  }

  lemma InitialWellFormed(gts: seq<EditOperation>, preds: seq<EditOperation>)
    ensures WellFormed(Matching([], Range(|preds|), []), gts, preds, 0)
  {
    var m := Matching([], Range(|preds|), []);
    assert GtsOf(m.tp) == [] && PredsOf(m.tp) == [];
    assert Partitioned(m, 0, |preds|);
  }

  /** Once an edit raises, the pass ends with that error. */
  lemma {:induction false} GreedyFailurePersists(gts: seq<EditOperation>, preds: seq<EditOperation>, n: nat, n': nat)
    requires n <= n' <= |gts| && Greedy(gts, preds, n).Failure?
    ensures Greedy(gts, preds, n') == Greedy(gts, preds, n)
    decreases n' - n
  {
    if n < n' {
      GreedyFailurePersists(gts, preds, n, n' - 1);
    }
  }

  /**
   * Each ground-truth edit is matched at most once and each prediction used at most
   * once, so |TP| + |FN| = |GT| and |TP| + |FP| = |filtered predictions|.
   */
  lemma MatchingCounts(gts: seq<EditOperation>, preds: seq<EditOperation>)
    requires Greedy(gts, preds, |gts|).Success?
    ensures var m := Greedy(gts, preds, |gts|).value;
            && |m.tp| + |m.fn| == |gts|
            && |m.tp| + |m.pool| == |preds|
            && Increasing(GtsOf(m.tp))
  {
    GreedyWellFormed(gts, preds, |gts|, Greedy(gts, preds, |gts|).value);
    var m := Greedy(gts, preds, |gts|).value;
    assert |multiset(GtsOf(m.tp)) + multiset(m.fn)| == |multiset(Range(|gts|))|;
    assert |multiset(PredsOf(m.tp)) + multiset(m.pool)| == |multiset(Range(|preds|))|;
  }

  /**
   * A `TypeError` is raised exactly at the first ground-truth edit that has no line
   * number and meets, before any candidate, an unused prediction of the same type.
   * A ground-truth edit without a line number is never matched.
   */
  lemma FaultMeansMissingLine(g: EditOperation, pool: seq<nat>, preds: seq<EditOperation>)
    requires InRange(pool, |preds|)
    requires forall j :: 0 <= j < |preds| ==> HasLine(preds[j])
    ensures FirstFit(g, pool, preds, 0).Fault? <==>
              g.lineNumber.None? && exists j :: 0 <= j < |pool| && SameType(g, preds[pool[j]])
    ensures g.lineNumber.None? ==> !FirstFit(g, pool, preds, 0).Found?
  {
    if g.lineNumber.None? && FirstFit(g, pool, preds, 0).NoneFound? {
      forall j | 0 <= j < |pool| ensures !SameType(g, preds[pool[j]]) {
        assert TestPair(g, preds[pool[j]]) == NotCandidate;
      }
    }
  }

  // ---------------------------------------------------------------------
  // The imperative pass
  // ---------------------------------------------------------------------

  /**
   * `match_edits`. Returns the filtered predictions together with the assignment
   * (or the `TypeError`), which is exactly the greedy specification.
   */
  method MatchEdits(gts: seq<EditOperation>, predictions: seq<EditOperation>)
    returns (r: Result<Matching, MatchError>, filtered: seq<EditOperation>, skipped: nat)
    ensures filtered == Filtered(predictions) && skipped == Skipped(predictions)
    ensures r == Greedy(gts, filtered, |gts|)
  {
    filtered, skipped := DropUnnumbered(predictions);
    var tp: seq<Pair> := [];
    var pool := Range(|filtered|);
    var fn: seq<nat> := [];
    var gi := 0;
    while gi < |gts|
      invariant gi <= |gts|
      invariant Greedy(gts, filtered, gi) == Success(Matching(tp, pool, fn))
    {
      GreedyNext(gts, filtered, gi, Matching(tp, pool, fn));
      var fit := ScanPool(gts[gi], pool, filtered);
      if fit.Fault? {
        GreedyFailurePersists(gts, filtered, gi + 1, |gts|);
        return Failure(LineNumberNotComparable(gi)), filtered, skipped;
      }
      if fit.Found? {
        tp := tp + [(gi, pool[fit.pos])];
        pool := pool[..fit.pos] + pool[fit.pos + 1..];
      } else {
        fn := fn + [gi];
      }
      gi := gi + 1;
    }
    r := Success(Matching(tp, pool, fn));
  }

  /** One more ground-truth edit is one more `Step` from the state reached so far. */
  lemma GreedyNext(gts: seq<EditOperation>, preds: seq<EditOperation>, gi: nat, m: Matching)
    requires gi < |gts| && Greedy(gts, preds, gi) == Success(m)
    ensures InRange(m.pool, |preds|)
    ensures Greedy(gts, preds, gi + 1) == Step(gts, preds, gi, m)
  {
  }

  /** The first loop of `match_edits`: predictions without a line number are skipped and counted. */
  method DropUnnumbered(predictions: seq<EditOperation>) returns (filtered: seq<EditOperation>, skipped: nat)
    ensures filtered == Filtered(predictions) && skipped == Skipped(predictions)
  {
    filtered, skipped := [], 0;
    var k := 0;
    while k < |predictions|
      invariant k <= |predictions|
      invariant filtered == Filtered(predictions[..k]) && skipped == Skipped(predictions[..k])
    {
      assert predictions[..k + 1][..k] == predictions[..k];
      if predictions[k].lineNumber.Some? {
        filtered := filtered + [predictions[k]];
      } else {
        skipped := skipped + 1;
      }
      k := k + 1;
    }
    assert predictions[..k] == predictions;
  }

  /** The inner loop of `match_edits`: scans the unused predictions in order. */
  method ScanPool(g: EditOperation, pool: seq<nat>, preds: seq<EditOperation>) returns (fit: Fit)
    requires InRange(pool, |preds|)
    ensures fit == FirstFit(g, pool, preds, 0)
  {
    var i := 0;
    while i < |pool|
      invariant 0 <= i <= |pool|
      invariant FirstFit(g, pool, preds, 0) == FirstFit(g, pool, preds, i)
    {
      var t := TestPair(g, preds[pool[i]]);
      if t == LineFault {
        assert FirstFit(g, pool, preds, i) == Fault;
        return Fault;
      }
      if t == Candidate {
        assert FirstFit(g, pool, preds, i) == Found(i);
        return Found(i);
      }
      assert FirstFit(g, pool, preds, i) == FirstFit(g, pool, preds, i + 1);
      i := i + 1;
    }
    return NoneFound;
  }
}
