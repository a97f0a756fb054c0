/**
 * `collect_model_results` of the site builder. For each model directory it takes
 * the results files of `results/eval`, sorts them by file id, keeps those that
 * load, and reports the summed counts with the micro-averaged precision, recall
 * and F1, the count-weighted per-type averages, the latest parseable date and a
 * display name. The model entries are then sorted by F1, highest first.
 *
 * A results file is read in the summary shape the script expects (`details`
 * holding `total_ground_truth`, `total_predicted`, `correct_count` and `by_type`);
 * every field the script reads with `.get` is an `Option`.
 */
module SiteResults {
  import opened Wrappers
  import opened Strings
  import opened Sorting
  import opened Dicts
  import CheckPredictions
  import Metrics

  // ---------------------------------------------------------------------
  // File ids
  // ---------------------------------------------------------------------

  /** Length of the run of decimal digits at the start of `s`. */
  function LeadingDigits(s: string): (n: nat)
    ensures n <= |s| && AllDigits(s[..n])
    ensures n < |s| ==> !IsDigitChar(s[n])
  {
    if s == [] || !IsDigitChar(s[0]) then 0
    else
      var n := 1 + LeadingDigits(s[1..]);
      assert s[..n] == [s[0]] + s[1..][..n - 1];
      n
  }

  /** The digit run of `x + y` is `x` when `y` does not go on with a digit. */
  lemma {:induction false} LeadingDigitsOf(x: string, y: string)
    requires AllDigits(x)
    requires y == [] || !IsDigitChar(y[0])
    ensures LeadingDigits(x + y) == |x|
  {
    if x == [] {
      assert x + y == y;
    } else {
      assert (x + y)[0] == x[0] && (x + y)[1..] == x[1..] + y;
      LeadingDigitsOf(x[1..], y);
    }
  }

  /**
   * `re.match(r"(\d+)_\d+_\d+_results\.json", name)`: group 1 when the name
   * starts with a match. The pattern has no end anchor, so anything may follow.
   * Each `\d+` is followed by `_`, so it takes the whole digit run.
   */
  function MatchResultsName(name: string): (g: Option<string>)
    ensures g.Some? ==> CheckPredictions.DigitGroup(g.value) && IsPrefix(g.value + "_", name)
  {
    var a := LeadingDigits(name);
    if a == 0 || a == |name| || name[a] != '_' then None
    else
      var s1 := name[a + 1..];
      var b := LeadingDigits(s1);
      if b == 0 || b == |s1| || s1[b] != '_' then None
      else
        var s2 := s1[b + 1..];
        var c := LeadingDigits(s2);
        if c == 0 || !IsPrefix(CheckPredictions.ResultsSuffix, s2[c..]) then None
        else
          assert name[..a + 1] == name[..a] + "_";
          Some(name[..a])
  }

  /** `Path(name).stem`: the name without its last suffix; a dot at either end starts none. */
  function PathStem(name: string): (stem: string)
    ensures IsPrefix(stem, name)
  {
    var i := RFind(name, '.');
    if 0 < i < |name| - 1 then name[..i] else name
  }

  /** `extract_file_id`: the matched question group, else the stem up to its first `_`. */
  function ExtractFileId(name: string): string
  {
    match MatchResultsName(name)
    case Some(g) => g
    case None => Split(PathStem(name), '_')[0]
  }

  /** A digit group, a `_` and then anything: the group is the digit run. */
  lemma {:induction false} GroupThenUnderscore(x: string, y: string)
    requires AllDigits(x)
    ensures var s := x + ("_" + y);
            LeadingDigits(s) == |x| && |x| < |s| && s[|x|] == '_' && s[|x| + 1..] == y && s[..|x|] == x
  {
    LeadingDigitsOf(x, "_" + y);
  }

  /** A results name `<question>_<run>_<date>_results.json…` has its question as file id. */
  lemma {:induction false} ExtractFileIdOfMatch(q: string, r: string, d: string, rest: string)
    requires CheckPredictions.DigitGroup(q) && CheckPredictions.DigitGroup(r) && CheckPredictions.DigitGroup(d)
    ensures var name := q + ("_" + (r + ("_" + (d + (CheckPredictions.ResultsSuffix + rest)))));
            MatchResultsName(name) == Some(q) && ExtractFileId(name) == q
  {
    var suffix := CheckPredictions.ResultsSuffix + rest;
    var s2 := d + suffix;
    var s1 := r + ("_" + s2);
    GroupThenUnderscore(q, s1);
    GroupThenUnderscore(r, s2);
    LeadingDigitsOf(d, suffix);
    assert s2[|d|..] == suffix;
  }

  /** A file id never holds `_`. */
  lemma {:induction false} ExtractFileIdNoUnderscore(name: string)
    ensures forall i :: 0 <= i < |ExtractFileId(name)| ==> ExtractFileId(name)[i] != '_'
  {
    if MatchResultsName(name).None? {
      SplitJoin(PathStem(name), '_');
    }
  }

  /**
   * The pattern never changes the answer: the file id is always the stem's first
   * `_`-separated segment.
   */
  lemma {:induction false} ExtractFileIdFirstSegment(name: string)
    ensures ExtractFileId(name) == Split(PathStem(name), '_')[0]
  {
    match MatchResultsName(name)
    case None =>
    case Some(g) =>
      MatchedStem(name);
      var stem := PathStem(name);
      var rest := stem[|g| + 1..];
      assert stem == g + ['_'] + rest;
      SplitAfter(g, '_', rest);
  }

  /** A matched name keeps its group and the `_` after it in the stem: the last dot comes later. */
  lemma {:induction false} MatchedStem(name: string)
    requires MatchResultsName(name).Some?
    ensures IsPrefix(MatchResultsName(name).value + "_", PathStem(name))
  {
    MatchedDot(name);
    var g := MatchResultsName(name).value;
    assert name[..|g| + 1] == g + "_";
  }

  /** The `.json` of a match lies after the group and its `_`. */
  lemma {:induction false} MatchedDot(name: string)
    requires MatchResultsName(name).Some?
    ensures LeadingDigits(name) + 1 < RFind(name, '.')
  {
    var a := LeadingDigits(name);
    var s1 := name[a + 1..];
    var b := LeadingDigits(s1);
    var s2 := s1[b + 1..];
    var c := LeadingDigits(s2);
    assert IsPrefix(CheckPredictions.ResultsSuffix, s2[c..]);
    SuffixDot(s2[c..]);
    assert s2[c + 8] == '.';
    assert s1[b + 1 + (c + 8)] == '.';
    assert name[a + 1 + (b + 1 + (c + 8))] == '.';
  }

  /** The ninth character of `_results.json` is its dot. */
  lemma SuffixDot(t: string)
    requires IsPrefix(CheckPredictions.ResultsSuffix, t)
    ensures |t| > 8 && t[8] == '.'
  {
    assert t[8] == CheckPredictions.ResultsSuffix[8];
  }

  // ---------------------------------------------------------------------
  // Model directories and results files
  // ---------------------------------------------------------------------

  /** The fields of a model's `config.json` the builder interprets. */
  datatype ModelConfig = ModelConfig(shots: Option<int>)

  /** `load_config_file`'s default, used when `config.json` is missing or unreadable. */
  const DefaultConfig: ModelConfig := ModelConfig(Some(2))

  /** One entry of a results file's `by_type`. */
  datatype TypeFigures = TypeFigures(count: Option<int>, precision: Option<real>, recall: Option<real>, f1: Option<real>)

  /** A results file's `details`, in the summary shape. */
  datatype Details = Details(
    totalGroundTruth: Option<int>,
    totalPredicted: Option<int>,
    correctCount: Option<int>,
    byType: Option<Dict<string, TypeFigures>>)

  const NoDetails: Details := Details(None, None, None, None)

  /** A loaded results file. */
  datatype ResultData = ResultData(details: Option<Details>, date: Option<string>)

  /** A file of `results/eval`: its name and its content, `None` when it does not load. */
  datatype ResultFile = ResultFile(name: string, content: Option<ResultData>)

  /** A model directory: its name, its config (`None` when missing or unreadable), its results files (`None` without a results directory). */
  datatype ModelDir = ModelDir(name: string, config: Option<ModelConfig>, results: Option<seq<ResultFile>>)

  /** A loaded results file tagged with its `file_id`. */
  datatype FileResult = FileResult(fileId: string, data: ResultData)

  function ConfigOf(dir: ModelDir): ModelConfig {
    dir.config.GetOr(DefaultConfig)
  }

  /** The shot filter: a model is skipped when a filter is set and its shots (0 by default) differ. */
  predicate Skipped(config: ModelConfig, shotFilter: Option<int>) {
    shotFilter.Some? && config.shots.GetOr(0) != shotFilter.value
  }

  /** The shot count reported on the site (2 by default). */
  function ReportedShots(config: ModelConfig): int {
    config.shots.GetOr(2)
  }

  /**
   * Without a filter nothing is skipped; with one, only models whose configured
   * shots equal it are kept. A config without `shots` counts as 0 shots for the
   * filter but is reported with 2.
   */
  lemma {:induction false} ShotFilterMeaning(config: ModelConfig, n: int)
    ensures !Skipped(config, None)
    ensures config.shots.Some? ==> (Skipped(config, Some(n)) <==> config.shots.value != n)
    ensures config.shots.None? ==> (Skipped(config, Some(n)) <==> n != 0) && ReportedShots(config) == 2
  {
  }

  /** `results_dir.glob("*_results.json")`, in listing order. */
  function Globbed(files: seq<ResultFile>): (r: seq<ResultFile>)
    ensures |r| <= |files|
    ensures forall i :: 0 <= i < |r| ==> IsSuffix(CheckPredictions.ResultsSuffix, r[i].name) && r[i] in files
  {
    if files == [] then []
    else
      var last := files[|files| - 1];
      Globbed(files[..|files| - 1]) + (if IsSuffix(CheckPredictions.ResultsSuffix, last.name) then [last] else [])
  }

  /** `sort(key=lambda x: extract_file_id(x.name))`: string order of the file ids. */
  predicate ByFileId(a: ResultFile, b: ResultFile) {
    LexLess(ExtractFileId(a.name), ExtractFileId(b.name))
  }

  lemma {:induction false} FileIdOrder()
    ensures StrictWeakOrder(ByFileId)
  {
    LexOrder();
  }

  /** The files that load, in order, each with its file id. */
  function Loaded(files: seq<ResultFile>): (frs: seq<FileResult>)
    ensures |frs| <= |files|
  {
    if files == [] then []
    else
      var last := files[|files| - 1];
      Loaded(files[..|files| - 1]) +
        (if last.content.Some? then [FileResult(ExtractFileId(last.name), last.content.value)] else [])
  }

  // ---------------------------------------------------------------------
  // The latest date
  // ---------------------------------------------------------------------

  /**
   * A `datetime` as `fromisoformat` returns it: whether it carries a time zone
   * (aware) or not (naive), and its position in time.
   */
  datatype Instant = Instant(aware: bool, at: int)

  /** `datetime.fromisoformat`: the parsed instant, `None` where it raises `ValueError`. */
  type DateParser = string -> Option<Instant>

  /** `date > latest_date`: `None` where Python raises `TypeError`, comparing a naive with an aware datetime. */
  function Later(d: Instant, prev: Instant): (later: Option<bool>)
    ensures later.None? <==> d.aware != prev.aware
    ensures later == Some(true) <==> d.aware == prev.aware && d.at > prev.at
  {
    if d.aware != prev.aware then None else Some(d.at > prev.at)
  }

  /** The parsed `date` of a results file, `None` when it is absent or does not parse. */
  function DateOf(fr: FileResult, parse: DateParser): Option<Instant> {
    if fr.data.date.Some? then parse(fr.data.date.value) else None
  }

  /**
   * `latest_date` after the loop: replaced by every parsed date later than it; a date
   * whose comparison raises `TypeError` is skipped by the `except` around it.
   */
  function LatestDate(frs: seq<FileResult>, parse: DateParser): Option<Instant>
  {
    if frs == [] then None
    else
      var prev := LatestDate(frs[..|frs| - 1], parse);
      var d := DateOf(frs[|frs| - 1], parse);
      if d.Some? && (prev.None? || Later(d.value, prev.value) == Some(true)) then d else prev
  }

  /** No file before position `i` has a date that parses. */
  ghost predicate NoDateBefore(frs: seq<FileResult>, i: nat, parse: DateParser)
    requires i <= |frs|
  {
    forall j :: 0 <= j < i ==> DateOf(frs[j], parse).None?
  }

  /**
   * The latest date is absent exactly when no date parses. Otherwise it is one of the
   * parsed dates, of the same kind (naive or aware) as the first parsed date, and no
   * parsed date of that kind is later; dates of the other kind are all skipped.
   */
  lemma {:induction false} LatestDateMeaning(frs: seq<FileResult>, parse: DateParser)
    ensures LatestDate(frs, parse).None? <==> forall i :: 0 <= i < |frs| ==> DateOf(frs[i], parse).None?
    ensures LatestDate(frs, parse).Some? ==>
              exists i :: 0 <= i < |frs| && DateOf(frs[i], parse) == LatestDate(frs, parse)
    ensures forall i :: 0 <= i < |frs| && DateOf(frs[i], parse).Some? && NoDateBefore(frs, i, parse) ==>
              LatestDate(frs, parse).Some? && LatestDate(frs, parse).value.aware == DateOf(frs[i], parse).value.aware
    ensures forall i :: 0 <= i < |frs| && DateOf(frs[i], parse).Some? ==>
              && LatestDate(frs, parse).Some?
              && (DateOf(frs[i], parse).value.aware == LatestDate(frs, parse).value.aware ==>
                    DateOf(frs[i], parse).value.at <= LatestDate(frs, parse).value.at)
  {
    if frs != [] {
      var init := frs[..|frs| - 1];
      LatestDateMeaning(init, parse);
      assert forall i :: 0 <= i < |init| ==> init[i] == frs[i];
      var prev := LatestDate(init, parse);
      var d := DateOf(frs[|frs| - 1], parse);
      if d.Some? && (prev.None? || Later(d.value, prev.value) == Some(true)) {
        assert DateOf(frs[|frs| - 1], parse) == LatestDate(frs, parse);
      } else if prev.Some? {
        var i :| 0 <= i < |init| && DateOf(init[i], parse) == prev;
        assert DateOf(frs[i], parse) == LatestDate(frs, parse);
      }
      forall i | 0 <= i < |frs| && DateOf(frs[i], parse).Some? && NoDateBefore(frs, i, parse)
        ensures LatestDate(frs, parse).Some? && LatestDate(frs, parse).value.aware == DateOf(frs[i], parse).value.aware
      {
        if i < |init| {
          assert NoDateBefore(init, i, parse);
        } else {
          assert prev.None?;
        }
      }
    }
  }

  /**
   * A naive date followed by an aware one, or the reverse: the comparison raises, so
   * the first date stays the latest whatever the instants.
   */
  lemma MixedKindsKeepFirst(a: FileResult, b: FileResult, parse: DateParser)
    requires DateOf(a, parse).Some? && DateOf(b, parse).Some?
    requires DateOf(a, parse).value.aware != DateOf(b, parse).value.aware
    ensures LatestDate([a, b], parse) == DateOf(a, parse)
  {
    assert [a][..0] == [];
    assert LatestDate([a], parse) == DateOf(a, parse);
    assert [a, b][..1] == [a];
    assert Later(DateOf(b, parse).value, DateOf(a, parse).value).None?;
  }

  // ---------------------------------------------------------------------
  // Micro-averaged scores
  // ---------------------------------------------------------------------

  function DetailsOf(fr: FileResult): Details {
    fr.data.details.GetOr(NoDetails)
  }

  function GroundTruthOf(d: Details): int { d.totalGroundTruth.GetOr(0) }
  function PredictedOf(d: Details): int { d.totalPredicted.GetOr(0) }
  function CorrectOf(d: Details): int { d.correctCount.GetOr(0) }

  /** `sum(fr.get("details", {}).get(field, 0) for fr in file_results)`. */
  function Total(frs: seq<FileResult>, field: Details -> int): int
  {
    if frs == [] then 0 else Total(frs[..|frs| - 1], field) + field(DetailsOf(frs[|frs| - 1]))
  }

  datatype Scores = Scores(precision: real, recall: real, f1: real)

  /** Precision `correct / predicted`, recall `correct / ground truth`, each 0 on a zero denominator, and their F1. */
  function MicroScores(correct: int, predicted: int, groundTruth: int): (s: Scores)
    ensures predicted > 0 ==> s.precision * predicted as real == correct as real
    ensures groundTruth > 0 ==> s.recall * groundTruth as real == correct as real
    ensures predicted <= 0 ==> s.precision == 0.0
    ensures groundTruth <= 0 ==> s.recall == 0.0
    ensures s.precision + s.recall <= 0.0 ==> s.f1 == 0.0
  {
    var p := Metrics.Ratio(correct as real, predicted as real);
    var r := Metrics.Ratio(correct as real, groundTruth as real);
    Scores(p, r, Metrics.F1(p, r))
  }

  /** A file whose counts are consistent: correct edits are among both the predicted and the true ones. */
  predicate Consistent(d: Details) {
    0 <= CorrectOf(d) <= PredictedOf(d) && CorrectOf(d) <= GroundTruthOf(d)
  }

  lemma {:induction false} TotalsConsistent(frs: seq<FileResult>)
    requires forall i :: 0 <= i < |frs| ==> Consistent(DetailsOf(frs[i]))
    ensures 0 <= Total(frs, CorrectOf) <= Total(frs, PredictedOf)
    ensures Total(frs, CorrectOf) <= Total(frs, GroundTruthOf)
  {
    if frs != [] {
      var init := frs[..|frs| - 1];
      assert forall i :: 0 <= i < |init| ==> init[i] == frs[i];
      TotalsConsistent(init);
      assert Consistent(DetailsOf(frs[|frs| - 1]));
    }
  }

  /** When every file is consistent, the summed scores are fractions, and F1 is 0 exactly when nothing is correct. */
  lemma AggregateBounds(frs: seq<FileResult>)
    requires forall i :: 0 <= i < |frs| ==> Consistent(DetailsOf(frs[i]))
    ensures var s := MicroScores(Total(frs, CorrectOf), Total(frs, PredictedOf), Total(frs, GroundTruthOf));
            && 0.0 <= s.precision <= 1.0 && 0.0 <= s.recall <= 1.0 && 0.0 <= s.f1 <= 1.0
            && (s.f1 == 0.0 <==> Total(frs, CorrectOf) == 0)
  {
    TotalsConsistent(frs);
    MicroScoresBounds(Total(frs, CorrectOf), Total(frs, PredictedOf), Total(frs, GroundTruthOf));
  }

  /** Scores of consistent counts are fractions; F1 is 0 exactly when nothing is correct. */
  lemma MicroScoresBounds(correct: int, predicted: int, groundTruth: int)
    requires 0 <= correct <= predicted && correct <= groundTruth
    ensures var s := MicroScores(correct, predicted, groundTruth);
            && 0.0 <= s.precision <= 1.0 && 0.0 <= s.recall <= 1.0 && 0.0 <= s.f1 <= 1.0
            && (s.f1 == 0.0 <==> correct == 0)
  {
    var s := MicroScores(correct, predicted, groundTruth);
    Metrics.RatioBounds(correct as real, predicted as real);
    Metrics.RatioBounds(correct as real, groundTruth as real);
    Metrics.F1Bounds(s.precision, s.recall);
    if correct > 0 {
      assert s.precision * predicted as real == correct as real;
      assert s.recall * groundTruth as real == correct as real;
    }
  }

  // ---------------------------------------------------------------------
  // Per-type averages
  // ---------------------------------------------------------------------

  /** An `edit_types` entry: weighted sums (averages after the final loop) and the summed count. */
  datatype TypeStats = TypeStats(precision: real, recall: real, f1: real, count: int)

  const NoStats: TypeStats := TypeStats(0.0, 0.0, 0.0, 0)

  function CountValue(m: TypeFigures): int { m.count.GetOr(0) }
  function PrecisionValue(m: TypeFigures): real { m.precision.GetOr(0.0) }
  function RecallValue(m: TypeFigures): real { m.recall.GetOr(0.0) }
  function F1Value(m: TypeFigures): real { m.f1.GetOr(0.0) }

  /** One update of the accumulation loop: add the count; when it is positive, add each figure times it. */
  function AddFigures(acc: TypeStats, m: TypeFigures): TypeStats
  {
    var c := CountValue(m);
    if c > 0 then
      TypeStats(acc.precision + PrecisionValue(m) * c as real,
                acc.recall + RecallValue(m) * c as real,
                acc.f1 + F1Value(m) * c as real,
                acc.count + c)
    else acc.(count := acc.count + c)
  }

  /** Every `(edit_type, metrics)` pair of every file's `by_type`, in loop order. */
  function TypeEntries(frs: seq<FileResult>): seq<(string, TypeFigures)>
  {
    if frs == [] then []
    else TypeEntries(frs[..|frs| - 1]) + DetailsOf(frs[|frs| - 1]).byType.GetOr([])
  }

  /** `edit_types` after the accumulation loop. */
  function TypeSums(frs: seq<FileResult>): Dict<string, TypeStats> {
    Accumulate(TypeEntries(frs), NoStats, AddFigures)
  }

  /** The division step: averages when the count is positive, the entry unchanged otherwise. */
  function Averaged(s: TypeStats): TypeStats {
    if s.count > 0 then
      TypeStats(s.precision / s.count as real, s.recall / s.count as real, s.f1 / s.count as real, s.count)
    else s
  }

  function AverageAll(d: Dict<string, TypeStats>): (r: Dict<string, TypeStats>)
    ensures |r| == |d|
    ensures forall i :: 0 <= i < |d| ==> r[i] == (d[i].0, Averaged(d[i].1))
  {
    seq(|d|, i requires 0 <= i < |d| => (d[i].0, Averaged(d[i].1)))
  }

  /** The sum of the counts, and each figure weighted by its count over the entries with a positive count. */
  function CountTotal(ms: seq<TypeFigures>): int
  {
    if ms == [] then 0 else CountTotal(ms[1..]) + CountValue(ms[0])
  }

  function WeightedTotal(ms: seq<TypeFigures>, value: TypeFigures -> real): real
  {
    if ms == [] then 0.0 else WeightedTotal(ms[1..], value) + Weight(ms[0], value)
  }

  /** One entry's share of a weighted total: the figure times the count when that is positive. */
  function Weight(m: TypeFigures, value: TypeFigures -> real): real {
    if CountValue(m) > 0 then value(m) * CountValue(m) as real else 0.0
  }

  /** The count-weighted mean of each figure; the raw sums when the total count is not positive. */
  function WeightedMean(ms: seq<TypeFigures>): TypeStats
  {
    var n := CountTotal(ms);
    var p, r, f := WeightedTotal(ms, PrecisionValue), WeightedTotal(ms, RecallValue), WeightedTotal(ms, F1Value);
    if n > 0 then TypeStats(p / n as real, r / n as real, f / n as real, n) else TypeStats(p, r, f, n)
  }

  lemma {:induction false} CountTotalSnoc(ms: seq<TypeFigures>, m: TypeFigures)
    ensures CountTotal(ms + [m]) == CountTotal(ms) + CountValue(m)
  {
    if ms == [] {
      assert ms + [m] == [m];
    } else {
      assert (ms + [m])[1..] == ms[1..] + [m];
      CountTotalSnoc(ms[1..], m);
    }
  }

  lemma {:induction false} WeightedTotalSnoc(ms: seq<TypeFigures>, m: TypeFigures, value: TypeFigures -> real)
    ensures WeightedTotal(ms + [m], value) == WeightedTotal(ms, value) + Weight(m, value)
  {
    if ms == [] {
      assert ms + [m] == [m];
    } else {
      assert (ms + [m])[1..] == ms[1..] + [m];
      WeightedTotalSnoc(ms[1..], m, value);
    }
  }

  /** The accumulation loop computes the weighted totals and the total count. */
  lemma {:induction false} FoldFiguresMeaning(ms: seq<TypeFigures>)
    ensures FoldValues(NoStats, AddFigures, ms) ==
            TypeStats(WeightedTotal(ms, PrecisionValue), WeightedTotal(ms, RecallValue),
                      WeightedTotal(ms, F1Value), CountTotal(ms))
  {
    if ms != [] {
      var init, last := ms[..|ms| - 1], ms[|ms| - 1];
      FoldFiguresMeaning(init);
      assert ms == init + [last];
      assert FoldValues(NoStats, AddFigures, ms) == AddFigures(FoldValues(NoStats, AddFigures, init), last);
      AddFiguresSnoc(init, last);
    } else {
      assert FoldValues(NoStats, AddFigures, ms) == NoStats;
    }
  }

  /** One step of the accumulation loop extends the totals by one more entry. */
  lemma AddFiguresSnoc(ms: seq<TypeFigures>, m: TypeFigures)
    ensures AddFigures(TypeStats(WeightedTotal(ms, PrecisionValue), WeightedTotal(ms, RecallValue),
                                 WeightedTotal(ms, F1Value), CountTotal(ms)), m) ==
            TypeStats(WeightedTotal(ms + [m], PrecisionValue), WeightedTotal(ms + [m], RecallValue),
                      WeightedTotal(ms + [m], F1Value), CountTotal(ms + [m]))
  {
    var acc := TypeStats(WeightedTotal(ms, PrecisionValue), WeightedTotal(ms, RecallValue),
                         WeightedTotal(ms, F1Value), CountTotal(ms));
    AddFiguresFields(acc, m);
    CountTotalSnoc(ms, m);
    WeightedTotalSnoc(ms, m, PrecisionValue);
    WeightedTotalSnoc(ms, m, RecallValue);
    WeightedTotalSnoc(ms, m, F1Value);
  }

  /** Each field of one accumulation step, with the figures' weight written out. */
  lemma AddFiguresFields(acc: TypeStats, m: TypeFigures)
    ensures AddFigures(acc, m).precision == acc.precision + Weight(m, PrecisionValue)
    ensures AddFigures(acc, m).recall == acc.recall + Weight(m, RecallValue)
    ensures AddFigures(acc, m).f1 == acc.f1 + Weight(m, F1Value)
    ensures AddFigures(acc, m).count == acc.count + CountValue(m)
  {
  }

  /**
   * `by_type` of a model lists every edit type seen in its files, in order of first
   * appearance, and reports for each the count-weighted mean of its per-file figures.
   */
  lemma {:induction false} TypeAveragesMeaning(frs: seq<FileResult>, t: string)
    ensures DistinctKeys(AverageAll(TypeSums(frs)))
    ensures Keys(AverageAll(TypeSums(frs))) == FirstSeen(Keys(TypeEntries(frs)))
    ensures Get(AverageAll(TypeSums(frs)), t) ==
            if t in Keys(TypeEntries(frs)) then Some(WeightedMean(ValuesOf(TypeEntries(frs), t))) else None
  {
    var es := TypeEntries(frs);
    var d := TypeSums(frs);
    AccumulateMeaning(es, NoStats, AddFigures);
    var r := AverageAll(d);
    assert Keys(r) == Keys(d);
    FindByKeys(r, d, t);
    if t in Keys(es) {
      FoldFiguresMeaning(ValuesOf(es, t));
    }
  }

  /** Well-formed figures: non-negative counts and figures between 0 and 1. */
  predicate WellFormed(m: TypeFigures) {
    CountValue(m) >= 0 && 0.0 <= PrecisionValue(m) <= 1.0 && 0.0 <= RecallValue(m) <= 1.0 && 0.0 <= F1Value(m) <= 1.0
  }

  lemma {:induction false} WeightedTotalBounds(ms: seq<TypeFigures>, value: TypeFigures -> real)
    requires forall i :: 0 <= i < |ms| ==> CountValue(ms[i]) >= 0 && 0.0 <= value(ms[i]) <= 1.0
    ensures 0 <= CountTotal(ms)
    ensures 0.0 <= WeightedTotal(ms, value) <= CountTotal(ms) as real
  {
    if ms != [] {
      assert forall i :: 0 <= i < |ms[1..]| ==> ms[1..][i] == ms[i + 1];
      WeightedTotalBounds(ms[1..], value);
      var c := CountValue(ms[0]);
      var w := Weight(ms[0], value);
      ScaledBounds(value(ms[0]), c as real);
      assert 0.0 <= w <= c as real;
      assert WeightedTotal(ms, value) == WeightedTotal(ms[1..], value) + w;
      assert CountTotal(ms) as real == CountTotal(ms[1..]) as real + c as real;
    }
  }

  /** A fraction of a non-negative amount lies between 0 and that amount. */
  lemma ScaledBounds(v: real, c: real)
    requires 0.0 <= v <= 1.0 && 0.0 <= c
    ensures 0.0 <= v * c <= c
  {
    Metrics.MulSign(v, c);
    Metrics.MulSign(1.0 - v, c);
  }

  /**
   * With well-formed figures the averages are fractions, and a type whose total
   * count is 0 keeps all-zero figures.
   */
  lemma {:induction false} WeightedMeanBounds(ms: seq<TypeFigures>)
    requires forall i :: 0 <= i < |ms| ==> WellFormed(ms[i])
    ensures var a := WeightedMean(ms);
            && 0.0 <= a.precision <= 1.0 && 0.0 <= a.recall <= 1.0 && 0.0 <= a.f1 <= 1.0
            && a.count == CountTotal(ms) >= 0
            && (a.count == 0 ==> a == NoStats)
  {
    WeightedTotalBounds(ms, PrecisionValue);
    WeightedTotalBounds(ms, RecallValue);
    WeightedTotalBounds(ms, F1Value);
    var n := CountTotal(ms) as real;
    if n > 0.0 {
      Metrics.RatioBounds(WeightedTotal(ms, PrecisionValue), n);
      Metrics.RatioBounds(WeightedTotal(ms, RecallValue), n);
      Metrics.RatioBounds(WeightedTotal(ms, F1Value), n);
    }
  }

  // ---------------------------------------------------------------------
  // Display names
  // ---------------------------------------------------------------------

  predicate NameChar(c: char) {
    IsLowerChar(c) || IsDigitChar(c) || c == '-'
  }

  /** `re.match(r"^[a-z0-9-]+$", name)`, where `$` also accepts one final newline. */
  predicate LowercaseName(name: string) {
    var b := WithoutFinalNewline(name);
    |b| > 0 && forall i :: 0 <= i < |b| ==> NameChar(b[i])
  }

  /**
   * The display name: unchanged unless the name is lower-case; a `gpt` name with a
   * dash becomes its upper-cased first segment, a dash and the other segments run
   * together; any other lower-case name has its dashes turned into spaces and each
   * word capitalised.
   */
  function DisplayName(name: string): string
  {
    if !LowercaseName(name) then name
    else if IsPrefix("gpt", name) then
      var parts := Split(name, '-');
      if |parts| > 1 then Upper(parts[0]) + "-" + Join("", parts[1..]) else name
    else
      Join(" ", CapitalizeAll(Words(ReplaceAll(name, "-", " "))))
  }

  /** `word.capitalize()` for each word. */
  function CapitalizeAll(ws: seq<string>): (r: seq<string>)
    ensures |r| == |ws|
  {
    if ws == [] then [] else [Capitalize(ws[0])] + CapitalizeAll(ws[1..])
  }

  /** Names that are not lower-case are shown as they are. */
  lemma {:induction false} DisplayNameKept(name: string)
    requires !LowercaseName(name) || (IsPrefix("gpt", name) && forall i :: 0 <= i < |name| ==> name[i] != '-')
    ensures DisplayName(name) == name
  {
    if LowercaseName(name) && IsPrefix("gpt", name) {
      SplitWithout(name, '-');
    }
  }

  /** A `gpt` name with a dash: the segment before the first dash upper-cased, a dash, then the rest without dashes. */
  lemma {:induction false} DisplayNameGpt(name: string)
    requires LowercaseName(name) && IsPrefix("gpt", name)
    requires IndexOf(name, '-') < |name|
    ensures DisplayName(name) ==
            Upper(name[..IndexOf(name, '-')]) + "-" + RemoveChar(name[IndexOf(name, '-') + 1..], '-')
  {
    var k := IndexOf(name, '-');
    var head, tail := name[..k], name[k + 1..];
    assert name == head + ['-'] + tail;
    GptParts(head, tail);
  }

  lemma {:induction false} GptParts(head: string, tail: string)
    requires forall i :: 0 <= i < |head| ==> head[i] != '-'
    ensures var parts := Split(head + ['-'] + tail, '-');
            |parts| > 1 && parts[0] == head && Join("", parts[1..]) == RemoveChar(tail, '-')
  {
    SplitAfter(head, '-', tail);
    JoinSplitRemoves(tail, '-');
    var parts := Split(head + ['-'] + tail, '-');
    assert parts[1..] == Split(tail, '-');
  }

  /** A `gpt` name: upper-cased first segment, then the other segments run together. */
  lemma {:induction false} GptExample()
    ensures DisplayName("gpt-4o-mini") == "GPT-4omini"
  {
    GptShape();
    DisplayNameGpt("gpt-4o-mini");
    GptPieces();
  }

  lemma {:induction false} GptShape()
    ensures LowercaseName("gpt-4o-mini") && IsPrefix("gpt", "gpt-4o-mini")
    ensures IndexOf("gpt-4o-mini", '-') == 3
  {
    var name := "gpt-4o-mini";
    assert WithoutFinalNewline(name) == name;
    forall i | 0 <= i < |name| ensures NameChar(name[i]) { }
    assert name[..3] == "gpt";
    assert name[3] == '-';
  }

  lemma {:induction false} GptPieces()
    ensures Upper("gpt-4o-mini"[..3]) + "-" + RemoveChar("gpt-4o-mini"[4..], '-') == "GPT-4omini"
  {
    var name := "gpt-4o-mini";
    assert name[..3] == "gpt";
    assert name[4..] == "4o" + (['-'] + "mini");
    var u, r := Upper(name[..3]), RemoveChar(name[4..], '-');
    assert u == "GPT" by { GptUpper(); }
    assert r == "4omini" by { MiniJoined(); }
    assert u + "-" + r == "GPT-4omini";
  }

  lemma GptUpper()
    ensures Upper("gpt") == "GPT"
  {
    assert UpperChar('g') == 'G' && UpperChar('p') == 'P' && UpperChar('t') == 'T';
  }

  lemma MiniJoined()
    ensures RemoveChar("4o" + (['-'] + "mini"), '-') == "4omini"
  {
    RemoveAtSeparator("4o", "mini", '-');
    RemoveCharAbsent("mini", '-');
    RemoveCharAbsent("4o", '-');
  }

  /** A lower-case letter or a digit: a character of a dash-separated word. */
  predicate WordChar(c: char) {
    IsLowerChar(c) || IsDigitChar(c)
  }

  /**
   * Any other lower-case name, that is non-empty lower-case words joined by dashes and
   * not starting with `gpt`, is shown as the words capitalised and joined by spaces.
   */
  lemma {:induction false} DisplayNameDashed(ws: seq<string>)
    requires ws != []
    requires forall i :: 0 <= i < |ws| ==> |ws[i]| > 0 && forall j :: 0 <= j < |ws[i]| ==> WordChar(ws[i][j])
    requires !IsPrefix("gpt", Join("-", ws))
    ensures DisplayName(Join("-", ws)) == Join(" ", CapitalizeAll(ws))
  {
    var name := Join("-", ws);
    assert LowercaseName(name) by {
      JoinChars("-", ws, NameChar);
      JoinStarts("-", ws);
      assert NameChar(name[|name| - 1]);
    }
    assert forall i :: 0 <= i < |ws| ==> '-' !in ws[i];
    ReplaceCharEverywhere(name, '-', ' ');
    SwapJoin(ws, '-', ' ');
    WordsJoin(ws);
  }

  /** Any other lower-case name: words split at dashes, each capitalised. */
  lemma {:induction false} ClaudeExample()
    ensures DisplayName("claude-3-opus") == "Claude 3 Opus"
  {
    var ws := ["claude", "3", "opus"];
    ClaudeJoined();
    assert !IsPrefix("gpt", "claude-3-opus") by {
      assert "claude-3-opus"[0] == 'c';
    }
    assert forall j :: 0 <= j < |ws[0]| ==> WordChar(ws[0][j]);
    assert forall j :: 0 <= j < |ws[1]| ==> WordChar(ws[1][j]);
    assert forall j :: 0 <= j < |ws[2]| ==> WordChar(ws[2][j]);
    DisplayNameDashed(ws);
    ClaudeCapitalized();
  }

  lemma {:induction false} ClaudeJoined()
    ensures Join("-", ["claude", "3", "opus"]) == "claude-3-opus"
  {
    JoinThree("claude", "3", "opus", "-");
    assert "claude" + "-" + ("3" + "-" + "opus") == "claude-3-opus";
  }

  lemma {:induction false} ClaudeCapitalized()
    ensures Join(" ", CapitalizeAll(["claude", "3", "opus"])) == "Claude 3 Opus"
  {
    ClaudeWordsCapitalized();
    JoinThree("Claude", "3", "Opus", " ");
    assert "Claude" + " " + ("3" + " " + "Opus") == "Claude 3 Opus";
  }

  lemma {:induction false} ClaudeWordsCapitalized()
    ensures CapitalizeAll(["claude", "3", "opus"]) == ["Claude", "3", "Opus"]
  {
    var ws := ["claude", "3", "opus"];
    assert Capitalize("claude") == "Claude" by { LowerKeeps("laude"); }
    assert Capitalize("3") == "3";
    assert Capitalize("opus") == "Opus" by { LowerKeeps("pus"); }
    assert ws[1..] == ["3", "opus"] && ws[1..][1..] == ["opus"] && ws[1..][1..][1..] == [];
  }

  lemma {:induction false} JoinThree(a: string, b: string, c: string, sep: string)
    ensures Join(sep, [a, b, c]) == a + sep + (b + sep + c)
  {
    var ws := [a, b, c];
    assert ws[1..] == [b, c] && [b, c][1..] == [c];
    assert Join(sep, [b, c]) == b + sep + c;
  }

  /** A name with an upper-case letter is left alone. */
  lemma {:induction false} MixedCaseExample()
    ensures DisplayName("Gemini-2") == "Gemini-2"
  {
    assert !NameChar("Gemini-2"[0]);
  }

  // ---------------------------------------------------------------------
  // Model entries
  // ---------------------------------------------------------------------

  /**
   * A model entry of `results.json`. `date` is the latest parsed date, `None` where
   * the script falls back to the current time.
   */
  datatype ModelResult = ModelResult(
    modelName: string,
    precision: real,
    recall: real,
    f1Score: real,
    date: Option<Instant>,
    shots: int,
    config: ModelConfig,
    byType: Dict<string, TypeStats>,
    correctCount: int,
    totalGroundTruth: int,
    totalPredicted: int,
    fileResults: seq<FileResult>)

  /** The entry of a model with at least one loaded results file. */
  function Summary(name: string, config: ModelConfig, frs: seq<FileResult>, parse: DateParser): ModelResult
  {
    var correct, predicted, truth := Total(frs, CorrectOf), Total(frs, PredictedOf), Total(frs, GroundTruthOf);
    var s := MicroScores(correct, predicted, truth);
    ModelResult(DisplayName(name), s.precision, s.recall, s.f1, LatestDate(frs, parse), ReportedShots(config),
                config, AverageAll(TypeSums(frs)), correct, truth, predicted, frs)
  }

  /** The files of a model that get loaded: the globbed ones sorted by file id. */
  function SortedResults(files: seq<ResultFile>): seq<ResultFile> {
    SortBy(Globbed(files), ByFileId)
  }

  /** One iteration of the model loop: `None` where the script `continue`s. */
  function ModelResultOf(dir: ModelDir, shotFilter: Option<int>, parse: DateParser): Option<ModelResult>
  {
    var config := ConfigOf(dir);
    if Skipped(config, shotFilter) || dir.results.None? || Globbed(dir.results.value) == [] then None
    else
      var frs := Loaded(SortedResults(dir.results.value));
      if frs == [] then None else Some(Summary(dir.name, config, frs, parse))
  }

  /** The entries of the models that are not skipped, in directory order. */
  function ModelResults(dirs: seq<ModelDir>, shotFilter: Option<int>, parse: DateParser): seq<ModelResult>
  {
    if dirs == [] then []
    else
      var r := ModelResultOf(dirs[|dirs| - 1], shotFilter, parse);
      ModelResults(dirs[..|dirs| - 1], shotFilter, parse) + (if r.Some? then [r.value] else [])
  }

  /** `sort(key=lambda x: x["f1_score"], reverse=True)`. */
  predicate HigherF1(a: ModelResult, b: ModelResult) {
    a.f1Score > b.f1Score
  }

  lemma {:induction false} F1Order()
    ensures StrictWeakOrder(HigherF1)
  {
  }

  /**
   * The published list holds the same entries, by F1 from highest to lowest, and
   * entries of equal F1 keep their directory order.
   */
  lemma {:induction false} RankedMeaning(ms: seq<ModelResult>, p: ModelResult)
    ensures multiset(SortBy(ms, HigherF1)) == multiset(ms)
    ensures forall i, j :: 0 <= i < j < |SortBy(ms, HigherF1)| ==>
              SortBy(ms, HigherF1)[i].f1Score >= SortBy(ms, HigherF1)[j].f1Score
    ensures TiedWith(SortBy(ms, HigherF1), p, HigherF1) == TiedWith(ms, p, HigherF1)
  {
    F1Order();
    SortByPermutes(ms, HigherF1);
    SortBySorted(ms, HigherF1);
    SortByStable(ms, p, HigherF1);
  }

  /** Every file of a model entry is a globbed file that loaded, tagged with its id, in file-id order. */
  lemma {:induction false} EntryFilesMeaning(dir: ModelDir, shotFilter: Option<int>, parse: DateParser)
    requires ModelResultOf(dir, shotFilter, parse).Some?
    ensures var m := ModelResultOf(dir, shotFilter, parse).value;
            && !Skipped(ConfigOf(dir), shotFilter)
            && |m.fileResults| > 0
            && m.fileResults == Loaded(SortedResults(dir.results.value))
            && Sorted(SortedResults(dir.results.value), ByFileId)
            && multiset(SortedResults(dir.results.value)) == multiset(Globbed(dir.results.value))
  {
    FileIdOrder();
    SortBySorted(Globbed(dir.results.value), ByFileId);
    SortByPermutes(Globbed(dir.results.value), ByFileId);
  }

  // ---------------------------------------------------------------------
  // The collection loops
  // ---------------------------------------------------------------------

  /** The file loop: the loaded files with their ids, and the latest parsed date. */
  method LoadResults(files: seq<ResultFile>, parse: DateParser)
    returns (fileResults: seq<FileResult>, latest: Option<Instant>)
    ensures fileResults == Loaded(files)
    ensures latest == LatestDate(fileResults, parse)
  {
    fileResults, latest := [], None;
    for i := 0 to |files|
      invariant fileResults == Loaded(files[..i])
      invariant latest == LatestDate(fileResults, parse)
    {
      var f := files[i];
      assert files[..i + 1][..i] == files[..i];
      if f.content.Some? {
        var fr := FileResult(ExtractFileId(f.name), f.content.value);
        var d := DateOf(fr, parse);
        if d.Some? {
          if latest.None? {
            latest := d;
          } else {
            var later := Later(d.value, latest.value);
            if later == Some(true) {
              latest := d;
            }
          }
        }
        ghost var prev := fileResults;
        fileResults := fileResults + [fr];
        assert fileResults[..|prev|] == prev;
      }
    }
    assert files[..|files|] == files;
  }

  /** The `edit_types` loop over every file's `by_type`. */
  method AccumulateTypes(frs: seq<FileResult>) returns (editTypes: Dict<string, TypeStats>)
    ensures editTypes == TypeSums(frs)
  {
    editTypes := [];
    for j := 0 to |frs|
      invariant editTypes == Accumulate(TypeEntries(frs[..j]), NoStats, AddFigures)
    {
      var byType := DetailsOf(frs[j]).byType.GetOr([]);
      ghost var before := TypeEntries(frs[..j]);
      assert before + byType[..0] == before;
      for k := 0 to |byType|
        invariant editTypes == Accumulate(before + byType[..k], NoStats, AddFigures)
      {
        var (editType, figures) := byType[k];
        var current := Get(editTypes, editType).GetOr(NoStats);
        AccumulateTypesStep(before, byType, k);
        editTypes := Put(editTypes, editType, AddFigures(current, figures));
      }
      TypeEntriesStep(frs, j);
    }
    assert frs[..|frs|] == frs;
  }

  /** One iteration of the inner loop folds in the next `by_type` entry. */
  lemma AccumulateTypesStep(before: seq<(string, TypeFigures)>, byType: Dict<string, TypeFigures>, k: nat)
    requires k < |byType|
    ensures var d := Accumulate(before + byType[..k], NoStats, AddFigures);
            Accumulate(before + byType[..k + 1], NoStats, AddFigures) ==
              Put(d, byType[k].0, AddFigures(Get(d, byType[k].0).GetOr(NoStats), byType[k].1))
  {
    AccumulateSnoc(before + byType[..k], byType[k], NoStats, AddFigures);
    assert (before + byType[..k]) + [byType[k]] == before + byType[..k + 1];
  }

  /** The entries of one more file follow those of the files before it. */
  lemma TypeEntriesStep(frs: seq<FileResult>, j: nat)
    requires j < |frs|
    ensures TypeEntries(frs[..j + 1]) == TypeEntries(frs[..j]) + DetailsOf(frs[j]).byType.GetOr([])
    ensures var byType := DetailsOf(frs[j]).byType.GetOr([]); byType[..|byType|] == byType
  {
    assert frs[..j + 1][..j] == frs[..j];
  }

  /** The loop that divides each entry's sums by its count, in place. */
  method AverageTypes(editTypes: Dict<string, TypeStats>) returns (averaged: Dict<string, TypeStats>)
    ensures averaged == AverageAll(editTypes)
  {
    averaged := editTypes;
    for i := 0 to |editTypes|
      invariant averaged == AverageAll(editTypes)[..i] + editTypes[i..]
    {
      AverageStep(editTypes, i);
      var (editType, stats) := averaged[i];
      if stats.count > 0 {
        averaged := averaged[i := (editType, Averaged(stats))];
      }
    }
  }

  /** One iteration of the division loop: entry `i` is the next one to average. */
  lemma AverageStep(d: Dict<string, TypeStats>, i: nat)
    requires i < |d|
    ensures var cur := AverageAll(d)[..i] + d[i..];
            && cur[i] == d[i]
            && cur[i := (d[i].0, Averaged(d[i].1))] == AverageAll(d)[..i + 1] + d[i + 1..]
            && (d[i].1.count <= 0 ==> cur == AverageAll(d)[..i + 1] + d[i + 1..])
  {
    var cur := AverageAll(d)[..i] + d[i..];
    var next := AverageAll(d)[..i + 1] + d[i + 1..];
    assert |cur| == |next| == |d|;
    assert cur[i := (d[i].0, Averaged(d[i].1))] == next;
  }

  /** One model directory. */
  method CollectModel(dir: ModelDir, shotFilter: Option<int>, parse: DateParser)
    returns (r: Option<ModelResult>)
    ensures r == ModelResultOf(dir, shotFilter, parse)
  {
    var config := ConfigOf(dir);
    if Skipped(config, shotFilter) || dir.results.None? {
      return None;
    }
    var files := Globbed(dir.results.value);
    if files == [] {
      return None;
    }
    files := SortBy(files, ByFileId);
    var fileResults, latest := LoadResults(files, parse);
    if fileResults == [] {
      return None;
    }
    var displayName := DisplayName(dir.name);
    var truth := Total(fileResults, GroundTruthOf);
    var predicted := Total(fileResults, PredictedOf);
    var correct := Total(fileResults, CorrectOf);
    var scores := MicroScores(correct, predicted, truth);
    var editTypes := AccumulateTypes(fileResults);
    editTypes := AverageTypes(editTypes);
    r := Some(ModelResult(displayName, scores.precision, scores.recall, scores.f1, latest, ReportedShots(config),
                          config, editTypes, correct, truth, predicted, fileResults));
  }

  /** `collect_model_results`: every model directory in order, then the sort by F1. */
  method CollectModelResults(dirs: seq<ModelDir>, shotFilter: Option<int>, parse: DateParser)
    returns (results: seq<ModelResult>)
    ensures results == SortBy(ModelResults(dirs, shotFilter, parse), HigherF1)
  {
    var all: seq<ModelResult> := [];
    for i := 0 to |dirs|
      invariant all == ModelResults(dirs[..i], shotFilter, parse)
    {
      assert dirs[..i + 1][..i] == dirs[..i];
      var r := CollectModel(dirs[i], shotFilter, parse);
      if r.Some? {
        all := all + [r.value];
      }
    }
    assert dirs[..|dirs|] == dirs;
    results := SortBy(all, HigherF1);
  }
}
