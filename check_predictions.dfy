/**
 * The run-balance analysis of `scripts/check_predictions.py`: which prediction
 * files a model directory holds, which questions are missing or have uneven run
 * counts, how many more runs each question needs, and the shell commands that
 * would fill the gaps.
 *
 * The directory walk is abstracted: a model directory is given as the list of
 * names its prediction directory yields (or none when that directory is absent)
 * and the set of names present in its results directory.
 */
module CheckPredictions {
  import opened Wrappers
  import opened Strings
  import opened Sorting
  import opened Dicts

  // ---------------------------------------------------------------------
  // File names
  // ---------------------------------------------------------------------

  const PredictionSuffix: string := "_prediction.json"
  const ResultsSuffix: string := "_results.json"

  /** What `\d+` matches: a non-empty run of digits. */
  predicate DigitGroup(s: string) {
    |s| > 0 && AllDigits(s)
  }

  datatype FileInfo = FileInfo(question: string, run: string, date: string)

  predicate ValidInfo(i: FileInfo) {
    DigitGroup(i.question) && DigitGroup(i.run) && DigitGroup(i.date)
  }

  /** `<question>_<run>_<date>`. */
  function Stem(i: FileInfo): string {
    i.question + "_" + (i.run + "_" + i.date)
  }

  /** The name `<question>_<run>_<date>_prediction.json`. */
  function PredictionName(i: FileInfo): string {
    Stem(i) + PredictionSuffix
  }

  /**
   * `extract_file_info`: the three digit groups of a name matching
   * `^(\d+)_(\d+)_(\d+)_prediction\.json$`, where `$` also accepts one final newline.
   */
  function ExtractFileInfo(filename: string): (r: Option<FileInfo>)
    ensures r.Some? ==> ValidInfo(r.value)
  {
    var body := WithoutFinalNewline(filename);
    if !IsSuffix(PredictionSuffix, body) then None
    else
      var parts := Split(body[..|body| - |PredictionSuffix|], '_');
      if |parts| == 3 && DigitGroup(parts[0]) && DigitGroup(parts[1]) && DigitGroup(parts[2])
      then Some(FileInfo(parts[0], parts[1], parts[2]))
      else None
  }

  /** Whatever `extract_file_info` accepts is a prediction name, possibly followed by a newline. */
  lemma ExtractFileInfoSound(filename: string)
    requires ExtractFileInfo(filename).Some?
    ensures var i := ExtractFileInfo(filename).value;
            filename == PredictionName(i) || filename == PredictionName(i) + "\n"
  {
    var body := WithoutFinalNewline(filename);
    var stem := body[..|body| - |PredictionSuffix|];
    var parts := Split(stem, '_');
    ThreeParts(stem);
    var i := FileInfo(parts[0], parts[1], parts[2]);
    assert ExtractFileInfo(filename) == Some(i);
    assert body == Stem(i) + PredictionSuffix;
  }

  /** A string that splits into three parts is those parts joined by `_`. */
  lemma {:induction false} ThreeParts(stem: string)
    requires |Split(stem, '_')| == 3
    ensures var parts := Split(stem, '_'); stem == parts[0] + "_" + (parts[1] + "_" + parts[2])
  {
    var parts := Split(stem, '_');
    SplitJoin(stem, '_');
    assert parts[1..][1..] == [parts[2]];
    assert Join("_", parts[1..]) == parts[1] + "_" + parts[2];
    assert Join("_", parts) == parts[0] + "_" + Join("_", parts[1..]);
  }

  /** Every prediction name is accepted, with its own three groups. */
  lemma ExtractFileInfoComplete(i: FileInfo, newline: bool)
    requires ValidInfo(i)
    ensures ExtractFileInfo(PredictionName(i) + (if newline then "\n" else "")) == Some(i)
  {
    NameBody(i, newline);
    StemSplit(i);
  }

  lemma NameBody(i: FileInfo, newline: bool)
    ensures var name := PredictionName(i);
            && WithoutFinalNewline(name + (if newline then "\n" else "")) == name
            && IsSuffix(PredictionSuffix, name)
            && name[..|name| - |PredictionSuffix|] == Stem(i)
  {
    var name := PredictionName(i);
    var filename := name + (if newline then "\n" else "");
    assert name[|name| - 1] == 'n';
    if newline {
      assert filename[..|filename| - 1] == name;
    }
    assert name[|name| - |PredictionSuffix|..] == PredictionSuffix;
  }

  lemma StemSplit(i: FileInfo)
    requires ValidInfo(i)
    ensures Split(Stem(i), '_') == [i.question, i.run, i.date]
  {
    SplitAfter(i.question, '_', i.run + "_" + i.date);
    SplitAfter(i.run, '_', i.date);
    SplitWithout(i.date, '_');
  }

  /** `filename.replace("_prediction.json", "_results.json")`. */
  function ResultsFileName(filename: string): string {
    ReplaceAll(filename, PredictionSuffix, ResultsSuffix)
  }

  /** For a prediction name, only the suffix is replaced. */
  lemma ResultsFileNameOf(i: FileInfo)
    requires ValidInfo(i)
    ensures ResultsFileName(PredictionName(i)) == Stem(i) + ResultsSuffix
  {
    var stem := Stem(i);
    NoSuffixInStem(i);
    ReplaceAllSkip(stem, PredictionSuffix, PredictionSuffix, ResultsSuffix);
    assert PredictionSuffix[|PredictionSuffix|..] == [];
  }

  /** No occurrence of `_prediction.json` starts inside the stem. */
  lemma NoSuffixInStem(i: FileInfo)
    requires ValidInfo(i)
    ensures forall k :: 0 <= k < |Stem(i)| ==> !IsPrefix(PredictionSuffix, (Stem(i) + PredictionSuffix)[k..])
  {
    var stem := Stem(i);
    forall k | 0 <= k < |stem| ensures !IsPrefix(PredictionSuffix, (stem + PredictionSuffix)[k..]) {
      var t := (stem + PredictionSuffix)[k..];
      if k + 1 < |stem| {
        assert t[1] == stem[k + 1];
        assert stem[k + 1] != 'p';
      } else {
        assert t[0] == stem[k] == i.date[|i.date| - 1];
      }
    }
  }

  // ---------------------------------------------------------------------
  // analyze_predictions: the per-model accumulation
  // ---------------------------------------------------------------------

  /** The glob `*_prediction.json`. */
  predicate Globbed(filename: string) {
    IsSuffix(PredictionSuffix, filename)
  }

  /** A listed name the loop keeps: selected by the glob and accepted by `extract_file_info`. */
  predicate Kept(filename: string) {
    Globbed(filename) && ExtractFileInfo(filename).Some?
  }

  /** The (question, run) pairs of the kept names, in listing order. */
  function RunEntries(names: seq<string>): (es: seq<(string, string)>)
    ensures forall k :: 0 <= k < |es| ==> DigitGroup(es[k].0) && DigitGroup(es[k].1)
  {
    if names == [] then []
    else
      var name := names[|names| - 1];
      var info := ExtractFileInfo(name);
      RunEntries(names[..|names| - 1]) +
        (if Kept(name) then [(info.value.question, info.value.run)] else [])
  }

  /** The (question, run) pairs of the kept names whose results file is absent, in listing order. */
  function MissingEvaluations(names: seq<string>, results: set<string>): seq<(string, string)>
  {
    if names == [] then []
    else
      var name := names[|names| - 1];
      var info := ExtractFileInfo(name);
      MissingEvaluations(names[..|names| - 1], results) +
        (if Kept(name) && ResultsFileName(name) !in results then [(info.value.question, info.value.run)] else [])
  }

  /** `question_runs[q].sort()` for every question. */
  function SortRuns(d: Dict<string, seq<string>>): (r: Dict<string, seq<string>>)
    ensures |r| == |d|
    ensures forall i :: 0 <= i < |d| ==> r[i] == (d[i].0, SortBy(d[i].1, LexLess))
  {
    seq(|d|, i requires 0 <= i < |d| => (d[i].0, SortBy(d[i].1, LexLess)))
  }

  /** `question_runs` at the end of the analysis of one model. */
  function QuestionRuns(names: seq<string>): Dict<string, seq<string>> {
    SortRuns(GroupBy(RunEntries(names)))
  }

  datatype ModelStats = ModelStats(
    modelId: string,
    displayName: string,
    questionRuns: Dict<string, seq<string>>,
    missingEvaluations: seq<(string, string)>)

  /** The body of the loop over model directories, for one model. */
  method AnalyzeModel(modelId: string, displayName: string, names: seq<string>, results: set<string>)
    returns (stats: ModelStats)
    ensures stats == ModelStats(modelId, displayName, QuestionRuns(names), MissingEvaluations(names, results))
  {
    var grouped, missing := GroupRuns(names, results);
    var questionRuns := SortEachRuns(grouped);
    stats := ModelStats(modelId, displayName, questionRuns, missing);
  }

  /** The loop over the listed prediction files of one model. */
  method GroupRuns(names: seq<string>, results: set<string>)
    returns (questionRuns: Dict<string, seq<string>>, missing: seq<(string, string)>)
    ensures questionRuns == GroupBy(RunEntries(names))
    ensures missing == MissingEvaluations(names, results)
  {
    questionRuns, missing := [], [];
    for j := 0 to |names|
      invariant questionRuns == GroupBy(RunEntries(names[..j]))
      invariant missing == MissingEvaluations(names[..j], results)
    {
      AccumulateStep(names, j, results);
      var filename := names[j];
      if Globbed(filename) {
        var info := ExtractFileInfo(filename);
        if info.Some? {
          assert Kept(filename);
          var entry := (info.value.question, info.value.run);
          GroupBySnoc(RunEntries(names[..j]), entry);
          questionRuns := AppendTo(questionRuns, info.value.question, info.value.run);
          if ResultsFileName(filename) !in results {
            missing := missing + [entry];
          }
        }
      }
    }
    assert names[..|names|] == names;
  }

  /** The loop that sorts every question's runs in place. */
  method SortEachRuns(grouped: Dict<string, seq<string>>) returns (questionRuns: Dict<string, seq<string>>)
    ensures questionRuns == SortRuns(grouped)
  {
    questionRuns := grouped;
    for j := 0 to |questionRuns|
      invariant |questionRuns| == |grouped|
      invariant questionRuns == SortRuns(grouped)[..j] + grouped[j..]
    {
      SortStep(grouped, j);
      questionRuns := questionRuns[j := (questionRuns[j].0, SortBy(questionRuns[j].1, LexLess))];
    }
    assert grouped[|grouped|..] == [];
  }

  /** One more listed name extends both accumulations by that name's entry, if it is kept. */
  lemma AccumulateStep(names: seq<string>, j: nat, results: set<string>)
    requires j < |names|
    ensures !Kept(names[j]) ==>
              && RunEntries(names[..j + 1]) == RunEntries(names[..j])
              && MissingEvaluations(names[..j + 1], results) == MissingEvaluations(names[..j], results)
    ensures Kept(names[j]) ==>
              var entry := (ExtractFileInfo(names[j]).value.question, ExtractFileInfo(names[j]).value.run);
              && RunEntries(names[..j + 1]) == RunEntries(names[..j]) + [entry]
              && MissingEvaluations(names[..j + 1], results) ==
                   MissingEvaluations(names[..j], results) + (if ResultsFileName(names[j]) !in results then [entry] else [])
  {
    assert names[..j + 1][..j] == names[..j];
  }

  /** Sorting position `j` of the partly sorted dictionary advances the sorted prefix. */
  lemma SortStep(grouped: Dict<string, seq<string>>, j: nat)
    requires j < |grouped|
    ensures var d := SortRuns(grouped)[..j] + grouped[j..];
            d[j := (d[j].0, SortBy(d[j].1, LexLess))] == SortRuns(grouped)[..j + 1] + grouped[j + 1..]
  {
  }

  /** Sorting the values looks up the same keys. */
  lemma SortRunsGet(d: Dict<string, seq<string>>, q: string)
    ensures Keys(SortRuns(d)) == Keys(d)
    ensures Get(SortRuns(d), q) == match Get(d, q) case None => None case Some(rs) => Some(SortBy(rs, LexLess))
  {
    assert Keys(SortRuns(d)) == Keys(d);
    FindByKeys(SortRuns(d), d, q);
  }

  /**
   * The questions of one model are those of the kept files, each once and in order
   * of first appearance; each holds exactly that question's runs, sorted.
   */
  lemma QuestionRunsMeaning(names: seq<string>, q: string)
    ensures DistinctKeys(QuestionRuns(names))
    ensures Keys(QuestionRuns(names)) == FirstSeen(Keys(RunEntries(names)))
    ensures q in Keys(RunEntries(names)) <==> Get(QuestionRuns(names), q).Some?
    ensures Get(QuestionRuns(names), q).Some? ==>
              var rs := Get(QuestionRuns(names), q).value;
              Sorted(rs, LexLess) && multiset(rs) == multiset(ValuesOf(RunEntries(names), q))
  {
    var es := RunEntries(names);
    GroupByMeaning(es);
    SortRunsGet(GroupBy(es), q);
    var d := GroupBy(es);
    assert DistinctKeys(QuestionRuns(names)) by {
      forall i, j | 0 <= i < j < |d| ensures SortRuns(d)[i].0 != SortRuns(d)[j].0 {
        assert SortRuns(d)[i].0 == d[i].0;
      }
    }
    if q in Keys(es) {
      LexOrder();
      SortBySorted(ValuesOf(es, q), LexLess);
      SortByPermutes(ValuesOf(es, q), LexLess);
    }
  }

  /** Every question and run the analysis records is a digit group. */
  lemma QuestionRunsDigits(names: seq<string>)
    ensures KeysAreDigits(QuestionRuns(names))
  {
    var es := RunEntries(names);
    GroupByMeaning(es);
    FirstSeenMeaning(Keys(es));
    var qr := QuestionRuns(names);
    forall i | 0 <= i < |qr| ensures DigitGroup(qr[i].0) {
      assert qr[i].0 == Keys(qr)[i];
      assert qr[i].0 in Keys(es);
    }
  }

  /** A model directory: the names under `predictions/eval`, if it exists, and those under `results/eval`. */
  datatype ModelDir = ModelDir(
    name: string,
    displayName: string,
    predictionFiles: Option<seq<string>>,
    resultFiles: set<string>)

  /** `analyze_predictions`: one record per model directory that has a predictions directory. */
  function Analysis(dirs: seq<ModelDir>): seq<ModelStats>
  {
    if dirs == [] then []
    else
      var d := dirs[|dirs| - 1];
      Analysis(dirs[..|dirs| - 1]) +
        match d.predictionFiles
        case None => []
        case Some(names) =>
          [ModelStats(d.name, d.displayName, QuestionRuns(names), MissingEvaluations(names, d.resultFiles))]
  }

  method AnalyzePredictions(dirs: seq<ModelDir>) returns (modelStats: seq<ModelStats>)
    ensures modelStats == Analysis(dirs)
  {
    modelStats := [];
    for j := 0 to |dirs|
      invariant modelStats == Analysis(dirs[..j])
    {
      assert dirs[..j + 1][..j] == dirs[..j];
      var d := dirs[j];
      if d.predictionFiles.Some? {
        var stats := AnalyzeModel(d.name, d.displayName, d.predictionFiles.value, d.resultFiles);
        modelStats := modelStats + [stats];
      }
    }
    assert dirs[..|dirs|] == dirs;
  }

  /** The analysis skips exactly the directories without predictions, and keeps their order. */
  lemma {:induction false} AnalysisCount(dirs: seq<ModelDir>)
    ensures |Analysis(dirs)| <= |dirs|
    ensures forall i :: 0 <= i < |Analysis(dirs)| ==> KeysAreDigits(Analysis(dirs)[i].questionRuns)
  {
    if dirs != [] {
      var d := dirs[|dirs| - 1];
      AnalysisCount(dirs[..|dirs| - 1]);
      if d.predictionFiles.Some? {
        QuestionRunsDigits(d.predictionFiles.value);
      }
    }
  }

  // ---------------------------------------------------------------------
  // find_anomalies
  // ---------------------------------------------------------------------

  /** The question ids are digit groups, so `int(q)` succeeds on each. */
  ghost predicate KeysAreDigits(qr: Dict<string, seq<string>>) {
    forall i :: 0 <= i < |qr| ==> DigitGroup(qr[i].0)
  }

  /** `int(q)` for every question, in order. */
  function QuestionNumbers(qr: Dict<string, seq<string>>): (ns: seq<nat>)
    requires KeysAreDigits(qr)
    ensures |ns| == |qr|
  {
    seq(|qr|, i requires 0 <= i < |qr| && KeysAreDigits(qr) => DigitsValue(qr[i].0))
  }

  function Min(xs: seq<nat>): (m: nat)
    requires |xs| > 0
    ensures m in xs && forall i :: 0 <= i < |xs| ==> m <= xs[i]
  {
    if |xs| == 1 then xs[0]
    else
      var m := Min(xs[..|xs| - 1]);
      assert xs[..|xs| - 1][0] == xs[0];
      if xs[|xs| - 1] < m then xs[|xs| - 1] else m
  }

  function Max(xs: seq<nat>): (m: nat)
    requires |xs| > 0
    ensures m in xs && forall i :: 0 <= i < |xs| ==> xs[i] <= m
  {
    if |xs| == 1 then xs[0]
    else
      var m := Max(xs[..|xs| - 1]);
      assert xs[..|xs| - 1][0] == xs[0];
      if xs[|xs| - 1] > m then xs[|xs| - 1] else m
  }

  /** `set(question_runs.keys())`. */
  function QuestionSet(qr: Dict<string, seq<string>>): set<string> {
    set i | 0 <= i < |qr| :: qr[i].0
  }

  /** `expected_questions - all_questions`: the padded ids between the smallest and largest question. */
  function MissingQuestions(qr: Dict<string, seq<string>>): set<string>
    requires |qr| > 0 && KeysAreDigits(qr)
  {
    var ns := QuestionNumbers(qr);
    var lo, hi := Min(ns), Max(ns);
    (set i: nat | lo <= i <= hi :: Pad3(i)) - QuestionSet(qr)
  }

  /** `run_counts`: each question with its number of runs. */
  function RunCounts(qr: Dict<string, seq<string>>): (rc: Dict<string, nat>)
    ensures |rc| == |qr|
    ensures forall i :: 0 <= i < |qr| ==> rc[i] == (qr[i].0, |qr[i].1|)
  {
    seq(|qr|, i requires 0 <= i < |qr| => (qr[i].0, |qr[i].1|))
  }

  /** `set(run_counts.values())`. */
  function CountValues(qr: Dict<string, seq<string>>): set<nat> {
    set i | 0 <= i < |qr| :: |qr[i].1|
  }

  /** A model is anomalous when a question is missing, counts differ, or a count is below the target. */
  predicate Anomalous(qr: Dict<string, seq<string>>, target: Option<int>)
    requires KeysAreDigits(qr)
  {
    || qr == []
    || MissingQuestions(qr) != {}
    || |CountValues(qr)| > 1
    || (target.Some? && exists c :: c in CountValues(qr) && c < target.value)
  }

  /** `find_anomalies`. */
  method FindAnomalies(stats: ModelStats, target: Option<int>)
    returns (hasAnomalies: bool, missing: set<string>, runCounts: Dict<string, nat>)
    requires KeysAreDigits(stats.questionRuns)
    ensures hasAnomalies == Anomalous(stats.questionRuns, target)
    ensures stats.questionRuns == [] ==> missing == {} && runCounts == []
    ensures stats.questionRuns != [] ==>
              missing == MissingQuestions(stats.questionRuns) && runCounts == RunCounts(stats.questionRuns)
  {
    var qr := stats.questionRuns;
    if qr == [] {
      return true, {}, [];
    }
    hasAnomalies := false;
    missing := MissingQuestions(qr);
    if missing != {} {
      hasAnomalies := true;
    }
    runCounts := RunCounts(qr);
    var countValues := CountValues(qr);
    if |countValues| > 1 {
      hasAnomalies := true;
    }
    ghost var before := hasAnomalies;
    if target.Some? {
      var remaining := countValues;
      while remaining != {}
        invariant remaining <= countValues
        invariant hasAnomalies == before
        invariant forall c :: c in countValues && c !in remaining ==> c >= target.value
        decreases |remaining|
      {
        var c :| c in remaining;
        if c < target.value {
          hasAnomalies := true;
          break;
        }
        remaining := remaining - {c};
      }
    }
  }

  /**
   * A missing question is a padded id of at least three digits whose number lies
   * between the smallest and largest question number, and which is not a question.
   */
  lemma MissingQuestionsMeaning(qr: Dict<string, seq<string>>, q: string)
    requires |qr| > 0 && KeysAreDigits(qr)
    ensures var ns := QuestionNumbers(qr);
            q in MissingQuestions(qr) <==>
              && AllDigits(q) && |q| >= 3 && Min(ns) <= DigitsValue(q) <= Max(ns)
              && q == Pad3(DigitsValue(q)) && q !in QuestionSet(qr)
  {
    var ns := QuestionNumbers(qr);
    if q in MissingQuestions(qr) {
      var i: nat :| Min(ns) <= i <= Max(ns) && q == Pad3(i);
      Pad3Value(i);
    }
    if AllDigits(q) && Min(ns) <= DigitsValue(q) <= Max(ns) && q == Pad3(DigitsValue(q)) && q !in QuestionSet(qr) {
      var i: nat := DigitsValue(q);
      assert q in (set i: nat | Min(ns) <= i <= Max(ns) :: Pad3(i));
    }
  }

  /** A model whose questions all have the target count, padded and consecutive, has no anomaly. */
  lemma BalancedNotAnomalous(qr: Dict<string, seq<string>>, target: int)
    requires |qr| > 0 && KeysAreDigits(qr)
    requires forall i :: 0 <= i < |qr| ==> |qr[i].1| == target
    requires forall n: nat :: Min(QuestionNumbers(qr)) <= n <= Max(QuestionNumbers(qr)) ==> Pad3(n) in QuestionSet(qr)
    ensures !Anomalous(qr, Some(target))
  {
    assert CountValues(qr) == {target} by {
      assert |qr[0].1| in CountValues(qr);
    }
    forall q | q in MissingQuestions(qr) ensures false {
      MissingQuestionsMeaning(qr, q);
    }
  }

  // ---------------------------------------------------------------------
  // find_model_unbalanced_questions
  // ---------------------------------------------------------------------

  /** `count_values`: the run counts, in question order. */
  function Counts(qr: Dict<string, seq<string>>): (cs: seq<nat>)
    ensures |cs| == |qr|
    ensures forall i :: 0 <= i < |qr| ==> cs[i] == |qr[i].1|
  {
    seq(|qr|, i requires 0 <= i < |qr| => |qr[i].1|)
  }

  /** `c` occurs in `xs` at least as often as any other value. */
  ghost predicate IsMostCommon(xs: seq<nat>, c: int) {
    c in xs && forall i :: 0 <= i < |xs| ==> multiset(xs)[xs[i]] <= multiset(xs)[c]
  }

  /**
   * `max(set(xs), key=xs.count)`: the distinct values are visited in the set's
   * iteration order, which is left open here, and a later value replaces the
   * current one only when it is strictly more frequent.
   */
  method MostCommonCount(xs: seq<nat>) returns (c: nat)
    requires |xs| > 0
    ensures IsMostCommon(xs, c)
  {
    var remaining := set x | x in xs;
    assert xs[0] in remaining;
    c :| c in remaining;
    remaining := remaining - {c};
    while remaining != {}
      invariant c in xs
      invariant forall x :: x in remaining ==> x in xs
      invariant forall i :: 0 <= i < |xs| && xs[i] !in remaining ==> multiset(xs)[xs[i]] <= multiset(xs)[c]
      decreases |remaining|
    {
      var v :| v in remaining;
      if multiset(xs)[v] > multiset(xs)[c] {
        c := v;
      }
      remaining := remaining - {v};
    }
  }

  /** `needs_more_runs` after visiting the questions of `qr`, for target `t`. */
  function NeedsMoreRuns(qr: Dict<string, seq<string>>, t: int): Dict<string, int>
  {
    if qr == [] then []
    else
      var needs := NeedsMoreRuns(qr[..|qr| - 1], t);
      var (q, runs) := qr[|qr| - 1];
      if |runs| < t then Put(needs, q, t - |runs|) else needs
  }

  /** `find_model_unbalanced_questions`, with the target it settled on. */
  method FindModelUnbalancedQuestions(stats: ModelStats, targetRuns: int, strict: bool)
    returns (needs: Dict<string, int>, ghost target: int)
    ensures needs == NeedsMoreRuns(stats.questionRuns, target)
    ensures strict ==> target == targetRuns
    ensures !strict && stats.questionRuns != [] ==> IsMostCommon(Counts(stats.questionRuns), target)
    ensures strict ==> needs == NeedsMoreRuns(stats.questionRuns, targetRuns)
    ensures stats.questionRuns == [] ==> needs == []
  {
    var qr := stats.questionRuns;
    needs := [];
    target := targetRuns;
    if qr == [] {
      return;
    }
    var targetCount: int;
    if strict {
      targetCount := targetRuns;
    } else {
      var mostCommon := MostCommonCount(Counts(qr));
      targetCount := mostCommon;
    }
    target := targetCount;
    for j := 0 to |qr|
      invariant needs == NeedsMoreRuns(qr[..j], targetCount)
    {
      NeedsMoreRunsStep(qr, j, targetCount);
      var (q, runs) := qr[j];
      var currentRuns := |runs|;
      if currentRuns < targetCount {
        needs := Put(needs, q, targetCount - currentRuns);
      }
    }
    assert qr[..|qr|] == qr;
  }

  /** One more question extends the shortfalls by that question's, if it has one. */
  lemma NeedsMoreRunsStep(qr: Dict<string, seq<string>>, j: nat, t: int)
    requires j < |qr|
    ensures NeedsMoreRuns(qr[..j + 1], t) ==
              if |qr[j].1| < t then Put(NeedsMoreRuns(qr[..j], t), qr[j].0, t - |qr[j].1|)
              else NeedsMoreRuns(qr[..j], t)
  {
    assert qr[..j + 1][..j] == qr[..j];
  }

  /**
   * The questions that need more runs are exactly those with fewer runs than the
   * target, each mapped to the positive shortfall.
   */
  lemma NeedsMoreRunsMeaning(qr: Dict<string, seq<string>>, t: int, q: string)
    requires DistinctKeys(qr)
    ensures DistinctKeys(NeedsMoreRuns(qr, t))
    ensures Get(NeedsMoreRuns(qr, t), q) ==
              match Get(qr, q)
              case None => None
              case Some(runs) => if |runs| < t then Some(t - |runs|) else None
    ensures forall i :: 0 <= i < |NeedsMoreRuns(qr, t)| ==> NeedsMoreRuns(qr, t)[i].1 > 0
  {
    NeedsMoreRunsShape(qr, t);
    NeedsMoreRunsGet(qr, t, q);
  }

  lemma {:induction false} NeedsMoreRunsShape(qr: Dict<string, seq<string>>, t: int)
    ensures DistinctKeys(NeedsMoreRuns(qr, t))
    ensures forall i :: 0 <= i < |NeedsMoreRuns(qr, t)| ==> NeedsMoreRuns(qr, t)[i].1 > 0
  {
    if qr != [] {
      var init := qr[..|qr| - 1];
      var (k, runs) := qr[|qr| - 1];
      NeedsMoreRunsShape(init, t);
      if |runs| < t {
        PutKeys(NeedsMoreRuns(init, t), k, t - |runs|);
        PutPositive(NeedsMoreRuns(init, t), k, t - |runs|);
      }
    }
  }

  lemma {:induction false} NeedsMoreRunsGet(qr: Dict<string, seq<string>>, t: int, q: string)
    requires DistinctKeys(qr)
    ensures Get(NeedsMoreRuns(qr, t), q) ==
              match Get(qr, q)
              case None => None
              case Some(runs) => if |runs| < t then Some(t - |runs|) else None
  {
    if qr != [] {
      var init := qr[..|qr| - 1];
      var (k, runs) := qr[|qr| - 1];
      GetLast(qr, q);
      NeedsMoreRunsGet(init, t, q);
      NeedsMoreRunsGet(init, t, k);
      if |runs| < t {
        PutGetEither(NeedsMoreRuns(init, t), k, t - |runs|, q);
      }
    }
  }

  /** Putting a positive shortfall keeps every shortfall positive. */
  lemma PutPositive(d: Dict<string, int>, k: string, v: int)
    requires v > 0 && forall i :: 0 <= i < |d| ==> d[i].1 > 0
    ensures forall i :: 0 <= i < |Put(d, k, v)| ==> Put(d, k, v)[i].1 > 0
  {
    var r := Put(d, k, v);
    forall i | 0 <= i < |r| ensures r[i].1 > 0 {
      if i < |d| && r[i] != d[i] { assert r[i] == (k, v); }
    }
  }

  /** With every question at or above the target, nothing needs more runs. */
  lemma {:induction false} NeedsNothing(qr: Dict<string, seq<string>>, t: int)
    requires forall i :: 0 <= i < |qr| ==> |qr[i].1| >= t
    ensures NeedsMoreRuns(qr, t) == []
  {
    if qr != [] {
      NeedsNothing(qr[..|qr| - 1], t);
    }
  }

  /** In standard mode, a model whose questions all have the same number of runs needs none. */
  lemma EvenModelNeedsNothing(qr: Dict<string, seq<string>>, t: nat)
    requires forall i, j :: 0 <= i < j < |qr| ==> |qr[i].1| == |qr[j].1|
    requires IsMostCommon(Counts(qr), t)
    ensures NeedsMoreRuns(qr, t) == []
  {
    var cs := Counts(qr);
    var k :| 0 <= k < |cs| && cs[k] == t;
    forall i | 0 <= i < |qr| ensures |qr[i].1| >= t {
      if i < k { assert |qr[i].1| == |qr[k].1|; }
      else if k < i { assert |qr[k].1| == |qr[i].1|; }
    }
    NeedsNothing(qr, t);
  }

  // ---------------------------------------------------------------------
  // generate_prediction_commands and generate_evaluation_commands
  // ---------------------------------------------------------------------

  const PredictionScript: string := "./scripts/run_prediction.sh "
  const EvaluationScript: string := "./scripts/run_evaluation.sh "

  function PredictionCommand(modelId: string, needs: Dict<string, int>): string {
    PredictionScript + modelId + " --question-ids \"" + Join(",", Keys(needs)) + "\""
  }

  /** `needs` is what `find_model_unbalanced_questions` may return for `stats`. */
  ghost predicate UnbalancedOf(stats: ModelStats, targetRuns: int, strict: bool, needs: Dict<string, int>) {
    exists t: int ::
      && needs == NeedsMoreRuns(stats.questionRuns, t)
      && (strict ==> t == targetRuns)
      && (!strict && stats.questionRuns != [] ==> IsMostCommon(Counts(stats.questionRuns), t))
  }

  /** The (model id, command) pairs appended, for plans of (model id, needs). */
  function PredictionEntries(plans: seq<(string, Dict<string, int>)>): seq<(string, string)>
  {
    if plans == [] then []
    else
      var (id, needs) := plans[|plans| - 1];
      PredictionEntries(plans[..|plans| - 1]) + (if needs != [] then [(id, PredictionCommand(id, needs))] else [])
  }

  lemma PredictionEntriesSnoc(plans: seq<(string, Dict<string, int>)>, p: (string, Dict<string, int>))
    ensures PredictionEntries(plans + [p]) ==
            PredictionEntries(plans) + (if p.1 != [] then [(p.0, PredictionCommand(p.0, p.1))] else [])
  {
    assert (plans + [p])[..|plans|] == plans;
  }

  /** `generate_prediction_commands`, with the needs it computed for each model. */
  method GeneratePredictionCommands(models: seq<ModelStats>, targetRuns: int, strict: bool)
    returns (commands: Dict<string, seq<string>>, ghost plans: seq<(string, Dict<string, int>)>)
    ensures |plans| == |models|
    ensures forall i :: 0 <= i < |models| ==>
              plans[i].0 == models[i].modelId && UnbalancedOf(models[i], targetRuns, strict, plans[i].1)
    ensures commands == GroupBy(PredictionEntries(plans))
  {
    commands := [];
    plans := [];
    for j := 0 to |models|
      invariant |plans| == j
      invariant forall i :: 0 <= i < j ==>
                  plans[i].0 == models[i].modelId && UnbalancedOf(models[i], targetRuns, strict, plans[i].1)
      invariant commands == GroupBy(PredictionEntries(plans))
    {
      var stats := models[j];
      var neededRuns, t := FindModelUnbalancedQuestions(stats, targetRuns, strict);
      assert UnbalancedOf(stats, targetRuns, strict, neededRuns);
      PlansStep(models, targetRuns, strict, plans, neededRuns);
      PredictionCommandsStep(plans, stats.modelId, neededRuns, commands);
      plans := plans + [(stats.modelId, neededRuns)];
      if neededRuns != [] {
        var command := PredictionCommand(stats.modelId, neededRuns);
        commands := AppendTo(commands, stats.modelId, command);
      }
    }
  }

  /** The plans of the first models, extended by the next model's needs. */
  lemma PlansStep(models: seq<ModelStats>, targetRuns: int, strict: bool,
                  plans: seq<(string, Dict<string, int>)>, needs: Dict<string, int>)
    requires |plans| < |models|
    requires forall i :: 0 <= i < |plans| ==>
               plans[i].0 == models[i].modelId && UnbalancedOf(models[i], targetRuns, strict, plans[i].1)
    requires UnbalancedOf(models[|plans|], targetRuns, strict, needs)
    ensures var ps := plans + [(models[|plans|].modelId, needs)];
            forall i :: 0 <= i < |ps| ==> ps[i].0 == models[i].modelId && UnbalancedOf(models[i], targetRuns, strict, ps[i].1)
  {
  }

  /** One more plan appends its command, if it has one, to the grouped commands. */
  lemma PredictionCommandsStep(prev: seq<(string, Dict<string, int>)>, id: string, needs: Dict<string, int>,
                               commands: Dict<string, seq<string>>)
    requires commands == GroupBy(PredictionEntries(prev))
    ensures GroupBy(PredictionEntries(prev + [(id, needs)])) ==
            if needs != [] then AppendTo(commands, id, PredictionCommand(id, needs)) else commands
  {
    PredictionEntriesSnoc(prev, (id, needs));
    if needs != [] {
      GroupBySnoc(PredictionEntries(prev), (id, PredictionCommand(id, needs)));
    } else {
      assert PredictionEntries(prev + [(id, needs)]) == PredictionEntries(prev);
    }
  }

  /** A model id receives a command exactly when some model with that id needs more runs. */
  lemma {:induction false} PredictionEntriesIds(plans: seq<(string, Dict<string, int>)>, id: string)
    ensures id in Keys(PredictionEntries(plans)) <==> exists i :: 0 <= i < |plans| && plans[i].0 == id && plans[i].1 != []
  {
    if plans != [] {
      var init := plans[..|plans| - 1];
      PredictionEntriesIds(init, id);
      var es := PredictionEntries(plans);
      var prev := PredictionEntries(init);
      assert Keys(prev) == Keys(es)[..|prev|];
      if (exists i :: 0 <= i < |plans| && plans[i].0 == id && plans[i].1 != []) {
        var i :| 0 <= i < |plans| && plans[i].0 == id && plans[i].1 != [];
        if i < |init| {
          assert init[i] == plans[i];
          assert id in Keys(prev);
        } else {
          assert es[|es| - 1].0 == id;
        }
      }
      if id in Keys(es) {
        var k :| 0 <= k < |es| && Keys(es)[k] == id;
        if k < |prev| {
          assert Keys(prev)[k] == id;
          var i :| 0 <= i < |init| && init[i].0 == id && init[i].1 != [];
          assert plans[i] == init[i];
        } else {
          assert plans[|plans| - 1].0 == id && plans[|plans| - 1].1 != [];
        }
      }
    }
  }

  /** Every command is the one built from some model's needs. */
  lemma {:induction false} PredictionEntriesFrom(plans: seq<(string, Dict<string, int>)>)
    ensures forall k :: 0 <= k < |PredictionEntries(plans)| ==>
              exists i :: 0 <= i < |plans| && PredictionEntries(plans)[k] == (plans[i].0, PredictionCommand(plans[i].0, plans[i].1))
  {
    if plans != [] {
      var init := plans[..|plans| - 1];
      PredictionEntriesFrom(init);
      var es := PredictionEntries(plans);
      var prev := PredictionEntries(init);
      var last := plans[|plans| - 1];
      assert es == prev + (if last.1 != [] then [(last.0, PredictionCommand(last.0, last.1))] else []);
      forall k | 0 <= k < |es|
        ensures exists i :: 0 <= i < |plans| && es[k] == (plans[i].0, PredictionCommand(plans[i].0, plans[i].1))
      {
        if k < |prev| {
          var i :| 0 <= i < |init| && prev[k] == (init[i].0, PredictionCommand(init[i].0, init[i].1));
          assert plans[i] == init[i];
        } else {
          assert es[k] == (plans[|plans| - 1].0, PredictionCommand(plans[|plans| - 1].0, plans[|plans| - 1].1));
        }
      }
    } else {
      assert PredictionEntries(plans) == [];
    }
  }

  function EvaluationCommand(stats: ModelStats): string {
    EvaluationScript + stats.modelId + " --question-ids \"" + Join(",", Keys(GroupBy(stats.missingEvaluations))) + "\" --force"
  }

  /** The command lists each question with a missing evaluation once, in order of first appearance. */
  lemma EvaluationCommandQuestions(stats: ModelStats)
    ensures EvaluationCommand(stats) ==
            EvaluationScript + stats.modelId + " --question-ids \"" +
            Join(",", FirstSeen(Keys(stats.missingEvaluations))) + "\" --force"
  {
    GroupByMeaning(stats.missingEvaluations);
  }

  /** The (model id, command) pairs appended for the models with missing evaluations. */
  function EvaluationEntries(models: seq<ModelStats>): seq<(string, string)>
  {
    if models == [] then []
    else
      var stats := models[|models| - 1];
      EvaluationEntries(models[..|models| - 1]) +
        (if stats.missingEvaluations != [] then [(stats.modelId, EvaluationCommand(stats))] else [])
  }

  /** `generate_evaluation_commands`. */
  method GenerateEvaluationCommands(models: seq<ModelStats>) returns (commands: Dict<string, seq<string>>)
    ensures commands == GroupBy(EvaluationEntries(models))
  {
    commands := [];
    for j := 0 to |models|
      invariant commands == GroupBy(EvaluationEntries(models[..j]))
    {
      assert models[..j + 1][..j] == models[..j];
      var stats := models[j];
      assert EvaluationEntries(models[..j + 1]) == EvaluationEntries(models[..j]) +
        (if stats.missingEvaluations != [] then [(stats.modelId, EvaluationCommand(stats))] else []);
      if stats.missingEvaluations != [] {
        var missingByQuestion: Dict<string, seq<string>> := [];
        var missing := stats.missingEvaluations;
        for k := 0 to |missing|
          invariant missingByQuestion == GroupBy(missing[..k])
        {
          assert missing[..k + 1][..k] == missing[..k];
          var (questionId, runId) := missing[k];
          missingByQuestion := AppendTo(missingByQuestion, questionId, runId);
        }
        assert missing[..|missing|] == missing;
        var questionIds := Join(",", Keys(missingByQuestion));
        var command := EvaluationScript + stats.modelId + " --question-ids \"" + questionIds + "\" --force";
        assert command == EvaluationCommand(stats);
        GroupBySnoc(EvaluationEntries(models[..j]), (stats.modelId, command));
        commands := AppendTo(commands, stats.modelId, command);
      } else {
        assert EvaluationEntries(models[..j + 1]) == EvaluationEntries(models[..j]);
      }
    }
    assert models[..|models|] == models;
  }

  /** A model id receives an evaluation command exactly when one of its models misses an evaluation. */
  lemma {:induction false} EvaluationEntriesIds(models: seq<ModelStats>, id: string)
    ensures id in Keys(EvaluationEntries(models)) <==>
            exists i :: 0 <= i < |models| && models[i].modelId == id && models[i].missingEvaluations != []
  {
    if models != [] {
      var init := models[..|models| - 1];
      EvaluationEntriesIds(init, id);
      var es := EvaluationEntries(models);
      var prev := EvaluationEntries(init);
      assert Keys(prev) == Keys(es)[..|prev|];
      if (exists i :: 0 <= i < |models| && models[i].modelId == id && models[i].missingEvaluations != []) {
        var i :| 0 <= i < |models| && models[i].modelId == id && models[i].missingEvaluations != [];
        if i < |init| {
          assert init[i] == models[i];
          assert id in Keys(prev);
        } else {
          assert es[|es| - 1].0 == id;
        }
      }
      if id in Keys(es) {
        var k :| 0 <= k < |es| && Keys(es)[k] == id;
        if k < |prev| {
          assert Keys(prev)[k] == id;
          var i :| 0 <= i < |init| && init[i].modelId == id && init[i].missingEvaluations != [];
          assert models[i] == init[i];
        }
      }
    }
  }
}
