# Little Dorrit Editor — a Dafny model of the scoring pipeline

The Little Dorrit Editor benchmark asks multimodal models to read a scanned page of
*Little Dorrit* with handwritten editorial marks and to list the edits as records
(type, original text, corrected text, line number). This project models, in Dafny,
the logic that scores those predictions and the bookkeeping around it:

- **Data model** (`types.dfy`): the seven edit types, edit operations, annotations and
  the `EditMatch` records with their tp/fp/fn weights.
- **Matching** (`matching.dfy`): `match_edits` drops predictions without a line number,
  then pairs each ground-truth edit, in order, with the first unused prediction of the
  same type (ignoring case) within three lines whose texts overlap.
- **Evaluation** (`evaluate.dfy`, `evaluation_facts.dfy`): `evaluate` refines the greedy
  pairs with a judge verdict and the line penalty `min(1, 0.1·d²)` and emits the
  `EditMatch` records: accepted pairs, then false positives, then false negatives.
- **Metrics** (`metrics.dfy`): the precision, recall and F1 reductions of
  `display_results` and `calculate_metrics`, overall and per edit type.
- **Run-balance analysis** (`check_predictions.dfy`): the prediction file-name parser,
  the per-model question/run accumulation, anomaly detection, the "how many more runs"
  computation and the generated fix commands.
- **Site results** (`site_results.dfy`): file ids, the shot filter, micro-summed scores,
  count-weighted per-type averages, display names and the F1 ranking.
- **Leaderboard** (`leaderboard.dfy`): the replace-or-append update sorted by F1, and
  the ranks and medals of the HTML table.
- **Model table** (`config.dfy`): `ConfigManager`, a class whose model map is filled
  from the TOML tables, with `${NAME}` API-key placeholders resolved against an
  environment map.
- **JSON extraction** (`json_extract.dfy`): the cascade that tries the whole reply,
  then fenced code blocks in order, then the first-`{`-to-last-`}` span.

Shared helpers: `wrappers.dfy` (Option, Result), `strings.dfy` (ASCII character
classes, splitting, joining, stripping, padding, string order), `sorting.dfy` (a
stable insertion sort standing for Python's `sort`) and `dicts.dfy` (Python's
insertion-ordered `dict` as an association list).

The LLM judge is a function parameter that answers, for a ground-truth edit and a
prediction, an optional `is_correct` and an optional `reasoning`.
`json.loads`, `datetime.fromisoformat` and the date formatting of the leaderboard are
function parameters too. The environment is a map. Directory listings are given as
sequences of names. Python floats are Dafny `real`s.

Matching is a greedy first-fit pass. The judge's score is recorded but no threshold is
applied to it. The code computes no confidence intervals. `EditType` has seven values,
`reordering` included (little_dorrit_editor/types.py:8-17).

## Model

| member | source | states |
|---|---|---|
| Types.EditTypesEnumerated | little_dorrit_editor/types.py:8-17 | the enumeration has exactly seven members, every edit type is one of them, and their string values are pairwise distinct |
| Types.EditTypeIndex | little_dorrit_editor/types.py:8-17 | every edit type has a position in the declared member order |
| Types.ParseEditTypeExact | little_dorrit_editor/types.py:8-17 | looking a string up by value gives a member exactly when the string is that member's value; value then lookup is the identity |
| Types.NonValuesRejected | little_dorrit_editor/types.py:8-17 | lookup is case-sensitive and total: "Punctuation", "unknown" and "" are not values |
| Types.ValidateOperation | little_dorrit_editor/types.py:60-69 | an edit validates exactly when `type`, `original_text` and `corrected_text` are present; every field is then copied unchanged |
| Types.ValidateEdits | little_dorrit_editor/types.py:80 | a list of edits validates exactly when each edit does; the result has one validated edit per raw edit, in order |
| Types.ValidateAnnotation | little_dorrit_editor/types.py:72-93 | an annotation validates exactly when `image`, `page_number` and `edits` are present, `source` is absent or the literal "Little Dorrit", and every edit validates; the record then carries the literal source, exactly the validated edits in order, and the raw image, page number, annotator, date, verification flag, error and raw response |
| Types.NewEditMatch | little_dorrit_editor/types.py:20-43 | only the three weights are required; the line penalty defaults to 0.0 and every optional field to None |
| Matching.TestPair | little_dorrit_editor/evaluate.py:153-163 | a pair is a candidate exactly when the types agree ignoring case, both line numbers exist and are at most 3 apart, and one text contains the other (original or corrected, either way); a `TypeError` exactly when the types agree and a line number is missing |
| Matching.EmptyTextOverlaps | little_dorrit_editor/evaluate.py:157-162 | an empty text on either side always passes the containment test |
| Matching.Filtered | little_dorrit_editor/evaluate.py:130-137 | the kept predictions all carry a line number and are no more than the input |
| Matching.FilteredKeepsExactly | little_dorrit_editor/evaluate.py:130-137 | kept plus skipped is the number of predictions; every prediction with a line number is kept and nothing else appears |
| Matching.FilteredConcat | little_dorrit_editor/evaluate.py:130-137 | filtering distributes over concatenation, so order is kept |
| Matching.FilteredAllLines | little_dorrit_editor/evaluate.py:130-137 | predictions that all carry line numbers pass unchanged |
| Matching.FirstFit | little_dorrit_editor/evaluate.py:151-167 | the scan stops at the first unused prediction that is a candidate, with only non-candidates before it; finds nothing exactly when every unused prediction is a non-candidate; raises only where some unused prediction faults |
| Matching.Greedy | little_dorrit_editor/evaluate.py:145-172 | the unused predictions stay indices of the filtered list |
| Matching.GreedyWellFormed | little_dorrit_editor/evaluate.py:145-172 | after each ground-truth edit: every matched pair is a candidate; ground-truth edits split into matched and unmatched, each exactly once, in order; predictions split into matched and unused, each exactly once, in order; no unmatched edit has a candidate among the unused predictions |
| Matching.StepKeepsWellFormed | little_dorrit_editor/evaluate.py:149-170 | processing one more ground-truth edit keeps that invariant |
| Matching.StepFound | little_dorrit_editor/evaluate.py:164-167 | taking the first candidate out of the pool keeps the invariant |
| Matching.StepNoneFound | little_dorrit_editor/evaluate.py:169-170 | recording an unmatched edit keeps the invariant |
| Matching.NoneFoundMaximal | little_dorrit_editor/evaluate.py:169-170 | an edit recorded as unmatched has no candidate among the unused predictions |
| Matching.InitialWellFormed | little_dorrit_editor/evaluate.py:145-147 | the start state (nothing matched, every filtered prediction unused) meets the invariant |
| Matching.GreedyPrevious | little_dorrit_editor/evaluate.py:149 | a successful state after n edits comes from a successful state after n - 1 and one step |
| Matching.GreedyFailurePersists | little_dorrit_editor/evaluate.py:155 | once an edit raises, the whole pass ends with that error |
| Matching.MatchingCounts | little_dorrit_editor/evaluate.py:145-172 | \|TP\| + \|FN\| = \|GT\| and \|TP\| + \|FP\| = number of filtered predictions; matched ground-truth edits come in list order |
| Matching.FaultMeansMissingLine | little_dorrit_editor/evaluate.py:153-155 | the `TypeError` happens exactly for a ground-truth edit without a line number that meets an unused prediction of its type; such an edit is never matched |
| Matching.MatchEdits | little_dorrit_editor/evaluate.py:114-172 | the imperative pass returns the filtered predictions, the skipped count and exactly the greedy assignment (or its error) |
| Matching.GreedyNext | little_dorrit_editor/evaluate.py:149-170 | one more iteration of the outer loop is one more step of the specification |
| Matching.DropUnnumbered | little_dorrit_editor/evaluate.py:130-137 | the first loop yields exactly the filtered list and the skipped count |
| Matching.ScanPool | little_dorrit_editor/evaluate.py:151-167 | the inner loop stops exactly where the specification's scan does |
| Evaluate.Penalty | little_dorrit_editor/evaluate.py:285-297 | the line penalty lies between 0 and 1 |
| Evaluate.PenaltyTable | little_dorrit_editor/evaluate.py:285-297 | 0, 1, 2 and 3 lines off cost 0, 0.1, 0.4 and 0.9; four or more lines cost the full 1.0 |
| Evaluate.PenaltyBelowOne | little_dorrit_editor/evaluate.py:297 | the penalty is below 1 exactly when the lines are at most 3 apart |
| Evaluate.Score | little_dorrit_editor/evaluate.py:405 | the score is never negative, and is one minus the penalty for any penalty up to 1 |
| Evaluate.CandidateVerdict | little_dorrit_editor/evaluate.py:369 | for a pair that passed the ±3-line candidate test, the penalty half of the combined condition never rejects: the judge decides alone |
| Evaluate.Occurrences | little_dorrit_editor/evaluate.py:331-333 | every ground-truth edit of a pair has a counter |
| Evaluate.OccurrencesOfDistinct | little_dorrit_editor/evaluate.py:331-333 | when the pairs' ground-truth edits are distinct, each counter is exactly 1 and only those edits are counted |
| Evaluate.CountPairs | little_dorrit_editor/evaluate.py:331-333 | the counting loop builds exactly the occurrence counts |
| Evaluate.RefineStep | little_dorrit_editor/evaluate.py:371-388 | one iteration of the refinement never adds or removes a counter |
| Evaluate.RefineSpec | little_dorrit_editor/evaluate.py:342-388 | refining a list of pairs keeps the set of counters |
| Evaluate.RefineSnoc | little_dorrit_editor/evaluate.py:342-388 | processing one more pair is one more refinement step |
| Evaluate.Accepted | little_dorrit_editor/evaluate.py:387-388 | the accepted pairs are no more than, and all among, the pairs |
| Evaluate.Rejected | little_dorrit_editor/evaluate.py:371-385 | accepted plus rejected is every pair, and rejected pairs are among the pairs |
| Evaluate.LastGtFresh | little_dorrit_editor/evaluate.py:331-333 | with distinct ground-truth edits, the last pair's edit occurs in no earlier pair |
| Evaluate.RefineCounts | little_dorrit_editor/evaluate.py:375-377 | refinement leaves the counter of an edit it never processes unchanged |
| Evaluate.RefinePartition | little_dorrit_editor/evaluate.py:342-388 | with one pair per ground-truth edit, the kept pairs are the accepted ones in order, and each rejected pair's prediction is appended to the false positives and its edit to the false negatives, in order |
| Evaluate.CandidatesLined | little_dorrit_editor/evaluate.py:153-155 | candidate pairs index the edit lists and carry line numbers on both sides |
| Evaluate.JudgeDecides | little_dorrit_editor/evaluate.py:355-369 | for matched pairs, the kept pairs are exactly those the judge calls correct (a missing `is_correct` counts as false) |
| Evaluate.JudgePair | little_dorrit_editor/evaluate.py:355-369 | the combined condition: the judge says correct and the penalty is below the full 1.0 |
| Evaluate.RefineAdvance | little_dorrit_editor/evaluate.py:343-388 | one loop iteration moves the loop variables to the next specification state: an accepted pair is stepped over, a rejected one popped at `i` with its counter decremented |
| Evaluate.RefineMatches | little_dorrit_editor/evaluate.py:325-388 | the `while` loop ends in exactly the specification's refined state |
| Evaluate.RefineDone | little_dorrit_editor/evaluate.py:343 | when `i` reaches the end of the remaining list every pair has been processed |
| Evaluate.TypeOf | little_dorrit_editor/evaluate.py:417 | `EditType(...)` succeeds exactly for one of the seven values, and the member's value is the string; otherwise a `ValueError` naming the string |
| Evaluate.MatchedRecord | little_dorrit_editor/evaluate.py:391-426 | an accepted pair's record has tp + fp + fn = 1, tp = 1 - penalty, fp = fn, both edit numbers equal the running index, the prediction's type and line; it fails exactly when the prediction's type is no edit type |
| Evaluate.FalsePositiveRecord | little_dorrit_editor/evaluate.py:433-449 | a false positive's record has fp = 1, tp = fn = 0, an observed number and no expected number, no penalty or line diff, and the prediction's type |
| Evaluate.FalseNegativeRecord | little_dorrit_editor/evaluate.py:452-468 | a false negative's record has fn = 1, tp = fp = 0, an expected number and no observed number or line, no penalty, and the ground truth's type |
| Evaluate.MatchedRecords | little_dorrit_editor/evaluate.py:391-426 | one record per accepted pair |
| Evaluate.FalsePositiveRecords | little_dorrit_editor/evaluate.py:433-449 | one record per false positive |
| Evaluate.FalseNegativeRecords | little_dorrit_editor/evaluate.py:452-468 | one record per false negative |
| Evaluate.RecordsOf | little_dorrit_editor/evaluate.py:391-468 | one record per kept pair, false positive and false negative |
| Evaluate.RefineEmittable | little_dorrit_editor/evaluate.py:342-388 | refinement only moves indices between lists, so every index stays in range |
| Evaluate.EmitMatched | little_dorrit_editor/evaluate.py:391-426 | the second pass builds exactly the accepted records in order, or raises at the first prediction with a non-enum type |
| Evaluate.EmitFalsePositives | little_dorrit_editor/evaluate.py:433-449 | the false-positive loop appends exactly their records, numbered on from the accepted count |
| Evaluate.EmitFalseNegatives | little_dorrit_editor/evaluate.py:452-468 | the false-negative loop appends exactly their records, also numbered on from the accepted count |
| Evaluate.EmitRecords | little_dorrit_editor/evaluate.py:391-468 | the three loops together yield all records in emission order, or the first error |
| Evaluate.MatchedLined | little_dorrit_editor/evaluate.py:311-313 | the assignment gives refinement and emission in-range indices and lined pairs |
| Evaluate.Annotator | little_dorrit_editor/evaluate.py:474 | an absent or empty annotator falls back to the model name; otherwise it is kept |
| Evaluate.Evaluate | little_dorrit_editor/evaluate.py:267-479 | matching, refinement and emission in turn give exactly the specified evaluation result or its first error |
| EvaluationFacts.MatchedDetail | little_dorrit_editor/evaluate.py:391-426 | the first records of a successful emission are the accepted pairs' records, numbered from 0 |
| EvaluationFacts.FalsePositiveDetail | little_dorrit_editor/evaluate.py:433-449 | the next records are the false positives', numbered on from the accepted count |
| EvaluationFacts.FalsePositiveRecordAt | little_dorrit_editor/evaluate.py:433-449 | position i of the emission order, past the accepted pairs, holds the record of the matching false positive |
| EvaluationFacts.FalseNegativeDetail | little_dorrit_editor/evaluate.py:452-468 | the last records are the false negatives', numbered on from the accepted count as well |
| EvaluationFacts.RecordsShape | little_dorrit_editor/evaluate.py:391-468 | the emitted list has one record per kept pair, false positive and false negative; every record's weights are non-negative and add up to 1; the numbering and weights of each of the three runs |
| EvaluationFacts.RecordsKinds | little_dorrit_editor/evaluate.py:411-466 | matched records carry both edit numbers, false positives only the observed one, false negatives only the expected one |
| EvaluationFacts.RecordsCounts | little_dorrit_editor/evaluate.py:411-466 | records with an expected number are the kept pairs plus the false negatives; records with an observed number are the kept pairs plus the false positives |
| EvaluationFacts.CountsOfKinds | little_dorrit_editor/evaluate.py:411-466 | counting records by which edit numbers they carry, over the three runs |
| EvaluationFacts.ThreeRuns | little_dorrit_editor/evaluate.py:433-468 | a count over the records is the sum over the three runs |
| EvaluationFacts.RefinedOfMatching | little_dorrit_editor/evaluate.py:311-388 | after refinement, kept pairs plus false negatives number the ground-truth edits, kept pairs plus false positives number the filtered predictions, and every kept pair was matched |
| EvaluationFacts.EvaluationCounts | little_dorrit_editor/evaluate.py:267-479 | in a successful result, the records with an expected number are exactly as many as the ground-truth edits, those with an observed number as many as the predictions with a line number; each record keeps tp + fp + fn = 1, so the totals add up to the record count |
| EvaluationFacts.KeptWithinThreeLines | little_dorrit_editor/evaluate.py:155 | an accepted pair's line numbers are at most 3 apart, so its penalty is at most 0.9 |
| EvaluationFacts.EvaluationMatchedScores | little_dorrit_editor/evaluate.py:405-416 | every record with both edit numbers scores between 0.1 and 1, and fp = fn = (1 - tp) / 2 |
| Metrics.Ratio | little_dorrit_editor/evaluate.py:496-497 | a ratio is 0 when its denominator is not positive, and otherwise times the denominator gives back the numerator |
| Metrics.RatioBounds | little_dorrit_editor/evaluate.py:496-497 | a part of a non-negative whole is a fraction between 0 and 1 |
| Metrics.F1Bounds | little_dorrit_editor/evaluate.py:498 | the F1 of two fractions is a fraction, and 0 exactly when either is 0 |
| Metrics.SumsOfUnitWeights | little_dorrit_editor/evaluate.py:491-493 | when every record's weights add up to 1, the three totals add up to the number of records |
| Metrics.SumsNonNegative | little_dorrit_editor/evaluate.py:491-493 | non-negative weights give non-negative totals |
| Metrics.CountWhere | little_dorrit_editor/evaluate.py:501-502 | a count of records is at most the number of records |
| Metrics.CountWhereConcat | little_dorrit_editor/evaluate.py:501-502 | counting distributes over concatenation |
| Metrics.CountWhereAll | little_dorrit_editor/evaluate.py:501-502 | when every record qualifies, all are counted |
| Metrics.CountWhereNone | little_dorrit_editor/evaluate.py:501-502 | when none qualifies, the count is 0 |
| Metrics.SummaryBounds | little_dorrit_editor/evaluate.py:488-512 | on records with non-negative weights, precision, recall and F1 are fractions and "Correct / Total" count at most all records |
| Metrics.SummaryOfNoTp | little_dorrit_editor/evaluate.py:496-498 | with a zero tp total all three scores are 0 |
| Metrics.TallyByTypeMeaning | little_dorrit_editor/evaluate.py:517-532 | the per-type dictionary's keys are the types that occur, once each, in order of first appearance; each entry sums that type's weights and counts its records with an expected edit number |
| Metrics.NoneOfType | little_dorrit_editor/evaluate.py:517-532 | a type that never occurs has no records |
| Metrics.TallyTypes | little_dorrit_editor/evaluate.py:517-532 | the loop builds exactly that dictionary |
| Metrics.TypeRowBounds | little_dorrit_editor/evaluate.py:542-545 | each type's precision, recall and F1 are fractions when its summed weights are non-negative |
| Metrics.CountCorrect | little_dorrit_editor/evaluate.py:196 | at most every judgment is counted correct (`is_correct_with_penalty`, else `is_correct`) |
| Metrics.ScoresOf | little_dorrit_editor/evaluate.py:199-207 | all three scores are 0 when the summed score is 0; otherwise precision times (judged + false positives) and recall times (judged + false negatives) give back the summed score |
| Metrics.SumScoresBounds | little_dorrit_editor/evaluate.py:193 | scores between 0 and 1 sum to between 0 and the number of judgments |
| Metrics.ScoresBounds | little_dorrit_editor/evaluate.py:193-207 | with scores between 0 and 1, the score-weighted precision, recall and F1 are fractions |
| Metrics.EditsOfType | little_dorrit_editor/evaluate.py:226-227 | the edits kept all have the lower-cased type asked for, and are no more than the input |
| Metrics.JudgmentsOfType | little_dorrit_editor/evaluate.py:221-225 | the zipped filter keeps no more than either list (`zip` stops at the shorter) |
| Metrics.TypeMetricsOf | little_dorrit_editor/evaluate.py:219-254 | a type's count is its judged pairs plus its false negatives |
| Metrics.CalculateMetrics | little_dorrit_editor/evaluate.py:175-264 | the per-type keys are exactly the lower-cased types of the pairs' ground truth, the false positives and the false negatives; the ground-truth total is pairs plus false negatives, the predicted total pairs plus false positives; at most every judgment is correct |
| Metrics.CalculateMetricsZero | little_dorrit_editor/evaluate.py:199-202 | a zero summed score gives zero overall figures |
| Metrics.TypeCountIsGroundTruth | little_dorrit_editor/evaluate.py:221-253 | with one judgment per pair, a type's count is the number of its ground-truth edits among the pairs and the false negatives |
| Metrics.GroundTruthOf | little_dorrit_editor/evaluate.py:223 | the ground-truth side of each pair, in order |
| Metrics.JudgmentsOfTypeCount | little_dorrit_editor/evaluate.py:221-225 | with one judgment per pair, the zipped filter keeps as many judgments as there are pairs of that type |
| Metrics.EditsOfTypeCons | little_dorrit_editor/evaluate.py:226-227 | filtering from the front counts the same |
| CheckPredictions.ExtractFileInfoSound | scripts/check_predictions.py:83-90 | every name the pattern accepts is `<question>_<run>_<date>_prediction.json` built from the three digit groups it returns, possibly followed by one newline |
| CheckPredictions.ExtractFileInfoComplete | scripts/check_predictions.py:83-90 | every prediction name built from three digit groups, with or without a final newline, is accepted and yields exactly those groups |
| CheckPredictions.ResultsFileNameOf | scripts/check_predictions.py:141 | for a prediction file the replacement touches only the suffix: the results file is the same stem followed by `_results.json` |
| CheckPredictions.GroupRuns | scripts/check_predictions.py:129-143 | the loop over the globbed names groups the runs of the accepted names by question and collects, in listing order, the pairs whose results file is absent |
| CheckPredictions.SortEachRuns | scripts/check_predictions.py:145-147 | after the in-place sorting loop every question holds its runs sorted, under the same keys in the same order |
| CheckPredictions.AnalyzeModel | scripts/check_predictions.py:113-157 | the record built for one model directory holds its id, display name, sorted question runs and missing evaluations |
| CheckPredictions.QuestionRunsMeaning | scripts/check_predictions.py:126-147 | the questions of a model are those of its accepted files, each once and in order of first appearance, and each maps to exactly that question's runs, sorted |
| CheckPredictions.QuestionRunsDigits | scripts/check_predictions.py:83-90 | every recorded question and run is a non-empty run of digits, so the later `int(q)` cannot fail |
| CheckPredictions.AnalyzePredictions | scripts/check_predictions.py:106-158 | the loop over model directories yields one record per directory whose predictions directory exists, in directory order |
| CheckPredictions.AnalysisCount | scripts/check_predictions.py:121-123 | the analysis yields at most one record per directory, and every record's question ids are digit groups |
| CheckPredictions.FindAnomalies | scripts/check_predictions.py:161-200 | a model is flagged exactly when it has no questions, a padded id between its smallest and largest question is missing, its run counts differ, or a count is below the given target; the missing ids and per-question counts are returned alongside |
| CheckPredictions.MissingQuestionsMeaning | scripts/check_predictions.py:177-181 | an id is reported missing exactly when it is a three-digit-padded number between the smallest and largest question number that is not itself a question |
| CheckPredictions.BalancedNotAnomalous | scripts/check_predictions.py:161-200 | a model with consecutive padded questions all at the target count is not flagged |
| CheckPredictions.MostCommonCount | scripts/check_predictions.py:341 | the count chosen occurs and no other count occurs more often, whatever order the set of counts is visited in |
| CheckPredictions.FindModelUnbalancedQuestions | scripts/check_predictions.py:310-350 | the shortfalls are computed against the given target in strict mode and against a most common run count otherwise; a model without questions needs nothing |
| CheckPredictions.NeedsMoreRunsMeaning | scripts/check_predictions.py:345-348 | exactly the questions with fewer runs than the target need more runs, each by its positive shortfall, and each question appears once |
| CheckPredictions.NeedsNothing | scripts/check_predictions.py:345-348 | when every question has at least the target count nothing needs more runs |
| CheckPredictions.EvenModelNeedsNothing | scripts/check_predictions.py:336-348 | in standard mode a model whose questions all have the same number of runs needs no more runs |
| CheckPredictions.GeneratePredictionCommands | scripts/check_predictions.py:353-378 | each model's shortfalls are those `find_model_unbalanced_questions` may return; models needing runs get one `run_prediction.sh` command listing those questions, grouped by model id in order |
| CheckPredictions.PredictionEntriesIds | scripts/check_predictions.py:366-376 | a model id receives a prediction command exactly when one of its models needs more runs |
| CheckPredictions.PredictionEntriesFrom | scripts/check_predictions.py:366-376 | every prediction command is the one built from some model's shortfalls |
| CheckPredictions.EvaluationCommandQuestions | scripts/check_predictions.py:395-404 | an evaluation command lists each question with a missing evaluation once, in order of first appearance, and ends with `--force` |
| CheckPredictions.GenerateEvaluationCommands | scripts/check_predictions.py:381-407 | models with missing evaluations each get one `run_evaluation.sh` command, grouped by model id in order |
| CheckPredictions.EvaluationEntriesIds | scripts/check_predictions.py:392-405 | a model id receives an evaluation command exactly when one of its models misses an evaluation |
| SiteResults.MatchResultsName | scripts/build_site_results.py:27-29 | a match yields a digit group followed by `_` at the start of the name |
| SiteResults.ExtractFileIdOfMatch | scripts/build_site_results.py:18-30 | a name `<question>_<run>_<date>_results.json`, with anything after it, has its question as file id |
| SiteResults.ExtractFileIdNoUnderscore | scripts/build_site_results.py:18-30 | a file id never contains `_` |
| SiteResults.ExtractFileIdFirstSegment | scripts/build_site_results.py:27-30 | the match never changes the answer: the file id is always the first `_`-separated segment of the name's stem |
| SiteResults.ShotFilterMeaning | scripts/build_site_results.py:97-100 | without a filter no model is skipped; with one, exactly the models whose configured shots differ are skipped, a config without shots counting as 0 for the filter and reported with 2 |
| SiteResults.Globbed | scripts/build_site_results.py:110 | the globbed files are files of the directory whose names end in `_results.json` |
| SiteResults.Later | scripts/build_site_results.py:135-138 | comparing a naive with an aware datetime raises `TypeError`; dates of one kind compare by their instants |
| SiteResults.LatestDateMeaning | scripts/build_site_results.py:130-138 | the latest date is absent exactly when no file's date parses; otherwise it is one of the parsed dates, of the same kind (naive or aware) as the first parsed date, and no parsed date of that kind is later; dates of the other kind are skipped |
| SiteResults.MixedKindsKeepFirst | scripts/build_site_results.py:133-138 | a naive date followed by an aware one, or the reverse, leaves the first as the latest, whatever the instants |
| SiteResults.MicroScores | scripts/build_site_results.py:166-168 | precision times the predicted total and recall times the ground-truth total give the correct total; each is 0 on a zero denominator, and F1 is 0 when both are 0 |
| SiteResults.TotalsConsistent | scripts/build_site_results.py:161-163 | summing consistent files keeps the correct total between 0 and both the predicted and ground-truth totals |
| SiteResults.AggregateBounds | scripts/build_site_results.py:161-168 | with consistent files, the model's precision, recall and F1 are fractions, and F1 is 0 exactly when nothing is correct |
| SiteResults.MicroScoresBounds | scripts/build_site_results.py:166-168 | for consistent counts the three scores lie in [0, 1], and F1 is 0 exactly when the correct count is 0 |
| SiteResults.AverageAll | scripts/build_site_results.py:194-198 | the division loop keeps every edit type and its position, dividing the figures by the count where the count is positive |
| SiteResults.FoldFiguresMeaning | scripts/build_site_results.py:183-191 | accumulating one type's entries sums the counts and, over the entries with a positive count, each figure times its count |
| SiteResults.TypeAveragesMeaning | scripts/build_site_results.py:170-198 | `by_type` lists every edit type seen in the files once, in order of first appearance, and reports for each the count-weighted mean of its per-file figures |
| SiteResults.WeightedTotalBounds | scripts/build_site_results.py:186-191 | with non-negative counts and figures in [0, 1], a weighted total lies between 0 and the total count |
| SiteResults.WeightedMeanBounds | scripts/build_site_results.py:170-198 | with well-formed figures the averaged figures are fractions, the count is the total count, and a type whose count is 0 keeps all-zero figures |
| SiteResults.DisplayNameKept | scripts/build_site_results.py:148-158 | a name that is not lower-case, or a `gpt` name without a dash, is shown as it is |
| SiteResults.DisplayNameGpt | scripts/build_site_results.py:152-155 | a lower-case `gpt` name with a dash is shown as its first segment upper-cased, a dash, and the remaining segments run together |
| SiteResults.DisplayNameDashed | scripts/build_site_results.py:156-158 | any other lower-case name made of dash-separated words is shown as the words capitalised and joined by spaces |
| SiteResults.GptExample | scripts/build_site_results.py:152-155 | `gpt-4o-mini` is shown as `GPT-4omini` |
| SiteResults.ClaudeExample | scripts/build_site_results.py:156-158 | `claude-3-opus` is shown as `Claude 3 Opus` |
| SiteResults.MixedCaseExample | scripts/build_site_results.py:150 | `Gemini-2` is left alone |
| SiteResults.RankedMeaning | scripts/build_site_results.py:223-224 | the published list holds the same entries ordered by F1 from highest to lowest, with entries of equal F1 in directory order |
| SiteResults.EntryFilesMeaning | scripts/build_site_results.py:97-146 | a model that gets an entry passed the shot filter and has at least one loaded file; its files are the globbed files that loaded, sorted by file id |
| SiteResults.LoadResults | scripts/build_site_results.py:119-142 | the file loop keeps the files that load, tagged with their ids, and ends with the latest date as `SiteResults.LatestDate` defines it, a comparison that raises `TypeError` skipping that date |
| SiteResults.AccumulateTypes | scripts/build_site_results.py:170-191 | the nested accumulation loop computes the per-type sums over all files' `by_type` entries |
| SiteResults.AverageTypes | scripts/build_site_results.py:193-198 | the in-place division loop yields the averaged entries |
| SiteResults.CollectModel | scripts/build_site_results.py:90-221 | one iteration of the model loop yields the entry of a model, or nothing where the script skips it |
| SiteResults.CollectModelResults | scripts/build_site_results.py:75-225 | the collection visits every model directory in order, keeps the entries of those not skipped, then sorts them by F1 |
| Leaderboard.FirstEntryOf | little_dorrit_editor/leaderboard.py:59-63 | the position found is the first entry of that model; there is none exactly when no entry has that model's name |
| Leaderboard.F1Order | little_dorrit_editor/leaderboard.py:69 | "higher F1" is a strict weak order, so the sort is well defined |
| Leaderboard.UpdateLeaderboard | little_dorrit_editor/leaderboard.py:58-69 | the for-else loop and the sort compute exactly the upserted list sorted by F1 |
| Leaderboard.UpsertExisting | little_dorrit_editor/leaderboard.py:59-63 | a model with an entry: its first entry becomes the result, the length and every other entry stay |
| Leaderboard.UpsertNew | little_dorrit_editor/leaderboard.py:64-66 | a model without one: the result is appended after the unchanged entries |
| Leaderboard.UpsertKeeps | little_dorrit_editor/leaderboard.py:58-66 | the result is on the board, every entry of another model stays, and nothing but the result is new |
| Leaderboard.UpsertOneEntryPerModel | little_dorrit_editor/leaderboard.py:58-66 | a board with one entry per model keeps that property |
| Leaderboard.UpdatedMeaning | little_dorrit_editor/leaderboard.py:69 | the saved list is a permutation of the upserted one, ordered by F1 from highest to lowest, with entries of equal F1 in their previous relative order (a stable sort) |
| Leaderboard.UpdatedHoldsResult | little_dorrit_editor/leaderboard.py:58-69 | after an update the result is on the board and the first entry's F1 is at least the result's |
| Leaderboard.MedalAt | little_dorrit_editor/leaderboard.py:196-202 | a badge is shown exactly for the first three places |
| Leaderboard.DisplayDate | little_dorrit_editor/leaderboard.py:86-92 | the formatted date when the entry has one that parses, otherwise "Unknown" |
| Leaderboard.TableRows | little_dorrit_editor/leaderboard.py:194-212 | the loop emits one row per entry, in board order |
| Leaderboard.RowsMeaning | little_dorrit_editor/leaderboard.py:194-212 | ranks count from 1 in board order with the entry's model; a row has a medal exactly when its rank is at most 3; the medals shown are all different |
| Leaderboard.MedalsDistinct | little_dorrit_editor/leaderboard.py:197-202 | gold, silver and bronze badges differ |
| Leaderboard.GoldHasBestF1 | little_dorrit_editor/leaderboard.py:194-212 | after an update the first row is ranked 1 with the gold badge and has the highest F1 on the board |
| Config.TableConfig | little_dorrit_editor/config.py:53-76 | a table yields a config exactly when it has `endpoint`, `model_name` and `logical_name` |
| Config.PlaceholderResolves | little_dorrit_editor/config.py:55-59 | a key `${NAME}` becomes the environment's value of NAME, or "" when NAME is unset |
| Config.PlaceholderShape | little_dorrit_editor/config.py:57-58 | every key that starts with `${` and ends with `}` is `${`, a name, then `}` |
| Config.PlaceholderLength | little_dorrit_editor/config.py:57 | such a key has at least three characters, so its name is well defined |
| Config.LiteralKeyKept | little_dorrit_editor/config.py:55-57 | any other key is kept as written |
| Config.TableConfigFields | little_dorrit_editor/config.py:65-76 | a config keeps the required fields verbatim and carries the resolved key ("" when the table has none) |
| Config.TableConfigError | little_dorrit_editor/config.py:66-68 | the `KeyError` names the table and the first required field it lacks, in the order endpoint, model_name, logical_name |
| Config.Ids | little_dorrit_editor/config.py:53 | (helper) the ids of the tables |
| Config.LoadTablesIds | little_dorrit_editor/config.py:53-76 | without an error the stored ids are those held before plus the tables' ids |
| Config.LoadTablesLastWins | little_dorrit_editor/config.py:71 | an id holds the config of its last table: a later table overwrites an earlier one |
| Config.LoadTablesOthers | little_dorrit_editor/config.py:71 | an id no table names keeps what it held |
| Config.LoadTablesStops | little_dorrit_editor/config.py:53-68 | the first table that lacks a field ends the load with its error, and what the tables before it stored stays stored |
| Config.LoadTablesFine | little_dorrit_editor/config.py:53-76 | tables that all have their fields raise nothing |
| Config.LoadTablesPrefix | little_dorrit_editor/config.py:53-68 | once a prefix of the tables raises, the remaining tables change nothing |
| Config.ConfigManager.constructor | little_dorrit_editor/config.py:33 | a new manager holds no models |
| Config.ConfigManager.LoadConfig | little_dorrit_editor/config.py:36-76 | a missing file raises only when it is the main file and changes nothing; otherwise the tables are stored in order as specified, with the first error raised |
| Config.ConfigManager.GetModel | little_dorrit_editor/config.py:78-93 | a stored id gives its config; an unknown id gives `KeyError` |
| Config.ConfigManager.ListModels | little_dorrit_editor/config.py:95-101 | every stored id and nothing else, each with its logical name |
| Config.Create | little_dorrit_editor/config.py:23-34 | a new manager loads the main file; a missing main file raises; without an error the stored ids are exactly the file's table ids |
| JsonExtract.FirstFence | little_dorrit_editor/utils.py:27 | the lazy `([\s\S]*?)` stops at the first closing fence at or after the start, with none before it; none exactly when no fence follows |
| JsonExtract.SpaceRun | little_dorrit_editor/utils.py:27 | greedy `\s*` takes the whole run of whitespace: all whitespace, followed by a non-space or the end |
| JsonExtract.TryContent | little_dorrit_editor/utils.py:27 | a match ends at least three characters on, within the text |
| JsonExtract.FencedAt | little_dorrit_editor/utils.py:27 | a match starting at a position ends after it |
| JsonExtract.ContentStart | little_dorrit_editor/utils.py:27 | the block's content starts within the text |
| JsonExtract.FirstFenceSkip | little_dorrit_editor/utils.py:27 | the search for a fence passes over characters that are not backticks |
| JsonExtract.TryContentGreedy | little_dorrit_editor/utils.py:27 | backtracking `\s*` never finds a fence the longest run did not: the match is decided by the first fence after all the whitespace |
| JsonExtract.FencedAtMeaning | little_dorrit_editor/utils.py:27 | a block opening at a fence holds everything from after the fence, the optional `json` and the whitespace up to the first closing fence; no match when no closing fence follows |
| JsonExtract.FencedTagged | little_dorrit_editor/utils.py:27 | the same for a block with the `json` tag: dropping the tag on backtracking never yields a different match |
| JsonExtract.FencedBlocksAt | little_dorrit_editor/utils.py:27-28 | `re.findall` at a fence takes that block's content next and resumes after its closing fence; with no closing fence it moves on one character |
| JsonExtract.FencedBlocksSkip | little_dorrit_editor/utils.py:27-28 | `re.findall` finds nothing in a stretch without backticks |
| JsonExtract.SpaceRunOf | little_dorrit_editor/utils.py:27 | a run of n whitespace characters followed by something else is exactly what `\s*` takes |
| JsonExtract.FirstFenceFound | little_dorrit_editor/utils.py:27 | the lazy search stops at the first fence |
| JsonExtract.CloseFrom | little_dorrit_editor/utils.py:40 | greedy `[\s\S]*\}` ends just after the last `}` before its start position and after the opening brace; none when there is no such `}` |
| JsonExtract.BraceAt | little_dorrit_editor/utils.py:40 | a brace match ends after its start, within the text |
| JsonExtract.BraceSpansNone | little_dorrit_editor/utils.py:40-41 | no match from a position on when no position there opens one |
| JsonExtract.BraceSpansSkip | little_dorrit_editor/utils.py:40-41 | the scan passes over characters before the first `{` |
| JsonExtract.BraceSpansMeaning | little_dorrit_editor/utils.py:40-41 | the brace stage has at most one candidate: the span from the first `{` to the last `}`, present exactly when that `}` comes after that `{` |
| JsonExtract.FirstParsing | little_dorrit_editor/utils.py:32-36 | the candidate chosen parses and every earlier one does not; none is chosen exactly when none parses |
| JsonExtract.FirstParseNone | little_dorrit_editor/utils.py:32-36 | no value exactly when no candidate parses |
| JsonExtract.StrippedBlocks | little_dorrit_editor/utils.py:32-34 | one stripped block per fenced block, in order |
| JsonExtract.CascadePriority | little_dorrit_editor/utils.py:20-48 | a value comes from the earliest stage with a candidate that parses, and from that stage's first such candidate |
| JsonExtract.CascadeFails | little_dorrit_editor/utils.py:50-54 | the stages fail exactly when no candidate of any stage parses, with the first 3000 characters of the reply in the error |
| JsonExtract.WholeReplyFirst | little_dorrit_editor/utils.py:20-24 | a reply that parses as a whole is returned as parsed |
| JsonExtract.BlocksBeforeBraces | little_dorrit_editor/utils.py:26-36 | otherwise the answer is the first stripped fenced block that parses, whatever the brace span holds |
| JsonExtract.ExtractPriority | little_dorrit_editor/utils.py:20-48 | the JSON returned comes from the whole reply, else the first block that parses, else the first brace span that parses |
| JsonExtract.ExtractFails | little_dorrit_editor/utils.py:50-54 | the decode error is raised exactly when neither the reply, nor any stripped block, nor any brace span parses; it carries the reply's first 3000 characters |
| Sorting.SortByPermutes | little_dorrit_editor/leaderboard.py:69 | sorting rearranges the list: same length, same elements with the same multiplicities |
| Sorting.SortBySorted | little_dorrit_editor/leaderboard.py:69 | under a strict weak order the sorted list has no element ordered before one that precedes it |
| Sorting.SortByStable | little_dorrit_editor/leaderboard.py:69 | the sort is stable: the elements tied with any given element keep their relative order |
| Strings.LexOrder | scripts/check_predictions.py:147 | Python's ordering of strings is a strict weak order, so sorting run ids by it is well defined |
| Strings.Pad3Value | scripts/check_predictions.py:180 | `f"{i:03d}"` is at least three digits whose value is `i` |
| Strings.Pad3Injective | scripts/check_predictions.py:180 | different numbers give different padded ids |
| Strings.SplitJoin | scripts/build_site_results.py:30 | joining the parts of `split` with the separator gives back the string, and no part contains the separator |
| Dicts.GroupByMeaning | scripts/check_predictions.py:126-139 | appending to a `defaultdict(list)` lists each key once, in order of first appearance, holding exactly that key's values in order |
| Dicts.PutKeys | scripts/check_predictions.py:348 | assigning a key keeps the dictionary's key order and appends a new key at the end |
| Dicts.PutGetEither | scripts/check_predictions.py:348 | after assigning a key, looking it up gives the new value and every other key is unchanged |
| Dicts.AccumulateMeaning | scripts/build_site_results.py:171-191 | folding entries into a dictionary keyed on first appearance gives each key the fold of exactly its own values in order |

## Left out

- The LLM judge (`LLMJudge`, little_dorrit_editor/evaluate.py:17-111): an OpenAI call and its prompt; only its answer enters the model, as the function parameter `judge`.
- File and console I/O: reading and writing JSON files, `load_leaderboard` creating the file, Rich tables, `print_report`, `print_fix_suggestions`, the warnings the scripts print, the `main` functions and their argument parsing.
- The penalty statistics that `display_results` prints (little_dorrit_editor/evaluate.py:557-593): console output only.
- The HTML text of `generate_html` around each row; the model stops at the cells of each row.
- Formatting of floats (`:.4f`) and IEEE rounding: figures are exact `real`s.
- `json.loads`, TOML parsing, `datetime.fromisoformat` and `strftime`: function parameters or given records. `fromisoformat` yields an instant tagged naive or aware, so that the `TypeError` of comparing the two kinds is modelled. The current time the site builder falls back to is left as a missing date.
- The directory walks: a model directory is given as the names it lists and the names present in its results directory; `get_model_display_name` reads a JSON file, so the display name is a parameter of `CheckPredictions.AnalyzeModel`.
- Unicode: lower- and upper-casing, whitespace and digit classes cover ASCII only.
- Pydantic coercion and validation messages: validation is a predicate on the record shapes.
- Config.ConfigManager.ListModels: returns a map, so the insertion order of Python's dict is not modelled.
- Config values other than strings in a TOML table, and the module-level singleton with its `get_model`/`list_models` wrappers (little_dorrit_editor/config.py:104-129).
- CheckPredictions.MostCommonCount: `max(set(...), key=count)` breaks ties by CPython's set iteration order, so the model lets it pick any most common count.
- CheckPredictions.FindAnomalies: requires digit question ids, which every record of the analysis has (`CheckPredictions.AnalysisCount`); on other ids Python's `int(q)` would raise.
- The leaderboard entries are records with a model name and an F1 score; `EvaluationResult` as dumped by the evaluator has no `f1_score` field (little_dorrit_editor/types.py:46-57), so the model follows the record shape the leaderboard reads.
- The site builder reads each results file's `details` as a summary record with counts and `by_type` (scripts/build_site_results.py:161-163), not the list `EvaluationResult.details` holds now.
- The command-line front end, prediction and prompt code (little_dorrit_editor/cli.py, predict.py, prompt.py, convert.py) and the other scripts: API calls, image encoding and dataset export.
