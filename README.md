# llm4spi candidate evaluation, modelled in Dafny

llm4spi asks language models to write the pre- and post-condition of a
program as a Python predicate, and then judges every proposed predicate (a
*candidate*) against a trusted *reference* predicate on test cases. This
project models the evaluation engine that does the judging, in both of its
versions:

- `llm4spi/basicEvaluate.py`, the current evaluator. It splits a task's test
  list on the `'==='` marker into three tiers: base0, base1 and validation.
  For each candidate it records the per-test predictions and four verdicts:
  base0, all bases, validation alone, and all suites. It then counts the
  verdicts per task (`ResultsSummary`) and over the whole dataset
  (`mk_results_summary`).
- `llm4spi/evaluation.py`, the older evaluator. It uses two suites, base and
  validation. It labels each candidate 'accepted' or 'NOT accepted' on the
  base suite and gives it a full verdict on all tests. The first candidate
  the base suite accepts decides the task's verdicts.

The five verdicts of `compare_results` are Accepted, TooStrong, TooWeak,
Rejected and Failed. A candidate is too strong when it rejects an input the
reference accepts, and too weak in the opposite case.

Modules:

| file | module | models |
|---|---|---|
| wrappers.dfy | Wrappers | Python's `None` (`Option`), and a dictionary field that may be missing, `None`, `""` or set (`Field`) |
| counting.dfy | Counting | `len([1 for x in xs if p(x)])` and its monotonicity |
| classifier.dfy | Classifier | `compare_results`, as a function (`Classify`) and as the source's loop (`CompareResults`), with a characterisation over the original list positions |
| invocation.dfy | Invocation | `try_check_condition` in its current (`Normalise`) and older (`LegacyNormalise`) form; running a suite |
| suites.dfy | Suites | `listSplit` and the tiering of both evaluators |
| basic_evaluate.dfy | BasicEvaluate | `evaluate_task_result` and `mk_results_summary` of the current evaluator |
| legacy_evaluate.dfy | LegacyEvaluate | `evaluate_task_result` and `mk_results_summary` of the older evaluator, and how it relates to the current one |

The two configuration flags are parameters of the model:

- `ignoreNone` stands for `IGNORE_NONE_PREDICTION` (llm4spi/myconfig.py:28, `False` as shipped).
- `useSecondSuite` stands for `CONFIG_USE_SECOND_TESTSUITE_AS_BASETESTS_TOO` (llm4spi/myconfig.py:15, `True` as shipped).

A task's dictionary holds one condition kind ("pre" or "post") per class
instance. In `ConditionTask` and `LegacyConditionTask`, the inputs the
evaluator only reads are `const` fields. The result entries it writes are
mutable fields, and the evaluation methods update them in place.

`compare_results` and `listSplit` are textually the same in both source
files, so each is modelled once.

## Model

| member | source | states |
|---|---|---|
| Classifier.CompareResults | llm4spi/basicEvaluate.py:31-86 | The source's loop returns the verdict `Classify` defines. This covers the ignore-None filter and its empty case, the type check, list equality, and the two flags that one pass over the zipped pairs sets. |
| Classifier.ClassifyCases | llm4spi/basicEvaluate.py:31-86 | For equal-length lists, each of the five verdicts holds exactly when its condition on the positions that take part holds. Failed: some judged prediction is not a bool, or the flag left no position. Accepted: everything judged is a bool and matches. TooStrong: bools with a false negative and no false positive. TooWeak: the reverse. Rejected: both. |
| Classifier.JudgeCases | llm4spi/basicEvaluate.py:66-86 | The same five-way characterisation for the unfiltered judgement. |
| Classifier.Transfer | llm4spi/basicEvaluate.py:52-61 | Filtering out `None` predictions only removes positions. Each ingredient of the judgement on the filtered lists (empty, well typed, false negative, false positive) equals the same property over the unfiltered positions. |
| Classifier.TransferEmpty | llm4spi/basicEvaluate.py:55-58 | The filtered list is empty exactly when every prediction is `None` (or there are no tests). |
| Classifier.TransferTyped | llm4spi/basicEvaluate.py:59-67 | The filtered predictions are all bools exactly when every non-`None` prediction is a bool. |
| Classifier.TransferPair | llm4spi/basicEvaluate.py:59-61 | A filtered pair (e, b) exists exactly when an unfiltered non-`None` position carries it. |
| Classifier.TransferPairKept | llm4spi/basicEvaluate.py:59-61 | Every pair left after filtering comes from a non-`None` position of the unfiltered lists. |
| Classifier.TransferPairJudged | llm4spi/basicEvaluate.py:59-61 | Every non-`None` position of the unfiltered lists is still present after filtering. |
| Classifier.KeptPairs | llm4spi/basicEvaluate.py:55 | The filter keeps exactly the zipped pairs whose prediction is not `None`. |
| Classifier.ZipAppend | llm4spi/basicEvaluate.py:55 | When the first parts have the same length, zipping concatenated lists gives the concatenation of the zipped parts. |
| Classifier.DropNoneMembers | llm4spi/basicEvaluate.py:55 | The members of the filtered list are the pairs without `None`. |
| Classifier.DropNoneKeepsOrder | llm4spi/basicEvaluate.py:55 | Filtering distributes over concatenation and keeps order. |
| Classifier.ClassifyBadPredictionFails | llm4spi/basicEvaluate.py:66-67 | A judged prediction that is "failed", "not a boolean value" or any non-bool makes the verdict Failed. |
| Classifier.ClassifyNoneFailsWithoutFlag | llm4spi/basicEvaluate.py:66-67 | With the flag off, a single `None` prediction makes the verdict Failed. |
| Classifier.ClassifyAllNoneFails | llm4spi/basicEvaluate.py:56-58 | With the flag on, all-`None` predictions give Failed. |
| Classifier.ClassifyEqualAccepted | llm4spi/basicEvaluate.py:69-70 | Predictions equal to the reference are Accepted, except with the flag on and no tests, which gives Failed. |
| Classifier.ClassifyRespectsKind | llm4spi/basicEvaluate.py:66-86 | The verdict depends on a non-bool prediction only through whether it is `None`. Other non-bools of any kind lead to the same verdict. |
| Classifier.AcceptedParts | llm4spi/basicEvaluate.py:69-86 | With the flag off, acceptance on the concatenation `e1 + e2` implies acceptance on each part. |
| Classifier.AcceptedPrefixNeedsFlagOff | llm4spi/basicEvaluate.py:52-61 | With the flag on that implication fails: `[None] + [True]` is accepted against `[True, True]`, but `[None]` alone is Failed. |
| Classifier.ClassifyShortPredictionsFail | llm4spi/basicEvaluate.py:72-86 | A prediction list that `zip` truncates and that agrees on the common prefix reaches the final `return "failed"`. |
| Classifier.ClassifyExampleTooStrong | llm4spi/basicEvaluate.py:40-49 | The documented too-strong case: a false negative and no false positive. |
| Classifier.ClassifyExampleTooWeak | llm4spi/basicEvaluate.py:40-49 | The documented too-weak case. |
| Classifier.ClassifyExampleRejected | llm4spi/basicEvaluate.py:40-49 | The documented rejected case. |
| Classifier.ClassifyExampleAllNone | llm4spi/basicEvaluate.py:36-38 | With the flag on, all-`None` predictions give Failed. |
| Invocation.Normalise | llm4spi/basicEvaluate.py:89-116 | A crash or timeout becomes "failed". A returned non-bool that is not `None` becomes "not a boolean value". `None` and the bools pass through. Nothing else is produced. |
| Invocation.LegacyNormalise | llm4spi/evaluation.py:73-88 | Crashes and timeouts become "failed", and every returned value passes through. It differs from `Normalise` only on non-bool values. |
| Invocation.RunConcat | llm4spi/basicEvaluate.py:256-263 | Running on concatenated suites gives the concatenated results, for candidates and for the reference. |
| Invocation.BadOutcomeFails | llm4spi/basicEvaluate.py:101-116 | A crash, timeout or non-bool return on any test makes the candidate Failed on that suite. |
| Invocation.NormalisersAgree | llm4spi/evaluation.py:73-88 | Both normalisers lead to the same verdict on every suite. |
| Invocation.IndentAll | llm4spi/evaluation.py:184 | The older indentation of the completions raises exactly when some completion has no body (is `None`). When it does not raise, the i-th candidate is the i-th completion. |
| Invocation.GuardOnlyChangesRaising | llm4spi/basicEvaluate.py:223 | Wherever the older indentation does not raise, the newer guarded one gives the same candidates. |
| Invocation.NoneBodyStopsLegacy | llm4spi/evaluation.py:184 | For a completion list `[c, None]`, the older indentation raises. The newer one yields `c` and the empty-body candidate. |
| Suites.ListSplit | llm4spi/basicEvaluate.py:119-132 | The source's loop computes `Split`. |
| Suites.Split | llm4spi/basicEvaluate.py:119-132 | There is always at least one segment. |
| Suites.JoinSplit | llm4spi/basicEvaluate.py:119-132 | Re-joining the segments with the marker gives back the original list. |
| Suites.SplitJoin | llm4spi/basicEvaluate.py:119-132 | Splitting a joined list of marker-free segments gives back the segments. |
| Suites.SplitCount | llm4spi/basicEvaluate.py:119-132 | The number of segments is the number of markers plus one. |
| Suites.SplitFlatten | llm4spi/basicEvaluate.py:119-132 | Concatenating the segments gives the test cases without markers. |
| Suites.ExtendAll | llm4spi/basicEvaluate.py:194 | The `extend` loop concatenates the segments from a given position on. |
| Suites.BasicTieringCovers | llm4spi/basicEvaluate.py:184-198 | base0, base1 and validation together are exactly the test cases, in order. Their shape follows the number of markers: 0 markers gives base0 only, 1 gives base0 and validation, 2 or more gives base1 as the second segment. |
| Suites.LegacyTieringCovers | llm4spi/evaluation.py:152-167 | The older base and validation suites together are exactly the test cases, in order, whatever the flag. |
| Suites.LegacyTieringFlatten | llm4spi/evaluation.py:155-167 | The older base suite followed by the validation suite is the concatenation of all segments, whatever the flag. |
| Suites.LegacyTieringMatchesBasic | llm4spi/evaluation.py:158-164 | With the flag on, the older base suite is base0 followed by base1, and the validation suites coincide. |
| Suites.TieringExample | llm4spi/basicEvaluate.py:184-198 | `[a, b, ===, c, d, ===, e]` gives the tiers `[a, b]`, `[c, d]`, `[e]`. |
| BasicEvaluate.SplitTiers | llm4spi/basicEvaluate.py:186-198 | The slicing code computes `BasicTiering`. |
| BasicEvaluate.EvaluateOne | llm4spi/basicEvaluate.py:228-264 | One pass of the candidate loop builds `EvaluateCandidate`'s record. A definition that does not load gives a crash record. Otherwise the record holds the predictions on each tier and the four `compare_results` verdicts. |
| BasicEvaluate.EvaluateAll | llm4spi/basicEvaluate.py:225-264 | The loop builds one record per completion, in order, numbered by position. |
| BasicEvaluate.ReferenceRun | llm4spi/basicEvaluate.py:203-211 | The reference answers have the lengths of the tiers. |
| BasicEvaluate.RecordVerdictChain | llm4spi/basicEvaluate.py:232-263 | Every candidate gets a record with its own number, and the record has verdicts exactly when the definition loaded. With the flag off, accepted on all suites implies accepted on all bases, which implies accepted on base0. |
| BasicEvaluate.ChainNeedsFlagOff | llm4spi/basicEvaluate.py:256-259 | With the flag on, a candidate can be accepted on all bases and Failed on base0. |
| BasicEvaluate.NonCrashes | llm4spi/basicEvaluate.py:273 | The number of kept records is the number of loaded records, counted with repetition. |
| BasicEvaluate.NonCrashesMembers | llm4spi/basicEvaluate.py:273 | A record is kept exactly when it is a record whose definition loaded. |
| BasicEvaluate.Summarize | llm4spi/basicEvaluate.py:272-294 | `defCrashes` is the number of records whose definition did not load, so with the loaded ones it makes up all candidates. On base0 and on all bases, accepted, too weak and too strong count distinct loaded candidates. `allTests_accept` is at most the number of loaded candidates. |
| BasicEvaluate.CountsIgnoreCrashes | llm4spi/basicEvaluate.py:273-281 | Counting over the loaded records equals counting over all records: crash records are never counted. |
| BasicEvaluate.SummaryChain | llm4spi/basicEvaluate.py:275-281 | With the flag off, allTests_accept <= allBases_accept <= base0_accept for every task. |
| BasicEvaluate.HasResults | llm4spi/basicEvaluate.py:324 | The kept summaries are exactly the non-`None` ones. There is one per task that has a summary, so duplicates are kept. |
| BasicEvaluate.MkResultsSummary | llm4spi/basicEvaluate.py:324-341 | `#tasks` is the number of tasks whose summary is not `None`. Each count is at most `#tasks`, and each weakly-accepted count is at least the matching accepted count. |
| BasicEvaluate.DatasetChain | llm4spi/basicEvaluate.py:326-341 | Per-task chains carry over: accepted by all tests <= by all bases <= by base0. |
| BasicEvaluate.ConditionTask.EvaluateTaskResult | llm4spi/basicEvaluate.py:134-296 | The three result fields are reset. With no solution, an empty solution, or a solution whose definition does not load, they stay `None`. Otherwise they hold the reference answers on the tiers of the split tests, one record per completion (a `None` body evaluated as the empty body), and the summary of those records. With the flag off, the summary satisfies the acceptance chain. |
| BasicEvaluate.ConditionTask.constructor | llm4spi/basicEvaluate.py:157-159 | A task with the given inputs and no results. |
| LegacyEvaluate.EvaluateCandidate | llm4spi/evaluation.py:195-228 | A definition that does not load is 'NOT accepted' and 'failed'. Otherwise the label is 'accepted' exactly when the raw base verdict is Accepted. The full verdict (a shortcut when there are no validation tests) equals the verdict on the concatenated suites. |
| LegacyEvaluate.Judgements | llm4spi/evaluation.py:186-228 | The candidate loop's three lists have one entry per candidate. |
| LegacyEvaluate.JudgementsAt | llm4spi/evaluation.py:186-228 | Position k of the lists holds candidate k's label, its full verdict and its edit distance. |
| LegacyEvaluate.EvaluateAll | llm4spi/evaluation.py:190-228 | The source's loop builds exactly those lists. |
| LegacyEvaluate.SplitSuites | llm4spi/evaluation.py:154-167 | The slicing code computes `LegacyTiering`. |
| LegacyEvaluate.RunCandidates | llm4spi/evaluation.py:152-228 | Splitting, tiering, running the reference and the candidate loop give `TaskRecords`. |
| LegacyEvaluate.TaskRecords | llm4spi/evaluation.py:152-234 | The three lists stored for the task each hold one entry per completion. |
| LegacyEvaluate.FirstAccepted | llm4spi/evaluation.py:248-255 | None exactly when no label is 'accepted'. Otherwise it gives the least position of an 'accepted' label. |
| LegacyEvaluate.LegacyConditionTask.SelectAccepted | llm4spi/evaluation.py:248-258 | The search loop stores the first accepted candidate's number and edit distance. It sets the task's base label to 'accepted', and its full label to 'accepted' when that candidate's full verdict is. Without such a candidate, both labels are 'NOT accepted' and the accepted-completion fields keep their old values. |
| LegacyEvaluate.LegacyConditionTask.EvaluateTaskResult | llm4spi/evaluation.py:106-258 | Five result fields are reset; the accepted-completion fields are not. The fields stay `None` with a missing, `None` or empty condition, or with a solution whose definition does not load. They also stay `None` when some completion has no body: indenting it raises, and the method reports `raised`, which happens exactly in that case. Otherwise they hold the lists of the candidate loop over the flag-selected suites, followed by the search. In every case the fields end up `Consistent`. |
| LegacyEvaluate.LegacyConditionTask.constructor | llm4spi/evaluation.py:121-127 | A task with the given inputs and no results. |
| LegacyEvaluate.Summarize | llm4spi/evaluation.py:263-280 | `#tasks` counts tasks with a base label. Those accepted by the base tests are among them. |
| LegacyEvaluate.SummaryFacts | llm4spi/evaluation.py:264-280 | Over consistent tasks: accepted by all tests <= accepted by base <= `#tasks`. "Weakly accepted by base-tests" always equals "accepted by base-tests", because the per-candidate labels can only be 'accepted' or 'NOT accepted'. |
| LegacyEvaluate.AgreesOnBase | llm4spi/evaluation.py:158-221 | With the flag on, a loaded candidate's older base label is 'accepted' exactly when its current all-bases verdict is Accepted. |
| LegacyEvaluate.AgreesOnFull | llm4spi/evaluation.py:158-228 | With the flag on, a loaded candidate's older full verdict is its current all-suites verdict. |
| Counting.CountMono | llm4spi/basicEvaluate.py:324-341 | A filter implied by another counts at least as many elements. |
| Counting.CountExclusive3 | llm4spi/basicEvaluate.py:275-280 | The counts of three mutually exclusive filters add up to at most the length. |
| Counting.CountSame | llm4spi/evaluation.py:269-279 | Filters that agree on every element have the same count. |

## Left out

- Loading definitions with `exec`, including the dummy "raise" stub loaded first: a candidate or the reference carries a `loads` flag instead.
- The `func_timeout` time limit: a timeout is an `Outcome` (`TimedOut`) that the candidate's `run` function may return.
- A crash or timeout of the reference itself: the reference is trusted to return a bool on every test case (`run: A -> bool`).
- Reading the tests with `eval` of the task's string: the tests are given as a list of cases and markers.
- Constructing the function text from the header and the indented body: a present body is given as the candidate its text defines, loaded or not. For the newer evaluator, the header with an empty body is given as `emptyBody`. A `None` body is modelled in both evaluators; in the older one it raises.
- Edit distances (`similarity.levenshteinDistance`): each candidate carries one opaque real. The older evaluator's dictionaries are reduced to their relative distance.
- All averages: the two `*_avrg_editDist` summary entries, the older `avrgRelativeEditDistance_ofUnrejected` / `avrgSize_ofUnrejected`, and the dataset averages. They are floating point means over the edit distances.
- Printing, `DEBUG` output and the report writers (`write_wholeSet_summary`, `write_perTask_summaries`, `write_evaluation_summaries`, `write_evaluation_report`): they are I/O.
- The driver `evaluate_tasks_results` in both files: it evaluates every task's "pre" and "post" condition and then the dataset summary. The model has each step, `EvaluateTaskResult` per condition kind and `MkResultsSummary` / `Summarize` over the results, but not the loop over the task dictionary. In the older file an exception from `evaluate_task_result` stops that loop. The model reports it as `raised` and does not model the tasks that stay unevaluated.
- Side effects of candidates: each candidate is a function from a test case to an outcome, with no state. In the source, a candidate gets the very argument objects of the shared test list and runs in the evaluator's own namespace. A candidate that mutates its arguments or global state would change the inputs later candidates are judged on, while the reference answers were computed before. The model assumes that candidates change neither the test inputs nor any shared state.
- The LLM clients, prompting, and the dataset loader.
- The `condition` selector "pre"/"post": each condition kind of a task is its own class instance.
- Key errors on missing dictionary entries other than the condition or solution that are checked: the model assumes the entries exist.
- The order of writing one record: the source appends the record before filling it in, and the model fills it and then appends it. The final list is the same.
- Classifier.ClassifyCases, Classifier.JudgeCases, Classifier.Transfer: stated for reference and prediction lists of equal length, the only shape the evaluators produce. `Classify` itself keeps `zip`'s truncation, and Classifier.ClassifyShortPredictionsFail covers one unequal case.
- BasicEvaluate.RecordVerdictChain, BasicEvaluate.SummaryChain: stated with the ignore-`None` flag off, its shipped value. BasicEvaluate.ChainNeedsFlagOff shows that the chain does not hold with the flag on.

## Findings

| source | as written | input that shows it | evidently intended | confidence | as-written member | corrected member |
|---|---|---|---|---|---|---|
| llm4spi/evaluation.py:184 | Every completion body goes to `textwrap.indent` without a check for `None`. | A task whose completion list holds `None`: `fix_completionString` returns `None` for a `None` answer (llm4spi/openai4spi.py:152, :187). The call raises after the five fields are reset, so no lists and no labels are stored, and `evaluate_tasks_results` stops. | A missing body is evaluated as the empty body, as llm4spi/basicEvaluate.py:223 does, so every completion gets an entry. | high that the older evaluator raises on such input, not executed | Invocation.NoneBodyStopsLegacy (with Invocation.IndentAll, used by LegacyEvaluate.LegacyConditionTask.EvaluateTaskResult) | Invocation.GuardOnlyChangesRaising (with Invocation.IndentGuarded, used by BasicEvaluate.ConditionTask.EvaluateTaskResult) |
