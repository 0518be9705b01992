# Trial and evaluation core of a prompt-testing tool

This project models the part of the tool that runs one prompt many times
against a language model and scores every answer, and proves properties of
that model:

- **Evaluation** (`evaluator.dfy`): the evaluator. `string_match` compares
  the cleaned, stripped and lower-cased non-blank lines of the expected output
  and the response, in order. `entity_recognition` asks that every word of the
  expected output is a word of the response. The `llm` method sends a judge
  prompt to a second model manager and passes when the reply contains "yes" in
  any case. A `False` from `string_match`, `entity_recognition` or the judge
  appends one diagnostic to `log_messages`. An unknown method returns `False`
  and logs nothing, and an evaluation that raises logs nothing.
- **Metrics** (`metrics_logger.dfy`): the metrics logger. It holds a list of
  trial records and exports them as a CSV table whose header is the first
  record's keys.
- **Trials** (`trial_manager.dfy`): the trial manager. One trial reads the
  clock, asks the model, reads the clock again, evaluates, drains the
  evaluator's log into the trial's record and logs that record. A run does
  `num_trials` trials and reports a progress fraction after each trial that
  completes.
- **Text** (`text.dfy`): the string primitives the evaluator uses, which are
  `str.strip()`, `str.splitlines()`, the substring test, `str.join` and
  `re.findall(r'\b\w+\b', ...)`.
- **Records** (`records.dfy`): dictionaries as entry lists in insertion order.
- **Provider** (`provider.dfy`): model managers and the clock.

The outside world is passed in as parameters:

- A `ModelManager` answers its n-th call with `respond(n, request)`, a
  function fixed when it is created, and records every call in `calls`.
- A `Clock` returns `reading(n)` on its n-th reading.
- The lookups into the Unicode database are the fields of a `Tables` value.
  These are the general category, NFKC, `str.lower()`, the `\w` class and
  `str()` of a set. `Tables.Valid()` lists the facts about the database that
  the lemmas use, and `AsciiTablesValid` shows that these facts can all hold
  at once.

Three behaviours of the code are easy to miss; the model follows the code in
each:

- Control characters are removed before the text is split into lines. A line
  feed is in category Cc, so it is removed too, and plain ASCII text compares
  as a single joined line (`LineFeedsJoinLines`, `ParisFranceExample`). Every
  other boundary `str.splitlines()` knows is in a C category as well, so only
  U+2028 and U+2029 still separate lines (`SeparatedLetters`).
- The diagnostic of a failed judge evaluation is the judge's reply stripped,
  not the full reply.
- The method names are `algorithmic` and `llm`, matched in any letter case.
  Any other name makes `evaluate` return `False`. `algorithmic` with a task
  type other than the two known ones returns `None` (`Undecided`).

## Model

| member | source | states |
|---|---|---|
| Evaluation.RemoveNonPrintable | evaluator.py:6-7 | a character occurs in the result exactly when it occurs in the input and is not in a C category; the result is the input itself when the input has no such character, and never longer |
| Evaluation.RemoveNonPrintableConcat | evaluator.py:6-7 | the filter works character by character: the result for a concatenation is the concatenation of the results, so with the one-character case the kept characters stay in order and keep their repetitions |
| Evaluation.RemoveNonPrintableIdempotent | evaluator.py:6-7 | removing non-printable characters twice is the same as removing them once |
| Evaluation.RemoveNonPrintableLower | evaluator.py:6-7 | on ASCII text, removing control characters and lower-casing give the same result in either order |
| Evaluation.NonBlankLines | evaluator.py:42-46 | no more comparison lines than lines, and none exactly when every line is blank |
| Evaluation.NonBlankLinesConcat | evaluator.py:42-46 | the kept lines of two blocks of lines are the kept lines of the first followed by those of the second, so they stay in order and keep their repetitions |
| Evaluation.NonBlankLinesAre | evaluator.py:41-46 | a text is a comparison line exactly when some non-blank line, stripped and lower-cased, gives it |
| Evaluation.EntitiesAreMatches | evaluator.py:59-60 | a word is an entity of a text exactly when `\b\w+\b` matches it somewhere in the text's lower-case form |
| Evaluation.JudgeRequest | evaluator.py:78-99 | the judge request carries the chosen template, the task type, the expected output and the response it is given (`evaluate` passes it stripped), and no options |
| Evaluation.StringMatch | evaluator.py:35-57 | passes if and only if the two texts give the same comparison lines in the same order; a pass logs nothing, and a failure logs one message with the lines only in the expected output and the lines only in the response |
| Evaluation.EntityRecognition | evaluator.py:58-71 | passes if and only if the expected output's word set is a subset of the response's; a pass logs nothing, and a failure logs one message with the missing and the extra words |
| Evaluation.Algorithmic | evaluator.py:34-71 | a task type other than `string_match` and `entity_recognition` gives `None` and logs nothing |
| Evaluation.Judged | evaluator.py:99-107 | a reply passes if and only if its lower-case form contains "yes"; otherwise the stripped reply is logged; an exception from the judge propagates |
| Evaluation.ChooseTemplate | evaluator.py:78-96 | the custom template is used if and only if it is given and not blank |
| Evaluation.Assess | evaluator.py:24-32 | an unknown method gives `False` and no log; `llm` without a judge raises `ValueError`; it raises exactly when the method is `llm` and the judge is missing or fails; it returns `None` exactly for `algorithmic` with an unknown task type; at most one message is logged, and none on a raise or a pass |
| Evaluation.Evaluator.constructor | evaluator.py:16-22 | the expected output is stored stripped, the method lower-cased, and the log starts empty |
| Evaluation.Evaluator.Evaluate | evaluator.py:24-32 | the outcome and the appended log are those of `Assess` on the judge's next answer; the judge is called once with the judge request exactly when the method is `llm` |
| Evaluation.Evaluator.AlgorithmicEvaluate | evaluator.py:34-71 | the verdict and the appended log are those of `Algorithmic` |
| Evaluation.Evaluator.LlmEvaluate | evaluator.py:73-107 | with no judge it raises and logs nothing; otherwise it sends one judge request, and the verdict and log are those of `Judged` on the judge's answer to it |
| Evaluation.PaddingIsIgnored | evaluator.py:24-25 | white space around a response changes neither the verdict, nor the log, nor the judge request |
| Evaluation.ControlCharactersJoinLines | evaluator.py:37-46 | a character of category C between two parts of a text is dropped before the text is split into lines, so the comparison lines are those of the two parts joined |
| Evaluation.LineFeedsJoinLines | evaluator.py:37-46 | in particular a line feed does not separate two comparison lines |
| Evaluation.AsciiComparisonLines | evaluator.py:37-46 | an ASCII text gives at most one comparison line: the text without control characters, stripped and lower-cased |
| Evaluation.ExtraWordsKeepPass | evaluator.py:58-67 | a response that passes `entity_recognition` still passes with more words appended after a space |
| Evaluation.EntitiesIgnoreCase | evaluator.py:59-60 | the word set of an ASCII text does not depend on letter case |
| Evaluation.StringMatchIgnoresCase | evaluator.py:35-57 | an ASCII response and its lower-case form give the same `string_match` verdict and the same diagnostic |
| Evaluation.SwappedLines | evaluator.py:35-71 | for two ASCII words whose two concatenations differ (in lower case), the two words on two lines against the same words swapped fail `string_match` and pass `entity_recognition`; the two words written together pass `string_match` |
| Evaluation.ParisFranceExample | evaluator.py:35-71 | expected "Paris\nFrance": "France\nParis" fails `string_match` and passes `entity_recognition`, and "ParisFrance" passes `string_match` |
| Evaluation.SeparatedLetters | evaluator.py:37-46 | two letters separated by U+2028 give two comparison lines |
| Evaluation.OrderOnlyMismatch | evaluator.py:49-56 | two lines in swapped order fail `string_match`, and both sets in the diagnostic are empty |
| Evaluation.SpacedYesPasses | evaluator.py:102-103 | a reply with "yes", in any letter case, between two spaces passes whatever else it says |
| Evaluation.YesInAnyCasePasses | evaluator.py:102-103 | replies with " Yes " or " YES " pass |
| Evaluation.MethodNamesIgnoreCase | evaluator.py:19 | "LLM" and "Algorithmic" lower-case to the two method names |
| Metrics.CsvRow | metrics_logger.py:14-16 | a row has one cell per header column, holding the record's value for that key or an empty cell when the record lacks it |
| Metrics.FirstMisfit | metrics_logger.py:14-16 | every record before the returned index has only header keys, and the record at it, if any, has a key outside the header |
| Metrics.Export | metrics_logger.py:10-16 | no trials gives `IndexError`; the whole table is written if and only if every record's keys are among the first record's; the header is the first record's keys, and row i holds record i's value for each column, or an empty cell; a record with an extra key raises after the rows before it are written |
| Metrics.MetricsLogger.constructor | metrics_logger.py:4-5 | the logger starts with no trials |
| Metrics.MetricsLogger.LogTrial | metrics_logger.py:7-8 | the record is appended and nothing else changes |
| Metrics.MetricsLogger.ExportCsv | metrics_logger.py:10-16 | writing the header and then the rows one at a time gives `Export(trials)` |
| Metrics.FirstRowRoundTrip | metrics_logger.py:11-16 | the row written for the first record is its values, in key order |
| Metrics.UniformTrialsExport | metrics_logger.py:10-16 | records that all have the first record's keys, in the same order, export completely, each as its values |
| Metrics.MissingKeyLeavesBlank | metrics_logger.py:13-16 | a record without one of the header's keys gets an empty cell in that column |
| Metrics.ExtraKeyStopsExport | metrics_logger.py:13-16 | a record with a key outside the header stops the export, and only the records before it are written |
| Trials.VerdictValue | trial_manager.py:33-34 | `is_correct` is stored as a boolean exactly when the verdict is not `None`, and it is true exactly for a pass |
| Trials.TrialRecordLayout | trial_manager.py:33-39 | a trial record has the keys correct, response_time, response, expected_output and evaluation_log, in that order, with the trial's values |
| Trials.ProgressBar | trial_manager.py:54-57 | after the k-th completed trial the bar shows k / total |
| Trials.TrialManager.constructor | trial_manager.py:12-20 | the settings are stored, the metrics logger is new and empty, and the log starts empty |
| Trials.TrialManager.RecordTrial | trial_manager.py:31-39 | the evaluator's log, joined with line feeds, goes into one new trial record with the verdict, the duration, the response and the stripped expected output; the evaluator's log is then empty |
| Trials.TrialManager.EvaluateAndRecord | trial_manager.py:29-40 | the verdict is the evaluator's; if the evaluation raises, nothing is logged and the evaluator's log is unchanged; otherwise exactly one trial record is appended |
| Trials.TrialManager.RunTrial | trial_manager.py:22-40 | the model is asked once with the prompt and options; a model error leaves the logs unchanged after one clock reading; otherwise the response is evaluated, its time is the difference of two consecutive clock readings, and the trial's record is appended exactly when the evaluation does not raise |
| Trials.TrialManager.AwaitTrial | trial_manager.py:51-59 | one trial runs; it completes exactly when the model answers and the evaluation of the answer, with the judge's next answer, does not raise; a completed trial appended one trial record, keeping the earlier ones, and a trial that raised changed neither log; a failed model call or an evaluation that always raises means no completion |
| Trials.TrialManager.SubmitNext | trial_manager.py:50-57 | one more trial runs and the run's invariant is kept: one completion flag per trial, one progress value per completed trial, each trial's completion exactly as `Completes` says for its model reply and judge answer |
| Trials.TrialManager.AwaitAll | trial_manager.py:50-59 | the loop runs `num_trials` trials (none for a negative count) and ends with the run's invariant |
| Trials.TrialManager.RunTrials | trial_manager.py:42-59 | `num_trials` trials run (none for a negative count), each with one model call carrying the prompt; trial i completes exactly when its model reply is an answer and its evaluation does not raise; the progress values are as many as the completed trials, k / total after the k-th; a model that always fails, or an evaluation that always raises (`llm` with no judge or a judge that always fails), gives no progress, and a model that always answers with an evaluation that never raises completes every trial; earlier records are kept, and every new one is a trial record |
| Trials.CompletesMeansNoRaise | trial_manager.py:52-58 | a trial completes exactly when the model answered and `evaluate` did not raise on the answer |
| Trials.CompletesCases | trial_manager.py:52-58 | a failed model call, or an evaluation that always raises, means no completion; an answer with an evaluation that never raises, or with a method other than `llm`, means completion |
| Trials.RunCompletions | trial_manager.py:51-54 | over a run, a model that always fails or an evaluation that always raises completes no trial, and a model that always answers with an evaluation that never raises completes every trial |
| Trials.CountCompleted | trial_manager.py:54 | the count of completed trials is at most the number of trials, zero exactly when none completed, and all of them exactly when every one did |
| Trials.ProgressBounds | trial_manager.py:54-57 | progress never decreases, stays in (0, 1], and reaches 1 exactly when all trials have completed |
| Trials.TrialRecordsExport | trial_manager.py:33-39 | the records a run logs export completely, under the trial keys, one row of values per record |
| Trials.TrialRowRoundTrip | trial_manager.py:33-39 | the exported row of a trial is its verdict, duration, response, expected output and joined log |
| Text.Strip | evaluator.py:18 | `str.strip()`: the result is empty exactly for an all-space text, never longer than the input, and has no white space at either end |
| Text.StripIgnoresPadding | evaluator.py:25 | white space around a text does not change its stripped form |
| Text.StripIdempotent | evaluator.py:25 | stripping twice is stripping once |
| Text.StripLower | evaluator.py:42 | stripping and ASCII lower-casing give the same result in either order |
| Text.SplitLines | evaluator.py:41 | `str.splitlines()`: no line contains a line boundary, and a text without a boundary is its own single line, or no line when empty |
| Text.SplitLinesAtBoundary | evaluator.py:41-45 | a boundary after boundary-free text ends the first line there, and the other lines are those after the boundary, where "\r\n" counts as one boundary |
| Text.Join | trial_manager.py:31 | `'\n'.join`: no parts give the empty text, one part is itself, and otherwise the result is as long as the parts and the separators between them and starts with the first part |
| Text.Contains | evaluator.py:102 | the substring test holds exactly when the pattern occurs at some index |
| Text.Tokens | evaluator.py:59-60 | every word `re.findall(r'\b\w+\b', ...)` returns is non-empty |
| Text.TokensAreMaximalRuns | evaluator.py:59-60 | the words `re.findall(r'\b\w+\b', ...)` returns are exactly the maximal runs of word characters |
| Text.TokensAcrossSeparator | evaluator.py:59-60 | a non-word character splits the word list into the words before it and the words after it |
| Text.AsciiTablesValid | evaluator.py:6-10 | the facts assumed of the Unicode database can all hold at once |
| Records.Keys | metrics_logger.py:11-12 | `d.keys()`: one key per entry, in insertion order |
| Records.Get | metrics_logger.py:12 | `d.get(key)`: a value exactly when the key is among the keys, and with distinct keys it is the value stored under that key |
| Provider.ModelManager.GenerateResponse | model_manager.py:24-33 | every call is recorded, and the n-th call gets the fixed answer for n and that request |
| Provider.Clock.Time | trial_manager.py:26-28 | every reading is counted, and the n-th reading returns the fixed time for n |

## Left out

- Thread pool: `run_trials` is modelled with one trial at a time, in submission order. This is one of the orders `as_completed` can produce. `max_workers` is stored but has no effect.
- Concurrent trials: with more than one worker, trials share the evaluator's `log_messages`, and a trial can drain another trial's diagnostics. That interleaving is not modelled.
- Floating point: durations and progress fractions are reals, with no rounding.
- Prompt text: the judge prompt is kept as the chosen template plus the three values substituted into it. The default prompt's wording and `str.format` are not modelled, and neither is any exception `str.format` raises on a custom template (`KeyError`, `IndexError`, `ValueError`, `AttributeError` and the like), which escapes `evaluate` and drops the trial.
- Evaluation.Assess: "raises exactly when the method is `llm` and the judge is missing or fails" holds for custom templates that format cleanly; an exception from `str.format` on a custom template is not modelled (see Prompt text).
- CSV I/O: the file, its name and the rendering of cells (booleans, floats, quoting) are not modelled. An export yields the header and the rows.
- Console and progress widgets: `print` of a failed trial and the Streamlit progress widget are left out. `RunTrials` returns the values the widget would show.
- Unicode database: categories, NFKC, `str.lower()`, `\w` and the text of a printed set are parameters (`Tables`). The proofs use only the facts listed in `Tables.Valid()`.
- Evaluation.NormalizeUnicode: has no contract of its own, because NFKC is a table lookup. Only the facts in `Tables.Valid()` about ASCII and the line separators are used.
- Providers: the OpenAI and Anthropic clients, app.py and authentication.py are not part of this model. `generate_response` is an oracle that answers or raises.
- Provider.ModelManager.GenerateResponse: model_manager.py:78-81 and 111-113 catch every client exception and return "Error: ..." or "", so `generate_response` itself never raises. The `ProviderError` reply over-approximates that: every proof about it also covers a manager that only answers. The raising path the program does reach inside a trial is any exception `str.format` raises on a custom template (see Prompt text).
- Trials.TrialManager.AwaitTrial: states when a trial completes and how many records it appends, but not the records' values; `RunTrial` states those.
- Trials.TrialManager.RunTrials: the model's call history, and which of the model's answers trial i got, are stated only when the judge is a different object from the model manager. When the same object also judges, the two kinds of call interleave in its history; the model does not pin down that interleaving across trials. Which of the judge's answers trial i's evaluation got is not pinned down either, since it depends on how many earlier trials reached the judge. The clauses about a model that always fails or always answers, and about an evaluation that always or never raises, hold in every case.
- Trials.TrialManager: `log_messages` of the trial manager is kept, but no operation writes to it.
