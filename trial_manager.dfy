/** The trial manager of trial_manager.py: runs the prompt against the model
 *  a number of times, evaluates every response, and logs one record per
 *  trial that completes.
 *
 *  `run_trials` hands the trials to a thread pool and counts them as they
 *  complete. Here they run one after another, in submission order, which is
 *  one of the orders the pool can produce.
 */
module Trials {
  import opened Text
  import opened Records
  import opened Provider
  import opened Evaluation
  import opened Metrics

  /** How `run_trial` ends: it returns `(is_correct, response_time)`, or an
   *  exception from the model or the judge propagates out of it. */
  datatype TrialOutcome = Completed(correct: Verdict, responseTime: real) | Failed

  /** `is_correct` as it is stored in a record: `True`, `False` or `None`. */
  function VerdictValue(v: Verdict): (x: Value)
    ensures x.BoolVal? <==> v != Undecided
    ensures x.BoolVal? ==> (x.b <==> v == Pass)
  {
    match v
    case Pass => BoolVal(true)
    case Fail => BoolVal(false)
    case Undecided => NoneVal
  }

  /** The keys of a trial record, in the order `run_trial` writes them. */
  function TrialKeys(): seq<string> {
    ["correct", "response_time", "response", "expected_output", "evaluation_log"]
  }

  /** The record `run_trial` logs. */
  function TrialRecord(correct: Verdict, responseTime: real, response: string,
                       expectedOutput: string, evaluationLog: string): Record
  {
    [Field("correct", VerdictValue(correct)),
     Field("response_time", NumVal(responseTime)),
     Field("response", TextVal(response)),
     Field("expected_output", TextVal(expectedOutput)),
     Field("evaluation_log", TextVal(evaluationLog))]
  }

  /** A trial record holds the trial keys, in order, with the trial's values. */
  lemma TrialRecordLayout(correct: Verdict, responseTime: real, response: string,
                          expectedOutput: string, evaluationLog: string)
    ensures var rec := TrialRecord(correct, responseTime, response, expectedOutput, evaluationLog);
            && Keys(rec) == TrialKeys()
            && Values(rec) == [VerdictValue(correct), NumVal(responseTime), TextVal(response),
                               TextVal(expectedOutput), TextVal(evaluationLog)]
  {
    var rec := TrialRecord(correct, responseTime, response, expectedOutput, evaluationLog);
    assert Keys(rec) == [rec[0].key] + Keys(rec[1..]);
  }

  /** A record with the keys of a trial record. */
  ghost predicate IsTrialRecord(rec: Record) {
    Keys(rec) == TrialKeys()
  }

  /** The value `run_trials` shows on the progress bar after `completed` of
   *  `total` trials have completed. */
  function Progress(completed: nat, total: nat): real
    requires total > 0
  {
    completed as real / total as real
  }

  /** The time between the `from`-th reading of a clock and the next one. */
  function Elapsed(reading: nat -> real, from: nat): real {
    reading(from + 1) - reading(from)
  }

  /** The values the progress bar shows as the first `n` trials complete. */
  function ProgressBar(n: nat, total: nat): (bar: seq<real>)
    requires total > 0
    ensures |bar| == n
    ensures forall k :: 0 <= k < n ==> bar[k] == Progress(k + 1, total)
  {
    if n == 0 then [] else ProgressBar(n - 1, total) + [Progress(n, total)]
  }

  class TrialManager {
    const modelManager: ModelManager
    const evaluator: Evaluator
    const numTrials: int
    /** The size of the thread pool; trials run one at a time here. */
    const maxWorkers: int
    const prompt: string
    /** The extra keyword arguments for `generate_response`. */
    const kwargs: Record
    const metricsLogger: MetricsLogger
    /** `time.time()` */
    const clock: Clock
    /** `log_messages`: kept by the manager; no operation writes to it. */
    var logMessages: seq<string>

    /** `TrialManager(model_manager, evaluator, num_trials, max_workers, prompt, **kwargs)` */
    constructor (modelManager: ModelManager, evaluator: Evaluator, clock: Clock,
                 numTrials: int := 50, maxWorkers: int := 5, prompt: string := "",
                 kwargs: Record := [])
      ensures this.modelManager == modelManager && this.evaluator == evaluator && this.clock == clock
      ensures this.numTrials == numTrials && this.maxWorkers == maxWorkers
      ensures this.prompt == prompt && this.kwargs == kwargs
      ensures fresh(metricsLogger) && metricsLogger.trials == []
      ensures logMessages == []
    {
      this.modelManager := modelManager;
      this.evaluator := evaluator;
      this.clock := clock;
      this.numTrials := numTrials;
      this.maxWorkers := maxWorkers;
      this.prompt := prompt;
      this.kwargs := kwargs;
      this.metricsLogger := new MetricsLogger();
      logMessages := [];
    }

    /** The request `run_trial` sends the model. */
    function UserRequest(): Request {
      Request(UserPrompt(prompt), kwargs)
    }

    /** The end of `run_trial()`: join the evaluator's log into one
     *  message, clear the log, and log the trial's record. */
    method RecordTrial(correct: Verdict, responseTime: real, response: string)
      modifies evaluator`logMessages, metricsLogger`trials
      ensures metricsLogger.trials == old(metricsLogger.trials) + [
                TrialRecord(correct, responseTime, response, evaluator.expectedOutput,
                            Join("\n", old(evaluator.logMessages)))]
      ensures IsTrialRecord(metricsLogger.trials[|old(metricsLogger.trials)|])
      ensures evaluator.logMessages == []
    {
      var logMessage := Join("\n", evaluator.logMessages);
      evaluator.logMessages := [];
      TrialRecordLayout(correct, responseTime, response, evaluator.expectedOutput, logMessage);
      metricsLogger.LogTrial(TrialRecord(correct, responseTime, response,
                                         evaluator.expectedOutput, logMessage));
    }

    /** The rest of `run_trial()` once the response is in: evaluate it and,
     *  unless the evaluation raises, record the trial. `assessment` is what
     *  the evaluator made of the response. */
    method EvaluateAndRecord(response: string, responseTime: real)
      returns (r: TrialOutcome, ghost assessment: Assessment)
      modifies evaluator`logMessages, evaluator.judge, metricsLogger`trials
      ensures assessment == evaluator.Evaluation(
                if evaluator.judge == null then 0 else |old(evaluator.judge.calls)|, response)
      ensures r.Failed? <==> assessment.outcome.Raised?
      ensures r.Failed? ==> metricsLogger.trials == old(metricsLogger.trials)
                            && evaluator.logMessages == old(evaluator.logMessages)
      ensures r.Completed? ==>
                && r.correct == assessment.outcome.verdict && r.responseTime == responseTime
                && metricsLogger.trials == old(metricsLogger.trials) + [
                     TrialRecord(r.correct, responseTime, response, evaluator.expectedOutput,
                                 Join("\n", old(evaluator.logMessages) + assessment.logged))]
                && IsTrialRecord(metricsLogger.trials[|old(metricsLogger.trials)|])
                && evaluator.logMessages == []
    {
      assessment := evaluator.Evaluation(if evaluator.judge == null then 0 else |evaluator.judge.calls|, response);
      var isCorrect := evaluator.Evaluate(response);
      if isCorrect.Raised? {
        return Failed, assessment;
      }
      RecordTrial(isCorrect.verdict, responseTime, response);
      r := Completed(isCorrect.verdict, responseTime);
    }

    /** `run_trial()`: read the clock, generate a response, read the clock,
     *  evaluate, and record the trial. `reply` is the model's answer and
     *  `assessment` what the evaluator made of it. */
    method RunTrial() returns (r: TrialOutcome, ghost reply: Reply, ghost assessment: Assessment)
      modifies clock`readings, modelManager`calls, evaluator`logMessages, evaluator.judge, metricsLogger`trials
      ensures reply == modelManager.respond(|old(modelManager.calls)|, UserRequest())
      ensures reply.ProviderError? || evaluator.judge != modelManager ==>
                modelManager.calls == old(modelManager.calls) + [UserRequest()]
      ensures reply.Generated? ==>
                assessment == evaluator.Evaluation(
                  if evaluator.judge == modelManager then |old(modelManager.calls)| + 1
                  else if evaluator.judge != null then |old(evaluator.judge.calls)| else 0,
                  reply.text)
      ensures reply.ProviderError? ==> clock.readings == old(clock.readings) + 1
      ensures reply.Generated? ==> clock.readings == old(clock.readings) + 2
      ensures r.Failed? <==> reply.ProviderError? || assessment.outcome.Raised?
      ensures r.Failed? ==> metricsLogger.trials == old(metricsLogger.trials)
                            && evaluator.logMessages == old(evaluator.logMessages)
      ensures r.Completed? ==>
                && r.correct == assessment.outcome.verdict
                && r.responseTime == Elapsed(clock.reading, old(clock.readings))
                && metricsLogger.trials == old(metricsLogger.trials) + [
                     TrialRecord(r.correct, r.responseTime, reply.text, evaluator.expectedOutput,
                                 Join("\n", old(evaluator.logMessages) + assessment.logged))]
                && IsTrialRecord(metricsLogger.trials[|old(metricsLogger.trials)|])
                && evaluator.logMessages == []
    {
      ghost var judgeAt := if evaluator.judge == modelManager then |modelManager.calls| + 1
                           else if evaluator.judge != null then |evaluator.judge.calls| else 0;
      ghost var firstReading := clock.readings;
      assessment := Assessment(Raised(JudgeFailed), []);
      var startTime := clock.Time();
      var generated := modelManager.GenerateResponse(UserPrompt(prompt), kwargs);
      reply := generated;
      if generated.ProviderError? {
        return Failed, reply, assessment;
      }
      var endTime := clock.Time();
      var responseTime := endTime - startTime;
      assert responseTime == Elapsed(clock.reading, firstReading) by {
        assert startTime == clock.reading(firstReading) && endTime == clock.reading(firstReading + 1);
      }
      assert evaluator.judge != null ==> |evaluator.judge.calls| == judgeAt;
      r, assessment := EvaluateAndRecord(generated.text, responseTime);
    }

    /** `future.result()` in `run_trials()`: the trial runs, and `completed`
     *  says whether it returned rather than raised: it completes exactly when
     *  the model answers and the evaluation of the answer, with the judge's
     *  `judgeAt`-th answer, does not raise. A trial whose model call fails
     *  never completes, nor does one whose evaluation always raises; with an
     *  evaluation method other than `llm`, one whose model call succeeds
     *  always does. */
    method AwaitTrial() returns (completed: bool, ghost judgeAt: nat)
      modifies clock`readings, modelManager`calls, evaluator`logMessages, evaluator.judge, metricsLogger`trials
      ensures judgeAt == if evaluator.judge == modelManager then |old(modelManager.calls)| + 1
                         else if evaluator.judge != null then |old(evaluator.judge.calls)| else 0
      ensures completed <==> Completes(evaluator, modelManager.respond(|old(modelManager.calls)|, UserRequest()), judgeAt)
      ensures JudgeAlwaysRaises(evaluator) ==> !completed
      ensures modelManager.respond(|old(modelManager.calls)|, UserRequest()).ProviderError? ==> !completed
      ensures evaluator.evaluationMethod != "llm" && modelManager.respond(|old(modelManager.calls)|, UserRequest()).Generated?
              ==> completed
      ensures evaluator.judge != modelManager ==> modelManager.calls == old(modelManager.calls) + [UserRequest()]
      ensures !completed ==> metricsLogger.trials == old(metricsLogger.trials)
                             && evaluator.logMessages == old(evaluator.logMessages)
      ensures completed ==>
                && |metricsLogger.trials| == |old(metricsLogger.trials)| + 1
                && metricsLogger.trials[..|old(metricsLogger.trials)|] == old(metricsLogger.trials)
                && IsTrialRecord(metricsLogger.trials[|old(metricsLogger.trials)|])
                && evaluator.logMessages == []
    {
      judgeAt := if evaluator.judge == modelManager then |modelManager.calls| + 1
                 else if evaluator.judge != null then |evaluator.judge.calls| else 0;
      var outcome;
      ghost var reply, assessment;
      outcome, reply, assessment := RunTrial();
      completed := outcome.Completed?;
      CompletesCases(evaluator, reply, judgeAt);
    }

    /** `run_trials()`: run `num_trials` trials and count those that complete;
     *  `progress` holds the value shown on the progress bar after each one,
     *  and `completions` says, trial by trial in submission order, whether the
     *  trial completed; `callIndices` and `judgeIndices` give the index of
     *  each trial's call to the model and of the judge answer its evaluation
     *  used. */
    method RunTrials() returns (progress: seq<real>, ghost completions: seq<bool>,
                                ghost callIndices: seq<nat>, ghost judgeIndices: seq<nat>)
      modifies clock`readings, modelManager`calls, evaluator`logMessages, evaluator.judge, metricsLogger`trials
      ensures |completions| == if numTrials < 0 then 0 else numTrials
      ensures |progress| == CountCompleted(completions)
      ensures |progress| > 0 ==> numTrials > 0 && progress == ProgressBar(|progress|, numTrials)
      ensures |callIndices| == |completions| && |judgeIndices| == |completions|
      ensures forall i :: 0 <= i < |completions| ==>
                (completions[i] <==> Completes(evaluator, modelManager.respond(callIndices[i], UserRequest()), judgeIndices[i]))
      ensures (forall n :: modelManager.respond(n, UserRequest()).ProviderError?) ==> |progress| == 0
      ensures JudgeAlwaysRaises(evaluator) ==> |progress| == 0
      ensures EvaluationNeverRaises(evaluator) && (forall n :: modelManager.respond(n, UserRequest()).Generated?)
              ==> |progress| == |completions|
      ensures |metricsLogger.trials| == |old(metricsLogger.trials)| + |progress|
      ensures metricsLogger.trials[..|old(metricsLogger.trials)|] == old(metricsLogger.trials)
      ensures forall i :: |old(metricsLogger.trials)| <= i < |metricsLogger.trials| ==> IsTrialRecord(metricsLogger.trials[i])
      ensures |progress| > 0 ==> evaluator.logMessages == []
      ensures |progress| == 0 ==> evaluator.logMessages == old(evaluator.logMessages)
      ensures evaluator.judge != modelManager ==>
                && |modelManager.calls| == |old(modelManager.calls)| + |completions|
                && modelManager.calls[..|old(modelManager.calls)|] == old(modelManager.calls)
                && forall i :: |old(modelManager.calls)| <= i < |modelManager.calls| ==> modelManager.calls[i] == UserRequest()
      ensures evaluator.judge != modelManager ==>
                forall i :: 0 <= i < |completions| ==> callIndices[i] == |old(modelManager.calls)| + i
    {
      progress, completions, callIndices, judgeIndices := AwaitAll();
      RunCompletions(evaluator, modelManager.respond, UserRequest(), completions, callIndices, judgeIndices);
    }

    /** The loop of `run_trials()`: submit `num_trials` trials and await each
     *  in turn. */
    method AwaitAll() returns (progress: seq<real>, ghost completions: seq<bool>,
                               ghost callIndices: seq<nat>, ghost judgeIndices: seq<nat>)
      modifies clock`readings, modelManager`calls, evaluator`logMessages, evaluator.judge, metricsLogger`trials
      ensures |completions| == if numTrials < 0 then 0 else numTrials
      ensures RunSoFar(old(metricsLogger.trials), old(modelManager.calls), old(evaluator.logMessages),
                       progress, completions, callIndices, judgeIndices)
    {
      progress, completions, callIndices, judgeIndices := [], [], [], [];
      var submitted := 0;
      while submitted < numTrials
        invariant 0 <= submitted && (numTrials >= 0 ==> submitted <= numTrials)
        invariant numTrials < 0 ==> submitted == 0
        invariant |completions| == submitted
        invariant RunSoFar(old(metricsLogger.trials), old(modelManager.calls), old(evaluator.logMessages),
                           progress, completions, callIndices, judgeIndices)
      {
        progress, completions, callIndices, judgeIndices :=
          SubmitNext(old(metricsLogger.trials), old(modelManager.calls), old(evaluator.logMessages),
                     progress, completions, callIndices, judgeIndices);
        submitted := submitted + 1;
      }
    }

    /** What `run_trials()` has done once `|completions|` trials have run,
     *  against the logger's trials `trials0`, the model's calls `calls0` and
     *  the evaluator's log `log0` before the run; `callIndices` holds the
     *  index of each trial's call to the model and `judgeIndices` the index
     *  of the judge answer its evaluation used. */
    ghost predicate RunSoFar(trials0: seq<Record>, calls0: seq<Request>, log0: seq<string>,
                             progress: seq<real>, completions: seq<bool>, callIndices: seq<nat>,
                             judgeIndices: seq<nat>)
      reads metricsLogger, modelManager, evaluator
    {
      && |callIndices| == |completions| && |judgeIndices| == |completions|
      && |progress| == CountCompleted(completions)
      && (|progress| > 0 ==> numTrials > 0 && progress == ProgressBar(|progress|, numTrials))
      && CompletionsFollow(evaluator, modelManager.respond, UserRequest(), completions, callIndices, judgeIndices)
      && |metricsLogger.trials| == |trials0| + |progress|
      && metricsLogger.trials[..|trials0|] == trials0
      && (forall i :: |trials0| <= i < |metricsLogger.trials| ==> IsTrialRecord(metricsLogger.trials[i]))
      && (|progress| > 0 ==> evaluator.logMessages == [])
      && (|progress| == 0 ==> evaluator.logMessages == log0)
      && (evaluator.judge != modelManager ==>
            && |modelManager.calls| == |calls0| + |completions|
            && modelManager.calls[..|calls0|] == calls0
            && (forall i :: |calls0| <= i < |modelManager.calls| ==> modelManager.calls[i] == UserRequest())
            && (forall i :: 0 <= i < |completions| ==> callIndices[i] == |calls0| + i))
    }

    /** One turn of the loop in `run_trials()`: await the next trial and, when
     *  it completed, move the progress bar on. */
    method SubmitNext(ghost trials0: seq<Record>, ghost calls0: seq<Request>, ghost log0: seq<string>,
                      progress: seq<real>, ghost completions: seq<bool>, ghost callIndices: seq<nat>,
                      ghost judgeIndices: seq<nat>)
      returns (progress': seq<real>, ghost completions': seq<bool>, ghost callIndices': seq<nat>,
               ghost judgeIndices': seq<nat>)
      requires |completions| < numTrials
      requires RunSoFar(trials0, calls0, log0, progress, completions, callIndices, judgeIndices)
      modifies clock`readings, modelManager`calls, evaluator`logMessages, evaluator.judge, metricsLogger`trials
      ensures |completions'| == |completions| + 1
      ensures RunSoFar(trials0, calls0, log0, progress', completions', callIndices', judgeIndices')
    {
      ghost var callAt := |modelManager.calls|;
      callIndices' := callIndices + [callAt];
      ghost var judgeAt;
      var completed;
      completed, judgeAt := AwaitTrial();
      judgeIndices' := judgeIndices + [judgeAt];
      CompletionsFollowStep(evaluator, modelManager.respond, UserRequest(), completions, callIndices, judgeIndices,
                            completed, callAt, judgeAt);
      CountCompletedStep(completions, completed);
      completions' := completions + [completed];
      progress' := progress;
      if completed {
        progress' := progress + [Progress(|progress| + 1, numTrials)];
      }
    }
  }

  /** A trial completes when the model answers with `reply` and `evaluate`
   *  does not raise on the answer: the method is not `llm`, or the judge
   *  exists and its `at`-th answer, to the request for the stripped answer,
   *  is not an error. */
  ghost predicate Completes(e: Evaluator, reply: Reply, at: nat) {
    && reply.Generated?
    && (e.evaluationMethod == "llm" ==>
          e.judge != null && e.judge.respond(at, JudgeRequest(e.Config(), Strip(reply.text))).Generated?)
  }

  /** `evaluate` raises whatever the response: the method is `llm` and there
   *  is no judge, or the judge fails on every call. */
  ghost predicate JudgeAlwaysRaises(e: Evaluator) {
    e.evaluationMethod == "llm" && (e.judge == null || forall n, q :: e.judge.respond(n, q).ProviderError?)
  }

  /** `evaluate` never raises: the method is not `llm`, or there is a judge
   *  and it answers every call. */
  ghost predicate EvaluationNeverRaises(e: Evaluator) {
    e.evaluationMethod != "llm" || (e.judge != null && forall n, q :: e.judge.respond(n, q).Generated?)
  }

  /** `Completes` is exactly "the model answered and `evaluate` did not raise
   *  on the answer". */
  lemma CompletesMeansNoRaise(e: Evaluator, reply: Reply, at: nat)
    ensures Completes(e, reply, at) <==> reply.Generated? && !e.Evaluation(at, reply.text).outcome.Raised?
  {
  }

  /** When a trial completes, in terms of the model's and the judge's replies. */
  lemma CompletesCases(e: Evaluator, reply: Reply, at: nat)
    ensures reply.ProviderError? ==> !Completes(e, reply, at)
    ensures JudgeAlwaysRaises(e) ==> !Completes(e, reply, at)
    ensures reply.Generated? && EvaluationNeverRaises(e) ==> Completes(e, reply, at)
    ensures reply.Generated? && e.evaluationMethod != "llm" ==> Completes(e, reply, at)
  {
  }

  /** Trial by trial, `completions` says whether the trial completed, given
   *  the index of its call to the model and of the judge answer it used. */
  ghost predicate CompletionsFollow(e: Evaluator, respond: (nat, Request) -> Reply, req: Request,
                                    completions: seq<bool>, callIndices: seq<nat>, judgeIndices: seq<nat>)
  {
    && |callIndices| == |completions| && |judgeIndices| == |completions|
    && forall i :: 0 <= i < |completions| ==>
         (completions[i] <==> Completes(e, respond(callIndices[i], req), judgeIndices[i]))
  }

  /** One more trial keeps `CompletionsFollow`. */
  lemma CompletionsFollowStep(e: Evaluator, respond: (nat, Request) -> Reply, req: Request,
                              completions: seq<bool>, callIndices: seq<nat>, judgeIndices: seq<nat>,
                              c: bool, ci: nat, ji: nat)
    requires CompletionsFollow(e, respond, req, completions, callIndices, judgeIndices)
    requires c <==> Completes(e, respond(ci, req), ji)
    ensures CompletionsFollow(e, respond, req, completions + [c], callIndices + [ci], judgeIndices + [ji])
  {
  }

  /** A run of trials whose completions follow `Completes` completes none of
   *  them when the model or the evaluation always fails, and all of them
   *  when neither ever does. */
  lemma RunCompletions(e: Evaluator, respond: (nat, Request) -> Reply, req: Request,
                       completions: seq<bool>, callIndices: seq<nat>, judgeIndices: seq<nat>)
    requires CompletionsFollow(e, respond, req, completions, callIndices, judgeIndices)
    ensures (forall n :: respond(n, req).ProviderError?) ==> CountCompleted(completions) == 0
    ensures JudgeAlwaysRaises(e) ==> CountCompleted(completions) == 0
    ensures EvaluationNeverRaises(e) && (forall n :: respond(n, req).Generated?)
            ==> CountCompleted(completions) == |completions|
  {
    forall i | 0 <= i < |completions|
      ensures (forall n :: respond(n, req).ProviderError?) || JudgeAlwaysRaises(e) ==> !completions[i]
      ensures EvaluationNeverRaises(e) && (forall n :: respond(n, req).Generated?) ==> completions[i]
    {
      CompletesCases(e, respond(callIndices[i], req), judgeIndices[i]);
    }
  }

  /** The number of trials that completed. */
  function CountCompleted(completions: seq<bool>): (n: nat)
    ensures n <= |completions|
    ensures n == 0 <==> forall i :: 0 <= i < |completions| ==> !completions[i]
    ensures n == |completions| <==> forall i :: 0 <= i < |completions| ==> completions[i]
  {
    if completions == [] then 0
    else (if completions[0] then 1 else 0) + CountCompleted(completions[1..])
  }

  lemma {:induction false} CountCompletedStep(completions: seq<bool>, c: bool)
    ensures CountCompleted(completions + [c]) == CountCompleted(completions) + (if c then 1 else 0)
  {
    if completions != [] {
      assert (completions + [c])[1..] == completions[1..] + [c];
      CountCompletedStep(completions[1..], c);
    }
  }

  // ---------------------------------------------------------------------------
  // Properties of a run

  /** The progress bar never goes back and never passes 1; it reaches 1
   *  exactly when every trial has completed. */
  lemma ProgressBounds(total: nat, k: nat, l: nat)
    requires 0 < k <= l <= total
    ensures 0.0 < Progress(k, total) <= Progress(l, total) <= 1.0
    ensures Progress(l, total) == 1.0 <==> l == total
  {
    DivMono(0.0, k as real, total as real);
    DivMono(k as real, l as real, total as real);
    DivMono(l as real, total as real, total as real);
  }

  lemma DivMono(a: real, b: real, n: real)
    requires n > 0.0 && a <= b
    ensures a / n <= b / n && (a < b ==> a / n < b / n)
  {
    assert b / n - a / n == (b - a) / n;
  }

  /** After any run the logger holds trial records only, so the export writes
   *  every one of them: the header is the trial keys and each row the values
   *  of its trial. */
  lemma TrialRecordsExport(trials: seq<Record>)
    requires trials != []
    requires forall i :: 0 <= i < |trials| ==> IsTrialRecord(trials[i])
    ensures Export(trials).Exported?
    ensures Export(trials).table.header == TrialKeys()
    ensures forall i :: 0 <= i < |trials| ==> Export(trials).table.rows[i] == Values(trials[i])
  {
    UniformTrialsExport(trials);
  }

  /** The row a completed trial exports: its verdict, duration, response,
   *  the stripped expected output and the drained log. */
  lemma TrialRowRoundTrip(v: Verdict, t: real, response: string, expected: string, log: string)
    ensures CsvRow(TrialKeys(), TrialRecord(v, t, response, expected, log))
            == [VerdictValue(v), NumVal(t), TextVal(response), TextVal(expected), TextVal(log)]
  {
    TrialRecordLayout(v, t, response, expected, log);
    FirstRowRoundTrip(TrialRecord(v, t, response, expected, log));
  }
}
