/** The evaluator of evaluator.py: decides whether a model's response matches
 *  the expected output, by comparing lines (`string_match`), by comparing word
 *  sets (`entity_recognition`) or by asking a judge model, and keeps a list of
 *  diagnostics for the evaluations that fail.
 */
module Evaluation {
  import opened Text
  import opened Records
  import opened Provider

  /** What `evaluate` returns: `True`, `False` or `None`. `None` comes back
   *  from the algorithmic method when its task type is neither of the two it
   *  knows, because `algorithmic_evaluate` then ends without a `return`. */
  datatype Verdict = Pass | Fail | Undecided

  /** The exceptions `evaluate` lets out: the `ValueError` for a missing judge,
   *  and whatever the judge's `generate_response` raises. */
  datatype EvalError = MissingJudge | JudgeFailed

  datatype Outcome = Returned(verdict: Verdict) | Raised(error: EvalError)

  /** An evaluation's outcome and the diagnostics it appends to `log_messages`. */
  datatype Assessment = Assessment(outcome: Outcome, logged: seq<string>)

  /** The evaluator's configuration, as fixed by its constructor. */
  datatype Settings = Settings(
    tables: Tables,
    taskType: string,
    expectedOutput: string,
    evaluationMethod: string,
    template: Template)

  // ---------------------------------------------------------------------------
  // Normalisation (evaluator.py:6-10)

  /** `remove_non_printable(s)`: the characters of `s` whose Unicode category
   *  does not start with 'C', in order. */
  function RemoveNonPrintable(t: Tables, s: string): (r: string)
    ensures forall c :: c in r <==> c in s && !t.isOther(c)
    ensures (forall c :: c in s ==> !t.isOther(c)) ==> r == s
    ensures |r| <= |s|
  {
    if s == [] then []
    else (if t.isOther(s[0]) then [] else [s[0]]) + RemoveNonPrintable(t, s[1..])
  }

  /** `normalize_unicode(s)`: NFKC. */
  function NormalizeUnicode(t: Tables, s: string): string {
    t.nfkc(s)
  }

  /** Removing the non-printable characters is done piecewise: a text's result
   *  is the results of its two parts, one after the other. */
  lemma {:induction false} RemoveNonPrintableConcat(t: Tables, a: string, b: string)
    ensures RemoveNonPrintable(t, a + b) == RemoveNonPrintable(t, a) + RemoveNonPrintable(t, b)
    decreases |a|
  {
    if a != [] {
      assert (a + b)[0] == a[0] && (a + b)[1..] == a[1..] + b;
      RemoveNonPrintableConcat(t, a[1..], b);
    } else {
      assert a + b == b;
    }
  }

  lemma RemoveNonPrintableIdempotent(t: Tables, s: string)
    ensures RemoveNonPrintable(t, RemoveNonPrintable(t, s)) == RemoveNonPrintable(t, s)
  {
  }

  // ---------------------------------------------------------------------------
  // string_match (evaluator.py:35-57)

  /** `[line.strip().lower() for line in lines if line.strip()]` */
  function NonBlankLines(t: Tables, lines: seq<string>): (r: seq<string>)
    ensures |r| <= |lines|
    ensures r == [] <==> forall k :: 0 <= k < |lines| ==> AllSpace(lines[k])
  {
    if lines == [] then []
    else
      var rest := NonBlankLines(t, lines[1..]);
      if Strip(lines[0]) != [] then [t.lower(Strip(lines[0]))] + rest else rest
  }

  /** The kept lines are taken line by line: the lines of two blocks give the
   *  kept lines of the first block followed by those of the second, so the
   *  kept lines stay in order and keep their repetitions. */
  lemma {:induction false} NonBlankLinesConcat(t: Tables, a: seq<string>, b: seq<string>)
    ensures NonBlankLines(t, a + b) == NonBlankLines(t, a) + NonBlankLines(t, b)
    decreases |a|, 1
  {
    if a == [] {
      assert a + b == b;
    } else {
      var h := if AllSpace(a[0]) then [] else [t.lower(Strip(a[0]))];
      NonBlankLinesConcatStep(t, a, b);
      NonBlankLinesFirst(t, a);
      Regroup3(h, NonBlankLines(t, a[1..]), NonBlankLines(t, b));
    }
  }

  /** The step of `NonBlankLinesConcat` for a non-empty first block. */
  lemma {:induction false} NonBlankLinesConcatStep(t: Tables, a: seq<string>, b: seq<string>)
    requires a != []
    ensures NonBlankLines(t, a + b)
            == (if AllSpace(a[0]) then [] else [t.lower(Strip(a[0]))]) + (NonBlankLines(t, a[1..]) + NonBlankLines(t, b))
    decreases |a|, 0
  {
    NonBlankLinesFirst(t, a + b);
    assert (a + b)[0] == a[0] && (a + b)[1..] == a[1..] + b;
    NonBlankLinesConcat(t, a[1..], b);
  }

  /** The first line of a block adds its stripped, lower-cased form to the
   *  kept lines of the others unless it is blank. */
  lemma NonBlankLinesFirst(t: Tables, lines: seq<string>)
    requires lines != []
    ensures NonBlankLines(t, lines)
            == (if AllSpace(lines[0]) then [] else [t.lower(Strip(lines[0]))]) + NonBlankLines(t, lines[1..])
  {
  }

  /** A text is one of the kept lines exactly when some non-blank line,
   *  stripped and lower-cased, gives it. */
  lemma {:induction false} NonBlankLinesAre(t: Tables, lines: seq<string>, x: string)
    ensures x in NonBlankLines(t, lines)
            <==> exists k :: 0 <= k < |lines| && !AllSpace(lines[k]) && x == t.lower(Strip(lines[k]))
  {
    if lines != [] {
      var rest := lines[1..];
      NonBlankLinesAre(t, rest, x);
      var kept := NonBlankLines(t, rest);
      assert NonBlankLines(t, lines) == if AllSpace(lines[0]) then kept else [t.lower(Strip(lines[0]))] + kept;
      if x in NonBlankLines(t, rest) {
        var k :| 0 <= k < |rest| && !AllSpace(rest[k]) && x == t.lower(Strip(rest[k]));
        assert lines[k + 1] == rest[k];
      }
      if k :| 0 < k < |lines| && !AllSpace(lines[k]) && x == t.lower(Strip(lines[k])) {
        assert rest[k - 1] == lines[k];
      }
    }
  }

  /** The lines `string_match` compares: the non-blank lines of the text with
   *  its non-printable characters removed and NFKC applied, each stripped and
   *  lower-cased. */
  function ComparisonLines(t: Tables, text: string): seq<string> {
    NonBlankLines(t, SplitLines(NormalizeUnicode(t, RemoveNonPrintable(t, text))))
  }

  /** `set(xs)` */
  function ToSet(xs: seq<string>): set<string> {
    set x | x in xs
  }

  function LineDiffMessage(t: Tables, missing: set<string>, extra: set<string>): string {
    "Words missing in response: " + t.showSet(missing) + "\nExtra words in response: " + t.showSet(extra)
  }

  /** `string_match`: the two texts must give the same comparison lines, in the
   *  same order; otherwise one diagnostic lists the lines only the expected
   *  output has and the lines only the response has. */
  function StringMatch(t: Tables, expected: string, response: string): (a: Assessment)
    ensures var e, r := ComparisonLines(t, expected), ComparisonLines(t, response);
            && (a.outcome == Returned(Pass) <==> e == r)
            && (a.outcome == Returned(Pass) ==> a.logged == [])
            && (a.outcome != Returned(Pass) ==>
                  a == Assessment(Returned(Fail), [LineDiffMessage(t, ToSet(e) - ToSet(r), ToSet(r) - ToSet(e))]))
  {
    var e := ComparisonLines(t, expected);
    var r := ComparisonLines(t, response);
    if e == r then Assessment(Returned(Pass), [])
    else Assessment(Returned(Fail), [LineDiffMessage(t, ToSet(e) - ToSet(r), ToSet(r) - ToSet(e))])
  }

  // ---------------------------------------------------------------------------
  // entity_recognition (evaluator.py:58-71)

  /** `set(re.findall(r'\b\w+\b', text.lower()))` */
  function Entities(t: Tables, text: string): set<string> {
    ToSet(Tokens(t, t.lower(text)))
  }

  /** The entities of a text are exactly the texts `\b\w+\b` matches in its
   *  lower-case form. */
  lemma EntitiesAreMatches(t: Tables, text: string, w: string)
    ensures w in Entities(t, text)
            <==> exists i, j :: IsMaximalRun(t, t.lower(text), i, j) && w == t.lower(text)[i..j]
  {
    TokensAreMaximalRuns(t, t.lower(text), w);
  }

  function EntityDiffMessage(t: Tables, missing: set<string>, extra: set<string>): string {
    "Missing entities: " + t.showSet(missing) + "\nExtra entities in response: " + t.showSet(extra)
  }

  /** `entity_recognition`: every word of the expected output must be a word of
   *  the response; otherwise one diagnostic lists the missing and the extra words. */
  function EntityRecognition(t: Tables, expected: string, response: string): (a: Assessment)
    ensures var e, r := Entities(t, expected), Entities(t, response);
            && (a.outcome == Returned(Pass) <==> e <= r)
            && (a.outcome == Returned(Pass) ==> a.logged == [])
            && (a.outcome != Returned(Pass) ==>
                  a == Assessment(Returned(Fail), [EntityDiffMessage(t, e - r, r - e)]))
  {
    var e := Entities(t, expected);
    var r := Entities(t, response);
    var missing := e - r;
    assert missing == {} ==> e <= r by {
      if missing == {} {
        forall x | x in e ensures x in r { assert x !in missing; }
      }
    }
    if missing == {} then Assessment(Returned(Pass), [])
    else Assessment(Returned(Fail), [EntityDiffMessage(t, missing, r - e)])
  }

  // ---------------------------------------------------------------------------
  // The two methods and the dispatch (evaluator.py:24-107)

  /** `algorithmic_evaluate(response)` on an already stripped response. */
  function Algorithmic(s: Settings, response: string): (a: Assessment)
    ensures s.taskType != "string_match" && s.taskType != "entity_recognition"
            ==> a == Assessment(Returned(Undecided), [])
  {
    if s.taskType == "string_match" then StringMatch(s.tables, s.expectedOutput, response)
    else if s.taskType == "entity_recognition" then EntityRecognition(s.tables, s.expectedOutput, response)
    else Assessment(Returned(Undecided), [])
  }

  /** The judge passes a response when its reply contains "yes" in any case;
   *  otherwise the stripped reply is the diagnostic. */
  function Judged(t: Tables, reply: Reply): (a: Assessment)
    ensures reply.ProviderError? ==> a == Assessment(Raised(JudgeFailed), [])
    ensures reply.Generated? ==>
              && (a.outcome == Returned(Pass) <==> Contains(t.lower(reply.text), "yes"))
              && (a.outcome != Returned(Pass) ==> a == Assessment(Returned(Fail), [Strip(reply.text)]))
  {
    match reply
    case ProviderError => Assessment(Raised(JudgeFailed), [])
    case Generated(text) =>
      if Contains(t.lower(text), "yes") then Assessment(Returned(Pass), [])
      else Assessment(Returned(Fail), [Strip(text)])
  }

  /** The template `llm_evaluate` uses: the custom one unless it is `None` or blank. */
  function ChooseTemplate(evaluatorPrompt: Option<string>): (tpl: Template)
    ensures tpl.CustomTemplate? <==> evaluatorPrompt.Some? && !AllSpace(evaluatorPrompt.value)
  {
    if evaluatorPrompt.Some? && Strip(evaluatorPrompt.value) != [] then CustomTemplate(evaluatorPrompt.value)
    else DefaultTemplate
  }

  /** The request `llm_evaluate` sends the judge for an already stripped response. */
  function JudgeRequest(s: Settings, response: string): (req: Request)
    ensures req.prompt.JudgeQuery? && req.prompt.template == s.template
    ensures req.prompt.taskType == s.taskType && req.prompt.expectedOutput == s.expectedOutput
    ensures req.prompt.response == response
    ensures req.options == []
  {
    Request(JudgeQuery(s.template, s.taskType, s.expectedOutput, response), [])
  }

  /** `evaluate(response)`: what it returns or raises, and what it logs.
   *  `judgeReply` is the judge's answer to `JudgeRequest(s, Strip(response))`,
   *  or `None` when the evaluator has no judge. */
  function Assess(s: Settings, response: string, judgeReply: Option<Reply>): (a: Assessment)
    ensures s.evaluationMethod != "algorithmic" && s.evaluationMethod != "llm"
            ==> a == Assessment(Returned(Fail), [])
    ensures s.evaluationMethod == "llm" && judgeReply.None? ==> a == Assessment(Raised(MissingJudge), [])
    ensures a.outcome.Raised? <==> s.evaluationMethod == "llm" && (judgeReply.None? || judgeReply.value.ProviderError?)
    ensures a.outcome == Returned(Undecided) <==>
              s.evaluationMethod == "algorithmic" && s.taskType != "string_match" && s.taskType != "entity_recognition"
    ensures a.outcome.Raised? || a.outcome == Returned(Pass) ==> a.logged == []
    ensures |a.logged| <= 1
  {
    var response := Strip(response);
    if s.evaluationMethod == "algorithmic" then Algorithmic(s, response)
    else if s.evaluationMethod == "llm" then
      if judgeReply.None? then Assessment(Raised(MissingJudge), []) else Judged(s.tables, judgeReply.value)
    else Assessment(Returned(Fail), [])
  }

  class Evaluator {
    const tables: Tables
    const taskType: string
    const expectedOutput: string
    const evaluationMethod: string
    /** `evaluator_model_manager`; `null` stands for `None`. */
    const judge: ModelManager?
    const evaluatorPrompt: Option<string>
    /** `log_messages`: one diagnostic per failed evaluation since the last drain. */
    var logMessages: seq<string>

    /** `Evaluator(task_type, expected_output, evaluation_method, evaluator_model_manager, evaluator_prompt)` */
    constructor (tables: Tables, taskType: string, expectedOutput: string,
                 evaluationMethod: string := "algorithmic", judge: ModelManager? := null,
                 evaluatorPrompt: Option<string> := None)
      ensures this.tables == tables && this.taskType == taskType
      ensures this.expectedOutput == Strip(expectedOutput)
      ensures this.evaluationMethod == tables.lower(evaluationMethod)
      ensures this.judge == judge && this.evaluatorPrompt == evaluatorPrompt
      ensures logMessages == []
    {
      this.tables := tables;
      this.taskType := taskType;
      this.expectedOutput := Strip(expectedOutput);
      this.evaluationMethod := tables.lower(evaluationMethod);
      this.judge := judge;
      this.evaluatorPrompt := evaluatorPrompt;
      logMessages := [];
    }

    function Config(): Settings {
      Settings(tables, taskType, expectedOutput, evaluationMethod, ChooseTemplate(evaluatorPrompt))
    }

    /** What `evaluate(response)` does when a call to the judge is its
     *  `at`-th call. */
    function Evaluation(at: nat, response: string): Assessment {
      var reply := if judge == null then None
                   else Some(judge.respond(at, JudgeRequest(Config(), Strip(response))));
      Assess(Config(), response, reply)
    }

    /** `evaluate(response)` */
    method Evaluate(response: string) returns (r: Outcome)
      modifies this`logMessages, judge
      ensures var a := Evaluation(if judge == null then 0 else |old(judge.calls)|, response);
              r == a.outcome && logMessages == old(logMessages) + a.logged
      ensures judge != null && evaluationMethod == "llm"
              ==> judge.calls == old(judge.calls) + [JudgeRequest(Config(), Strip(response))]
      ensures judge != null && evaluationMethod != "llm" ==> judge.calls == old(judge.calls)
    {
      var stripped := Strip(response);
      ghost var at := if judge == null then 0 else |judge.calls|;
      if evaluationMethod == "algorithmic" {
        assert Evaluation(at, response) == Algorithmic(Config(), stripped) by {
          EvaluationCases(at, response);
        }
        var v := AlgorithmicEvaluate(stripped);
        r := Returned(v);
      } else if evaluationMethod == "llm" {
        assert judge != null ==> Evaluation(at, response) == Judged(tables, judge.respond(at, JudgeRequest(Config(), stripped))) by {
          EvaluationCases(at, response);
        }
        r := LlmEvaluate(stripped);
      } else {
        assert Evaluation(at, response) == Assessment(Returned(Fail), []) by {
          EvaluationCases(at, response);
        }
        r := Returned(Fail);
      }
    }

    /** The three branches of `evaluate`, one per evaluation method. */
    lemma EvaluationCases(at: nat, response: string)
      ensures evaluationMethod == "algorithmic" ==> Evaluation(at, response) == Algorithmic(Config(), Strip(response))
      ensures evaluationMethod == "llm" && judge != null
              ==> Evaluation(at, response) == Judged(tables, judge.respond(at, JudgeRequest(Config(), Strip(response))))
      ensures evaluationMethod != "algorithmic" && evaluationMethod != "llm"
              ==> Evaluation(at, response) == Assessment(Returned(Fail), [])
    {
    }

    /** `algorithmic_evaluate(response)` */
    method AlgorithmicEvaluate(response: string) returns (v: Verdict)
      modifies this`logMessages
      ensures var a := Algorithmic(Config(), response);
              a.outcome == Returned(v) && logMessages == old(logMessages) + a.logged
    {
      if taskType == "string_match" {
        var expectedNormalized := NormalizeUnicode(tables, RemoveNonPrintable(tables, expectedOutput));
        var responseNormalized := NormalizeUnicode(tables, RemoveNonPrintable(tables, response));
        var expectedWords := NonBlankLines(tables, SplitLines(expectedNormalized));
        var actualWords := NonBlankLines(tables, SplitLines(responseNormalized));
        if expectedWords == actualWords {
          v := Pass;
        } else {
          var missing := ToSet(expectedWords) - ToSet(actualWords);
          var extra := ToSet(actualWords) - ToSet(expectedWords);
          logMessages := logMessages + [LineDiffMessage(tables, missing, extra)];
          v := Fail;
        }
      } else if taskType == "entity_recognition" {
        var expectedEntities := ToSet(Tokens(tables, tables.lower(expectedOutput)));
        var responseEntities := ToSet(Tokens(tables, tables.lower(response)));
        var missing := expectedEntities - responseEntities;
        var extra := responseEntities - expectedEntities;
        if missing == {} {
          v := Pass;
        } else {
          logMessages := logMessages + [EntityDiffMessage(tables, missing, extra)];
          v := Fail;
        }
      } else {
        v := Undecided;
      }
    }

    /** `llm_evaluate(response)` */
    method LlmEvaluate(response: string) returns (r: Outcome)
      modifies this`logMessages, judge
      ensures judge == null ==> r == Raised(MissingJudge) && logMessages == old(logMessages)
      ensures judge != null ==>
                var req := JudgeRequest(Config(), response);
                var a := Judged(tables, judge.respond(|old(judge.calls)|, req));
                && r == a.outcome && logMessages == old(logMessages) + a.logged
                && judge.calls == old(judge.calls) + [req]
    {
      if judge == null {
        r := Raised(MissingJudge);
        return;
      }
      var template := ChooseTemplate(evaluatorPrompt);
      var reply := judge.GenerateResponse(JudgeQuery(template, taskType, expectedOutput, response), []);
      match reply
      case ProviderError =>
        r := Raised(JudgeFailed);
      case Generated(result) =>
        if Contains(tables.lower(result), "yes") {
          r := Returned(Pass);
        } else {
          logMessages := logMessages + [Strip(result)];
          r := Returned(Fail);
        }
    }
  }

  // ---------------------------------------------------------------------------
  // Properties of the evaluation

  /** `evaluate` strips the response before anything else: white space around
   *  it changes neither the verdict, nor the log, nor what the judge is asked. */
  lemma PaddingIsIgnored(s: Settings, p: string, x: string, q: string, judgeReply: Option<Reply>)
    requires AllSpace(p) && AllSpace(q)
    ensures Assess(s, p + x + q, judgeReply) == Assess(s, x, judgeReply)
    ensures JudgeRequest(s, Strip(p + x + q)) == JudgeRequest(s, Strip(x))
  {
    StripIgnoresPadding(p, x, q);
  }

  /** `string_match` drops the characters of category C before it splits the
   *  text into lines, so such a character joins the text on its two sides. */
  lemma ControlCharactersJoinLines(t: Tables, a: string, c: char, b: string)
    requires t.isOther(c)
    ensures ComparisonLines(t, a + [c] + b) == ComparisonLines(t, a + b)
  {
    RemoveNonPrintableSkips(t, a, c, b);
  }

  lemma {:induction false} RemoveNonPrintableSkips(t: Tables, a: string, c: char, b: string)
    requires t.isOther(c)
    ensures RemoveNonPrintable(t, a + [c] + b) == RemoveNonPrintable(t, a + b)
    decreases |a|
  {
    var s := a + [c] + b;
    if a == [] {
      assert s[0] == c && s[1..] == b && a + b == b;
    } else {
      assert s[0] == a[0] && s[1..] == a[1..] + [c] + b;
      assert (a + b)[0] == a[0] && (a + b)[1..] == a[1..] + b;
      RemoveNonPrintableSkips(t, a[1..], c, b);
    }
  }

  /** In particular a line feed (category Cc) does not separate two lines. */
  lemma LineFeedsJoinLines(t: Tables, a: string, b: string)
    requires t.Valid()
    ensures ComparisonLines(t, a + "\n" + b) == ComparisonLines(t, a + b)
  {
    assert IsControl('\n');
    ControlCharactersJoinLines(t, a, '\n', b);
  }

  lemma AsciiCleaned(t: Tables, text: string)
    requires t.Valid() && IsAsciiText(text)
    ensures AsciiOrSeparators(RemoveNonPrintable(t, text))
    ensures ControlFree(RemoveNonPrintable(t, text))
    ensures IsAsciiText(RemoveNonPrintable(t, text))
  {
    var cleaned := RemoveNonPrintable(t, text);
    forall k | 0 <= k < |cleaned|
      ensures IsAscii(cleaned[k]) && !IsControl(cleaned[k])
    {
      assert cleaned[k] in cleaned;
      var j :| 0 <= j < |text| && text[j] == cleaned[k];
    }
  }

  lemma AsciiLineBreaksAreControls(s: string)
    requires IsAsciiText(s) && ControlFree(s)
    ensures BreakFree(s)
  {
    forall k | 0 <= k < |s| ensures !IsLineBreak(s[k]) {
      assert IsAscii(s[k]) && !IsControl(s[k]);
    }
  }

  lemma StripKeepsAscii(s: string)
    requires IsAsciiText(s)
    ensures IsAsciiText(Strip(s))
  {
    var p, q := StripSplits(s);
    var r := Strip(s);
    forall k | 0 <= k < |r| ensures IsAscii(r[k]) {
      assert r[k] == s[|p| + k];
    }
  }

  lemma NonBlankSingleLine(t: Tables, line: string)
    ensures NonBlankLines(t, [line]) == if Strip(line) == [] then [] else [t.lower(Strip(line))]
  {
    assert [line][1..] == [];
  }

  /** On ASCII text `string_match` sees at most one line: the text without its
   *  control characters, stripped and lower-cased. */
  lemma AsciiComparisonLines(t: Tables, text: string)
    requires t.Valid() && IsAsciiText(text)
    ensures var joined := Strip(RemoveNonPrintable(t, text));
            ComparisonLines(t, text) == if joined == [] then [] else [AsciiLower(joined)]
  {
    var cleaned := RemoveNonPrintable(t, text);
    AsciiCleaned(t, text);
    assert NormalizeUnicode(t, cleaned) == cleaned;
    AsciiLineBreaksAreControls(cleaned);
    StripKeepsAscii(cleaned);
    if cleaned == [] {
      assert Strip(cleaned) == [];
    } else {
      assert SplitLines(cleaned) == [cleaned];
      NonBlankSingleLine(t, cleaned);
      LowerAscii(t, Strip(cleaned));
    }
  }

  /** `entity_recognition` passes a response that has all the expected words;
   *  more words after a space do not change that. */
  lemma ExtraWordsKeepEntities(t: Tables, r: string, x: string)
    requires t.Valid()
    ensures Entities(t, r) <= Entities(t, r + " " + x)
  {
    assert !t.isWord(' ') by {
      assert IsSpace(' ');
    }
    assert t.lower(r + " " + x) == t.lower(r) + [' '] + t.lower(x);
    TokensAcrossSeparator(t, t.lower(r), ' ', t.lower(x));
  }

  lemma ExtraWordsKeepPass(t: Tables, expected: string, r: string, x: string)
    requires t.Valid() && EntityRecognition(t, expected, r).outcome == Returned(Pass)
    ensures EntityRecognition(t, expected, r + " " + x).outcome == Returned(Pass)
  {
    ExtraWordsKeepEntities(t, r, x);
  }

  lemma {:induction false} AsciiLowerIdempotent(s: string)
    ensures IsAsciiText(AsciiLower(s)) == IsAsciiText(s)
    ensures AsciiLower(AsciiLower(s)) == AsciiLower(s)
  {
    var l := AsciiLower(s);
    forall k | 0 <= k < |s|
      ensures IsAscii(l[k]) == IsAscii(s[k]) && AsciiLowerChar(l[k]) == l[k]
    {
    }
  }

  /** The words of an ASCII text do not depend on its letter case. */
  lemma EntitiesIgnoreCase(t: Tables, x: string)
    requires t.Valid() && IsAsciiText(x)
    ensures Entities(t, x) == Entities(t, AsciiLower(x))
  {
    AsciiLowerIdempotent(x);
    LowerAscii(t, x);
    LowerAscii(t, AsciiLower(x));
  }

  /** On ASCII text, removing the control characters and lower-casing can be
   *  done in either order. */
  lemma {:induction false} RemoveNonPrintableLower(t: Tables, s: string)
    requires t.Valid() && IsAsciiText(s)
    ensures RemoveNonPrintable(t, AsciiLower(s)) == AsciiLower(RemoveNonPrintable(t, s))
    decreases |s|
  {
    if s != [] {
      var c := s[0];
      assert IsAscii(AsciiLowerChar(c)) && IsControl(AsciiLowerChar(c)) == IsControl(c);
      assert AsciiLower(s)[0] == AsciiLowerChar(c) && AsciiLower(s)[1..] == AsciiLower(s[1..]);
      RemoveNonPrintableLower(t, s[1..]);
      var head := if t.isOther(c) then [] else [c];
      AsciiLowerConcat(head, RemoveNonPrintable(t, s[1..]));
    }
  }

  /** `string_match` ignores letter case: an ASCII response and its lower-case
   *  form get the same verdict and the same diagnostic. */
  lemma StringMatchIgnoresCase(t: Tables, expected: string, response: string)
    requires t.Valid() && IsAsciiText(response)
    ensures StringMatch(t, expected, AsciiLower(response)) == StringMatch(t, expected, response)
  {
    AsciiLowerIdempotent(response);
    AsciiComparisonLines(t, response);
    AsciiComparisonLines(t, AsciiLower(response));
    var cleaned := RemoveNonPrintable(t, response);
    RemoveNonPrintableLower(t, response);
    StripLower(cleaned);
    AsciiLowerIdempotent(Strip(cleaned));
  }

  // ---------------------------------------------------------------------------
  // Worked examples

  /** A non-empty word of ASCII letters, digits and underscores. */
  ghost predicate AsciiWord(w: string) {
    w != [] && forall k :: 0 <= k < |w| ==> IsAsciiWordChar(w[k])
  }

  lemma AsciiWordLine(t: Tables, w: string)
    requires t.Valid() && AsciiWord(w)
    ensures ComparisonLines(t, w) == [AsciiLower(w)]
  {
    assert IsAsciiText(w) && ControlFree(w);
    assert forall c :: c in w ==> !t.isOther(c);
    assert RemoveNonPrintable(t, w) == w;
    assert Trimmed(w);
    StripOfPadded([], w, []);
    assert [] + w + [] == w;
    AsciiComparisonLines(t, w);
  }

  lemma AsciiWordEntity(t: Tables, w: string)
    requires t.Valid() && AsciiWord(w)
    ensures t.lower(w) == AsciiLower(w)
    ensures Tokens(t, AsciiLower(w)) == [AsciiLower(w)]
  {
    var l := AsciiLower(w);
    assert IsAsciiText(w);
    LowerAscii(t, w);
    assert forall k :: 0 <= k < |l| ==> IsAsciiWordChar(l[k]) && IsAscii(l[k]);
    SingleToken(t, l);
  }

  /** The words of two ASCII words on two lines are the two words, lower-cased. */
  lemma TwoLineEntities(t: Tables, a: string, b: string)
    requires t.Valid() && AsciiWord(a) && AsciiWord(b)
    ensures Entities(t, a + "\n" + b) == {AsciiLower(a), AsciiLower(b)}
  {
    AsciiWordEntity(t, a);
    AsciiWordEntity(t, b);
    LowerTwoLines(t, a, b);
    TokensAcrossSeparator(t, AsciiLower(a), '\n', AsciiLower(b));
    PairSet(AsciiLower(a), AsciiLower(b));
  }

  lemma LowerTwoLines(t: Tables, a: string, b: string)
    requires t.Valid() && IsAsciiText(a) && IsAsciiText(b)
    ensures t.lower(a + "\n" + b) == AsciiLower(a) + ['\n'] + AsciiLower(b)
  {
    var text := a + "\n" + b;
    assert IsAsciiText(text) by {
      assert forall k :: 0 <= k < |a| ==> text[k] == a[k];
      assert forall k :: |a| < k < |text| ==> text[k] == b[k - |a| - 1];
    }
    LowerAscii(t, text);
    AsciiLowerConcat(a + "\n", b);
    AsciiLowerConcat(a, "\n");
    assert AsciiLower("\n") == "\n";
  }


  /** Two words on two lines against the same words in the other order:
   *  `string_match` fails (the lines, joined, differ), `entity_recognition`
   *  passes, and the two words written together with no line break pass
   *  `string_match`, because the line feed is gone before lines are split. */
  lemma SwappedLines(t: Tables, a: string, b: string)
    requires t.Valid() && AsciiWord(a) && AsciiWord(b)
    requires AsciiLower(a + b) != AsciiLower(b + a)
    ensures StringMatch(t, a + "\n" + b, b + "\n" + a).outcome == Returned(Fail)
    ensures EntityRecognition(t, a + "\n" + b, b + "\n" + a).outcome == Returned(Pass)
    ensures StringMatch(t, a + "\n" + b, a + b).outcome == Returned(Pass)
  {
    JoinedWordLines(t, a, b);
    JoinedWordLines(t, b, a);
    TwoLineEntities(t, a, b);
    TwoLineEntities(t, b, a);
  }

  lemma JoinedWordLines(t: Tables, a: string, b: string)
    requires t.Valid() && AsciiWord(a) && AsciiWord(b)
    ensures ComparisonLines(t, a + "\n" + b) == ComparisonLines(t, a + b) == [AsciiLower(a + b)]
  {
    LineFeedsJoinLines(t, a, b);
    assert AsciiWord(a + b);
    AsciiWordLine(t, a + b);
  }

  lemma ParisFranceWords()
    ensures "Paris" + "\n" + "France" == "Paris\nFrance"
    ensures "France" + "\n" + "Paris" == "France\nParis"
    ensures "Paris" + "France" == "ParisFrance"
    ensures AsciiWord("Paris") && AsciiWord("France")
    ensures AsciiLower("Paris" + "France") != AsciiLower("France" + "Paris")
  {
    assert AsciiLower("Paris" + "France")[0] == 'p';
    assert AsciiLower("France" + "Paris")[0] == 'f';
  }

  /** Expected "Paris\nFrance": the response "France\nParis" fails
   *  `string_match` and passes `entity_recognition`, and "ParisFrance" passes
   *  `string_match`. */
  lemma ParisFranceExample(t: Tables)
    requires t.Valid()
    ensures StringMatch(t, "Paris\nFrance", "France\nParis").outcome == Returned(Fail)
    ensures EntityRecognition(t, "Paris\nFrance", "France\nParis").outcome == Returned(Pass)
    ensures StringMatch(t, "Paris\nFrance", "ParisFrance").outcome == Returned(Pass)
  {
    ParisFranceWords();
    SwappedLines(t, "Paris", "France");
  }

  /** Two ASCII letters separated by U+2028 (LINE SEPARATOR, category Zl) are two lines. */
  lemma SeparatedLetters(t: Tables, x: char, y: char)
    requires t.Valid() && 'a' <= x <= 'z' && 'a' <= y <= 'z'
    ensures ComparisonLines(t, [x, '\U{2028}', y]) == [[x], [y]]
  {
    SeparatedLettersSurvive(t, x, y);
    SeparatedLettersSplit(x, y);
    LetterLine(t, x);
    LetterLine(t, y);
    TwoLetterLines(t, x, y);
  }

  lemma SeparatedLettersSurvive(t: Tables, x: char, y: char)
    requires t.Valid() && 'a' <= x <= 'z' && 'a' <= y <= 'z'
    ensures NormalizeUnicode(t, RemoveNonPrintable(t, [x, '\U{2028}', y])) == [x, '\U{2028}', y]
  {
    var s := [x, '\U{2028}', y];
    assert forall c :: c in s ==> !t.isOther(c);
    assert RemoveNonPrintable(t, s) == s;
    assert AsciiOrSeparators(s);
  }

  lemma SeparatedLettersSplit(x: char, y: char)
    requires 'a' <= x <= 'z' && 'a' <= y <= 'z'
    ensures SplitLines([x, '\U{2028}', y]) == [[x], [y]]
  {
    var s := [x, '\U{2028}', y];
    assert LineLength(s) == 1 by {
      assert s[1..] == ['\U{2028}', y];
    }
    assert s[2..] == [y] && s[..1] == [x];
  }

  lemma TwoLetterLines(t: Tables, x: char, y: char)
    requires NormalizeUnicode(t, RemoveNonPrintable(t, [x, '\U{2028}', y])) == [x, '\U{2028}', y]
    requires SplitLines([x, '\U{2028}', y]) == [[x], [y]]
    requires Strip([x]) == [x] && t.lower([x]) == [x]
    requires Strip([y]) == [y] && t.lower([y]) == [y]
    ensures ComparisonLines(t, [x, '\U{2028}', y]) == [[x], [y]]
  {
    assert [[y]][1..] == [];
    assert NonBlankLines(t, [[y]]) == [[y]];
    assert [[x], [y]][1..] == [[y]];
    assert NonBlankLines(t, [[x], [y]]) == [[x], [y]];
  }

  lemma LetterLine(t: Tables, x: char)
    requires t.Valid() && 'a' <= x <= 'z'
    ensures Strip([x]) == [x] && t.lower([x]) == [x]
  {
    assert Trimmed([x]);
    StripOfPadded([], [x], []);
    assert [] + [x] + [] == [x];
    assert IsAsciiText([x]);
    assert LowersAscii([x], t.lower([x]));
  }

  /** Two lines that differ only in their order fail `string_match` with a
   *  diagnostic whose two sets are both empty. */
  lemma OrderOnlyMismatch(t: Tables, x: char, y: char)
    requires t.Valid() && 'a' <= x <= 'z' && 'a' <= y <= 'z' && x != y
    ensures StringMatch(t, [x, '\U{2028}', y], [y, '\U{2028}', x])
            == Assessment(Returned(Fail), [LineDiffMessage(t, {}, {})])
  {
    SeparatedLetters(t, x, y);
    SeparatedLetters(t, y, x);
    SwappedLinesFail(t, [x, '\U{2028}', y], [y, '\U{2028}', x], [x], [y]);
  }

  lemma SwappedLinesFail(t: Tables, expected: string, response: string, u: string, v: string)
    requires u != v
    requires ComparisonLines(t, expected) == [u, v] && ComparisonLines(t, response) == [v, u]
    ensures StringMatch(t, expected, response) == Assessment(Returned(Fail), [LineDiffMessage(t, {}, {})])
  {
    var e, r := ComparisonLines(t, expected), ComparisonLines(t, response);
    assert e != r by {
      assert e[0] != r[0];
    }
    assert ToSet(e) == ToSet(r) by {
      PairSet(u, v);
      PairSet(v, u);
    }
    assert ToSet(e) - ToSet(r) == {};
  }

  lemma PairSet(u: string, v: string)
    ensures ToSet([u, v]) == {u, v}
  {
  }

  lemma YesSpellings()
    ensures IsAsciiText("Yes") && LowersAscii("Yes", "yes")
    ensures IsAsciiText("YES") && LowersAscii("YES", "yes")
  {
  }

  /** The judge passes any reply in which "yes", in any letter case, stands
   *  between spaces, whatever the rest of the reply says. */
  lemma {:induction false} SpacedYesPasses(t: Tables, p: string, w: string, q: string)
    requires t.Valid() && IsAsciiText(w) && LowersAscii(w, "yes")
    ensures Judged(t, Generated(p + " " + w + " " + q)).outcome == Returned(Pass)
  {
    var text := p + " " + w + " " + q;
    assert text == p + " " + (w + " " + q);
    assert t.lower(text) == t.lower(p) + " " + t.lower(w + " " + q);
    assert t.lower(w + " " + q) == t.lower(w) + " " + t.lower(q);
    assert t.lower(w) == "yes";
    var l := t.lower(text);
    var i := |t.lower(p)| + 1;
    assert l == t.lower(p) + " " + "yes" + " " + t.lower(q);
    assert l[i..i + 3] == "yes";
    assert OccursAt(l, "yes", i);
  }

  /** The judge's "Yes" and "YES" both pass. */
  lemma YesInAnyCasePasses(t: Tables, p: string, q: string)
    requires t.Valid()
    ensures Judged(t, Generated(p + " Yes " + q)).outcome == Returned(Pass)
    ensures Judged(t, Generated(p + " YES " + q)).outcome == Returned(Pass)
  {
    YesSpellings();
    SpacedYesPasses(t, p, "Yes", q);
    SpacedYesPasses(t, p, "YES", q);
    assert p + " " + "Yes" + " " + q == p + " Yes " + q;
    assert p + " " + "YES" + " " + q == p + " YES " + q;
  }

  lemma MethodSpellings()
    ensures IsAsciiText("LLM") && LowersAscii("LLM", "llm")
    ensures IsAsciiText("llm") && LowersAscii("llm", "llm")
    ensures IsAsciiText("Algorithmic") && LowersAscii("Algorithmic", "algorithmic")
    ensures IsAsciiText("algorithmic") && LowersAscii("algorithmic", "algorithmic")
  {
  }

  /** The evaluation method is matched in any letter case: the spellings the
   *  application offers, and their lower-case forms, name the two methods. */
  lemma MethodNamesIgnoreCase(t: Tables)
    requires t.Valid()
    ensures t.lower("LLM") == "llm" && t.lower("llm") == "llm"
    ensures t.lower("Algorithmic") == "algorithmic" && t.lower("algorithmic") == "algorithmic"
  {
    MethodSpellings();
  }
}
