/** `solveQuestion` (app.js:265-330): the answer-resolution pipeline. A
    blank question is refused; a `plot` question is handed to the plotter;
    any other question is classified by its keyword, sent to the algebra
    engine, and answered from the engine's result when it is meaningful,
    or else, and whenever extraction or the engine throws, by the AI. */
module Tutor {
  import opened Types
  import opened Text
  import opened Pattern
  import opened Assistant

  const EMPTY_QUESTION := "Please enter a question."
  const PLOT_LABEL := "Plotted function: "
  const SOLUTION_LABEL := "Algebrite Solution: "

  /** What a non-blank, non-plot question asks the algebra engine for. */
  datatype Intent = Integrate | Derivative | SolveEquation | Generic

  /** Why the algebra attempt produced no result: the keyword's pattern did
      not match (reading index 1 of `null` throws), or the engine threw. */
  datatype Failure = NoMatch | Threw(message: string)

  /** The algebra engine's outcome and the calls made to it. */
  datatype Attempt = Attempt(result: Result<string, Failure>, calls: seq<Call>)

  /** The question starts with `plot`, in any case. */
  predicate IsPlot(question: string) {
    StartsWith(Lower(question), "plot")
  }

  /** `toLowerCase().startsWith('plot')` accepts each of the four letters in
      either case, and nothing else. */
  lemma PlotInAnyCase(question: string)
    ensures IsPlot(question) <==>
      && |question| >= 4
      && (question[0] == 'p' || question[0] == 'P')
      && (question[1] == 'l' || question[1] == 'L')
      && (question[2] == 'o' || question[2] == 'O')
      && (question[3] == 't' || question[3] == 'T')
  {
    if |question| >= 4 {
      var lower := Lower(question);
      assert lower[..4] == [lower[0], lower[1], lower[2], lower[3]];
    }
  }

  /** `question.substring(4).trim()` on a `plot` question: what follows the
      first four characters, without the white space around it. */
  function PlotExpression(question: string): (r: string)
    requires IsPlot(question)
    ensures |r| <= |question| - 4
    ensures exists k :: TrimmedAt(question[4..], r, k)
    ensures r != [] ==> !IsSpace(r[0]) && !IsSpace(r[|r| - 1])
  {
    Trim(question[4..])
  }

  /** The keyword test, case-insensitive, first match wins. The three
      keywords start with different letters, so at most one can match and
      the order of the tests does not change the outcome. */
  function Classify(question: string): (r: Intent)
    ensures r == Integrate <==> StartsWith(Lower(question), "integrate(")
    ensures r == Derivative <==> StartsWith(Lower(question), "derivative(")
    ensures r == SolveEquation <==> StartsWith(Lower(question), "solve(")
  {
    var lower := Lower(question);
    assert StartsWith(lower, "integrate(") ==> lower[0] == 'i';
    assert StartsWith(lower, "derivative(") ==> lower[0] == 'd';
    assert StartsWith(lower, "solve(") ==> lower[0] == 's';
    if StartsWith(lower, "integrate(") then Integrate
    else if StartsWith(lower, "derivative(") then Derivative
    else if StartsWith(lower, "solve(") then SolveEquation
    else Generic
  }

  /** `question.match(/keyword\((.*)\)/)[1]`: case-sensitive and greedy. It
      finds nothing exactly when no position holds the literal keyword and
      an opening parenthesis followed, on the same line, by a closing one;
      what it finds is the text between the leftmost such keyword and the
      last closing parenthesis on that line. */
  function Extract(question: string, keyword: string): Option<string> {
    match Find(question, keyword + "(", ')', Greedy)
    case None => None
    case Some(m) => Some(m.capture)
  }

  /** What `Extract` finds, in terms of the pattern's matches. */
  lemma ExtractMatches(question: string, keyword: string)
    ensures Extract(question, keyword).None? <==> forall i: nat :: !MatchesAt(question, keyword + "(", ')', i)
    ensures Extract(question, keyword).Some? ==>
      exists m :: && IsMatch(question, keyword + "(", ')', Greedy, m)
                  && (forall i: nat :: i < m.start ==> !MatchesAt(question, keyword + "(", ')', i))
                  && m.capture == Extract(question, keyword).value
    ensures Extract(question, keyword).Some? ==>
      exists i: nat :: OccursAt(question, keyword + "(" + Extract(question, keyword).value + ")", i)
  {
    match Find(question, keyword + "(", ')', Greedy)
    case None =>
    case Some(m) =>
      MatchOccurs(question, keyword + "(", ')', Greedy, m);
      assert Matched(keyword + "(", ')', m) == keyword + "(" + m.capture + ")";
      assert MatchesAt(question, keyword + "(", ')', m.start);
  }

  /** The result test of app.js:313: non-empty and none of the engine's
      empty-set, empty-tuple and undefined markers. */
  predicate IsMeaningful(text: string) {
    text != "" && text != "()" && text != "[]" && text != "undefined"
  }

  /** Only the empty text and three short markers are rejected: any result
      longer than `undefined` is meaningful. */
  lemma FourRejectedResults(text: string)
    ensures !IsMeaningful(text) <==> text in {"", "()", "[]", "undefined"}
    ensures !IsMeaningful(text) ==> |text| <= |"undefined"|
  {
  }

  predicate Meaningful(result: Result<string, Failure>) {
    result.Ok? && IsMeaningful(result.value)
  }

  /** One call of `Algebrite.run(input).toString()`. */
  function Engine(run: string -> Result<string, string>, input: string): (r: Attempt)
    ensures r.calls == [AlgebraRun(input)]
    ensures r.result.Ok? <==> run(input).Ok?
    ensures r.result.Ok? ==> r.result.value == run(input).value
    ensures run(input).Err? ==> r.result == Err(Threw(run(input).error))
  {
    match run(input)
    case Ok(text) => Attempt(Ok(text), [AlgebraRun(input)])
    case Err(message) => Attempt(Err(Threw(message)), [AlgebraRun(input)])
  }

  predicate IsEmptySet(result: Result<string, string>) {
    result == Ok("[]") || result == Ok("()")
  }

  /** The algebra attempt on a trimmed, non-plot question. Only the algebra
      engine is called, at most twice; no call at all exactly when the
      keyword's pattern does not match. A second call happens only on the
      `solve(` path, when the root finder answers with an empty set, and
      it then solves for `x`. */
  function AskAlgebra(question: string, run: string -> Result<string, string>): (r: Attempt)
    ensures OnlyAlgebra(r.calls) && |r.calls| <= 2
    ensures r.calls == [] <==> r.result == Err(NoMatch)
    ensures Classify(question) == Generic ==> r == Engine(run, question)
    ensures Classify(question) == SolveEquation && Extract(question, "solve").Some? ==>
      var equation := Extract(question, "solve").value;
      && |r.calls| >= 1 && r.calls[0] == AlgebraRun("roots(" + equation + ")")
      && (|r.calls| == 2 <==> IsEmptySet(run("roots(" + equation + ")")))
      && (|r.calls| == 2 ==> r == Engine(run, "solve(" + equation + ", x)").(calls := r.calls)
                             && r.calls[1] == AlgebraRun("solve(" + equation + ", x)"))
    ensures |r.calls| == 2 ==> Classify(question) == SolveEquation
    ensures Classify(question) == Integrate ==>
      && (Extract(question, "integrate").None? ==> r == Attempt(Err(NoMatch), []))
      && (Extract(question, "integrate").Some? ==> r == Engine(run, "integral(" + Extract(question, "integrate").value + ")"))
    ensures Classify(question) == Derivative ==>
      && (Extract(question, "derivative").None? ==> r == Attempt(Err(NoMatch), []))
      && (Extract(question, "derivative").Some? ==> r == Engine(run, "d(" + Extract(question, "derivative").value + ")"))
    ensures Classify(question) == SolveEquation ==>
      && (Extract(question, "solve").None? ==> r == Attempt(Err(NoMatch), []))
      && (Extract(question, "solve").Some? && !IsEmptySet(run("roots(" + Extract(question, "solve").value + ")")) ==>
            r == Engine(run, "roots(" + Extract(question, "solve").value + ")"))
  {
    match Classify(question)
    case Generic => Engine(run, question)
    case Integrate =>
      (match Extract(question, "integrate")
       case None => Attempt(Err(NoMatch), [])
       case Some(expression) => Engine(run, "integral(" + expression + ")"))
    case Derivative =>
      (match Extract(question, "derivative")
       case None => Attempt(Err(NoMatch), [])
       case Some(expression) => Engine(run, "d(" + expression + ")"))
    case SolveEquation =>
      match Extract(question, "solve")
      case None => Attempt(Err(NoMatch), [])
      case Some(equation) =>
        var roots := Engine(run, "roots(" + equation + ")");
        if IsEmptySet(run("roots(" + equation + ")")) then
          var solved := Engine(run, "solve(" + equation + ", x)");
          Attempt(solved.result, roots.calls + solved.calls)
        else
          roots
  }

  lemma AlgebraThenChat(algebra: seq<Call>, ai: seq<Call>)
    requires OnlyAlgebra(algebra)
    requires ai != [] ==> NoChat(ai[1..])
    ensures AtMostOneChat(algebra + ai)
  {
    var all := algebra + ai;
    forall j, k | 0 <= j < k < |all| && all[j].ChatCompletion?
      ensures !all[k].ChatCompletion?
    {
      assert j >= |algebra|;
      assert all[k] == ai[1..][k - |algebra| - 1];
    }
  }

  /** The final answer to `question` and every call made on the way. A blank
      question is answered with a fixed prompt and calls nothing; a `plot`
      question calls only the plotter; otherwise the answer carries the
      solution label exactly when the algebra result is meaningful, and in
      every other case (a marker, an empty string, a failed extraction, a
      thrown error) it is the AI's answer to the trimmed question. The AI is
      asked at most once. */
  function Resolve(
    question: string, engine: Option<Handle>, run: string -> Result<string, string>,
    evaluate: string -> Result<string, string>, chat: ChatRequest -> ChatReply): (r: Traced)
    ensures AllSpace(question) ==> r == Traced(EMPTY_QUESTION, [])
    ensures !AllSpace(question) && IsPlot(Trim(question)) ==>
      var expression := PlotExpression(Trim(question));
      r == Traced(PLOT_LABEL + expression, [PlotFunction(expression)])
    ensures !AllSpace(question) && !IsPlot(Trim(question)) ==>
      var attempt := AskAlgebra(Trim(question), run);
      var ai := AiAnswer(engine, Trim(question), chat, evaluate, run);
      && (Meaningful(attempt.result) ==> r == Traced(SOLUTION_LABEL + attempt.result.value, attempt.calls))
      && (!Meaningful(attempt.result) ==> r == Traced(ai.text, attempt.calls + ai.calls))
    ensures AtMostOneChat(r.calls)
  {
    var trimmed := Trim(question);
    if trimmed == [] then
      Traced(EMPTY_QUESTION, [])
    else if IsPlot(trimmed) then
      var expression := PlotExpression(trimmed);
      Traced(PLOT_LABEL + expression, [PlotFunction(expression)])
    else
      Respond(trimmed, engine, run, evaluate, chat)
  }

  /** The answer to a trimmed question that is not a plot request: the
      labelled algebra result when it is meaningful, and otherwise the AI's
      answer, after the algebra calls. The AI is asked at most once. */
  function Respond(
    trimmed: string, engine: Option<Handle>, run: string -> Result<string, string>,
    evaluate: string -> Result<string, string>, chat: ChatRequest -> ChatReply): (r: Traced)
    ensures var attempt := AskAlgebra(trimmed, run);
      var ai := AiAnswer(engine, trimmed, chat, evaluate, run);
      && (Meaningful(attempt.result) ==> r == Traced(SOLUTION_LABEL + attempt.result.value, attempt.calls))
      && (!Meaningful(attempt.result) ==> r == Traced(ai.text, attempt.calls + ai.calls))
    ensures AtMostOneChat(r.calls)
  {
    var attempt := AskAlgebra(trimmed, run);
    if Meaningful(attempt.result) then
      Traced(SOLUTION_LABEL + attempt.result.value, attempt.calls)
    else
      var ai := AiAnswer(engine, trimmed, chat, evaluate, run);
      AlgebraThenChat(attempt.calls, ai.calls);
      Traced(ai.text, attempt.calls + ai.calls)
  }

  /** The `try` block of `solveQuestion` up to the result test: the
      engine's result, or the failure that sends control to the `catch`
      block, and the engine calls made. */
  method TryAlgebra(trimmed: string, run: string -> Result<string, string>)
    returns (result: Result<string, Failure>, calls: seq<Call>)
    ensures Attempt(result, calls) == AskAlgebra(trimmed, run)
  {
    var lower := Lower(trimmed);
    var input;
    if StartsWith(lower, "integrate(") {
      var expression := Extract(trimmed, "integrate");
      if expression.None? {
        return Err(NoMatch), [];
      }
      input := "integral(" + expression.value + ")";
    } else if StartsWith(lower, "derivative(") {
      var expression := Extract(trimmed, "derivative");
      if expression.None? {
        return Err(NoMatch), [];
      }
      input := "d(" + expression.value + ")";
    } else if StartsWith(lower, "solve(") {
      var equation := Extract(trimmed, "solve");
      if equation.None? {
        return Err(NoMatch), [];
      }
      input := "roots(" + equation.value + ")";
      calls := [AlgebraRun(input)];
      var output := run(input);
      if output.Ok? && (output.value == "[]" || output.value == "()") {
        input := "solve(" + equation.value + ", x)";
        calls := calls + [AlgebraRun(input)];
        output := run(input);
      }
      result := if output.Ok? then Ok(output.value) else Err(Threw(output.error));
      return;
    } else {
      input := trimmed;
    }
    calls := [AlgebraRun(input)];
    var output := run(input);
    result := if output.Ok? then Ok(output.value) else Err(Threw(output.error));
  }

  /** `solveQuestion`, step by step: the answer it shows and the calls it made. */
  method SolveQuestion(
    question: string, engine: Option<Handle>, run: string -> Result<string, string>,
    evaluate: string -> Result<string, string>, chat: ChatRequest -> ChatReply)
    returns (answer: string, calls: seq<Call>)
    ensures Traced(answer, calls) == Resolve(question, engine, run, evaluate, chat)
  {
    var trimmed := Trim(question);
    if trimmed == [] {
      return EMPTY_QUESTION, [];
    }
    if StartsWith(Lower(trimmed), "plot") {
      var expression := Trim(trimmed[4..]);
      return PLOT_LABEL + expression, [PlotFunction(expression)];
    }
    var result;
    result, calls := TryAlgebra(trimmed, run);
    if result.Ok? && IsMeaningful(result.value) {
      answer := SOLUTION_LABEL + result.value;
    } else {
      var aiCalls;
      answer, aiCalls := GenerateAnswer(engine, trimmed, chat, evaluate, run);
      calls := calls + aiCalls;
    }
  }
}
