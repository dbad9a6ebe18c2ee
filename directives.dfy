/** The post-processing of the language model's reply (app.js:106-138): the
    leftmost `[CALCULATION: …]` directive is evaluated by the numeric
    evaluator, or else the leftmost `[SOLVE: …]` directive is solved for `x`
    by the algebra engine, and the directive's text is replaced by the
    outcome. At most one directive is acted on per reply. */
module Directives {
  import opened Types
  import opened Text
  import opened Pattern

  const CALCULATION_OPEN := "[CALCULATION: "
  const SOLVE_OPEN := "[SOLVE: "

  /** `text.match(/\[CALCULATION: (.*?)\]/)`, or its `SOLVE` twin when `open` is `SOLVE_OPEN`. */
  function Directive(text: string, open: string): Option<Match> {
    Find(text, open, ']', Lazy)
  }

  /** What `Directive` finds: the leftmost directive, whose matched text
      stands at its start and whose capture holds neither a `]` nor a line
      break, so it stops at the first `]`; none when no directive closes on
      its own line. */
  lemma DirectiveStopsAtFirstBracket(text: string, open: string)
    ensures Directive(text, open).None? ==> forall i: nat :: !MatchesAt(text, open, ']', i)
    ensures Directive(text, open).Some? ==>
      var m := Directive(text, open).value;
      && OccursAt(text, Matched(open, ']', m), m.start)
      && (forall i: nat :: i < m.start ==> !MatchesAt(text, open, ']', i))
      && (forall j :: 0 <= j < |m.capture| ==> m.capture[j] != ']' && !IsLineTerminator(m.capture[j]))
  {
    if Directive(text, open).Some? {
      var m := Directive(text, open).value;
      var a := m.start + |open|;
      MatchOccurs(text, open, ']', Lazy, m);
      forall j | 0 <= j < |m.capture|
        ensures m.capture[j] != ']' && !IsLineTerminator(m.capture[j])
      {
        assert m.capture[j] == text[a + j];
        assert !ClosesAt(text, a, j, ']');
      }
    }
  }

  /** A directive the code acts on: matched, with a non-empty capture. */
  predicate Actionable(d: Option<Match>) {
    d.Some? && d.value.capture != ""
  }

  /** The text that replaces a `CALCULATION` directive. */
  function CalculationText(result: Result<string, string>): string {
    match result
    case Ok(value) => "**" + value + "**"
    case Err(message) => "(Error calculating: " + message + ")"
  }

  /** The input given to the algebra engine for a `SOLVE` directive. */
  function SolveInput(equation: string): string {
    "solve(" + equation + ", x)"
  }

  /** The text that replaces a `SOLVE` directive; an empty solution set is
      reported as not solved. */
  function SolutionText(equation: string, result: Result<string, string>): string {
    match result
    case Ok(value) =>
      if value == "[]" || value == "()" then
        "**(Could not solve using Algebrite for now: " + equation + ")**"
      else
        "**" + value + "**"
    case Err(message) => "(Error solving: " + message + ")"
  }

  /** The reply with at most one directive resolved. `evaluate` stands for
      `math.evaluate` followed by string conversion, `run` for
      `Algebrite.run(…).toString()`; each yields the thrown error's message
      on failure. The text is changed only when a collaborator was called. */
  function Format(raw: string, evaluate: string -> Result<string, string>, run: string -> Result<string, string>): (r: Traced)
    ensures |r.calls| <= 1 && NoChat(r.calls)
    ensures r.calls == [] <==> !Actionable(Directive(raw, CALCULATION_OPEN)) && !Actionable(Directive(raw, SOLVE_OPEN))
    ensures r.calls == [] ==> r.text == raw
  {
    var calculation := Directive(raw, CALCULATION_OPEN);
    var solving := Directive(raw, SOLVE_OPEN);
    if Actionable(calculation) then
      var expression := calculation.value.capture;
      var replacement := CalculationText(evaluate(expression));
      Traced(ReplaceFirst(raw, Matched(CALCULATION_OPEN, ']', calculation.value), replacement), [Evaluate(expression)])
    else if Actionable(solving) then
      var equation := solving.value.capture;
      var replacement := SolutionText(equation, run(SolveInput(equation)));
      Traced(ReplaceFirst(raw, Matched(SOLVE_OPEN, ']', solving.value), replacement), [AlgebraRun(SolveInput(equation))])
    else
      Traced(raw, [])
  }

  /** Replacing the first occurrence of a directive's text replaces that
      directive in place and leaves the rest of the reply as it was. */
  lemma ReplaceDirective(raw: string, open: string, m: Match, replacement: string)
    requires Directive(raw, open) == Some(m)
    ensures var end := m.start + |Matched(open, ']', m)|;
      end <= |raw| && ReplaceFirst(raw, Matched(open, ']', m), replacement) == raw[..m.start] + replacement + raw[end..]
  {
    var w := Matched(open, ']', m);
    FirstOccurrenceIsMatch(raw, open, ']', Lazy, m);
    assert IndexOfFrom(raw, w, 0) == Some(m.start);
  }

  /** A `CALCULATION` directive with a non-empty expression is evaluated and
      its text, and only its text, is replaced: by the bold value, or by the
      unbolded error note. The algebra engine is not consulted. */
  lemma FormatCalculation(raw: string, evaluate: string -> Result<string, string>, run: string -> Result<string, string>, m: Match)
    requires Directive(raw, CALCULATION_OPEN) == Some(m) && m.capture != ""
    ensures var end := m.start + |Matched(CALCULATION_OPEN, ']', m)|;
      end <= |raw| &&
      Format(raw, evaluate, run) == Traced(raw[..m.start] + CalculationText(evaluate(m.capture)) + raw[end..], [Evaluate(m.capture)])
  {
    ReplaceDirective(raw, CALCULATION_OPEN, m, CalculationText(evaluate(m.capture)));
  }

  /** Without a usable `CALCULATION` directive (none, or an empty one) the
      leftmost `SOLVE` directive with a non-empty equation is solved for `x`
      and its text replaced. */
  lemma FormatSolve(raw: string, evaluate: string -> Result<string, string>, run: string -> Result<string, string>, m: Match)
    requires !Actionable(Directive(raw, CALCULATION_OPEN))
    requires Directive(raw, SOLVE_OPEN) == Some(m) && m.capture != ""
    ensures var end := m.start + |Matched(SOLVE_OPEN, ']', m)|;
      end <= |raw| &&
      Format(raw, evaluate, run)
      == Traced(raw[..m.start] + SolutionText(m.capture, run(SolveInput(m.capture))) + raw[end..], [AlgebraRun(SolveInput(m.capture))])
  {
    ReplaceDirective(raw, SOLVE_OPEN, m, SolutionText(m.capture, run(SolveInput(m.capture))));
  }

  /** When a `CALCULATION` directive is acted on, any text lying wholly
      before it (a `SOLVE` directive among others) survives verbatim, in place. */
  lemma CalculationKeepsBefore(raw: string, evaluate: string -> Result<string, string>, run: string -> Result<string, string>, c: Match, w: string, p: nat)
    requires Directive(raw, CALCULATION_OPEN) == Some(c) && c.capture != ""
    requires OccursAt(raw, w, p) && p + |w| <= c.start
    ensures OccursAt(Format(raw, evaluate, run).text, w, p)
  {
    var cw := Matched(CALCULATION_OPEN, ']', c);
    var rep := CalculationText(evaluate(c.capture));
    FormatCalculation(raw, evaluate, run, c);
    SpliceKeeps(raw, c.start, |cw|, rep, w, p, Format(raw, evaluate, run).text, p);
  }

  /** When a `CALCULATION` directive is acted on, any text lying wholly
      after it (a `SOLVE` directive among others) survives verbatim, shifted
      by the change in length. */
  lemma CalculationKeepsAfter(raw: string, evaluate: string -> Result<string, string>, run: string -> Result<string, string>, c: Match, w: string, p: nat)
    requires Directive(raw, CALCULATION_OPEN) == Some(c) && c.capture != ""
    requires OccursAt(raw, w, p) && c.start + |Matched(CALCULATION_OPEN, ']', c)| <= p
    ensures OccursAt(Format(raw, evaluate, run).text, w, p + |CalculationText(evaluate(c.capture))| - |Matched(CALCULATION_OPEN, ']', c)|)
  {
    var cw := Matched(CALCULATION_OPEN, ']', c);
    var rep := CalculationText(evaluate(c.capture));
    FormatCalculation(raw, evaluate, run, c);
    SpliceKeeps(raw, c.start, |cw|, rep, w, p, Format(raw, evaluate, run).text, p + |rep| - |cw|);
  }

  /** Splicing `rep` over `raw[start..start + len]` keeps an occurrence of
      `w` that lies wholly before or wholly after the replaced part. */
  lemma SpliceKeeps(raw: string, start: nat, len: nat, rep: string, w: string, p: nat, out: string, at: int)
    requires start + len <= |raw| && OccursAt(raw, w, p)
    requires p + |w| <= start || start + len <= p
    requires out == raw[..start] + rep + raw[start + len..]
    requires at == if p + |w| <= start then p else p + |rep| - len
    ensures at >= 0 && OccursAt(out, w, at)
  {
    if p + |w| <= start {
      assert out[p..p + |w|] == raw[p..p + |w|];
    } else {
      assert out[at..at + |w|] == raw[p..p + |w|];
    }
  }
}
