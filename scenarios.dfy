/** Worked questions and replies, each pinned down for every behaviour of
    the collaborators that the outcome does not depend on. */
module Scenarios {
  import opened Types
  import opened Text
  import opened Pattern
  import opened Directives
  import opened Assistant
  import opened Tutor

  /** `Integrate(x)` is classified as an integral, case-insensitively, but
      the case-sensitive pattern finds no `integrate(`: nothing is sent to
      the algebra engine, and the failed attempt is not a meaningful result,
      which is what sends the question to the AI. */
  lemma CapitalisedKeywordGoesToAi(
    engine: Option<Handle>, run: string -> Result<string, string>,
    evaluate: string -> Result<string, string>, chat: ChatRequest -> ChatReply)
    ensures Classify("Integrate(x)") == Integrate
    ensures Extract("Integrate(x)", "integrate") == None
    ensures AskAlgebra("Integrate(x)", run) == Attempt(Err(NoMatch), [])
    ensures !Meaningful(AskAlgebra("Integrate(x)", run).result)
  {
    var q := "Integrate(x)";
    var open := "integrate(";
    assert "integrate" + "(" == open;
    assert Lower(q)[..10] == open;
    forall i: nat
      ensures !OccursAt(q, open, i)
    {
      if i + |open| <= |q| {
        assert q[i..i + |open|][0] == q[i] != 'i';
      }
    }
  }

  /** The greedy pattern runs to the last closing parenthesis on the line,
      so a nested call is kept whole. */
  lemma GreedyKeepsNestedCall()
    ensures Extract("solve(f(x))", "solve") == Some("f(x)")
  {
    var q := "solve(f(x))";
    var open := "solve(";
    assert "solve" + "(" == open;
    assert OccursAt(q, open, 0);
    assert ClosesAt(q, 6, 4, ')');
    assert MatchesAt(q, open, ')', 0);
    var m := Find(q, open, ')', Greedy);
    assert m.Some?;
    assert m.value.start == 0;
    assert |m.value.capture| == 4;
    assert m.value.capture == q[6..10] == "f(x)";
  }

  /** A generic question whose engine result is meaningful is answered with
      the labelled result after a single engine call. */
  lemma ArithmeticIsLabelled(
    engine: Option<Handle>, run: string -> Result<string, string>,
    evaluate: string -> Result<string, string>, chat: ChatRequest -> ChatReply)
    requires run("2+2") == Ok("4")
    ensures Resolve("2+2", engine, run, evaluate, chat) == Traced("Algebrite Solution: 4", [AlgebraRun("2+2")])
  {
    var q := "2+2";
    assert !IsSpace(q[0]) && !IsSpace(q[2]);
    assert TrimStart(q) == q;
    assert TrimEnd(q) == q;
    assert Trim(q) == q;
    assert Lower(q) == q;
    assert Classify(q) == Generic;
  }

  const EXAMPLE_REPLY := "The sum is [CALCULATION: 2 + 2]"

  /** The leftmost calculation directive of the system prompt's own example
      reply, with its expression. */
  lemma ExampleDirective()
    ensures Directive(EXAMPLE_REPLY, CALCULATION_OPEN) == Some(Match(11, "2 + 2"))
  {
    ExampleDirectiveAt();
    var d := Find(EXAMPLE_REPLY, CALCULATION_OPEN, ']', Lazy);
    assert |d.value.capture| == 5 by {
      ClosesFirstAt();
    }
    assert d.value.capture == EXAMPLE_REPLY[25..30];
    ExampleExpression();
  }

  lemma ExampleExpression()
    ensures EXAMPLE_REPLY[25..30] == "2 + 2"
  {
    assert EXAMPLE_REPLY[25..30] == [EXAMPLE_REPLY[25], EXAMPLE_REPLY[26], EXAMPLE_REPLY[27], EXAMPLE_REPLY[28], EXAMPLE_REPLY[29]];
  }

  /** The directive is found at the reply's only `[`. */
  lemma ExampleDirectiveAt()
    ensures Directive(EXAMPLE_REPLY, CALCULATION_OPEN).Some?
    ensures Directive(EXAMPLE_REPLY, CALCULATION_OPEN).value.start == 11
  {
    assert MatchesAt(EXAMPLE_REPLY, CALCULATION_OPEN, ']', 11) by {
      assert EXAMPLE_REPLY[11..25] == CALCULATION_OPEN;
      assert ClosesAt(EXAMPLE_REPLY, 25, 5, ']');
    }
    var d := Find(EXAMPLE_REPLY, CALCULATION_OPEN, ']', Lazy);
    assert d.Some? && d.value.start <= 11;
    assert !(d.value.start < 11) by {
      OnlyBracketAt();
      assert OccursAt(EXAMPLE_REPLY, CALCULATION_OPEN, d.value.start);
    }
  }

  /** No directive can start before the reply's only `[`. */
  lemma OnlyBracketAt()
    ensures forall i: nat :: i < 11 ==> !OccursAt(EXAMPLE_REPLY, CALCULATION_OPEN, i)
  {
    forall i: nat | i < 11 && OccursAt(EXAMPLE_REPLY, CALCULATION_OPEN, i)
      ensures EXAMPLE_REPLY[i] == '['
    {
      assert EXAMPLE_REPLY[i..i + |CALCULATION_OPEN|][0] == EXAMPLE_REPLY[i];
    }
  }

  /** The expression holds no `]`. */
  lemma ClosesFirstAt()
    ensures forall n: nat :: n < 5 ==> !ClosesAt(EXAMPLE_REPLY, 25, n, ']')
  {
  }

  /** The calculation directive of that reply is replaced by the evaluator's
      bold result, and nothing else is touched. */
  lemma CalculatedReply(evaluate: string -> Result<string, string>, run: string -> Result<string, string>)
    requires evaluate("2 + 2") == Ok("4")
    ensures Format(EXAMPLE_REPLY, evaluate, run) == Traced("The sum is **4**", [Evaluate("2 + 2")])
  {
    var m := Match(11, "2 + 2");
    ExampleDirective();
    FormatCalculation(EXAMPLE_REPLY, evaluate, run, m);
    assert |Matched(CALCULATION_OPEN, ']', m)| == 20;
    assert CalculationText(evaluate(m.capture)) == "**4**";
    ExampleSplice();
  }

  lemma ExampleSplice()
    ensures EXAMPLE_REPLY[..11] + "**4**" + EXAMPLE_REPLY[31..] == "The sum is **4**"
  {
    assert EXAMPLE_REPLY[..11] == "The sum is ";
    assert EXAMPLE_REPLY[31..] == [];
  }
}
