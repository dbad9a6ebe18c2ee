# Browser math tutor: answer resolution

This project models, in Dafny, how the browser math tutor (`app.js`) turns a
typed question into the answer it shows.

- **`solveQuestion`.** The question is trimmed and a blank one is refused. A
  question starting with `plot` (in any case) is handed to the plotter.
- **Algebra engine.** Any other question is classified by a case-insensitive
  keyword prefix (`integrate(`, `derivative(`, `solve(`, or none), then sent
  to the Algebrite engine. For the three keywords, the inner expression is
  first pulled out with a case-sensitive, greedy regular expression.
- **Result test.** A result that is non-empty and is none of `()`, `[]` and
  `undefined` is shown with the label `Algebrite Solution: `. Any other
  result, and any thrown error, falls back to the AI.
- **`generateLLMAnswer`.** It first checks that an engine with a chat
  interface is present. It then makes one streaming chat request and joins
  the streamed deltas in order. Finally it acts on at most one directive in
  the reply. The leftmost `[CALCULATION: …]` directive goes to the numeric
  evaluator. Failing that, the leftmost `[SOLVE: …]` directive goes to the
  algebra engine. The directive's first occurrence is replaced by the
  outcome.
- **`initializeWebLLMEngine`.** It latches the process-wide engine handle.
  The handle is set as soon as an engine object is constructed, and later
  requests only report that the model is already loaded or loading.

The foreign libraries are parameters of the model, never code:

- `run: string -> Result<string, string>` stands for `Algebrite.run(…).toString()`.
- `evaluate: string -> Result<string, string>` stands for `math.evaluate` followed by string conversion.
- `chat: ChatRequest -> ChatReply` stands for `chat.completions.create`.

In each case `Err` carries the thrown error's message. Every use of a
collaborator is recorded as a `Call` in a trace returned beside the answer.
This makes it possible to state "the engine was not called" and "the AI was
asked at most once".

Three behaviours of `app.js` shape the model:

- The label is `Algebrite Solution: ` (app.js:314).
- Inner-expression extraction is greedy (app.js:298, 301, 304). It runs to
  the last `)` on the line, so `solve(f(x))` yields `f(x)`.
- The keyword test ignores case but extraction does not (app.js:297-298). So
  `Integrate(x)` finds no match, and the failed lookup sends it to the AI.

Files:

- `types.dfy`: shared datatypes and the call trace.
- `text.dfy`: the JavaScript string built-ins used (`trim`, `toLowerCase`,
  `startsWith`, `indexOf`, `replace` with a string pattern).
- `pattern.dfy`: the two regular-expression shapes, `open(.*)close` and
  `open(.*?)close`, with a leftmost/greedy/lazy characterisation.
- `directives.dfy`: directive post-processing.
- `assistant.dfy`: the AI answer and the engine latch.
- `tutor.dfy`: the router.
- `scenarios.dfy`: worked questions and replies.

## Model

| member | source | states |
|---|---|---|
| `Text.Trim` | app.js:266 | the trimmed text is a slice of the input with only JavaScript white space or line terminators around it, starts and ends with a non-space, and is empty exactly when the input is all white space |
| `Text.LowerFoldsCapitals` | app.js:282 | `Lower`, the ASCII part of `toLowerCase`, keeps the length, leaves no ASCII capital, lowers each capital by the fixed offset and keeps every other character |
| `Text.ReplaceFirstSplices` | app.js:115 | `replace` with a string pattern returns a text without the pattern unchanged, and otherwise splices the replacement over the leftmost occurrence only |
| `Text.IndexOfFrom` | app.js:115 | the position `replace` uses is the leftmost occurrence of the pattern at or after the start, and none exists when it reports none |
| `Pattern.Find` | app.js:298 | a reported match has the opening text at its start and a closing character on the same line, with the longest (greedy) or shortest (lazy) capture; it is the leftmost position where the pattern matches; nothing is reported exactly when no position matches |
| `Pattern.FirstOccurrenceIsMatch` | app.js:115 | the first occurrence of a matched directive's text is the match itself, so `replace(match[0], …)` rewrites exactly the matched directive |
| `Directives.DirectiveStopsAtFirstBracket` | app.js:108-109 | `Directive` finds the leftmost directive that closes on its own line; its matched text stands at its start, and its capture holds no `]` and no line break, so it stops at the first `]`; nothing is found when no directive closes |
| `Directives.Format` | app.js:106-138 | at most one collaborator call and never a chat call; no call exactly when neither directive is matched with a non-empty capture; without a call the reply is returned unchanged |
| `Directives.ReplaceDirective` | app.js:115 | replacing the directive's matched text splices the replacement over the directive's own span and keeps the rest of the reply |
| `Directives.FormatCalculation` | app.js:111-119 | a non-empty `CALCULATION` capture is evaluated once; its directive is replaced by `**value**` or by the unbolded `(Error calculating: message)`; the algebra engine is not called |
| `Directives.FormatSolve` | app.js:120-136 | with no usable `CALCULATION` directive (none, or an empty capture), a non-empty `SOLVE` capture is solved for `x` with one engine call; its directive is replaced by `**value**`, by the bold not-solved note on `[]` or `()`, or by `(Error solving: message)` |
| `Directives.CalculationKeepsBefore` | app.js:111-119 | text standing wholly before an acted-on `CALCULATION` directive (a `SOLVE` directive among others) stays verbatim at its place |
| `Directives.CalculationKeepsAfter` | app.js:111-119 | text standing wholly after an acted-on `CALCULATION` directive stays verbatim, shifted by the change in length |
| `Assistant.ConcatLast` | app.js:99-102 | appending the next delta's content to the text so far, as the receiving loop does, gives the joined text of the deltas so far |
| `Assistant.ConcatAppend` | app.js:99-102 | joining two runs of deltas gives the concatenation of their joined texts |
| `Assistant.ConcatInOrder` | app.js:99-102 | each delta's content appears in the joined reply right after the content of the deltas before it |
| `Assistant.MissingContentAddsNothing` | app.js:100 | a delta without content contributes the empty string |
| `Assistant.RequestCarriesQuestion` | app.js:82-94 | the request holds exactly two messages, the fixed tutor persona as system message and then the question, verbatim, as user message; it asks for streaming at temperature 0.5 with at most 512 generated tokens; distinct questions make distinct requests |
| `Assistant.AiAnswer` | app.js:72-144 | no chat request exactly when the engine is absent or has no chat interface, and then the answer is `AI model not ready.`; otherwise the first call is the one streaming request, and no further chat call follows; a request that throws before or during streaming yields the apology after that one call; a completed stream yields the post-processed text of its deltas joined in order, with the post-processing calls after the chat request |
| `Assistant.GenerateAnswer` | app.js:72-144 | the loop that accumulates the deltas yields exactly the answer and calls of `AiAnswer` |
| `Assistant.LoadStep` | app.js:36-69 | a present handle is kept and the request only reports "already loaded or loading"; an absent handle becomes the constructed engine, whatever `reload` then does; a failed construction leaves it absent |
| `Assistant.LatchIsPermanent` | app.js:37-41 | once the handle is set, no series of later requests changes it, and every one of them only reports that the model is already loaded or loading |
| `Assistant.FirstHandleWins` | app.js:47-65 | the first request whose construction succeeds latches its engine for good, even when its `reload` fails, and every later request only reports |
| `Assistant.EngineLatch.constructor` | app.js:18 | the handle starts absent |
| `Assistant.EngineLatch.Initialize` | app.js:36-69 | the new handle and the status text are those of `LoadStep` on the old handle |
| `Tutor.PlotInAnyCase` | app.js:282 | a question is a plot request exactly when its first four characters spell `plot` in any mix of cases |
| `Tutor.PlotExpression` | app.js:283 | the plotted expression is what follows the first four characters, with the white space around it removed |
| `Tutor.Classify` | app.js:297-311 | the question is an integral, a derivative or an equation exactly when its lower-cased text starts with `integrate(`, `derivative(` or `solve(` |
| `Tutor.ExtractMatches` | app.js:298-304 | `Extract` fails exactly when no position holds the literal keyword and `(` followed by a `)` on the same line; what it finds is the capture of the leftmost greedy match, and keyword, `(`, capture and `)` occur in the question |
| `Tutor.Engine` | app.js:299-310 | one engine call on the given input; the result is the engine's text, or its error message as a thrown failure |
| `Tutor.AskAlgebra` | app.js:295-311 | only the algebra engine is called, at most twice; a keyword question whose extraction fails gets no call and the no-match failure; otherwise an integral sends `integral(E)`, a derivative `d(E)` and a generic question itself, with E the extracted text, and the result is that call's; on the `solve(` path `roots(E)` comes first, its result stands unless it is `[]` or `()`, and exactly then `solve(E, x)` follows and its result stands; two calls only on that path |
| `Tutor.FourRejectedResults` | app.js:313 | a result is rejected exactly when it is empty, `()`, `[]` or `undefined`, so any longer result is meaningful |
| `Tutor.TryAlgebra` | app.js:295-311 | the step-by-step engine dialogue yields exactly the result and calls of `AskAlgebra` |
| `Tutor.Respond` | app.js:313-324 | a meaningful result is shown with the `Algebrite Solution: ` label after the engine calls alone; any other outcome is the AI's answer to the question, after the engine calls; the AI is asked at most once |
| `Tutor.Resolve` | app.js:265-330 | a blank question gets `Please enter a question.` and calls nothing; a `plot` question calls only the plotter, with the rest of the question trimmed, and shows it after `Plotted function: `; any other question is answered by `Respond`; the AI is asked at most once |
| `Tutor.SolveQuestion` | app.js:265-330 | the step-by-step router yields exactly the answer and calls of `Resolve` |
| `Scenarios.CapitalisedKeywordGoesToAi` | app.js:297-298 | `Integrate(x)` is classified as an integral, but the case-sensitive pattern finds nothing, the engine is never called, and the outcome is not meaningful, so the AI answers |
| `Scenarios.GreedyKeepsNestedCall` | app.js:304 | the greedy pattern extracts `f(x)` whole from `solve(f(x))` |
| `Scenarios.ArithmeticIsLabelled` | app.js:310-314 | `2+2`, answered `4` by the engine, is shown as `Algebrite Solution: 4` after exactly one engine call |
| `Scenarios.ExampleDirective` | app.js:108 | in the persona's own example reply the calculation directive is found at position 11 with expression `2 + 2` |
| `Scenarios.CalculatedReply` | app.js:111-115 | with `2 + 2` evaluating to `4`, that reply becomes `The sum is **4**` after exactly one evaluator call |

## Left out

- DOM updates, loading indicators, scrolling, button enabling and the interim status texts (`AI thinking...`, `(AI generating...)`, progress reports): display only.
- `plotFunction` (app.js:165-213) is not part of this model. It samples with floating point and feeds Chart.js. The plot branch records a single `PlotFunction` call with the expression.
- Speech synthesis, speech recognition and OCR (app.js:216-262): browser and library I/O.
- Algebrite, math.js and WebLLM internals: each is an uninterpreted parameter returning a string or an error message.
- Asynchrony: the stream is a finite sequence of optional deltas plus a flag saying whether iteration threw. Interleaving of concurrent questions or load requests is not modelled.
- `replace` special `$` patterns in the replacement text: replacement is modelled as literal.
- `toLowerCase` is modelled for ASCII letters only. For the keywords `plot`, `integrate(`, `derivative(` and `solve(` this gives the same prefix test as full Unicode lowering.
- The pipeline receives the engine handle as a parameter. `EngineLatch` models how that handle is set, not how it is shared between the two functions.
- A failure after construction (installing the progress callback, or `reload`) is modelled as one `reload` outcome.
- `Directives.CalculationKeepsBefore` and `Directives.CalculationKeepsAfter`: cover text disjoint from the acted-on directive. A `SOLVE` directive overlapping a `CALCULATION` directive is not covered.
