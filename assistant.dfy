/** The language-model side of the tutor: the engine handle that
    `initializeWebLLMEngine` latches (app.js:36-69) and the AI answer of
    `generateLLMAnswer` (app.js:72-144): a readiness guard, one streamed chat
    request, the in-order fold of the streamed deltas, and the directive
    post-processing of the reply. */
module Assistant {
  import opened Types
  import opened Directives

  const SELECTED_MODEL := "Phi-3-mini-4k-instruct-q4f16_1-MLC"
  const NOT_READY := "AI model not ready."
  const APOLOGY := "Sorry, the AI encountered an error."
  const SYSTEM_PROMPT :=
    "You are a friendly and helpful math tutor bot. Explain concepts clearly. If a calculation is needed, "
    + "phrase it in a way that can be easily parsed by a separate calculator (e.g., 'The sum is [CALCULATION: 2 + 2]', "
    + "'The solution for x is [SOLVE: 2*x + 5 = 11]'). Do not calculate yourself unless explicitly asked for a simple "
    + "concept explanation."

  /** The guard `webLLMEngine && webLLMEngine.chat`. */
  predicate Ready(engine: Option<Handle>) {
    engine.Some? && engine.value.hasChat
  }

  /** The streaming request: the tutor persona, then the question; temperature
      0.5, at most 512 generated tokens. */
  function Request(prompt: string): ChatRequest {
    ChatRequest([Message(System, SYSTEM_PROMPT), Message(User, prompt)], true, 5, 512)
  }

  /** The question reaches the model intact, as the last message and after
      the persona as the single system message, with the fixed sampling
      options; distinct questions make distinct requests. */
  lemma RequestCarriesQuestion(prompt: string, other: string)
    ensures |Request(prompt).messages| == 2
    ensures Request(prompt).messages[0] == Message(System, SYSTEM_PROMPT)
    ensures Request(prompt).messages[1] == Message(User, prompt)
    ensures Request(prompt).stream
    ensures Request(prompt).temperatureTenths == 5 && Request(prompt).maxGenLen == 512
    ensures Request(prompt) == Request(other) <==> prompt == other
  {
    if Request(prompt) == Request(other) {
      assert Request(prompt).messages[1].content == Request(other).messages[1].content;
    }
  }

  /** `chunk.choices[0]?.delta?.content || ""`. */
  function Content(delta: Option<string>): string {
    match delta
    case None => ""
    case Some(text) => text
  }

  /** The streamed deltas joined in arrival order. */
  function Concat(deltas: seq<Option<string>>): string {
    if deltas == [] then "" else Content(deltas[0]) + Concat(deltas[1..])
  }

  /** Joining two runs of deltas joins their texts. */
  lemma {:induction false} ConcatAppend(a: seq<Option<string>>, b: seq<Option<string>>)
    ensures Concat(a + b) == Concat(a) + Concat(b)
  {
    if a == [] {
      assert a + b == b;
    } else {
      assert (a + b)[1..] == a[1..] + b;
      ConcatAppend(a[1..], b);
    }
  }

  /** The joined text of a non-empty run is the joined text of all but its
      last delta followed by that delta's content: appending each content to
      the text so far, as the receiving loop does, yields the joined text. */
  lemma ConcatLast(deltas: seq<Option<string>>)
    requires deltas != []
    ensures Concat(deltas) == Concat(deltas[..|deltas| - 1]) + Content(deltas[|deltas| - 1])
  {
    var n := |deltas| - 1;
    assert deltas == deltas[..n] + [deltas[n]];
    ConcatAppend(deltas[..n], [deltas[n]]);
    assert [deltas[n]][1..] == [];
  }

  /** Every delta's content stands in the joined text right after the
      content of the deltas that arrived before it. */
  lemma ConcatInOrder(deltas: seq<Option<string>>, k: nat)
    requires k < |deltas|
    ensures var at := |Concat(deltas[..k])|;
      at + |Content(deltas[k])| <= |Concat(deltas)|
      && Concat(deltas)[at..at + |Content(deltas[k])|] == Content(deltas[k])
  {
    assert deltas == deltas[..k] + ([deltas[k]] + deltas[k + 1..]);
    ConcatAppend(deltas[..k], [deltas[k]] + deltas[k + 1..]);
    ConcatAppend([deltas[k]], deltas[k + 1..]);
  }

  /** A delta without content adds nothing to the joined text. */
  lemma MissingContentAddsNothing(before: seq<Option<string>>, after: seq<Option<string>>)
    ensures Concat(before + [None] + after) == Concat(before + after)
  {
    var rest := [None] + after;
    assert before + [None] + after == before + rest;
    assert rest[1..] == after;
    assert Concat(rest) == Concat(after);
    ConcatAppend(before, rest);
    ConcatAppend(before, after);
  }

  /** The AI answer and the calls made to obtain it. Without a ready engine
      nothing is requested and the fixed not-ready text comes back; a chat
      call that throws, before or during streaming, yields the fixed apology;
      otherwise the deltas joined in arrival order are post-processed, and
      the post-processing calls follow the chat request. Exactly one chat
      request is made when the engine is ready, and it comes first. */
  function AiAnswer(
    engine: Option<Handle>, prompt: string, chat: ChatRequest -> ChatReply,
    evaluate: string -> Result<string, string>, run: string -> Result<string, string>): (r: Traced)
    ensures r.calls == [] <==> !Ready(engine)
    ensures !Ready(engine) ==> r.text == NOT_READY
    ensures r.calls != [] ==> r.calls[0] == ChatCompletion(Request(prompt)) && NoChat(r.calls[1..])
    ensures chat(Request(prompt)).Refused? && Ready(engine) ==> r == Traced(APOLOGY, [ChatCompletion(Request(prompt))])
    ensures chat(Request(prompt)).Streamed? && chat(Request(prompt)).interrupted && Ready(engine) ==>
      r == Traced(APOLOGY, [ChatCompletion(Request(prompt))])
    ensures chat(Request(prompt)).Streamed? && !chat(Request(prompt)).interrupted && Ready(engine) ==>
      var formatted := Format(Concat(chat(Request(prompt)).deltas), evaluate, run);
      r == Traced(formatted.text, [ChatCompletion(Request(prompt))] + formatted.calls)
  {
    if !Ready(engine) then
      Traced(NOT_READY, [])
    else
      var request := Request(prompt);
      match chat(request)
      case Refused(_) => Traced(APOLOGY, [ChatCompletion(request)])
      case Streamed(deltas, interrupted) =>
        if interrupted then
          Traced(APOLOGY, [ChatCompletion(request)])
        else
          var formatted := Format(Concat(deltas), evaluate, run);
          Traced(formatted.text, [ChatCompletion(request)] + formatted.calls)
  }

  /** `generateLLMAnswer`: the deltas are accumulated one by one into the
      full reply, which is then post-processed. */
  method GenerateAnswer(
    engine: Option<Handle>, prompt: string, chat: ChatRequest -> ChatReply,
    evaluate: string -> Result<string, string>, run: string -> Result<string, string>)
    returns (answer: string, calls: seq<Call>)
    ensures Traced(answer, calls) == AiAnswer(engine, prompt, chat, evaluate, run)
  {
    if !Ready(engine) {
      return NOT_READY, [];
    }
    var request := Request(prompt);
    calls := [ChatCompletion(request)];
    var reply := chat(request);
    if reply.Refused? {
      return APOLOGY, calls;
    }
    var full := "";
    var i := 0;
    while i < |reply.deltas|
      invariant 0 <= i <= |reply.deltas|
      invariant full == Concat(reply.deltas[..i])
    {
      assert reply.deltas[..i + 1][..i] == reply.deltas[..i];
      ConcatLast(reply.deltas[..i + 1]);
      full := full + Content(reply.deltas[i]);
      i := i + 1;
    }
    assert reply.deltas[..i] == reply.deltas;
    if reply.interrupted {
      return APOLOGY, calls;
    }
    var formatted := Format(full, evaluate, run);
    answer := formatted.text;
    calls := calls + formatted.calls;
  }

  /** How one load request ends: `new webllm.MLCEngine()` either returns a
      handle or throws; then `reload` either completes or throws. */
  datatype LoadAttempt = LoadAttempt(construct: Result<Handle, string>, reload: Result<(), string>)

  function AlreadyLoaded(): string {
    "Model \"" + SELECTED_MODEL + "\" already loaded or loading."
  }

  function Loaded(): string {
    "Model \"" + SELECTED_MODEL + "\" loaded successfully!"
  }

  function LoadFailed(message: string): string {
    "Error loading AI model: " + message
  }

  /** One load request on the latch: the handle it leaves and the final
      status text it shows. A present handle is kept and only reported; an
      absent one is set as soon as construction succeeds, whatever `reload`
      then does. */
  function LoadStep(handle: Option<Handle>, attempt: LoadAttempt): (r: (Option<Handle>, string))
    ensures handle.Some? ==> r == (handle, AlreadyLoaded())
    ensures handle.None? && attempt.construct.Ok? ==> r.0 == Some(attempt.construct.value)
    ensures handle.None? && attempt.construct.Err? ==> r.0 == None
  {
    if handle.Some? then
      (handle, AlreadyLoaded())
    else
      match attempt.construct
      case Err(message) => (None, LoadFailed(message))
      case Ok(created) =>
        match attempt.reload
        case Ok(_) => (Some(created), Loaded())
        case Err(message) => (Some(created), LoadFailed(message))
  }

  /** The handle and the statuses after a series of load requests. */
  function Replay(handle: Option<Handle>, attempts: seq<LoadAttempt>): (r: (Option<Handle>, seq<string>))
    ensures |r.1| == |attempts|
    decreases |attempts|
  {
    if attempts == [] then (handle, [])
    else
      var (next, status) := LoadStep(handle, attempts[0]);
      var (last, rest) := Replay(next, attempts[1..]);
      (last, [status] + rest)
  }

  /** Once a handle is latched, no series of later requests changes it, and
      each of them only reports that the model is already loaded or loading. */
  lemma {:induction false} LatchIsPermanent(handle: Option<Handle>, attempts: seq<LoadAttempt>)
    requires handle.Some?
    ensures Replay(handle, attempts).0 == handle
    ensures forall k :: 0 <= k < |attempts| ==> Replay(handle, attempts).1[k] == AlreadyLoaded()
  {
    if attempts != [] {
      LatchIsPermanent(handle, attempts[1..]);
    }
  }

  /** The first request whose construction succeeds latches its handle for
      good, even when its `reload` fails. */
  lemma FirstHandleWins(attempt: LoadAttempt, later: seq<LoadAttempt>)
    requires attempt.construct.Ok?
    ensures Replay(None, [attempt] + later).0 == Some(attempt.construct.value)
    ensures forall k :: 1 <= k < |[attempt] + later| ==> Replay(None, [attempt] + later).1[k] == AlreadyLoaded()
  {
    assert ([attempt] + later)[1..] == later;
    LatchIsPermanent(Some(attempt.construct.value), later);
  }

  /** The process-wide `webLLMEngine` variable. */
  class EngineLatch {
    var handle: Option<Handle>

    constructor ()
      ensures handle == None
    {
      handle := None;
    }

    /** `initializeWebLLMEngine`: returns the status text left on screen. */
    method Initialize(attempt: LoadAttempt) returns (status: string)
      modifies this
      ensures (handle, status) == LoadStep(old(handle), attempt)
    {
      if handle.Some? {
        return AlreadyLoaded();
      }
      match attempt.construct {
        case Err(message) =>
          status := LoadFailed(message);
        case Ok(created) =>
          handle := Some(created);
          match attempt.reload {
            case Ok(_) => status := Loaded();
            case Err(message) => status := LoadFailed(message);
          }
      }
    }
  }
}
