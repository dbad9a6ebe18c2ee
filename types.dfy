/** Values shared by the tutor's answer-resolution pipeline: the results
    handed back by the foreign libraries, the chat request and its streamed
    reply, the language-model handle, and the trace of calls the pipeline
    makes on its collaborators. */
module Types {

  datatype Option<+T> = None | Some(value: T)

  /** What a foreign call returns: a value, or the message of the error it threw. */
  datatype Result<+T, +E> = Ok(value: T) | Err(error: E)

  datatype Role = System | User

  datatype Message = Message(role: Role, content: string)

  /** The options object passed to `chat.completions.create`. The temperature
      0.5 is kept as tenths, so that the request stays free of reals. */
  datatype ChatRequest = ChatRequest(
    messages: seq<Message>,
    stream: bool,
    temperatureTenths: nat,
    maxGenLen: nat)

  /** What the chat call yields: either it throws before streaming, or it
      streams deltas (`None` for a chunk without `choices[0].delta.content`)
      and then either completes or throws (`interrupted`). */
  datatype ChatReply =
    | Refused(reason: string)
    | Streamed(deltas: seq<Option<string>>, interrupted: bool)

  /** The object `new webllm.MLCEngine()` returns, reduced to what the
      readiness guard looks at: whether it carries a `chat` member. */
  datatype Handle = Handle(hasChat: bool)

  /** One call on a collaborator, with the text it was given. */
  datatype Call =
    | AlgebraRun(input: string)        // Algebrite.run
    | Evaluate(expression: string)     // math.evaluate
    | ChatCompletion(request: ChatRequest)
    | PlotFunction(expression: string) // the Chart.js plotter

  /** A final string together with the calls made while producing it, in order. */
  datatype Traced = Traced(text: string, calls: seq<Call>)

  /** No two calls of the sequence are chat requests. */
  predicate AtMostOneChat(calls: seq<Call>) {
    forall j, k :: 0 <= j < k < |calls| ==> !(calls[j].ChatCompletion? && calls[k].ChatCompletion?)
  }

  predicate NoChat(calls: seq<Call>) {
    forall k :: 0 <= k < |calls| ==> !calls[k].ChatCompletion?
  }

  predicate OnlyAlgebra(calls: seq<Call>) {
    forall k :: 0 <= k < |calls| ==> calls[k].AlgebraRun?
  }
}
