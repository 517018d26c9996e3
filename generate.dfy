/**
 * `ollama_generate`: builds the grounded system prompt and the chat payload,
 * and maps what came back from the backend to the returned answer. The HTTP
 * exchange is the parameter `send`, which classifies the exchange as a
 * `RequestOutcome`; `json.dumps` is the parameter `dumps`.
 */
module Generate {
  import opened JsonValue
  import opened ReplyShape

  const DefaultModel := "deepseek-r1:7b"
  const DefaultEndpoint := "http://localhost:11434/api/chat"

  /** Grounding rule and the heading under which the context follows. */
  const Instruction :=
    "You are a helpful assistant providing information about the M.Sc. Information Technology program " +
    "at TH OWL based ONLY on the context supplied below. If the answer is not in the context, say you cannot answer based on the provided data.\n\n" +
    "Context:\n"

  const NoContextMarker := "NO CONTEXT AVAILABLE FROM KB."

  /** The system prompt: the context verbatim, or the marker when the context is empty. */
  function SystemPrompt(context: string): (p: string)
    ensures Instruction <= p && |p| > |Instruction|
    ensures context != "" ==> p[|Instruction|..] == context
  {
    Instruction + (if context != "" then context else NoContextMarker)
  }

  /**
   * The prompt determines the context it was built from; the one collision is
   * an empty context and a context that is literally the marker.
   */
  lemma SystemPromptDeterminesContext(c1: string, c2: string)
    requires SystemPrompt(c1) == SystemPrompt(c2)
    ensures c1 == c2 || (c1 in {"", NoContextMarker} && c2 in {"", NoContextMarker})
  {
    var n := |Instruction|;
    assert SystemPrompt(c1)[n..] == (if c1 != "" then c1 else NoContextMarker);
    assert SystemPrompt(c2)[n..] == (if c2 != "" then c2 else NoContextMarker);
  }

  datatype Message = Message(role: string, content: string)

  datatype Payload = Payload(model: string, messages: seq<Message>, stream: bool)

  /** The JSON body posted to the chat endpoint. */
  function BuildPayload(model: string, userQuery: string, context: string): (p: Payload)
    ensures p.model == model && !p.stream
    ensures |p.messages| == 2
    ensures p.messages[0] == Message("system", SystemPrompt(context))
    ensures p.messages[1] == Message("user", userQuery)
  {
    Payload(model, [Message("system", SystemPrompt(context)), Message("user", userQuery)], false)
  }

  /**
   * How the exchange ended: `requests` raised (connection failure, timeout or
   * an error status from `raise_for_status`), the body was not JSON (a
   * `ValueError`), or a JSON body arrived.
   */
  datatype RequestOutcome = RequestFailed(details: string) | BadJson | Body(data: Json)

  /** What `ollama_generate` does: return a value, or let an `AttributeError` escape. */
  datatype Answer = Returns(value: Json) | RaisesAttributeError

  const DumpLimit: nat := 2000

  /** `s[:n]` */
  function Truncate(s: string, n: nat): (r: string)
    ensures |r| <= n && r <= s
    ensures |s| <= n ==> r == s
    ensures |s| > n ==> |r| == n
  {
    if |s| <= n then s else s[..n]
  }

  const WarningPrefix := "Warning: Unexpected Ollama " + "response shape. Raw response (truncated): "
  const ConnectPrefix := "Error: Could not connect to Ollama at "
  const InvalidJsonMessage := "Error: Invalid JSON response from Ollama API."

  function ShapeWarning(dump: string): (w: string)
    ensures WarningPrefix <= w && |w| <= |WarningPrefix| + DumpLimit
  {
    WarningPrefix + Truncate(dump, DumpLimit)
  }

  function ConnectionError(endpoint: string, model: string, details: string): (e: string)
    ensures ConnectPrefix <= e
  {
    ConnectPrefix + endpoint + ". Ensure Ollama is running and model '" + model + "' is available. Details: " + details
  }

  /** The mapping of the try/except in `ollama_generate` from the outcome to the answer. */
  function AnswerFor(outcome: RequestOutcome, model: string, endpoint: string, dumps: Json -> string): (a: Answer)
    ensures a.Returns? ==> a.value != JNull
    ensures a.RaisesAttributeError? <==> outcome.Body? && ExtractContent(outcome.data).AttributeError?
    ensures outcome.RequestFailed? ==> a == Returns(JStr(ConnectionError(endpoint, model, outcome.details)))
    ensures outcome.BadJson? ==> a == Returns(JStr(InvalidJsonMessage))
    ensures outcome.Body? && ShapeOf(outcome.data) == Unrecognised ==>
      a == Returns(JStr(ShapeWarning(dumps(outcome.data))))
  {
    match outcome
    case RequestFailed(details) => Returns(JStr(ConnectionError(endpoint, model, details)))
    case BadJson => Returns(JStr(InvalidJsonMessage))
    case Body(data) =>
      match ExtractContent(data)
      case NoContent => Returns(JStr(ShapeWarning(dumps(data))))
      case Content(v) => Returns(v)
      case AttributeError =>
        ExtractFailsOnlyOnChoiceMessage(data);
        RaisesAttributeError
  }

  /** `ollama_generate(user_query, context, model, endpoint)` */
  function OllamaGenerate(userQuery: string, context: string, model: string, endpoint: string,
                          send: (string, Payload) -> RequestOutcome, dumps: Json -> string): (a: Answer)
    ensures a == AnswerFor(send(endpoint, BuildPayload(model, userQuery, context)), model, endpoint, dumps)
    ensures a.Returns? ==> a.value != JNull
    ensures a.RaisesAttributeError? ==> send(endpoint, BuildPayload(model, userQuery, context)).Body?
  {
    AnswerFor(send(endpoint, BuildPayload(model, userQuery, context)), model, endpoint, dumps)
  }

  /** The three fallback texts can never be confused with one another. */
  lemma FallbacksDistinct(endpoint: string, model: string, details: string, dump: string)
    ensures ConnectionError(endpoint, model, details) != InvalidJsonMessage
    ensures ConnectionError(endpoint, model, details) != ShapeWarning(dump)
    ensures InvalidJsonMessage != ShapeWarning(dump)
  {
    var c := ConnectionError(endpoint, model, details);
    var w := ShapeWarning(dump);
    assert c[0] == ConnectPrefix[0] == 'E';
    assert |WarningPrefix| > 0 && WarningPrefix[0] == 'W';
    assert w[0] == WarningPrefix[0];
    assert c[7] == ConnectPrefix[7] == 'C' && InvalidJsonMessage[7] == 'I';
  }

  /**
   * A reply with a recognised shape returns what that shape yields, or the
   * shape warning when it yields nothing; only a failed shape match dumps
   * the raw reply.
   */
  lemma BodyAnswer(data: Json, model: string, endpoint: string, dumps: Json -> string)
    ensures var a := AnswerFor(Body(data), model, endpoint, dumps);
      match ShapeAnswer(ShapeOf(data))
      case Content(v) => a == Returns(v)
      case NoContent => a == Returns(JStr(ShapeWarning(dumps(data))))
      case AttributeError => a == RaisesAttributeError
  {
    ExtractIsShapeMatch(data);
  }
}
