/**
 * `_extract_ollama_content`: finds the assistant text in a reply whose shape
 * depends on the backend. Four shapes are probed in a fixed order; the first
 * whose structural guard holds decides the result, even when the value it
 * yields is falsy.
 */
module ReplyShape {
  import opened Wrappers
  import opened JsonValue

  /**
   * The outcome of one call. Python's `None` and a JSON `null` are the same
   * value, so a shape that yields `null` gives `NoContent` as well.
   * `AttributeError` is the exception raised by `.get` on a non-dict.
   */
  datatype Extraction = Content(value: Json) | NoContent | AttributeError

  /** A shape's value as the answer: `None` (or `null`) means nothing was found. */
  function Lift(v: Json): Extraction {
    if v == JNull then NoContent else Content(v)
  }

  /** The loop over a `content` list looking for an entry whose role is `assistant`. */
  function FindAssistant(items: seq<Json>): (r: Option<Json>)
    ensures r.Some? <==> exists k :: 0 <= k < |items| && IsAssistantEntry(items[k])
    ensures r.Some? ==>
      exists k :: 0 <= k < |items| && IsAssistantEntry(items[k])
        && (forall j :: 0 <= j < k ==> !IsAssistantEntry(items[j]))
        && r.value == Get(items[k].fields, "content")
  {
    if items == [] then None
    else if IsAssistantEntry(items[0]) then Some(Get(items[0].fields, "content"))
    else
      var r := FindAssistant(items[1..]);
      assert r.Some? ==>
        exists k :: 0 <= k < |items| && IsAssistantEntry(items[k])
          && (forall j :: 0 <= j < k ==> !IsAssistantEntry(items[j]))
          && r.value == Get(items[k].fields, "content") by {
        if r.Some? {
          var k :| 0 <= k < |items[1..]| && IsAssistantEntry(items[1..][k])
            && (forall j :: 0 <= j < k ==> !IsAssistantEntry(items[1..][j]))
            && r.value == Get(items[1..][k].fields, "content");
          assert IsAssistantEntry(items[k + 1]) && r.value == Get(items[k + 1].fields, "content");
          assert forall j :: 0 <= j < k + 1 ==> !IsAssistantEntry(items[j]) by {
            forall j | 0 < j < k + 1 ensures !IsAssistantEntry(items[j]) {
              assert items[j] == items[1..][j - 1];
            }
          }
        }
      }
      r
  }

  predicate IsAssistantEntry(entry: Json) {
    entry.JObject? && Get(entry.fields, "role") == JStr("assistant")
  }

  /** The probes that follow the `message` shape: `output`, `response[0]`, `choices[0]`. */
  function ExtractAfterMessage(fields: map<string, Json>): Extraction {
    if "output" in fields then Lift(fields["output"])
    else
      var resp := Get(fields, "response");
      if resp.JArray? && resp.items != [] && resp.items[0].JObject? then
        var first := resp.items[0].fields;
        Lift(Or(Or(Get(first, "content"), Get(first, "message")), JNull))
      else if "choices" in fields then
        var ch := fields["choices"];
        if ch.JArray? && ch.items != [] && ch.items[0].JObject? then
          ChoiceContent(ch.items[0].fields)
        else NoContent
      else NoContent
  }

  /**
   * `c0.get("text") or (c0.get("message") or {}).get("content")`: only a
   * truthy `message` that is not a dict makes `.get` fail.
   */
  function ChoiceContent(c0: map<string, Json>): (e: Extraction)
    ensures e.AttributeError? <==>
      !Truthy(Get(c0, "text")) && Truthy(Get(c0, "message")) && !Get(c0, "message").JObject?
    ensures e.Content? ==> e.value != JNull
    ensures Truthy(Get(c0, "text")) ==> e == Content(Get(c0, "text"))
  {
    var text := Get(c0, "text");
    if Truthy(text) then Content(text)
    else
      var m := Or(Get(c0, "message"), JObject(map[]));
      if m.JObject? then Lift(Get(m.fields, "content")) else AttributeError
  }

  /**
   * `_extract_ollama_content(obj)`, branch for branch, including the search
   * of a `content` list (reached only when `content` is absent from the
   * message, so it never runs: see AssistantBranchUnreachable).
   */
  function ExtractContent(obj: Json): (r: Extraction)
    ensures !obj.JObject? ==> r == NoContent
    ensures r.Content? ==> r.value != JNull
  {
    match obj
    case JObject(fields) =>
      var m := Get(fields, "message");
      if m.JObject? then
        if "content" in m.fields then Lift(m.fields["content"])
        else
          match Get(m.fields, "content")
          case JArray(items) =>
            (match FindAssistant(items)
             case Some(v) => Lift(v)
             case None => ExtractAfterMessage(fields))
          case _ => ExtractAfterMessage(fields)
      else ExtractAfterMessage(fields)
    case _ => NoContent
  }

  /** Reaching the list search means `content` is absent, so `m.get("content")` is `None`, never a list. */
  lemma AssistantBranchUnreachable(m: map<string, Json>)
    ensures "content" !in m ==> !Get(m, "content").JArray?
  {
  }

  /** The reply shapes, as tagged variants, each holding the part the answer is read from. */
  datatype Shape =
    | MessageContent(content: Json)
    | Output(output: Json)
    | ResponseEntry(entry: map<string, Json>)
    | Choice(choice: map<string, Json>)
    | Unrecognised

  /** Which shape a reply has: the structural guards, tried in priority order. */
  function ShapeOf(obj: Json): Shape {
    match obj
    case JObject(f) =>
      if "message" in f && f["message"].JObject? && "content" in f["message"].fields then
        MessageContent(f["message"].fields["content"])
      else if "output" in f then
        Output(f["output"])
      else if "response" in f && f["response"].JArray? && f["response"].items != []
              && f["response"].items[0].JObject? then
        ResponseEntry(f["response"].items[0].fields)
      else if "choices" in f && f["choices"].JArray? && f["choices"].items != []
              && f["choices"].items[0].JObject? then
        Choice(f["choices"].items[0].fields)
      else
        Unrecognised
    case _ => Unrecognised
  }

  /** Falsy values fall through to `None` with `or` in the last two shapes only. */
  function FirstTruthy(values: seq<Json>): (r: Json)
    ensures r == JNull || (r in values && Truthy(r))
    ensures (exists k :: 0 <= k < |values| && Truthy(values[k])) ==> Truthy(r)
    ensures r != JNull ==>
      exists k :: 0 <= k < |values| && r == values[k]
        && forall j :: 0 <= j < k ==> !Truthy(values[j])
  {
    if values == [] then JNull
    else if Truthy(values[0]) then values[0]
    else
      var r := FirstTruthy(values[1..]);
      assert r != JNull ==>
        exists k :: 0 <= k < |values| && r == values[k]
          && forall j :: 0 <= j < k ==> !Truthy(values[j]) by {
        if r != JNull {
          var k :| 0 <= k < |values[1..]| && r == values[1..][k]
            && forall j :: 0 <= j < k ==> !Truthy(values[1..][j]);
          assert r == values[k + 1];
          assert forall j :: 0 <= j < k + 1 ==> !Truthy(values[j]) by {
            forall j | 0 < j < k + 1 ensures !Truthy(values[j]) {
              assert values[j] == values[1..][j - 1];
            }
          }
        }
      }
      r
  }

  /** The answer each shape yields. */
  function ShapeAnswer(s: Shape): Extraction {
    match s
    case MessageContent(c) => Lift(c)
    case Output(o) => Lift(o)
    case ResponseEntry(e) => Lift(FirstTruthy([Get(e, "content"), Get(e, "message")]))
    case Choice(c) =>
      if Truthy(Get(c, "text")) then Content(Get(c, "text"))
      else if !Truthy(Get(c, "message")) then NoContent
      else if Get(c, "message").JObject? then Lift(Get(Get(c, "message").fields, "content"))
      else AttributeError
    case Unrecognised => NoContent
  }

  /**
   * The extraction is a fixed-priority shape match: its result is the answer
   * of the first shape whose guard holds, whatever the later shapes hold.
   */
  lemma ExtractIsShapeMatch(obj: Json)
    ensures ExtractContent(obj) == ShapeAnswer(ShapeOf(obj))
  {
    match obj
    case JObject(f) =>
      var m := Get(f, "message");
      if m.JObject? && "content" !in m.fields {
        AssistantBranchUnreachable(m.fields);
      }
      if !(m.JObject? && "content" in m.fields) && "output" !in f {
        var resp := Get(f, "response");
        if resp.JArray? && resp.items != [] && resp.items[0].JObject? {
          var e := resp.items[0].fields;
          assert Or(Or(Get(e, "content"), Get(e, "message")), JNull)
              == FirstTruthy([Get(e, "content"), Get(e, "message")]);
        }
      }
    case _ =>
  }

  /** The only failure: a falsy `text` next to a truthy `message` that is not a dict in `choices[0]`. */
  lemma ExtractFailsOnlyOnChoiceMessage(obj: Json)
    ensures ExtractContent(obj) == AttributeError <==>
      ShapeOf(obj).Choice? && !Truthy(Get(ShapeOf(obj).choice, "text")) &&
      Truthy(Get(ShapeOf(obj).choice, "message")) && !Get(ShapeOf(obj).choice, "message").JObject?
  {
    ExtractIsShapeMatch(obj);
  }

  /** No shape at all, or a non-dict reply, gives `None`. */
  lemma UnrecognisedGivesNothing(obj: Json)
    requires ShapeOf(obj) == Unrecognised
    ensures ExtractContent(obj) == NoContent
  {
    ExtractIsShapeMatch(obj);
  }

  function MessageReply(text: string): Json {
    JObject(map["message" := JObject(map["role" := JStr("assistant"), "content" := JStr(text)])])
  }

  function ChoicesReply(text: string): Json {
    JObject(map["choices" := JArray([JObject(map["text" := JStr(text)])])])
  }

  /**
   * The `message.content` shape and the `choices[0].text` shape carry the
   * same non-empty text to the same answer; an empty text is returned by the
   * first but read as no answer by the second, whose `or` skips it.
   */
  lemma MessageAndChoicesAgree(text: string)
    ensures text != "" ==> ExtractContent(MessageReply(text)) == Content(JStr(text))
    ensures text != "" ==> ExtractContent(ChoicesReply(text)) == Content(JStr(text))
    ensures ExtractContent(MessageReply("")) == Content(JStr(""))
    ensures ExtractContent(ChoicesReply("")) == NoContent
  {
    var c0 := map["text" := JStr("")];
    assert ChoiceContent(c0) == NoContent by {
      assert Get(c0, "message") == JNull;
    }
  }

  /** A matched `message.content` wins even when falsy and even when other shapes are present. */
  lemma MessageContentWins(fields: map<string, Json>, content: Json)
    requires "message" in fields && fields["message"].JObject?
    requires "content" in fields["message"].fields && fields["message"].fields["content"] == content
    ensures ExtractContent(JObject(fields)) == Lift(content)
    ensures content == JStr("") ==> ExtractContent(JObject(fields)) == Content(JStr(""))
  {
  }
}
