/**
 * One turn of the console loop, without the console: the exit-token test and
 * the retrieve, assemble and generate pipeline run for every other line.
 */
module Session {
  import opened Wrappers
  import opened Text
  import opened JsonValue
  import opened Retrieval
  import opened Context
  import opened Generate

  /** `input(...).strip().lower() in {"exit", "quit"}` */
  predicate IsExitCommand(line: string): (r: bool)
    ensures r ==> |Strip(line)| == 4
  {
    var w := Lower(Strip(line));
    w == "exit" || w == "quit"
  }

  /**
   * Surrounding whitespace and letter case do not matter to the exit test:
   * a line is an exit command exactly when its trimmed core lower-cases to
   * `exit` or `quit`.
   */
  lemma ExitCommandIff(p: string, w: string, q: string)
    requires AllSpace(p) && AllSpace(q)
    requires w == [] || (!IsSpace(w[0]) && !IsSpace(w[|w| - 1]))
    ensures IsExitCommand(p + w + q) <==> Lower(w) == "exit" || Lower(w) == "quit"
  {
    StripPadded(p, w, q);
  }

  /** The list the retriever returns for `query`. */
  function RetrievalFor(query: string, kb: seq<string>, sims: seq<real>, order: seq<nat>): seq<Scored>
    requires WellRanked(kb, sims, order) || NormalizeQuery(Some(query)) == ""
  {
    if NormalizeQuery(Some(query)) == "" then [] else Retrieved(kb, sims, order, DefaultTopN, DefaultMinScore)
  }

  /** Lines 157-159 of the loop: retrieve with the defaults, assemble the context, generate. */
  method AnswerQuery(userQuery: string, kb: seq<string>, sims: seq<real>, order: seq<nat>,
                     send: (string, Payload) -> RequestOutcome, dumps: Json -> string,
                     formatScore: real -> string)
    returns (answer: Answer)
    requires WellRanked(kb, sims, order) || NormalizeQuery(Some(userQuery)) == ""
    ensures answer == OllamaGenerate(userQuery, ContextOf(RetrievalFor(userQuery, kb, sims, order), formatScore),
                                     DefaultModel, DefaultEndpoint, send, dumps)
  {
    var retrieved := RetrievePassages(Some(userQuery), kb, sims, order, DefaultTopN, DefaultMinScore);
    var context := BuildContext(retrieved, formatScore);
    answer := OllamaGenerate(userQuery, context, DefaultModel, DefaultEndpoint, send, dumps);
  }

  /**
   * A blank line is not an exit command and is not skipped: it reaches the
   * pipeline, retrieves nothing and so is sent as an empty user message under
   * the instruction followed by the no-context marker.
   */
  lemma BlankLineIsAsked(line: string, kb: seq<string>, sims: seq<real>, order: seq<nat>,
                         formatScore: real -> string)
    requires AllSpace(line)
    ensures !IsExitCommand(line)
    ensures NormalizeQuery(Some(Strip(line))) == ""
    ensures RetrievalFor(Strip(line), kb, sims, order) == []
    ensures BuildPayload(DefaultModel, Strip(line), ContextOf(RetrievalFor(Strip(line), kb, sims, order), formatScore))
         == Payload(DefaultModel, [Message("system", Instruction + NoContextMarker), Message("user", "")], false)
  {
    StripEmptyIff(line);
    assert |Lower(Strip(line))| == 0;
    StripEmptyIff("");
    assert ContextOf([], formatScore) == "";
  }

  /**
   * The system prompt is exactly the instruction followed by the no-context
   * marker when, and only when, retrieval found nothing: a non-empty context
   * always opens with a passage header. (A passage may itself end in the
   * marker text, so the prompt's ending alone does not tell the two apart.)
   */
  lemma PromptMarksMissingEvidence(retrieved: seq<Scored>, formatScore: real -> string)
    ensures SystemPrompt(ContextOf(retrieved, formatScore)) == Instruction + NoContextMarker <==> retrieved == []
  {
    var context := ContextOf(retrieved, formatScore);
    ContextEmptyIff(retrieved, formatScore);
    if retrieved != [] {
      ContextStartsWithFirstBlock(retrieved, formatScore);
      assert NoContextMarker[0] == 'N';
      assert context != NoContextMarker;
      if SystemPrompt(context) == Instruction + NoContextMarker {
        SystemPromptDeterminesContext(context, "");
      }
    }
  }
}
