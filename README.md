# RAG question answering over a fixed knowledge base — Dafny model

`RAG.py` answers questions about one master's programme. It scores every
passage of a small, fixed knowledge base against the question with TF-IDF
cosine similarity. It keeps the best passages that clear a threshold and
renders them into a numbered context block. It then sends that block, inside
a grounding system prompt, to a local Ollama chat endpoint. The reply is
normalised from one of several JSON shapes into the answer text. Transport
failures, invalid JSON and unrecognised shapes become fixed texts, while an
`AttributeError` from a malformed `choices[0]` escapes.

This project models the deterministic decision logic of that script:

- `retrieval.dfy` (module `Retrieval`) models the passage selection of
  `retrieve_passages_semantic`. `RetrievePassages` normalises the query and
  returns `[]` for an empty one. `SelectPassages` walks the descending index
  order with the same loop, the same early `break` at `top_n` and the same
  `>= min_score` filter. The similarity scores and their descending order are
  inputs. The result is proved equal to the specification function
  `Retrieved`, and the lemmas
  about `Retrieved` and `Selected` state what the caller gets. The result has
  at most `top_n` entries. Every entry is a distinct passage with its own
  score at or above the threshold. Scores never increase. The length is exactly
  `min(top_n, #qualifying)`. No qualifying passage is left out in favour of a
  lower-scoring one.
- `context.dfy` (module `Context`) models `build_context`. `BuildContext`
  keeps the source's loop over `parts` and is proved equal to `ContextOf`.
  The lemmas give the context's shape. It is empty exactly for no results.
  One result is one block numbered 1. Each further result adds one delimiter
  and the next-numbered block, in input order.
- `json.dfy` (module `JsonValue`) holds a decoded JSON value with Python's
  truthiness, `dict.get` and `or`.
- `reply_shape.dfy` (module `ReplyShape`) models `_extract_ollama_content`
  branch for branch. It includes the search of a `content` list, which can
  never run. `ExtractIsShapeMatch` proves the function equal to a tagged-variant
  reading (`ShapeOf`, `ShapeAnswer`). The first of `message.content`,
  `output`, `response[0]` and `choices[0]` whose structural guard holds
  decides the result, even when its value is falsy. The `AttributeError`
  that `.get` raises on a truthy non-dict `message` in `choices[0]` is an
  explicit outcome.
- `generate.dfy` (module `Generate`) models `ollama_generate`. It builds the
  system prompt and the payload. It maps what the exchange produced to the
  returned value: extracted content, the shape warning with the dump cut to
  2000 characters, the connection error or the invalid-JSON error. An
  `AttributeError` from extraction is not caught there and escapes.
- `session.dfy` (module `Session`) models the exit-token test of the console
  loop and one pass of the pipeline (retrieve with `top_n=3`,
  `min_score=1e-6`, assemble, generate). It also proves that the system
  prompt is exactly the instruction followed by the no-context marker when,
  and only when, retrieval found nothing.
- `text.dfy` (module `Text`) holds `str.strip`, ASCII `str.lower`,
  `str.join` and decimal rendering, with their lemmas. `wrappers.dfy`
  holds `Option`.

Parameters stand for what the script gets from code outside it:
`formatScore` is the `{score:.4f}` rendering, `dumps` is `json.dumps`, and
`send` is the HTTP exchange, classified as a `RequestOutcome`.
`np.argsort(...)[::-1]` fixes no order among tied scores, so the model takes
any descending permutation and asserts nothing about ties. `raise_for_status`
raises a `requests` exception, so an error status gets the same
"Could not connect" text as a refused connection.

## Model

| member | source | states |
|---|---|---|
| `Retrieval.NormalizeQuery` | RAG.py:52 | `None` becomes `""`; the normalised query is no longer than the input and neither starts nor ends with whitespace |
| `Retrieval.NormalizeQueryEmptyIff` | RAG.py:52-54 | the query is dropped (empty after normalising) exactly when it is `None`, empty or whitespace only |
| `Retrieval.RetrievePassages` | RAG.py:46-66 | an empty normalised query returns `[]` and needs no scores; otherwise the result is exactly `Retrieved`, the pairs of the first `top_n` qualifying indices of the descending order |
| `Retrieval.SelectPassages` | RAG.py:58-66 | the loop over the sorted indices, with its `break` at `top_n` and its `>= min_score` test, returns the `(passage, score)` pairs of the first `top_n` qualifying indices, in order |
| `Retrieval.Qualifying` | RAG.py:60-65 | the filtered indices are in range and no more numerous than the order they come from |
| `Retrieval.QualifyingMembers` | RAG.py:60-65 | the indices kept by the `>= min_score` filter are exactly those of the order whose score clears the threshold |
| `Retrieval.QualifyingSnoc` | RAG.py:63-65 | filtering one more index appends it exactly when its score is `>= min_score` |
| `Retrieval.Take` | RAG.py:59-62 | the `len(results) >= top_n` cut keeps a prefix of length `min(top_n, n)`, and nothing for `top_n <= 0` |
| `Retrieval.QualifyingStep` | RAG.py:63-65 | one more step of the loop appends the index exactly when its score is `>= min_score` |
| `Retrieval.FullPrefixIsSelected` | RAG.py:61-62 | breaking out once `top_n` entries are collected yields the whole selection |
| `Retrieval.QualifyingAppend` | RAG.py:60-65 | filtering an order in two pieces gives the two filtered pieces in sequence |
| `Retrieval.SelectedBound` | RAG.py:59-62 | at most `top_n` entries, and none when `top_n <= 0` |
| `Retrieval.SelectedSound` | RAG.py:60-65 | every selected index is a passage index, its score is `>= min_score`, and no index repeats |
| `Retrieval.QualifyingDistinct` | RAG.py:60-65 | a permutation's filtered indices never repeat |
| `Retrieval.QualifyingDescending` | RAG.py:58-65 | filtering keeps the non-increasing score order of the ranked indices |
| `Retrieval.RetrievedDescending` | RAG.py:58-66 | returned scores never increase from one entry to the next |
| `Retrieval.RetrievedSound` | RAG.py:60-65 | entry k is `(knowledge_base[i], sims[i])` for the k-th selected index `i`, whose score is `>= min_score`, with all indices distinct |
| `Retrieval.SelectedCount` | RAG.py:58-66 | the result has exactly `min(top_n, #{i : sims[i] >= min_score})` entries (0 when `top_n <= 0`) |
| `Retrieval.SelectedKeepsBest` | RAG.py:58-66 | a qualifying passage left out scores no higher than any passage returned |
| `Retrieval.NothingClearsThreshold` | RAG.py:63-66 | when no score reaches `min_score`, the result is empty |
| `Retrieval.DistinctCard` | RAG.py:60-65 | a list of indices without repeats has as many elements as distinct values (used for the count) |
| `Context.Block` | RAG.py:76 | a part opens with `[PASSAGE `, and its header line ends in a newline followed by the passage verbatim |
| `Context.BuildContext` | RAG.py:71-77 | the loop's `parts` joined by the delimiter equal `ContextOf`, and `""` for no results |
| `Context.BlocksAt` | RAG.py:74-76 | block k renders result k with the number k + 1: input order, numbered from 1, no re-sorting |
| `Context.ContextEmptyIff` | RAG.py:72-77 | the context is `""` exactly when nothing was retrieved |
| `Context.ContextStartsWithFirstBlock` | RAG.py:75-77 | a non-empty context opens with the header numbered 1 and the first passage, so its first character is `[` |
| `Context.ContextOfOne` | RAG.py:74-77 | one result gives its single block numbered 1 with no delimiter |
| `Context.ContextOfSnoc` | RAG.py:74-77 | one more result appends exactly one delimiter and the next-numbered block |
| `Context.ContextLength` | RAG.py:77 | n results give n blocks joined by exactly n − 1 delimiters |
| `Text.StripEmptyIff` | RAG.py:52 | `strip()` gives `""` exactly for whitespace-only input |
| `Text.StripPadded` | RAG.py:150 | `strip()` removes exactly the whitespace around a core that starts and ends with a non-space |
| `Text.StripIdempotent` | RAG.py:52 | stripping an already stripped line changes nothing |
| `Text.TrimStart` | RAG.py:52 | the dropped prefix is all whitespace and the rest starts with a non-space |
| `Text.TrimEnd` | RAG.py:52 | the dropped suffix is all whitespace and the rest ends with a non-space |
| `Text.Decimal` | RAG.py:76 | the passage number renders as digits with no leading zero |
| `Text.DecimalRoundTrip` | RAG.py:76 | the rendered passage number reads back as the same number |
| `Text.JoinSnoc` | RAG.py:77 | joining one more part adds one separator and that part |
| `Text.JoinLength` | RAG.py:77 | n parts are joined with exactly n − 1 separators |
| `JsonValue.Or` | RAG.py:105 | `a or b` is truthy when either is, and is `a` when `a` is truthy |
| `ReplyShape.ExtractContent` | RAG.py:82-113 | a non-dict reply gives `None`; found content is never `None` |
| `ReplyShape.FindAssistant` | RAG.py:96-98 | the list search finds something exactly when some entry is a dict with role `assistant`, and then yields the `content` of the first such entry |
| `ReplyShape.AssistantBranchUnreachable` | RAG.py:91-98 | where `content` is absent, `m.get("content")` is `None`, never a list, so the list search cannot run |
| `ReplyShape.ExtractIsShapeMatch` | RAG.py:87-113 | the extraction is the answer of the first shape whose guard holds, in the order message.content, output, response[0], choices[0] |
| `ReplyShape.ExtractFailsOnlyOnChoiceMessage` | RAG.py:107-112 | `AttributeError` arises exactly for the choices shape with a falsy `text` and a truthy non-dict `message` |
| `ReplyShape.UnrecognisedGivesNothing` | RAG.py:113 | when no guard holds the result is `None` |
| `ReplyShape.FirstTruthy` | RAG.py:105 | the `or` chain yields the first truthy candidate whenever one exists, else `None` |
| `ReplyShape.MessageAndChoicesAgree` | RAG.py:88-112 | the same non-empty text in `message.content` and `choices[0].text` gives the same answer; an empty text is kept by the first and lost by the second |
| `ReplyShape.MessageContentWins` | RAG.py:89-92 | a present `message.content` is returned whatever else the reply holds, even when falsy |
| `ReplyShape.ChoiceContent` | RAG.py:112 | a truthy `text` is the answer; `AttributeError` arises exactly when `text` is falsy and `message` is truthy but not a dict; found content is never `None` |
| `Generate.SystemPrompt` | RAG.py:116-120 | the prompt opens with the instruction and is always followed by more text, which is the context verbatim whenever the context is non-empty |
| `Generate.SystemPromptDeterminesContext` | RAG.py:116-120 | the system prompt holds the context verbatim; only `""` and the literal marker give the same prompt |
| `Generate.BuildPayload` | RAG.py:121-128 | the payload names the model, has messages `[system, user]` in that order with the query only in the user message, and `stream` false |
| `Generate.Truncate` | RAG.py:136 | the dump is cut to a prefix of at most 2000 characters, untouched when shorter |
| `Generate.ShapeWarning` | RAG.py:134-136 | the shape warning starts with its fixed text and is at most 2000 characters longer |
| `Generate.ConnectionError` | RAG.py:138-139 | a request exception yields text starting with `Error: Could not connect to Ollama at ` |
| `Generate.AnswerFor` | RAG.py:129-141 | a returned value is never `None`; request failure, bad JSON and unrecognised shape give their fixed texts; an exception escapes exactly when extraction raises |
| `Generate.OllamaGenerate` | RAG.py:115-141 | the answer is the outcome mapping applied to what sending the built payload to the endpoint produced; a returned value is never `None`; an exception escapes only after a JSON body arrived |
| `Generate.FallbacksDistinct` | RAG.py:136-141 | the connection, invalid-JSON and shape-warning texts differ for every input |
| `Generate.BodyAnswer` | RAG.py:132-137 | a JSON body returns what its matched shape yields, or the shape warning when that is `None` |
| `Session.IsExitCommand` | RAG.py:150-154 | an exit line has a four-character core after stripping |
| `Session.ExitCommandIff` | RAG.py:150-154 | a line exits exactly when its trimmed core lower-cases to `exit` or `quit`, whatever whitespace surrounds it |
| `Session.AnswerQuery` | RAG.py:157-159 | a loop pass returns `ollama_generate` on the context built from the retrieval with `top_n=3`, `min_score=1e-6` |
| `Session.BlankLineIsAsked` | RAG.py:150-159 | a blank line is not an exit, retrieves nothing, and is sent as the payload with an empty user message under the instruction followed by the no-context marker |
| `Session.PromptMarksMissingEvidence` | RAG.py:119 | the system prompt is exactly the instruction followed by the no-context marker when, and only when, retrieval returned nothing |

## Left out

- TF-IDF fitting and cosine similarity (RAG.py:40-41, 55-56) are floating-point numerics inside scikit-learn, whose code is not part of this model. The scores are an input sequence of reals, one per passage.
- `np.argsort` is represented only by its guarantee, a permutation whose scores never increase after the reversal. The order of tied scores is not fixed, so nothing about ties is asserted.
- The startup check on an empty knowledge base (RAG.py:37-38) and the corpus text (RAG.py:17-32) are left out. The model works for any list of passages.
- The HTTP POST, the 60-second timeout, `raise_for_status` and `resp.json()` (RAG.py:130-132) are network I/O. They are the `send` parameter, which returns the classified outcome. Which exception class `requests` raises is library behaviour and is not modelled. Since requests 2.27, a body that is not JSON raises an error that is both a `RequestException` and a `ValueError`, so it reaches the first handler. The model takes the outcome as already classified.
- The text of an exception (`{e}`) is the `details` string of `RequestFailed`.
- `json.dumps` and the `{score:.4f}` rendering are the parameters `dumps` and `formatScore`. Only the 2000-character cut is modelled.
- Similarity scores and `min_score` are exact reals, and `>=` is the comparison of reals. Every double is an exact real and double comparison is exact, so this agrees with Python for finite scores; `DefaultMinScore` is the exact value of the double `1e-6` (slightly below 10^-6), so a score equal to that double qualifies, as in Python.
- JSON numbers are reals, covering integers and floats. `NaN` and `Infinity`, which Python's decoder also accepts, are not representable.
- `Text.LowerChar` lower-cases ASCII letters only. Python's full Unicode case mapping is not modelled. This does not change the exit test, because no non-ASCII character lower-cases to one of the single letters e, x, i, t, q or u.
- Reading from the console, printing, and the handling of EOF and keyboard interrupt (RAG.py:146-153, 155, 160) are console I/O. The loop itself is not modelled; the exit test and one pass of the pipeline are.
- In the unreachable list search, the source indexes `m["content"]`, which would raise `KeyError` there. The model reads the list from `m.get("content")`. The branch cannot run, so the difference is never observable.
