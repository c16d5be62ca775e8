# qa-system batch pipeline, modelled in Dafny

This project models the batch pipeline of the qa-system question-answering service. The
pipeline sits between its HTTP adapters:

- **Partition and scatter-back.** `get_articles` in the app and `load_articles` in the
  monolithic server group the questions of a request by topic. They make one batched
  vector-store search per topic and write the k-th response of a topic back to the slot of
  that topic's k-th question.
- **Prompt assembly.** `build_prompts` and `llm_request` make one prompt per question. A prompt
  is a fixed system preamble, `Input:`, the question wrapped in `<input>…</input>`, and one
  `<article>…</article>` row per retrieved hit, joined by newlines.
- **The round multiplexer.** `LLMModel.ask`, and its twin `llm` in the server, read each prompt
  back with the regular expressions `<input>(.+)</input>` and `<article>(.+)</article>`. They
  yield a header round with one entry per prompt. Then they yield one round per match index:
  round j holds, for every prompt, a random slice of its j-th article match, or `[]` once its
  matches are used up.
  The stream stops at the first round in which no entry is a non-empty string.
- **Framing.** Round i is sent as the server-sent event `event: qasystem`, `id: i`,
  `data: <round as JSON>`, closed by a blank line (section 9.2 of the WHATWG HTML Living
  Standard). The integration tests' `parse_events` reads such a body back into events.

Files, one module each:

- `Wrappers.dfy`: `Option` and `Result`.
- `Models.dfy`: topics, questions, search hits, and the entries and rounds of the stream.
- `Text.dfy`: Python's `'\n'.join`, `split('\n')`, `''.join` and `str(n)`.
- `LineRegex.dfy`: the two tag patterns with Python `re` semantics, restricted to single lines.
  `.` matches no newline and no tag holds one, so no match can cross a line.
- `Preamble.dfy`: the system prompt literal and the facts that neither pattern matches it.
- `DataProcessing.dfy`: `get_articles` (the dict and the result list become a `map` and an
  `array` updated in loops) and `build_prompts`.
- `LlmModel.dfy`: `LLMModel.ask`. It is a method that advances a per-prompt cursor array round
  by round, proved equal to the specification function `AskRounds`.
- `Json.dfy`: `ujson.dumps` of a round and a decoder with the meaning `json.loads` gives it.
- `Frames.dfy`: the frame string and `gen_response`.
- `Server.dfy`: `load_articles`, `llm_request`, `llm` and `ask_action` of the server.
- `EventStream.dfy`: `parse_events`, and the round trip from frames back to events.
- `Integration.dfy`: the app's `ask_action` from questions to body, and what the integration
  tests assert about that body.

Three kinds of outside input become parameters:

- The vector store's `search` is a function from a topic value and a list of embeddings to a
  list of responses.
- Embeddings are opaque values of a type parameter.
- The random draws are an oracle `draws(round, prompt)`. The lemmas `SliceReachesEveryChoice`
  and `SliceIsSomeChoice` show that the oracle yields exactly the slices that
  `randint(0, len(article))` and `randint(start, start + 128)` allow.

Four behaviours of the code are easy to misread. The model follows the code in each:

- A search that returns fewer responses than questions leaves `None` in the uncovered slots
  (`zip`, app/data_processing.py:27-28). `build_prompts` then raises when it reads `.items` of
  that `None`, which the model returns as `MissingArticles`.
- The stream stops at the first round whose entries are all `[]` or `""`. That round can come
  before every article match is used, because a random slice may be empty. See
  `LlmModel.AskMayStopAfterHeader`.
- As a result, the integration tests' `1 < len(events)` is not guaranteed by the code (see
  `Integration.AppMayStopAfterHeader`).
- The batch test's `len(event.data[1]) > 0` is not guaranteed either: a live round can carry
  `[]` for an exhausted prompt (see `LlmModel.ExhaustedEntryInLiveRound`).

The server's `llm` has no header fallback. An empty question leaves `<input></input>`, which
`.+` cannot match. When no retrieved text of that prompt contains an `<input>…</input>` pair,
`.group` on `None` then raises before any frame (`Server.EmptyQuestionRaises`, stated for
tag-free article texts). A hit text such as `<input>x</input>` would instead supply the match.
The prompt functions are Dafny functions, so equal inputs give byte-identical prompts.

## Model

| member | source | states |
|---|---|---|
| `Models.QuestionTexts` | app/data_processing.py:77 | one text per question, position by position; the texts are what the prompts carry, as `DataProcessing.PromptQueryExtraction` recovers them |
| `Models.TopicValueInjective` | app/models.py:7-9 | the two topics are queried with different string values |
| `DataProcessing.PartitionByTopic` | app/data_processing.py:18-20 | the loop leaves the dict holding, for each topic met, that topic's (index, embedding) pairs, with its keys in insertion order |
| `DataProcessing.GroupIsTopicMembers` | app/data_processing.py:18-20 | a topic's group holds exactly the paired indices whose question has that topic, each with its own embedding, in strictly increasing order |
| `DataProcessing.TopicsFirstAppearance` | app/data_processing.py:18-23 | the dict's keys are the distinct topics of the paired questions, each once, ordered by first appearance |
| `DataProcessing.SearchOncePerTopic` | app/data_processing.py:23-26 | no two search calls share a topic, and every paired question's topic is searched |
| `DataProcessing.ScatterKth` | app/data_processing.py:27-28 | the k-th member of a topic's group receives the k-th response of that topic's search, or keeps None when the response list is shorter |
| `DataProcessing.ScatterTopic` | app/data_processing.py:27-28 | the inner loop settles every question of the topic and changes no other slot |
| `DataProcessing.SearchTopics` | app/data_processing.py:23-28 | one search per key in insertion order, each with its group's embeddings in member order; afterwards every paired question's slot is settled |
| `DataProcessing.GetArticles` | app/data_processing.py:17-29 | one slot per question, filled by the scatter or left None; the search calls are one per distinct topic in first-appearance order; empty input gives no call and an empty list |
| `DataProcessing.BuildPrompts` | app/data_processing.py:40-57 | one prompt per (query, hit list) pair of `zip`, in order; fails exactly when some paired hit list is None, naming the first such position |
| `DataProcessing.PromptLines` | app/data_processing.py:54-56 | with newline-free texts, the prompt's lines are the preamble's lines, `Input:`, `<input>q</input>`, then one `<article>t</article>` line per hit in hit order |
| `DataProcessing.PromptQueryExtraction` | app/data_processing.py:54 | searching a prompt for `<input>(.+)</input>` gives back the non-empty, newline-free query verbatim, whatever tags it holds |
| `DataProcessing.PromptArticlesExtraction` | app/data_processing.py:54-56 | finding all `<article>(.+)</article>` in a prompt gives back the non-empty hit texts in order (a hit list with no items gives no article) when the query is newline- and tag-free |
| `DataProcessing.EmptyQueryNoInputMatch` | app/data_processing.py:54 | an empty query leaves `<input></input>`, and with tag-free texts the prompt then has no `<input>` match at all |
| `DataProcessing.ArticleRowsMatches` | app/data_processing.py:55 | the article rows match exactly the non-empty texts; `<article></article>` does not match `.+` |
| `Preamble.PromptLines` | app/data_processing.py:41-50 | the system prompt splits into its ten lines |
| `Preamble.NoMatches` | app/data_processing.py:41-50 | no preamble line matches either tag pattern; its `<input></input>` and `<article></article>` have nothing for `.+` |
| `LineRegex.LastClose` | app_llm/llm_model.py:19 | greedy `.+`: the closing tag found is the last one in range, and none lies after it |
| `LineRegex.Search` | app_llm/llm_model.py:19 | `search` finds a match exactly when `finditer` does, and gives its first; `DataProcessing.PromptQueryExtraction` shows it recovers the query of a prompt |
| `LineRegex.WholeLineMatch` | app_llm/llm_model.py:26 | a line made of the opening tag, a non-empty capture and the closing tag matches once, capturing it |
| `LineRegex.TagLineNoMatch` | app_llm/llm_model.py:26 | a line with one tag pair holds no match of the other pattern, nor of its own when the capture would be empty |
| `LlmModel.Slice` | app_llm/llm_model.py:33-36 | a live entry is a contiguous piece of its article of at most 128 characters |
| `LlmModel.SliceReachesEveryChoice` | app_llm/llm_model.py:34-36 | every (start, stop) pair the two `randint` calls allow is produced by some draw |
| `LlmModel.SliceIsSomeChoice` | app_llm/llm_model.py:34-36 | every draw produces `article[start:stop]` for some pair the two `randint` calls allow |
| `LlmModel.MaxMatches` | app_llm/llm_model.py:26 | the largest number of article matches of any prompt |
| `LlmModel.RoundAt` | app_llm/llm_model.py:28-36 | every article round has one entry per prompt |
| `LlmModel.RoundPastMatches` | app_llm/llm_model.py:29-32 | once every prompt's matches are used up, each entry is `[]` and the round is falsy |
| `LlmModel.ArticleRounds` | app_llm/llm_model.py:27-41 | every yielded article round is the round computed at its step, has one entry per prompt and has a truthy entry |
| `LlmModel.AskRounds` | app_llm/llm_model.py:15-41 | at least one round is yielded, and every round has one entry per prompt |
| `LlmModel.NextRound` | app_llm/llm_model.py:28-36 | one pass over the iterators produces the round of that step and advances exactly the live cursors by one |
| `LlmModel.StreamArticles` | app_llm/llm_model.py:26-41 | the `while True` loop over the per-prompt iterators yields exactly the article rounds |
| `LlmModel.Ask` | app_llm/llm_model.py:15-41 | the generator yields the header round, then the article rounds |
| `LlmModel.HeaderTruthy` | app_llm/llm_model.py:17-25 | every header entry is a non-empty string; it is the fallback exactly when the prompt has no `<input>` match |
| `LlmModel.AskRoundEntries` | app_llm/llm_model.py:26-41 | in round k ≥ 1, prompt p's entry is a slice of ≤ 128 characters of its (k-1)-th match, or `[]` in that and every later round once matches run out; every yielded round has a truthy entry |
| `LlmModel.ArticleRoundsStop` | app_llm/llm_model.py:39-40 | the round after the last yielded one has no truthy entry |
| `LlmModel.AskStops` | app_llm/llm_model.py:39-40 | the stream ends at the first all-falsy round, which is not yielded |
| `LlmModel.ArticleRoundsBound` | app_llm/llm_model.py:27-41 | there are at most as many article rounds as the largest number of matches of a prompt |
| `LlmModel.AskRoundCount` | app_llm/llm_model.py:26-41 | total rounds are between 1 and 1 plus the largest number of article matches of a prompt |
| `LlmModel.AskNoPrompts` | app_llm/llm_model.py:17-41 | zero prompts give exactly one round, the empty one |
| `LlmModel.AskTagFree` | app_llm/llm_model.py:17-40 | prompts without tags give exactly one round of fallback strings |
| `LlmModel.AskMayStopAfterHeader` | app_llm/llm_model.py:33-40 | empty slices end the stream after the header, however many matches remain |
| `LlmModel.ExhaustedEntryInLiveRound` | app_llm/llm_model.py:29-41 | a yielded round can hold `[]` for an exhausted prompt beside a live one |
| `LlmModel.SinglePromptRounds` | app_llm/llm_model.py:17-41 | with one prompt every yielded round is a single non-empty string |
| `LlmModel.TagFreeNoMatches` | app_llm/llm_model.py:19 | a string without `<` has no match of either pattern |
| `Json.ParseHexOfHex` | app_llm/main.py:66 | the four hex digits of a `\u` escape read back as the code they were written from |
| `Json.DecodeCharsOfEncode` | app_llm/main.py:66 | an escaped string body decodes back to the string and stops after its closing quote |
| `Json.DecodeRoundOfEncode` | app_llm/main.py:66 | `json.loads` of `ujson.dumps(round)` gives back the round |
| `Json.EncodeRoundShape` | app_llm/main.py:66 | the JSON of a round is one line of printable ASCII or DEL between `[` and `]`, so the data line holds no newline |
| `Json.TripleJson` | app_llm/tests/test_main.py:101 | three unescaped strings encode as quoted items joined by commas with no spaces |
| `Frames.FramesFrom` | app_llm/main.py:63-66 | one frame per round, numbered on from the given id; `EventStream.ParseFrames` shows the frames parse back to the rounds |
| `Frames.Frames` | app_llm/main.py:63 | one frame per round, frame i carrying id i and round i |
| `Frames.GenResponse` | app_llm/main.py:62-66 | the `enumerate` loop yields one frame per round with ids 0, 1, 2, … in yield order |
| `Frames.LlmAsk` | app_llm/main.py:60-68 | the `/llm_ask` body is the concatenation, in order, of the frames of the rounds `ask` yields |
| `Frames.FrameShape` | app_llm/main.py:64-66 | every frame begins with `event: qasystem\n` and ends with a blank line |
| `Frames.SingleRoundBody` | app_llm/main.py:64-66 | a one-round body is exactly `event: qasystem\nid: 0\ndata: <json>\n\n` |
| `Frames.ConcatFramesFrom` | app_llm/main.py:62-68 | a body is its first frame followed by the body of the later rounds |
| `Frames.EmptyRequestBody` | app_llm/tests/test_main.py:61-64 | empty items give the body `event: qasystem\nid: 0\ndata: []\n\n` |
| `Frames.TagFreeBody` | app_llm/tests/test_main.py:95-103 | tag-free prompts give one frame whose data is one fallback string per prompt |
| `Frames.TagFreeBatchBody` | app_llm/tests/test_main.py:95-103 | three tag-free prompts give exactly the frame the batch test expects |
| `Server.ServerHeader` | server/data_processing.py:52-56 | the header holds one answer line per prompt, each quoting that prompt's `<input>` match; it fails exactly when some prompt has no match, naming the first |
| `Server.LlmRounds` | server/data_processing.py:50-72 | when `llm` yields, it yields at least one round and every round has one entry per prompt |
| `Server.Llm` | server/data_processing.py:50-72 | the header loop raises at the first prompt without a query; otherwise the article loop follows |
| `Server.LlmRequest` | server/data_processing.py:30-47 | builds the prompts as `build_prompts` does and passes them to `llm` in query order |
| `Server.LoadArticles` | server/data_processing.py:13-27 | one slot per question, one search per distinct topic, and the k-th response of a topic in the slot of its k-th question |
| `Server.AskAction` | server/data_processing.py:75-84 | frames the rounds of `llm_request` with ids 0, 1, 2, …, or fails before any frame |
| `Server.LlmAgreesWithBackend` | server/data_processing.py:50-72 | when every prompt has a query, `llm` yields exactly what `LLMModel.ask` yields |
| `Server.LlmFailsOnMissingQuery` | server/data_processing.py:54 | `.group` on a failed search raises at the first prompt without an `<input>` match |
| `Server.RequestAgreesWithApp` | server/data_processing.py:42-47 | with non-empty, newline-free questions, `llm_request` yields the backend's rounds for the app's prompts |
| `Server.EmptyQuestionRaises` | server/data_processing.py:44-54 | an empty question (with tag-free texts) makes `llm` raise at that position |
| `EventStream.Find` | app/tests/test_integration.py:81 | the first occurrence of the separator, and none before it |
| `EventStream.SplitOfJoin` | app/tests/test_integration.py:81 | `split('\n\n')` of a non-empty list of blank-line-free blocks joined by blank lines gives the blocks back |
| `EventStream.SplitLinesThree` | app/tests/test_integration.py:83 | `splitlines` of three boundary-free lines joined by newlines, the last one non-empty, gives the three lines (`"a\nb\n".splitlines()` has two) |
| `EventStream.FieldValue` | app/tests/test_integration.py:85-87 | the text after the first `:` of a field line, stripped, is the field's value |
| `EventStream.ParseIntOfNat` | app/tests/test_integration.py:86 | `int(str(n)) == n` |
| `EventStream.ParseBlocks` | app/tests/test_integration.py:82-88 | one event per block, in order, each the parse of its block; no list when some block does not parse |
| `EventStream.ParseBlock` | app/tests/test_integration.py:83-88 | a frame's block parses to event `qasystem`, its id and its round |
| `EventStream.ParseFrames` | app/tests/test_integration.py:80-88 | parsing the concatenated frames of any non-empty list of rounds (`ask` always yields at least one, `LlmModel.AskRoundCount`) gives one event per round: `qasystem`, id i, round i as data |
| `EventStream.ParseEmptyBody` | app/tests/test_integration.py:81-85 | an empty body does not parse: `lines[0]` of its one empty block raises |
| `Integration.AskAction` | app/data_processing.py:76-81 | the body is the backend's stream for the prompts of the scattered articles, or the prompt-assembly error |
| `Integration.PromptsPerQuestion` | app/data_processing.py:52-57 | a request whose prompts assemble has one prompt per question |
| `Integration.AppEvents` | app/tests/test_integration.py:63-70 | the body parses to at least one event, each `qasystem` with id i and one entry per question; the first event's entries are all non-empty strings |
| `Integration.SingleQuestionEvents` | app/tests/test_integration.py:44-50 | with one question every event has one entry, a non-empty string |
| `Integration.AppEventCount` | app/tests/test_integration.py:45 | with at most three hits per search and newline- and tag-free text, there are at most four events |
| `Integration.AppMayStopAfterHeader` | app/tests/test_integration.py:45 | the stream may consist of the header event alone, so more than one event is not guaranteed |
| `Integration.EmptyRequest` | app/tests/test_integration.py:28-33 | no questions give exactly the body `event: qasystem\nid: 0\ndata: []\n\n` |

## Left out

- HTTP and transport are not modelled: FastAPI routes, CORS, lifespan, dependency wiring,
  request validation and 422 responses. The same holds for the httpx clients `get_embeddings`
  and `get_llm_answer`. The app's body is the one the backend's `/llm_ask` route sends for the
  prompts; the chunking of `aiter_text` is not modelled.
- Thread pools and the `run_io` / `run_cpu` executors are not modelled. `search` is a
  synchronous function parameter.
- The Milvus `Database` wrapper, its `limit=3` and the embedding models are foreign calls. The
  three-hit limit enters only as a hypothesis of `Integration.AppEventCount`.
- `_cpu_load` and the float busy-loop of the server's `llm` have no effect on the output.
- Python's seeded PRNG is replaced by the draw oracle, so the seed-dependent outputs of the
  backend's `test_sse` are not reproduced.
- Generators are modelled as the finished list of what they yield. Laziness, cancellation and
  the point in time at which an error surfaces are not captured. Every error in the model
  occurs before the first frame.
- The regex engine is modelled only for `open(.+)close` with `.` excluding `\n`.
- `ujson.dumps` is modelled for lists of strings and empty lists, with ujson's default escaping:
  `"`, `\`, `/`, the short escapes, `\u` and lowercase hex for other control and non-ASCII
  characters, and surrogate pairs above U+FFFF. Lone surrogates cannot occur, because a Dafny
  `char` is a Unicode scalar value.
- `EventStream.ParseEvent`: `json.loads` is modelled only for arrays of strings and empty arrays
  written without whitespace, and `int` only for ASCII digits with an optional sign. That is
  all a frame holds. Python's `int` also accepts `_` separators and non-ASCII digits.
- `DataProcessing.PromptLines`, `DataProcessing.PromptArticlesExtraction`: stated only for
  newline-free texts and queries. A newline in a question or article splits its row, which the
  regex then reads line by line.
- The hit's `distance` is an opaque `real`; the pipeline never reads it.
- Logging, load testing and the vector-store setup scripts are not part of this model.
