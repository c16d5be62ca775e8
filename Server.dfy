/**
 * The monolithic server variant (server/data_processing.py): `load_articles` partitions and
 * scatters like the app's `get_articles`, `llm_request` builds the same prompts, and `llm`
 * multiplexes them like `LLMModel.ask` except that its header has no fallback: a prompt
 * without an `<input>` match raises before anything is yielded. `ask_action` frames the rounds.
 */
module Server {
  import opened Wrappers
  import opened Models
  import LineRegex
  import LlmModel
  import DataProcessing
  import Frames

  /** Why a request yields nothing: prompt assembly or the header round raised. */
  datatype ServerError = MissingArticles(index: nat) | NoInputMatch(index: nat)

  /**
   * The header round of `llm`: `'Answer for question "' + q + '" is:'` per prompt, or
   * the first prompt whose `<input>` search finds nothing.
   */
  function ServerHeader(prompts: seq<string>): (r: Result<Round, ServerError>)
    ensures r.Success? <==> forall p :: 0 <= p < |prompts| ==> LineRegex.Search(LineRegex.InputTag, prompts[p]).Some?
    ensures r.Success? ==> |r.value| == |prompts|
    ensures r.Success? ==> forall p :: 0 <= p < |prompts| ==>
      r.value[p] == Str(LlmModel.Answer(LineRegex.Search(LineRegex.InputTag, prompts[p]).value))
    ensures r.Failure? ==> r.error.NoInputMatch? && r.error.index < |prompts|
    ensures r.Failure? ==> LineRegex.Search(LineRegex.InputTag, prompts[r.error.index]).None?
    ensures r.Failure? ==> forall p :: 0 <= p < r.error.index ==> LineRegex.Search(LineRegex.InputTag, prompts[p]).Some?
  {
    if |prompts| == 0 then Success([])
    else
      match LineRegex.Search(LineRegex.InputTag, prompts[0])
      case None => Failure(NoInputMatch(0))
      case Some(q) =>
        var rest := ServerHeader(prompts[1..]);
        assert forall p :: 1 <= p < |prompts| ==> prompts[1..][p - 1] == prompts[p];
        if rest.Failure? then Failure(NoInputMatch(rest.error.index + 1))
        else Success([Str(LlmModel.Answer(q))] + rest.value)
  }

  /** Everything `llm` yields, or the error it raises before its first yield. */
  function LlmRounds(prompts: seq<string>, draws: LlmModel.Draws): (r: Result<seq<Round>, ServerError>)
    ensures r.Success? ==> |r.value| >= 1
    ensures r.Success? ==> forall k :: 0 <= k < |r.value| ==> |r.value[k]| == |prompts|
  {
    match ServerHeader(prompts)
    case Failure(e) => Failure(e)
    case Success(h) => Success([h] + LlmModel.ArticleRounds(LlmModel.Matches(prompts), draws, 0))
  }

  /** What `llm_request` returns: the prompts of the pairs, passed to `llm`. */
  function RequestRounds(queries: seq<string>, articles: seq<Option<DBSearchResponse>>, draws: LlmModel.Draws)
    : Result<seq<Round>, ServerError>
  {
    match DataProcessing.BuildPrompts(queries, articles)
    case Failure(e) => Failure(MissingArticles(e.index))
    case Success(prompts) => LlmRounds(prompts, draws)
  }

  /** The frames `ask_action` yields, or the error it raises before the first one. */
  function AskFrames<E>(queries: seq<Question>, embeddings: seq<E>, search: DataProcessing.Search<E>,
                        draws: LlmModel.Draws): Result<seq<string>, ServerError>
  {
    match RequestRounds(QuestionTexts(queries), DataProcessing.Articles(queries, embeddings, search), draws)
    case Failure(e) => Failure(e)
    case Success(rounds) => Success(Frames.Frames(rounds))
  }

  // ---------------------------------------------------------------------------
  // The code, step by step
  // ---------------------------------------------------------------------------

  /** `load_articles`: the same partition, one search per topic, and scatter as `get_articles`. */
  method LoadArticles<E>(queries: seq<Question>, embeddings: seq<E>, search: DataProcessing.Search<E>)
    returns (result: seq<Option<DBSearchResponse>>, calls: seq<DataProcessing.SearchCall<E>>)
    ensures |result| == |queries|
    ensures result == DataProcessing.Articles(queries, embeddings, search)
    ensures calls == DataProcessing.SearchCalls(queries, embeddings)
  {
    result, calls := DataProcessing.GetArticles(queries, embeddings, search);
  }

  /** `llm`: the header loop, which raises on a prompt without a query, then the article loop. */
  method Llm(prompts: seq<string>, draws: LlmModel.Draws) returns (r: Result<seq<Round>, ServerError>)
    ensures r == LlmRounds(prompts, draws)
  {
    var response: Round := [];
    var p := 0;
    while p < |prompts|
      invariant p <= |prompts| && |response| == p
      invariant forall q :: 0 <= q < p ==> LineRegex.Search(LineRegex.InputTag, prompts[q]).Some?
      invariant forall q :: 0 <= q < p ==>
        response[q] == Str(LlmModel.Answer(LineRegex.Search(LineRegex.InputTag, prompts[q]).value))
    {
      var m := LineRegex.Search(LineRegex.InputTag, prompts[p]);
      if m.None? {
        LlmFailsOnMissingQuery(prompts, draws, p);
        return Failure(NoInputMatch(p));
      }
      response := response + [Str(LlmModel.Answer(m.value))];
      p := p + 1;
    }
    assert response == ServerHeader(prompts).value;
    ghost var header := ServerHeader(prompts);
    assert header == Success(response);
    var rest := LlmModel.StreamArticles(LlmModel.Matches(prompts), draws);
    r := Success([response] + rest);
    assert LlmRounds(prompts, draws) == Success([header.value] + rest);
  }

  /** `llm_request`: build the prompts, then run `llm` on them. */
  method LlmRequest(queries: seq<string>, articles: seq<Option<DBSearchResponse>>, draws: LlmModel.Draws)
    returns (r: Result<seq<Round>, ServerError>)
    ensures r == RequestRounds(queries, articles, draws)
  {
    var prompts := DataProcessing.BuildPrompts(queries, articles);
    if prompts.Failure? {
      return Failure(MissingArticles(prompts.error.index));
    }
    r := Llm(prompts.value, draws);
  }

  /** `ask_action`: load the articles, run `llm_request`, and frame its rounds with ids 0, 1, 2, ... */
  method AskAction<E>(queries: seq<Question>, embeddings: seq<E>, search: DataProcessing.Search<E>,
                      draws: LlmModel.Draws)
    returns (r: Result<seq<string>, ServerError>)
    ensures r == AskFrames(queries, embeddings, search, draws)
  {
    var articles, _ := LoadArticles(queries, embeddings, search);
    var rounds := LlmRequest(QuestionTexts(queries), articles, draws);
    if rounds.Failure? {
      return Failure(rounds.error);
    }
    var frames := Frames.GenResponse(rounds.value);
    r := Success(frames);
  }

  // ---------------------------------------------------------------------------
  // Properties
  // ---------------------------------------------------------------------------

  /** When every prompt has a query, `llm` yields exactly what `LLMModel.ask` does. */
  lemma LlmAgreesWithBackend(prompts: seq<string>, draws: LlmModel.Draws)
    requires forall p :: 0 <= p < |prompts| ==> LineRegex.Search(LineRegex.InputTag, prompts[p]).Some?
    ensures LlmRounds(prompts, draws) == Success(LlmModel.AskRounds(prompts, draws))
  {
    assert ServerHeader(prompts).value == LlmModel.Header(prompts);
  }

  /** `llm` raises exactly when some prompt has no query, and names the first. */
  lemma LlmFailsOnMissingQuery(prompts: seq<string>, draws: LlmModel.Draws, p: nat)
    requires p < |prompts| && LineRegex.Search(LineRegex.InputTag, prompts[p]).None?
    requires forall q :: 0 <= q < p ==> LineRegex.Search(LineRegex.InputTag, prompts[q]).Some?
    ensures LlmRounds(prompts, draws) == Failure(NoInputMatch(p))
  {
    var h := ServerHeader(prompts);
    if h.Failure? {
      assert !(h.error.index < p);
      assert !(h.error.index > p);
    }
  }

  /**
   * With newline-free queries that are not empty, the server answers like the app and its
   * backend: `llm_request` succeeds whenever the prompts can be built, with the backend's rounds.
   */
  lemma RequestAgreesWithApp(queries: seq<string>, articles: seq<Option<DBSearchResponse>>, draws: LlmModel.Draws)
    requires forall i :: 0 <= i < |queries| ==> queries[i] != "" && '\n' !in queries[i]
    requires DataProcessing.BuildPrompts(queries, articles).Success?
    ensures RequestRounds(queries, articles, draws)
      == Success(LlmModel.AskRounds(DataProcessing.BuildPrompts(queries, articles).value, draws))
  {
    var prompts := DataProcessing.BuildPrompts(queries, articles).value;
    forall p | 0 <= p < |prompts|
      ensures LineRegex.Search(LineRegex.InputTag, prompts[p]).Some?
    {
      DataProcessing.PromptQueryExtraction(queries[p], articles[p].value);
    }
    LlmAgreesWithBackend(prompts, draws);
  }

  /**
   * An empty question makes the server raise instead of answering: `<input></input>` has no
   * match, and with tag-free article texts nothing else in the prompt matches either.
   */
  lemma EmptyQuestionRaises(queries: seq<string>, articles: seq<Option<DBSearchResponse>>,
                            draws: LlmModel.Draws, p: nat)
    requires DataProcessing.BuildPrompts(queries, articles).Success?
    requires p < |DataProcessing.BuildPrompts(queries, articles).value|
    requires queries[p] == ""
    requires forall i :: 0 <= i < p ==> queries[i] != "" && '\n' !in queries[i]
    requires DataProcessing.NoNewlineTexts(articles[p].value.items)
    requires forall k :: 0 <= k < |articles[p].value.items| ==> '<' !in articles[p].value.items[k].entity.text
    ensures RequestRounds(queries, articles, draws) == Failure(NoInputMatch(p))
  {
    var prompts := DataProcessing.BuildPrompts(queries, articles).value;
    DataProcessing.EmptyQueryNoInputMatch(articles[p].value);
    forall q | 0 <= q < p
      ensures LineRegex.Search(LineRegex.InputTag, prompts[q]).Some?
    {
      DataProcessing.PromptQueryExtraction(queries[q], articles[q].value);
    }
    LlmFailsOnMissingQuery(prompts, draws, p);
  }
}
