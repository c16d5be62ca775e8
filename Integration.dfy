/**
 * The whole request path of the app (app/data_processing.py, `ask_action`) ending in the
 * generation backend's event stream, and what the integration tests
 * (app/tests/test_integration.py) read back from it. The embedding call and the HTTP hop to
 * the backend are replaced by their results: the embeddings are a parameter, and the body is
 * the one the backend's `/llm_ask` route sends for the prompts.
 */
module Integration {
  import opened Wrappers
  import opened Models
  import Text
  import LineRegex
  import DataProcessing
  import LlmModel
  import Frames
  import EventStream

  /** The body the app streams for a request, or the error prompt assembly raises. */
  function AppBody<E>(queries: seq<Question>, embeddings: seq<E>, search: DataProcessing.Search<E>,
                      draws: LlmModel.Draws): Result<string, DataProcessing.PromptError>
  {
    match DataProcessing.BuildPrompts(QuestionTexts(queries), DataProcessing.Articles(queries, embeddings, search))
    case Failure(e) => Failure(e)
    case Success(prompts) => Success(Text.Concat(Frames.Frames(LlmModel.AskRounds(prompts, draws))))
  }

  /** `ask_action`: articles by topic, the prompts, then the backend's stream for them. */
  method AskAction<E>(queries: seq<Question>, embeddings: seq<E>, search: DataProcessing.Search<E>,
                      draws: LlmModel.Draws)
    returns (r: Result<string, DataProcessing.PromptError>)
    ensures r == AppBody(queries, embeddings, search, draws)
  {
    var articles, _ := DataProcessing.GetArticles(queries, embeddings, search);
    var prompts := DataProcessing.BuildPrompts(QuestionTexts(queries), articles);
    if prompts.Failure? {
      return Failure(prompts.error);
    }
    var body := Frames.LlmAsk(prompts.value, draws);
    r := Success(body);
  }

  /** The prompts of a request that assembles: one per question. */
  lemma PromptsPerQuestion<E>(queries: seq<Question>, embeddings: seq<E>, search: DataProcessing.Search<E>)
    requires DataProcessing.BuildPrompts(QuestionTexts(queries), DataProcessing.Articles(queries, embeddings, search)).Success?
    ensures |DataProcessing.BuildPrompts(QuestionTexts(queries), DataProcessing.Articles(queries, embeddings, search)).value|
      == |queries|
  {
  }

  /**
   * Whatever the draws, a request whose prompts assemble reads back as one or more events,
   * each `qasystem` with id i and one data entry per question; the first event's entries are
   * all non-empty strings.
   */
  lemma AppEvents<E>(queries: seq<Question>, embeddings: seq<E>, search: DataProcessing.Search<E>,
                     draws: LlmModel.Draws)
    requires AppBody(queries, embeddings, search, draws).Success?
    ensures var es := EventStream.ParseEvents(AppBody(queries, embeddings, search, draws).value);
      && es.Some? && |es.value| >= 1
      && (forall i :: 0 <= i < |es.value| ==>
            es.value[i].event == "qasystem" && es.value[i].id == i && |es.value[i].data| == |queries|)
      && (forall p :: 0 <= p < |queries| ==> Truthy(es.value[0].data[p]))
  {
    var prompts := DataProcessing.BuildPrompts(QuestionTexts(queries), DataProcessing.Articles(queries, embeddings, search)).value;
    PromptsPerQuestion(queries, embeddings, search);
    var rounds := LlmModel.AskRounds(prompts, draws);
    var body := Text.Concat(Frames.Frames(rounds));
    assert AppBody(queries, embeddings, search, draws).value == body;
    EventStream.ParseFrames(rounds);
    var es := EventStream.EventsOf(rounds);
    assert EventStream.ParseEvents(body) == Some(es);
    forall i | 0 <= i < |es|
      ensures es[i].event == "qasystem" && es[i].id == i && |es[i].data| == |queries|
    {
      assert es[i] == EventStream.Event(Frames.EventName, i, rounds[i]);
    }
    assert es[0].data == rounds[0] == LlmModel.Header(prompts);
    LlmModel.HeaderTruthy(prompts);
  }

  /**
   * A single question: every event carries exactly one entry, and it is a non-empty string
   * (a round is only yielded when some entry is truthy, and there is only one entry).
   */
  lemma SingleQuestionEvents<E>(queries: seq<Question>, embeddings: seq<E>, search: DataProcessing.Search<E>,
                                draws: LlmModel.Draws)
    requires |queries| == 1
    requires AppBody(queries, embeddings, search, draws).Success?
    ensures var es := EventStream.ParseEvents(AppBody(queries, embeddings, search, draws).value);
      && es.Some?
      && forall i :: 0 <= i < |es.value| ==> |es.value[i].data| == 1 && Truthy(es.value[i].data[0])
  {
    var prompts := DataProcessing.BuildPrompts(QuestionTexts(queries), DataProcessing.Articles(queries, embeddings, search)).value;
    PromptsPerQuestion(queries, embeddings, search);
    var rounds := LlmModel.AskRounds(prompts, draws);
    var body := Text.Concat(Frames.Frames(rounds));
    assert AppBody(queries, embeddings, search, draws).value == body;
    EventStream.ParseFrames(rounds);
    var es := EventStream.EventsOf(rounds);
    assert EventStream.ParseEvents(body) == Some(es);
    LlmModel.SinglePromptRounds(prompts, draws);
    forall i | 0 <= i < |es|
      ensures |es[i].data| == 1 && Truthy(es[i].data[0])
    {
      assert es[i].data == rounds[i];
    }
  }

  /** No more matches in a prompt than items in its response, with newline- and tag-free text. */
  lemma MatchesWithinItems(prompts: seq<string>, queries: seq<string>, articles: seq<Option<DBSearchResponse>>, bound: nat)
    requires DataProcessing.BuildPrompts(queries, articles) == Success(prompts)
    requires forall i :: 0 <= i < |prompts| ==> '\n' !in queries[i] && '<' !in queries[i]
    requires forall i :: 0 <= i < |prompts| ==>
      |articles[i].value.items| <= bound && DataProcessing.NoNewlineTexts(articles[i].value.items)
    ensures LlmModel.MaxMatches(LlmModel.Matches(prompts)) <= bound
  {
    var ms := LlmModel.Matches(prompts);
    forall p | 0 <= p < |prompts|
      ensures |ms[p]| <= bound
    {
      DataProcessing.PromptArticlesExtraction(queries[p], articles[p].value);
    }
  }

  /**
   * With at most three items per search response, newline-free article texts and questions free
   * of newlines and '<', the stream has at most four events: the header and one per article.
   */
  lemma AppEventCount<E>(queries: seq<Question>, embeddings: seq<E>, search: DataProcessing.Search<E>,
                         draws: LlmModel.Draws)
    requires AppBody(queries, embeddings, search, draws).Success?
    requires forall i :: 0 <= i < |queries| ==> '\n' !in queries[i].question && '<' !in queries[i].question
    requires var arts := DataProcessing.Articles(queries, embeddings, search);
      forall i :: 0 <= i < |arts| && arts[i].Some? ==>
        |arts[i].value.items| <= 3 && DataProcessing.NoNewlineTexts(arts[i].value.items)
    ensures var es := EventStream.ParseEvents(AppBody(queries, embeddings, search, draws).value);
      es.Some? && 1 <= |es.value| <= 4
  {
    var texts := QuestionTexts(queries);
    var arts := DataProcessing.Articles(queries, embeddings, search);
    var prompts := DataProcessing.BuildPrompts(texts, arts).value;
    PromptsPerQuestion(queries, embeddings, search);
    MatchesWithinItems(prompts, texts, arts, 3);
    LlmModel.AskRoundCount(prompts, draws);
    EventStream.ParseFrames(LlmModel.AskRounds(prompts, draws));
  }

  /**
   * At least two events are not guaranteed: draws that pick empty slices end the stream after
   * the header even when every response has articles.
   */
  lemma AppMayStopAfterHeader<E>(queries: seq<Question>, embeddings: seq<E>, search: DataProcessing.Search<E>)
    requires AppBody(queries, embeddings, search, LlmModel.EmptySlices()).Success?
    ensures var es := EventStream.ParseEvents(AppBody(queries, embeddings, search, LlmModel.EmptySlices()).value);
      es.Some? && |es.value| == 1
  {
    var prompts := DataProcessing.BuildPrompts(QuestionTexts(queries), DataProcessing.Articles(queries, embeddings, search)).value;
    LlmModel.AskMayStopAfterHeader(prompts);
    EventStream.ParseFrames(LlmModel.AskRounds(prompts, LlmModel.EmptySlices()));
  }

  /** An empty question list is answered by exactly one frame, of the empty round. */
  lemma EmptyRequest<E>(embeddings: seq<E>, search: DataProcessing.Search<E>, draws: LlmModel.Draws)
    ensures AppBody([], embeddings, search, draws) == Success("event: qasystem\nid: 0\ndata: []\n\n")
  {
    assert QuestionTexts([]) == [];
    assert DataProcessing.BuildPrompts([], DataProcessing.Articles([], embeddings, search)) == Success([]);
    Frames.EmptyRequestBody(draws);
  }
}
