/**
 * The entities the pipeline passes around (app/models.py, identical to server/models.py),
 * and the entries of a streamed round.
 */
module Models {

  /** The two topics a question and a stored article can have. */
  datatype Topic = Business | Sport

  /** The enum's string value, which is what the vector store is queried with. */
  function TopicValue(t: Topic): string
  {
    match t
    case Business => "business"
    case Sport => "sports"
  }

  /** Distinct topics have distinct values. */
  lemma TopicValueInjective(a: Topic, b: Topic)
    ensures TopicValue(a) == TopicValue(b) <==> a == b
  {
    if a != b {
      assert |TopicValue(a)| != |TopicValue(b)|;
    }
  }

  datatype Question = Question(question: string, topic: Topic)

  /** The question texts of a request, `[q.question for q in queries]`. */
  function QuestionTexts(queries: seq<Question>): (ts: seq<string>)
    ensures |ts| == |queries|
    ensures forall i :: 0 <= i < |ts| ==> ts[i] == queries[i].question
  {
    seq(|queries|, i requires 0 <= i < |queries| => queries[i].question)
  }

  datatype DBResponseEntity = DBResponseEntity(topic: Topic, text: string)

  /** One hit of the vector store; the distance is a float the pipeline never inspects. */
  datatype DBSearchResponseItem = DBSearchResponseItem(id: int, distance: real, entity: DBResponseEntity)

  /** The hits for one question. */
  datatype DBSearchResponse = DBSearchResponse(items: seq<DBSearchResponseItem>)

  /**
   * One entry of a streamed round: a string, or the empty list `[]` that an exhausted
   * prompt contributes.
   */
  datatype Entry = Str(s: string) | EmptyList

  /** One round: one entry per prompt, in prompt order. */
  type Round = seq<Entry>

  /** Python truthiness of an entry: a non-empty string (an empty list is falsy). */
  predicate Truthy(e: Entry)
  {
    e.Str? && e.s != ""
  }

  /** Python's `any(response)`. */
  predicate AnyTruthy(r: Round)
  {
    exists k :: 0 <= k < |r| && Truthy(r[k])
  }
}
