/**
 * The event-stream framing of rounds (app_llm/main.py, `gen_response`; the same loop closes
 * server/data_processing.py's `ask_action`): round i becomes the server-sent event
 * `event: qasystem`, `id: i`, `data: <the round as JSON>`, ended by a blank line, as
 * section 9.2 of the WHATWG HTML Living Standard lays out; the body is the frames in order.
 */
module Frames {
  import opened Models
  import Text
  import Json
  import LlmModel

  const EventName: string := "qasystem"

  /** One field line, `key: value`. */
  function Field(key: string, value: string): string
  {
    key + ": " + value
  }

  /** A frame without its closing blank line: the `event`, `id` and `data` lines. */
  function Block(i: nat, r: Round): string
  {
    Field("event", EventName) + "\n" + Field("id", Text.NatToString(i)) + "\n" + Field("data", Json.EncodeRound(r))
  }

  /** Frame i of round r. */
  function Frame(i: nat, r: Round): string
  {
    Block(i, r) + "\n\n"
  }

  /** The frames of the rounds, the i-th numbered from + i. */
  function FramesFrom(rounds: seq<Round>, from: nat): (fs: seq<string>)
    ensures |fs| == |rounds|
    ensures forall i :: 0 <= i < |fs| ==> fs[i] == Frame(from + i, rounds[i])
  {
    seq(|rounds|, i requires 0 <= i < |rounds| => Frame(from + i, rounds[i]))
  }

  /** One frame per round, ids 0, 1, 2, ... in yield order. */
  function Frames(rounds: seq<Round>): (fs: seq<string>)
    ensures |fs| == |rounds|
    ensures forall i :: 0 <= i < |fs| ==> fs[i] == Frame(i, rounds[i])
  {
    FramesFrom(rounds, 0)
  }

  /** The `for i, response in enumerate(...)` loop of `gen_response`. */
  method GenResponse(rounds: seq<Round>) returns (frames: seq<string>)
    ensures frames == Frames(rounds)
  {
    frames := [];
    var i := 0;
    while i < |rounds|
      invariant i <= |rounds|
      invariant frames == Frames(rounds)[..i]
    {
      frames := frames + [Frame(i, rounds[i])];
      assert Frames(rounds)[..i + 1] == Frames(rounds)[..i] + [Frames(rounds)[i]];
      i := i + 1;
    }
    assert Frames(rounds)[..i] == Frames(rounds);
  }

  /** The `/llm_ask` response body: the frames of what `LLMModel.ask` yields, concatenated. */
  method LlmAsk(items: seq<string>, draws: LlmModel.Draws) returns (body: string)
    ensures body == Text.Concat(Frames(LlmModel.AskRounds(items, draws)))
  {
    var rounds := LlmModel.Ask(items, draws);
    var frames := GenResponse(rounds);
    body := Text.Concat(frames);
  }

  // ---------------------------------------------------------------------------
  // Properties
  // ---------------------------------------------------------------------------

  /** Every frame begins with the event line and ends with a blank line. */
  lemma FrameShape(i: nat, r: Round)
    ensures var f := Frame(i, r);
      |f| >= 18 && f[..16] == "event: qasystem\n" && f[|f| - 2..] == "\n\n"
  {
    var f := Frame(i, r);
    assert f == "event: qasystem\nid: " + Text.NatToString(i) + "\ndata: " + Json.EncodeRound(r) + "\n\n";
    assert f[..16] == "event: qasystem\n";
  }

  /** The body of rounds r + s is the body of r followed by the frames of s numbered on from |r|. */
  lemma {:induction false} ConcatFramesFrom(rounds: seq<Round>, from: nat)
    requires |rounds| > 0
    ensures Text.Concat(FramesFrom(rounds, from))
      == Frame(from, rounds[0]) + Text.Concat(FramesFrom(rounds[1..], from + 1))
  {
    var fs := FramesFrom(rounds, from);
    assert fs[1..] == FramesFrom(rounds[1..], from + 1);
  }

  lemma FallbackUnescaped()
    ensures forall i :: 0 <= i < |LlmModel.Fallback| ==> Json.Unescaped(LlmModel.Fallback[i])
  {
  }

  /** The body of a single round: frame 0 alone. */
  lemma SingleRoundBody(r: Round)
    ensures Text.Concat(Frames([r])) == "event: qasystem\nid: 0\ndata: " + Json.EncodeRound(r) + "\n\n"
  {
    var fs := Frames([r]);
    assert fs == [Frame(0, r)];
    assert Text.NatToString(0) == "0";
    assert Text.Concat(fs) == Frame(0, r) + Text.Concat([]);
    var lead := Field("event", EventName) + "\n" + Field("id", "0") + "\n";
    var j := Json.EncodeRound(r);
    assert Frame(0, r) == lead + ("data" + ": " + j) + "\n\n";
    Text.Regroup(lead, "data", ": ", j);
    FirstLead();
  }

  /** The text of frame 0 before its data. */
  lemma FirstLead()
    ensures Field("event", EventName) + "\n" + Field("id", "0") + "\n" + "data" + ": " == "event: qasystem\nid: 0\ndata: "
  {
  }


  /** Prompts without tags are answered by one frame of fallback strings. */
  lemma TagFreeBody(prompts: seq<string>, draws: LlmModel.Draws)
    requires forall p :: 0 <= p < |prompts| ==> '<' !in prompts[p]
    ensures Text.Concat(Frames(LlmModel.AskRounds(prompts, draws)))
      == "event: qasystem\nid: 0\ndata: "
         + Json.EncodeRound(seq(|prompts|, p requires 0 <= p < |prompts| => Str(LlmModel.Fallback))) + "\n\n"
  {
    LlmModel.AskTagFree(prompts, draws);
    SingleRoundBody(seq(|prompts|, p requires 0 <= p < |prompts| => Str(LlmModel.Fallback)));
  }

  /**
   * Three prompts without tags are answered by one frame whose data is three fallback strings,
   * comma-separated without spaces.
   */
  lemma TagFreeBatchBody(prompts: seq<string>, draws: LlmModel.Draws)
    requires |prompts| == 3
    requires forall p :: 0 <= p < |prompts| ==> '<' !in prompts[p]
    ensures var q := "\"" + LlmModel.Fallback + "\"";
      Text.Concat(Frames(LlmModel.AskRounds(prompts, draws)))
        == "event: qasystem\nid: 0\ndata: " + ("[" + q + "," + q + "," + q + "]") + "\n\n"
  {
    TagFreeBody(prompts, draws);
    FallbackRound(prompts);
    FallbackUnescaped();
    Json.TripleJson(LlmModel.Fallback);
  }

  lemma FallbackRound(prompts: seq<string>)
    requires |prompts| == 3
    ensures var e := Str(LlmModel.Fallback);
      seq(|prompts|, p requires 0 <= p < |prompts| => Str(LlmModel.Fallback)) == [e, e, e]
  {
  }

  /** An empty request to the backend is answered by the single frame of the empty round. */
  lemma EmptyRequestBody(draws: LlmModel.Draws)
    ensures Text.Concat(Frames(LlmModel.AskRounds([], draws))) == "event: qasystem\nid: 0\ndata: []\n\n"
  {
    LlmModel.AskNoPrompts(draws);
    SingleRoundBody([]);
    assert Json.EncodeRound([]) == "[]";
  }
}
