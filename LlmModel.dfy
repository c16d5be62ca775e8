/**
 * The stand-in generation backend (app_llm/llm_model.py, `LLMModel.ask`): it reads each
 * prompt's query back out with `<input>(.+)</input>`, answers with a header round, then
 * streams one round per article match, each entry a random slice of that prompt's next
 * `<article>(.+)</article>` match, until a round has no non-empty entry.
 *
 * The random draws are a parameter: `draws(j, p)` gives the two raw numbers behind the two
 * `randint` calls for prompt p in article round j.
 */
module LlmModel {
  import opened Models
  import opened Wrappers
  import LineRegex
  import Text

  /** The header entry of a prompt without an `<input>` match. */
  const Fallback: string := "I don't know what to say.."

  /** The header entry of a prompt whose query is q. */
  function Answer(q: string): string
  {
    "Answer for question \"" + q + "\" is:"
  }

  /** The header entry for one prompt. */
  function HeaderEntry(prompt: string): Entry
  {
    match LineRegex.Search(LineRegex.InputTag, prompt)
    case Some(q) => Str(Answer(q))
    case None => Str(Fallback)
  }

  /** The header round: one entry per prompt, in prompt order. */
  function Header(prompts: seq<string>): (h: Round)
    ensures |h| == |prompts|
  {
    seq(|prompts|, p requires 0 <= p < |prompts| => HeaderEntry(prompts[p]))
  }

  /** Raw draws for (article round, prompt). */
  type Draws = (nat, nat) -> (nat, nat)

  function Min(a: nat, b: nat): nat
  {
    if a <= b then a else b
  }

  /**
   * `article[start:stop]` with `start = randint(0, len(article))` and
   * `stop = randint(start, start + 128)`, the pair of draws choosing start and stop - start.
   * The slice is a contiguous piece of the article, at most 128 characters, possibly empty.
   */
  function Slice(article: string, draw: (nat, nat)): (s: string)
    ensures |s| <= 128
    ensures Text.Infix(s, article)
  {
    var start := draw.0 % (|article| + 1);
    var stop := start + draw.1 % 129;
    article[start..Min(stop, |article|)]
  }

  /** Every outcome the two `randint` calls allow is reached by some draw. */
  lemma SliceReachesEveryChoice(article: string, start: nat, stop: nat)
    requires start <= |article| && start <= stop <= start + 128
    ensures Slice(article, (start, stop - start)) == article[start..Min(stop, |article|)]
  {
    assert start % (|article| + 1) == start;
    assert (stop - start) % 129 == stop - start;
  }

  /** Every draw gives an outcome the two `randint` calls allow. */
  lemma SliceIsSomeChoice(article: string, draw: (nat, nat))
    ensures exists start: nat, stop: nat ::
      start <= |article| && start <= stop <= start + 128 && Slice(article, draw) == article[start..Min(stop, |article|)]
  {
    var start := draw.0 % (|article| + 1);
    var stop := start + draw.1 % 129;
    assert Slice(article, draw) == article[start..Min(stop, |article|)];
  }

  /** Each prompt's `finditer('<article>(.+)</article>')` matches, as a list. */
  function Matches(prompts: seq<string>): (ms: seq<seq<string>>)
    ensures |ms| == |prompts|
  {
    seq(|prompts|, p requires 0 <= p < |prompts| => LineRegex.FindAll(LineRegex.ArticleTag, prompts[p]))
  }

  /** The largest number of matches of any prompt (0 without prompts). */
  function MaxMatches(matches: seq<seq<string>>): (m: nat)
    ensures forall p :: 0 <= p < |matches| ==> |matches[p]| <= m
    ensures m == 0 || exists p :: 0 <= p < |matches| && |matches[p]| == m
  {
    if |matches| == 0 then 0
    else
      var rest := MaxMatches(matches[1..]);
      assert forall p :: 1 <= p < |matches| ==> matches[p] == matches[1..][p - 1];
      if |matches[0]| >= rest then |matches[0]| else rest
  }

  /** Article round j: prompt p's slice of its j-th match, or `[]` once its matches are used up. */
  function RoundAt(matches: seq<seq<string>>, draws: Draws, j: nat): (r: Round)
    ensures |r| == |matches|
  {
    seq(|matches|, p requires 0 <= p < |matches| =>
      if j < |matches[p]| then Str(Slice(matches[p][j], draws(j, p))) else EmptyList)
  }

  /** Past every prompt's last match a round is all `[]`, so the loop stops there at the latest. */
  lemma RoundPastMatches(matches: seq<seq<string>>, draws: Draws, j: nat)
    requires j >= MaxMatches(matches)
    ensures forall p :: 0 <= p < |matches| ==> RoundAt(matches, draws, j)[p] == EmptyList
    ensures !AnyTruthy(RoundAt(matches, draws, j))
  {
  }

  /** The rounds the `while True` loop yields from article round j on: up to the first round with no truthy entry. */
  function ArticleRounds(matches: seq<seq<string>>, draws: Draws, j: nat): (rs: seq<Round>)
    ensures forall k :: 0 <= k < |rs| ==> rs[k] == RoundAt(matches, draws, j + k) && AnyTruthy(rs[k])
    ensures forall k :: 0 <= k < |rs| ==> |rs[k]| == |matches|
    decreases MaxMatches(matches) - j
  {
    var r := RoundAt(matches, draws, j);
    if !AnyTruthy(r) then []
    else
      assert j < MaxMatches(matches) by {
        if j >= MaxMatches(matches) {
          RoundPastMatches(matches, draws, j);
        }
      }
      [r] + ArticleRounds(matches, draws, j + 1)
  }

  /** Everything `ask` yields: the header, then the article rounds. */
  function AskRounds(prompts: seq<string>, draws: Draws): (rs: seq<Round>)
    ensures |rs| >= 1
    ensures forall k :: 0 <= k < |rs| ==> |rs[k]| == |prompts|
  {
    [Header(prompts)] + ArticleRounds(Matches(prompts), draws, 0)
  }

  // ---------------------------------------------------------------------------
  // The generator, step by step
  // ---------------------------------------------------------------------------

  /**
   * One pass of the inner `for iterator in iters` loop: each live iterator yields its next match
   * (sliced by the draws), each exhausted one `[]`.
   */
  method NextRound(matches: seq<seq<string>>, draws: Draws, cursor: array<nat>, j: nat)
    returns (response: Round)
    requires cursor.Length == |matches|
    requires forall p :: 0 <= p < cursor.Length ==> cursor[p] == Min(j, |matches[p]|)
    modifies cursor
    ensures response == RoundAt(matches, draws, j)
    ensures forall p :: 0 <= p < cursor.Length ==> cursor[p] == Min(j + 1, |matches[p]|)
  {
    response := [];
    var p := 0;
    while p < |matches|
      invariant p <= |matches|
      invariant response == RoundAt(matches, draws, j)[..p]
      invariant forall q :: 0 <= q < cursor.Length ==>
        cursor[q] == if q < p then Min(j + 1, |matches[q]|) else Min(j, |matches[q]|)
    {
      if cursor[p] >= |matches[p]| {
        response := response + [EmptyList];
      } else {
        var article := matches[p][cursor[p]];
        cursor[p] := cursor[p] + 1;
        response := response + [Str(Slice(article, draws(j, p)))];
      }
      assert RoundAt(matches, draws, j)[..p + 1] == RoundAt(matches, draws, j)[..p] + [RoundAt(matches, draws, j)[p]];
      p := p + 1;
    }
    assert RoundAt(matches, draws, j)[..p] == RoundAt(matches, draws, j);
  }

  /**
   * The `while True` loop over per-prompt iterators, shared by both backends: `cursor[p]` is how
   * far prompt p's iterator has advanced; an exhausted iterator stays exhausted.
   */
  method StreamArticles(matches: seq<seq<string>>, draws: Draws) returns (rounds: seq<Round>)
    ensures rounds == ArticleRounds(matches, draws, 0)
  {
    var cursor := new nat[|matches|](_ => 0);
    rounds := [];
    var j: nat := 0;
    while true
      invariant j <= MaxMatches(matches)
      invariant cursor.Length == |matches|
      invariant forall p :: 0 <= p < cursor.Length ==> cursor[p] == Min(j, |matches[p]|)
      invariant rounds + ArticleRounds(matches, draws, j) == ArticleRounds(matches, draws, 0)
      decreases MaxMatches(matches) - j
    {
      var response := NextRound(matches, draws, cursor, j);
      if !AnyTruthy(response) {
        assert rounds == ArticleRounds(matches, draws, 0);
        break;
      }
      if j >= MaxMatches(matches) {
        RoundPastMatches(matches, draws, j);
      }
      ghost var rest := ArticleRounds(matches, draws, j + 1);
      assert ArticleRounds(matches, draws, j) == [response] + rest;
      Text.Assoc(rounds, [response], rest);
      rounds := rounds + [response];
      j := j + 1;
    }
  }

  /** `LLMModel.ask`: the header round for all prompts, then the article rounds. */
  method Ask(prompts: seq<string>, draws: Draws) returns (rounds: seq<Round>)
    ensures rounds == AskRounds(prompts, draws)
  {
    var response: Round := [];
    var p := 0;
    while p < |prompts|
      invariant p <= |prompts|
      invariant response == Header(prompts)[..p]
    {
      var entry := match LineRegex.Search(LineRegex.InputTag, prompts[p])
        case Some(q) => Str(Answer(q))
        case None => Str(Fallback);
      response := response + [entry];
      assert Header(prompts)[..p + 1] == Header(prompts)[..p] + [Header(prompts)[p]];
      p := p + 1;
    }
    assert Header(prompts)[..p] == Header(prompts);
    var rest := StreamArticles(Matches(prompts), draws);
    rounds := [response] + rest;
  }

  // ---------------------------------------------------------------------------
  // What the stream promises
  // ---------------------------------------------------------------------------

  /** Every header entry is a non-empty string: the answer line or the fallback. */
  lemma HeaderTruthy(prompts: seq<string>)
    ensures forall p :: 0 <= p < |prompts| ==> Truthy(Header(prompts)[p])
    ensures forall p :: 0 <= p < |prompts| ==>
      (Header(prompts)[p] == Str(Fallback) <==> LineRegex.Search(LineRegex.InputTag, prompts[p]).None?)
  {
    forall p | 0 <= p < |prompts|
      ensures Header(prompts)[p] == Str(Fallback) <==> LineRegex.Search(LineRegex.InputTag, prompts[p]).None?
    {
      match LineRegex.Search(LineRegex.InputTag, prompts[p])
      case Some(q) =>
        assert Answer(q)[0] != Fallback[0];
      case None =>
    }
  }

  /** The rounds from j on stop exactly before the first round, from j on, without a truthy entry. */
  lemma {:induction false} ArticleRoundsStop(matches: seq<seq<string>>, draws: Draws, j: nat)
    ensures !AnyTruthy(RoundAt(matches, draws, j + |ArticleRounds(matches, draws, j)|))
    decreases MaxMatches(matches) - j
  {
    if AnyTruthy(RoundAt(matches, draws, j)) {
      if j >= MaxMatches(matches) {
        RoundPastMatches(matches, draws, j);
      }
      ArticleRoundsStop(matches, draws, j + 1);
      assert j + 1 + |ArticleRounds(matches, draws, j + 1)| == j + |ArticleRounds(matches, draws, j)|;
    }
  }

  /**
   * Round k >= 1 is article round k - 1: each prompt's entry is a slice of at most 128
   * characters of its (k - 1)-th match, or `[]` once its matches are used up, in that and
   * every later round. Every yielded round has a truthy entry, and the stream ends right
   * before the first round that has none.
   */
  lemma AskRoundEntries(prompts: seq<string>, draws: Draws, k: nat, p: nat)
    requires 1 <= k < |AskRounds(prompts, draws)| && p < |prompts|
    ensures var ms := Matches(prompts)[p];
      var e := AskRounds(prompts, draws)[k][p];
      && (k - 1 < |ms| ==> e.Str? && |e.s| <= 128 && Text.Infix(e.s, ms[k - 1]))
      && (k - 1 >= |ms| ==> e == EmptyList)
    ensures AnyTruthy(AskRounds(prompts, draws)[k])
  {
    var ms := Matches(prompts);
    var rs := ArticleRounds(ms, draws, 0);
    assert AskRounds(prompts, draws)[k] == rs[k - 1];
    var r := RoundAt(ms, draws, k - 1);
    assert rs[k - 1] == r && AnyTruthy(r);
    if k - 1 < |ms[p]| {
      assert r[p] == Str(Slice(ms[p][k - 1], draws(k - 1, p)));
    } else {
      assert r[p] == EmptyList;
    }
  }

  /** With a single prompt, every yielded round is one non-empty string. */
  lemma SinglePromptRounds(prompts: seq<string>, draws: Draws)
    requires |prompts| == 1
    ensures var rs := AskRounds(prompts, draws);
      forall k :: 0 <= k < |rs| ==> |rs[k]| == 1 && Truthy(rs[k][0])
  {
    var rs := AskRounds(prompts, draws);
    HeaderTruthy(prompts);
    forall k | 0 <= k < |rs|
      ensures |rs[k]| == 1 && Truthy(rs[k][0])
    {
      if k == 0 {
        assert rs[0] == Header(prompts);
      } else {
        AskRoundEntries(prompts, draws, k, 0);
        var q :| 0 <= q < |rs[k]| && Truthy(rs[k][q]);
        assert q == 0;
      }
    }
  }

  /** After the last yielded round comes a round with no truthy entry: that is why the stream ended. */
  lemma AskStops(prompts: seq<string>, draws: Draws)
    ensures !AnyTruthy(RoundAt(Matches(prompts), draws, |AskRounds(prompts, draws)| - 1))
  {
    ArticleRoundsStop(Matches(prompts), draws, 0);
  }

  /** At most as many article rounds as the most matches any single prompt has. */
  lemma {:induction false} ArticleRoundsBound(matches: seq<seq<string>>, draws: Draws, j: nat)
    requires j <= MaxMatches(matches)
    ensures |ArticleRounds(matches, draws, j)| <= MaxMatches(matches) - j
    decreases MaxMatches(matches) - j
  {
    if AnyTruthy(RoundAt(matches, draws, j)) {
      if j >= MaxMatches(matches) {
        RoundPastMatches(matches, draws, j);
      }
      ArticleRoundsBound(matches, draws, j + 1);
    }
  }

  /** Total rounds are at most 1 + the largest number of article matches of one prompt. */
  lemma AskRoundCount(prompts: seq<string>, draws: Draws)
    ensures 1 <= |AskRounds(prompts, draws)| <= 1 + MaxMatches(Matches(prompts))
  {
    ArticleRoundsBound(Matches(prompts), draws, 0);
  }

  /** Zero prompts give exactly one round, the empty one. */
  lemma AskNoPrompts(draws: Draws)
    ensures AskRounds([], draws) == [[]]
  {
    RoundPastMatches(Matches([]), draws, 0);
  }

  /** Prompts without any tag give exactly one round, all fallbacks. */
  lemma AskTagFree(prompts: seq<string>, draws: Draws)
    requires forall p :: 0 <= p < |prompts| ==> '<' !in prompts[p]
    ensures AskRounds(prompts, draws) == [seq(|prompts|, p requires 0 <= p < |prompts| => Str(Fallback))]
  {
    var ms := Matches(prompts);
    forall p | 0 <= p < |prompts|
      ensures LineRegex.Search(LineRegex.InputTag, prompts[p]) == None && ms[p] == []
    {
      TagFreeNoMatches(prompts[p], LineRegex.InputTag);
      TagFreeNoMatches(prompts[p], LineRegex.ArticleTag);
    }
    assert MaxMatches(ms) == 0;
    RoundPastMatches(ms, draws, 0);
    assert ArticleRounds(ms, draws, 0) == [];
    assert Header(prompts) == seq(|prompts|, p requires 0 <= p < |prompts| => Str(Fallback));
  }

  /** Draws that always pick the empty slice: the first article round is all falsy. */
  function EmptySlices(): Draws
  {
    (j: nat, p: nat) => (0, 0)
  }

  /**
   * The stream can end right after the header however many article matches remain:
   * with draws that pick empty slices, only the header is yielded.
   */
  lemma AskMayStopAfterHeader(prompts: seq<string>)
    ensures AskRounds(prompts, EmptySlices()) == [Header(prompts)]
  {
    var ms := Matches(prompts);
    var r := RoundAt(ms, EmptySlices(), 0);
    forall p | 0 <= p < |ms|
      ensures !Truthy(r[p])
    {
      if 0 < |ms[p]| {
        assert r[p] == Str(Slice(ms[p][0], (0, 0)));
      }
    }
    assert !AnyTruthy(r);
    assert ArticleRounds(ms, EmptySlices(), 0) == [];
  }

  /** Draws that always take the first 128 characters of an article. */
  function Prefixes(): Draws
  {
    (j: nat, p: nat) => (0, 128)
  }

  /**
   * A yielded round can hold `[]` for a prompt whose matches ran out while another prompt is
   * still live: with two short matches a, b for the first prompt and one, c, for the second,
   * the second article round is `[b, []]`.
   */
  lemma ExhaustedEntryInLiveRound(a: string, b: string, c: string)
    requires 0 < |a| <= 128 && 0 < |b| <= 128 && 0 < |c| <= 128
    ensures ArticleRounds([[a, b], [c]], Prefixes(), 0) == [[Str(a), Str(c)], [Str(b), EmptyList]]
  {
    var ms: seq<seq<string>> := [[a, b], [c]];
    var r0 := RoundAt(ms, Prefixes(), 0);
    var r1 := RoundAt(ms, Prefixes(), 1);
    SliceShort(a);
    SliceShort(b);
    SliceShort(c);
    assert r0 == [Str(a), Str(c)] && Truthy(r0[0]);
    assert r1 == [Str(b), EmptyList] && Truthy(r1[0]);
    assert MaxMatches(ms) == 2;
    RoundPastMatches(ms, Prefixes(), 2);
    assert ArticleRounds(ms, Prefixes(), 2) == [];
    assert ArticleRounds(ms, Prefixes(), 1) == [r1];
  }

  /** The draw (0, 128) takes an article of at most 128 characters whole. */
  lemma SliceShort(article: string)
    requires |article| <= 128
    ensures Slice(article, (0, 128)) == article
  {
    assert 0 % (|article| + 1) == 0;
    assert article[0..|article|] == article;
  }

  /** A string without '<' has no match of either tag pattern. */
  lemma TagFreeNoMatches(s: string, pat: LineRegex.Pattern)
    requires pat == LineRegex.InputTag || pat == LineRegex.ArticleTag
    requires '<' !in s
    ensures LineRegex.FindAll(pat, s) == []
  {
    LineRegex.TagPatterns();
    var lines := Text.Lines(s);
    Text.LinesAvoid(s, '<');
    forall k | 0 <= k < |lines|
      ensures LineRegex.MatchesFrom(lines[k], pat, 0) == []
    {
      LineRegex.NoAngleNoMatch(lines[k], pat);
    }
    LineRegex.MatchesInLinesNone(pat, lines);
  }
}
