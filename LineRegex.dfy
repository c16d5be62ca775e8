/**
 * The two regular expressions the generation backends apply to a prompt,
 * `<input>(.+)</input>` and `<article>(.+)</article>`, with Python's `re` semantics:
 * `.` matches any character except '\n', `.+` is greedy and non-empty, the leftmost
 * match is found first, and `finditer` resumes at the end of the previous match.
 * As neither `.` nor a tag can match '\n', no match crosses a line, so the matches of a
 * string are the matches of its lines, in order.
 */
module LineRegex {
  import opened Wrappers
  import Text

  /** The regular expression `open(.+)close`. */
  datatype Pattern = Pattern(open: string, close: string)

  const InputTag: Pattern := Pattern("<input>", "</input>")
  const ArticleTag: Pattern := Pattern("<article>", "</article>")

  /** A tag pattern: both tags start with '<' and hold no other '<'; only the closing tag has '/' second. */
  predicate TagPattern(pat: Pattern)
  {
    && |pat.open| >= 2 && |pat.close| >= 2
    && pat.open[0] == '<' && pat.close[0] == '<'
    && (forall k :: 1 <= k < |pat.open| ==> pat.open[k] != '<')
    && (forall k :: 1 <= k < |pat.close| ==> pat.close[k] != '<')
    && pat.open[1] != '/' && pat.close[1] == '/'
  }

  /** w occurs in s at position i. */
  predicate At(s: string, i: nat, w: string)
  {
    i + |w| <= |s| && s[i..i + |w|] == w
  }

  /**
   * Greedy `.+` followed by the closing tag: the largest j in [lo, hi] at which close
   * occurs in line, if any.
   */
  function LastClose(line: string, close: string, lo: nat, hi: nat): (r: Option<nat>)
    ensures r.Some? ==> lo <= r.value <= hi && At(line, r.value, close)
    ensures r.Some? ==> forall j :: r.value < j <= hi ==> !At(line, j, close)
    ensures r.None? ==> forall j :: lo <= j <= hi ==> !At(line, j, close)
    decreases hi
  {
    if hi < lo then None
    else if At(line, hi, close) then Some(hi)
    else if hi == lo then None
    else LastClose(line, close, lo, hi - 1)
  }

  /** `finditer` over one line from position p: the captured groups, in order. */
  function MatchesFrom(line: string, pat: Pattern, p: nat): (ms: seq<string>)
    ensures forall k :: 0 <= k < |ms| ==> ms[k] != []
    decreases |line| - p
  {
    if p >= |line| then []
    else if At(line, p, pat.open) then
      match LastClose(line, pat.close, p + |pat.open| + 1, |line|)
      case Some(j) => [line[p + |pat.open|..j]] + MatchesFrom(line, pat, j + |pat.close|)
      case None => MatchesFrom(line, pat, p + 1)
    else MatchesFrom(line, pat, p + 1)
  }

  /** The matches of a list of lines, line after line. */
  function MatchesInLines(pat: Pattern, lines: seq<string>): seq<string>
  {
    if |lines| == 0 then [] else MatchesFrom(lines[0], pat, 0) + MatchesInLines(pat, lines[1..])
  }

  /** `[m.group(1) for m in re.compile(pattern).finditer(s)]`. */
  function FindAll(pat: Pattern, s: string): seq<string>
  {
    MatchesInLines(pat, Text.Lines(s))
  }

  /** `re.compile(pattern).search(s)`, giving `group(1)` of the match. */
  function Search(pat: Pattern, s: string): (r: Option<string>)
    ensures r.Some? <==> FindAll(pat, s) != []
    ensures r.Some? ==> r.value == FindAll(pat, s)[0]
  {
    var ms := FindAll(pat, s);
    if |ms| == 0 then None else Some(ms[0])
  }

  lemma {:induction false} MatchesInLinesAppend(pat: Pattern, xs: seq<string>, ys: seq<string>)
    ensures MatchesInLines(pat, xs + ys) == MatchesInLines(pat, xs) + MatchesInLines(pat, ys)
    decreases |xs|
  {
    if |xs| == 0 {
      assert xs + ys == ys;
    } else {
      assert (xs + ys)[1..] == xs[1..] + ys;
      MatchesInLinesAppend(pat, xs[1..], ys);
    }
  }

  /** Lines none of which matches contribute no match. */
  lemma {:induction false} MatchesInLinesNone(pat: Pattern, lines: seq<string>)
    requires forall k :: 0 <= k < |lines| ==> MatchesFrom(lines[k], pat, 0) == []
    ensures MatchesInLines(pat, lines) == []
    decreases |lines|
  {
    if |lines| > 0 {
      MatchesInLinesNone(pat, lines[1..]);
    }
  }

  /** If no opening tag from p on is followed by a closing tag, nothing matches from p. */
  lemma {:induction false} NoMatchFrom(line: string, pat: Pattern, p: nat)
    requires forall q :: p <= q && At(line, q, pat.open) ==>
      forall j :: q + |pat.open| + 1 <= j <= |line| ==> !At(line, j, pat.close)
    ensures MatchesFrom(line, pat, p) == []
    decreases |line| - p
  {
    if p < |line| {
      if At(line, p, pat.open) {
        var r := LastClose(line, pat.close, p + |pat.open| + 1, |line|);
        assert r.None?;
      }
      NoMatchFrom(line, pat, p + 1);
    }
  }

  /** A line without '<' holds no tag, hence no match. */
  lemma NoAngleNoMatch(line: string, pat: Pattern)
    requires TagPattern(pat)
    requires '<' !in line
    ensures MatchesFrom(line, pat, 0) == []
  {
    forall q: nat | q + |pat.open| <= |line|
      ensures !At(line, q, pat.open)
    {
      assert line[q..q + |pat.open|][0] == line[q];
    }
    NoMatchFrom(line, pat, 0);
  }

  /** The only '<' of a + open + m + close + b are the first characters of the two tags. */
  lemma AnglePositions(line: string, a: string, m: string, b: string, tag: Pattern, k: nat)
    requires TagPattern(tag)
    requires line == a + tag.open + m + tag.close + b
    requires '<' !in a && '<' !in m && '<' !in b
    requires k < |line| && line[k] == '<'
    ensures k == |a| || k == |a| + |tag.open| + |m|
  {
  }

  /**
   * A line a + tag.open + m + tag.close + b with no other '<' has no match of pat when
   * pat's opening tag differs from tag's, nor of tag itself when m is empty
   * (`.+` needs a character).
   */
  lemma TagLineNoMatch(line: string, a: string, m: string, b: string, tag: Pattern, pat: Pattern)
    requires TagPattern(tag) && TagPattern(pat)
    requires line == a + tag.open + m + tag.close + b
    requires '<' !in a && '<' !in m && '<' !in b
    requires (pat == tag && m == []) || pat.open[1] != tag.open[1]
    ensures MatchesFrom(line, pat, 0) == []
  {
    var o, c := |a| + |tag.open|, |a| + |tag.open| + |m|;
    assert line[|a| + 1] == tag.open[1];
    assert c + 1 < |line| && line[c + 1] == tag.close[1];
    forall q: nat | At(line, q, pat.open)
      ensures forall j :: q + |pat.open| + 1 <= j <= |line| ==> !At(line, j, pat.close)
    {
      assert line[q] == '<' && line[q + 1] == pat.open[1] by {
        assert line[q..q + |pat.open|] == pat.open;
      }
      AnglePositions(line, a, m, b, tag, q);
      assert q == |a|;
      forall j: nat | q + |pat.open| + 1 <= j && j + |pat.close| <= |line|
        ensures !At(line, j, pat.close)
      {
        assert line[j..j + |pat.close|][0] == line[j];
        if line[j] == '<' {
          AnglePositions(line, a, m, b, tag, j);
        }
      }
    }
    NoMatchFrom(line, pat, 0);
  }

  /** The whole line open + m + close, with m non-empty, matches once, capturing m. */
  lemma WholeLineMatch(line: string, m: string, pat: Pattern)
    requires line == pat.open + m + pat.close
    requires m != []
    ensures MatchesFrom(line, pat, 0) == [m]
  {
    var j := |pat.open| + |m|;
    assert At(line, 0, pat.open) by {
      assert line[..|pat.open|] == pat.open;
    }
    assert At(line, j, pat.close) by {
      assert line[j..j + |pat.close|] == pat.close;
    }
    var r := LastClose(line, pat.close, |pat.open| + 1, |line|);
    assert r == Some(j);
    assert line[|pat.open|..j] == m;
  }

  lemma TagPatterns()
    ensures TagPattern(InputTag) && TagPattern(ArticleTag)
    ensures InputTag.open[1] != ArticleTag.open[1]
  {
  }
}
