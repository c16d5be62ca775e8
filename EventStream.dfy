/**
 * The event-stream reader of the integration tests (app/tests/test_integration.py,
 * `parse_events`): strip the body, split it on blank lines, and read each block's first
 * three lines as `event`, `id` and `data` (the text after the first ':' of each, stripped;
 * `id` through `int`, `data` through `json.loads`). Any step that raises in Python
 * (a missing line or ':', a bad number, bad JSON) gives None here.
 */
module EventStream {
  import opened Wrappers
  import opened Models
  import Text
  import Json
  import Frames
  import LineRegex

  datatype Event = Event(event: string, id: int, data: Round)

  // ---------------------------------------------------------------------------
  // Python string operations
  // ---------------------------------------------------------------------------

  /** `str.isspace` for one character. */
  predicate IsSpace(c: char)
  {
    var n := c as int;
    (9 <= n <= 13) || (0x1C <= n <= 0x20) || n == 0x85 || n == 0xA0 || n == 0x1680
    || (0x2000 <= n <= 0x200A) || n == 0x2028 || n == 0x2029 || n == 0x202F || n == 0x205F
    || n == 0x3000
  }

  /** `str.lstrip()`. */
  function StripLeft(s: string): string
  {
    if |s| > 0 && IsSpace(s[0]) then StripLeft(s[1..]) else s
  }

  /** `str.rstrip()`. */
  function StripRight(s: string): string
  {
    if |s| > 0 && IsSpace(s[|s| - 1]) then StripRight(s[..|s| - 1]) else s
  }

  /** `str.strip()`. */
  function Strip(s: string): string
  {
    StripRight(StripLeft(s))
  }

  /** The first position at which sep occurs in s, or |s| if it does not. */
  function Find(s: string, sep: string): (i: nat)
    requires |sep| > 0
    ensures i <= |s|
    ensures i < |s| ==> LineRegex.At(s, i, sep)
    ensures forall k :: 0 <= k < i ==> !LineRegex.At(s, k, sep)
  {
    if |s| < |sep| then |s|
    else if LineRegex.At(s, 0, sep) then 0
    else
      var i := 1 + Find(s[1..], sep);
      assert forall k :: 1 <= k ==> (LineRegex.At(s, k, sep) <==> LineRegex.At(s[1..], k - 1, sep)) by {
        forall k | 1 <= k
          ensures LineRegex.At(s, k, sep) <==> LineRegex.At(s[1..], k - 1, sep)
        {
          AtShift(s, k, sep);
        }
      }
      i
  }

  lemma AtShift(s: string, k: nat, sep: string)
    requires 1 <= k && |s| > 0
    ensures LineRegex.At(s, k, sep) <==> LineRegex.At(s[1..], k - 1, sep)
  {
    if k + |sep| <= |s| {
      var x, y := s[k..k + |sep|], s[1..][k - 1..k - 1 + |sep|];
      assert forall t :: 0 <= t < |x| ==> x[t] == s[k + t] == y[t];
      assert x == y;
    }
  }

  /** An occurrence of a two-character separator is two matching characters. */
  lemma AtPair(s: string, k: nat, sep: string)
    requires |sep| == 2
    ensures LineRegex.At(s, k, sep) <==> k + 2 <= |s| && s[k] == sep[0] && s[k + 1] == sep[1]
  {
    if k + 2 <= |s| && s[k] == sep[0] && s[k + 1] == sep[1] {
      assert s[k..k + 2] == sep;
    }
  }

  /** `s.split(sep)`: the pieces between non-overlapping occurrences, found left to right. */
  function SplitOn(s: string, sep: string): (ps: seq<string>)
    requires |sep| > 0
    ensures |ps| >= 1
    decreases |s|
  {
    var i := Find(s, sep);
    if i == |s| then [s] else [s[..i]] + SplitOn(s[i + |sep|..], sep)
  }

  /** The characters at which `str.splitlines` breaks a line. */
  predicate LineBoundary(c: char)
  {
    var n := c as int;
    (10 <= n <= 13) || (0x1C <= n <= 0x1E) || n == 0x85 || n == 0x2028 || n == 0x2029
  }

  /** The first line boundary in s, or |s|. */
  function FirstBoundary(s: string): (i: nat)
    ensures i <= |s|
    ensures i < |s| ==> LineBoundary(s[i])
    ensures forall k :: 0 <= k < i ==> !LineBoundary(s[k])
  {
    if |s| == 0 then 0
    else if LineBoundary(s[0]) then 0
    else 1 + FirstBoundary(s[1..])
  }

  /** `s.splitlines()`: "\r\n" is one break, and a final break opens no empty line. */
  function SplitLines(s: string): seq<string>
    decreases |s|
  {
    if |s| == 0 then []
    else
      var i := FirstBoundary(s);
      if i == |s| then [s]
      else
        var width := if s[i] == '\r' && i + 1 < |s| && s[i + 1] == '\n' then 2 else 1;
        [s[..i]] + SplitLines(s[i + width..])
  }

  /** `line.split(':', maxsplit=1)[1]`: what follows the first ':', if there is one. */
  function AfterColon(line: string): Option<string>
  {
    var i := Text.IndexOf(line, ':');
    if i == |line| then None else Some(line[i + 1..])
  }

  predicate AllDigits(s: string)
  {
    forall k :: 0 <= k < |s| ==> '0' <= s[k] <= '9'
  }

  /** The number a string of decimal digits denotes. */
  function DigitsValue(s: string): nat
    requires AllDigits(s)
  {
    if |s| == 0 then 0
    else 10 * DigitsValue(s[..|s| - 1]) + (s[|s| - 1] as int - '0' as int)
  }

  /** `int(s)` of a stripped string: an optional sign and at least one ASCII digit. */
  function ParseInt(s: string): Option<int>
  {
    if |s| >= 2 && s[0] == '-' && AllDigits(s[1..]) then Some(-(DigitsValue(s[1..]) as int))
    else if |s| >= 2 && s[0] == '+' && AllDigits(s[1..]) then Some(DigitsValue(s[1..]))
    else if |s| >= 1 && AllDigits(s) then Some(DigitsValue(s))
    else None
  }

  // ---------------------------------------------------------------------------
  // The parser
  // ---------------------------------------------------------------------------

  /**
   * One block: `lines[0]`, `lines[1]` and `lines[2]` of `block.splitlines()`, each taken after
   * its first ':' and stripped; later lines are ignored.
   */
  function ParseEvent(block: string): Option<Event>
  {
    var lines := SplitLines(block);
    if |lines| < 3 then None
    else
      match (AfterColon(lines[0]), AfterColon(lines[1]), AfterColon(lines[2]))
      case (Some(e), Some(i), Some(d)) =>
        (match (ParseInt(Strip(i)), Json.DecodeRound(Strip(d)))
         case (Some(id), Some(data)) => Some(Event(Strip(e), id, data))
         case _ => None)
      case _ => None
  }

  /** The blocks in order; None as soon as one of them does not parse. */
  function ParseBlocks(blocks: seq<string>): (r: Option<seq<Event>>)
    ensures r.Some? ==> |r.value| == |blocks| && forall k :: 0 <= k < |blocks| ==> ParseEvent(blocks[k]) == Some(r.value[k])
    ensures r.None? ==> exists k :: 0 <= k < |blocks| && ParseEvent(blocks[k]).None?
  {
    Collect(seq(|blocks|, k requires 0 <= k < |blocks| => ParseEvent(blocks[k])))
  }

  /** All the values, in order, if every option holds one. */
  function Collect<T>(os: seq<Option<T>>): (r: Option<seq<T>>)
    ensures r.Some? ==> |r.value| == |os| && forall k :: 0 <= k < |os| ==> os[k] == Some(r.value[k])
    ensures r.None? ==> exists k :: 0 <= k < |os| && os[k].None?
  {
    if |os| == 0 then Some([])
    else
      match os[0]
      case None => None
      case Some(x) =>
        match Collect(os[1..])
        case None => assert os[1..][0] == os[1]; None
        case Some(xs) => Some([x] + xs)
  }

  /** `list(parse_events(source))`. */
  function ParseEvents(source: string): Option<seq<Event>>
  {
    ParseBlocks(SplitOn(Strip(source), "\n\n"))
  }

  /** The events frames of these rounds numbered from `from` stand for. */
  function EventsFrom(rounds: seq<Round>, from: nat): (es: seq<Event>)
    ensures |es| == |rounds|
    ensures forall i :: 0 <= i < |es| ==> es[i] == Event(Frames.EventName, from + i, rounds[i])
  {
    seq(|rounds|, i requires 0 <= i < |rounds| => Event(Frames.EventName, from + i, rounds[i]))
  }

  /** The events the frames of these rounds stand for: `qasystem`, ids 0, 1, 2, ... */
  function EventsOf(rounds: seq<Round>): (es: seq<Event>)
    ensures |es| == |rounds|
    ensures forall i :: 0 <= i < |es| ==> es[i] == Event(Frames.EventName, i, rounds[i])
  {
    EventsFrom(rounds, 0)
  }

  // ---------------------------------------------------------------------------
  // Strip, split and line lemmas
  // ---------------------------------------------------------------------------

  lemma StripLeadingSpace(s: string)
    requires |s| > 0 && !IsSpace(s[0]) && !IsSpace(s[|s| - 1])
    ensures Strip(" " + s) == s
  {
    assert (" " + s)[1..] == s;
    assert StripLeft(s) == s;
    assert StripLeft(" " + s) == s;
    assert StripRight(s) == s;
  }

  lemma StripTrailingBlank(s: string)
    requires |s| > 0 && !IsSpace(s[0]) && !IsSpace(s[|s| - 1])
    ensures Strip(s + "\n\n") == s
  {
    var t := s + "\n\n";
    assert StripLeft(t) == t;
    assert t[..|t| - 1] == s + "\n";
    assert (s + "\n")[..|s|] == s;
    assert StripRight(s) == s;
    assert StripRight(s + "\n") == s;
    assert StripRight(t) == s;
  }

  /** A block that holds no blank line and does not end in a newline. */
  predicate NoBlankLine(b: string)
  {
    && |b| > 0 && b[|b| - 1] != '\n'
    && forall k :: 0 <= k < |b| - 1 ==> !(b[k] == '\n' && b[k + 1] == '\n')
  }

  /** The first blank line of b + "\n\n" + rest is the one right after b. */
  lemma FindAfterBlock(b: string, rest: string)
    requires NoBlankLine(b)
    ensures Find(b + "\n\n" + rest, "\n\n") == |b|
  {
    var s := b + "\n\n" + rest;
    AtPair(s, |b|, "\n\n");
    forall k | 0 <= k < |b|
      ensures !LineRegex.At(s, k, "\n\n")
    {
      AtPair(s, k, "\n\n");
      if k + 1 < |b| {
        assert s[k] == b[k] && s[k + 1] == b[k + 1];
      } else {
        assert s[k] == b[|b| - 1];
      }
    }
  }

  /** A block without a blank line is not split. */
  lemma SplitLastBlock(b: string)
    requires NoBlankLine(b)
    ensures SplitOn(b, "\n\n") == [b]
  {
    forall k | 0 <= k < |b|
      ensures !LineRegex.At(b, k, "\n\n")
    {
      AtPair(b, k, "\n\n");
    }
  }

  /** `sep.join(blocks)`. */
  function JoinOn(blocks: seq<string>, sep: string): string
  {
    if |blocks| == 0 then ""
    else if |blocks| == 1 then blocks[0]
    else blocks[0] + sep + JoinOn(blocks[1..], sep)
  }

  /** Splitting a blank-line join of such blocks gives the blocks back. */
  lemma {:induction false} SplitOfJoin(blocks: seq<string>)
    requires |blocks| > 0
    requires forall k :: 0 <= k < |blocks| ==> NoBlankLine(blocks[k])
    ensures SplitOn(JoinOn(blocks, "\n\n"), "\n\n") == blocks
    decreases |blocks|
  {
    if |blocks| == 1 {
      SplitLastBlock(blocks[0]);
    } else {
      var s := JoinOn(blocks, "\n\n");
      var rest := JoinOn(blocks[1..], "\n\n");
      FindAfterBlock(blocks[0], rest);
      assert s[..|blocks[0]|] == blocks[0];
      assert s[|blocks[0]| + 2..] == rest;
      SplitOfJoin(blocks[1..]);
    }
  }

  predicate NoBoundary(s: string)
  {
    forall k :: 0 <= k < |s| ==> !LineBoundary(s[k])
  }

  lemma SplitLinesCons(a: string, rest: string)
    requires NoBoundary(a)
    ensures SplitLines(a + "\n" + rest) == [a] + SplitLines(rest)
  {
    var s := a + "\n" + rest;
    assert s[|a|] == '\n';
    assert forall k :: 0 <= k < |a| ==> s[k] == a[k];
    assert FirstBoundary(s) == |a|;
    assert s[..|a|] == a;
    assert s[|a| + 1..] == rest;
  }

  lemma SplitLinesOne(c: string)
    requires |c| > 0 && NoBoundary(c)
    ensures SplitLines(c) == [c]
  {
    assert FirstBoundary(c) == |c|;
  }

  /** Three lines without boundaries, joined by newlines, split back into the three. */
  lemma SplitLinesThree(a: string, b: string, c: string)
    requires NoBoundary(a) && NoBoundary(b) && NoBoundary(c) && |c| > 0
    ensures SplitLines(a + "\n" + b + "\n" + c) == [a, b, c]
  {
    var bc := b + "\n" + c;
    SplitLinesOne(c);
    SplitLinesCons(b, c);
    assert SplitLines(bc) == [b, c];
    SplitLinesCons(a, bc);
    Text.Regroup(a + "\n", b, "\n", c);
  }

  /** `(key + ": " + value).split(':', 1)[1].strip()` is value when key holds no ':' and value is bare. */
  lemma FieldValue(key: string, value: string)
    requires ':' !in key
    requires |value| > 0 && !IsSpace(value[0]) && !IsSpace(value[|value| - 1])
    ensures AfterColon(Frames.Field(key, value)) == Some(" " + value)
    ensures Strip(" " + value) == value
  {
    var line := Frames.Field(key, value);
    assert line[|key|] == ':';
    assert forall k :: 0 <= k < |key| ==> line[k] == key[k];
    assert Text.IndexOf(line, ':') == |key|;
    assert line[|key| + 1..] == " " + value;
    StripLeadingSpace(value);
  }

  /** Reading the digits of n gives n back. */
  lemma {:induction false} DigitsValueOfNat(n: nat)
    ensures AllDigits(Text.NatToString(n))
    ensures DigitsValue(Text.NatToString(n)) == n
  {
    var s := Text.NatToString(n);
    if n >= 10 {
      assert s[..|s| - 1] == Text.NatToString(n / 10);
      DigitsValueOfNat(n / 10);
    }
  }

  /** `int(str(n)) == n`. */
  lemma ParseIntOfNat(n: nat)
    ensures ParseInt(Text.NatToString(n)) == Some(n)
  {
    DigitsValueOfNat(n);
    var s := Text.NatToString(n);
    assert s[0] != '-' && s[0] != '+';
  }

  // ---------------------------------------------------------------------------
  // Round trip
  // ---------------------------------------------------------------------------

  /** A piece of a line: non-empty, no line boundary, no whitespace at either end. */
  predicate Bare(s: string)
  {
    |s| > 0 && !IsSpace(s[0]) && !IsSpace(s[|s| - 1]) && NoBoundary(s)
  }

  lemma EncodedRoundBare(r: Round)
    ensures Bare(Json.EncodeRound(r))
    ensures var j := Json.EncodeRound(r); j[0] == '[' && j[|j| - 1] == ']'
  {
    Json.EncodeRoundShape(r);
  }

  lemma DigitsBare(i: nat)
    ensures Bare(Text.NatToString(i))
  {
  }

  /** A field line of a bare key and value holds no line boundary. */
  lemma FieldNoBoundary(key: string, value: string)
    requires NoBoundary(key) && Bare(value)
    ensures NoBoundary(Frames.Field(key, value)) && |Frames.Field(key, value)| > 0
  {
    var line := Frames.Field(key, value);
    forall k | 0 <= k < |line|
      ensures !LineBoundary(line[k])
    {
      if k < |key| {
        assert line[k] == key[k];
      } else if k >= |key| + 2 {
        assert line[k] == value[k - |key| - 2];
      }
    }
  }

  /** The three lines of a frame's block. */
  lemma BlockLines(i: nat, r: Round)
    ensures SplitLines(Frames.Block(i, r)) ==
      [Frames.Field("event", Frames.EventName), Frames.Field("id", Text.NatToString(i)),
       Frames.Field("data", Json.EncodeRound(r))]
  {
    EncodedRoundBare(r);
    DigitsBare(i);
    FieldNoBoundary("event", Frames.EventName);
    FieldNoBoundary("id", Text.NatToString(i));
    FieldNoBoundary("data", Json.EncodeRound(r));
    SplitLinesThree(Frames.Field("event", Frames.EventName), Frames.Field("id", Text.NatToString(i)),
      Frames.Field("data", Json.EncodeRound(r)));
  }

  /** A frame's block parses to the event it was made from. */
  lemma ParseBlock(i: nat, r: Round)
    ensures ParseEvent(Frames.Block(i, r)) == Some(Event(Frames.EventName, i, r))
  {
    var d := Text.NatToString(i);
    var j := Json.EncodeRound(r);
    BlockLines(i, r);
    DigitsBare(i);
    EncodedRoundBare(r);
    FieldValue("event", Frames.EventName);
    FieldValue("id", d);
    FieldValue("data", j);
    ParseIntOfNat(i);
    Json.DecodeRoundOfEncode(r);
  }

  /** Lines without a blank line between them or at the end. */
  lemma NoBlankLineThree(a: string, b: string, c: string)
    requires |a| > 0 && |b| > 0 && |c| > 0
    requires NoBoundary(a) && NoBoundary(b) && NoBoundary(c)
    ensures NoBlankLine(a + "\n" + b + "\n" + c)
  {
    var s := a + "\n" + b + "\n" + c;
    var n1, n2 := |a|, |a| + 1 + |b|;
    assert s[n1 + 1] == b[0] && s[n2 + 1] == c[0];
    forall k | 0 <= k < |s| && k != n1 && k != n2
      ensures s[k] != '\n'
    {
      if k < n1 {
        assert s[k] == a[k];
      } else if k < n2 {
        assert s[k] == b[k - n1 - 1];
      } else {
        assert s[k] == c[k - n2 - 1];
      }
    }
    assert s[|s| - 1] == c[|c| - 1];
  }

  /** A frame's block holds no blank line, opens with 'e' and closes with ']'. */
  lemma BlockNoBlankLine(i: nat, r: Round)
    ensures NoBlankLine(Frames.Block(i, r))
    ensures var b := Frames.Block(i, r); b[0] == 'e' && b[|b| - 1] == ']'
  {
    var a, b, c := Frames.Field("event", Frames.EventName), Frames.Field("id", Text.NatToString(i)),
      Frames.Field("data", Json.EncodeRound(r));
    EncodedRoundBare(r);
    DigitsBare(i);
    FieldNoBoundary("event", Frames.EventName);
    FieldNoBoundary("id", Text.NatToString(i));
    FieldNoBoundary("data", Json.EncodeRound(r));
    NoBlankLineThree(a, b, c);
    var s := a + "\n" + b + "\n" + c;
    assert s[0] == a[0];
    assert s[|s| - 1] == c[|c| - 1];
  }

  function Blocks(rounds: seq<Round>, from: nat): (bs: seq<string>)
    ensures |bs| == |rounds|
    ensures forall k :: 0 <= k < |bs| ==> bs[k] == Frames.Block(from + k, rounds[k])
  {
    seq(|rounds|, k requires 0 <= k < |rounds| => Frames.Block(from + k, rounds[k]))
  }

  /** The body of non-empty rounds is their blocks joined by blank lines, plus a final blank line. */
  lemma {:induction false} BodyIsJoin(rounds: seq<Round>, from: nat)
    requires |rounds| > 0
    ensures Text.Concat(Frames.FramesFrom(rounds, from)) == JoinOn(Blocks(rounds, from), "\n\n") + "\n\n"
    decreases |rounds|
  {
    Frames.ConcatFramesFrom(rounds, from);
    var bs := Blocks(rounds, from);
    if |rounds| == 1 {
      assert Frames.FramesFrom(rounds[1..], from + 1) == [];
    } else {
      BodyIsJoin(rounds[1..], from + 1);
      assert bs[1..] == Blocks(rounds[1..], from + 1);
    }
  }

  /** The blocks of a body, parsed one by one, give the rounds' events. */
  lemma ParseBlocksOf(rounds: seq<Round>, from: nat)
    ensures ParseBlocks(Blocks(rounds, from)) == Some(EventsFrom(rounds, from))
  {
    var bs := Blocks(rounds, from);
    var es := EventsFrom(rounds, from);
    var os := seq(|bs|, k requires 0 <= k < |bs| => ParseEvent(bs[k]));
    forall k | 0 <= k < |bs|
      ensures os[k] == Some(es[k])
    {
      ParseBlock(from + k, rounds[k]);
    }
    CollectAll(os, es);
  }

  /** Options that all hold values collect to the list of those values. */
  lemma {:induction false} CollectAll<T>(os: seq<Option<T>>, xs: seq<T>)
    requires |os| == |xs|
    requires forall k :: 0 <= k < |os| ==> os[k] == Some(xs[k])
    ensures Collect(os) == Some(xs)
    decreases |os|
  {
    if |os| > 0 {
      assert forall k :: 0 <= k < |os| - 1 ==> os[1..][k] == os[k + 1] && xs[1..][k] == xs[k + 1];
      CollectAll(os[1..], xs[1..]);
      assert xs == [xs[0]] + xs[1..];
    }
  }

  /**
   * Parsing the frames of any non-empty list of rounds gives one event per round, in order:
   * event `qasystem`, ids 0, 1, 2, ..., and the round itself as data.
   */
  lemma ParseFrames(rounds: seq<Round>)
    requires |rounds| > 0
    ensures ParseEvents(Text.Concat(Frames.Frames(rounds))) == Some(EventsOf(rounds))
  {
    var bs := Blocks(rounds, 0);
    var joined := JoinOn(bs, "\n\n");
    BodyIsJoin(rounds, 0);
    BlocksSeparable(rounds, bs);
    JoinStartsEnds(bs);
    StripTrailingBlank(joined);
    assert Strip(Text.Concat(Frames.Frames(rounds))) == joined;
    SplitOfJoin(bs);
    ParseBlocksOf(rounds, 0);
  }

  lemma BlocksSeparable(rounds: seq<Round>, bs: seq<string>)
    requires bs == Blocks(rounds, 0)
    ensures forall k :: 0 <= k < |bs| ==> NoBlankLine(bs[k]) && bs[k][0] == 'e' && bs[k][|bs[k]| - 1] == ']'
  {
    forall k | 0 <= k < |bs|
      ensures NoBlankLine(bs[k]) && bs[k][0] == 'e' && bs[k][|bs[k]| - 1] == ']'
    {
      BlockNoBlankLine(k, rounds[k]);
    }
  }

  /** A join of blocks starts and ends as its first and last blocks do. */
  lemma {:induction false} JoinStartsEnds(bs: seq<string>)
    requires |bs| > 0
    requires forall k :: 0 <= k < |bs| ==> |bs[k]| > 0 && bs[k][0] == 'e' && bs[k][|bs[k]| - 1] == ']'
    ensures var s := JoinOn(bs, "\n\n"); |s| > 0 && s[0] == 'e' && s[|s| - 1] == ']'
    decreases |bs|
  {
    if |bs| > 1 {
      JoinStartsEnds(bs[1..]);
    }
  }

  /** An empty body is not an event stream: `lines[0]` of the one empty block raises. */
  lemma ParseEmptyBody()
    ensures ParseEvents("") == None
  {
    assert SplitOn("", "\n\n") == [""];
  }
}
