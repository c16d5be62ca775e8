/**
 * `ujson.dumps` of a round (a list of strings and empty lists) with ujson's defaults
 * (ASCII output, forward slashes escaped, no spaces), and a decoder for the JSON it
 * produces, with the meaning `json.loads` gives it.
 *
 * Strings are escaped as section 7 of RFC 8259 allows: `"` and `\` and the short escapes
 * \b \f \n \r \t; every other character below U+0020 and every non-ASCII character as
 * `\u` and four lowercase hex digits, with characters above U+FFFF written as a UTF-16
 * surrogate pair.
 */
module Json {
  import opened Wrappers
  import opened Models
  import Text

  // ---------------------------------------------------------------------------
  // Hex digits
  // ---------------------------------------------------------------------------

  function Pow16(k: nat): (p: nat)
    ensures p >= 1
  {
    if k == 0 then 1 else 16 * Pow16(k - 1)
  }

  /** The lowercase hex digit for d. */
  function HexDigit(d: nat): (c: char)
    requires d < 16
    ensures '0' <= c <= '9' || 'a' <= c <= 'f'
  {
    if d < 10 then ('0' as int + d) as char else ('a' as int + d - 10) as char
  }

  /** The value of a hex digit in either case. */
  function HexValue(c: char): Option<nat>
  {
    if '0' <= c <= '9' then Some(c as int - '0' as int)
    else if 'a' <= c <= 'f' then Some(c as int - 'a' as int + 10)
    else if 'A' <= c <= 'F' then Some(c as int - 'A' as int + 10)
    else None
  }

  /** n in k lowercase hex digits, most significant first. */
  function Hex(n: nat, k: nat): (s: string)
    ensures |s| == k
    ensures forall i :: 0 <= i < |s| ==> '0' <= s[i] <= '9' || 'a' <= s[i] <= 'f'
  {
    if k == 0 then "" else Hex(n / 16, k - 1) + [HexDigit(n % 16)]
  }

  /** The number a string of hex digits denotes. */
  function ParseHex(s: string): Option<nat>
  {
    if |s| == 0 then Some(0)
    else
      match ParseHex(s[..|s| - 1])
      case None => None
      case Some(hi) =>
        match HexValue(s[|s| - 1])
        case None => None
        case Some(d) => Some(16 * hi + d)
  }

  lemma HexDigitValue(d: nat)
    requires d < 16
    ensures HexValue(HexDigit(d)) == Some(d)
  {
  }

  /** Reading k hex digits back gives the number they were written from. */
  lemma {:induction false} ParseHexOfHex(n: nat, k: nat)
    requires n < Pow16(k)
    ensures ParseHex(Hex(n, k)) == Some(n)
  {
    if k > 0 {
      var s := Hex(n, k);
      assert s[..|s| - 1] == Hex(n / 16, k - 1);
      assert n / 16 < Pow16(k - 1);
      ParseHexOfHex(n / 16, k - 1);
      HexDigitValue(n % 16);
    }
  }

  // ---------------------------------------------------------------------------
  // Encoder
  // ---------------------------------------------------------------------------

  /** `\u` and four hex digits. */
  function UEscape(n: nat): string
    requires n < 0x1_0000
  {
    "\\u" + Hex(n, 4)
  }

  /** One character inside a JSON string. */
  function EncodeChar(c: char): string
  {
    if c == '"' then "\\\""
    else if c == '\\' then "\\\\"
    else if c == '/' then "\\/"
    else if c as int == 8 then "\\b"
    else if c as int == 12 then "\\f"
    else if c == '\n' then "\\n"
    else if c == '\r' then "\\r"
    else if c == '\t' then "\\t"
    else if c < ' ' || c as int > 0x7F then
      if c as int < 0x1_0000 then UEscape(c as int)
      else
        var v := c as int - 0x1_0000;
        UEscape(0xD800 + v / 0x400) + UEscape(0xDC00 + v % 0x400)
    else [c]
  }

  /** The characters of s, escaped. */
  function EncodeChars(s: string): string
  {
    if |s| == 0 then "" else EncodeChar(s[0]) + EncodeChars(s[1..])
  }

  function EncodeString(s: string): string
  {
    "\"" + EncodeChars(s) + "\""
  }

  function EncodeEntry(e: Entry): string
  {
    match e
    case Str(s) => EncodeString(s)
    case EmptyList => "[]"
  }

  /** The entries, comma-separated. */
  function EncodeItems(r: Round): string
  {
    if |r| == 0 then ""
    else if |r| == 1 then EncodeEntry(r[0])
    else EncodeEntry(r[0]) + "," + EncodeItems(r[1..])
  }

  /** `ujson.dumps(response)`. */
  function EncodeRound(r: Round): string
  {
    "[" + EncodeItems(r) + "]"
  }

  // ---------------------------------------------------------------------------
  // Decoder
  // ---------------------------------------------------------------------------

  /** A character a `\u` escape may denote on its own (not a surrogate). */
  predicate Scalar(n: nat)
  {
    n < 0xD800 || 0xE000 <= n < 0x11_0000
  }

  /** The four hex digits at the head of s. */
  function Hex4At(s: string): Option<nat>
  {
    if |s| < 4 then None else ParseHex(s[..4])
  }

  /**
   * The escape after a backslash: the character and the rest of the input. A high surrogate
   * must be followed by `\u` and a low surrogate; the pair denotes one character.
   */
  function DecodeEscape(s: string): (r: Option<(char, string)>)
    ensures r.Some? ==> |r.value.1| < |s|
  {
    if |s| == 0 then None
    else if s[0] == '"' then Some(('"', s[1..]))
    else if s[0] == '\\' then Some(('\\', s[1..]))
    else if s[0] == '/' then Some(('/', s[1..]))
    else if s[0] == 'b' then Some((8 as char, s[1..]))
    else if s[0] == 'f' then Some((12 as char, s[1..]))
    else if s[0] == 'n' then Some(('\n', s[1..]))
    else if s[0] == 'r' then Some(('\r', s[1..]))
    else if s[0] == 't' then Some(('\t', s[1..]))
    else if s[0] == 'u' then
      match Hex4At(s[1..])
      case None => None
      case Some(n) =>
        if Scalar(n) then Some((n as char, s[5..]))
        else if 0xD800 <= n < 0xDC00 && |s| >= 11 && s[5..7] == "\\u" then
          match Hex4At(s[7..])
          case None => None
          case Some(m) =>
            if 0xDC00 <= m < 0xE000 then
              Some(((0x1_0000 + (n - 0xD800) * 0x400 + (m - 0xDC00)) as char, s[11..]))
            else None
        else None
    else None
  }

  /** A string body up to its closing quote: the characters and the input after the quote. */
  function DecodeChars(s: string): (r: Option<(string, string)>)
    ensures r.Some? ==> |r.value.1| < |s|
    decreases |s|
  {
    if |s| == 0 then None
    else if s[0] == '"' then Some(("", s[1..]))
    else if s[0] == '\\' then
      match DecodeEscape(s[1..])
      case None => None
      case Some((c, rest)) =>
        match DecodeChars(rest)
        case None => None
        case Some((cs, after)) => Some(([c] + cs, after))
    else if s[0] < ' ' then None
    else
      match DecodeChars(s[1..])
      case None => None
      case Some((cs, after)) => Some(([s[0]] + cs, after))
  }

  /** One entry: a string or `[]`. */
  function DecodeEntry(s: string): (r: Option<(Entry, string)>)
    ensures r.Some? ==> |r.value.1| < |s|
  {
    if |s| >= 2 && s[0] == '[' && s[1] == ']' then Some((EmptyList, s[2..]))
    else if |s| >= 1 && s[0] == '"' then
      match DecodeChars(s[1..])
      case None => None
      case Some((cs, rest)) => Some((Str(cs), rest))
    else None
  }

  /** Entries after the first: `,` entry, repeatedly, up to the closing `]`. */
  function DecodeMore(s: string): Option<(seq<Entry>, string)>
    decreases |s|
  {
    if |s| >= 1 && s[0] == ']' then Some(([], s[1..]))
    else if |s| >= 1 && s[0] == ',' then
      match DecodeEntry(s[1..])
      case None => None
      case Some((e, rest)) =>
        match DecodeMore(rest)
        case None => None
        case Some((es, after)) => Some(([e] + es, after))
    else None
  }

  /** `json.loads` of an array of strings and empty arrays, with nothing after it. */
  function DecodeRound(s: string): Option<Round>
  {
    if |s| >= 2 && s[0] == '[' && s[1] == ']' then (if |s| == 2 then Some([]) else None)
    else if |s| >= 1 && s[0] == '[' then
      match DecodeEntry(s[1..])
      case None => None
      case Some((e, rest)) =>
        match DecodeMore(rest)
        case None => None
        case Some((es, after)) => if after == "" then Some([e] + es) else None
    else None
  }

  // ---------------------------------------------------------------------------
  // Round trip
  // ---------------------------------------------------------------------------

  lemma UEscapeShape(n: nat, rest: string)
    requires n < 0x1_0000
    ensures (UEscape(n) + rest)[0] == '\\' && (UEscape(n) + rest)[1] == 'u'
    ensures Hex4At((UEscape(n) + rest)[2..]) == Some(n)
    ensures (UEscape(n) + rest)[6..] == rest
  {
    var s := UEscape(n) + rest;
    assert s[2..][..4] == Hex(n, 4);
    assert Pow16(4) == 0x1_0000;
    ParseHexOfHex(n, 4);
  }

  /** The characters written with a two-character escape. */
  predicate ShortEscaped(c: char)
  {
    c == '"' || c == '\\' || c == '/' || c as int == 8 || c as int == 12 || c == '\n' || c == '\r' || c == '\t'
  }

  lemma DecodeShortEscape(c: char, rest: string)
    requires ShortEscaped(c)
    ensures var s := EncodeChar(c) + rest; s[0] == '\\' && DecodeEscape(s[1..]) == Some((c, rest))
  {
    var s := EncodeChar(c) + rest;
    assert |EncodeChar(c)| == 2;
    assert s[1..][1..] == rest;
  }

  lemma DecodeBmpEscape(c: char, rest: string)
    requires !ShortEscaped(c) && (c < ' ' || c as int > 0x7F) && c as int < 0x1_0000
    ensures var s := EncodeChar(c) + rest; s[0] == '\\' && DecodeEscape(s[1..]) == Some((c, rest))
  {
    var s := EncodeChar(c) + rest;
    assert EncodeChar(c) == UEscape(c as int);
    UEscapeShape(c as int, rest);
    assert s[1..][1..] == s[2..];
    assert s[1..][5..] == rest;
  }

  lemma SurrogateHalves(c: char)
    requires c as int >= 0x1_0000
    ensures var v := c as int - 0x1_0000;
      && 0xD800 <= 0xD800 + v / 0x400 < 0xDC00
      && 0xDC00 <= 0xDC00 + v % 0x400 < 0xE000
      && 0x1_0000 + (v / 0x400) * 0x400 + v % 0x400 == c as int
  {
  }

  lemma DecodePairEscape(c: char, rest: string)
    requires !ShortEscaped(c) && c as int >= 0x1_0000
    ensures var s := EncodeChar(c) + rest; s[0] == '\\' && DecodeEscape(s[1..]) == Some((c, rest))
  {
    var v := c as int - 0x1_0000;
    var hi, lo := 0xD800 + v / 0x400, 0xDC00 + v % 0x400;
    SurrogateHalves(c);
    assert EncodeChar(c) == UEscape(hi) + UEscape(lo);
    var s := EncodeChar(c) + rest;
    assert s == UEscape(hi) + (UEscape(lo) + rest);
    UEscapeShape(hi, UEscape(lo) + rest);
    UEscapeShape(lo, rest);
    var t := s[1..];
    assert t[1..] == s[2..];
    assert t[5..] == UEscape(lo) + rest;
    assert t[5..7] == "\\u";
    assert t[7..] == (UEscape(lo) + rest)[2..];
    assert t[11..] == rest;
    assert !Scalar(hi);
  }

  /** Decoding one escaped character gives it back, with the input after it untouched. */
  lemma DecodeOneChar(c: char, rest: string)
    ensures var s := EncodeChar(c) + rest;
      if s[0] == '\\' then DecodeEscape(s[1..]) == Some((c, rest))
      else s[0] == c && s[0] != '"' && s[0] >= ' ' && s[1..] == rest
  {
    if ShortEscaped(c) {
      DecodeShortEscape(c, rest);
    } else if c < ' ' || c as int > 0x7F {
      if c as int < 0x1_0000 {
        DecodeBmpEscape(c, rest);
      } else {
        DecodePairEscape(c, rest);
      }
    } else {
      assert EncodeChar(c) == [c];
      assert (EncodeChar(c) + rest)[1..] == rest;
    }
  }

  /** A string body decodes back to the string, stopping after its closing quote. */
  lemma {:induction false} DecodeCharsOfEncode(s: string, rest: string)
    ensures DecodeChars(EncodeChars(s) + "\"" + rest) == Some((s, rest))
    decreases |s|
  {
    if |s| == 0 {
      assert EncodeChars(s) + "\"" + rest == "\"" + rest;
    } else {
      var tail := EncodeChars(s[1..]) + "\"" + rest;
      Text.Regroup(EncodeChar(s[0]), EncodeChars(s[1..]), "\"", rest);
      DecodeCharsOfEncode(s[1..], rest);
      DecodeCharStep(s[0], tail, s[1..], rest);
      assert [s[0]] + s[1..] == s;
    }
  }

  /** An encoded character in front of a decodable body adds itself to what that body decodes to. */
  lemma DecodeCharStep(c: char, tail: string, cs: string, after: string)
    requires DecodeChars(tail) == Some((cs, after))
    ensures DecodeChars(EncodeChar(c) + tail) == Some(([c] + cs, after))
  {
    DecodeOneChar(c, tail);
  }

  lemma DecodeEntryOfEncode(e: Entry, rest: string)
    ensures DecodeEntry(EncodeEntry(e) + rest) == Some((e, rest))
  {
    match e
    case EmptyList =>
      assert (EncodeEntry(e) + rest)[2..] == rest;
    case Str(s) =>
      var t := EncodeEntry(e) + rest;
      assert t[1..] == EncodeChars(s) + "\"" + rest;
      DecodeCharsOfEncode(s, rest);
  }

  /** What follows the first entry of a round: `,` and the other entries, or nothing. */
  function MoreItems(r: Round): string
  {
    if |r| == 0 then "" else "," + EncodeItems(r)
  }

  /** The items of a non-empty round: its first entry, then the others behind commas. */
  lemma ItemsSplit(r: Round, rest: string)
    requires |r| > 0
    ensures EncodeItems(r) + rest == EncodeEntry(r[0]) + (MoreItems(r[1..]) + rest)
  {
    var head := EncodeEntry(r[0]);
    if |r| == 1 {
      assert EncodeItems(r) == head;
      assert MoreItems(r[1..]) == "";
    } else {
      var tail := EncodeItems(r[1..]);
      assert EncodeItems(r) == head + "," + tail;
      Text.Assoc(head, ",", tail);
      assert MoreItems(r[1..]) == "," + tail;
      Text.Assoc(head, "," + tail, rest);
    }
  }

  /** DecodeMore reads a comma, one entry and the entries after it. */
  lemma DecodeMoreStep(s: string, e: Entry, more: string, es: seq<Entry>, after: string)
    requires |s| >= 1 && s[0] == ','
    requires DecodeEntry(s[1..]) == Some((e, more))
    requires DecodeMore(more) == Some((es, after))
    ensures DecodeMore(s) == Some(([e] + es, after))
  {
  }

  /** `,e1,e2,...]` decodes back to the entries. */
  lemma {:induction false} DecodeMoreOfEncode(r: Round, rest: string)
    ensures DecodeMore(MoreItems(r) + "]" + rest) == Some((r, rest))
    decreases |r|
  {
    if |r| == 0 {
      assert (MoreItems(r) + "]" + rest)[1..] == rest;
    } else {
      var more := MoreItems(r[1..]) + "]" + rest;
      var s := MoreItems(r) + "]" + rest;
      var items := EncodeItems(r);
      calc {
        s;
        ("," + items) + "]" + rest;
        { Text.Assoc("," + items, "]", rest); }
        ("," + items) + ("]" + rest);
        { Text.Assoc(",", items, "]" + rest); }
        "," + (items + ("]" + rest));
        { ItemsSplit(r, "]" + rest); }
        "," + (EncodeEntry(r[0]) + (MoreItems(r[1..]) + ("]" + rest)));
        { Text.Assoc(MoreItems(r[1..]), "]", rest); }
        "," + (EncodeEntry(r[0]) + more);
      }
      assert s[1..] == EncodeEntry(r[0]) + more;
      DecodeEntryOfEncode(r[0], more);
      DecodeMoreOfEncode(r[1..], rest);
      DecodeMoreStep(s, r[0], more, r[1..], rest);
      assert [r[0]] + r[1..] == r;
    }
  }

  /** An encoded entry never starts with the closing bracket. */
  lemma EntryStart(e: Entry, rest: string)
    ensures |EncodeEntry(e) + rest| >= 2
    ensures (EncodeEntry(e) + rest)[0] != ']'
  {
  }

  /** DecodeRound reads the bracket, one entry, the others, and nothing after. */
  lemma DecodeRoundStep(s: string, e: Entry, more: string, es: seq<Entry>)
    requires |s| >= 2 && s[0] == '[' && s[1] != ']'
    requires DecodeEntry(s[1..]) == Some((e, more))
    requires DecodeMore(more) == Some((es, ""))
    ensures DecodeRound(s) == Some([e] + es)
  {
  }

  /** The decoder reads back exactly the round that was encoded. */
  lemma DecodeRoundOfEncode(r: Round)
    ensures DecodeRound(EncodeRound(r)) == Some(r)
  {
    var s := EncodeRound(r);
    if |r| > 0 {
      var more := MoreItems(r[1..]) + "]";
      ItemsSplit(r, "]");
      assert s == "[" + (EncodeEntry(r[0]) + more);
      assert s[1..] == EncodeEntry(r[0]) + more;
      EntryStart(r[0], more);
      DecodeEntryOfEncode(r[0], more);
      DecodeMoreOfEncode(r[1..], "");
      assert more + "" == more;
      DecodeRoundStep(s, r[0], more, r[1..]);
      assert [r[0]] + r[1..] == r;
    } else {
      assert s == "[]";
    }
  }

  /** Printable ASCII (and DEL) other than `"`, `\\` and `/`: written as itself. */
  predicate Unescaped(c: char)
  {
    ' ' <= c && c as int <= 0x7F && c != '"' && c != '\\' && c != '/'
  }

  /** A string of characters that need no escape is written as itself. */
  lemma {:induction false} EncodeUnescaped(s: string)
    requires forall i :: 0 <= i < |s| ==> Unescaped(s[i])
    ensures EncodeChars(s) == s
    decreases |s|
  {
    if |s| > 0 {
      EncodeUnescaped(s[1..]);
      assert [s[0]] + s[1..] == s;
    }
  }

  /** Three copies of such a string as a JSON array: quoted, comma-separated, no spaces. */
  lemma TripleJson(s: string)
    requires forall i :: 0 <= i < |s| ==> Unescaped(s[i])
    ensures var e, q := Str(s), "\"" + s + "\"";
      EncodeRound([e, e, e]) == "[" + q + "," + q + "," + q + "]"
  {
    var e := Str(s);
    EncodeUnescaped(s);
    var q := "\"" + s + "\"";
    assert EncodeEntry(e) == q;
    ItemsCons(e, [e]);
    assert [e] + [e] == [e, e];
    ItemsCons(e, [e, e]);
    assert [e] + [e, e] == [e, e, e];
    Text.Regroup(q + ",", q, ",", q);
    Text.Regroup("[", q + "," + q, ",", q);
    Text.Regroup("[", q, ",", q);
  }

  /** The items of an entry in front of a non-empty round: the entry, a comma, the others. */
  lemma ItemsCons(e: Entry, r: Round)
    requires |r| > 0
    ensures EncodeItems([e] + r) == EncodeEntry(e) + "," + EncodeItems(r)
  {
    assert ([e] + r)[1..] == r;
  }

  // ---------------------------------------------------------------------------
  // Shape of the output
  // ---------------------------------------------------------------------------

  /** Printable ASCII or DEL: no line break, no control character, nothing above U+007F. */
  predicate Printable(c: char)
  {
    ' ' <= c && c as int <= 0x7F
  }

  predicate AllPrintable(s: string)
  {
    forall i :: 0 <= i < |s| ==> Printable(s[i])
  }

  lemma AllPrintableAppend(a: string, b: string)
    requires AllPrintable(a) && AllPrintable(b)
    ensures AllPrintable(a + b)
  {
    forall i | 0 <= i < |a + b|
      ensures Printable((a + b)[i])
    {
      if i >= |a| {
        assert (a + b)[i] == b[i - |a|];
      }
    }
  }

  lemma EncodeCharPrintable(c: char)
    ensures AllPrintable(EncodeChar(c))
  {
    if ShortEscaped(c) {
      assert |EncodeChar(c)| == 2 && EncodeChar(c)[0] == '\\';
    } else if c < ' ' || c as int > 0x7F {
      if c as int < 0x1_0000 {
        UEscapePrintable(c as int);
      } else {
        var v := c as int - 0x1_0000;
        UEscapePrintable(0xD800 + v / 0x400);
        UEscapePrintable(0xDC00 + v % 0x400);
        AllPrintableAppend(UEscape(0xD800 + v / 0x400), UEscape(0xDC00 + v % 0x400));
      }
    } else {
      assert EncodeChar(c) == [c];
    }
  }

  lemma UEscapePrintable(n: nat)
    requires n < 0x1_0000
    ensures AllPrintable(UEscape(n))
  {
    var h := Hex(n, 4);
    assert forall i :: 0 <= i < |h| ==> Printable(h[i]);
    AllPrintableAppend("\\u", h);
  }

  lemma {:induction false} EncodeCharsPrintable(s: string)
    ensures AllPrintable(EncodeChars(s))
    decreases |s|
  {
    if |s| > 0 {
      EncodeCharPrintable(s[0]);
      EncodeCharsPrintable(s[1..]);
      AllPrintableAppend(EncodeChar(s[0]), EncodeChars(s[1..]));
    }
  }

  lemma {:induction false} EncodeItemsPrintable(r: Round)
    ensures AllPrintable(EncodeItems(r))
    decreases |r|
  {
    if |r| > 0 {
      var e := EncodeEntry(r[0]);
      if r[0].Str? {
        EncodeCharsPrintable(r[0].s);
        AllPrintableAppend("\"", EncodeChars(r[0].s));
        AllPrintableAppend("\"" + EncodeChars(r[0].s), "\"");
      }
      if |r| > 1 {
        EncodeItemsPrintable(r[1..]);
        AllPrintableAppend(e, ",");
        AllPrintableAppend(e + ",", EncodeItems(r[1..]));
      }
    }
  }

  /**
   * The encoding is one line of printable ASCII that opens with `[` and closes with `]`:
   * it holds no newline nor any other line boundary, and no whitespace at either end.
   */
  lemma EncodeRoundShape(r: Round)
    ensures var s := EncodeRound(r); |s| >= 2 && s[0] == '[' && s[|s| - 1] == ']' && AllPrintable(s)
  {
    EncodeItemsPrintable(r);
    AllPrintableAppend("[", EncodeItems(r));
    AllPrintableAppend("[" + EncodeItems(r), "]");
  }
}
