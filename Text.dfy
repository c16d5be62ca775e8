/** String helpers with Python's meaning: `'\n'.join`, `split('\n')`, `''.join`, `str(n)`. */
module Text {

  /** Index of the first c in s, or |s| when s holds no c. */
  function IndexOf(s: string, c: char): (i: nat)
    ensures i <= |s|
    ensures i < |s| ==> s[i] == c
    ensures forall k :: 0 <= k < i ==> s[k] != c
  {
    if |s| == 0 then 0
    else if s[0] == c then 0
    else 1 + IndexOf(s[1..], c)
  }

  /** `s.split('\n')`: the pieces between newlines; never empty. */
  function Lines(s: string): (ls: seq<string>)
    ensures |ls| >= 1
    ensures forall k :: 0 <= k < |ls| ==> '\n' !in ls[k]
    decreases |s|
  {
    var i := IndexOf(s, '\n');
    if i == |s| then [s] else [s[..i]] + Lines(s[i + 1..])
  }

  /** `'\n'.join(rows)`. */
  function JoinLines(rows: seq<string>): string
  {
    if |rows| == 0 then ""
    else if |rows| == 1 then rows[0]
    else rows[0] + "\n" + JoinLines(rows[1..])
  }

  /** `''.join(parts)`. */
  function Concat(parts: seq<string>): string
  {
    if |parts| == 0 then "" else parts[0] + Concat(parts[1..])
  }

  /** s is a contiguous piece of t. */
  predicate Infix(s: string, t: string)
  {
    exists i, j :: 0 <= i <= j <= |t| && t[i..j] == s
  }

  /** The digit character for d. */
  function DigitChar(d: nat): (c: char)
    requires d < 10
    ensures '0' <= c <= '9' && c as int - '0' as int == d
  {
    ('0' as int + d) as char
  }

  /** `str(n)` for a non-negative integer: its decimal digits, most significant first. */
  function NatToString(n: nat): (s: string)
    ensures |s| >= 1
    ensures forall k :: 0 <= k < |s| ==> '0' <= s[k] <= '9'
  {
    if n < 10 then [DigitChar(n)] else NatToString(n / 10) + [DigitChar(n % 10)]
  }

  /** Regrouping a concatenation of three sequences. */
  lemma Assoc<T>(a: seq<T>, b: seq<T>, c: seq<T>)
    ensures (a + b) + c == a + (b + c)
  {
  }

  /** Regrouping a concatenation of four sequences. */
  lemma Regroup<T>(a: seq<T>, b: seq<T>, c: seq<T>, d: seq<T>)
    ensures a + (b + c + d) == a + b + c + d
  {
  }

  /** The first c of s is at i when s[i] is c (or i is |s|) and no earlier character is c. */
  lemma IndexOfIs(s: string, c: char, i: nat)
    requires i <= |s|
    requires i < |s| ==> s[i] == c
    requires forall k :: 0 <= k < i ==> s[k] != c
    ensures IndexOf(s, c) == i
  {
  }

  /** The pieces of a + "\n" + b around a position i of a, or around the newline itself. */
  lemma SplitAround(a: string, b: string, i: nat)
    requires i <= |a|
    ensures (a + "\n" + b)[..i] == a[..i]
    ensures i < |a| ==> (a + "\n" + b)[i + 1..] == a[i + 1..] + "\n" + b
    ensures i == |a| ==> (a + "\n" + b)[i + 1..] == b
  {
  }

  /** Cutting s at its first newline i: the line before i, then the lines after. */
  lemma LinesCut(s: string, i: nat)
    requires i < |s| && s[i] == '\n'
    requires forall k :: 0 <= k < i ==> s[k] != '\n'
    ensures Lines(s) == [s[..i]] + Lines(s[i + 1..])
  {
    IndexOfIs(s, '\n', i);
  }

  /** A line break splits s exactly where the first newline of a + "\n" + b is. */
  lemma {:induction false} LinesAppend(a: string, b: string)
    ensures Lines(a + "\n" + b) == Lines(a) + Lines(b)
    decreases |a|
  {
    var i := IndexOf(a, '\n');
    if i < |a| {
      var a2 := a[i + 1..];
      calc {
        Lines(a + "\n" + b);
        { LinesBeforeFirst(a, b, i); }
        [a[..i]] + Lines(a2 + "\n" + b);
        { LinesAppend(a2, b); }
        [a[..i]] + (Lines(a2) + Lines(b));
        ([a[..i]] + Lines(a2)) + Lines(b);
        { LinesCut(a, i); }
        Lines(a) + Lines(b);
      }
    } else {
      LinesAfterLast(a, b);
      LinesSingle(a);
    }
  }

  /** A first newline i of a is also the first of a + "\n" + b. */
  lemma LinesBeforeFirst(a: string, b: string, i: nat)
    requires i < |a| && a[i] == '\n'
    requires forall k :: 0 <= k < i ==> a[k] != '\n'
    ensures Lines(a + "\n" + b) == [a[..i]] + Lines(a[i + 1..] + "\n" + b)
  {
    var s := a + "\n" + b;
    SplitAround(a, b, i);
    assert forall k :: 0 <= k < i ==> s[k] == a[k];
    LinesCut(s, i);
  }

  /** A newline after a newline-free a splits off a as the first line. */
  lemma LinesAfterLast(a: string, b: string)
    requires forall k :: 0 <= k < |a| ==> a[k] != '\n'
    ensures Lines(a + "\n" + b) == [a] + Lines(b)
  {
    var s := a + "\n" + b;
    SplitAround(a, b, |a|);
    assert a[..|a|] == a;
    LinesCut(s, |a|);
  }

  /** A string without a newline is one line. */
  lemma LinesSingle(s: string)
    requires '\n' !in s
    ensures Lines(s) == [s]
  {
    assert IndexOf(s, '\n') == |s|;
  }

  /** A character absent from s is absent from each of its lines. */
  lemma {:induction false} LinesAvoid(s: string, c: char)
    requires c !in s
    ensures forall k :: 0 <= k < |Lines(s)| ==> c !in Lines(s)[k]
    decreases |s|
  {
    var i := IndexOf(s, '\n');
    if i < |s| {
      assert forall x :: x in s[..i] ==> x in s;
      assert forall x :: x in s[i + 1..] ==> x in s;
      LinesAvoid(s[i + 1..], c);
    }
  }

  /** Joining a row in front of a non-empty row list puts one newline after it. */
  lemma JoinLinesCons(x: string, rest: seq<string>)
    requires |rest| > 0
    ensures JoinLines([x] + rest) == x + "\n" + JoinLines(rest)
  {
    assert ([x] + rest)[1..] == rest;
  }

  /** Splitting a join of newline-free rows gives the rows back. */
  lemma {:induction false} LinesOfJoin(rows: seq<string>)
    requires |rows| > 0
    requires forall k :: 0 <= k < |rows| ==> '\n' !in rows[k]
    ensures Lines(JoinLines(rows)) == rows
    decreases |rows|
  {
    if |rows| == 1 {
      LinesSingle(rows[0]);
    } else {
      LinesAppend(rows[0], JoinLines(rows[1..]));
      LinesSingle(rows[0]);
      LinesOfJoin(rows[1..]);
    }
  }
}
