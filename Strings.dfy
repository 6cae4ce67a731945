// Ordinal string helpers shared by the log builders, the YAML scanner and the
// animation generators. Strings are sequences of UTF-16 code units (`char`),
// and every helper compares them ordinally.

module Strings {

  /** The ordinal form of `s.StartsWith(p)`. */
  predicate StartsWith(s: string, p: string)
  {
    |p| <= |s| && s[..|p|] == p
  }

  /** The ordinal form of `s.EndsWith(p)`. */
  predicate EndsWith(s: string, p: string)
  {
    |p| <= |s| && s[|s| - |p|..] == p
  }

  lemma EndsWithAppend(s: string, p: string)
    ensures EndsWith(s + p, p)
  {
    assert (s + p)[|s + p| - |p|..] == p;
  }

  lemma StartsWithAppend(p: string, s: string)
    ensures StartsWith(p + s, p)
  {
    assert (p + s)[..|p|] == p;
  }

  /** `s.IndexOf(c)`: the first position of `c`, or -1. */
  function IndexOf(s: string, c: char): (r: int)
    ensures -1 <= r < |s|
    ensures r == -1 <==> c !in s
    ensures 0 <= r ==> s[r] == c && c !in s[..r]
  {
    if |s| == 0 then -1
    else if s[0] == c then 0
    else
      var r := IndexOf(s[1..], c);
      assert 0 <= r ==> s[..1 + r] == [s[0]] + s[1..][..r];
      if r == -1 then -1 else 1 + r
  }

  /** The ordinal form of `s.LastIndexOf(c)`: the last position of `c`, or -1. */
  function LastIndexOf(s: string, c: char): (r: int)
    ensures -1 <= r < |s|
    ensures r == -1 <==> c !in s
    ensures 0 <= r ==> s[r] == c && c !in s[r + 1..]
  {
    if |s| == 0 then -1
    else if s[|s| - 1] == c then |s| - 1
    else
      var r := LastIndexOf(s[..|s| - 1], c);
      assert r == -1 ==> s == s[..|s| - 1] + [s[|s| - 1]];
      assert 0 <= r ==> s[r + 1..] == s[..|s| - 1][r + 1..] + [s[|s| - 1]];
      r
  }

  /** The number of line breaks in `s`. */
  function Newlines(s: string): nat
  {
    if |s| == 0 then 0
    else Newlines(s[..|s| - 1]) + (if s[|s| - 1] == '\n' then 1 else 0)
  }

  lemma {:induction false} NewlinesAppend(a: string, b: string)
    ensures Newlines(a + b) == Newlines(a) + Newlines(b)
    decreases |b|
  {
    if |b| == 0 {
      assert a + b == a;
    } else {
      var b' := b[..|b| - 1];
      assert (a + b)[..|a + b| - 1] == a + b';
      NewlinesAppend(a, b');
    }
  }

  lemma {:induction false} NoNewlines(s: string)
    requires '\n' !in s
    ensures Newlines(s) == 0
    decreases |s|
  {
    if |s| != 0 {
      NoNewlines(s[..|s| - 1]);
    }
  }

  lemma {:induction false} NewlinesMeansBreak(s: string)
    requires Newlines(s) == 0
    ensures '\n' !in s
    decreases |s|
  {
    if |s| != 0 {
      NewlinesMeansBreak(s[..|s| - 1]);
      assert s == s[..|s| - 1] + [s[|s| - 1]];
    }
  }

  /** `StringBuilder.AppendLine(s)` on text `t`, with "\n" as the line terminator. */
  function AppendLine(t: string, s: string): string
  {
    t + s + "\n"
  }

  /** Appending a line that holds no break of its own adds exactly one line. */
  lemma AppendOneLine(t: string, s: string)
    requires '\n' !in s
    ensures Newlines(AppendLine(t, s)) == Newlines(t) + 1
  {
    NoNewlines(s);
    NewlinesAppend(t, s);
    NewlinesAppend(t + s, "\n");
    assert Newlines("\n") == Newlines("") + 1;
  }

  /** Appending each of `ls` in turn with `AppendLine`. */
  function AppendLines(t: string, ls: seq<string>): string
    decreases |ls|
  {
    if |ls| == 0 then t
    else AppendLine(AppendLines(t, ls[..|ls| - 1]), ls[|ls| - 1])
  }

  lemma AppendLinesStep(t: string, ls: seq<string>, i: int)
    requires 0 <= i < |ls|
    ensures AppendLines(t, ls[..i + 1]) == AppendLine(AppendLines(t, ls[..i]), ls[i])
  {
    assert ls[..i + 1][..i] == ls[..i];
  }

  lemma AppendFourLines(t: string, ls: seq<string>)
    requires |ls| == 4
    ensures AppendLine(AppendLine(AppendLine(AppendLine(t, ls[0]), ls[1]), ls[2]), ls[3]) == AppendLines(t, ls)
  {
    assert ls[..0] == [] && ls[..4] == ls;
    AppendLinesStep(t, ls, 0);
    AppendLinesStep(t, ls, 1);
    AppendLinesStep(t, ls, 2);
    AppendLinesStep(t, ls, 3);
  }

  lemma {:induction false} AppendLinesConcat(t: string, a: seq<string>, b: seq<string>)
    ensures AppendLines(AppendLines(t, a), b) == AppendLines(t, a + b)
    decreases |b|
  {
    if |b| == 0 {
      assert a + b == a;
    } else {
      AppendLinesConcat(t, a, b[..|b| - 1]);
      assert (a + b)[..|a + b| - 1] == a + b[..|b| - 1];
    }
  }

  /** No element of `ls` holds a line break. */
  predicate OneLineEach(ls: seq<string>)
  {
    forall i :: 0 <= i < |ls| ==> '\n' !in ls[i]
  }

  /** Appending `k` single-line strings adds exactly `k` lines. */
  lemma {:induction false} AppendLinesCount(t: string, ls: seq<string>)
    requires OneLineEach(ls)
    ensures Newlines(AppendLines(t, ls)) == Newlines(t) + |ls|
    decreases |ls|
  {
    if |ls| != 0 {
      AppendLinesCount(t, ls[..|ls| - 1]);
      AppendOneLine(AppendLines(t, ls[..|ls| - 1]), ls[|ls| - 1]);
    }
  }

  function DigitChar(d: int): char
    requires 0 <= d < 10
  {
    "0123456789"[d]
  }

  function DigitValue(c: char): int
  {
    if '0' <= c <= '9' then (c as int) - ('0' as int) else -1
  }

  predicate AllDigits(s: string)
  {
    forall i :: 0 <= i < |s| ==> '0' <= s[i] <= '9'
  }

  /** The decimal rendering of a natural number, as `int.ToString()` gives it. */
  function NatToString(n: nat): (s: string)
    ensures |s| >= 1 && AllDigits(s)
    ensures |s| > 1 ==> s[0] != '0'
    ensures '\n' !in s
    decreases n
  {
    if n < 10 then [DigitChar(n)]
    else NatToString(n / 10) + [DigitChar(n % 10)]
  }

  /** The value a string of decimal digits denotes. */
  function DigitsValue(s: string): nat
    requires AllDigits(s)
  {
    if |s| == 0 then 0
    else DigitsValue(s[..|s| - 1]) * 10 + DigitValue(s[|s| - 1])
  }

  lemma {:induction false} NatToStringRoundTrip(n: nat)
    ensures DigitsValue(NatToString(n)) == n
    decreases n
  {
    var s := NatToString(n);
    DigitRoundTrip(n % 10);
    if n >= 10 {
      NatToStringRoundTrip(n / 10);
      assert s[..|s| - 1] == NatToString(n / 10);
      assert s[|s| - 1] == DigitChar(n % 10);
    }
  }

  lemma DigitRoundTrip(d: int)
    requires 0 <= d < 10
    ensures DigitValue(DigitChar(d)) == d
  {
  }

  /** `int.ToString()`: a leading '-' for negative values. */
  function IntToString(n: int): (s: string)
    ensures '\n' !in s
  {
    if n < 0 then "-" + NatToString(-n) else NatToString(n)
  }

  /** `s.Replace(old, new)` for a single-character pattern: every `x` becomes `y`. */
  function ReplaceChar(s: string, x: char, y: string): (r: string)
    ensures x !in y ==> x !in r
  {
    if |s| == 0 then ""
    else (if s[0] == x then y else [s[0]]) + ReplaceChar(s[1..], x, y)
  }

  /** One step of the replacement: the first character, then the rest. */
  lemma ReplaceCharHead(c: char, rest: string, x: char, y: string)
    ensures ReplaceChar([c] + rest, x, y) == (if c == x then y else [c]) + ReplaceChar(rest, x, y)
  {
    assert ([c] + rest)[1..] == rest;
  }

  lemma {:induction false} ReplaceCharConcat(u: string, v: string, x: char, y: string)
    ensures ReplaceChar(u + v, x, y) == ReplaceChar(u, x, y) + ReplaceChar(v, x, y)
    decreases |u|
  {
    if |u| == 0 {
      assert u + v == v;
    } else {
      assert (u + v)[0] == u[0] && (u + v)[1..] == u[1..] + v;
      ReplaceCharConcat(u[1..], v, x, y);
    }
  }

  lemma {:induction false} ReplaceCharAbsent(u: string, x: char, y: string)
    requires x !in u
    ensures ReplaceChar(u, x, y) == u
    decreases |u|
  {
    if |u| > 0 {
      ReplaceCharAbsent(u[1..], x, y);
    }
  }

  /** `s.Replace(pat, rep)`, ordinal: occurrences of `pat` are replaced from left to right,
      without overlapping. */
  function Replace(s: string, pat: string, rep: string): string
    requires |pat| > 0
    decreases |s|
  {
    if |s| < |pat| then s
    else if s[..|pat|] == pat then rep + Replace(s[|pat|..], pat, rep)
    else [s[0]] + Replace(s[1..], pat, rep)
  }

  /** `s.Contains(p)`, ordinal. */
  predicate Contains(s: string, p: string)
    decreases |s|
  {
    StartsWith(s, p) || (|s| > 0 && Contains(s[1..], p))
  }

  /** `k` is the first position of `c` when `c` sits there and nowhere before. */
  lemma {:induction false} IndexOfAt(s: string, c: char, k: nat)
    requires k < |s| && s[k] == c && forall p :: 0 <= p < k ==> s[p] != c
    ensures IndexOf(s, c) == k
    decreases k
  {
    if k > 0 {
      IndexOfAt(s[1..], c, k - 1);
    }
  }
}
