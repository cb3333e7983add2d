/** The JavaScript string built-ins the core relies on: `Number.prototype.toString`
    on integers, `padStart`, `Array.prototype.join`, `endsWith` and `replaceAll`. */
module Strings {

  predicate IsDigit(c: char) {
    '0' <= c <= '9'
  }

  function DigitChar(d: nat): (c: char)
    requires d < 10
    ensures IsDigit(c) && (c as int) - ('0' as int) == d
  {
    (('0' as int) + d) as char
  }

  /** Decimal value of a string of digits (the inverse of `NatToString`). */
  function DigitsValue(s: string): (n: nat)
    requires forall k :: 0 <= k < |s| ==> IsDigit(s[k])
    decreases |s|
  {
    if s == [] then 0
    else
      assert IsDigit(s[|s| - 1]);
      10 * DigitsValue(s[..|s| - 1]) + ((s[|s| - 1] as int) - ('0' as int))
  }

  /** `n.toString()` for a non-negative integer: shortest decimal form, no leading zero. */
  function NatToString(n: nat): (s: string)
    ensures |s| >= 1
    ensures forall k :: 0 <= k < |s| ==> IsDigit(s[k])
    ensures n < 10 <==> |s| == 1
    ensures |s| > 1 ==> s[0] != '0'
    decreases n
  {
    if n < 10 then [DigitChar(n)] else NatToString(n / 10) + [DigitChar(n % 10)]
  }

  /** Reading back what `NatToString` prints gives the number again. */
  lemma {:induction false} NatToStringRoundTrip(n: nat)
    ensures DigitsValue(NatToString(n)) == n
    decreases n
  {
    var s := NatToString(n);
    if n >= 10 {
      NatToStringRoundTrip(n / 10);
      assert s[..|s| - 1] == NatToString(n / 10);
    }
  }

  /** Number of characters `NatToString` prints for one- to four-digit numbers. */
  lemma {:induction false} NatToStringLength(n: nat)
    ensures n < 10 ==> |NatToString(n)| == 1
    ensures 10 <= n < 100 ==> |NatToString(n)| == 2
    ensures 100 <= n < 1000 ==> |NatToString(n)| == 3
    ensures 1000 <= n < 10000 ==> |NatToString(n)| == 4
    decreases n
  {
    if n >= 10 {
      NatToStringLength(n / 10);
    }
  }

  /** `n.toString()` for any integer (a leading minus sign for negative values). */
  function IntToString(n: int): (s: string)
    ensures n >= 0 ==> s == NatToString(n)
    ensures n < 0 ==> s == "-" + NatToString(-n)
  {
    if n < 0 then "-" + NatToString(-n) else NatToString(n)
  }

  function BoolToString(b: bool): string {
    if b then "true" else "false"
  }

  function Repeat(c: char, n: nat): (s: string)
    ensures |s| == n && forall k :: 0 <= k < n ==> s[k] == c
  {
    seq(n, _ => c)
  }

  /** `s.padStart(width, c)`: `s` itself when it is already `width` long, otherwise
      `s` preceded by as many copies of `c` as make it `width` long. */
  function PadStart(s: string, width: nat, c: char): (r: string)
    ensures |r| == if |s| >= width then |s| else width
    ensures r[|r| - |s|..] == s
    ensures forall k :: 0 <= k < |r| - |s| ==> r[k] == c
  {
    if |s| >= width then s else Repeat(c, width - |s|) + s
  }

  /** `parts.join(sep)`. */
  function Join(parts: seq<string>, sep: string): (r: string)
    ensures parts == [] ==> r == ""
    ensures |parts| == 1 ==> r == parts[0]
    decreases |parts|
  {
    if parts == [] then ""
    else if |parts| == 1 then parts[0]
    else parts[0] + sep + Join(parts[1..], sep)
  }

  /** Joining two non-empty lists puts one separator between their joins. */
  lemma {:induction false} JoinAppend(xs: seq<string>, ys: seq<string>, sep: string)
    requires xs != [] && ys != []
    ensures Join(xs + ys, sep) == Join(xs, sep) + sep + Join(ys, sep)
    decreases |xs|
  {
    if |xs| == 1 {
      assert (xs + ys)[1..] == ys;
    } else {
      assert (xs + ys)[1..] == xs[1..] + ys;
      JoinAppend(xs[1..], ys, sep);
    }
  }

  /** The join starts with the first part and ends with the last. */
  lemma {:induction false} JoinEnds(parts: seq<string>, sep: string)
    requires parts != []
    ensures StartsWith(Join(parts, sep), parts[0])
    ensures EndsWith(Join(parts, sep), parts[|parts| - 1])
    decreases |parts|
  {
    var r := Join(parts, sep);
    if |parts| > 1 {
      JoinEnds(parts[1..], sep);
      var rest := Join(parts[1..], sep);
      var last := parts[|parts| - 1];
      assert r == parts[0] + (sep + rest);
      assert r[..|parts[0]|] == parts[0];
      assert r[|r| - |last|..] == rest[|rest| - |last|..];
    }
  }

  predicate EndsWith(s: string, suffix: string) {
    |suffix| <= |s| && s[|s| - |suffix|..] == suffix
  }

  predicate StartsWith(s: string, prefix: string) {
    |prefix| <= |s| && s[..|prefix|] == prefix
  }

  /** `s.replaceAll(pattern, replacement)` for a non-empty pattern: scanning from the left,
      every non-overlapping occurrence of `pattern` is replaced. The replacement is
      inserted literally: JavaScript's `$&`, `$1` and `$$` patterns are not interpreted,
      which agrees with `replaceAll` whenever the replacement contains no `$`. */
  function ReplaceAll(s: string, pattern: string, replacement: string): (r: string)
    requires pattern != []
    decreases |s|
  {
    if |s| < |pattern| then s
    else if s[..|pattern|] == pattern then replacement + ReplaceAll(s[|pattern|..], pattern, replacement)
    else [s[0]] + ReplaceAll(s[1..], pattern, replacement)
  }

  /** `pattern` occurs in `s` starting at position `k`. */
  predicate OccursAt(s: string, pattern: string, k: nat) {
    k + |pattern| <= |s| && s[k..k + |pattern|] == pattern
  }

  /** A string in which the pattern does not occur is left unchanged. */
  lemma {:induction false} ReplaceAllWithoutOccurrence(s: string, pattern: string, replacement: string)
    requires pattern != []
    requires forall k: nat :: !OccursAt(s, pattern, k)
    ensures ReplaceAll(s, pattern, replacement) == s
    decreases |s|
  {
    if |s| >= |pattern| {
      assert !OccursAt(s, pattern, 0);
      assert s[0..|pattern|] == s[..|pattern|];
      var tail := s[1..];
      forall k: nat
        ensures !OccursAt(tail, pattern, k)
      {
        if k + |pattern| <= |tail| {
          assert tail[k..k + |pattern|] == s[k + 1..k + 1 + |pattern|];
          assert !OccursAt(s, pattern, k + 1);
        }
      }
      ReplaceAllWithoutOccurrence(tail, pattern, replacement);
      assert s == [s[0]] + tail;
    }
  }

  /** Where the pattern starts, it is replaced. */
  lemma ReplaceAllAtHead(s: string, pattern: string, replacement: string)
    requires pattern != [] && OccursAt(s, pattern, 0)
    ensures ReplaceAll(s, pattern, replacement) == replacement + ReplaceAll(s[|pattern|..], pattern, replacement)
  {
    assert s[..|pattern|] == s[0..|pattern|];
  }

  /** Where the pattern does not start, the first character is copied. */
  lemma ReplaceAllSkip(s: string, pattern: string, replacement: string)
    requires pattern != [] && |s| >= |pattern| && !OccursAt(s, pattern, 0)
    ensures ReplaceAll(s, pattern, replacement) == [s[0]] + ReplaceAll(s[1..], pattern, replacement)
  {
    assert s[0..|pattern|] == s[..|pattern|];
  }

  /** A text without the pattern's first character, followed by the pattern: the text is
      copied and the pattern replaced. */
  lemma {:induction false} ReplaceAllAfterPrefix(u: string, pattern: string, replacement: string)
    requires pattern != []
    requires forall k :: 0 <= k < |u| ==> u[k] != pattern[0]
    ensures ReplaceAll(u + pattern, pattern, replacement) == u + replacement
    decreases |u|
  {
    var s := u + pattern;
    if u == [] {
      assert s == pattern;
      assert s[0..|pattern|] == pattern;
      ReplaceAllAtHead(s, pattern, replacement);
      assert s[|pattern|..] == [];
    } else {
      assert s[0..|pattern|][0] == u[0];
      ReplaceAllSkip(s, pattern, replacement);
      assert s[1..] == u[1..] + pattern;
      ReplaceAllAfterPrefix(u[1..], pattern, replacement);
      assert u == [u[0]] + u[1..];
    }
  }

  /** The first occurrence of the pattern is replaced, the text before it copied, and the
      scan resumes after it. */
  lemma {:induction false} ReplaceAllFirstOccurrence(u: string, w: string, pattern: string, replacement: string)
    requires pattern != []
    requires forall k :: 0 <= k < |u| ==> !OccursAt(u + pattern + w, pattern, k)
    ensures ReplaceAll(u + pattern + w, pattern, replacement) == u + replacement + ReplaceAll(w, pattern, replacement)
    decreases |u|
  {
    var s := u + pattern + w;
    if u == [] {
      assert s == pattern + w;
      assert s[0..|pattern|] == pattern;
      ReplaceAllAtHead(s, pattern, replacement);
      assert s[|pattern|..] == w;
    } else {
      assert !OccursAt(s, pattern, 0);
      ReplaceAllSkip(s, pattern, replacement);
      NoOccurrenceInTail(u, w, pattern);
      assert s[1..] == u[1..] + pattern + w;
      ReplaceAllFirstOccurrence(u[1..], w, pattern, replacement);
      assert u == [u[0]] + u[1..];
    }
  }

  lemma NoOccurrenceInTail(u: string, w: string, pattern: string)
    requires u != []
    requires forall k :: 0 <= k < |u| ==> !OccursAt(u + pattern + w, pattern, k)
    ensures forall k :: 0 <= k < |u[1..]| ==> !OccursAt(u[1..] + pattern + w, pattern, k)
  {
    var s := u + pattern + w;
    assert s[1..] == u[1..] + pattern + w;
    forall k | 0 <= k < |u[1..]|
      ensures !OccursAt(u[1..] + pattern + w, pattern, k)
    {
      OccursAtShift(s, pattern, k);
    }
  }

  /** An occurrence in the tail of a text is one position further in the text. */
  lemma OccursAtShift(s: string, pattern: string, k: nat)
    requires |s| > 0
    ensures OccursAt(s[1..], pattern, k) <==> OccursAt(s, pattern, k + 1)
  {
    if k + |pattern| <= |s[1..]| {
      assert s[1..][k..k + |pattern|] == s[k + 1..k + 1 + |pattern|];
    }
  }
}
