/** The handful of Kotlin string operations the modelled code relies on:
    `trim`, `isBlank`, `split`, `startsWith(ignoreCase = true)`, `removePrefix`,
    `take`, `takeLast`, `repeat`, `joinToString` and integer formatting.
    Strings are sequences of Unicode scalar values. */
module Strings {

  /** Kotlin's `Char.isWhitespace()` on the JVM: Java whitespace or a Unicode
      space separator (which adds the no-break spaces). */
  predicate IsWhitespace(c: char) {
    ('\t' <= c <= '\r') || ('\U{1C}' <= c <= ' ') || c == '\U{A0}' || c == '\U{1680}'
    || ('\U{2000}' <= c <= '\U{200A}') || c == '\U{2028}' || c == '\U{2029}' || c == '\U{202F}'
    || c == '\U{205F}' || c == '\U{3000}'
  }

  /** Kotlin's `isBlank()`: empty or whitespace only. */
  predicate IsBlank(s: string) {
    forall i :: 0 <= i < |s| ==> IsWhitespace(s[i])
  }

  function TrimStart(s: string): (r: string)
    ensures |r| <= |s| && r == s[|s| - |r|..]
    ensures r != [] ==> !IsWhitespace(r[0])
    ensures forall i :: 0 <= i < |s| - |r| ==> IsWhitespace(s[i])
  {
    if s != [] && IsWhitespace(s[0]) then TrimStart(s[1..]) else s
  }

  function TrimEnd(s: string): (r: string)
    ensures |r| <= |s| && r == s[..|r|]
    ensures r != [] ==> !IsWhitespace(r[|r| - 1])
    ensures forall i :: |r| <= i < |s| ==> IsWhitespace(s[i])
  {
    if s != [] && IsWhitespace(s[|s| - 1]) then TrimEnd(s[..|s| - 1]) else s
  }

  /** Kotlin's `String.trim()`: drops leading and trailing whitespace. */
  function Trim(s: string): string {
    TrimEnd(TrimStart(s))
  }

  /** Blank strings are exactly those that trim to nothing. */
  lemma {:induction false} BlankIffTrimEmpty(s: string)
    ensures IsBlank(s) <==> Trim(s) == []
  {
    if s != [] && IsWhitespace(s[0]) {
      BlankIffTrimEmpty(s[1..]);
      assert IsBlank(s) <==> IsBlank(s[1..]);
    } else if s != [] {
      assert TrimStart(s) == s;
      assert !IsBlank(s);
    }
  }

  /** The number of occurrences of `c` in `s`. */
  function Count(s: string, c: char): nat {
    if s == [] then 0 else (if s[0] == c then 1 else 0) + Count(s[1..], c)
  }

  /** Counting distributes over concatenation. */
  lemma {:induction false} CountConcat(a: string, b: string, c: char)
    ensures Count(a + b, c) == Count(a, c) + Count(b, c)
  {
    if a != [] {
      assert (a + b)[1..] == a[1..] + b;
      CountConcat(a[1..], b, c);
    } else {
      assert a + b == b;
    }
  }

  /** No occurrence counts as zero. */
  lemma {:induction false} CountAbsent(s: string, c: char)
    requires forall i :: 0 <= i < |s| ==> s[i] != c
    ensures Count(s, c) == 0
  {
    if s != [] {
      CountAbsent(s[1..], c);
    }
  }

  /** Kotlin's `split(sep)` for a one-character delimiter: every piece, empty
      pieces (also trailing ones) included. */
  function Split(s: string, sep: char): (parts: seq<string>)
    ensures |parts| >= 1
  {
    if s == [] then [[]]
    else
      var rest := Split(s[1..], sep);
      if s[0] == sep then [[]] + rest else [[s[0]] + rest[0]] + rest[1..]
  }

  /** Kotlin's `joinToString(separator)`. */
  function Join(parts: seq<string>, sep: string): string {
    if parts == [] then []
    else if |parts| == 1 then parts[0]
    else parts[0] + sep + Join(parts[1..], sep)
  }

  /** Splitting yields one more piece than there are delimiters, no piece
      holds the delimiter, and joining the pieces back gives the input. */
  lemma {:induction false} SplitProperties(s: string, sep: char)
    ensures |Split(s, sep)| == Count(s, sep) + 1
    ensures forall k, i :: 0 <= k < |Split(s, sep)| && 0 <= i < |Split(s, sep)[k]| ==> Split(s, sep)[k][i] != sep
    ensures Join(Split(s, sep), [sep]) == s
  {
    if s != [] {
      var rest := Split(s[1..], sep);
      SplitProperties(s[1..], sep);
      if s[0] == sep {
        assert Split(s, sep) == [[]] + rest;
        assert Join([[]] + rest, [sep]) == [] + [sep] + Join(rest, [sep]);
      } else {
        var parts := Split(s, sep);
        assert parts == [[s[0]] + rest[0]] + rest[1..];
        assert parts[1..] == rest[1..];
        if |rest| == 1 {
          assert Join(parts, [sep]) == [s[0]] + rest[0];
          assert Join(rest, [sep]) == rest[0];
        } else {
          assert Join(parts, [sep]) == [s[0]] + rest[0] + [sep] + Join(rest[1..], [sep]);
          assert Join(rest, [sep]) == rest[0] + [sep] + Join(rest[1..], [sep]);
        }
        forall k, i | 0 <= k < |parts| && 0 <= i < |parts[k]| ensures parts[k][i] != sep {
          if k == 0 && i > 0 { assert parts[0][i] == rest[0][i - 1]; }
          if k > 0 { assert parts[k] == rest[k]; }
        }
      }
    }
  }

  /** A delimiter closes the last piece of the text before it. */
  lemma {:induction false} SplitConcat(a: string, b: string, sep: char)
    ensures Split(a + [sep] + b, sep) == Split(a, sep) + Split(b, sep)
  {
    if a == [] {
      assert a + [sep] + b == [sep] + b;
      assert ([sep] + b)[1..] == b;
    } else {
      var s := a + [sep] + b;
      assert s[0] == a[0] && s[1..] == a[1..] + [sep] + b;
      SplitConcat(a[1..], b, sep);
    }
  }

  /** Text without the delimiter is a single piece. */
  lemma SplitWithoutDelimiter(w: string, sep: char)
    requires Count(w, sep) == 0
    ensures Split(w, sep) == [w]
  {
    SplitProperties(w, sep);
  }

  /** Splitting undoes joining when no piece holds the delimiter. */
  lemma {:induction false} SplitJoin(parts: seq<string>, sep: char)
    requires |parts| >= 1
    requires forall i :: 0 <= i < |parts| ==> Count(parts[i], sep) == 0
    ensures Split(Join(parts, [sep]), sep) == parts
  {
    if |parts| == 1 {
      SplitWithoutDelimiter(parts[0], sep);
    } else {
      SplitJoin(parts[1..], sep);
      SplitConcat(parts[0], Join(parts[1..], [sep]), sep);
      SplitWithoutDelimiter(parts[0], sep);
    }
  }

  /** When `s` holds the delimiter exactly once, at `i`, `split` gives the text
      before it and the text after it. */
  lemma {:induction false} SplitOnce(s: string, sep: char, i: nat)
    requires i < |s| && s[i] == sep && Count(s, sep) == 1
    ensures Split(s, sep) == [s[..i], s[i + 1..]]
  {
    SplitProperties(s, sep);
    if i == 0 {
      SplitProperties(s[1..], sep);
      var rest := Split(s[1..], sep);
      assert |rest| == 1;
      assert Join(rest, [sep]) == rest[0];
    } else {
      assert s[0] != sep;
      SplitOnce(s[1..], sep, i - 1);
      assert s[1..][..i - 1] == s[1..i];
      assert [s[0]] + s[1..i] == s[..i];
      assert s[1..][i..] == s[i + 1..];
    }
  }

  predicate StartsWith(s: string, prefix: string) {
    |prefix| <= |s| && s[..|prefix|] == prefix
  }

  predicate IsAsciiLetter(c: char) {
    'a' <= c <= 'z' || 'A' <= c <= 'Z'
  }

  predicate IsAsciiDigit(c: char) {
    '0' <= c <= '9'
  }

  function AsciiLower(c: char): char {
    if 'A' <= c <= 'Z' then (c as int + 32) as char else c
  }

  /** Kotlin's `Char.equals(a, ignoreCase = true)` against an ASCII character
      `a`: the upper- or lower-case forms agree. Besides the ASCII case pair,
      four other characters fold onto ASCII letters: dotless i and dotted
      capital I onto `i`, long s onto `s`, and the Kelvin sign onto `k`. */
  predicate SameIgnoringCase(c: char, a: char)
    requires a < '\U{80}'
  {
    AsciiLower(c) == AsciiLower(a)
    || (AsciiLower(a) == 'i' && (c == '\U{130}' || c == '\U{131}'))
    || (AsciiLower(a) == 's' && c == '\U{17F}')
    || (AsciiLower(a) == 'k' && c == '\U{212A}')
  }

  predicate IsAscii(s: string) {
    forall i :: 0 <= i < |s| ==> s[i] < '\U{80}'
  }

  /** Kotlin's `startsWith(prefix, ignoreCase = true)` for an ASCII prefix. */
  predicate StartsWithIgnoreCase(s: string, prefix: string)
    requires IsAscii(prefix)
  {
    |prefix| <= |s| && forall i :: 0 <= i < |prefix| ==> SameIgnoringCase(s[i], prefix[i])
  }

  /** Kotlin's `equals(other, ignoreCase = true)` for an ASCII `other`. */
  predicate EqualsIgnoreCase(s: string, other: string)
    requires IsAscii(other)
  {
    |s| == |other| && StartsWithIgnoreCase(s, other)
  }

  /** Kotlin's `removePrefix`: case-sensitive. */
  function RemovePrefix(s: string, prefix: string): (r: string)
    ensures StartsWith(s, prefix) ==> prefix + r == s
    ensures !StartsWith(s, prefix) ==> r == s
  {
    if StartsWith(s, prefix) then s[|prefix|..] else s
  }

  /** Kotlin's `take(n)`: the first `n` characters, or all of them. */
  function Take(s: string, n: nat): (r: string)
    ensures |r| == if n < |s| then n else |s|
    ensures StartsWith(s, r)
  {
    if n < |s| then s[..n] else s
  }

  /** Kotlin's `takeLast(n)`. */
  function TakeLast(s: string, n: nat): (r: string)
    ensures |r| == if n < |s| then n else |s|
    ensures r == s[|s| - |r|..]
  {
    if n < |s| then s[|s| - n..] else s
  }

  /** Kotlin's `repeat(n)` of a one-character string. */
  function Repeat(c: char, n: nat): (r: string)
    ensures |r| == n && forall i :: 0 <= i < n ==> r[i] == c
  {
    seq(n, _ => c)
  }

  function DigitChar(d: nat): char
    requires d < 10
  {
    ('0' as int + d) as char
  }

  /** Decimal text of a natural number, as `toString()` prints it. */
  function NatToString(n: nat): (r: string)
    ensures r != [] && forall i :: 0 <= i < |r| ==> IsAsciiDigit(r[i])
  {
    if n < 10 then [DigitChar(n)] else NatToString(n / 10) + [DigitChar(n % 10)]
  }

  /** Decimal text of a `Long`, as `toString()` prints it. */
  function IntToString(n: int): (r: string)
    ensures r != [] && (IsAsciiDigit(r[0]) || r[0] == '-')
    ensures forall i :: 0 < i < |r| ==> IsAsciiDigit(r[i])
  {
    if n >= 0 then NatToString(n) else "-" + NatToString(-n)
  }

  /** A number of two digits or more prints one digit longer than its
      tenth. */
  lemma NatToStringStep(n: nat)
    requires n >= 10
    ensures |NatToString(n)| == |NatToString(n / 10)| + 1
  {
  }

  /** A number in 100000..999999 prints as exactly six digits. */
  lemma SixDigits(n: nat)
    requires 100000 <= n <= 999999
    ensures |NatToString(n)| == 6
  {
    var n1 := n / 10;
    var n2 := n1 / 10;
    var n3 := n2 / 10;
    var n4 := n3 / 10;
    var n5 := n4 / 10;
    assert 1 <= n5 < 10;
    NatToStringStep(n4);
    NatToStringStep(n3);
    NatToStringStep(n2);
    NatToStringStep(n1);
    NatToStringStep(n);
  }

  /** Value of a run of decimal digits. */
  function ParseDigits(s: string): nat
    requires forall i :: 0 <= i < |s| ==> IsAsciiDigit(s[i])
  {
    if s == [] then 0
    else
      assert IsAsciiDigit(s[|s| - 1]);
      10 * ParseDigits(s[..|s| - 1]) + (s[|s| - 1] as int - '0' as int)
  }

  /** Reading back the printed digits gives the number. */
  lemma {:induction false} NatToStringRoundTrip(n: nat)
    ensures ParseDigits(NatToString(n)) == n
  {
    var r := NatToString(n);
    if n >= 10 {
      NatToStringRoundTrip(n / 10);
      assert r[..|r| - 1] == NatToString(n / 10);
    }
  }

  /** Distinct numbers print differently. */
  lemma IntToStringInjective(m: int, n: int)
    requires IntToString(m) == IntToString(n)
    ensures m == n
  {
    if m >= 0 && n >= 0 {
      NatToStringRoundTrip(m);
      NatToStringRoundTrip(n);
    } else if m < 0 && n < 0 {
      assert NatToString(-m) == IntToString(m)[1..];
      NatToStringRoundTrip(-m);
      NatToStringRoundTrip(-n);
    }
  }
}
