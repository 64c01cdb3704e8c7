/**
 * String helpers the publishers rely on: the two trims (Java's `String.trim`
 * and Kotlin's `trim`), Kotlin's `isBlank`, ASCII case folding for
 * `lowercase()` and `equals(ignoreCase = true)`, decimal rendering of an
 * `Int`, and the "contains" relation used to talk about error messages.
 */
module Text {

  /** Which library's notion of white space a trim or blank check uses. */
  datatype SpaceRule =
    | JavaTrim     // String.trim: every code point up to U+0020
    | KotlinSpace  // Char.isWhitespace on the JVM

  predicate IsSpace(rule: SpaceRule, c: char)
  {
    match rule
    case JavaTrim => c <= ' '
    case KotlinSpace =>
      c == ' ' || '\t' <= c <= '\r' || '\U{1C}' <= c <= '\U{1F}'
      || c == '\U{A0}' || c == '\U{1680}' || '\U{2000}' <= c <= '\U{200A}'
      || c == '\U{2028}' || c == '\U{2029}' || c == '\U{202F}'
      || c == '\U{205F}' || c == '\U{3000}'
  }

  /** Kotlin's `isBlank` (and the Java-side analogue): only white space. */
  predicate IsBlank(rule: SpaceRule, s: string)
  {
    forall i :: 0 <= i < |s| ==> IsSpace(rule, s[i])
  }

  /** How many white-space characters open `s`. */
  function LeadingSpaces(rule: SpaceRule, s: string): (n: nat)
    ensures n <= |s|
    ensures forall i :: 0 <= i < n ==> IsSpace(rule, s[i])
    ensures n < |s| ==> !IsSpace(rule, s[n])
  {
    if s == [] || !IsSpace(rule, s[0]) then 0 else 1 + LeadingSpaces(rule, s[1..])
  }

  /** How many white-space characters close `s`. */
  function TrailingSpaces(rule: SpaceRule, s: string): (n: nat)
    ensures n <= |s|
    ensures forall i :: |s| - n <= i < |s| ==> IsSpace(rule, s[i])
    ensures n < |s| ==> !IsSpace(rule, s[|s| - n - 1])
  {
    if s == [] || !IsSpace(rule, s[|s| - 1]) then 0
    else 1 + TrailingSpaces(rule, s[..|s| - 1])
  }

  /**
   * `trim()`: drop leading and trailing white space. `s` splits into a
   * blank prefix, the result and a blank suffix; the result is empty
   * exactly when `s` is blank, and otherwise starts and ends with a
   * non-space character.
   */
  function Trim(rule: SpaceRule, s: string): (r: string)
    ensures |r| <= |s|
    ensures LeadingSpaces(rule, s) + |r| <= |s|
    ensures IsBlank(rule, s[..LeadingSpaces(rule, s)])
    ensures r == s[LeadingSpaces(rule, s)..LeadingSpaces(rule, s) + |r|]
    ensures IsBlank(rule, s[LeadingSpaces(rule, s) + |r|..])
    ensures r == [] <==> IsBlank(rule, s)
    ensures r != [] ==> !IsSpace(rule, r[0]) && !IsSpace(rule, r[|r| - 1])
  {
    var a := LeadingSpaces(rule, s);
    var rest := s[a..];
    var n := TrailingSpaces(rule, rest);
    var r := rest[..|rest| - n];
    assert r == [] ==> IsBlank(rule, s) by {
      if a < |s| { assert !IsSpace(rule, rest[0]); }
    }
    var prefix, suffix := s[..a], s[a + |r|..];
    forall i | 0 <= i < |prefix| ensures IsSpace(rule, prefix[i]) {
      assert prefix[i] == s[i];
    }
    forall i | 0 <= i < |suffix| ensures IsSpace(rule, suffix[i]) {
      assert suffix[i] == rest[|rest| - n + i];
    }
    r
  }

  /** Trimming twice is trimming once. */
  lemma TrimIdempotent(rule: SpaceRule, s: string)
    ensures Trim(rule, Trim(rule, s)) == Trim(rule, s)
  {
    var r := Trim(rule, s);
    if r != [] {
      assert LeadingSpaces(rule, r) == 0;
      assert TrailingSpaces(rule, r) == 0;
    }
  }

  /** `s.trim().isBlank()` holds exactly when `s.isBlank()` does. */
  lemma TrimmedBlankIffBlank(rule: SpaceRule, s: string)
    ensures IsBlank(rule, Trim(rule, s)) <==> IsBlank(rule, s)
  {
    var r := Trim(rule, s);
    if r != [] { assert !IsSpace(rule, r[0]); }
  }

  /** ASCII lower-casing of one character. */
  function LowerChar(c: char): (d: char)
    ensures 'A' <= c <= 'Z' ==> 'a' <= d <= 'z' && d as int - 'a' as int == c as int - 'A' as int
    ensures !('A' <= c <= 'Z') ==> d == c
  {
    if 'A' <= c <= 'Z' then (c as int - 'A' as int + 'a' as int) as char else c
  }

  /** Kotlin's `lowercase()`, restricted to ASCII letters. */
  function Lowercase(s: string): (r: string)
    ensures |r| == |s|
    ensures forall i :: 0 <= i < |s| ==> r[i] == LowerChar(s[i])
  {
    if s == [] then [] else [LowerChar(s[0])] + Lowercase(s[1..])
  }

  /** Kotlin's `equals(other, ignoreCase = true)`, with ASCII case folding. */
  predicate EqualsIgnoreCase(a: string, b: string)
  {
    |a| == |b| && forall i :: 0 <= i < |a| ==> LowerChar(a[i]) == LowerChar(b[i])
  }

  /** Ignoring case is comparing the lower-cased strings. */
  lemma EqualsIgnoreCaseIffLowercaseEqual(a: string, b: string)
    ensures EqualsIgnoreCase(a, b) <==> Lowercase(a) == Lowercase(b)
  {
    if Lowercase(a) == Lowercase(b) {
      assert |a| == |b|;
      forall i | 0 <= i < |a| ensures LowerChar(a[i]) == LowerChar(b[i]) {
        assert Lowercase(a)[i] == Lowercase(b)[i];
      }
    }
  }

  /** Case-insensitive equality is an equivalence that contains equality. */
  lemma EqualsIgnoreCaseIsEquivalence(a: string, b: string, c: string)
    ensures EqualsIgnoreCase(a, a)
    ensures EqualsIgnoreCase(a, b) ==> EqualsIgnoreCase(b, a)
    ensures EqualsIgnoreCase(a, b) && EqualsIgnoreCase(b, c) ==> EqualsIgnoreCase(a, c)
  {
  }

  predicate IsDigit(c: char)
  {
    '0' <= c <= '9'
  }

  function DigitChar(d: nat): (c: char)
    requires d < 10
    ensures IsDigit(c)
  {
    ('0' as int + d) as char
  }

  /** The number a string of decimal digits denotes, most significant first. */
  function DigitsValue(s: string): nat
    requires forall i :: 0 <= i < |s| ==> IsDigit(s[i])
  {
    if s == [] then 0
    else
      assert IsDigit(s[|s| - 1]);
      10 * DigitsValue(s[..|s| - 1]) + (s[|s| - 1] as int - '0' as int)
  }

  /** The decimal digits of `n`, most significant first, with no leading zero. */
  function Digits(n: nat): (s: string)
    ensures |s| >= 1
    ensures forall i :: 0 <= i < |s| ==> IsDigit(s[i])
    ensures DigitsValue(s) == n
    ensures s[0] != '0' || |s| == 1
    ensures n >= 10 ==> |s| >= 2
    decreases n
  {
    if n < 10 then [DigitChar(n)]
    else
      var s := Digits(n / 10) + [DigitChar(n % 10)];
      assert s[..|s| - 1] == Digits(n / 10);
      s
  }

  /** `Int.toString()` / string concatenation of an `int`: optional minus, then digits. */
  function DecimalString(n: int): (s: string)
    ensures s != []
    ensures s[0] == '-' <==> n < 0
    ensures n < 0 ==> |s| >= 2 && (forall i :: 1 <= i < |s| ==> IsDigit(s[i])) && DigitsValue(s[1..]) == -n
    ensures n >= 0 ==> (forall i :: 0 <= i < |s| ==> IsDigit(s[i])) && DigitsValue(s) == n
    ensures n >= 0 ==> s[0] != '0' || |s| == 1
    ensures n < 0 ==> s[1] != '0'
  {
    if n < 0 then
      var s := "-" + Digits(-n);
      assert s[1..] == Digits(-n);
      s
    else Digits(n)
  }

  /** Different numbers have different digit strings. */
  lemma {:induction false} DigitsInjective(a: nat, b: nat)
    ensures Digits(a) == Digits(b) ==> a == b
    decreases a
  {
    if Digits(a) == Digits(b) {
      if a < 10 && b < 10 {
        assert Digits(a)[0] == Digits(b)[0];
      } else if a >= 10 && b >= 10 {
        var da, db := Digits(a / 10), Digits(b / 10);
        assert Digits(a) == da + [DigitChar(a % 10)];
        assert Digits(b) == db + [DigitChar(b % 10)];
        assert |da| == |db|;
        assert da == Digits(a)[..|da|] && db == Digits(b)[..|db|];
        assert DigitChar(a % 10) == Digits(a)[|da|] == Digits(b)[|db|] == DigitChar(b % 10);
        DigitsInjective(a / 10, b / 10);
      }
    }
  }

  /** Different integers render differently, so a derived name identifies its number. */
  lemma DecimalStringInjective(a: int, b: int)
    ensures DecimalString(a) == DecimalString(b) ==> a == b
  {
    if DecimalString(a) == DecimalString(b) {
      if a < 0 && b < 0 {
        assert Digits(-a) == DecimalString(a)[1..];
        assert Digits(-b) == DecimalString(b)[1..];
        DigitsInjective(-a, -b);
      } else if a >= 0 && b >= 0 {
        DigitsInjective(a, b);
      }
    }
  }

  /** `part` occurs in `whole` starting at position `i`. */
  predicate OccursAt(whole: string, part: string, i: nat)
  {
    i + |part| <= |whole| && whole[i..i + |part|] == part
  }

  /** `part` occurs somewhere in `whole`. */
  ghost predicate Contains(whole: string, part: string)
  {
    exists i: nat :: OccursAt(whole, part, i)
  }

  /** A string occurs at the end of anything it closes. */
  lemma ContainsSuffix(before: string, part: string)
    ensures Contains(before + part, part)
  {
    assert (before + part)[|before|..|before| + |part|] == part;
    assert OccursAt(before + part, part, |before|);
  }

  /** Appending to a string keeps whatever occurs in it. */
  lemma ContainsExtended(whole: string, part: string, after: string)
    requires Contains(whole, part)
    ensures Contains(whole + after, part)
  {
    var i: nat :| OccursAt(whole, part, i);
    assert (whole + after)[i..i + |part|] == whole[i..i + |part|];
    assert OccursAt(whole + after, part, i);
  }

  /** Prefixing the same string keeps distinct suffixes distinct. */
  lemma PrefixedInjective(prefix: string, a: string, b: string)
    ensures prefix + a == prefix + b ==> a == b
  {
    if prefix + a == prefix + b {
      assert a == (prefix + a)[|prefix|..];
      assert b == (prefix + b)[|prefix|..];
    }
  }
}
