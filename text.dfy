/**
 * Strings and SQLite values.
 *
 * The scraper stores text taken from web pages into SQLite columns declared
 * INTEGER or NUMERIC. SQLite turns such text into an integer when it is an
 * integer literal, and keeps text that does not read as a number as TEXT;
 * text such as "85.0" or "1e2", which SQLite also reads as a number, is
 * outside this model. A comparison
 * between a stored TEXT value and an integer constant then follows SQLite's
 * rule that every TEXT value is greater than every number, and any comparison
 * with NULL is not true. This module gives those rules, JavaScript's decimal
 * printing of integers, and the case-insensitive `LIKE '%suffix'` match.
 */
module Text {
  import opened Options

  /** A value as SQLite stores it in a column with INTEGER or NUMERIC affinity. */
  datatype Cell = Int(n: int) | Txt(s: string) | Null

  predicate IsDigit(c: char) {
    '0' <= c <= '9'
  }

  predicate AllDigits(s: string) {
    forall i :: 0 <= i < |s| ==> IsDigit(s[i])
  }

  function DigitChar(d: nat): (c: char)
    requires d < 10
    ensures IsDigit(c)
  {
    ('0' as int + d) as char
  }

  function DigitValue(c: char): (d: nat)
    requires IsDigit(c)
    ensures d < 10 && DigitChar(d) == c
  {
    (c as int) - ('0' as int)
  }

  /** The decimal digits of `n`, most significant first. */
  function NatToDigits(n: nat): (s: string)
    ensures |s| > 0 && AllDigits(s)
    ensures |s| > 1 ==> s[0] != '0'
  {
    if n < 10 then [DigitChar(n)] else NatToDigits(n / 10) + [DigitChar(n % 10)]
  }

  /** The number a string of decimal digits denotes (leading zeros allowed). */
  function DigitsValue(s: string): nat
    requires AllDigits(s)
  {
    if s == [] then 0 else 10 * DigitsValue(s[..|s| - 1]) + DigitValue(s[|s| - 1])
  }

  /** Reading back the digits of `n` gives `n`. */
  lemma {:induction false} DigitsRoundTrip(n: nat)
    ensures DigitsValue(NatToDigits(n)) == n
  {
    var s := NatToDigits(n);
    if n >= 10 {
      assert s[..|s| - 1] == NatToDigits(n / 10);
      DigitsRoundTrip(n / 10);
    }
  }

  /** JavaScript's conversion of an integer to a string (`'' + n`). */
  function IntToString(n: int): string {
    if n < 0 then "-" + NatToDigits(-n) else NatToDigits(n)
  }

  /** At least one decimal digit and nothing else. */
  predicate IsUnsigned(s: string) {
    |s| > 0 && AllDigits(s)
  }

  /** An integer literal: digits, optionally after one '-' or '+'. */
  predicate IsIntLiteral(s: string) {
    IsUnsigned(s) || (|s| > 0 && (s[0] == '-' || s[0] == '+') && IsUnsigned(s[1..]))
  }

  /**
   * The value SQLite stores when text `s` is written into an INTEGER or
   * NUMERIC column, for the integer literals this model reads: an integer
   * literal becomes that integer, and any other text stays text.
   */
  function IntegerAffinity(s: string): (c: Cell)
    ensures c.Int? <==> IsIntLiteral(s)
    ensures c.Txt? <==> !IsIntLiteral(s)
    ensures c.Txt? ==> c.s == s
    ensures IsUnsigned(s) ==> c == Int(DigitsValue(s))
    ensures |s| > 0 && s[0] == '-' && IsUnsigned(s[1..]) ==> c == Int(-(DigitsValue(s[1..]) as int))
    ensures |s| > 0 && s[0] == '+' && IsUnsigned(s[1..]) ==> c == Int(DigitsValue(s[1..]))
  {
    if IsUnsigned(s) then Int(DigitsValue(s))
    else if |s| > 1 && s[0] == '-' && AllDigits(s[1..]) then Int(-(DigitsValue(s[1..]) as int))
    else if |s| > 1 && s[0] == '+' && AllDigits(s[1..]) then Int(DigitsValue(s[1..]))
    else Txt(s)
  }

  /** Printing an integer and storing the text in an INTEGER column gives back the integer. */
  lemma IntToStringStoresInt(n: int)
    ensures IntegerAffinity(IntToString(n)) == Int(n)
  {
    if n < 0 {
      var s := IntToString(n);
      assert s[1..] == NatToDigits(-n);
      assert !IsDigit(s[0]);
      DigitsRoundTrip(-n);
    } else {
      DigitsRoundTrip(n);
    }
  }

  /** Distinct integers print differently. */
  lemma IntToStringInjective(n: int, m: int)
    requires IntToString(n) == IntToString(m)
    ensures n == m
  {
    IntToStringStoresInt(n);
    IntToStringStoresInt(m);
  }

  function LowerAscii(c: char): char {
    if 'A' <= c <= 'Z' then (c as int + 32) as char else c
  }

  function LowerAsciiString(s: string): (r: string)
    ensures |r| == |s|
    ensures forall i :: 0 <= i < |s| ==> r[i] == LowerAscii(s[i])
  {
    if s == [] then [] else [LowerAscii(s[0])] + LowerAsciiString(s[1..])
  }

  /**
   * SQLite's `t LIKE '%' + suffix` for a suffix without wildcards: `t` ends
   * with `suffix`, ASCII letters compared without regard to case.
   */
  predicate LikeSuffix(t: string, suffix: string) {
    |t| >= |suffix| && LowerAsciiString(t[|t| - |suffix|..]) == LowerAsciiString(suffix)
  }

  /** SQLite's `c >= k` for an integer constant `k`, counted true only when it is TRUE. */
  predicate SqlAtLeast(c: Cell, k: int) {
    match c
    case Int(n) => n >= k
    case Txt(_) => true
    case Null => false
  }

  /** SQLite's `c <= k` for an integer constant `k`, counted true only when it is TRUE. */
  predicate SqlAtMost(c: Cell, k: int) {
    match c
    case Int(n) => n <= k
    case Txt(_) => false
    case Null => false
  }

  /** `prefix` begins `s`. */
  predicate StartsWith(s: string, prefix: string) {
    |prefix| <= |s| && s[..|prefix|] == prefix
  }

  /** The integer a string spells, as JavaScript would print it back; `None` for other text. */
  function ParseInt(s: string): (r: Option<int>)
    ensures r.Some? ==> IntegerAffinity(s) == Int(r.value)
  {
    match IntegerAffinity(s)
    case Int(n) => Some(n)
    case _ => None
  }
}
