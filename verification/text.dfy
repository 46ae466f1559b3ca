/** String helpers with Python's semantics: `str.isspace`, `str.strip()`,
    `str.startswith` and the decimal rendering of a non-negative `int` inside
    an f-string. Strings are sequences of Unicode scalar values. */
module Text {

  /** The characters for which Python's `str.isspace()` holds, which are exactly
      the characters `str.strip()` without arguments removes. */
  predicate IsWhitespace(c: char) {
    var n := c as int;
    || (0x09 <= n <= 0x0D)
    || (0x1C <= n <= 0x20)
    || n == 0x85
    || n == 0xA0
    || n == 0x1680
    || (0x2000 <= n <= 0x200A)
    || n == 0x2028
    || n == 0x2029
    || n == 0x202F
    || n == 0x205F
    || n == 0x3000
  }

  /** Every character of `s` is whitespace. */
  predicate AllWhitespace(s: string) {
    BlankBetween(s, 0, |s|)
  }

  /** Every character of `s[lo..hi]` is whitespace. */
  predicate BlankBetween(s: string, lo: nat, hi: nat)
    requires lo <= hi <= |s|
  {
    forall k :: lo <= k < hi ==> IsWhitespace(s[k])
  }

  /** The index of the first character at or after `lo` that is not whitespace,
      or `|s|` when there is none. */
  function SkipLeading(s: string, lo: nat): (i: nat)
    requires lo <= |s|
    ensures lo <= i <= |s|
    ensures BlankBetween(s, lo, i)
    ensures i < |s| ==> !IsWhitespace(s[i])
    decreases |s| - lo
  {
    if lo < |s| && IsWhitespace(s[lo]) then SkipLeading(s, lo + 1) else lo
  }

  /** The end of `s[lo..hi]` once its trailing whitespace is dropped. */
  function SkipTrailing(s: string, lo: nat, hi: nat): (j: nat)
    requires lo <= hi <= |s|
    ensures lo <= j <= hi
    ensures BlankBetween(s, j, hi)
    ensures j > lo ==> !IsWhitespace(s[j - 1])
  {
    if lo < hi && IsWhitespace(s[hi - 1]) then SkipTrailing(s, lo, hi - 1) else hi
  }

  /** `s.strip()`: `s` without its leading and trailing whitespace. What it
      keeps is one contiguous piece of `s`, starting after the leading
      whitespace, with only whitespace on either side. */
  function Strip(s: string): (r: string)
    ensures var i := SkipLeading(s, 0);
            && i + |r| <= |s|
            && r == s[i..i + |r|]
            && BlankBetween(s, 0, i)
            && BlankBetween(s, i + |r|, |s|)
    ensures r == [] || (!IsWhitespace(r[0]) && !IsWhitespace(r[|r| - 1]))
  {
    var i := SkipLeading(s, 0);
    s[i..SkipTrailing(s, i, |s|)]
  }

  /** The stripped message is empty exactly when the input is whitespace only. */
  lemma StripEmptyIffBlank(s: string)
    ensures Strip(s) == [] <==> AllWhitespace(s)
  {
  }

  /** Stripping twice is stripping once. */
  lemma StripIdempotent(s: string)
    ensures Strip(Strip(s)) == Strip(s)
  {
  }

  /** `s.startswith(prefix)`. */
  predicate StartsWith(s: string, prefix: string) {
    |prefix| <= |s| && s[..|prefix|] == prefix
  }

  predicate IsDigit(c: char) {
    '0' as int <= c as int <= '9' as int
  }

  function DigitChar(d: nat): (c: char)
    requires d < 10
    ensures IsDigit(c) && (c as int) - ('0' as int) == d
  {
    (('0' as int) + d) as char
  }

  /** The decimal rendering of `n`, as `f"{n}"` produces it: digits only,
      without leading zeros. */
  function NatToString(n: nat): (r: string)
    ensures |r| >= 1
    ensures forall k :: 0 <= k < |r| ==> IsDigit(r[k])
    ensures r[0] == '0' ==> n == 0 && r == "0"
  {
    if n < 10 then [DigitChar(n)] else NatToString(n / 10) + [DigitChar(n % 10)]
  }

  /** The value of a string of decimal digits. */
  function ParseDigits(s: string): nat
    requires forall k :: 0 <= k < |s| ==> IsDigit(s[k])
  {
    if |s| == 0 then 0
    else
      assert IsDigit(s[|s| - 1]);
      ParseDigits(s[..|s| - 1]) * 10 + (s[|s| - 1] as int - '0' as int)
  }

  /** Reading back the decimal rendering gives the number. */
  lemma {:induction false} ParseNatToString(n: nat)
    ensures ParseDigits(NatToString(n)) == n
  {
    if n >= 10 {
      var r := NatToString(n);
      assert r[..|r| - 1] == NatToString(n / 10);
      ParseNatToString(n / 10);
    }
  }

  /** Distinct numbers have distinct decimal renderings. */
  lemma {:induction false} NatToStringInjective(a: nat, b: nat)
    requires a != b
    ensures NatToString(a) != NatToString(b)
  {
    ParseNatToString(a);
    ParseNatToString(b);
  }
}
