/**
 * The Kotlin standard-library text operations the list screen relies on,
 * restricted to ASCII: `Char.isDigit`, `Char.isLowerCase`, `Char.titlecase`,
 * `Char.isWhitespace`, `String.takeLastWhile`, `String.toInt`, `Int.toString`,
 * `String.trim`, `String.replaceFirstChar` and `String.contains(_, ignoreCase = true)`.
 */
module Strings {

  predicate IsDigit(c: char) { '0' <= c <= '9' }

  predicate IsLowerCase(c: char) { 'a' <= c <= 'z' }

  predicate IsUpperCase(c: char) { 'A' <= c <= 'Z' }

  /** The ASCII characters for which Kotlin's `Char.isWhitespace` holds. */
  predicate IsWhitespace(c: char) {
    c == ' ' || 9 <= c as int <= 13 || 28 <= c as int <= 31
  }

  predicate AllDigits(s: string) {
    forall i :: 0 <= i < |s| ==> IsDigit(s[i])
  }

  /** `Char.titlecase(Locale.ROOT)` on a lower-case ASCII letter. */
  function TitleCase(c: char): (r: char)
    requires IsLowerCase(c)
    ensures IsUpperCase(r)
    ensures LowerCase(r) == c
  {
    (c as int - 'a' as int + 'A' as int) as char
  }

  /** The case folding that `ignoreCase = true` compares under. */
  function LowerCase(c: char): (r: char)
    ensures !IsUpperCase(r)
    ensures !IsUpperCase(c) ==> r == c
    ensures IsUpperCase(c) ==> IsLowerCase(r)
  {
    if IsUpperCase(c) then (c as int - 'A' as int + 'a' as int) as char else c
  }

  /** Capitalises a name: a lower-case first letter is titlecased, every other character is kept. */
  function Capitalize(s: string): (r: string)
    ensures |r| == |s|
    ensures forall i :: 0 < i < |s| ==> r[i] == s[i]
    ensures |s| > 0 && IsLowerCase(s[0]) ==> IsUpperCase(r[0]) && LowerCase(r[0]) == s[0]
    ensures |s| > 0 && !IsLowerCase(s[0]) ==> r[0] == s[0]
  {
    if s == [] then [] else [if IsLowerCase(s[0]) then TitleCase(s[0]) else s[0]] + s[1..]
  }

  /** Capitalising twice is capitalising once. */
  lemma CapitalizeIdempotent(s: string)
    ensures Capitalize(Capitalize(s)) == Capitalize(s)
  {
  }

  /** `takeLastWhile { it.isDigit() }`: the longest run of digits that ends the string. */
  function TakeLastWhileDigit(s: string): (r: string)
    ensures |r| <= |s| && r == s[|s| - |r|..]
    ensures AllDigits(r)
    ensures |r| < |s| ==> !IsDigit(s[|s| - |r| - 1])
    decreases |s|
  {
    if s == [] || !IsDigit(s[|s| - 1]) then []
    else TakeLastWhileDigit(s[..|s| - 1]) + [s[|s| - 1]]
  }

  /** The three properties in the contract of TakeLastWhileDigit determine its result. */
  lemma {:induction false} TakeLastWhileDigitUnique(s: string, r: string)
    requires |r| <= |s| && r == s[|s| - |r|..]
    requires AllDigits(r)
    requires |r| < |s| ==> !IsDigit(s[|s| - |r| - 1])
    ensures TakeLastWhileDigit(s) == r
  {
  }

  /** A digit run after a prefix that does not end in a digit is exactly what is taken. */
  lemma TakeLastWhileDigitAfter(prefix: string, digits: string)
    requires prefix == [] || !IsDigit(prefix[|prefix| - 1])
    requires AllDigits(digits)
    ensures TakeLastWhileDigit(prefix + digits) == digits
  {
    var s := prefix + digits;
    assert s[|s| - |digits|..] == digits;
    if |digits| < |s| {
      assert s[|s| - |digits| - 1] == prefix[|prefix| - 1];
    }
    TakeLastWhileDigitUnique(s, digits);
  }

  function DigitValue(c: char): (d: nat)
    requires IsDigit(c)
    ensures d < 10
  {
    c as int - '0' as int
  }

  function DigitChar(d: nat): (c: char)
    requires d < 10
    ensures IsDigit(c) && DigitValue(c) == d
  {
    (d + '0' as int) as char
  }

  function Pow10(k: nat): (p: nat)
    ensures p >= 1
  {
    if k == 0 then 1 else 10 * Pow10(k - 1)
  }

  /**
   * `String.toInt()` on a string of decimal digits (the 32-bit range is not
   * modelled): a value with `|s|` digits, whose leading digit, when it is not
   * zero, fixes its order of magnitude.
   */
  function ParseDigits(s: string): (n: nat)
    requires AllDigits(s)
    ensures n < Pow10(|s|)
    ensures |s| > 0 && s[0] != '0' ==> Pow10(|s| - 1) <= n
    decreases |s|
  {
    if s == [] then 0
    else
      var p := s[..|s| - 1];
      assert |p| > 0 ==> p[0] == s[0];
      10 * ParseDigits(p) + DigitValue(s[|s| - 1])
  }

  /** `Int.toString()` on a non-negative value: at least one digit, no leading zero. */
  function DecimalString(n: nat): (s: string)
    ensures |s| > 0 && AllDigits(s)
    ensures |s| > 1 ==> s[0] != '0'
    ensures n < 10 <==> |s| == 1
  {
    if n < 10 then [DigitChar(n)] else DecimalString(n / 10) + [DigitChar(n % 10)]
  }

  /**
   * `Int.toString()` on any value: a canonical numeral that parses back to the
   * value, preceded by a minus sign when the value is negative.
   */
  function IntToString(n: int): (s: string)
    ensures n >= 0 ==> IsCanonicalDecimal(s) && ParseDigits(s) == n
    ensures n < 0 ==> |s| > 1 && s[0] == '-' && IsCanonicalDecimal(s[1..]) && ParseDigits(s[1..]) == -n
  {
    if n < 0 then
      ParseDecimalString(-n);
      var d := DecimalString(-n);
      assert ("-" + d)[1..] == d;
      "-" + d
    else
      ParseDecimalString(n);
      DecimalString(n)
  }

  /** The strings that `Int.toString()` can produce for a non-negative value. */
  predicate IsCanonicalDecimal(s: string) {
    |s| > 0 && AllDigits(s) && (|s| > 1 ==> s[0] != '0')
  }

  /** Parsing the decimal form of a number gives the number back. */
  lemma {:induction false} ParseDecimalString(n: nat)
    ensures ParseDigits(DecimalString(n)) == n
  {
    var s := DecimalString(n);
    if n >= 10 {
      ParseDecimalString(n / 10);
      assert s[..|s| - 1] == DecimalString(n / 10);
    }
  }

  /** Printing the value of a canonical digit string gives the string back. */
  lemma {:induction false} DecimalStringOfParse(s: string)
    requires IsCanonicalDecimal(s)
    ensures DecimalString(ParseDigits(s)) == s
  {
    var p := s[..|s| - 1];
    var c := s[|s| - 1];
    if |p| == 0 {
      assert s == [c];
    } else {
      assert p[0] == s[0];
      DecimalStringOfParse(p);
      var n := ParseDigits(s);
      assert n == 10 * ParseDigits(p) + DigitValue(c);
      assert n / 10 == ParseDigits(p) && n % 10 == DigitValue(c);
      assert s == p + [c];
    }
  }

  /** The decimal form of a number is the query exactly when the query is canonical and denotes it. */
  lemma DecimalStringIff(n: nat, q: string)
    ensures DecimalString(n) == q <==> IsCanonicalDecimal(q) && ParseDigits(q) == n
  {
    if DecimalString(n) == q {
      ParseDecimalString(n);
    }
    if IsCanonicalDecimal(q) && ParseDigits(q) == n {
      DecimalStringOfParse(q);
    }
  }

  /** Drops the leading whitespace. */
  function TrimStart(s: string): (r: string)
    ensures |r| <= |s| && r == s[|s| - |r|..]
    ensures forall i :: 0 <= i < |s| - |r| ==> IsWhitespace(s[i])
    ensures r == [] || !IsWhitespace(r[0])
  {
    if s != [] && IsWhitespace(s[0]) then TrimStart(s[1..]) else s
  }

  /** Drops the trailing whitespace. */
  function TrimEnd(s: string): (r: string)
    ensures |r| <= |s| && r == s[..|r|]
    ensures forall i :: |r| <= i < |s| ==> IsWhitespace(s[i])
    ensures r == [] || !IsWhitespace(r[|r| - 1])
  {
    if s != [] && IsWhitespace(s[|s| - 1]) then TrimEnd(s[..|s| - 1]) else s
  }

  /**
   * `String.trim()`: whitespace removed from both ends; both ends of the
   * result are non-whitespace, or the result is empty.
   */
  function Trim(s: string): (r: string)
    ensures |r| <= |s|
    ensures r == [] || (!IsWhitespace(r[0]) && !IsWhitespace(r[|r| - 1]))
  {
    TrimEnd(TrimStart(s))
  }

  /**
   * The trim of `s` is the slice of `s` that remains once a whitespace prefix
   * and a whitespace suffix are removed.
   */
  lemma TrimIsSlice(s: string)
    ensures exists i, j ::
              && 0 <= i <= j <= |s| && Trim(s) == s[i..j]
              && (forall k :: 0 <= k < i ==> IsWhitespace(s[k]))
              && (forall k :: j <= k < |s| ==> IsWhitespace(s[k]))
  {
    WhitespaceFramedSlice(s, TrimStart(s), Trim(s));
  }

  /** A prefix `r` of a suffix `t` of `s`, with only whitespace cut off, is such a slice. */
  lemma WhitespaceFramedSlice(s: string, t: string, r: string)
    requires |t| <= |s| && t == s[|s| - |t|..]
    requires forall k :: 0 <= k < |s| - |t| ==> IsWhitespace(s[k])
    requires |r| <= |t| && r == t[..|r|]
    requires forall k :: |r| <= k < |t| ==> IsWhitespace(t[k])
    ensures exists i, j ::
              && 0 <= i <= j <= |s| && r == s[i..j]
              && (forall k :: 0 <= k < i ==> IsWhitespace(s[k]))
              && (forall k :: j <= k < |s| ==> IsWhitespace(s[k]))
  {
    var i, j := |s| - |t|, |s| - |t| + |r|;
    assert r == s[i..j];
    forall k | j <= k < |s|
      ensures IsWhitespace(s[k])
    {
      assert s[k] == t[k - i];
    }
  }

  /** A string made only of whitespace trims to the empty string. */
  lemma TrimAllWhitespace(s: string)
    requires forall i :: 0 <= i < |s| ==> IsWhitespace(s[i])
    ensures Trim(s) == []
  {
  }

  /** A string that neither starts nor ends with whitespace is its own trim. */
  lemma TrimNoOp(s: string)
    requires s == [] || (!IsWhitespace(s[0]) && !IsWhitespace(s[|s| - 1]))
    ensures Trim(s) == s
  {
  }

  /** Trimming twice is trimming once. */
  lemma TrimIdempotent(s: string)
    ensures Trim(Trim(s)) == Trim(s)
  {
    TrimNoOp(Trim(s));
  }

  /** Equality under ASCII case folding. */
  predicate EqualsIgnoreCase(a: string, b: string) {
    |a| == |b| && forall i :: 0 <= i < |a| ==> LowerCase(a[i]) == LowerCase(b[i])
  }

  /** The window of `s` at offset `k` equals `t` up to case (Kotlin's `regionMatches`). */
  predicate RegionMatches(s: string, k: int, t: string) {
    0 <= k <= |s| - |t| && EqualsIgnoreCase(s[k..k + |t|], t)
  }

  /**
   * `s.contains(t, ignoreCase = true)`: some window of `s` equals `t` up to
   * case. A needle longer than `s` is never contained, and a needle equal
   * to `s` up to case always is.
   */
  predicate ContainsIgnoreCase(s: string, t: string): (b: bool)
    ensures b ==> |t| <= |s|
    ensures EqualsIgnoreCase(s, t) ==> b
  {
    assert EqualsIgnoreCase(s, t) ==> s[0..|t|] == s && RegionMatches(s, 0, t);
    exists k :: 0 <= k <= |s| - |t| && RegionMatches(s, k, t)
  }

  /** Every string contains the empty string. */
  lemma ContainsEmpty(s: string)
    ensures ContainsIgnoreCase(s, [])
  {
    assert RegionMatches(s, 0, []);
  }

  /** Containment does not depend on the case of the needle. */
  lemma ContainsIgnoresNeedleCase(s: string, t: string, u: string)
    requires EqualsIgnoreCase(t, u)
    ensures ContainsIgnoreCase(s, t) <==> ContainsIgnoreCase(s, u)
  {
    if ContainsIgnoreCase(s, t) {
      var k :| 0 <= k <= |s| - |t| && RegionMatches(s, k, t);
      var w := s[k..k + |u|];
      assert forall i :: 0 <= i < |u| ==> LowerCase(w[i]) == LowerCase(t[i]) == LowerCase(u[i]);
      assert RegionMatches(s, k, u);
    }
    if ContainsIgnoreCase(s, u) {
      var k :| 0 <= k <= |s| - |u| && RegionMatches(s, k, u);
      var w := s[k..k + |t|];
      assert forall i :: 0 <= i < |t| ==> LowerCase(w[i]) == LowerCase(u[i]) == LowerCase(t[i]);
      assert RegionMatches(s, k, t);
    }
  }
}
