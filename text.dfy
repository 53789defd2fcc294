/** String primitives of the JavaScript runtime that the landing-page script
    relies on: the whitespace class shared by `\s` and `String.prototype.trim`,
    `toLowerCase`, `includes`, and the decimal rendering of a count inside a
    template literal. Strings are sequences of Unicode scalar values. */
module Text {

  /** ECMAScript WhiteSpace and LineTerminator code points: exactly the set a
      regular expression's `\s` matches and the set `trim()` removes. */
  predicate IsJsWhitespace(c: char) {
    || c == '\t' || c == '\n' || c == '\U{000B}' || c == '\U{000C}' || c == '\r'
    || c == ' ' || c == '\U{00A0}' || c == '\U{1680}'
    || ('\U{2000}' <= c <= '\U{200A}')
    || c == '\U{2028}' || c == '\U{2029}' || c == '\U{202F}' || c == '\U{205F}'
    || c == '\U{3000}' || c == '\U{FEFF}'
  }

  predicate AllWhitespace(s: string) {
    forall i :: 0 <= i < |s| ==> IsJsWhitespace(s[i])
  }

  // ---------------------------------------------------------------------
  // trim()
  // ---------------------------------------------------------------------

  /** Drops the leading whitespace: the result is the suffix of `s` that
      starts at its first non-whitespace character. */
  function TrimStart(s: string): (r: string)
    ensures |r| <= |s| && r == s[|s| - |r|..]
    ensures AllWhitespace(s[..|s| - |r|])
    ensures r == [] || !IsJsWhitespace(r[0])
  {
    if s != [] && IsJsWhitespace(s[0]) then
      var t := s[1..];
      var r := TrimStart(t);
      assert r == s[|s| - |r|..] by {
        assert t[|t| - |r|..] == s[|s| - |r|..];
      }
      var cut := s[..|s| - |r|];
      forall i | 0 <= i < |cut| ensures IsJsWhitespace(cut[i]) {
        if i > 0 {
          assert cut[i] == t[..|t| - |r|][i - 1];
        }
      }
      r
    else s
  }

  /** Drops the trailing whitespace: the result is the prefix of `s` that
      ends at its last non-whitespace character. */
  function TrimEnd(s: string): (r: string)
    ensures |r| <= |s| && r == s[..|r|]
    ensures AllWhitespace(s[|r|..])
    ensures r == [] || !IsJsWhitespace(r[|r| - 1])
  {
    if s != [] && IsJsWhitespace(s[|s| - 1]) then
      var p := s[..|s| - 1];
      var r := TrimEnd(p);
      assert r == s[..|r|] by {
        assert p[..|r|] == s[..|r|];
      }
      forall i | 0 <= i < |s| - |r| ensures IsJsWhitespace(s[|r|..][i]) {
        if i < |s| - 1 - |r| {
          assert s[|r|..][i] == p[|r|..][i];
        }
      }
      r
    else s
  }

  /** `String.prototype.trim`. */
  function Trim(s: string): string {
    TrimEnd(TrimStart(s))
  }

  /** Trim keeps a contiguous middle part of `s`, and everything cut off on
      either side is whitespace. */
  lemma TrimIsInfix(s: string)
    ensures exists i, j :: 0 <= i <= j <= |s| && Trim(s) == s[i..j]
                           && AllWhitespace(s[..i]) && AllWhitespace(s[j..])
  {
    var t := TrimStart(s);
    var r := TrimEnd(t);
    var i := |s| - |t|;
    var j := i + |r|;
    assert r == s[i..j] by {
      assert t == s[i..];
      assert r == t[..|r|];
    }
    assert s[j..] == t[|r|..];
    assert Trim(s) == r;
  }

  /** The part trim keeps neither starts nor ends with whitespace. */
  lemma TrimEndsPlain(s: string)
    ensures Trim(s) == [] || (!IsJsWhitespace(Trim(s)[0]) && !IsJsWhitespace(Trim(s)[|Trim(s)| - 1]))
  {
    var t := TrimStart(s);
    var r := TrimEnd(t);
    if r != [] {
      assert r[0] == t[0];
    }
  }

  /** The trimmed string is empty exactly when the input is all whitespace. */
  lemma TrimEmptyIff(s: string)
    ensures Trim(s) == [] <==> AllWhitespace(s)
  {
    var t := TrimStart(s);
    if Trim(s) == [] {
      assert AllWhitespace(t[0..]) && t[0..] == t;
      assert t == [];
      assert s[..|s|] == s;
    }
  }

  lemma TrimStartOfTrimmed(s: string)
    requires s == [] || !IsJsWhitespace(s[0])
    ensures TrimStart(s) == s
  {
  }

  /** Trimming twice is trimming once. */
  lemma TrimIdempotent(s: string)
    ensures Trim(Trim(s)) == Trim(s)
  {
    var t := TrimStart(s);
    var r := TrimEnd(t);
    if r != [] {
      assert r[0] == t[0];
    }
    TrimStartOfTrimmed(r);
  }

  /** Leading whitespace is dropped up to the first other character. */
  lemma {:induction false} TrimStartPadded(pre: string, s: string)
    requires AllWhitespace(pre) && (s == [] || !IsJsWhitespace(s[0]))
    ensures TrimStart(pre + s) == s
  {
    if pre == [] {
      assert pre + s == s;
    } else {
      assert (pre + s)[1..] == pre[1..] + s;
      TrimStartPadded(pre[1..], s);
    }
  }

  /** Trailing whitespace is dropped back to the last other character. */
  lemma {:induction false} TrimEndPadded(s: string, post: string)
    requires AllWhitespace(post) && (s == [] || !IsJsWhitespace(s[|s| - 1]))
    ensures TrimEnd(s + post) == s
  {
    if post == [] {
      assert s + post == s;
    } else {
      assert (s + post)[..|s + post| - 1] == s + post[..|post| - 1];
      TrimEndPadded(s, post[..|post| - 1]);
    }
  }

  /** Trimming removes exactly the whitespace padding around a core that
      neither starts nor ends with whitespace. */
  lemma TrimPadded(pre: string, core: string, post: string)
    requires AllWhitespace(pre) && AllWhitespace(post)
    requires core == [] || (!IsJsWhitespace(core[0]) && !IsJsWhitespace(core[|core| - 1]))
    ensures Trim(pre + core + post) == core
  {
    if core == [] {
      assert pre + core + post == pre + post;
      assert AllWhitespace(pre + post);
      TrimEmptyIff(pre + post);
    } else {
      assert pre + core + post == pre + (core + post);
      assert (core + post)[0] == core[0];
      TrimStartPadded(pre, core + post);
      TrimEndPadded(core, post);
    }
  }

  /** A string that neither starts nor ends with whitespace is its own
      trim. */
  lemma TrimUnpadded(s: string)
    requires s == [] || (!IsJsWhitespace(s[0]) && !IsJsWhitespace(s[|s| - 1]))
    ensures Trim(s) == s
  {
    TrimStartOfTrimmed(s);
    TrimEndPadded(s, []);
    assert s + [] == s;
  }

  // ---------------------------------------------------------------------
  // toLowerCase()
  // ---------------------------------------------------------------------

  /** Upper-case letters of Basic Latin and of the Latin-1 Supplement
      (U+00C0..U+00DE without the multiplication sign U+00D7). */
  predicate IsUpperLatin(c: char) {
    ('A' <= c <= 'Z') || ('\U{00C0}' <= c <= '\U{00DE}' && c != '\U{00D7}')
  }

  /** The simple lower-case mapping on those letters: both blocks place the
      lower-case letter 0x20 code points above the upper-case one. */
  function LowerChar(c: char): char {
    if IsUpperLatin(c) then (c as int + 0x20) as char else c
  }

  /** `String.prototype.toLowerCase`, character by character. */
  function ToLower(s: string): string {
    seq(|s|, i requires 0 <= i < |s| => LowerChar(s[i]))
  }

  /** A lower-cased string has no upper-case letters left, so lower-casing
      it again changes nothing. */
  lemma ToLowerIdempotent(s: string)
    ensures forall i :: 0 <= i < |s| ==> !IsUpperLatin(ToLower(s)[i])
    ensures ToLower(ToLower(s)) == ToLower(s)
  {
  }

  /** Lower-casing commutes with taking a slice. */
  lemma ToLowerSlice(s: string, i: int, j: int)
    requires 0 <= i <= j <= |s|
    ensures ToLower(s[i..j]) == ToLower(s)[i..j]
  {
  }

  // ---------------------------------------------------------------------
  // includes()
  // ---------------------------------------------------------------------

  /** `needle` occurs in `hay` starting at position `i`. */
  predicate OccursAt(needle: string, hay: string, i: int) {
    0 <= i <= |hay| - |needle| && hay[i..i + |needle|] == needle
  }

  /** `needle` occurs in `hay` at some position. */
  ghost predicate IsInfix(needle: string, hay: string) {
    exists i :: OccursAt(needle, hay, i)
  }

  /** `hay.includes(needle)`: tries every start position from the left. */
  function Includes(hay: string, needle: string): (b: bool)
    ensures b <==> IsInfix(needle, hay)
    decreases |hay|
  {
    if |hay| < |needle| then false
    else if hay[..|needle|] == needle then
      assert OccursAt(needle, hay, 0);
      true
    else
      var b := Includes(hay[1..], needle);
      InfixOfTail(needle, hay);
      b
  }

  /** A needle that is not a prefix of `hay` occurs in `hay` exactly when it
      occurs in `hay` without its first character. */
  lemma InfixOfTail(needle: string, hay: string)
    requires |needle| <= |hay| && hay[..|needle|] != needle
    ensures IsInfix(needle, hay) <==> IsInfix(needle, hay[1..])
  {
    if IsInfix(needle, hay) {
      var i :| OccursAt(needle, hay, i);
      assert i != 0;
      assert hay[1..][i - 1..i - 1 + |needle|] == needle;
      assert OccursAt(needle, hay[1..], i - 1);
    }
    if IsInfix(needle, hay[1..]) {
      var i :| OccursAt(needle, hay[1..], i);
      assert hay[i + 1..i + 1 + |needle|] == needle;
      assert OccursAt(needle, hay, i + 1);
    }
  }

  /** Every character of a needle that occurs in `hay` occurs in `hay`. */
  lemma InfixChars(needle: string, hay: string, k: int)
    requires IsInfix(needle, hay) && 0 <= k < |needle|
    ensures needle[k] in hay
  {
    var i :| OccursAt(needle, hay, i);
    assert hay[i + k] == needle[k];
  }

  /** Occurrence is transitive: a needle inside a needle inside `hay` is
      inside `hay`. */
  lemma InfixTransitive(a: string, b: string, c: string)
    requires IsInfix(a, b) && IsInfix(b, c)
    ensures IsInfix(a, c)
  {
    var i :| OccursAt(a, b, i);
    var j :| OccursAt(b, c, j);
    forall k | 0 <= k < |a| ensures c[j + i + k] == a[k] {
      assert c[j + i + k] == c[j..j + |b|][i + k] == b[i + k];
      assert b[i + k] == b[i..i + |a|][k];
    }
    assert c[j + i..j + i + |a|] == a;
    assert OccursAt(a, c, j + i);
  }

  /** Lower-casing both sides keeps an occurrence an occurrence. */
  lemma InfixToLower(a: string, b: string)
    requires IsInfix(a, b)
    ensures IsInfix(ToLower(a), ToLower(b))
  {
    var i :| OccursAt(a, b, i);
    ToLowerSlice(b, i, i + |a|);
    assert OccursAt(ToLower(a), ToLower(b), i);
  }

  // ---------------------------------------------------------------------
  // Decimal rendering of a non-negative integer, as in `${n}`
  // ---------------------------------------------------------------------

  predicate IsDigit(c: char) {
    '0' <= c <= '9'
  }

  predicate AllDigits(s: string) {
    forall i :: 0 <= i < |s| ==> IsDigit(s[i])
  }

  function DigitChar(d: nat): (c: char)
    requires d < 10
    ensures IsDigit(c)
  {
    ('0' as int + d) as char
  }

  function DigitValue(c: char): nat
    requires IsDigit(c)
  {
    c as int - '0' as int
  }

  /** The shortest decimal numeral of `n`: never empty, only digits, and no
      leading zero except for 0 itself. */
  function Decimal(n: nat): (s: string)
    ensures |s| >= 1 && AllDigits(s)
    ensures s[0] == '0' ==> n == 0
  {
    if n < 10 then [DigitChar(n)] else Decimal(n / 10) + [DigitChar(n % 10)]
  }

  /** The value of a numeral, most significant digit first. */
  function ParseDecimal(s: string): nat
    requires AllDigits(s)
  {
    if s == [] then 0 else 10 * ParseDecimal(s[..|s| - 1]) + DigitValue(s[|s| - 1])
  }

  /** Reading back a rendered count gives the count. */
  lemma {:induction false} DecimalRoundTrip(n: nat)
    ensures ParseDecimal(Decimal(n)) == n
  {
    if n >= 10 {
      DecimalRoundTrip(n / 10);
      var s := Decimal(n);
      assert s[..|s| - 1] == Decimal(n / 10);
    }
  }

  /** The longest prefix of `s` made of digits. */
  function LeadingDigits(s: string): (d: string)
    ensures |d| <= |s| && d == s[..|d|] && AllDigits(d)
    ensures |d| == |s| || !IsDigit(s[|d|])
  {
    if s != [] && IsDigit(s[0]) then [s[0]] + LeadingDigits(s[1..]) else []
  }

  /** A numeral followed by a non-digit is read back as that numeral. */
  lemma {:induction false} LeadingDigitsOfNumeral(d: string, rest: string)
    requires AllDigits(d)
    requires rest == [] || !IsDigit(rest[0])
    ensures LeadingDigits(d + rest) == d
  {
    if d != [] {
      assert (d + rest)[1..] == d[1..] + rest;
      LeadingDigitsOfNumeral(d[1..], rest);
    } else {
      assert d + rest == rest;
    }
  }
}
