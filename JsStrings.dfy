/** Strings as JavaScript sees them: lengths in UTF-16 code units,
    whitespace trimming, and the number parsing of `Number` and `parseInt`. */
module JsStrings {
  import opened Common

  /** `String.prototype.length`: UTF-16 code units, so a character outside
      the Basic Multilingual Plane counts twice. */
  function Utf16Length(s: string): (n: nat)
    ensures |s| <= n <= 2 * |s|
    ensures (forall i :: 0 <= i < |s| ==> s[i] as int < 0x1_0000) ==> n == |s|
    ensures (forall i :: 0 <= i < |s| ==> s[i] as int >= 0x1_0000) ==> n == 2 * |s|
  {
    if |s| == 0 then 0
    else (if s[0] as int >= 0x1_0000 then 2 else 1) + Utf16Length(s[1..])
  }

  /** Lengths add up over concatenation: with the bounds above, each
      character counts once inside the Basic Multilingual Plane and twice
      outside it. */
  lemma {:induction false} Utf16Concat(a: string, b: string)
    ensures Utf16Length(a + b) == Utf16Length(a) + Utf16Length(b)
  {
    if |a| == 0 {
      assert a + b == b;
    } else {
      assert (a + b)[0] == a[0] && (a + b)[1..] == a[1..] + b;
      Utf16Concat(a[1..], b);
    }
  }

  /** The characters `String.prototype.trim` removes: the ECMAScript
      WhiteSpace and LineTerminator code points. */
  predicate IsJsWhitespace(c: char) {
    || c == '\t' || c == '\n' || c == '\U{000B}' || c == '\U{000C}' || c == '\r' || c == ' '
    || c == '\U{00A0}' || c == '\U{1680}' || ('\U{2000}' <= c <= '\U{200A}')
    || c == '\U{2028}' || c == '\U{2029}' || c == '\U{202F}' || c == '\U{205F}'
    || c == '\U{3000}' || c == '\U{FEFF}'
  }

  /** `s` without its leading whitespace. */
  function TrimStart(s: string): (r: string)
    ensures |r| <= |s| && r == s[|s| - |r|..]
    ensures |r| > 0 ==> !IsJsWhitespace(r[0])
    ensures forall i :: 0 <= i < |s| - |r| ==> IsJsWhitespace(s[i])
  {
    if |s| > 0 && IsJsWhitespace(s[0]) then TrimStart(s[1..]) else s
  }

  /** `s` without its trailing whitespace. */
  function TrimEnd(s: string): (r: string)
    ensures |r| <= |s| && r == s[..|r|]
    ensures |r| > 0 ==> !IsJsWhitespace(r[|r| - 1])
    ensures forall i :: |r| <= i < |s| ==> IsJsWhitespace(s[i])
  {
    if |s| > 0 && IsJsWhitespace(s[|s| - 1]) then TrimEnd(s[..|s| - 1]) else s
  }

  /** `String.prototype.trim`: what is left after the leading and then the
      trailing whitespace, which starts and ends with a non-blank. */
  function Trim(s: string): (r: string)
    ensures |r| <= |s|
    ensures |r| > 0 ==> !IsJsWhitespace(r[0]) && !IsJsWhitespace(r[|r| - 1])
  {
    var t := TrimStart(s);
    var r := TrimEnd(t);
    assert |r| > 0 ==> r[0] == t[0];
    r
  }

  /** Leading whitespace in front of a word that does not start with
      whitespace is exactly what trimming the start removes. */
  lemma TrimStartSkipsBlanks(blanks: string, word: string)
    requires forall i :: 0 <= i < |blanks| ==> IsJsWhitespace(blanks[i])
    requires |word| > 0 && !IsJsWhitespace(word[0])
    ensures TrimStart(blanks + word) == word
  {
    var s := blanks + word;
    assert s[|blanks|] == word[0];
    assert s[|blanks|..] == word;
  }

  /** Trimming leading whitespace off a clean word gives the word back. */
  lemma TrimAround(blanks: string, word: string)
    requires forall i :: 0 <= i < |blanks| ==> IsJsWhitespace(blanks[i])
    requires Clean(word)
    ensures Trim(blanks + word) == word
  {
    TrimStartSkipsBlanks(blanks, word);
  }

  /** A string that neither starts nor ends with whitespace, as a parsed
      place name normally is. */
  predicate Clean(s: string) {
    |s| > 0 && !IsJsWhitespace(s[0]) && !IsJsWhitespace(s[|s| - 1])
  }

  /** The value of `c` as a digit in `radix` (10 or 16), if it is one. */
  function DigitValue(c: char, radix: nat): (d: Option<nat>)
    ensures d.Some? ==> d.value < radix
  {
    var v := if '0' <= c <= '9' then c as int - '0' as int
             else if 'a' <= c <= 'z' then c as int - 'a' as int + 10
             else if 'A' <= c <= 'Z' then c as int - 'A' as int + 10
             else 36;
    if v < radix then Some(v) else None
  }

  predicate AllDigits(s: string, radix: nat) {
    forall i :: 0 <= i < |s| ==> DigitValue(s[i], radix).Some?
  }

  /** The value of a string of digits, most significant first. */
  function DigitsValue(s: string, radix: nat): (n: nat)
    requires AllDigits(s, radix)
  {
    if |s| == 0 then 0 else DigitsValue(s[..|s| - 1], radix) * radix + DigitValue(s[|s| - 1], radix).value
  }

  /** The longest run of digits at the start of `s`. */
  function DigitPrefix(s: string, radix: nat): (p: string)
    ensures |p| <= |s| && p == s[..|p|]
    ensures AllDigits(p, radix)
    ensures |p| < |s| ==> DigitValue(s[|p|], radix).None?
  {
    if |s| > 0 && DigitValue(s[0], radix).Some? then [s[0]] + DigitPrefix(s[1..], radix) else []
  }

  /** `s` split into its sign (+1 or -1) and the rest, for a leading
      "+" or "-". */
  function SplitSign(s: string): (int, string) {
    if |s| > 0 && s[0] == '-' then (-1, s[1..])
    else if |s| > 0 && s[0] == '+' then (1, s[1..])
    else (1, s)
  }

  /** `s` starts with the hexadecimal prefix "0x" or "0X". */
  predicate HexPrefixed(s: string) {
    |s| >= 2 && s[0] == '0' && (s[1] == 'x' || s[1] == 'X')
  }

  /** `parseInt(s)` without a radix: leading whitespace is skipped, a sign is
      read, "0x" selects base 16, and the longest run of digits that follows
      is the value; without a digit the result is NaN (None). */
  function ParseInt(s: string): (n: Option<int>)
    ensures n.None? <==>
      var rest := SplitSign(TrimStart(s)).1;
      |DigitPrefix(if HexPrefixed(rest) then rest[2..] else rest, if HexPrefixed(rest) then 16 else 10)| == 0
  {
    var (sign, rest) := SplitSign(TrimStart(s));
    var radix := if HexPrefixed(rest) then 16 else 10;
    var digits := DigitPrefix(if HexPrefixed(rest) then rest[2..] else rest, radix);
    if |digits| == 0 then None else Some(sign * DigitsValue(digits, radix))
  }

  /** `Number(s)` (the unary `+`) on the integer forms: after trimming, the
      empty string is 0, "0x" or "0X" with hexadecimal digits is read in base
      16, and an optionally signed run of decimal digits in base 10; every
      other string is None, which stands for NaN. */
  function NumberOf(s: string): (n: Option<int>)
    ensures |Trim(s)| == 0 ==> n == Some(0)
    ensures n.Some? && |Trim(s)| > 0 ==>
      AllDigits(SplitSign(Trim(s)).1, 10) || (HexPrefixed(Trim(s)) && AllDigits(Trim(s)[2..], 16))
  {
    var t := Trim(s);
    if |t| == 0 then Some(0)
    else if HexPrefixed(t) && |t| > 2 && AllDigits(t[2..], 16) then Some(DigitsValue(t[2..], 16))
    else
      var (sign, rest) := SplitSign(t);
      if |rest| > 0 && AllDigits(rest, 10) then Some(sign * DigitsValue(rest, 10)) else None
  }

  /** A decimal digit is neither whitespace, a sign nor the letter x. */
  lemma DecimalDigitIsPlain(c: char)
    requires DigitValue(c, 10).Some?
    ensures '0' <= c <= '9'
    ensures !IsJsWhitespace(c) && c != '-' && c != '+' && c != 'x' && c != 'X'
  {
  }

  /** Trimming leaves a run of decimal digits alone. */
  lemma TrimDigits(s: string)
    requires |s| > 0 && AllDigits(s, 10)
    ensures TrimStart(s) == s && Trim(s) == s
  {
    DecimalDigitIsPlain(s[0]);
    DecimalDigitIsPlain(s[|s| - 1]);
    assert [] + s == s;
    TrimAround([], s);
  }

  /** A run of decimal digits has no sign and no hexadecimal prefix, and
      trimming leaves it alone. */
  lemma PlainDigits(s: string)
    requires |s| > 0 && AllDigits(s, 10)
    ensures TrimStart(s) == s && Trim(s) == s
    ensures SplitSign(s) == (1, s) && !HexPrefixed(s)
  {
    TrimDigits(s);
    DecimalDigitIsPlain(s[0]);
    if |s| >= 2 {
      DecimalDigitIsPlain(s[1]);
    }
  }

  /** `parseInt` reads a run of decimal digits whole. */
  lemma ParseIntOfDigits(s: string)
    requires |s| > 0 && AllDigits(s, 10)
    ensures ParseInt(s) == Some(DigitsValue(s, 10))
  {
    PlainDigits(s);
    var p := DigitPrefix(s, 10);
    assert p == s;
  }

  /** `Number` reads a run of decimal digits whole. */
  lemma NumberOfDigits(s: string)
    requires |s| > 0 && AllDigits(s, 10)
    ensures NumberOf(s) == Some(DigitsValue(s, 10))
  {
    PlainDigits(s);
  }

  /** `Number` reads a minus sign followed by decimal digits as the negated
      value. */
  lemma NumberOfNegative(d: string)
    requires |d| > 0 && AllDigits(d, 10)
    ensures NumberOf("-" + d) == Some(-(DigitsValue(d, 10) as int))
  {
    var t := "-" + d;
    DecimalDigitIsPlain(d[|d| - 1]);
    assert t[|t| - 1] == d[|d| - 1];
    assert [] + t == t;
    TrimAround([], t);
    assert SplitSign(t).1 == d;
  }

  /** A hexadecimal digit is a letter or a decimal digit, never whitespace. */
  lemma HexDigitIsPlain(c: char)
    requires DigitValue(c, 16).Some?
    ensures !IsJsWhitespace(c)
  {
  }

  /** `Number` reads "0x" followed by hexadecimal digits in base 16. */
  lemma NumberOfHex(h: string)
    requires |h| > 0 && AllDigits(h, 16)
    ensures NumberOf("0x" + h) == Some(DigitsValue(h, 16))
  {
    var t := "0x" + h;
    HexDigitIsPlain(h[|h| - 1]);
    assert t[|t| - 1] == h[|h| - 1];
    assert [] + t == t;
    TrimAround([], t);
    assert t[2..] == h;
  }
}
