/** JavaScript's global `parseInt(string)` called without a radix, as the page
    applies it to a hotel's `starRating` (ECMA-262, section 19.2.5, "parseInt
    (string, radix)"). The result is `None` where JavaScript returns NaN. */
module JsParseInt {
  import opened Types

  /** WhiteSpace and LineTerminator code points, which `parseInt` skips at the front. */
  predicate IsWhiteSpace(c: char)
  {
    c == '\t' || c == '\n' || c == '\U{000B}' || c == '\U{000C}' || c == '\r' ||
    c == ' ' || c == '\U{00A0}' || c == '\U{1680}' ||
    ('\U{2000}' <= c <= '\U{200A}') ||
    c == '\U{2028}' || c == '\U{2029}' || c == '\U{202F}' || c == '\U{205F}' ||
    c == '\U{3000}' || c == '\U{FEFF}'
  }

  predicate IsDecimalDigit(c: char)
  {
    '0' <= c <= '9'
  }

  /** A digit of the radix `parseInt` settled on: 10, or 16 after a `0x`/`0X` prefix. */
  predicate IsDigit(c: char, radix: nat)
  {
    IsDecimalDigit(c) ||
    (radix == 16 && (('a' <= c <= 'f') || ('A' <= c <= 'F')))
  }

  function DigitValue(c: char): (v: nat)
    requires IsDigit(c, 16)
    ensures v < 16
    ensures IsDecimalDigit(c) <==> v < 10
  {
    if IsDecimalDigit(c) then c as int - '0' as int
    else if 'a' <= c <= 'f' then c as int - 'a' as int + 10
    else c as int - 'A' as int + 10
  }

  /** How many white-space characters `s` starts with. */
  function LeadingWhiteSpace(s: string): (n: nat)
    ensures n <= |s|
    ensures forall i :: 0 <= i < n ==> IsWhiteSpace(s[i])
    ensures n == |s| || !IsWhiteSpace(s[n])
  {
    if s != [] && IsWhiteSpace(s[0]) then 1 + LeadingWhiteSpace(s[1..]) else 0
  }

  /** The input with its leading white space removed. */
  function TrimStart(s: string): string
  {
    s[LeadingWhiteSpace(s)..]
  }

  /** The longest prefix of `s` made of digits of `radix`. */
  function DigitPrefix(s: string, radix: nat): (d: string)
    ensures |d| <= |s| && d == s[..|d|]
    ensures forall i :: 0 <= i < |d| ==> IsDigit(d[i], radix)
    ensures |d| == |s| || !IsDigit(s[|d|], radix)
  {
    if s != [] && IsDigit(s[0], radix) then [s[0]] + DigitPrefix(s[1..], radix) else []
  }

  /** The number a digit string denotes in `radix`, most significant digit first. */
  function DigitsValue(ds: string, radix: nat): nat
    requires radix == 10 || radix == 16
    requires forall i :: 0 <= i < |ds| ==> IsDigit(ds[i], radix)
  {
    if ds == [] then 0
    else
      assert IsDigit(ds[|ds| - 1], radix);
      DigitsValue(ds[..|ds| - 1], radix) * radix + DigitValue(ds[|ds| - 1])
  }

  /** `parseInt(input)`: skip white space, then read a number (`None` for NaN). */
  function ParseInt(input: string): (r: Option<int>)
    ensures input == [] ==> r == None
    ensures r.Some? ==> LeadingWhiteSpace(input) < |input|
    ensures r.Some? && r.value < 0 ==> input[LeadingWhiteSpace(input)] == '-'
  {
    ParseTrimmed(TrimStart(input))
  }

  /** The part of `parseInt` after the white space: take an optional sign,
      switch to radix 16 after a `0x`/`0X` prefix, then read the longest digit
      prefix; no digit at all gives NaN (`None`). */
  function ParseTrimmed(s: string): (r: Option<int>)
    ensures r.Some? ==> s != [] && (r.value < 0 ==> s[0] == '-')
    ensures s != [] && IsDecimalDigit(s[0]) && !(|s| >= 2 && s[0] == '0' && (s[1] == 'x' || s[1] == 'X'))
            ==> r.Some? && r.value >= 0
  {
    var negative := s != [] && s[0] == '-';
    var unsigned := if s != [] && (s[0] == '+' || s[0] == '-') then s[1..] else s;
    var hex := |unsigned| >= 2 && unsigned[0] == '0' && (unsigned[1] == 'x' || unsigned[1] == 'X');
    var radix := if hex then 16 else 10;
    var digits := DigitPrefix(if hex then unsigned[2..] else unsigned, radix);
    if digits == [] then None
    else
      var magnitude: int := DigitsValue(digits, radix);
      Some(if negative then -magnitude else magnitude)
  }

  /** The decimal rendering of a natural number, without leading zeros
      (what `String(n)` produces): the rendering that `ParseIntOfIntString` reads back. */
  function DecimalString(n: nat): (s: string)
    ensures s != [] && forall i :: 0 <= i < |s| ==> IsDecimalDigit(s[i])
    ensures s[0] == '0' <==> n == 0
  {
    var last := ['0' + ((n % 10) as char)];
    if n < 10 then last else DecimalString(n / 10) + last
  }

  /** `String(n)` for any integer. */
  function IntString(n: int): (s: string)
  {
    if n < 0 then "-" + DecimalString(-n) else DecimalString(n)
  }

  lemma {:induction false} DecimalStringValue(n: nat)
    ensures DigitsValue(DecimalString(n), 10) == n
    decreases n
  {
    if n >= 10 {
      DecimalStringValue(n / 10);
      var s := DecimalString(n);
      assert s[..|s| - 1] == DecimalString(n / 10);
    }
  }

  /** Reading digits stops at the first character that is not one. */
  lemma {:induction false} DigitPrefixOfDigits(ds: string, rest: string, radix: nat)
    requires forall i :: 0 <= i < |ds| ==> IsDigit(ds[i], radix)
    requires rest == [] || !IsDigit(rest[0], radix)
    ensures DigitPrefix(ds + rest, radix) == ds
    decreases |ds|
  {
    if ds != [] {
      assert (ds + rest)[1..] == ds[1..] + rest;
      DigitPrefixOfDigits(ds[1..], rest, radix);
    }
  }

  /** `parseInt` reads back the decimal rendering of a natural number, and
      ignores whatever follows it unless that continues the number: a digit,
      or an `x`/`X` right after a lone `0` (which makes `0x…` hexadecimal). */
  lemma ParseIntReadsDecimalPrefix(n: nat, suffix: string)
    requires suffix == [] || (!IsDecimalDigit(suffix[0]) && (n == 0 ==> suffix[0] != 'x' && suffix[0] != 'X'))
    ensures ParseInt(DecimalString(n) + suffix) == Some(n)
  {
    var d := DecimalString(n);
    var s := d + suffix;
    assert s[0] == d[0];
    assert TrimStart(s) == s;
    assert |s| >= 2 && s[0] == '0' ==> n == 0 && |d| == 1 && s[1] == suffix[0];
    assert !IsDigit(suffix[0], 10) <== suffix != [];
    DigitPrefixOfDigits(d, suffix, 10);
    DecimalStringValue(n);
  }

  /** One sign in front of a string that starts with no sign: `+` changes
      nothing and `-` negates the number read, NaN staying NaN. */
  lemma ParseTrimmedSign(sign: string, t: string)
    requires sign == "+" || sign == "-"
    requires t == [] || (t[0] != '+' && t[0] != '-')
    ensures ParseTrimmed(sign + t) == match ParseTrimmed(t)
                                       case None => None
                                       case Some(v) => Some(if sign == "-" then -v else v)
  {
    var s := sign + t;
    assert s[0] == sign[0] && s[1..] == t;
  }

  /** With a sign in front, `parseInt` reads the decimal rendering of a natural
      number as that number, negated after a `-`, and ignores what follows it
      under the same condition as `ParseIntReadsDecimalPrefix` (`"-0"` reads as 0,
      the model's `-0`). */
  lemma ParseIntReadsSignedDecimalPrefix(sign: string, n: nat, suffix: string)
    requires sign == "+" || sign == "-"
    requires suffix == [] || (!IsDecimalDigit(suffix[0]) && (n == 0 ==> suffix[0] != 'x' && suffix[0] != 'X'))
    ensures ParseInt(sign + (DecimalString(n) + suffix)) == Some(if sign == "-" then -(n as int) else n)
  {
    var t := DecimalString(n) + suffix;
    assert t != [] && IsDecimalDigit(t[0]) && ParseTrimmed(t) == Some(n) by {
      assert t[0] == DecimalString(n)[0];
      ParseIntReadsDecimalPrefix(n, suffix);
      ParseIntWithoutWhiteSpace(t);
    }
    ParseIntSigned(sign, t, n);
  }

  /** A sign in front of a string that starts with a decimal digit. */
  lemma ParseIntSigned(sign: string, t: string, v: int)
    requires sign == "+" || sign == "-"
    requires t != [] && IsDecimalDigit(t[0])
    requires ParseTrimmed(t) == Some(v)
    ensures ParseInt(sign + t) == Some(if sign == "-" then -v else v)
  {
    ParseTrimmedSign(sign, t);
    assert (sign + t)[0] == sign[0];
    ParseIntWithoutWhiteSpace(sign + t);
  }

  /** With nothing to skip, `parseInt` reads the string as it stands. */
  lemma ParseIntWithoutWhiteSpace(s: string)
    requires s == [] || !IsWhiteSpace(s[0])
    ensures ParseInt(s) == ParseTrimmed(s)
  {
    assert TrimStart(s) == s;
  }

  /** A minus sign in front of a positive decimal rendering negates it. */
  lemma ParseIntNegative(m: int)
    requires m > 0
    ensures ParseInt("-" + DecimalString(m)) == Some(-m)
  {
    assert DecimalString(m) == DecimalString(m) + [];
    ParseIntReadsSignedDecimalPrefix("-", m, []);
  }

  /** Round trip: `parseInt(String(n)) == n` for every integer `n`. */
  lemma ParseIntOfIntString(n: int)
    ensures ParseInt(IntString(n)) == Some(n)
  {
    if n >= 0 {
      assert IntString(n) == DecimalString(n) + [];
      ParseIntReadsDecimalPrefix(n, []);
    } else {
      ParseIntNegative(-n);
    }
  }

  /** Leading white space does not change the result. */
  lemma {:induction false} ParseIntSkipsWhiteSpace(ws: string, s: string)
    requires forall i :: 0 <= i < |ws| ==> IsWhiteSpace(ws[i])
    ensures ParseInt(ws + s) == ParseInt(s)
  {
    TrimStartOfWhiteSpace(ws, s);
  }

  lemma {:induction false} TrimStartOfWhiteSpace(ws: string, s: string)
    requires forall i :: 0 <= i < |ws| ==> IsWhiteSpace(ws[i])
    ensures TrimStart(ws + s) == TrimStart(s)
    decreases |ws|
  {
    var t := ws + s;
    if ws != [] {
      assert t[0] == ws[0] && IsWhiteSpace(t[0]);
      assert t[1..] == ws[1..] + s;
      assert LeadingWhiteSpace(t) == 1 + LeadingWhiteSpace(t[1..]);
      TrimStartOfWhiteSpace(ws[1..], s);
    } else {
      assert t == s;
    }
  }

  /** A string that starts with neither white space, a sign nor a decimal digit
      (the empty string, "n/a", "*****") parses to NaN. */
  lemma ParseIntNaN(s: string)
    requires s == [] || (!IsWhiteSpace(s[0]) && !IsDecimalDigit(s[0]) && s[0] != '+' && s[0] != '-')
    ensures ParseInt(s) == None
  {
    assert TrimStart(s) == s;
    if s != [] {
      assert !IsDigit(s[0], 10);
    }
  }

  /** A one-digit rating string reads as that digit. */
  lemma ParseIntSingleDigit(c: char)
    requires IsDecimalDigit(c)
    ensures ParseInt([c]) == Some(c as int - '0' as int)
  {
    assert TrimStart([c]) == [c];
    assert [c][1..] == [];
    assert DigitPrefix([c], 10) == [c];
    assert [c][..0] == [];
    assert DigitsValue([c], 10) == DigitValue(c);
  }

  /** Reading stops at the first character that is not a digit. */
  lemma ParseIntTrailingTextExample()
    ensures ParseInt("5 stars") == Some(5)
  {
    assert DecimalString(5) + " stars" == "5 stars";
    ParseIntReadsDecimalPrefix(5, " stars");
  }

  /** Leading white space is skipped and reading stops at the decimal point. */
  lemma ParseIntFractionExample()
    ensures ParseInt(" 3.5") == Some(3)
  {
    assert DecimalString(3) + ".5" == "3.5";
    ParseIntReadsDecimalPrefix(3, ".5");
    assert " " + "3.5" == " 3.5";
    ParseIntSkipsWhiteSpace(" ", "3.5");
  }

  /** A `0x` prefix switches to hexadecimal. */
  lemma ParseIntHexExample()
    ensures ParseInt("0x1F") == Some(31)
  {
    assert TrimStart("0x1F") == "0x1F";
    assert "0x1F"[2..] == "1F";
    assert DigitPrefix("F", 16) == "F";
    assert DigitPrefix("1F", 16) == "1F";
    assert DigitsValue("1", 16) == 1;
    assert "1F"[..1] == "1";
  }

  /** No digits, no number. */
  lemma ParseIntNaNExamples()
    ensures ParseInt("") == None
    ensures ParseInt("n/a") == None
    ensures ParseInt("-") == None
  {
    ParseIntNaN("");
    ParseIntNaN("n/a");
    assert TrimStart("-") == "-";
  }
}
