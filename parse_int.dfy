/**
  JavaScript's global `parseInt(string, 10)`, as ECMA-262 section 19.2.5
  ("parseInt ( string, radix )") defines it for radix 10. It skips leading
  white space, reads an optional sign, then reads the longest run of
  decimal digits. With no digits the result is NaN. Anything after the
  digits is ignored.

  The result is an integer or NaN. JavaScript's IEEE double rounding above
  2^53 is not modelled, and neither is the sign of zero: "-0" gives 0 here,
  where JavaScript gives -0. Both compare the same against 1.
*/
module JsParseInt {

  /** A Number as parseInt can produce it: NaN or an integral value. */
  datatype JsNumber = NaN | Num(value: int)

  /**
    StrWhiteSpaceChar of ECMA-262: the WhiteSpace code points (TAB, VT, FF,
    ZWNBSP and the Unicode "Zs" category) and the LineTerminator code
    points (LF, CR, LS, PS).
  */
  predicate IsStrWhiteSpace(c: char) {
    c == '\U{9}' || c == '\U{A}' || c == '\U{B}' || c == '\U{C}' || c == '\U{D}'
    || c == ' ' || c == '\U{A0}' || c == '\U{1680}'
    || ('\U{2000}' <= c <= '\U{200A}')
    || c == '\U{2028}' || c == '\U{2029}' || c == '\U{202F}' || c == '\U{205F}'
    || c == '\U{3000}' || c == '\U{FEFF}'
  }

  predicate IsDecimalDigit(c: char) {
    '0' <= c <= '9'
  }

  predicate AllDigits(s: string) {
    forall i :: 0 <= i < |s| ==> IsDecimalDigit(s[i])
  }

  function DigitValue(c: char): (d: nat)
    requires IsDecimalDigit(c)
    ensures d < 10
  {
    c as int - '0' as int
  }

  function DigitChar(d: nat): (c: char)
    requires d < 10
    ensures IsDecimalDigit(c) && DigitValue(c) == d
  {
    (d + '0' as int) as char
  }

  /** Step 2 of parseInt: the string with its leading white space removed. */
  function TrimStart(s: string): (t: string)
    ensures |t| <= |s| && t == s[|s| - |t|..]
    ensures forall i :: 0 <= i < |s| - |t| ==> IsStrWhiteSpace(s[i])
    ensures t == [] || !IsStrWhiteSpace(t[0])
  {
    if s != [] && IsStrWhiteSpace(s[0]) then TrimStart(s[1..]) else s
  }

  /** The longest prefix of `s` made of decimal digits. */
  function DigitPrefix(s: string): (d: string)
    ensures |d| <= |s| && d == s[..|d|]
    ensures AllDigits(d)
    ensures |d| == |s| || !IsDecimalDigit(s[|d|])
  {
    if s != [] && IsDecimalDigit(s[0]) then [s[0]] + DigitPrefix(s[1..]) else []
  }

  /** The value of a run of decimal digits, most significant first. */
  function DigitsValue(ds: string): nat
    requires AllDigits(ds)
  {
    if ds == [] then 0 else DigitsValue(ds[..|ds| - 1]) * 10 + DigitValue(ds[|ds| - 1])
  }

  /** parseInt(s, 10). */
  function ParseInt10(s: string): JsNumber {
    ParseSigned(TrimStart(s))
  }

  /** Steps 3 to 7 of parseInt: an optional sign in front of the digits. */
  function ParseSigned(t: string): JsNumber {
    if t != [] && t[0] == '-' then Negate(ParseDigits(t[1..]))
    else if t != [] && t[0] == '+' then ParseDigits(t[1..])
    else ParseDigits(t)
  }

  /** Steps 11 to 16 of parseInt for radix 10: the value of the leading digits, or NaN if there are none. */
  function ParseDigits(u: string): JsNumber {
    var digits := DigitPrefix(u);
    if digits == [] then NaN else Num(DigitsValue(digits))
  }

  function Negate(x: JsNumber): JsNumber {
    match x
    case NaN => NaN
    case Num(v) => Num(-v)
  }

  /** The canonical decimal spelling of a natural number, used to state round trips. */
  function DecimalString(n: nat): (s: string)
    ensures s != [] && AllDigits(s)
  {
    if n < 10 then [DigitChar(n)] else DecimalString(n / 10) + [DigitChar(n % 10)]
  }

  lemma {:induction false} DigitPrefixOfDigits(ds: string, rest: string)
    requires AllDigits(ds)
    requires rest == [] || !IsDecimalDigit(rest[0])
    ensures DigitPrefix(ds + rest) == ds
  {
    if ds != [] {
      assert (ds + rest)[1..] == ds[1..] + rest;
      DigitPrefixOfDigits(ds[1..], rest);
    } else {
      assert ds + rest == rest;
    }
  }

  lemma {:induction false} DecimalStringValue(n: nat)
    ensures DigitsValue(DecimalString(n)) == n
  {
    if n >= 10 {
      var s := DecimalString(n);
      var prefix := DecimalString(n / 10);
      assert s[..|s| - 1] == prefix;
      DecimalStringValue(n / 10);
    }
  }

  /** Leading white space never changes what parseInt returns. */
  lemma {:induction false} ParseSkipsLeadingWhiteSpace(w: string, s: string)
    requires forall i :: 0 <= i < |w| ==> IsStrWhiteSpace(w[i])
    ensures ParseInt10(w + s) == ParseInt10(s)
  {
    TrimStartSkips(w, s);
  }

  lemma {:induction false} TrimStartSkips(w: string, s: string)
    requires forall i :: 0 <= i < |w| ==> IsStrWhiteSpace(w[i])
    ensures TrimStart(w + s) == TrimStart(s)
  {
    if w != [] {
      assert (w + s)[0] == w[0];
      assert (w + s)[1..] == w[1..] + s;
      TrimStartSkips(w[1..], s);
    } else {
      assert w + s == s;
    }
  }

  /**
    parseInt reads the digits and stops at the first character that is not
    a digit: "3abc" and "1.5" read as 3 and 1, and a leading "-" negates.
  */
  lemma ParseReadsDigitPrefix(ds: string, rest: string)
    requires ds != [] && AllDigits(ds)
    requires rest == [] || !IsDecimalDigit(rest[0])
    ensures ParseInt10(ds + rest) == Num(DigitsValue(ds))
    ensures ParseInt10("-" + ds + rest) == Num(-(DigitsValue(ds) as int))
    ensures ParseInt10("+" + ds + rest) == Num(DigitsValue(ds))
  {
    UnsignedDigits(ds, rest);
    SignedDigits('-', ds, rest);
    SignedDigits('+', ds, rest);
  }

  lemma ParseDigitsOf(ds: string, rest: string)
    requires ds != [] && AllDigits(ds)
    requires rest == [] || !IsDecimalDigit(rest[0])
    ensures ParseDigits(ds + rest) == Num(DigitsValue(ds))
  {
    DigitPrefixOfDigits(ds, rest);
  }

  lemma UnsignedDigits(ds: string, rest: string)
    requires ds != [] && AllDigits(ds)
    requires rest == [] || !IsDecimalDigit(rest[0])
    ensures ParseInt10(ds + rest) == Num(DigitsValue(ds))
  {
    var t := ds + rest;
    ParseDigitsOf(ds, rest);
    assert t[0] == ds[0];
    TrimStartKeeps(t);
  }

  lemma SignedDigits(sign: char, ds: string, rest: string)
    requires sign == '-' || sign == '+'
    requires ds != [] && AllDigits(ds)
    requires rest == [] || !IsDecimalDigit(rest[0])
    ensures ParseInt10([sign] + ds + rest) == Num(if sign == '-' then -(DigitsValue(ds) as int) else DigitsValue(ds))
  {
    SignThenDigits(sign, ds, rest);
    ParseDigitsOf(ds, rest);
  }

  lemma SignThenDigits(sign: char, ds: string, rest: string)
    requires sign == '-' || sign == '+'
    ensures ParseInt10([sign] + ds + rest) == if sign == '-' then Negate(ParseDigits(ds + rest)) else ParseDigits(ds + rest)
  {
    var t := [sign] + ds + rest;
    assert t[0] == sign && t[1..] == ds + rest;
    SignedParse(t);
  }

  /** A string that starts with a sign reads as the digits after it, negated for `-`. */
  lemma SignedParse(t: string)
    requires t != [] && (t[0] == '-' || t[0] == '+')
    ensures ParseInt10(t) == if t[0] == '-' then Negate(ParseDigits(t[1..])) else ParseDigits(t[1..])
  {
    TrimStartKeeps(t);
  }

  lemma TrimStartKeeps(t: string)
    requires t != [] && !IsStrWhiteSpace(t[0])
    ensures TrimStart(t) == t
  {
  }

  /** Reading back a decimal spelling gives the number, with either sign. */
  lemma ParseDecimalRoundTrip(n: nat)
    ensures ParseInt10(DecimalString(n)) == Num(n)
    ensures ParseInt10("-" + DecimalString(n)) == Num(-(n as int))
  {
    var d := DecimalString(n);
    DecimalStringValue(n);
    UnsignedDigits(d, []);
    SignedDigits('-', d, []);
    assert d + [] == d;
    assert ['-'] + d + [] == "-" + d;
  }

  /** A string whose first non-blank character is neither a sign nor a digit reads as NaN. */
  lemma ParseWithoutDigitsIsNaN(w: string, s: string)
    requires forall i :: 0 <= i < |w| ==> IsStrWhiteSpace(w[i])
    requires s == [] || (!IsStrWhiteSpace(s[0]) && !IsDecimalDigit(s[0]) && s[0] != '-' && s[0] != '+')
    ensures ParseInt10(w + s).NaN?
  {
    ParseSkipsLeadingWhiteSpace(w, s);
  }

  /** A sign with no digit after it, such as "-" or "+x", reads as NaN. */
  lemma SignWithoutDigitsIsNaN(w: string, sign: char, s: string)
    requires forall i :: 0 <= i < |w| ==> IsStrWhiteSpace(w[i])
    requires sign == '-' || sign == '+'
    requires s == [] || !IsDecimalDigit(s[0])
    ensures ParseInt10(w + ([sign] + s)).NaN?
  {
    var t := [sign] + s;
    assert t[0] == sign && t[1..] == s;
    ParseSkipsLeadingWhiteSpace(w, t);
    SignedParse(t);
  }
}
