/**
 * `parseInt(s, 10)` as the server applies it to route parameters and form
 * fields (section 19.2.5 of ECMA-262): skip leading white space, accept one
 * optional sign, then read the longest run of decimal digits; no digits at all
 * gives NaN. Whatever follows the digits is ignored.
 */
module JsParseInt {
  import opened JsValues

  /** The Number that parseInt returns: NaN or an integral value. */
  datatype ParsedInt = NaN | Int(value: int)

  /** StrWhiteSpaceChar: WhiteSpace or LineTerminator. */
  predicate IsStrWhiteSpace(c: char)
  {
    c == ' ' || c == '\t' || c == '\n' || c == '\r' ||
    c == '\U{000B}' || c == '\U{000C}' || c == '\U{00A0}' || c == '\U{FEFF}' ||
    c == '\U{1680}' || ('\U{2000}' <= c <= '\U{200A}') ||
    c == '\U{2028}' || c == '\U{2029}' || c == '\U{202F}' || c == '\U{205F}' || c == '\U{3000}'
  }

  predicate IsDigit(c: char)
  {
    '0' <= c <= '9'
  }

  predicate AllDigits(s: string)
  {
    forall i :: 0 <= i < |s| ==> IsDigit(s[i])
  }

  /** The input with its leading white space removed. */
  function TrimStart(s: string): (t: string)
    ensures |t| <= |s| && t == s[|s| - |t|..]
    ensures forall i :: 0 <= i < |s| - |t| ==> IsStrWhiteSpace(s[i])
    ensures t == [] || !IsStrWhiteSpace(t[0])
  {
    if s != [] && IsStrWhiteSpace(s[0]) then TrimStart(s[1..]) else s
  }

  /** The longest prefix of decimal digits. */
  function DigitPrefix(s: string): (d: string)
    ensures |d| <= |s| && d == s[..|d|]
    ensures AllDigits(d)
    ensures |d| == |s| || !IsDigit(s[|d|])
  {
    if s != [] && IsDigit(s[0]) then [s[0]] + DigitPrefix(s[1..]) else []
  }

  /** The mathematical value of a run of decimal digits. */
  function DigitsValue(d: string): nat
    requires AllDigits(d)
  {
    if d == [] then 0 else DigitsValue(d[..|d| - 1]) * 10 + (d[|d| - 1] as int - '0' as int)
  }

  /** The text after one optional sign. */
  function Unsigned(t: string): (u: string)
    ensures |u| <= |t|
  {
    if t != [] && (t[0] == '-' || t[0] == '+') then t[1..] else t
  }

  /** parseInt of text that starts with no white space. */
  function ParseTrimmed(t: string): ParsedInt
  {
    var z := DigitPrefix(Unsigned(t));
    if z == [] then NaN
    else
      var magnitude: int := DigitsValue(z);
      Int(if t[0] == '-' then -magnitude else magnitude)
  }

  function ParseInt(s: string): ParsedInt
  {
    ParseTrimmed(TrimStart(s))
  }

  lemma {:induction false} DigitsValueOfDecimal(n: nat)
    ensures DigitsValue(Decimal(n)) == n
  {
    if n >= 10 {
      var s := Decimal(n / 10) + [DigitChar(n % 10)];
      assert s[..|s| - 1] == Decimal(n / 10);
      DigitsValueOfDecimal(n / 10);
    }
  }

  lemma {:induction false} DigitPrefixOfDigits(d: string, rest: string)
    requires AllDigits(d)
    requires rest == [] || !IsDigit(rest[0])
    ensures DigitPrefix(d + rest) == d
  {
    if d == [] {
      assert d + rest == rest;
    } else {
      assert (d + rest)[1..] == d[1..] + rest;
      DigitPrefixOfDigits(d[1..], rest);
    }
  }

  lemma TrimStartKeeps(s: string)
    requires s != [] && !IsStrWhiteSpace(s[0])
    ensures TrimStart(s) == s
  {
  }

  /** ParseInt once the white space is gone and the sign is decided. */
  lemma ParseIntUnsigned(s: string, negative: bool, u: string)
    requires s != [] && !IsStrWhiteSpace(s[0])
    requires negative ==> s[0] == '-' && u == s[1..]
    requires !negative ==> s[0] != '-' && s[0] != '+' && u == s
    requires DigitPrefix(u) != []
    ensures ParseInt(s) == Int(if negative then 0 - DigitsValue(DigitPrefix(u)) else DigitsValue(DigitPrefix(u)))
  {
    TrimStartKeeps(s);
    assert Unsigned(s) == u;
  }

  /** A run of digits, with no sign, followed by a non-digit parses to its value. */
  lemma ParseIntOfDigits(d: string, rest: string)
    requires d != [] && AllDigits(d)
    requires rest == [] || !IsDigit(rest[0])
    ensures ParseInt(d + rest) == Int(DigitsValue(d))
  {
    var s := d + rest;
    assert s[0] == d[0];
    assert IsDigit(s[0]);
    DigitPrefixOfDigits(d, rest);
    ParseIntUnsigned(s, false, s);
  }

  lemma SignedSplit(d: string, rest: string)
    ensures ("-" + d + rest)[0] == '-'
    ensures ("-" + d + rest)[1..] == d + rest
  {
  }

  /** A minus sign followed by a run of digits parses to the negated value. */
  lemma ParseIntOfNegatedDigits(d: string, rest: string)
    requires d != [] && AllDigits(d)
    requires rest == [] || !IsDigit(rest[0])
    ensures ParseInt("-" + d + rest) == Int(0 - DigitsValue(d))
  {
    SignedSplit(d, rest);
    DigitPrefixOfDigits(d, rest);
    ParseIntUnsigned("-" + d + rest, true, d + rest);
  }

  /**
   * The string of an integral Number, followed by anything that does not start
   * with a digit, parses back to that Number; in particular
   * `parseInt(String(n), 10) === n`.
   */
  lemma ParseIntOfNumberToString(n: int, rest: string)
    requires rest == [] || !IsDigit(rest[0])
    ensures ParseInt(NumberToString(n) + rest) == Int(n)
  {
    if n < 0 {
      var d := Decimal(-n);
      assert NumberToString(n) == "-" + d;
      DigitsValueOfDecimal(-n);
      ParseIntOfNegatedDigits(d, rest);
    } else {
      var d := Decimal(n);
      assert NumberToString(n) == d;
      DigitsValueOfDecimal(n);
      ParseIntOfDigits(d, rest);
    }
  }

  lemma {:induction false} TrimStartSkipsWhiteSpace(ws: string, s: string)
    requires forall i :: 0 <= i < |ws| ==> IsStrWhiteSpace(ws[i])
    ensures TrimStart(ws + s) == TrimStart(s)
  {
    if ws != [] {
      assert (ws + s)[1..] == ws[1..] + s;
      TrimStartSkipsWhiteSpace(ws[1..], s);
    } else {
      assert ws + s == s;
    }
  }

  /** Leading white space never changes what parseInt returns. */
  lemma ParseIntSkipsWhiteSpace(ws: string, s: string)
    requires forall i :: 0 <= i < |ws| ==> IsStrWhiteSpace(ws[i])
    ensures ParseInt(ws + s) == ParseInt(s)
  {
    TrimStartSkipsWhiteSpace(ws, s);
  }

  /**
   * parseInt is NaN exactly when no digit follows the white space and the
   * optional sign.
   */
  lemma ParseIntNaNIffNoDigits(s: string)
    ensures ParseInt(s).NaN? <==>
      var u := Unsigned(TrimStart(s));
      u == [] || !IsDigit(u[0])
  {
  }

  /** A missing field converts to the text "undefined", which is NaN. */
  lemma ParseIntOfUndefined()
    ensures ParseInt(Display(None)) == NaN
  {
    var s := "undefined";
    assert s[0] == 'u' && !IsStrWhiteSpace(s[0]);
    TrimStartKeeps(s);
    assert Unsigned(s) == s;
    assert DigitPrefix(s) == [];
  }
}
