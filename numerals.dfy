/** Decimal text of integers: Python's `str(n)` for an `int`, and `int(s)`
    for a string (the ASCII subset: surrounding whitespace, an optional sign
    and decimal digits). */
module Numerals {
  import opened Wrappers

  predicate IsDigit(c: char) {
    '0' <= c <= '9'
  }

  predicate AllDigits(s: string) {
    forall i :: 0 <= i < |s| ==> IsDigit(s[i])
  }

  /** The whitespace Python's `int()` skips around the digits (ASCII part). */
  predicate IsWhitespace(c: char) {
    c == ' ' || 9 <= c as int <= 13
  }

  function DigitValue(c: char): (d: nat)
    requires IsDigit(c)
    ensures d < 10
  {
    c as int - '0' as int
  }

  function DigitChar(d: nat): (c: char)
    requires d < 10
    ensures IsDigit(c) && DigitValue(c) == d
  {
    ('0' as int + d) as char
  }

  /** The digits of `n`, most significant first, without leading zeros. */
  function NatToDecimal(n: nat): (s: string)
    ensures |s| > 0 && AllDigits(s)
    ensures |s| > 1 ==> s[0] != '0'
  {
    if n < 10 then [DigitChar(n)] else NatToDecimal(n / 10) + [DigitChar(n % 10)]
  }

  /** `str(n)` for a Python `int`: a '-' exactly for a negative number, then
      the digits of the magnitude without leading zeros. */
  function IntToDecimal(n: int): (s: string)
    ensures |s| > 0
    ensures n < 0 <==> s[0] == '-'
    ensures n >= 0 ==> AllDigits(s) && (|s| > 1 ==> s[0] != '0')
    ensures n < 0 ==> |s| > 1 && AllDigits(s[1..]) && (|s| > 2 ==> s[1] != '0')
  {
    if n < 0 then
      var digits := NatToDecimal(-n);
      assert ("-" + digits)[1..] == digits;
      "-" + digits
    else NatToDecimal(n)
  }

  /** The number a string of decimal digits denotes. */
  function DigitsValue(s: string): nat
    requires AllDigits(s)
  {
    if s == [] then 0 else DigitsValue(s[..|s| - 1]) * 10 + DigitValue(s[|s| - 1])
  }

  function TrimStart(s: string): (t: string)
    ensures |t| <= |s|
    ensures t == s[|s| - |t|..]
    ensures t != [] ==> !IsWhitespace(t[0])
  {
    if s != [] && IsWhitespace(s[0]) then TrimStart(s[1..]) else s
  }

  function TrimEnd(s: string): (t: string)
    ensures |t| <= |s| && t == s[..|t|]
    ensures t != [] ==> !IsWhitespace(t[|t| - 1])
  {
    if s != [] && IsWhitespace(s[|s| - 1]) then TrimEnd(s[..|s| - 1]) else s
  }

  /** `int(s)` for a Python `str`; `None` where Python raises `ValueError`. */
  function ParseInt(s: string): (r: Option<int>)
  {
    ParseTrimmed(TrimEnd(TrimStart(s)))
  }

  /** An optional sign followed by one or more digits. */
  function ParseTrimmed(t: string): (r: Option<int>)
  {
    if t == [] then None
    else if t[0] == '-' || t[0] == '+' then
      var digits := t[1..];
      if digits != [] && AllDigits(digits) then
        var magnitude: int := DigitsValue(digits);
        Some(if t[0] == '-' then -magnitude else magnitude)
      else None
    else if AllDigits(t) then
      Some(DigitsValue(t))
    else None
  }

  lemma {:induction false} LemmaDigitsOfNat(n: nat)
    ensures DigitsValue(NatToDecimal(n)) == n
  {
    if n >= 10 {
      var s := NatToDecimal(n / 10) + [DigitChar(n % 10)];
      assert s[..|s| - 1] == NatToDecimal(n / 10);
      LemmaDigitsOfNat(n / 10);
    }
  }

  lemma {:induction false} LemmaTrimNoWhitespace(s: string)
    requires s != [] && !IsWhitespace(s[0]) && !IsWhitespace(s[|s| - 1])
    ensures TrimEnd(TrimStart(s)) == s
  {
  }

  /** '-' followed by digits has no surrounding whitespace to trim. */
  lemma LemmaTrimSigned(digits: string)
    requires digits != [] && AllDigits(digits)
    ensures TrimEnd(TrimStart("-" + digits)) == "-" + digits
  {
    var s := "-" + digits;
    assert s[|s| - 1] == digits[|digits| - 1];
    LemmaTrimNoWhitespace(s);
  }

  lemma LemmaParseSigned(digits: string)
    requires digits != [] && AllDigits(digits)
    ensures ParseTrimmed("-" + digits) == Some(-(DigitsValue(digits) as int))
  {
    assert ("-" + digits)[1..] == digits;
  }

  /** A digit string parses to its value. */
  lemma LemmaParseUnsigned(digits: string)
    requires digits != [] && AllDigits(digits)
    ensures ParseInt(digits) == Some(DigitsValue(digits))
  {
    assert IsDigit(digits[0]) && IsDigit(digits[|digits| - 1]);
    LemmaTrimNoWhitespace(digits);
    assert ParseInt(digits) == ParseTrimmed(digits);
  }

  /** A digit string preceded by '-' parses to the negated value. */
  lemma LemmaParseNegative(digits: string)
    requires digits != [] && AllDigits(digits)
    ensures ParseInt("-" + digits) == Some(-(DigitsValue(digits) as int))
  {
    LemmaTrimSigned(digits);
    assert ParseInt("-" + digits) == ParseTrimmed("-" + digits);
    LemmaParseSigned(digits);
  }

  /** `int()` skips surrounding whitespace and takes an optional '+' or '-'. */
  lemma LemmaParseIntAccepts()
    ensures ParseInt(" 12\n") == Some(12)
    ensures ParseInt("+7") == Some(7)
    ensures ParseInt("-0") == Some(0)
  {
    assert TrimStart(" 12\n") == TrimStart("12\n") == "12\n";
    assert TrimEnd("12\n") == TrimEnd("12") == "12";
    assert DigitsValue("12") == 12 by {
      assert "12"[..1] == "1";
    }
    LemmaParseDigitsOnly("12");
    assert "+7"[1..] == "7";
    assert "-0"[1..] == "0";
    LemmaTrimNoWhitespace("+7");
    LemmaTrimNoWhitespace("-0");
  }

  /** A character other than a digit after the first one (a decimal point, an
      inner space) makes `int()` raise. */
  lemma LemmaParseRejectsInner(t: string, i: int)
    requires t != [] && !IsWhitespace(t[0]) && !IsWhitespace(t[|t| - 1])
    requires 0 < i < |t| && !IsDigit(t[i])
    ensures ParseInt(t) == None
  {
    LemmaTrimNoWhitespace(t);
    assert t[1..][i - 1] == t[i];
  }

  /** An empty or all-whitespace string makes `int()` raise. */
  lemma {:induction false} LemmaParseRejectsBlank(s: string)
    requires forall i :: 0 <= i < |s| ==> IsWhitespace(s[i])
    ensures TrimStart(s) == []
    ensures ParseInt(s) == None
  {
    if s != [] {
      assert forall i :: 0 <= i < |s[1..]| ==> s[1..][i] == s[i + 1];
      LemmaParseRejectsBlank(s[1..]);
    }
  }

  /** A sign with no digits makes `int()` raise. */
  lemma LemmaParseRejectsLoneSign(t: string)
    requires |t| == 1 && (t[0] == '-' || t[0] == '+')
    ensures ParseInt(t) == None
  {
    LemmaTrimNoWhitespace(t);
    assert ParseTrimmed(t) == None by {
      assert t[1..] == [];
    }
  }

  lemma LemmaParseDigitsOnly(t: string)
    requires t != [] && AllDigits(t)
    ensures ParseTrimmed(t) == Some(DigitsValue(t))
  {
    assert IsDigit(t[0]);
  }

  /** `int(str(n)) == n`: the decimal text of an integer parses back to it. */
  lemma LemmaParseIntToDecimal(n: int)
    ensures ParseInt(IntToDecimal(n)) == Some(n)
  {
    var m: nat := if n < 0 then -n else n;
    LemmaDigitsOfNat(m);
    if n < 0 {
      LemmaParseNegative(NatToDecimal(m));
    } else {
      LemmaParseUnsigned(NatToDecimal(m));
    }
  }
}
