/** Decimal text of integers: Python's `str(int)`, the `{n:02d}` format,
    `int(text)` for base-10 literals, and a plain signed-decimal reader used
    to decode what the formatter writes. */
module Decimal {
  import opened Results
  import opened Text

  predicate AllDigits(s: string) {
    forall i :: 0 <= i < |s| ==> IsAsciiDigit(s[i])
  }

  function DigitChar(d: nat): (c: char)
    requires d < 10
    ensures IsAsciiDigit(c)
  {
    ('0' as int + d) as char
  }

  function DigitValue(c: char): (d: nat)
    requires IsAsciiDigit(c)
    ensures d < 10 && DigitChar(d) == c
  {
    c as int - '0' as int
  }

  /** The number a string of decimal digits denotes (most significant first). */
  function DigitsValue(s: string): nat
    requires AllDigits(s)
  {
    if s == [] then 0 else DigitsValue(s[..|s| - 1]) * 10 + DigitValue(s[|s| - 1])
  }

  /** `str(n)` for a natural number: the shortest digit string denoting `n`. */
  function NatToString(n: nat): (s: string)
    ensures 1 <= |s| && AllDigits(s)
    ensures DigitsValue(s) == n
    ensures s[0] == '0' ==> n == 0 && s == "0"
    ensures n < 10 <==> |s| == 1
  {
    if n < 10 then
      [DigitChar(n)]
    else
      var t := NatToString(n / 10);
      var s := t + [DigitChar(n % 10)];
      assert s[..|s| - 1] == t;
      s
  }

  /** `str(i)` for any integer: a minus sign in front of negative numbers. */
  function IntToString(i: int): (s: string)
    ensures 1 <= |s|
    ensures i >= 0 ==> s == NatToString(i)
    ensures i < 0 ==> s == "-" + NatToString(-i)
    ensures ' ' !in s
  {
    if i < 0 then "-" + NatToString(-i) else NatToString(i)
  }

  function Repeat(c: char, n: nat): (s: string)
    ensures |s| == n && forall i :: 0 <= i < n ==> s[i] == c
  {
    if n == 0 then [] else [c] + Repeat(c, n - 1)
  }

  /** The `{n:0<width>d}` format of a natural number: at least `width`
      characters, left-padded with zeros, still denoting `n`. */
  function ZeroPad(n: nat, width: nat): (s: string)
    ensures AllDigits(s)
    ensures |s| == if |NatToString(n)| >= width then |NatToString(n)| else width
    ensures DigitsValue(s) == n
  {
    var t := NatToString(n);
    if |t| >= width then t
    else
      var z := Repeat('0', width - |t|);
      LeadingZeros(z, t);
      z + t
  }

  lemma {:induction false} LeadingZeros(z: string, t: string)
    requires forall i :: 0 <= i < |z| ==> z[i] == '0'
    requires AllDigits(t)
    ensures AllDigits(z + t)
    ensures DigitsValue(z + t) == DigitsValue(t)
    decreases |t|
  {
    var s := z + t;
    if t == [] {
      assert s == z;
      AllZeros(z);
    } else {
      assert s[..|s| - 1] == z + t[..|t| - 1];
      LeadingZeros(z, t[..|t| - 1]);
    }
  }

  lemma {:induction false} AllZeros(z: string)
    requires forall i :: 0 <= i < |z| ==> z[i] == '0'
    ensures AllDigits(z) && DigitsValue(z) == 0
  {
    if z != [] {
      AllZeros(z[..|z| - 1]);
    }
  }

  function Pow10(k: nat): (p: nat)
    ensures p >= 1
  {
    if k == 0 then 1 else 10 * Pow10(k - 1)
  }

  /** A number below `10^k` takes at most `k` digits. */
  lemma {:induction false} NatToStringBelow(n: nat, k: nat)
    requires 1 <= k && n < Pow10(k)
    ensures |NatToString(n)| <= k
  {
    if n >= 10 {
      assert k >= 2;
      NatToStringBelow(n / 10, k - 1);
    }
  }

  /** Reads an optional `-` followed by one or more digits. */
  function ParseSigned(s: string): (r: Option<int>)
    ensures r.Some? && s != [] && s[0] != '-' ==> AllDigits(s) && r.value == DigitsValue(s)
  {
    if |s| >= 2 && s[0] == '-' && AllDigits(s[1..]) then
      var v: int := DigitsValue(s[1..]);
      Some(-v)
    else if |s| >= 1 && AllDigits(s) then Some(DigitsValue(s))
    else None
  }

  /** Reading back what `str(i)` writes gives `i`. */
  lemma IntToStringRoundTrip(i: int)
    ensures ParseSigned(IntToString(i)) == Some(i)
  {
    var s := IntToString(i);
    if i < 0 {
      assert s[1..] == NatToString(-i);
    }
  }

  /** Digits separated by single underscores, as Python's `int()` admits. */
  predicate IsUnderscoredDigits(s: string) {
    && |s| > 0
    && DigitsOrUnderscores(s)
    && IsAsciiDigit(s[0])
    && IsAsciiDigit(s[|s| - 1])
    && forall i :: 0 <= i < |s| ==>
         IsAsciiDigit(s[i]) || (s[i] == '_' && i + 1 < |s| && IsAsciiDigit(s[i + 1]))
  }

  predicate DigitsOrUnderscores(s: string) {
    forall i :: 0 <= i < |s| ==> IsAsciiDigit(s[i]) || s[i] == '_'
  }

  function RemoveUnderscores(s: string): (r: string)
    requires DigitsOrUnderscores(s)
    ensures AllDigits(r)
    ensures AllDigits(s) ==> r == s
  {
    if s == [] then []
    else if s[0] == '_' then RemoveUnderscores(s[1..])
    else [s[0]] + RemoveUnderscores(s[1..])
  }

  /** The shape of a base-10 `int()` literal once the whitespace around it
      is gone: an optional `+` or `-`, then digits in which single
      underscores may separate neighbouring digits. */
  predicate IsIntLiteral(t: string) {
    || IsUnderscoredDigits(t)
    || (|t| >= 2 && (t[0] == '+' || t[0] == '-') && IsUnderscoredDigits(t[1..]))
  }

  /** Python's `int(text)` for base-10 literals over ASCII digits: surrounding
      whitespace is ignored, one sign is allowed, and single underscores may
      separate digits. */
  function ParsePyInt(s: string): (r: Option<int>)
    ensures r.Some? <==> IsIntLiteral(Strip(s))
    ensures s != [] && AllDigits(s) ==> r == Some(DigitsValue(s))
    ensures r.Some? ==> Strip(s) != []
  {
    PlainDigitsParse(s);
    ReadLiteral(Strip(s))
  }

  /** The value of text already stripped of surrounding whitespace. */
  function ReadLiteral(t: string): (r: Option<int>)
    ensures r.Some? <==> IsIntLiteral(t)
  {
    if IsIntLiteral(t) then Some(LiteralValue(t)) else None
  }

  /** Text with no whitespace at either end is read as it stands. */
  lemma Unpadded(m: string)
    requires m != [] && !IsSpace(m[0]) && !IsSpace(m[|m| - 1])
    ensures ParsePyInt(m) == ReadLiteral(m)
  {
    assert Strip(m) == m;
  }

  /** The value of a literal: the digits with the underscores dropped,
      negated after a `-`. */
  function LiteralValue(t: string): int
    requires IsIntLiteral(t)
  {
    if IsUnderscoredDigits(t) then DigitsValue(RemoveUnderscores(t))
    else
      var v: int := DigitsValue(RemoveUnderscores(t[1..]));
      if t[0] == '-' then -v else v
  }

  /** `int(str(n)) == n` for every integer. */
  lemma PyIntRoundTrip(n: int)
    ensures ParsePyInt(IntToString(n)) == Some(n)
  {
    if n < 0 {
      var d := NatToString(-n);
      var m := IntToString(n);
      assert m[1..] == d;
      PlainDigitsParse(d);
      var v := NegativeValue(m);
    } else {
      PlainDigitsParse(IntToString(n));
    }
  }

  /** Whitespace around the literal does not change what `int()` reads. */
  lemma PyIntIgnoresPadding(s: string)
    ensures ParsePyInt(s) == ParsePyInt(Strip(s))
  {
    var t := Strip(s);
    assert t == [] || (!IsSpace(t[0]) && !IsSpace(t[|t| - 1]));
    assert Strip(t) == t;
  }

  /** Underscores between digits carry no value: an underscored literal
      reads as the same digits without them. */
  lemma PyIntIgnoresUnderscores(t: string)
    requires IsUnderscoredDigits(t)
    ensures ParsePyInt(t) == ParsePyInt(RemoveUnderscores(t))
    ensures ParsePyInt(t).Some? && ParsePyInt(t).value >= 0
  {
    assert !IsSpace(t[0]) && !IsSpace(t[|t| - 1]);
    var d := RemoveUnderscores(t);
    assert d != [] by { UnderscoredKeepsDigit(t); }
    PlainDigitsParse(d);
  }

  /** An underscored literal keeps at least one digit. */
  lemma {:induction false} UnderscoredKeepsDigit(t: string)
    requires DigitsOrUnderscores(t) && t != [] && IsAsciiDigit(t[0])
    ensures RemoveUnderscores(t) != []
  {
  }

  /** An unsigned literal reads as its digits without underscores. */
  lemma UnsignedValue(t: string) returns (v: int)
    requires IsUnderscoredDigits(t)
    ensures v == DigitsValue(RemoveUnderscores(t))
    ensures ParsePyInt(t) == Some(v)
  {
    assert !IsSpace(t[0]) && !IsSpace(t[|t| - 1]);
    assert Strip(t) == t;
    assert IsIntLiteral(t);
    v := DigitsValue(RemoveUnderscores(t));
  }

  /** After `-` the digits without underscores are negated. */
  lemma NegativeValue(m: string) returns (v: int)
    requires |m| >= 2 && m[0] == '-' && IsUnderscoredDigits(m[1..])
    ensures v == -(DigitsValue(RemoveUnderscores(m[1..])) as int)
    ensures ParsePyInt(m) == Some(v)
  {
    SignedUnpadded(m);
    v := LiteralValue(m);
  }

  /** After `+` the digits without underscores are kept. */
  lemma PositiveValue(m: string) returns (v: int)
    requires |m| >= 2 && m[0] == '+' && IsUnderscoredDigits(m[1..])
    ensures v == DigitsValue(RemoveUnderscores(m[1..]))
    ensures ParsePyInt(m) == Some(v)
  {
    SignedUnpadded(m);
    v := LiteralValue(m);
  }

  /** A signed literal has no whitespace at its ends and is not unsigned. */
  lemma SignedUnpadded(m: string)
    requires |m| >= 2 && (m[0] == '-' || m[0] == '+') && IsUnderscoredDigits(m[1..])
    ensures ParsePyInt(m) == ReadLiteral(m) && !IsUnderscoredDigits(m)
  {
    assert m[|m| - 1] == m[1..][|m| - 2];
    Unpadded(m);
    assert !IsAsciiDigit(m[0]);
  }

  /** Texts `int()` refuses: a letter, a doubled or leading underscore, a
      bare sign, and blank text. */
  lemma PyIntRejects()
    ensures ParsePyInt("1a") == None
    ensures ParsePyInt("1__0") == None
    ensures ParsePyInt("_1") == None
    ensures ParsePyInt("+") == None
    ensures ParsePyInt(" ") == None
  {
    RejectsLetter();
    RejectsDoubleUnderscore();
    RejectsLeadingUnderscore();
    RejectsBareSign();
    RejectsBlank();
  }

  lemma RejectsLetter()
    ensures ParsePyInt("1a") == None
  {
    assert !IsAsciiDigit("1a"[1]);
    NotALiteral("1a");
  }

  lemma RejectsDoubleUnderscore()
    ensures ParsePyInt("1__0") == None
  {
    assert "1__0"[1] == '_' && !IsAsciiDigit("1__0"[2]);
    NotALiteral("1__0");
  }

  lemma RejectsLeadingUnderscore()
    ensures ParsePyInt("_1") == None
  {
    assert !IsAsciiDigit("_1"[0]);
    NotALiteral("_1");
  }

  lemma RejectsBareSign()
    ensures ParsePyInt("+") == None
  {
    assert !IsAsciiDigit("+"[0]);
    NotALiteral("+");
  }

  lemma RejectsBlank()
    ensures ParsePyInt(" ") == None
  {
    assert Strip(" ") == [] by { assert IsSpace(" "[0]); }
    assert !IsIntLiteral([]);
  }

  /** Text without whitespace at its ends that is no literal is refused. */
  lemma NotALiteral(x: string)
    requires x != [] && !IsSpace(x[0]) && !IsSpace(x[|x| - 1])
    requires !IsIntLiteral(x)
    ensures ParsePyInt(x) == None
  {
    assert Strip(x) == x;
  }

  /** A plain digit string is its own `int()` literal. */
  lemma PlainDigitsParse(s: string)
    ensures s != [] && AllDigits(s) ==>
      Strip(s) == s && IsUnderscoredDigits(s) && RemoveUnderscores(s) == s
  {
    if s != [] && AllDigits(s) {
      assert IsAsciiDigit(s[0]) && IsAsciiDigit(s[|s| - 1]);
    assert !IsSpace(s[0]) && !IsSpace(s[|s| - 1]);
      assert DigitsOrUnderscores(s);
    }
  }
}
