/** The conversions between text and numbers that the order service relies on:
    Python's `int(str)` (order ids taken from a URL path), Python's `float(str)`
    (order quantities sent as strings) and the decimal rendering of an `int`
    inside an f-string (the order id in a published event). */
module Numerals {
  import opened Wrappers

  /** A Python `float`. Finite values are exact reals here: rounding,
      overflow to infinity and underflow to zero are not modelled. */
  datatype PyFloat = Finite(x: real) | Inf(negative: bool) | NaN

  /** Python's comparison `f >= 0`, which is false for NaN. */
  predicate AtLeastZero(f: PyFloat) {
    match f
    case Finite(x) => x >= 0.0
    case Inf(negative) => !negative
    case NaN => false
  }

  /** The characters `int()` and `float()` strip from both ends of their
      argument: the six ASCII white-space characters (tab, line feed,
      vertical tab, form feed, carriage return, space) and the non-ASCII
      characters Unicode counts as white space. The ASCII separators
      U+001C to U+001F, for which `str.isspace()` holds, are not stripped. */
  predicate IsSpace(c: char) {
    c == ' ' || '\t' <= c <= '\r' || c == '\U{85}' || c == '\U{a0}' ||
    c == '\U{1680}' || '\U{2000}' <= c <= '\U{200a}' || c == '\U{2028}' || c == '\U{2029}' ||
    c == '\U{202f}' || c == '\U{205f}' || c == '\U{3000}'
  }

  predicate IsDigit(c: char) {
    '0' <= c <= '9'
  }

  predicate AllDigits(s: string) {
    forall i :: 0 <= i < |s| ==> IsDigit(s[i])
  }

  function DigitValue(c: char): (d: nat)
    requires IsDigit(c)
    ensures d < 10
  {
    c as int - '0' as int
  }

  function DigitChar(d: nat): (c: char)
    requires d < 10
    ensures IsDigit(c) && DigitValue(c) == d
  {
    ('0' as int + d) as char
  }

  /** Drops leading white space. */
  function TrimStart(s: string): (r: string)
    ensures |r| <= |s| && r == s[|s| - |r|..]
    ensures forall i :: 0 <= i < |s| - |r| ==> IsSpace(s[i])
    ensures r == [] || !IsSpace(r[0])
  {
    if s != [] && IsSpace(s[0]) then
      var r := TrimStart(s[1..]);
      assert forall i :: 1 <= i < |s| - |r| ==> s[i] == s[1..][i - 1];
      r
    else s
  }

  /** Drops trailing white space. */
  function TrimEnd(s: string): (r: string)
    ensures |r| <= |s| && r == s[..|r|]
    ensures forall i :: |r| <= i < |s| ==> IsSpace(s[i])
    ensures r == [] || !IsSpace(r[|r| - 1])
  {
    if s != [] && IsSpace(s[|s| - 1]) then TrimEnd(s[..|s| - 1]) else s
  }

  /** Python's `s.strip()`. */
  function Strip(s: string): (r: string)
    ensures r == [] || (!IsSpace(r[0]) && !IsSpace(r[|r| - 1]))
  {
    TrimEnd(TrimStart(s))
  }

  /** A string with no white space at either end is its own strip. */
  lemma StripKeeps(s: string)
    requires s == [] || (!IsSpace(s[0]) && !IsSpace(s[|s| - 1]))
    ensures Strip(s) == s
  {
  }

  /** A leading `+` or `-`, and what follows it. */
  function SplitSign(t: string): (r: (bool, string))
    ensures r.1 == t || (|t| > 0 && r.1 == t[1..] && (t[0] == '+' || t[0] == '-'))
    ensures r.0 <==> t != [] && t[0] == '-'
  {
    if t != [] && (t[0] == '+' || t[0] == '-') then (t[0] == '-', t[1..]) else (false, t)
  }

  /** A non-empty run of ASCII digits in which single underscores may stand
      between two digits, the form Python's `int()` and `float()` accept for
      each group of digits. */
  predicate DigitGroup(s: string)
    decreases |s|
  {
    |s| > 0 && IsDigit(s[0]) &&
    (|s| == 1 || (s[1] == '_' && DigitGroup(s[2..])) || (s[1] != '_' && DigitGroup(s[1..])))
  }

  /** The digits of a digit group, underscores removed. */
  function WithoutUnderscores(s: string): (r: string)
    ensures forall i :: 0 <= i < |r| ==> r[i] != '_'
    ensures DigitGroup(s) ==> |r| > 0 && AllDigits(r)
    ensures AllDigits(s) ==> r == s
    ensures s == "_" ==> r == []
  {
    if s == [] then []
    else if s[0] == '_' then WithoutUnderscores(s[1..])
    else [s[0]] + WithoutUnderscores(s[1..])
  }

  /** A single character other than `_` is kept. */
  lemma WithoutUnderscoresKeeps(c: char)
    requires c != '_'
    ensures WithoutUnderscores([c]) == [c]
  {
    assert [c][1..] == [];
  }

  /** Removing underscores works piece by piece: together with the
      one-character cases (an underscore goes, and by
      `WithoutUnderscoresKeeps` any other character stays) this determines
      `WithoutUnderscores` as the subsequence of `s` that is not `_`. */
  lemma {:induction false} WithoutUnderscoresAppend(a: string, b: string)
    ensures WithoutUnderscores(a + b) == WithoutUnderscores(a) + WithoutUnderscores(b)
  {
    if a == [] {
      assert a + b == b;
    } else {
      assert (a + b)[1..] == a[1..] + b;
      WithoutUnderscoresAppend(a[1..], b);
    }
  }

  /** A digit group ends in a digit. */
  lemma {:induction false} GroupEndsInDigit(s: string)
    requires DigitGroup(s)
    ensures IsDigit(s[|s| - 1])
  {
    if |s| > 1 {
      if s[1] == '_' {
        GroupEndsInDigit(s[2..]);
      } else {
        GroupEndsInDigit(s[1..]);
      }
    }
  }

  /** The value of a string of decimal digits, most significant first. */
  function DigitsValue(s: string): nat
    requires AllDigits(s)
  {
    if s == [] then 0 else DigitsValue(s[..|s| - 1]) * 10 + DigitValue(s[|s| - 1])
  }

  /** The decimal rendering of a natural number, without leading zeros. */
  function NatToString(n: nat): (r: string)
    ensures |r| > 0 && AllDigits(r) && DigitsValue(r) == n
    ensures |r| > 1 ==> r[0] != '0'
  {
    if n < 10 then [DigitChar(n)]
    else
      var prefix := NatToString(n / 10);
      var r := prefix + [DigitChar(n % 10)];
      assert r[..|r| - 1] == prefix;
      r
  }

  /** The decimal rendering of an `int`, as `str(n)` or an f-string gives it. */
  function IntToString(n: int): (r: string)
    ensures |r| > 0 && (n < 0 <==> r[0] == '-')
    ensures forall i :: 0 < i < |r| ==> IsDigit(r[i])
    ensures IsDigit(r[|r| - 1])
  {
    if n < 0 then "-" + NatToString(-n) else NatToString(n)
  }

  /** An optional sign followed by a digit group, as an integer. */
  function ParseSigned(t: string): Option<int> {
    var (negative, body) := SplitSign(t);
    if DigitGroup(body) then
      var v: int := DigitsValue(WithoutUnderscores(body));
      Some(if negative then -v else v)
    else None
  }

  /** Python's `int(s)` for a string `s` in base 10: `None` where Python
      raises `ValueError`. */
  function ParseInt(s: string): (r: Option<int>)
    ensures var t := Strip(s); |t| > 0 && AllDigits(t) ==> r == Some(DigitsValue(t))
    ensures var t := Strip(s); r.Some? ==>
      |t| > 0 && IsDigit(t[|t| - 1]) && (IsDigit(t[0]) || t[0] == '+' || t[0] == '-') &&
      (r.value < 0 ==> t[0] == '-') && (t[0] == '-' ==> r.value <= 0)
  {
    ParseSignedFacts(Strip(s));
    ParseSigned(Strip(s))
  }

  /** What `ParseSigned` accepts and the sign of what it gives. */
  lemma ParseSignedFacts(t: string)
    ensures |t| > 0 && AllDigits(t) ==> ParseSigned(t) == Some(DigitsValue(t))
    ensures ParseSigned(t).Some? ==>
      |t| > 0 && IsDigit(t[|t| - 1]) && (IsDigit(t[0]) || t[0] == '+' || t[0] == '-') &&
      (ParseSigned(t).value < 0 ==> t[0] == '-') && (t[0] == '-' ==> ParseSigned(t).value <= 0)
  {
    if |t| > 0 && AllDigits(t) {
      ParseSignedOfDigits(t);
    }
    if ParseSigned(t).Some? {
      ParseSignedShape(t);
    }
  }

  lemma ParseSignedOfDigits(t: string)
    requires |t| > 0 && AllDigits(t)
    ensures ParseSigned(t) == Some(DigitsValue(t))
  {
    DigitsAreGroup(t);
    assert SplitSign(t) == (false, t);
  }

  lemma ParseSignedShape(t: string)
    requires ParseSigned(t).Some?
    ensures |t| > 0 && IsDigit(t[|t| - 1]) && (IsDigit(t[0]) || t[0] == '+' || t[0] == '-')
    ensures ParseSigned(t).value < 0 ==> t[0] == '-'
    ensures t[0] == '-' ==> ParseSigned(t).value <= 0
  {
    var (negative, body) := SplitSign(t);
    assert DigitGroup(body);
    GroupEndsInDigit(body);
    assert t[|t| - 1] == body[|body| - 1];
  }

  /** Reading back what `IntToString` renders gives the number again. */
  lemma ParseIntOfRendering(n: int)
    ensures ParseInt(IntToString(n)) == Some(n)
  {
    var s := IntToString(n);
    assert !IsSpace(s[0]) && !IsSpace(s[|s| - 1]);
    StripKeeps(s);
    ParseSignedOfRendering(n);
  }

  lemma ParseSignedOfRendering(n: int)
    ensures ParseSigned(IntToString(n)) == Some(n)
  {
    var magnitude: nat := if n < 0 then -n else n;
    var digits := NatToString(magnitude);
    var s := IntToString(n);
    DigitsAreGroup(digits);
    if n < 0 {
      assert s[1..] == digits;
      assert SplitSign(s) == (true, digits);
    } else {
      assert SplitSign(s) == (false, digits);
    }
  }

  /** Every non-empty digit string is a digit group. */
  lemma {:induction false} DigitsAreGroup(s: string)
    requires |s| > 0 && AllDigits(s)
    ensures DigitGroup(s)
  {
    if |s| > 1 {
      DigitsAreGroup(s[1..]);
    }
  }

  /** Position of the first character of `s` in `cs`, or `|s|` if there is none. */
  function FindAny(s: string, cs: set<char>): (k: nat)
    ensures k <= |s| && (k < |s| ==> s[k] in cs)
    ensures forall j :: 0 <= j < k ==> s[j] !in cs
  {
    if s == [] then 0
    else if s[0] in cs then 0
    else 1 + FindAny(s[1..], cs)
  }

  /** Python's `s.lower()` restricted to ASCII letters. */
  function AsciiLower(s: string): (r: string)
    ensures |r| == |s|
  {
    if s == [] then []
    else [if 'A' <= s[0] <= 'Z' then (s[0] as int + 32) as char else s[0]] + AsciiLower(s[1..])
  }

  /** `AsciiLower` maps each ASCII capital to its small letter and keeps
      every other character. */
  lemma {:induction false} AsciiLowerAt(s: string, i: nat)
    requires i < |s|
    ensures AsciiLower(s)[i] == if 'A' <= s[i] <= 'Z' then (s[i] as int + 32) as char else s[i]
  {
    if i > 0 {
      AsciiLowerAt(s[1..], i - 1);
    }
  }

  function Pow10(e: nat): (p: nat)
    ensures p >= 1
  {
    if e == 0 then 1 else 10 * Pow10(e - 1)
  }

  /** `m * 10^e` as an exact real. */
  function Scale(m: nat, e: int): (x: real)
    ensures x >= 0.0
  {
    if e >= 0 then (m * Pow10(e)) as real else m as real / Pow10(-e) as real
  }

  /** An unsigned decimal float literal split at its exponent marker: the
      mantissa, and the exponent (zero when there is no marker, `None` when
      what follows the marker is not a signed digit group). */
  function SplitExponent(s: string): (r: (string, Option<int>))
    ensures |r.0| <= |s| && r.0 == s[..|r.0|]
    ensures forall i :: 0 <= i < |r.0| ==> r.0[i] != 'e' && r.0[i] != 'E'
  {
    var e := FindAny(s, {'e', 'E'});
    (s[..e], if e == |s| then Some(0) else ParseSigned(s[e + 1..]))
  }

  /** The digits before and after the point of a mantissa, underscores
      removed; `None` unless both parts are digit groups or empty and not
      both are empty. */
  function MantissaDigits(mantissa: string): (r: Option<(string, string)>)
    ensures r.Some? ==> AllDigits(r.value.0) && AllDigits(r.value.1) && |r.value.0| + |r.value.1| > 0
  {
    var d := FindAny(mantissa, {'.'});
    var whole := mantissa[..d];
    var fraction := if d == |mantissa| then [] else mantissa[d + 1..];
    if whole == [] && fraction == [] then None
    else if (whole != [] && !DigitGroup(whole)) || (fraction != [] && !DigitGroup(fraction)) then None
    else Some((WithoutUnderscores(whole), WithoutUnderscores(fraction)))
  }

  /** An unsigned decimal float literal: digits with an optional fraction
      part and an optional exponent, at least one digit before the
      exponent. */
  function ParseDecimal(s: string): Option<real> {
    var (mantissa, exponent) := SplitExponent(s);
    match (MantissaDigits(mantissa), exponent)
    case (Some((whole, fraction)), Some(x)) => Some(Scale(DigitsValue(whole + fraction), x - |fraction|))
    case _ => None
  }

  /** Python's `float(s)` for a string `s`: `None` where Python raises
      `ValueError`. */
  function ParseFloat(s: string): (r: Option<PyFloat>)
    ensures var word := AsciiLower(SplitSign(Strip(s)).1);
      (r == Some(NaN) <==> word == "nan") &&
      (r.Some? && r.value.Inf? <==> word == "inf" || word == "infinity")
    ensures r.Some? && r.value.Inf? ==> (r.value.negative <==> Strip(s) != [] && Strip(s)[0] == '-')
    ensures r.Some? && r.value.Finite? && r.value.x < 0.0 ==> Strip(s) != [] && Strip(s)[0] == '-'
  {
    var (negative, body) := SplitSign(Strip(s));
    var word := AsciiLower(body);
    if word == "inf" || word == "infinity" then Some(Inf(negative))
    else if word == "nan" then Some(NaN)
    else match ParseDecimal(body)
      case None => None
      case Some(x) => Some(Finite(if negative then -x else x))
  }

  /** Every string `int()` accepts, `float()` accepts too, with the same value. */
  lemma ParseFloatOfInt(s: string)
    requires ParseInt(s).Some?
    ensures ParseFloat(s) == Some(Finite(ParseInt(s).value as real))
  {
    var (negative, body) := SplitSign(Strip(s));
    assert DigitGroup(body);
    DigitFirstIsNotWord(body);
    GroupIsDecimal(body);
  }

  /** A string that starts with a digit does not spell infinity or NaN. */
  lemma DigitFirstIsNotWord(body: string)
    requires |body| > 0 && IsDigit(body[0])
    ensures var word := AsciiLower(body); word != "inf" && word != "infinity" && word != "nan"
  {
    assert AsciiLower(body)[0] == body[0];
  }

  /** A digit group read as a float literal has the group's value. */
  lemma GroupIsDecimal(body: string)
    requires DigitGroup(body)
    ensures ParseDecimal(body) == Some(DigitsValue(WithoutUnderscores(body)) as real)
  {
    GroupHasNoLetters(body);
    NoExponent(body);
    GroupMantissa(body);
    assert WithoutUnderscores(body) + [] == WithoutUnderscores(body);
  }

  /** A digit group with no point is a mantissa with no fraction digits. */
  lemma GroupMantissa(m: string)
    requires DigitGroup(m)
    ensures MantissaDigits(m) == Some((WithoutUnderscores(m), []))
  {
    GroupHasNoLetters(m);
    forall i | 0 <= i < |m| ensures m[i] !in {'.'} {
    }
    FindAnyAt(m, {'.'}, |m|);
    assert m[..|m|] == m;
  }

  /** A digit group holds only digits and underscores. */
  lemma {:induction false} GroupHasNoLetters(s: string)
    requires DigitGroup(s)
    ensures forall i :: 0 <= i < |s| ==> IsDigit(s[i]) || s[i] == '_'
  {
    if |s| > 1 {
      if s[1] == '_' {
        GroupHasNoLetters(s[2..]);
        assert forall i :: 2 <= i < |s| ==> s[i] == s[2..][i - 2];
      } else {
        GroupHasNoLetters(s[1..]);
        assert forall i :: 1 <= i < |s| ==> s[i] == s[1..][i - 1];
      }
    }
  }

  /** A string that starts and ends with a digit is read by `float()` as
      the unsigned literal it spells. */
  lemma ParseFloatOfDecimal(s: string)
    requires |s| > 0 && IsDigit(s[0]) && IsDigit(s[|s| - 1]) && ParseDecimal(s).Some?
    ensures ParseFloat(s) == Some(Finite(ParseDecimal(s).value))
  {
    DigitFirstIsUnsigned(s);
    ParseFloatOfUnsigned(s);
  }

  lemma ParseFloatOfUnsigned(s: string)
    requires |s| > 0 && IsDigit(s[0]) && SplitSign(Strip(s)) == (false, s)
    ensures ParseFloat(s) == (match ParseDecimal(s) case None => None case Some(x) => Some(Finite(x)))
  {
    DigitFirstIsNotWord(s);
  }

  /** A fraction `w.f` of two digit groups is read as the digits of both
      groups over ten to the number of fraction digits. */
  lemma ParseFloatFraction(w: string, f: string)
    requires DigitGroup(w) && DigitGroup(f)
    ensures var fractionDigits := WithoutUnderscores(f);
      ParseFloat(w + "." + f) ==
      Some(Finite(Scale(DigitsValue(WithoutUnderscores(w) + fractionDigits), -|fractionDigits|)))
  {
    var s := w + "." + f;
    FractionIsDecimal(w, f);
    GroupEndsInDigit(f);
    assert s[|s| - 1] == f[|f| - 1];
    ParseFloatOfDecimal(s);
  }

  lemma FractionIsDecimal(w: string, f: string)
    requires DigitGroup(w) && DigitGroup(f)
    ensures var fractionDigits := WithoutUnderscores(f);
      ParseDecimal(w + "." + f) ==
      Some(Scale(DigitsValue(WithoutUnderscores(w) + fractionDigits), -|fractionDigits|))
  {
    var s := w + "." + f;
    FractionChars(w, f, s);
    NoExponent(s);
    FractionMantissa(w, f);
    ParseDecimalOf(s, s, 0, WithoutUnderscores(w), WithoutUnderscores(f));
  }

  /** `w.f` holds only digits, underscores and the point. */
  lemma FractionChars(w: string, f: string, s: string)
    requires DigitGroup(w) && DigitGroup(f) && s == w + "." + f
    ensures forall i :: 0 <= i < |s| ==> IsDigit(s[i]) || s[i] == '_' || s[i] == '.'
  {
    GroupHasNoLetters(w);
    GroupHasNoLetters(f);
    forall i | 0 <= i < |s| ensures IsDigit(s[i]) || s[i] == '_' || s[i] == '.' {
      if i < |w| { assert s[i] == w[i]; }
      else if i > |w| { assert s[i] == f[i - |w| - 1]; }
    }
  }

  /** `ParseDecimal` from the parts it splits its argument into. */
  lemma ParseDecimalOf(s: string, mantissa: string, x: int, whole: string, fraction: string)
    requires SplitExponent(s) == (mantissa, Some(x))
    requires MantissaDigits(mantissa) == Some((whole, fraction))
    ensures ParseDecimal(s) == Some(Scale(DigitsValue(whole + fraction), x - |fraction|))
  {
  }

  /** Digits, underscores and points hold no exponent marker. */
  lemma NoExponent(s: string)
    requires forall i :: 0 <= i < |s| ==> IsDigit(s[i]) || s[i] == '_' || s[i] == '.'
    ensures SplitExponent(s) == (s, Some(0))
  {
    FindAnyAt(s, {'e', 'E'}, |s|);
    assert s[..|s|] == s;
  }

  /** A point between two digit groups splits the mantissa there. */
  lemma FractionMantissa(w: string, f: string)
    requires DigitGroup(w) && DigitGroup(f)
    ensures MantissaDigits(w + "." + f) == Some((WithoutUnderscores(w), WithoutUnderscores(f)))
  {
    var s := w + "." + f;
    GroupHasNoLetters(w);
    forall i | 0 <= i < |w| ensures s[i] !in {'.'} {
      assert s[i] == w[i];
    }
    FindAnyAt(s, {'.'}, |w|);
    assert s[..|w|] == w;
    assert s[|w| + 1..] == f;
  }

  /** `FindAny` finds the first position holding one of `cs`. */
  lemma {:induction false} FindAnyAt(s: string, cs: set<char>, k: nat)
    requires k <= |s| && (k < |s| ==> s[k] in cs)
    requires forall j :: 0 <= j < k ==> s[j] !in cs
    ensures FindAny(s, cs) == k
  {
    if k > 0 {
      FindAnyAt(s[1..], cs, k - 1);
    }
  }

  /** A digit group `m` with an exponent `e`, itself a digit group, is read
      as `m` times ten to the `e`. */
  lemma ParseFloatExponent(m: string, e: string)
    requires DigitGroup(m) && DigitGroup(e)
    ensures ParseFloat(m + "e" + e) ==
      Some(Finite(Scale(DigitsValue(WithoutUnderscores(m)), DigitsValue(WithoutUnderscores(e)))))
  {
    var s := m + "e" + e;
    ExponentIsDecimal(m, e);
    GroupEndsInDigit(e);
    assert s[|s| - 1] == e[|e| - 1];
    ParseFloatOfDecimal(s);
  }

  lemma ExponentIsDecimal(m: string, e: string)
    requires DigitGroup(m) && DigitGroup(e)
    ensures ParseDecimal(m + "e" + e) ==
      Some(Scale(DigitsValue(WithoutUnderscores(m)), DigitsValue(WithoutUnderscores(e))))
  {
    var s := m + "e" + e;
    var x := DigitsValue(WithoutUnderscores(e));
    ExponentSplit(m, e);
    GroupMantissa(m);
    ParseDecimalOf(s, m, x, WithoutUnderscores(m), []);
    assert WithoutUnderscores(m) + [] == WithoutUnderscores(m);
  }

  /** The first `e` after a digit group is its exponent marker. */
  lemma ExponentSplit(m: string, e: string)
    requires DigitGroup(m) && DigitGroup(e)
    ensures SplitExponent(m + "e" + e) == (m, Some(DigitsValue(WithoutUnderscores(e))))
  {
    var s := m + "e" + e;
    GroupHasNoLetters(m);
    forall i | 0 <= i < |m| ensures s[i] !in {'e', 'E'} {
      assert s[i] == m[i];
    }
    FindAnyAt(s, {'e', 'E'}, |m|);
    assert s[..|m|] == m;
    assert s[|m| + 1..] == e;
    assert SplitSign(e) == (false, e);
  }

  /** `int("1_000")` is 1000: underscores between digits are dropped. */
  lemma UnderscoreExample()
    ensures ParseInt("1_000") == Some(1000)
  {
    var s := "1_000";
    StripKeeps(s);
    assert SplitSign(s) == (false, s);
    UnderscoreExampleGroup();
    UnderscoreExampleDigits();
    assert ParseSigned(s) == Some(1000);
  }

  lemma UnderscoreExampleGroup()
    ensures DigitGroup("1_000")
  {
    assert "1_000"[2..] == "000" && "000"[1..] == "00" && "00"[1..] == "0";
    assert DigitGroup("000");
  }

  lemma UnderscoreExampleDigits()
    ensures WithoutUnderscores("1_000") == "1000" && DigitsValue("1000") == 1000
  {
    var one, rest := "1", "000";
    assert "1_000" == one + "_" + rest;
    WithoutUnderscoresAppend(one + "_", rest);
    WithoutUnderscoresAppend(one, "_");
    ThousandValue();
  }

  lemma ThousandValue()
    ensures DigitsValue("1000") == 1000
  {
    assert "1000"[..3] == "100" && "100"[..2] == "10" && "10"[..1] == "1";
  }

  /** `int("\x1c5")` raises `ValueError`: the file separator is not stripped. */
  lemma SeparatorIsNotStripped()
    ensures ParseInt("\U{1c}5") == None
  {
    var s := "\U{1c}5";
    StripKeeps(s);
    assert SplitSign(Strip(s)) == (false, s);
  }

  /** `float("50k0c")` raises `ValueError`. */
  lemma NonNumericExample()
    ensures ParseFloat("50k0c") == None
  {
    var s := "50k0c";
    assert !DigitGroup(s[2..]);
    PlainNonGroupIsNotFloat(s);
  }

  /** A string that starts with a digit, has no point, exponent marker or
      trailing space, and is not a digit group is not a float. */
  lemma PlainNonGroupIsNotFloat(s: string)
    requires |s| > 0 && IsDigit(s[0]) && !IsSpace(s[|s| - 1]) && !DigitGroup(s)
    requires forall i :: 0 <= i < |s| ==> s[i] != 'e' && s[i] != 'E' && s[i] != '.'
    ensures ParseFloat(s) == None
  {
    DigitFirstIsUnsigned(s);
    ParseFloatOfUnsigned(s);
    PlainNonGroupIsNotDecimal(s);
  }

  lemma DigitFirstIsUnsigned(s: string)
    requires |s| > 0 && IsDigit(s[0]) && !IsSpace(s[|s| - 1])
    ensures SplitSign(Strip(s)) == (false, s)
  {
    StripKeeps(s);
  }

  lemma PlainNonGroupIsNotDecimal(s: string)
    requires |s| > 0 && !DigitGroup(s)
    requires forall i :: 0 <= i < |s| ==> s[i] != 'e' && s[i] != 'E' && s[i] != '.'
    ensures ParseDecimal(s) == None
  {
    FindAnyAt(s, {'e', 'E'}, |s|);
    assert s[..|s|] == s;
    assert SplitExponent(s) == (s, Some(0));
    FindAnyAt(s, {'.'}, |s|);
    assert MantissaDigits(s) == None;
  }

  /** `int("5dc")` raises `ValueError`. */
  lemma NonNumericIdExample()
    ensures ParseInt("5dc") == None
  {
    var s := "5dc";
    StripKeeps(s);
    assert SplitSign(Strip(s)) == (false, s);
    assert !DigitGroup(s[1..]);
  }
}
