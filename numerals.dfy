/** The Python number conversions the converter is written with: int(w),
    int(w, 16), float(w), str(n), format(n, '02X') and int(x) on a float. */
module Numerals {
  import opened Wrappers
  import opened PyText

  // ----- decimal -----

  function DigitValue(c: char): (v: nat)
    requires IsDigit(c)
    ensures v < 10
  {
    c as int - '0' as int
  }

  function DigitChar(v: nat): (c: char)
    requires v < 10
    ensures IsDigit(c) && DigitValue(c) == v
  {
    ('0' as int + v) as char
  }

  /** int(w) for a run of ASCII digits (leading zeros allowed). */
  function DecimalValue(w: string): nat
    requires AllDigits(w)
  {
    if w == [] then 0 else 10 * DecimalValue(w[..|w| - 1]) + DigitValue(w[|w| - 1])
  }

  /** str(n) for a non-negative integer: its digits without leading zeros. */
  function DecimalString(n: nat): (w: string)
    ensures w != [] && AllDigits(w)
    ensures DecimalValue(w) == n
    ensures w[0] == '0' ==> w == "0"
  {
    if n < 10 then [DigitChar(n)]
    else
      var w := DecimalString(n / 10) + [DigitChar(n % 10)];
      assert w[..|w| - 1] == DecimalString(n / 10);
      w
  }

  /** str(n) for any integer: a minus sign in front of a negative one. */
  function IntText(n: int): (w: string)
    ensures n >= 0 ==> w == DecimalString(n)
    ensures n < 0 ==> w == "-" + DecimalString(-n)
  {
    if n < 0 then "-" + DecimalString(-n) else DecimalString(n)
  }

  // ----- hexadecimal -----

  predicate IsHexDigit(c: char) {
    IsDigit(c) || 'a' <= c <= 'f' || 'A' <= c <= 'F'
  }

  predicate IsUpperHexDigit(c: char) {
    IsDigit(c) || 'A' <= c <= 'F'
  }

  predicate AllHex(w: string) {
    forall i :: 0 <= i < |w| ==> IsHexDigit(w[i])
  }

  function HexDigitValue(c: char): (v: nat)
    requires IsHexDigit(c)
    ensures v < 16
  {
    if IsDigit(c) then DigitValue(c)
    else if 'a' <= c <= 'f' then c as int - 'a' as int + 10
    else c as int - 'A' as int + 10
  }

  /** The digit format(v, 'X') writes for 0 <= v < 16. */
  function HexDigitChar(v: nat): (c: char)
    requires v < 16
    ensures IsUpperHexDigit(c) && HexDigitValue(c) == v
  {
    if v < 10 then DigitChar(v) else ('A' as int + v - 10) as char
  }

  /** The upper-case spelling of a hexadecimal digit. */
  function UpperHex(c: char): (u: char)
    requires IsHexDigit(c)
    ensures IsUpperHexDigit(u) && HexDigitValue(u) == HexDigitValue(c)
  {
    if 'a' <= c <= 'f' then (c as int - 32) as char else c
  }

  /** The upper-case spelling of a string of hexadecimal digits. */
  function UpperText(d: string): (u: string)
    requires AllHex(d)
    ensures |u| == |d| && forall i :: 0 <= i < |d| ==> u[i] == UpperHex(d[i])
  {
    seq(|d|, i requires 0 <= i < |d| => UpperHex(d[i]))
  }

  /** Writing the value of a digit gives back the digit in upper case. */
  lemma HexDigitCharValue(c: char)
    requires IsHexDigit(c)
    ensures HexDigitChar(HexDigitValue(c)) == UpperHex(c)
  {
  }

  /** The value of a string of hexadecimal digits, most significant first. */
  function HexValue(w: string): nat
    requires AllHex(w)
  {
    if w == [] then 0 else 16 * HexValue(w[..|w| - 1]) + HexDigitValue(w[|w| - 1])
  }

  /** A stripped literal int(_, 16) accepts: an optional sign, then at
      least one hexadecimal digit. */
  predicate IsHexLiteral(t: string) {
    if t != [] && (t[0] == '+' || t[0] == '-') then t[1..] != [] && AllHex(t[1..])
    else t != [] && AllHex(t)
  }

  /** int(t, 16) on a literal with no whitespace around it. */
  function ParseHexLiteral(t: string): (r: Option<int>)
    ensures r.Some? <==> IsHexLiteral(t)
    ensures |t| == 2 && IsHexDigit(t[0]) && IsHexDigit(t[1]) ==> r == Some(16 * HexDigitValue(t[0]) + HexDigitValue(t[1]))
    ensures |t| <= 2 && r.Some? ==> -16 < r.value < 256
  {
    if t != [] && (t[0] == '+' || t[0] == '-') then
      var d := t[1..];
      if d != [] && AllHex(d) then
        HexValueSmall(d);
        var v: int := HexValue(d);
        Some(if t[0] == '-' then -v else v)
      else None
    else if t != [] && AllHex(t) then
      HexValuePair(t);
      HexValueSmall(t);
      Some(HexValue(t))
    else None
  }

  /** int(w, 16): the number whitespace around w is ignored, a sign may
      precede the digits, and the value is read most significant digit first. */
  function ParseHexInt(w: string): (r: Option<int>)
    ensures r.Some? <==> IsHexLiteral(NumberStrip(w))
    ensures |w| == 2 && IsHexDigit(w[0]) && IsHexDigit(w[1]) ==> r == Some(16 * HexDigitValue(w[0]) + HexDigitValue(w[1]))
    ensures |w| <= 2 && r.Some? ==> -16 < r.value < 256
  {
    HexPairKept(w);
    ParseHexLiteral(NumberStrip(w))
  }

  /** Two hexadecimal digits have no whitespace to strip. */
  lemma HexPairKept(w: string)
    ensures |w| == 2 && IsHexDigit(w[0]) && IsHexDigit(w[1]) ==> NumberStrip(w) == w
  {
    if |w| == 2 && IsHexDigit(w[0]) && IsHexDigit(w[1]) {
      TrimKept(w, Some(NumberSpaces));
    }
  }

  /** A single hexadecimal digit is its own value; two are below 256. */
  lemma HexValueSmall(w: string)
    requires AllHex(w)
    ensures |w| == 1 ==> HexValue(w) < 16
    ensures |w| == 2 ==> HexValue(w) < 256
  {
    HexValuePair(w);
    if |w| == 1 {
      assert w[..0] == [];
    }
  }

  lemma HexValuePair(w: string)
    requires AllHex(w)
    ensures |w| == 2 ==> HexValue(w) == 16 * HexDigitValue(w[0]) + HexDigitValue(w[1])
  {
    if |w| == 2 {
      var h := w[..1];
      assert h == [w[0]] && h[..0] == [];
      assert HexValue(h) == HexDigitValue(w[0]);
    }
  }

  /** format(n, 'X') for a non-negative integer: upper-case digits without leading zeros. */
  function HexString(n: nat): (w: string)
    ensures w != [] && forall i :: 0 <= i < |w| ==> IsUpperHexDigit(w[i])
    ensures AllHex(w) && HexValue(w) == n
    ensures w[0] == '0' ==> w == "0"
    ensures n < 16 <==> |w| == 1
  {
    if n < 16 then [HexDigitChar(n)]
    else
      var w := HexString(n / 16) + [HexDigitChar(n % 16)];
      assert w[..|w| - 1] == HexString(n / 16);
      w
  }

  /** format(n, '02X'): at least two characters, the sign counting
      towards the width and zeros filling in after it. */
  function Hex02(n: int): (w: string)
    ensures 0 <= n < 256 ==> |w| == 2 && AllHex(w) && HexValue(w) == n
    ensures 0 <= n < 256 ==> IsUpperHexDigit(w[0]) && IsUpperHexDigit(w[1])
    ensures 0 <= n < 256 ==> w == [HexDigitChar(n / 16), HexDigitChar(n % 16)]
    ensures 256 <= n ==> |w| > 2 && w == HexString(n)
    ensures n < 0 ==> w == "-" + HexString(-n)
  {
    if n < 0 then "-" + HexString(-n)
    else if n < 16 then
      var w := ['0'] + HexString(n);
      assert w[..1] == "0";
      w
    else
      var w := HexString(n);
      assert n < 256 ==> w == HexString(n / 16) + [HexDigitChar(n % 16)];
      w
  }

  // ----- float -----

  /** The value of the digits after a decimal point: 0.d1d2... */
  function FractionValue(w: string): (x: real)
    requires AllDigits(w)
    ensures 0.0 <= x < 1.0
  {
    if w == [] then 0.0 else (DigitValue(w[0]) as real + FractionValue(w[1..])) / 10.0
  }

  /** An unsigned decimal literal: digits with at most one '.', and at least one digit. */
  predicate IsUnsignedNumeral(t: string) {
    && (forall i :: 0 <= i < |t| ==> IsDigit(t[i]) || t[i] == '.')
    && Occurrences(t, '.') <= 1
    && (exists i :: 0 <= i < |t| && IsDigit(t[i]))
  }

  /** The plain decimal literals float() is taken to accept here: an
      optional sign in front of an unsigned literal. */
  predicate IsNumeral(t: string) {
    if t != [] && (t[0] == '+' || t[0] == '-') then IsUnsignedNumeral(t[1..]) else IsUnsignedNumeral(t)
  }

  /** The unsigned part of a float literal: digits, then optionally '.'
      and more digits. */
  function ParseUnsigned(t: string): Option<real> {
    var n := DigitPrefix(t);
    var whole := DecimalValue(t[..n]) as real;
    if n == |t| then
      if n > 0 then Some(whole) else None
    else if t[n] != '.' then None
    else
      var frac := t[n + 1..];
      if !AllDigits(frac) || (n == 0 && frac == []) then None
      else Some(whole + FractionValue(frac))
  }

  /** A literal of the restricted form, already stripped: its sign, then
      its unsigned part. */
  function ParseLiteral(t: string): Option<real> {
    if t != [] && (t[0] == '+' || t[0] == '-') then
      match ParseUnsigned(t[1..])
      case None => None
      case Some(v) => Some(if t[0] == '-' then -v else v)
    else ParseUnsigned(t)
  }

  /** float(token): the number whitespace around the token is ignored. */
  function ParseFloat(token: string): Option<real> {
    ParseLiteral(NumberStrip(token))
  }

  lemma {:induction false} OccurrencesAppend(a: string, b: string, c: char)
    ensures Occurrences(a + b, c) == Occurrences(a, c) + Occurrences(b, c)
  {
    if a == [] {
      assert a + b == b;
    } else {
      assert (a + b)[1..] == a[1..] + b;
      OccurrencesAppend(a[1..], b, c);
    }
  }

  lemma {:induction false} OccurrencesZero(s: string, c: char)
    ensures Occurrences(s, c) == 0 <==> c !in s
  {
    if s != [] {
      OccurrencesZero(s[1..], c);
      assert s == [s[0]] + s[1..];
    }
  }

  /** ParseUnsigned accepts exactly the unsigned numerals. */
  lemma ParseUnsignedAccepts(t: string)
    ensures ParseUnsigned(t).Some? <==> IsUnsignedNumeral(t)
  {
    var n := DigitPrefix(t);
    assert t == t[..n] + t[n..];
    OccurrencesAppend(t[..n], t[n..], '.');
    OccurrencesZero(t[..n], '.');
    if n == |t| {
      assert n > 0 ==> IsDigit(t[0]);
    } else if t[n] == '.' {
      FractionAccepts(t, n);
    } else {
      assert !(IsDigit(t[n]) || t[n] == '.');
    }
  }

  /** The case of a literal whose digit prefix stops at a '.'. */
  lemma FractionAccepts(t: string, n: nat)
    requires n == DigitPrefix(t) < |t| && t[n] == '.'
    requires Occurrences(t, '.') == Occurrences(t[n..], '.')
    ensures ParseUnsigned(t).Some? <==> IsUnsignedNumeral(t)
  {
    var frac := t[n + 1..];
    DotCount(t, n);
    if !AllDigits(frac) {
      FractionBadTail(t, n);
    } else if n == 0 && frac == [] {
      LoneDot(t);
    } else {
      FractionGood(t, n);
    }
  }

  /** The '.' at position n counts once among the dots from n on. */
  lemma DotCount(t: string, n: nat)
    requires n < |t| && t[n] == '.'
    ensures Occurrences(t[n..], '.') == 1 + Occurrences(t[n + 1..], '.')
  {
    assert t[n..] == [t[n]] + t[n + 1..];
    OccurrencesAppend([t[n]], t[n + 1..], '.');
  }

  /** A '.' alone is not a number. */
  lemma LoneDot(t: string)
    requires t == "."
    ensures !IsUnsignedNumeral(t)
  {
  }

  lemma FractionBadTail(t: string, n: nat)
    requires n == DigitPrefix(t) < |t| && t[n] == '.'
    requires Occurrences(t, '.') == 1 + Occurrences(t[n + 1..], '.')
    requires !AllDigits(t[n + 1..])
    ensures !IsUnsignedNumeral(t)
  {
    var frac := t[n + 1..];
    var j :| 0 <= j < |frac| && !IsDigit(frac[j]);
    assert t[n + 1 + j] == frac[j];
    if frac[j] == '.' {
      OccurrencesZero(frac, '.');
    }
  }

  lemma {:induction false} NoDotInDigits(w: string)
    requires AllDigits(w)
    ensures Occurrences(w, '.') == 0
  {
    if w != [] {
      NoDotInDigits(w[1..]);
    }
  }

  lemma FractionGood(t: string, n: nat)
    requires n == DigitPrefix(t) < |t| && t[n] == '.'
    requires Occurrences(t, '.') == 1 + Occurrences(t[n + 1..], '.')
    requires AllDigits(t[n + 1..]) && (n > 0 || n + 1 < |t|)
    ensures IsUnsignedNumeral(t)
  {
    var frac := t[n + 1..];
    NoDotInDigits(frac);
    assert Occurrences(t, '.') <= 1;
    if n > 0 {
      assert IsDigit(t[0]);
    } else {
      assert t[1] == frac[0];
      assert IsDigit(t[1]);
    }
    DigitsAroundDot(t, n);
  }

  /** Digits, a '.', then digits: every character is a digit or the dot. */
  lemma DigitsAroundDot(t: string, n: nat)
    requires n < |t| && t[n] == '.'
    requires forall i :: 0 <= i < n ==> IsDigit(t[i])
    requires AllDigits(t[n + 1..])
    ensures forall i :: 0 <= i < |t| ==> IsDigit(t[i]) || t[i] == '.'
  {
    var frac := t[n + 1..];
    forall i | n < i < |t| ensures IsDigit(t[i]) {
      assert t[i] == frac[i - n - 1];
    }
  }

  /** The signed literals the parser accepts are exactly the numerals. */
  lemma ParseLiteralAccepts(t: string)
    ensures ParseLiteral(t).Some? <==> IsNumeral(t)
  {
    if t != [] && (t[0] == '+' || t[0] == '-') {
      ParseUnsignedAccepts(t[1..]);
    } else {
      ParseUnsignedAccepts(t);
    }
  }

  /** float() accepts a token exactly when, without the number whitespace
      around it, it is a numeral. */
  lemma ParseFloatAccepts(token: string)
    ensures ParseFloat(token).Some? <==> IsNumeral(NumberStrip(token))
  {
    ParseLiteralAccepts(NumberStrip(token));
  }

  /** An all-digit string is its own digit prefix. */
  lemma {:induction false} DigitPrefixAll(w: string)
    requires AllDigits(w)
    ensures DigitPrefix(w) == |w|
  {
    if w != [] {
      DigitPrefixAll(w[1..]);
    }
  }

  /** float() of a token with nothing to strip. */
  lemma FloatOfStripped(t: string)
    requires t != [] && t[0] !in NumberSpaces && t[|t| - 1] !in NumberSpaces
    ensures ParseFloat(t) == ParseLiteral(t)
  {
    TrimKept(t, Some(NumberSpaces));
  }

  /** A literal starting with a digit has no sign. */
  lemma LiteralUnsigned(t: string)
    requires t != [] && IsDigit(t[0])
    ensures ParseLiteral(t) == ParseUnsigned(t)
  {
  }

  /** The value of an unsigned literal with a fractional part. */
  lemma UnsignedFraction(t: string, n: nat)
    requires n == DigitPrefix(t) < |t| && t[n] == '.' && AllDigits(t[n + 1..]) && n > 0
    ensures ParseUnsigned(t) == Some(DecimalValue(t[..n]) as real + FractionValue(t[n + 1..]))
  {
  }

  /** The value of an unsigned literal without a fractional part. */
  lemma UnsignedWhole(t: string)
    requires AllDigits(t) && t != []
    ensures ParseUnsigned(t) == Some(DecimalValue(t) as real)
  {
    DigitPrefixAll(t);
    assert t[..|t|] == t;
  }

  /** float(str(n)) == n. */
  lemma ParseFloatOfNat(n: nat)
    ensures ParseFloat(DecimalString(n)) == Some(n as real)
  {
    var t := DecimalString(n);
    FloatOfStripped(t);
    LiteralUnsigned(t);
    UnsignedWhole(t);
  }

  /** float(d + "." + w), for digit strings d and w, is the number they spell. */
  lemma ParseFloatOfDecimal(d: string, w: string)
    requires d != [] && AllDigits(d) && AllDigits(w)
    ensures ParseFloat(d + "." + w) == Some(DecimalValue(d) as real + FractionValue(w))
  {
    var t := d + "." + w;
    DecimalIsUnsigned(d, w, t);
    DecimalUnsignedValue(d, w, t);
  }

  lemma DecimalIsUnsigned(d: string, w: string, t: string)
    requires d != [] && AllDigits(d) && AllDigits(w)
    requires t == d + "." + w
    ensures ParseFloat(t) == ParseUnsigned(t)
  {
    DecimalLayout(d, w);
    FloatOfStripped(t);
    LiteralUnsigned(t);
  }

  lemma DecimalUnsignedValue(d: string, w: string, t: string)
    requires d != [] && AllDigits(d) && AllDigits(w)
    requires t == d + "." + w
    ensures ParseUnsigned(t) == Some(DecimalValue(d) as real + FractionValue(w))
  {
    DecimalLayout(d, w);
    UnsignedFraction(t, |d|);
  }

  /** Where the parts of d + "." + w sit. */
  lemma DecimalLayout(d: string, w: string)
    requires d != [] && AllDigits(d) && AllDigits(w)
    ensures var t := d + "." + w;
      && IsDigit(t[0]) && !IsSpace(t[|t| - 1])
      && DigitPrefix(t) == |d| && t[|d|] == '.'
      && t[..|d|] == d && t[|d| + 1..] == w
  {
    var t := d + "." + w;
    assert t[0] == d[0];
    assert t[|t| - 1] == if w == [] then '.' else w[|w| - 1];
    assert forall k :: 0 <= k < |d| ==> t[k] == d[k];
    DigitPrefixPrefix(t, |d|);
    assert t[..|d|] == d;
    assert t[|d| + 1..] == w;
  }

  /** The digit prefix of a string whose first k characters are digits and
      whose k-th is not. */
  lemma {:induction false} DigitPrefixPrefix(t: string, k: nat)
    requires k < |t| && !IsDigit(t[k])
    requires forall j :: 0 <= j < k ==> IsDigit(t[j])
    ensures DigitPrefix(t) == k
  {
    if k > 0 {
      DigitPrefixPrefix(t[1..], k - 1);
    }
  }

  // ----- int(x) on a float -----

  /** int(x): the integer part of x, rounding toward zero. */
  function Truncate(x: real): (n: int)
    ensures 0.0 <= x ==> 0 <= n && n as real <= x < n as real + 1.0
    ensures x < 0.0 ==> n <= 0 && n as real - 1.0 < x <= n as real
  {
    if x >= 0.0 then x.Floor else -((-x).Floor)
  }
}
