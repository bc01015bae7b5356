/** parse_input and parse_percentage_or_float of main.py. */
module Parse {
  import opened Wrappers
  import opened PyText
  import opened Numerals
  import opened Colors

  /** float(token), raising ValueError on a token it does not accept. */
  function Float(token: string): (x: Outcome<real>)
    ensures x.Ok? <==> ParseFloat(token).Some?
    ensures x.Ok? ==> x.value == ParseFloat(token).value
    ensures x.Err? ==> x.error == NotANumber(token)
  {
    match ParseFloat(token)
    case Some(v) => Ok(v)
    case None => Err(NotANumber(token))
  }

  /** A parsed percentage as a fraction; a failed parse stays failed. */
  function Hundredths(x: Outcome<real>): (y: Outcome<real>)
    ensures y.Ok? <==> x.Ok?
    ensures y.Ok? ==> y.value * 100.0 == x.value
    ensures y.Err? ==> y.error == x.error
  {
    match x
    case Ok(v) => Ok(v / 100.0)
    case Err(e) => Err(e)
  }

  /** parse_percentage_or_float: a stripped token ending in '%' is a
      percentage and is divided by 100; any other token is taken as is. */
  function ParsePercentageOrFloat(token: string): (x: Outcome<real>)
    ensures x.Err? ==> x.error.NotANumber?
  {
    var s := Strip(token);
    if |s| > 0 && s[|s| - 1] == '%' then
      Hundredths(Float(s[..|s| - 1]))
    else Float(s)
  }

  /** int(slice, 16) on one two-character slice of the hex digits. */
  function HexByte(slice: string): (n: Outcome<int>)
    ensures n.Ok? <==> ParseHexInt(slice).Some?
    ensures n.Ok? ==> n.value == ParseHexInt(slice).value
    ensures n.Err? ==> n.error == NotHex(slice)
  {
    match ParseHexInt(slice)
    case Some(v) => Ok(v)
    case None => Err(NotHex(slice))
  }

  /** What is left of a stripped hex input once every leading '#' is gone. */
  function HexDigits(value: string): string {
    TrimStart(value, Some({'#'}))
  }

  /** The "hex" branch, given the stripped input. */
  function ParseHex(value: string): (c: Outcome<Color>)
    ensures c.Ok? ==> c.value.RGB?
    ensures c.Err? ==> c.error.HexLength? || c.error.NotHex?
    ensures c == Err(HexLength) <==> |HexDigits(value)| != 6
  {
    var digits := HexDigits(value);
    if |digits| != 6 then Err(HexLength)
    else
      var r :- HexByte(digits[0..2]);
      var g :- HexByte(digits[2..4]);
      var b :- HexByte(digits[4..6]);
      Ok(RGB(Scaled(r), Scaled(g), Scaled(b)))
  }

  /** The "rgb" branch, given the stripped input: exactly three runs of
      digits, each read as a decimal integer and divided by 255. */
  function ParseRgb(value: string): (c: Outcome<Color>)
    ensures c.Ok? ==> c.value.RGB?
    ensures c.Err? ==> c.error == RgbCount
    ensures c.Ok? ==> 0.0 <= c.value.r && 0.0 <= c.value.g && 0.0 <= c.value.b
  {
    var nums := DigitRuns(value);
    if |nums| != 3 then Err(RgbCount)
    else
      Ok(RGB(Scaled(DecimalValue(nums[0])), Scaled(DecimalValue(nums[1])), Scaled(DecimalValue(nums[2]))))
  }

  /** [x.strip() for x in value.strip("()").split(",")] */
  function Components(value: string): (parts: seq<string>)
    ensures |parts| == Occurrences(Trim(value, Some({'(', ')'})), ',') + 1
  {
    var pieces := Split(Trim(value, Some({'(', ')'})), ',');
    seq(|pieces|, i requires 0 <= i < |pieces| => Strip(pieces[i]))
  }

  /** The "hsl" and "hsv" branches, given the stripped input. */
  function ParseHslOrHsv(fmt: string, value: string): (c: Outcome<Color>)
    ensures c.Ok? ==> if fmt == "hsl" then c.value.HSL? else c.value.HSV?
    ensures c.Err? ==> c.error == ComponentCount(fmt) || c.error.NotANumber?
    ensures c == Err(ComponentCount(fmt)) <==> |Components(value)| != 3
  {
    var parts := Components(value);
    if |parts| != 3 then Err(ComponentCount(fmt))
    else
      var h :- Float(parts[0]);
      var s :- ParsePercentageOrFloat(parts[1]);
      var lv :- ParsePercentageOrFloat(parts[2]);
      Ok(if fmt == "hsl" then HSL(h, s, lv) else HSV(h, s, lv))
  }

  /** parse_input(fmt, value). */
  function ParseInput(fmt: string, value: string): Outcome<Color> {
    var v := Strip(value);
    if fmt == "hex" then ParseHex(v)
    else if fmt == "rgb" then ParseRgb(v)
    else if fmt == "hsl" || fmt == "hsv" then ParseHslOrHsv(fmt, v)
    else Err(UnknownInputFormat(fmt))
  }

  // ----- properties of the percentage rule -----

  /** One step of parse_percentage_or_float on a token whose stripped form ends in '%'. */
  lemma PercentStep(token: string, u: string)
    requires Strip(token) == u + "%"
    ensures ParsePercentageOrFloat(token) == Hundredths(Float(u))
  {
    var w := Strip(token);
    assert w[..|w| - 1] == u;
  }

  /** A token followed by '%': strip() removes only the whitespace in front
      of it, and what remains of the token is read by float() and divided by
      100. It is rejected exactly when float() rejects that remainder. */
  lemma PercentIsHundredths(t: string)
    ensures var u := TrimStart(t, None);
      && (ParsePercentageOrFloat(t + "%").Ok? <==> ParseFloat(u).Some?)
      && (ParseFloat(u).Some? ==> ParsePercentageOrFloat(t + "%").value * 100.0 == ParseFloat(u).value)
  {
    var u := TrimStart(t, None);
    TrimEndsWithKept(t, '%', None);
    PercentStep(t + "%", u);
  }

  /** A token that does not end in '%' is taken as is: its value is the
      literal that strip() leaves, read by float() with nothing more to strip. */
  lemma PlainIsAsIs(t: string)
    requires var s := Strip(t); s == [] || s[|s| - 1] != '%'
    ensures ParsePercentageOrFloat(t).Ok? <==> ParseLiteral(Strip(t)).Some?
    ensures ParseLiteral(Strip(t)).Some? ==> ParsePercentageOrFloat(t) == Ok(ParseLiteral(Strip(t)).value)
  {
    StrippedIsNumberStripped(t);
  }

  /** What strip() leaves has no number whitespace at its ends either. */
  lemma StrippedIsNumberStripped(t: string)
    ensures NumberStrip(Strip(t)) == Strip(t)
  {
    var s := Strip(t);
    if s != [] {
      NumberSpacesAreSpaces(s[0]);
      NumberSpacesAreSpaces(s[|s| - 1]);
      TrimKept(s, Some(NumberSpaces));
    }
  }

  // Concrete tokens, each a parameter fixed by its precondition.

  /** A token followed by '%', when float() reads the token without its
      leading whitespace as v, is v / 100. */
  lemma PercentOfValue(t: string, v: real)
    requires ParseFloat(TrimStart(t, None)) == Some(v)
    ensures ParsePercentageOrFloat(t + "%") == Ok(v / 100.0)
  {
    PercentIsHundredths(t);
    ScaledBack(ParsePercentageOrFloat(t + "%"), v);
  }

  lemma ScaledBack(x: Outcome<real>, v: real)
    requires x.Ok? && x.value * 100.0 == v
    ensures x == Ok(v / 100.0)
  {
  }

  lemma FloatFifty(t: string)
    requires t == "50"
    ensures ParseFloat(t) == Some(50.0)
  {
    assert DecimalString(50) == t;
    ParseFloatOfNat(50);
  }

  /** "50%" is one half. */
  lemma FiftyPercent(token: string)
    requires token == "50%"
    ensures ParsePercentageOrFloat(token) == Ok(0.5)
  {
    var t := token[..2];
    assert token == t + "%";
    assert TrimStart(t, None) == t;
    FloatFifty(t);
    PercentOfValue(t, 50.0);
  }

  lemma FractionFive(w: string)
    requires w == "5"
    ensures FractionValue(w) == 0.5
  {
    assert w[1..] == [];
  }

  lemma FloatPointFive(t: string)
    requires t == "0.5"
    ensures ParseFloat(t) == Some(0.5)
  {
    assert "0" + "." + "5" == t;
    ParseFloatOfDecimal("0", "5");
    FractionFive("5");
    assert DecimalValue("0") == 0 by {
      assert "0"[..0] == [];
    }
  }

  /** "0.5" is one half. */
  lemma PointFive(token: string)
    requires token == "0.5"
    ensures ParsePercentageOrFloat(token) == Ok(0.5)
  {
    FloatPointFive(token);
    TrimKept(token, None);
    TrimKept(token, Some(NumberSpaces));
    PlainValue(token, 0.5);
  }

  /** A token with nothing to strip and no '%' is float() of it. */
  lemma PlainValue(t: string, v: real)
    requires t != [] && t[|t| - 1] != '%'
    requires Strip(t) == t && NumberStrip(t) == t && ParseFloat(t) == Some(v)
    ensures ParsePercentageOrFloat(t) == Ok(v)
  {
    PlainIsAsIs(t);
  }

  /** "50%" and "0.5" are the same component. */
  lemma HalfTwoWays(percent: string, fraction: string)
    requires percent == "50%" && fraction == "0.5"
    ensures ParsePercentageOrFloat(percent) == ParsePercentageOrFloat(fraction) == Ok(0.5)
  {
    FiftyPercent(percent);
    PointFive(fraction);
  }

  // ----- properties of the hex branch -----

  /** The hex branch rejects the length exactly when what remains after
      removing the leading '#'s is not six characters long. */
  lemma HexLengthRejected(value: string)
    ensures ParseInput("hex", value) == Err(HexLength) <==> |HexDigits(Strip(value))| != 6
  {
    Dispatch("hex", value);
  }

  /** The hex branch accepts exactly when the remainder has six characters
      and int(_, 16) accepts each of its pairs. */
  lemma HexAccepts(value: string)
    ensures var d := HexDigits(Strip(value));
      ParseInput("hex", value).Ok? <==>
        |d| == 6 && IsHexLiteral(NumberStrip(d[0..2])) && IsHexLiteral(NumberStrip(d[2..4])) && IsHexLiteral(NumberStrip(d[4..6]))
  {
  }

  /** The first pair int(_, 16) refuses is the one reported. */
  lemma HexFirstBadPair(value: string)
    ensures var d := HexDigits(Strip(value)); var c := ParseInput("hex", value);
      |d| == 6 && !IsHexLiteral(NumberStrip(d[0..2])) ==> c == Err(NotHex(d[0..2]))
  {
  }

  /** The value of the two hexadecimal digits of d at i and i + 1. */
  function PairValue(d: string, i: nat): (n: nat)
    requires i + 1 < |d| && IsHexDigit(d[i]) && IsHexDigit(d[i + 1])
    ensures n < 256
  {
    16 * HexDigitValue(d[i]) + HexDigitValue(d[i + 1])
  }

  /** int(_, 16) reads two hexadecimal digits of d as their pair value. */
  lemma HexBytePair(d: string, i: nat)
    requires i + 1 < |d| && IsHexDigit(d[i]) && IsHexDigit(d[i + 1])
    ensures HexByte(d[i..i + 2]) == Ok(PairValue(d, i))
  {
    var w := d[i..i + 2];
    assert w[0] == d[i] && w[1] == d[i + 1];
    HexByteOfTwo(w);
  }

  /** int(_, 16) on two hexadecimal digits. */
  lemma HexByteOfTwo(w: string)
    requires |w| == 2 && IsHexDigit(w[0]) && IsHexDigit(w[1])
    ensures HexByte(w) == Ok(16 * HexDigitValue(w[0]) + HexDigitValue(w[1]))
  {
  }

  /** ParseHex once each pair has been read. */
  lemma ParseHexOfBytes(v: string, d: string, r: int, g: int, b: int)
    requires d == HexDigits(v) && |d| == 6
    requires HexByte(d[0..2]) == Ok(r) && HexByte(d[2..4]) == Ok(g) && HexByte(d[4..6]) == Ok(b)
    ensures ParseHex(v) == Ok(RGB(Scaled(r), Scaled(g), Scaled(b)))
  {
  }

  /** int(_, 16) on each pair of six hexadecimal digits. */
  lemma HexPairs(d: string)
    requires |d| == 6 && AllHex(d)
    ensures HexByte(d[0..2]) == Ok(PairValue(d, 0))
    ensures HexByte(d[2..4]) == Ok(PairValue(d, 2))
    ensures HexByte(d[4..6]) == Ok(PairValue(d, 4))
  {
    assert HexByte(d[0..2]) == Ok(PairValue(d, 0)) by { HexBytePair(d, 0); }
    assert HexByte(d[2..4]) == Ok(PairValue(d, 2)) by { HexBytePair(d, 2); }
    assert HexByte(d[4..6]) == Ok(PairValue(d, 4)) by { HexBytePair(d, 4); }
  }

  /** ParseHex on a remainder of six hexadecimal digits. */
  lemma ParseHexDigits(v: string, d: string)
    requires d == HexDigits(v) && |d| == 6 && AllHex(d)
    ensures ParseHex(v) == Ok(RGB(Scaled(PairValue(d, 0)), Scaled(PairValue(d, 2)), Scaled(PairValue(d, 4))))
  {
    HexPairs(d);
    ParseHexOfBytes(v, d, PairValue(d, 0), PairValue(d, 2), PairValue(d, 4));
  }

  /** Six hexadecimal digits give the colour whose channels are their
      three pairs over 255, each between 0 and 1. */
  lemma HexChannels(value: string)
    requires var d := HexDigits(Strip(value)); |d| == 6 && AllHex(d)
    ensures var d := HexDigits(Strip(value)); var c := ParseInput("hex", value);
      && c == Ok(RGB(Scaled(PairValue(d, 0)), Scaled(PairValue(d, 2)), Scaled(PairValue(d, 4))))
      && 0.0 <= c.value.r <= 1.0 && 0.0 <= c.value.g <= 1.0 && 0.0 <= c.value.b <= 1.0
  {
    var d := HexDigits(Strip(value));
    Dispatch("hex", value);
    ParseHexDigits(Strip(value), d);
    UnitChannel(PairValue(d, 0));
    UnitChannel(PairValue(d, 2));
    UnitChannel(PairValue(d, 4));
  }

  lemma UnitChannel(n: nat)
    requires n < 256
    ensures 0.0 <= Scaled(n) <= 1.0
  {
  }

  // ----- properties of the rgb branch -----

  /** The rgb branch accepts exactly when three positions of the stripped
      input begin a run of digits, whatever separates them. */
  lemma RgbAccepts(value: string)
    ensures ParseInput("rgb", value).Ok? <==> RunStartsFrom(Strip(value), 0) == 3
  {
    Dispatch("rgb", value);
    DigitRunsCount(Strip(value));
  }

  /** An input with exactly three runs of digits, whatever surrounds them,
      is read as those three numbers over 255, with no clamping. */
  lemma RgbOfRuns(value: string, x: string, y: string, z: string)
    requires DigitRuns(value) == [x, y, z] && AllDigits(x) && AllDigits(y) && AllDigits(z)
    ensures ParseInput("rgb", value) == Ok(RGB(Scaled(DecimalValue(x)), Scaled(DecimalValue(y)), Scaled(DecimalValue(z))))
  {
    Dispatch("rgb", value);
    RunsIgnoreStrip(value);
  }

  // ----- properties of the hsl and hsv branches -----

  /** The hsl and hsv branches report the component count exactly when the
      input, stripped of its parentheses, does not hold two commas. */
  lemma ComponentCountRejected(fmt: string, value: string)
    requires fmt == "hsl" || fmt == "hsv"
    ensures ParseInput(fmt, value) == Err(ComponentCount(fmt))
        <==> Occurrences(Trim(Strip(value), Some({'(', ')'})), ',') != 2
  {
    Dispatch(fmt, value);
  }

  /** With three components, the colour holds the hue read by float() and
      the two others read by parse_percentage_or_float, and it is built
      exactly when all three are read. */
  lemma HslHsvComponents(fmt: string, value: string)
    requires fmt == "hsl" || fmt == "hsv"
    ensures var parts := Components(Strip(value)); var c := ParseInput(fmt, value);
      |parts| == 3 ==>
        && (c.Ok? <==> ParseFloat(parts[0]).Some? && ParsePercentageOrFloat(parts[1]).Ok? && ParsePercentageOrFloat(parts[2]).Ok?)
        && (c.Ok? ==>
              Channels(c.value)
              == (ParseFloat(parts[0]).value, ParsePercentageOrFloat(parts[1]).value, ParsePercentageOrFloat(parts[2]).value))
  {
    Dispatch(fmt, value);
    ThreeComponents(fmt, Strip(value));
  }

  /** ParseHslOrHsv on an input of three components. */
  lemma ThreeComponents(fmt: string, v: string)
    ensures var parts := Components(v); var c := ParseHslOrHsv(fmt, v);
      |parts| == 3 ==>
        && (c.Ok? <==> ParseFloat(parts[0]).Some? && ParsePercentageOrFloat(parts[1]).Ok? && ParsePercentageOrFloat(parts[2]).Ok?)
        && (c.Ok? ==>
              Channels(c.value)
              == (ParseFloat(parts[0]).value, ParsePercentageOrFloat(parts[1]).value, ParsePercentageOrFloat(parts[2]).value))
  {
  }

  /** A hue float() refuses is the error reported, before the other two
      components are looked at. */
  lemma HueRefused(fmt: string, value: string)
    requires fmt == "hsl" || fmt == "hsv"
    ensures var parts := Components(Strip(value));
      |parts| == 3 && ParseFloat(parts[0]).None? ==> ParseInput(fmt, value) == Err(NotANumber(parts[0]))
  {
    Dispatch(fmt, value);
  }

  /** The hue is read by float() alone, so a percentage there is refused. */
  lemma PercentNotFloat(t: string)
    ensures ParseFloat(t + "%").None?
  {
    TrimEndsWithKept(t, '%', Some(NumberSpaces));
    ParseFloatAccepts(t + "%");
    EndsInPercent(TrimStart(t, Some(NumberSpaces)) + "%");
  }

  /** No literal float() accepts ends in '%'. */
  lemma EndsInPercent(w: string)
    requires w != [] && w[|w| - 1] == '%'
    ensures !IsNumeral(w)
  {
    if w[0] == '+' || w[0] == '-' {
      var x := w[1..];
      assert x != [] ==> x[|x| - 1] == '%';
    }
  }

  // ----- the dispatch on the input format -----

  /** The branch that parse_input takes for each tag. */
  lemma Dispatch(fmt: string, value: string)
    ensures fmt == "hex" ==> ParseInput(fmt, value) == ParseHex(Strip(value))
    ensures fmt == "rgb" ==> ParseInput(fmt, value) == ParseRgb(Strip(value))
    ensures fmt == "hsl" || fmt == "hsv" ==> ParseInput(fmt, value) == ParseHslOrHsv(fmt, Strip(value))
    ensures !KnownFormat(fmt) ==> ParseInput(fmt, value) == Err(UnknownInputFormat(fmt))
  {
  }

  /** Only the four known tags are parsed; any other is reported as unknown. */
  lemma UnknownInputRejected(fmt: string, value: string)
    ensures !KnownFormat(fmt) <==> ParseInput(fmt, value) == Err(UnknownInputFormat(fmt))
  {
    Dispatch(fmt, value);
    var c := ParseInput(fmt, value);
    if fmt == "hex" {
      assert c.Err? ==> c.error.HexLength? || c.error.NotHex?;
    } else if fmt == "rgb" {
      assert c.Err? ==> c.error.RgbCount?;
    } else if fmt == "hsl" || fmt == "hsv" {
      assert c.Err? ==> c.error.ComponentCount? || c.error.NotANumber?;
    }
  }

  /** A parsed colour is in the model its tag names. */
  lemma InputModel(fmt: string, value: string)
    ensures var c := ParseInput(fmt, value);
      && (c.Ok? && (fmt == "hex" || fmt == "rgb") ==> c.value.RGB?)
      && (c.Ok? && fmt == "hsl" ==> c.value.HSL?)
      && (c.Ok? && fmt == "hsv" ==> c.value.HSV?)
  {
    Dispatch(fmt, value);
  }
}
