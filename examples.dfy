/** The sample inputs of the converter's prompt and an input for each
    error parse_input raises, worked through the model. Each lemma takes
    its text as a parameter fixed by its precondition. */
module Examples {
  import opened Wrappers
  import opened PyText
  import opened Numerals
  import opened Colors
  import opened Parse
  import opened Format
  import opened RoundTrip

  /** "12345" as hex: five digits are the wrong length. */
  lemma HexTooShort(value: string)
    requires value == "12345"
    ensures ParseInput("hex", value) == Err(HexLength)
  {
    TrimKept(value, None);
    assert TrimStart(value, Some({'#'})) == value;
    HexLengthRejected(value);
  }

  /** "1,2" as rgb: two numbers are too few. */
  lemma RgbTooFew(value: string)
    requires value == "1,2"
    ensures ParseInput("rgb", value) == Err(RgbCount)
  {
    var one, comma, two := value[..1], value[1..2], value[2..];
    assert value == one + (comma + two);
    assert two + [] == two;
    RunThenEnd(two, []);
    RunThenSeparator(one, comma, two);
    TrimKept(value, None);
    Dispatch("rgb", value);
  }

  /** "(40, 100%)" as hsl: two components are too few. */
  lemma HslTooFew(value: string)
    requires value == "(40, 100%)"
    ensures ParseInput("hsl", value) == Err(ComponentCount("hsl"))
  {
    var inner := HslInner(value);
    OneComma(inner);
    ComponentCountRejected("hsl", value);
  }

  /** strip() leaves "(40, 100%)" alone and strip("()") removes the parentheses. */
  lemma HslInner(value: string) returns (inner: string)
    requires value == "(40, 100%)"
    ensures inner == "40, 100%" && Trim(Strip(value), Some({'(', ')'})) == inner
  {
    TrimKept(value, None);
    inner := value[1..|value| - 1];
    assert TrimStart(value, Some({'(', ')'})) == value[1..];
    assert value[1..][..|value| - 2] == inner;
    TrimKept(inner, Some({'(', ')'}));
  }

  lemma OneComma(t: string)
    requires t == "40, 100%"
    ensures Occurrences(t, ',') == 1
  {
    var head, comma, tail := t[..2], t[2..3], t[3..];
    assert t == head + (comma + tail);
    assert ',' !in head && ',' !in tail;
    OccurrencesZero(head, ',');
    OccurrencesZero(tail, ',');
    OccurrencesAppend(comma, tail, ',');
    OccurrencesAppend(head, comma + tail, ',');
  }

  /** A tag other than hex, rgb, hsl and hsv is reported as an unknown
      input format, whatever the value. */
  lemma CmykUnknown(fmt: string, value: string)
    requires fmt == "cmyk"
    ensures ParseInput(fmt, value) == Err(UnknownInputFormat("cmyk"))
  {
    UnknownInputRejected(fmt, value);
  }

  /** "abc,50%,50%" splits into three components, "abc" first. */
  lemma AbcComponents(value: string)
    requires value == "abc,50%,50%"
    ensures Strip(value) == value
    ensures |Components(value)| == 3 && Components(value)[0] == value[..3]
  {
    var a, p, q := value[..3], value[4..7], value[8..];
    assert value == a + [','] + (p + [','] + q);
    TrimKept(value, None);
    TrimKept(value, Some({'(', ')'}));
    TrimKept(a, None);
    ThreeComponentsOf(value, a, p, q);
  }

  /** Text without parentheses at its ends, made of three comma-free
      pieces joined by commas, has those pieces, stripped, as components. */
  lemma ThreeComponentsOf(value: string, a: string, p: string, q: string)
    requires value == a + [','] + (p + [','] + q)
    requires ',' !in a && ',' !in p && ',' !in q
    requires Trim(value, Some({'(', ')'})) == value
    ensures |Components(value)| == 3 && Components(value)[0] == Strip(a)
  {
    SplitSepFree(q, ',');
    SplitAfter(p, q, ',');
    SplitAfter(a, p + [','] + q, ',');
    assert Split(value, ',') == [a, p, q];
  }

  /** float() refuses "abc". */
  lemma AbcNotFloat(t: string)
    requires t == "abc"
    ensures ParseFloat(t).None?
  {
    TrimKept(t, Some(NumberSpaces));
    ParseFloatAccepts(t);
  }

  /** "abc,50%,50%" as hsl: the hue is not a number. */
  lemma HueNotNumber(value: string)
    requires value == "abc,50%,50%"
    ensures ParseInput("hsl", value) == Err(NotANumber("abc"))
  {
    AbcNotFloat(value[..3]);
    AbcComponents(value);
    HueNamed(value, value[..3]);
  }

  lemma HueNamed(value: string, hue: string)
    requires Strip(value) == value && |Components(value)| == 3 && Components(value)[0] == hue
    requires ParseFloat(hue).None?
    ensures ParseInput("hsl", value) == Err(NotANumber(hue))
  {
    HueRefused("hsl", value);
  }

  /** int(_, 16) takes a sign, so "-F0000" is accepted as hex and gives a
      red channel of -15/255. */
  lemma SignedHexPair(value: string)
    requires value == "-F0000"
    ensures ParseInput("hex", value) == Ok(RGB(Scaled(-15), Scaled(0), Scaled(0)))
  {
    assert Strip(value) == value by { TrimKept(value, None); }
    assert HexDigits(value) == value by {
      assert TrimStart(value, Some({'#'})) == value;
    }
    SignedPairs(value);
    ParseHexOfBytes(value, value, -15, 0, 0);
    Dispatch("hex", value);
  }

  /** The three pairs of "-F0000" read as -15, 0 and 0. */
  lemma SignedPairs(value: string)
    requires value == "-F0000"
    ensures HexByte(value[0..2]) == Ok(-15)
    ensures HexByte(value[2..4]) == Ok(0) && HexByte(value[4..6]) == Ok(0)
  {
    MinusF(value[0..2]);
    var zeros := value[2..4];
    assert value[4..6] == zeros;
    HexByteOfTwo(zeros);
  }

  /** int("-F", 16) is -15. */
  lemma MinusF(w: string)
    requires w == "-F"
    ensures HexByte(w) == Ok(-15)
  {
    TrimKept(w, Some(NumberSpaces));
    assert w[1..] == "F";
  }

  /** The three bytes of the sample colour, written as hex. */
  lemma SampleHexText(value: string)
    requires value == "#FF8800"
    ensures value == HexText(255, 136, 0)
  {
  }

  /** "#FF8800" reads as (255/255, 136/255, 0/255), and formatting that
      colour as hex writes "#FF8800" again. */
  lemma HexSample(lib: Colorimetry, value: string)
    requires value == "#FF8800"
    ensures ParseInput("hex", value) == Ok(RGB(Scaled(255), Scaled(136), Scaled(0)))
    ensures FormatOutput(lib, RGB(Scaled(255), Scaled(136), Scaled(0)), "hex") == Ok(value)
  {
    SampleHexText(value);
    HexTextParses(255, 136, 0);
    ScaledToHex(lib, 255, 136, 0);
  }

  /** The sample rgb input, as three numbers between "(", ", " and ")". */
  lemma SampleRgbText(value: string)
    requires value == "(255, 136, 0)"
    ensures value == Separated("(", DecimalString(255), ", ", DecimalString(136), ", ", DecimalString(0), ")")
  {
    assert DecimalString(255) == "255";
    assert DecimalString(136) == "136";
    assert DecimalString(0) == "0";
  }

  /** "(255, 136, 0)" as rgb, formatted as hex, is "#FF8800". */
  lemma RgbSample(lib: Colorimetry, value: string)
    requires value == "(255, 136, 0)"
    ensures var c := ParseInput("rgb", value); c.Ok? && FormatOutput(lib, c.value, "hex") == Ok("#FF8800")
  {
    var x, y, z := DecimalString(255), DecimalString(136), DecimalString(0);
    SampleRgbText(value);
    SampleRuns(value, x, y, z);
    DigitStringValue(255);
    DigitStringValue(136);
    DigitStringValue(0);
    RgbToHex(lib, value, x, y, z);
    SampleHexText("#FF8800");
  }

  lemma SampleRuns(value: string, x: string, y: string, z: string)
    requires IsNumber(x) && IsNumber(y) && IsNumber(z)
    requires value == Separated("(", x, ", ", y, ", ", z, ")")
    ensures DigitRuns(value) == [x, y, z]
  {
    SeparatedRuns("(", x, ", ", y, ", ", z, ")");
  }

  /** "255,136,0", with nothing around the numbers, is read as rgb too. */
  lemma BareTriple(value: string)
    requires value == "255,136,0"
    ensures ParseInput("rgb", value) == Ok(RGB(Scaled(255), Scaled(136), Scaled(0)))
  {
    var x, y, z := DecimalString(255), DecimalString(136), DecimalString(0);
    assert x == "255" && y == "136" && z == "0";
    assert value == Separated([], x, ",", y, ",", z, []);
    SeparatedParses([], x, ",", y, ",", z, []);
    DigitStringValue(255);
    DigitStringValue(136);
    DigitStringValue(0);
  }

  /** int(_, 16) keeps the separator U+001C, so the pair "1" U+001C of
      "1" U+001C "2345" is refused. */
  lemma SeparatorInHex(value: string)
    requires value == "1\U{1C}2345"
    ensures ParseInput("hex", value) == Err(NotHex(value[0..2]))
  {
    TrimKept(value, None);
    assert TrimStart(value, Some({'#'})) == value;
    SeparatorPair(value[0..2]);
    Dispatch("hex", value);
  }

  lemma SeparatorPair(w: string)
    requires w == "1\U{1C}"
    ensures HexByte(w) == Err(NotHex(w))
  {
    TrimKept(w, Some(NumberSpaces));
  }

  /** float() keeps the separator U+001C as well, so the component
      "50" U+001C "%" is refused although str.isspace() holds for U+001C. */
  lemma SeparatorInPercent(token: string)
    requires token == "50\U{1C}%"
    ensures ParsePercentageOrFloat(token) == Err(NotANumber(token[..3]))
  {
    var t := token[..3];
    assert token == t + "%";
    TrimKept(token, None);
    PercentStep(token, t);
    SeparatorNumber(t);
  }

  lemma SeparatorNumber(t: string)
    requires t == "50\U{1C}"
    ensures ParseFloat(t).None?
  {
    TrimKept(t, Some(NumberSpaces));
    ParseFloatAccepts(t);
    assert !IsDigit(t[2]) && t[2] != '.';
  }
}
