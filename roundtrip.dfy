/** How parse_input and format_output fit together: what the hex and rgb
    outputs read back as, and the round trips through them. */
module RoundTrip {
  import opened Wrappers
  import opened PyText
  import opened Numerals
  import opened Colors
  import opened Parse
  import opened Format

  // ----- reading back hex text -----

  /** format(n, '02X') of a byte, read as a pair of digits, is the byte. */
  lemma Hex02Value(n: int)
    requires 0 <= n < 256
    ensures var w := Hex02(n); AllHex(w) && 16 * HexDigitValue(w[0]) + HexDigitValue(w[1]) == n
  {
  }

  /** A '#' in front of hexadecimal digits is all that lstrip("#") removes. */
  lemma HashDigits(d: string)
    requires d != [] && AllHex(d)
    ensures HexDigits(Strip("#" + d)) == d
  {
    var w := "#" + d;
    assert w[|w| - 1] == d[|d| - 1];
    TrimKept(w, None);
    assert w[1..] == d;
    assert TrimStart(d, Some({'#'})) == d;
  }

  /** The pairs of three concatenated bytes. */
  lemma PairsOfBytes(r: int, g: int, b: int, d: string)
    requires 0 <= r < 256 && 0 <= g < 256 && 0 <= b < 256
    requires d == Hex02(r) + Hex02(g) + Hex02(b)
    ensures |d| == 6 && AllHex(d)
    ensures PairValue(d, 0) == r && PairValue(d, 2) == g && PairValue(d, 4) == b
  {
    Hex02Value(r);
    Hex02Value(g);
    Hex02Value(b);
    assert d[0] == Hex02(r)[0] && d[1] == Hex02(r)[1];
    assert d[2] == Hex02(g)[0] && d[3] == Hex02(g)[1];
    assert d[4] == Hex02(b)[0] && d[5] == Hex02(b)[1];
  }

  /** The hex text of three bytes parses back to those bytes over 255. */
  lemma HexTextParses(r: int, g: int, b: int)
    requires 0 <= r < 256 && 0 <= g < 256 && 0 <= b < 256
    ensures ParseInput("hex", HexText(r, g, b)) == Ok(RGB(Scaled(r), Scaled(g), Scaled(b)))
  {
    var d := Hex02(r) + Hex02(g) + Hex02(b);
    HexTextShape(r, g, b);
    PairsOfBytes(r, g, b, d);
    assert HexText(r, g, b) == "#" + d;
    HashDigits(d);
    HexChannels("#" + d);
  }

  // ----- reading back rgb text -----

  /** Three runs of digits x, y and z, with pre before the first, sep1 and
      sep2 between them and post after the last. */
  function Separated(pre: string, x: string, sep1: string, y: string, sep2: string, z: string, post: string): string {
    pre + x + sep1 + y + sep2 + z + post
  }

  /** A non-empty string of digits, as a number is written in rgb input
      (leading zeros allowed). */
  predicate IsNumber(x: string) {
    x != [] && AllDigits(x)
  }

  /** Text that keeps two numbers apart: at least one character, no digit. */
  predicate IsGap(sep: string) {
    sep != [] && NoDigits(sep)
  }

  /** A number, then a separator without digits: one run, then whatever
      the rest holds. */
  lemma RunThenSeparator(x: string, sep: string, rest: string)
    requires IsNumber(x) && IsGap(sep)
    ensures DigitRuns(x + (sep + rest)) == [x] + DigitRuns(rest)
  {
    DigitRunsSkip(sep, rest);
    DigitRunsTake(x, sep + rest);
  }

  /** A number, then text without digits: one run. */
  lemma RunThenEnd(x: string, post: string)
    requires IsNumber(x) && NoDigits(post)
    ensures DigitRuns(x + post) == [x]
  {
    DigitRunsSkip(post, []);
    assert post + [] == post;
    DigitRunsTake(x, post);
  }

  /** re.findall(r'\d+', ...) on three numbers kept apart by text without
      digits finds exactly those three numbers. */
  lemma SeparatedRuns(pre: string, x: string, sep1: string, y: string, sep2: string, z: string, post: string)
    requires NoDigits(pre) && IsGap(sep1) && IsGap(sep2) && NoDigits(post)
    requires IsNumber(x) && IsNumber(y) && IsNumber(z)
    ensures DigitRuns(Separated(pre, x, sep1, y, sep2, z, post)) == [x, y, z]
  {
    var t2 := y + (sep2 + (z + post));
    var t1 := x + (sep1 + t2);
    RunThenEnd(z, post);
    RunThenSeparator(y, sep2, z + post);
    RunThenSeparator(x, sep1, t2);
    DigitRunsSkip(pre, t1);
    Regroup(pre, x, sep1, y, sep2, z, post);
  }

  lemma Regroup(p: string, x: string, s1: string, y: string, s2: string, z: string, q: string)
    ensures p + x + s1 + y + s2 + z + q == p + (x + (s1 + (y + (s2 + (z + q)))))
  {
  }

  /** The rgb branch reads three numbers kept apart by text without digits
      as those numbers over 255, with no clamping. The text around and
      between them may be empty at the ends, may differ between the two
      gaps, and may hold whitespace; the numbers may have leading zeros. */
  lemma SeparatedParses(pre: string, x: string, sep1: string, y: string, sep2: string, z: string, post: string)
    requires NoDigits(pre) && IsGap(sep1) && IsGap(sep2) && NoDigits(post)
    requires IsNumber(x) && IsNumber(y) && IsNumber(z)
    ensures ParseInput("rgb", Separated(pre, x, sep1, y, sep2, z, post))
      == Ok(RGB(Scaled(DecimalValue(x)), Scaled(DecimalValue(y)), Scaled(DecimalValue(z))))
  {
    SeparatedRuns(pre, x, sep1, y, sep2, z, post);
    RgbOfRuns(Separated(pre, x, sep1, y, sep2, z, post), x, y, z);
  }

  lemma DigitStringValue(n: nat)
    ensures DecimalValue(DecimalString(n)) == n
  {
  }

  /** The rgb text of three non-negative bytes parses back to those bytes
      over 255. */
  lemma RgbTextParses(r: nat, g: nat, b: nat)
    ensures ParseInput("rgb", RgbText(r, g, b)) == Ok(RGB(Scaled(r), Scaled(g), Scaled(b)))
  {
    var pre, sep, post := "rgb(", ", ", ")";
    var x, y, z := DecimalString(r), DecimalString(g), DecimalString(b);
    RgbPieces(pre, sep, post);
    RgbTextSeparated(pre, sep, post, r, g, b);
    SeparatedParses(pre, x, sep, y, sep, z, post);
    DigitStringValue(r);
    DigitStringValue(g);
    DigitStringValue(b);
  }

  /** The fixed text of f"rgb({r}, {g}, {b})" holds no digit. */
  lemma RgbPieces(pre: string, sep: string, post: string)
    requires pre == "rgb(" && sep == ", " && post == ")"
    ensures NoDigits(pre) && IsGap(sep) && NoDigits(post)
  {
  }

  lemma RgbTextSeparated(pre: string, sep: string, post: string, r: nat, g: nat, b: nat)
    requires pre == "rgb(" && sep == ", " && post == ")"
    ensures RgbText(r, g, b) == Separated(pre, DecimalString(r), sep, DecimalString(g), sep, DecimalString(b), post)
  {
  }

  /** An input such as "(300, 0, 0)" is accepted as it stands: a number
      above 255 gives a channel above 1. */
  lemma RgbUnclamped(r: nat, g: nat, b: nat)
    ensures var c := ParseInput("rgb", Separated("(", DecimalString(r), ", ", DecimalString(g), ", ", DecimalString(b), ")"));
      c == Ok(RGB(Scaled(r), Scaled(g), Scaled(b))) && (r > 255 ==> c.value.r > 1.0)
  {
    SeparatedParses("(", DecimalString(r), ", ", DecimalString(g), ", ", DecimalString(b), ")");
    DigitStringValue(r);
    DigitStringValue(g);
    DigitStringValue(b);
  }

  // ----- round trips -----

  /** Formatting a parsed RGB colour as hex writes the bytes it was parsed
      from. */
  lemma ScaledToHex(lib: Colorimetry, r: int, g: int, b: int)
    ensures FormatOutput(lib, RGB(Scaled(r), Scaled(g), Scaled(b)), "hex") == Ok(HexText(r, g, b))
    ensures FormatOutput(lib, RGB(Scaled(r), Scaled(g), Scaled(b)), "rgb") == Ok(RgbText(r, g, b))
  {
    FormatDispatch(lib, RGB(Scaled(r), Scaled(g), Scaled(b)), "hex");
    FormatDispatch(lib, RGB(Scaled(r), Scaled(g), Scaled(b)), "rgb");
    ByteOfScaled(r);
    ByteOfScaled(g);
    ByteOfScaled(b);
  }

  /** format(n, '02X') of the value of two hexadecimal digits is those
      digits in upper case. */
  lemma PairText(d: string, i: nat)
    requires i + 1 < |d| && AllHex(d)
    ensures Hex02(PairValue(d, i)) == [UpperHex(d[i]), UpperHex(d[i + 1])]
  {
    var n := PairValue(d, i);
    assert n / 16 == HexDigitValue(d[i]) && n % 16 == HexDigitValue(d[i + 1]);
    HexDigitCharValue(d[i]);
    HexDigitCharValue(d[i + 1]);
  }

  /** Parsing six hexadecimal digits and formatting the colour as hex
      gives '#' and the same digits in upper case. */
  lemma HexRoundTrip(lib: Colorimetry, value: string)
    requires var d := HexDigits(Strip(value)); |d| == 6 && AllHex(d)
    ensures var d := HexDigits(Strip(value)); var c := ParseInput("hex", value);
      c.Ok? && FormatOutput(lib, c.value, "hex") == Ok("#" + UpperText(d))
  {
    var d := HexDigits(Strip(value));
    HexChannels(value);
    ScaledToHex(lib, PairValue(d, 0), PairValue(d, 2), PairValue(d, 4));
    UpperPairs(d);
  }

  /** The hex text of the three pairs of six digits is those digits in
      upper case after '#'. */
  lemma UpperPairs(d: string)
    requires |d| == 6 && AllHex(d)
    ensures HexText(PairValue(d, 0), PairValue(d, 2), PairValue(d, 4)) == "#" + UpperText(d)
  {
    PairText(d, 0);
    PairText(d, 2);
    PairText(d, 4);
    HexTextOfPairs(PairValue(d, 0), PairValue(d, 2), PairValue(d, 4),
      [UpperHex(d[0]), UpperHex(d[1])], [UpperHex(d[2]), UpperHex(d[3])], [UpperHex(d[4]), UpperHex(d[5])]);
    SixUpper(d);
  }

  lemma HexTextOfPairs(r: int, g: int, b: int, x: string, y: string, z: string)
    requires Hex02(r) == x && Hex02(g) == y && Hex02(b) == z
    ensures HexText(r, g, b) == "#" + x + y + z
  {
  }

  lemma SixUpper(d: string)
    requires |d| == 6 && AllHex(d)
    ensures "#" + UpperText(d) == "#" + [UpperHex(d[0]), UpperHex(d[1])]
      + [UpperHex(d[2]), UpperHex(d[3])] + [UpperHex(d[4]), UpperHex(d[5])]
  {
  }

  /** An rgb input whose three runs of digits are numbers in 0..255,
      parsed and formatted as hex, gives the hex text of those numbers. */
  lemma RgbToHex(lib: Colorimetry, value: string, x: string, y: string, z: string)
    requires DigitRuns(value) == [x, y, z] && AllDigits(x) && AllDigits(y) && AllDigits(z)
    requires DecimalValue(x) < 256 && DecimalValue(y) < 256 && DecimalValue(z) < 256
    ensures var c := ParseInput("rgb", value);
      c.Ok? && FormatOutput(lib, c.value, "hex") == Ok(HexText(DecimalValue(x), DecimalValue(y), DecimalValue(z)))
  {
    RgbOfRuns(value, x, y, z);
    ScaledToHex(lib, DecimalValue(x), DecimalValue(y), DecimalValue(z));
  }

  /** The hex and rgb outputs of a colour in the unit cube write the same
      bytes: both read back as the quantised colour. */
  lemma OutputsAgree(lib: Colorimetry, c: Color)
    requires InUnitCube(lib, c)
    ensures var h := FormatOutput(lib, c, "hex"); var t := FormatOutput(lib, c, "rgb");
      && h.Ok? && t.Ok?
      && ParseInput("hex", h.value) == Ok(Quantized(lib, c))
      && ParseInput("rgb", t.value) == Ok(Quantized(lib, c))
  {
    var rgb := ToRgb(lib, c);
    FormatDispatch(lib, c, "hex");
    FormatDispatch(lib, c, "rgb");
    HexTextParses(Byte(rgb.r), Byte(rgb.g), Byte(rgb.b));
    RgbTextParses(Byte(rgb.r), Byte(rgb.g), Byte(rgb.b));
  }

  /** Formatting the quantised colour writes the same text as formatting
      the colour itself. */
  lemma QuantizedFormatsAlike(lib: Colorimetry, c: Color, fmt: string)
    requires fmt == "hex" || fmt == "rgb"
    ensures FormatOutput(lib, Quantized(lib, c), fmt) == FormatOutput(lib, c, fmt)
  {
    var rgb := ToRgb(lib, c);
    FormatDispatch(lib, c, fmt);
    ScaledToHex(lib, Byte(rgb.r), Byte(rgb.g), Byte(rgb.b));
  }

  /** Hex output is a fixed point: parsing it and formatting again gives
      the same text. */
  lemma HexIdempotent(lib: Colorimetry, c: Color)
    requires InUnitCube(lib, c)
    ensures var h := FormatOutput(lib, c, "hex"); var p := ParseInput("hex", h.value);
      h.Ok? && p.Ok? && FormatOutput(lib, p.value, "hex") == h
  {
    OutputsAgree(lib, c);
    QuantizedFormatsAlike(lib, c, "hex");
  }

  /** Rgb output of a colour with no negative channel is a fixed point too,
      even above 1. */
  lemma RgbIdempotent(lib: Colorimetry, c: Color)
    requires var rgb := ToRgb(lib, c); 0.0 <= rgb.r && 0.0 <= rgb.g && 0.0 <= rgb.b
    ensures var t := FormatOutput(lib, c, "rgb"); var p := ParseInput("rgb", t.value);
      t.Ok? && p.Ok? && FormatOutput(lib, p.value, "rgb") == t
  {
    var rgb := ToRgb(lib, c);
    FormatDispatch(lib, c, "rgb");
    RgbTextParses(Byte(rgb.r), Byte(rgb.g), Byte(rgb.b));
    QuantizedFormatsAlike(lib, c, "rgb");
  }
}
