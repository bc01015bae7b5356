/** format_output of main.py. */
module Format {
  import opened Wrappers
  import opened Numerals
  import opened Colors

  /** What format_output takes from outside main.py: colormath's
      convert_color between the three models, one function per ordered pair
      of distinct models, and str(round(x, 2)), which prints a float. */
  datatype Colorimetry = Colorimetry(
    hslToRgb: (real, real, real) -> (real, real, real),
    hsvToRgb: (real, real, real) -> (real, real, real),
    rgbToHsl: (real, real, real) -> (real, real, real),
    hsvToHsl: (real, real, real) -> (real, real, real),
    rgbToHsv: (real, real, real) -> (real, real, real),
    hslToHsv: (real, real, real) -> (real, real, real),
    shown: real -> string)

  /** convert_color(color, sRGBColor): a colour already in RGB is kept. */
  function ToRgb(lib: Colorimetry, c: Color): (rgb: Color)
    ensures rgb.RGB?
    ensures c.RGB? ==> rgb == c
  {
    match c
    case RGB(_, _, _) => c
    case HSL(h, s, l) => var t := lib.hslToRgb(h, s, l); RGB(t.0, t.1, t.2)
    case HSV(h, s, v) => var t := lib.hsvToRgb(h, s, v); RGB(t.0, t.1, t.2)
  }

  /** convert_color(color, HSLColor).get_value_tuple(). */
  function ToHsl(lib: Colorimetry, c: Color): (t: (real, real, real))
    ensures c.HSL? ==> t == Channels(c)
  {
    match c
    case RGB(r, g, b) => lib.rgbToHsl(r, g, b)
    case HSL(h, s, l) => (h, s, l)
    case HSV(h, s, v) => lib.hsvToHsl(h, s, v)
  }

  /** convert_color(color, HSVColor).get_value_tuple(). */
  function ToHsv(lib: Colorimetry, c: Color): (t: (real, real, real))
    ensures c.HSV? ==> t == Channels(c)
  {
    match c
    case RGB(r, g, b) => lib.rgbToHsv(r, g, b)
    case HSL(h, s, l) => lib.hslToHsv(h, s, l)
    case HSV(h, s, v) => (h, s, v)
  }

  /** int(x * 255): one channel as a byte, truncated toward zero. */
  function Byte(x: real): (n: int)
    ensures 0.0 <= x <= 1.0 ==> 0 <= n <= 255
    ensures 0.0 <= x ==> 0 <= n
    ensures 0.0 <= x ==> n as real <= x * 255.0 < n as real + 1.0
    ensures x < 0.0 ==> n <= 0 && n as real - 1.0 < x * 255.0 <= n as real
  {
    Truncate(x * 255.0)
  }

  /** f"#{r:02X}{g:02X}{b:02X}" */
  function HexText(r: int, g: int, b: int): string {
    "#" + Hex02(r) + Hex02(g) + Hex02(b)
  }

  /** f"rgb({r}, {g}, {b})" */
  function RgbText(r: int, g: int, b: int): string {
    "rgb(" + IntText(r) + ", " + IntText(g) + ", " + IntText(b) + ")"
  }

  /** The text of the hsl and hsv branches: the hue, then the two other
      components as percentages. */
  function PercentTriple(lib: Colorimetry, name: string, t: (real, real, real)): string {
    name + "(" + lib.shown(t.0) + ", " + lib.shown(t.1 * 100.0) + "%, " + lib.shown(t.2 * 100.0) + "%)"
  }

  /** format_output(color, fmt). */
  function FormatOutput(lib: Colorimetry, c: Color, fmt: string): Outcome<string> {
    if fmt == "hex" then
      var rgb := ToRgb(lib, c);
      Ok(HexText(Byte(rgb.r), Byte(rgb.g), Byte(rgb.b)))
    else if fmt == "rgb" then
      var rgb := ToRgb(lib, c);
      Ok(RgbText(Byte(rgb.r), Byte(rgb.g), Byte(rgb.b)))
    else if fmt == "hsl" then Ok(PercentTriple(lib, "hsl", ToHsl(lib, c)))
    else if fmt == "hsv" then Ok(PercentTriple(lib, "hsv", ToHsv(lib, c)))
    else Err(UnknownFormat(fmt))
  }

  /** The RGB colour an RGB output stands for: each channel replaced by its
      byte over 255. */
  function Quantized(lib: Colorimetry, c: Color): (q: Color)
    ensures q.RGB?
  {
    var rgb := ToRgb(lib, c);
    RGB(Scaled(Byte(rgb.r)), Scaled(Byte(rgb.g)), Scaled(Byte(rgb.b)))
  }

  /** Every channel of the colour's RGB form lies in [0, 1]. */
  predicate InUnitCube(lib: Colorimetry, c: Color) {
    var rgb := ToRgb(lib, c);
    0.0 <= rgb.r <= 1.0 && 0.0 <= rgb.g <= 1.0 && 0.0 <= rgb.b <= 1.0
  }

  // ----- properties -----

  /** The branch that format_output takes for each tag. */
  lemma FormatDispatch(lib: Colorimetry, c: Color, fmt: string)
    ensures var rgb := ToRgb(lib, c);
      fmt == "hex" ==> FormatOutput(lib, c, fmt) == Ok(HexText(Byte(rgb.r), Byte(rgb.g), Byte(rgb.b)))
    ensures var rgb := ToRgb(lib, c);
      fmt == "rgb" ==> FormatOutput(lib, c, fmt) == Ok(RgbText(Byte(rgb.r), Byte(rgb.g), Byte(rgb.b)))
    ensures !KnownFormat(fmt) ==> FormatOutput(lib, c, fmt) == Err(UnknownFormat(fmt))
  {
  }

  /** format_output fails exactly on the tags it does not know, and then
      names the tag. */
  lemma UnknownFormatRejected(lib: Colorimetry, c: Color, fmt: string)
    ensures FormatOutput(lib, c, fmt).Err? <==> !KnownFormat(fmt)
    ensures FormatOutput(lib, c, fmt).Err? ==> FormatOutput(lib, c, fmt).error == UnknownFormat(fmt)
  {
    FormatDispatch(lib, c, fmt);
    if fmt == "hsl" {
      assert FormatOutput(lib, c, fmt) == Ok(PercentTriple(lib, "hsl", ToHsl(lib, c)));
    } else if fmt == "hsv" {
      assert FormatOutput(lib, c, fmt) == Ok(PercentTriple(lib, "hsv", ToHsv(lib, c)));
    }
  }

  /** Bytes in 0..255 give "#" and six upper-case hexadecimal digits, the
      pair at 1 + 2i holding the i-th byte. */
  lemma HexTextShape(r: int, g: int, b: int)
    requires 0 <= r < 256 && 0 <= g < 256 && 0 <= b < 256
    ensures var w := HexText(r, g, b);
      && |w| == 7 && w[0] == '#'
      && (forall i :: 1 <= i < 7 ==> IsUpperHexDigit(w[i]))
      && w[1..] == Hex02(r) + Hex02(g) + Hex02(b)
  {
    var w := HexText(r, g, b);
    assert w == "#" + (Hex02(r) + Hex02(g) + Hex02(b));
    UpperPieces(Hex02(r), Hex02(g), Hex02(b));
  }

  /** Three pairs of upper-case digits joined are six of them. */
  lemma UpperPieces(x: string, y: string, z: string)
    requires |x| == 2 && IsUpperHexDigit(x[0]) && IsUpperHexDigit(x[1])
    requires |y| == 2 && IsUpperHexDigit(y[0]) && IsUpperHexDigit(y[1])
    requires |z| == 2 && IsUpperHexDigit(z[0]) && IsUpperHexDigit(z[1])
    ensures forall i :: 0 <= i < 6 ==> IsUpperHexDigit((x + y + z)[i])
  {
    var d := x + y + z;
    forall i | 0 <= i < 6 ensures IsUpperHexDigit(d[i]) {
      if i < 2 { assert d[i] == x[i]; }
      else if i < 4 { assert d[i] == y[i - 2]; }
      else { assert d[i] == z[i - 4]; }
    }
  }

  /** When every channel is in [0, 1], the hex output is exactly seven
      characters: '#' and six upper-case hexadecimal digits. */
  lemma HexOutputShape(lib: Colorimetry, c: Color)
    requires InUnitCube(lib, c)
    ensures var out := FormatOutput(lib, c, "hex");
      && out.Ok? && |out.value| == 7 && out.value[0] == '#'
      && (forall i :: 1 <= i < 7 ==> IsUpperHexDigit(out.value[i]))
  {
    var rgb := ToRgb(lib, c);
    FormatDispatch(lib, c, "hex");
    HexTextShape(Byte(rgb.r), Byte(rgb.g), Byte(rgb.b));
  }

  /** A byte over 255, multiplied back by 255 and truncated, is that byte. */
  lemma ByteOfScaled(n: int)
    ensures Byte(Scaled(n)) == n
  {
    var x := Scaled(n);
    assert x * 255.0 == n as real;
  }
}
