/** The converter's colour value and the errors its parser and formatter raise. */
module Colors {
  import opened Wrappers

  /** A colour in exactly one of the three models: the sRGBColor, HSLColor
      and HSVColor objects main.py builds. Components are exact reals and
      are not range-checked, as in main.py. */
  datatype Color =
    | RGB(r: real, g: real, b: real)
    | HSL(h: real, s: real, l: real)
    | HSV(h: real, s: real, v: real)

  /** The three components of a colour, in the order its model lists them. */
  function Channels(c: Color): (real, real, real) {
    match c
    case RGB(r, g, b) => (r, g, b)
    case HSL(h, s, l) => (h, s, l)
    case HSV(h, s, v) => (h, s, v)
  }

  /** n / 255: an 8-bit value on sRGBColor's scale, where 255 is 1. */
  function Scaled(n: int): real {
    n as real / 255.0
  }

  /** The ValueErrors main.py raises (or lets Python raise), by cause. */
  datatype Error =
    | HexLength                     // "Hex value must be 6 digits"
    | NotHex(slice: string)         // int(slice, 16) rejected a two-character slice
    | RgbCount                      // "RGB requires 3 integers"
    | ComponentCount(fmt: string)   // "HSL requires 3 values" / "HSV requires 3 values"
    | NotANumber(token: string)     // float(token) rejected the token
    | UnknownInputFormat(fmt: string)
    | UnknownFormat(fmt: string)

  type Outcome<T> = Result<T, Error>

  /** The four format tags the converter knows. */
  predicate KnownFormat(fmt: string) {
    fmt == "hex" || fmt == "rgb" || fmt == "hsl" || fmt == "hsv"
  }
}
