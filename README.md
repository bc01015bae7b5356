# ShellCol colour converter: parser and formatter

ShellCol is an interactive colour converter (`main.py`). It asks for a source
notation and a target notation, chosen from `hex`, `rgb`, `hsl` and `hsv`. It
then reads a colour in the source notation with `parse_input`, which uses
`parse_percentage_or_float` for the hsl/hsv components, and prints it in the
target notation with `format_output`.

This project models those three functions in Dafny and proves what they
accept, what they reject and with which error, what they produce, and how the
hex and rgb notations round-trip through each other.

Modules:

- `Wrappers`: `Option` and `Result`. `Result` supports `:-`, used to propagate the first failing step.
- `PyText`: the Python string operations `main.py` relies on, as functions on `seq<char>`:
  - `str.strip`, `lstrip` and `rstrip`, with and without a character set (`Trim`, `TrimStart`, `TrimEnd`, `Strip`);
  - `str.split` on one character, with its inverse `join` (`Split`, `Join`);
  - `re.findall(r'\d+', …)` (`DigitRuns`).
- `Numerals`: digit strings and numeric parsing and printing:
  - `int()` on decimal digits (`DecimalValue`) and `str()` of an integer (`DecimalString`, `IntText`);
  - `int(_, 16)` (`ParseHexInt`);
  - `format(n, '02X')` (`Hex02`);
  - `float()` on plain decimal literals (`ParseFloat`);
  - `int()` of a number, which truncates toward zero (`Truncate`).
- `Colors`: the colour value `RGB | HSL | HSV`, the scaling `n / 255`, and the error kinds. These are the `ValueError`s `main.py` raises, and those that `int(_, 16)` and `float()` raise on text they refuse. The errors Python raises only on very large numbers are not modelled; see "Left out".
- `Parse`: `parse_input` and `parse_percentage_or_float`, with their branch-by-branch properties.
- `Format`: `format_output`. colormath's `convert_color` and the printing of `round(x, 2)` are passed in as a `Colorimetry` record of functions. Converting a colour to its own model is the identity.
- `RoundTrip`: what the hex and rgb outputs read back as, and the round trips and fixed points through them:
  - hex → hex;
  - rgb → hex;
  - hex output read back;
  - rgb output read back.
- `Examples`: the prompt's sample inputs (`main.py:101-102`) and a malformed input for each error `parse_input` raises, worked through the model. The errors are the hex length, a refused hex pair, the rgb count, the hsl/hsv component count, a refused number and an unknown tag.

Channels and components are exact `real`s. With exact arithmetic, `int(n / 255 * 255) == n` holds exactly (`Format.ByteOfScaled`).

Some behaviours of `main.py` that are easy to overlook:

- `value.lstrip("#")` strips every leading `#`, so `"##FF8800"` is accepted (`Parse.HexDigits`).
- `int(slice, 16)` accepts a sign or whitespace inside a slice, so `"-F0000"` gives a red channel of −15/255 (`Examples.SignedHexPair`).
- The separators U+001C..U+001F are whitespace to `str.strip()` but not to `int()` and `float()`, so `"1"` U+001C `"2345"` is refused as hex (`Examples.SeparatorInHex`).
- The rgb branch does not clamp: `"(300, 0, 0)"` gives a red channel above 1 (`RoundTrip.RgbUnclamped`). It reads whatever three runs of digits the text holds, so `"255,136,0"` is accepted as well (`Examples.BareTriple`). A `-` is not a digit, so no rgb channel is negative (`Parse.ParseRgb`).

## Model

| member | source | states |
|---|---|---|
| PyText.Strip | main.py:56 | `str.strip()` with no argument; `Trim`, `TrimEmpty` and `TrimKept` state what it keeps |
| PyText.TrimStart | main.py:58 | `lstrip`: the result is no longer than the input, every removed character is one that is stripped, and the result is empty or starts with a kept character |
| PyText.TrimEnd | main.py:73 | `rstrip`: the mirror image of `TrimStart` |
| PyText.Trim | main.py:56 | `strip`: the result is empty, or it starts and ends with a kept character |
| PyText.TrimStartSuffix | main.py:58 | `lstrip` keeps a suffix of its input |
| PyText.TrimIsSlice | main.py:73 | `strip(chars)` is exactly the slice between the two stripped ends |
| PyText.TrimEmpty | main.py:56 | stripping gives the empty string exactly when every character is stripped |
| PyText.TrimKept | main.py:56 | a string whose first and last characters are kept is unchanged by stripping |
| PyText.TrimStartTwice | main.py:56 | `lstrip` is idempotent |
| PyText.NumberSpacesAreSpaces | main.py:61 | the whitespace `int()` and `float()` skip is the `str.isspace()` set without U+001C..U+001F |
| PyText.NumberStrip | main.py:76 | the stripping `int()` and `float()` do before reading a number; `NumberSpacesAreSpaces` gives its character set |
| PyText.Split | main.py:73 | `split(",")` gives one more piece than there are commas, no piece holds a comma, and joining the pieces gives the input back |
| PyText.Join | main.py:73 | `",".join(parts)`, the partner of `split(",")`: `SplitJoin` and `Split`'s contract prove each undoes the other |
| PyText.SplitJoin | main.py:73 | splitting the join of comma-free pieces gives those pieces back |
| PyText.DigitPrefix | main.py:67 | the length of the longest all-digit prefix: every prefix character is a digit, and the next one is not |
| PyText.DigitRuns | main.py:67 | `re.findall(r'\d+')` returns only non-empty all-digit runs |
| PyText.DigitRunsCount | main.py:67 | the number of matches is the number of positions where a run of digits begins |
| PyText.DigitRunsSkip | main.py:67 | text without digits in front contributes no match |
| PyText.DigitRunsDropTail | main.py:67 | text without digits at the end contributes no match |
| PyText.DigitRunsTake | main.py:67 | a run of digits followed by a non-digit is one whole match |
| PyText.StripEnds | main.py:56 | `strip()` removes only whitespace, before and after the text it keeps |
| PyText.RunsIgnoreStrip | main.py:56-67 | `strip()` before `re.findall(r'\d+')` does not change the matches |
| Numerals.DecimalValue | main.py:67 | `int(x)` of a run of digits, most significant first; `DecimalString` and `DigitStringValue` prove `str` is its inverse |
| Numerals.DecimalString | main.py:33 | `str(n)` is non-empty, all digits, has no leading zero, and reads back as `n` |
| Numerals.IntText | main.py:33 | `str(n)` of a negative integer puts a minus sign before its digits |
| Numerals.ParseHexLiteral | main.py:61-63 | `int(t, 16)` on a stripped literal accepts exactly an optional sign and then hexadecimal digits; two digits read as 16·first + second |
| Numerals.ParseHexInt | main.py:61-63 | `int(w, 16)` accepts exactly when `w`, without the number whitespace around it, is a hexadecimal literal; on a two-character slice its value lies between −16 and 255 |
| Numerals.Hex02 | main.py:26 | `format(n, '02X')` of a byte is two upper-case hexadecimal digits worth `n`; a larger value prints more digits, and a negative one prints a sign |
| Numerals.HexDigitCharValue | main.py:26 | writing the value of a hexadecimal digit gives the same digit in upper case |
| Numerals.Truncate | main.py:23-25 | `int(x)` rounds toward zero, in both signs |
| Numerals.ParseFloat | main.py:76 | `float(token)`: the number whitespace around the token is skipped and the rest read as a decimal literal; `ParseFloatAccepts`, `ParseFloatOfNat` and `ParseFloatOfDecimal` state what it accepts and its value |
| Numerals.ParseFloatAccepts | main.py:76 | `float()` accepts a token exactly when, without the number whitespace around it, the token is an optionally signed decimal numeral |
| Numerals.ParseUnsignedAccepts | main.py:76 | the unsigned literal parser accepts exactly the unsigned numerals |
| Numerals.ParseFloatOfNat | main.py:76 | `float(str(n)) == n` |
| Numerals.ParseFloatOfDecimal | main.py:76 | `float(d + "." + w)` is the number the digits spell |
| Parse.Float | main.py:76 | `float(token)` succeeds exactly when the token is accepted, and otherwise reports the token |
| Parse.Hundredths | main.py:51 | dividing by 100 keeps success and failure, and the result times 100 is the parsed number |
| Parse.ParsePercentageOrFloat | main.py:48-53 | `parse_percentage_or_float` only ever fails because its number is rejected |
| Parse.PercentIsHundredths | main.py:48-51 | for a token followed by `%`, `strip()` removes only the whitespace in front; the token is accepted exactly when `float()` accepts what remains, and its value is that number divided by 100 |
| Parse.PlainIsAsIs | main.py:49-53 | a token not ending in `%` is accepted exactly when the literal `strip()` leaves is a number, and has that number's value |
| Parse.StrippedIsNumberStripped | main.py:49-53 | what `strip()` leaves has nothing more for `float()` to strip |
| Parse.PercentOfValue | main.py:48-51 | when `float()` reads `t`, less its leading whitespace, as `v`, the token `t%` is `v / 100` |
| Parse.HalfTwoWays | main.py:48-53 | `"50%"` and `"0.5"` give the same component, one half |
| Parse.HexByte | main.py:61-63 | one `int(slice, 16)`: it succeeds exactly when the slice is accepted, and otherwise names the slice |
| Parse.HexDigits | main.py:58 | `value.lstrip("#")`; `TrimStart`'s contract and `HashDigits` state that every leading `#`, and nothing else, is removed |
| Parse.ParseHex | main.py:57-64 | the hex branch gives an RGB colour, or a length error or a slice error; the length error occurs exactly when the remainder is not six long |
| Parse.ParseRgb | main.py:66-70 | the rgb branch gives an RGB colour with no negative channel, or the count error |
| Parse.Components | main.py:73 | the number of components is one more than the number of commas left after the parentheses are stripped |
| Parse.ParseHslOrHsv | main.py:72-82 | the `hsl` tag gives an HSL colour and `hsv` an HSV colour; the count error occurs exactly when there are not three components, and any other error comes from a number |
| Parse.ParseInput | main.py:55-85 | `parse_input`; `Dispatch`, `UnknownInputRejected` and `InputModel` give its contract, branch by branch |
| Parse.HexLengthRejected | main.py:56-60 | hex input is rejected for its length exactly when, once stripped of whitespace and every leading `#`, it is not six characters long |
| Parse.HexAccepts | main.py:56-63 | hex input is accepted exactly when the remainder has six characters and `int(_, 16)` accepts each of its three pairs |
| Parse.HexFirstBadPair | main.py:61 | a first pair that `int(_, 16)` refuses is the error reported |
| Parse.HexBytePair | main.py:61-63 | two hexadecimal digits read as their pair value |
| Parse.HexPairs | main.py:61-63 | each of the three pairs of six hexadecimal digits reads as its pair value |
| Parse.ParseHexOfBytes | main.py:61-64 | once the three pairs are read, the colour is those bytes over 255 |
| Parse.HexChannels | main.py:61-64 | six hexadecimal digits give `RGB(b0/255, b1/255, b2/255)` from their three pairs, each channel in [0, 1] |
| Parse.RgbAccepts | main.py:66-70 | rgb input is accepted exactly when three positions of the stripped input begin a run of digits |
| Parse.RgbOfRuns | main.py:66-70 | any input whose runs of digits are exactly `x`, `y`, `z` is read as `RGB(int(x)/255, int(y)/255, int(z)/255)`, whatever text surrounds them |
| Parse.ComponentCountRejected | main.py:73-75 | hsl/hsv input is rejected for its count exactly when, with its parentheses stripped, it does not hold exactly two commas |
| Parse.HslHsvComponents | main.py:76-82 | with three components the colour is built exactly when all three are read; the hue is `float()` of the first, unchanged, and the others come from `parse_percentage_or_float` |
| Parse.HueRefused | main.py:76 | a hue that `float()` refuses is the error reported |
| Parse.PercentNotFloat | main.py:76 | a hue written with `%` is refused |
| Parse.EndsInPercent | main.py:76 | no literal that `float()` accepts ends in `%` |
| Parse.Dispatch | main.py:55-85 | the branch `parse_input` takes for each tag, on the stripped input |
| Parse.UnknownInputRejected | main.py:84-85 | an input is reported as being in an unknown format exactly when its tag is not one of the four |
| Parse.InputModel | main.py:64-82 | a parsed colour is in the model its tag names |
| Format.ToRgb | main.py:22 | conversion to sRGB gives an RGB colour and leaves an RGB colour unchanged |
| Format.ToHsl | main.py:36-37 | conversion to HSL leaves an HSL colour's components unchanged |
| Format.ToHsv | main.py:41-42 | conversion to HSV leaves an HSV colour's components unchanged |
| Format.Byte | main.py:23-25 | `int(x * 255)` rounds `x·255` toward zero: down for a non-negative channel, up for a negative one such as −15/255; it lies in 0..255 for a channel in [0, 1] |
| Format.HexText | main.py:26 | `f"#{r:02X}{g:02X}{b:02X}"`; `HexTextShape` and `HexTextParses` state its shape and that it reads back |
| Format.RgbText | main.py:33 | `f"rgb({r}, {g}, {b})"`; `RgbTextParses` states that it reads back |
| Format.PercentTriple | main.py:38 | the text of the hsl and hsv branches, built from the colour library's printing of each component; nothing beyond its success is proved |
| Format.FormatOutput | main.py:20-46 | `format_output`; `FormatDispatch`, `UnknownFormatRejected` and `HexOutputShape` give its contract |
| Format.FormatDispatch | main.py:20-46 | the hex and rgb branches write the truncated bytes, and any other tag fails |
| Format.UnknownFormatRejected | main.py:45-46 | `format_output` fails exactly on the tags it does not know, and then names the tag |
| Format.HexTextShape | main.py:26 | three bytes give `#` and six upper-case hexadecimal digits, pair by pair |
| Format.HexOutputShape | main.py:21-26 | when every channel is in [0, 1], the hex output is `#` and six upper-case hexadecimal digits, seven characters in all |
| Format.ByteOfScaled | main.py:23 | a byte over 255, multiplied by 255 and truncated, is that byte |
| RoundTrip.PairsOfBytes | main.py:26 | the three `02X` pairs of three bytes hold those bytes |
| RoundTrip.HashDigits | main.py:56-58 | a `#` before hexadecimal digits is all that stripping removes |
| RoundTrip.HexTextParses | main.py:57-64 | the hex text of three bytes parses back to those bytes over 255 |
| RoundTrip.SeparatedRuns | main.py:67 | three numbers kept apart by non-empty text without digits, with any text without digits before and after, are exactly the three matches |
| RoundTrip.SeparatedParses | main.py:66-70 | such text parses as rgb to those numbers over 255: surrounding text may be empty or whitespace, the two gaps may differ, and leading zeros are allowed |
| RoundTrip.RgbTextParses | main.py:28-33 | the rgb text of three non-negative bytes parses back to those bytes over 255 |
| RoundTrip.RgbUnclamped | main.py:70 | a number above 255 in rgb input gives a channel above 1 |
| RoundTrip.ScaledToHex | main.py:21-33 | formatting bytes over 255 writes exactly those bytes, in hex and in rgb |
| RoundTrip.PairText | main.py:26 | `02X` of the value of two hexadecimal digits is those digits in upper case |
| RoundTrip.UpperPairs | main.py:26 | the hex text of the three pairs of six digits is `#` and the digits in upper case |
| RoundTrip.HexRoundTrip | main.py:21-26 | parsing six hexadecimal digits and formatting as hex gives `#` and the same digits in upper case |
| RoundTrip.RgbToHex | main.py:66-70 | any rgb input whose three runs of digits are numbers in 0..255, parsed and formatted as hex, gives the hex text of those numbers |
| RoundTrip.OutputsAgree | main.py:21-33 | the hex and rgb outputs of a colour in the unit cube both read back as the same quantised colour |
| RoundTrip.QuantizedFormatsAlike | main.py:23-25 | formatting the quantised colour writes the same text as formatting the colour |
| RoundTrip.HexIdempotent | main.py:21-26 | hex output of a colour in the unit cube is a fixed point of parsing and formatting again |
| RoundTrip.RgbIdempotent | main.py:28-33 | rgb output of a colour with no negative channel is a fixed point, even above 1 |
| Examples.HexTooShort | main.py:59-60 | `"12345"` as hex is rejected for its length |
| Examples.RgbTooFew | main.py:68-69 | `"1,2"` as rgb is rejected for its count |
| Examples.HslTooFew | main.py:73-75 | `"(40, 100%)"` as hsl is rejected because it has two components, not three |
| Examples.CmykUnknown | main.py:84-85 | the tag `cmyk` is reported as an unknown input format, whatever the value |
| Examples.BareTriple | main.py:67-70 | `"255,136,0"` as rgb is (255, 136, 0) over 255 |
| Examples.AbcComponents | main.py:73 | `"abc,50%,50%"` has three components, `"abc"` first |
| Examples.AbcNotFloat | main.py:76 | `float("abc")` is refused |
| Examples.HueNotNumber | main.py:76 | `"abc,50%,50%"` as hsl is rejected because its hue `"abc"` is not a number |
| Examples.SignedHexPair | main.py:61 | `"-F0000"` is accepted as hex, with a red channel of −15/255 |
| Examples.SeparatorInHex | main.py:61 | `"1"` U+001C `"2345"` is refused as hex, naming the pair `"1"` U+001C |
| Examples.SeparatorInPercent | main.py:51 | the component `"50"` U+001C `"%"` is refused, because `float()` keeps U+001C |
| Examples.HexSample | main.py:101 | `"#FF8800"` reads as (255, 136, 0) over 255, and that colour formats back to `"#FF8800"` |
| Examples.RgbSample | main.py:102 | `"(255, 136, 0)"` as rgb, formatted as hex, is `"#FF8800"` |

## Left out

- colormath's `convert_color` between RGB, HSL and HSV (main.py:3-4, 22, 29, 36, 41): this is floating-point code in a foreign library. It is a parameter (`Format.Colorimetry`), so no property of the HSL/HSV formulas is proved. The tolerance of an HSL or HSV round trip through RGB is not stated.
- Format.FormatOutput: the hsl and hsv branches (main.py:35-43) are modelled only in shape, `hsl(H, S%, L%)` and `hsv(H, S%, V%)`. `str(round(x, 2))` is a parameter (`shown`) because it is floating-point printing, and nothing beyond their success is proved (`Format.UnknownFormatRejected`).
- Python floats are exact reals here: `n / 255`, `x * 255` and `/ 100` do not round. The truncation in `int(x * 255)` is modelled exactly, but a float product just below a whole number is not.
- Parse.ParseRgb: accepts numbers of any size, and `RoundTrip.RgbUnclamped`, `RoundTrip.RgbTextParses` and `RoundTrip.SeparatedParses` are stated for all of them. In Python, `int(x)` at main.py:67 raises ValueError on a run longer than 4300 digits (CPython 3.11 and later, and the matching security releases). At main.py:70, `nums[i] / 255` raises OverflowError once the quotient exceeds the largest float, which takes a run of about 311 digits. Both limits belong to the interpreter.
- Numerals.ParseFloat: `float()` is modelled on plain decimal literals only: an optional sign, digits, and at most one `.`. It refuses exponents, `inf`, `nan`, underscores and non-ASCII digits, which Python accepts. A literal too large for a float gives `inf` in Python, and a long fraction is rounded; here both keep their exact value.
- Numerals.ParseHexInt: the `0x` prefix and the underscores `int(_, 16)` allows are not modelled. Neither can occur in an accepted two-character slice. Non-ASCII digits are also not modelled.
- PyText.DigitRuns: `\d` is ASCII `0`-`9` only. Python's `re` also matches other Unicode decimal digits.
- PyText.IsSpace: `str.strip()` removes the characters in Python's `str.isspace` set, listed by code point. No Unicode database is consulted.
- The messages of the `ValueError`s are not modelled: each failure is an `Error` constructor that names its cause.
- `ask_choice`, `main`, the identical-format short-circuit, the prompts, the extra `strip()` of the typed line, printing, and the `KeyboardInterrupt` exit (main.py:7-18, 87-121): these are interactive I/O and process control.
- The sample input `"(40, 100%, 50%)"` (main.py:103-104) is not worked through: what it converts to depends on colormath.
