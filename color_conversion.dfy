/** The colour conversions of the hue-ring picker (index.tsx:33-69): HSV to an
    RGB triple, an RGB triple to a `#rrggbb` string, and a `#rrggbb` string back
    to HSV. JavaScript numbers are modelled as exact reals. */
module ColorConversion {
  import opened JsNumber

  /** An RGB triple as `hsvToRgb` returns it and `rgbToHex` consumes it. */
  datatype Rgb = Rgb(r: int, g: int, b: int)

  /** An HSV triple as `hexToHsv` returns it: hue in degrees, s and v fractions. */
  datatype Hsv = Hsv(h: real, s: real, v: real)

  predicate IsByte(x: int) { 0 <= x < 256 }

  predicate InRange(c: Rgb) { IsByte(c.r) && IsByte(c.g) && IsByte(c.b) }

  // ---------------------------------------------------------------------------
  // Hex digits

  const LowerHexDigits: string := "0123456789abcdef"

  /** A character of the class `[0-9a-f]` under the case-insensitive flag `i`. */
  predicate IsHexDigit(c: char) {
    '0' <= c <= '9' || 'a' <= c <= 'f' || 'A' <= c <= 'F'
  }

  predicate IsLowerHexDigit(c: char) {
    '0' <= c <= '9' || 'a' <= c <= 'f'
  }

  predicate AllHexDigits(s: string) {
    forall i :: 0 <= i < |s| ==> IsHexDigit(s[i])
  }

  /** The digit `Number.prototype.toString(16)` writes for a value below 16. */
  function DigitChar(d: int): (c: char)
    requires 0 <= d < 16
    ensures IsLowerHexDigit(c)
  {
    LowerHexDigits[d]
  }

  /** The value `parseInt(_, 16)` gives a single hex digit, in either case. */
  function DigitValue(c: char): (d: int)
    requires IsHexDigit(c)
    ensures 0 <= d < 16
    ensures '0' <= c <= '9' ==> d < 10
    ensures !('0' <= c <= '9') ==> 10 <= d
  {
    if '0' <= c <= '9' then c as int - '0' as int
    else if 'a' <= c <= 'f' then c as int - 'a' as int + 10
    else c as int - 'A' as int + 10
  }

  /** `x.toString(16)` for a non-negative integer: lowercase, no leading zeros. */
  function ToHexString(x: nat): (s: string)
    ensures 1 <= |s|
    ensures forall i :: 0 <= i < |s| ==> IsLowerHexDigit(s[i])
  {
    if x < 16 then [DigitChar(x)] else ToHexString(x / 16) + [DigitChar(x % 16)]
  }

  /** `s.padStart(n, fill)`: prefixes copies of `fill` up to length `n`. */
  function PadStart(s: string, n: nat, fill: char): (p: string)
    ensures |p| == if |s| >= n then |s| else n
    ensures p[|p| - |s|..] == s
    ensures forall i :: 0 <= i < |p| - |s| ==> p[i] == fill
  {
    if |s| >= n then s else seq(n - |s|, _ => fill) + s
  }

  /** `parseInt(s, 16)` on a string made only of hex digits, read left to right. */
  function ParseHex(s: string): (n: nat)
    requires AllHexDigits(s)
  {
    if |s| == 0 then 0 else ParseHex(s[..|s| - 1]) * 16 + DigitValue(s[|s| - 1])
  }

  /** Two hex digits parse to the high digit times 16 plus the low digit. */
  lemma ParsePair(s: string)
    requires |s| == 2 && AllHexDigits(s)
    ensures ParseHex(s) == DigitValue(s[0]) * 16 + DigitValue(s[1])
    ensures 0 <= ParseHex(s) < 256
  {
    assert AllHexDigits(s[..1]) && s[..1][..0] == [] && s[..1][0] == s[0];
    assert ParseHex(s[..1]) == DigitValue(s[0]);
  }

  // ---------------------------------------------------------------------------
  // rgbToHex (index.tsx:41-43)

  /** One channel as `x.toString(16).padStart(2, '0')`. */
  function ChannelHex(x: int): (s: string)
    requires IsByte(x)
    ensures |s| == 2 && IsLowerHexDigit(s[0]) && IsLowerHexDigit(s[1])
    ensures s == [DigitChar(x / 16), DigitChar(x % 16)]
  {
    var digits := ToHexString(x);
    if x < 16 then
      assert digits == [DigitChar(x)];
      PadStart(digits, 2, '0')
    else
      assert ToHexString(x / 16) == [DigitChar(x / 16)];
      PadStart(digits, 2, '0')
  }

  /** `rgbToHex`: `'#'` followed by r, g and b as two lowercase hex digits each. */
  function RgbToHex(c: Rgb): (s: string)
    requires InRange(c)
    ensures |s| == 7 && s[0] == '#' && IsLowerHexColor(s)
  {
    var rh, gh, bh := ChannelHex(c.r), ChannelHex(c.g), ChannelHex(c.b);
    HexLayout(rh, gh, bh);
    "#" + rh + gh + bh
  }

  /** Where the three channel pairs sit in `'#' + rh + gh + bh`. */
  lemma HexLayout(rh: string, gh: string, bh: string)
    requires |rh| == 2 && |gh| == 2 && |bh| == 2
    requires IsLowerHexDigit(rh[0]) && IsLowerHexDigit(rh[1]) && IsLowerHexDigit(gh[0])
    requires IsLowerHexDigit(gh[1]) && IsLowerHexDigit(bh[0]) && IsLowerHexDigit(bh[1])
    ensures var s := "#" + rh + gh + bh;
            |s| == 7 && s[0] == '#' && s[1..3] == rh && s[3..5] == gh && s[5..7] == bh &&
            IsLowerHexColor(s)
  {
    var s := "#" + rh + gh + bh;
    assert s == ['#', rh[0], rh[1], gh[0], gh[1], bh[0], bh[1]];
  }

  // ---------------------------------------------------------------------------
  // The guard `/^#([0-9a-f]{6})$/i` (index.tsx:132) and hexToHsv (index.tsx:45-69)

  /** The string passes `/^#([0-9a-f]{6})$/i`. */
  predicate IsHexColor(s: string) {
    |s| == 7 && s[0] == '#' && forall i :: 1 <= i < 7 ==> IsHexDigit(s[i])
  }

  /** A hex colour in the canonical lowercase form `rgbToHex` produces. */
  predicate IsLowerHexColor(s: string) {
    |s| == 7 && s[0] == '#' && forall i :: 1 <= i < 7 ==> IsLowerHexDigit(s[i])
  }

  /** The three `parseInt(hex.slice(i, i + 2), 16)` calls of `hexToHsv`. */
  function ParseRgb(hex: string): (c: Rgb)
    requires IsHexColor(hex)
    ensures InRange(c)
  {
    ParsePair(hex[1..3]);
    ParsePair(hex[3..5]);
    ParsePair(hex[5..7]);
    Rgb(ParseHex(hex[1..3]), ParseHex(hex[3..5]), ParseHex(hex[5..7]))
  }

  function Max3(a: real, b: real, c: real): real { Max(Max(a, b), c) }

  function Min3(a: real, b: real, c: real): real { Min(Min(a, b), c) }

  function MaxChannel(c: Rgb): int { if c.r >= c.g && c.r >= c.b then c.r else if c.g >= c.b then c.g else c.b }

  function MinChannel(c: Rgb): int { if c.r <= c.g && c.r <= c.b then c.r else if c.g <= c.b then c.g else c.b }

  /** `hexToHsv` (index.tsx:45-69): the three slices parsed as base 16, then
      converted. Only reached once the string passed the guard at index.tsx:132. */
  function HexToHsv(hex: string): Hsv
    requires IsHexColor(hex)
  {
    RgbToHsv(ParseRgb(hex))
  }

  /** The arithmetic of `hexToHsv` after parsing (index.tsx:46-68): value is the
      largest channel, saturation the spread relative to it (0 for black), hue
      the 60-degree sector formula with the `switch` trying r, then g, then b. */
  function RgbToHsv(c: Rgb): (hsv: Hsv)
    requires InRange(c)
    ensures hsv.v == MaxChannel(c) as real / 255.0
    ensures hsv.s == if MaxChannel(c) == 0 then 0.0
                     else (MaxChannel(c) - MinChannel(c)) as real / MaxChannel(c) as real
    ensures 0.0 <= hsv.s <= 1.0 && 0.0 <= hsv.v <= 1.0
  {
    var r, g, b := c.r as real / 255.0, c.g as real / 255.0, c.b as real / 255.0;
    var max, min := Max3(r, g, b), Min3(r, g, b);
    var d := max - min;
    var s := if max == 0.0 then 0.0 else d / max;
    var h :=
      if max == min then 0.0
      else if max == r then 60.0 * ((g - b) / d + (if g < b then 6.0 else 0.0))
      else if max == g then 60.0 * ((b - r) / d + 2.0)
      else 60.0 * ((r - g) / d + 4.0);
    assert max == MaxChannel(c) as real / 255.0;
    assert min == MinChannel(c) as real / 255.0;
    SaturationScale(MaxChannel(c), MinChannel(c));
    Hsv(h, s, max)
  }

  /** Dividing both channels by 255 leaves the saturation ratio unchanged. */
  lemma SaturationScale(mx: int, mn: int)
    requires 0 <= mn <= mx
    ensures mx != 0 ==> (mx as real / 255.0 - mn as real / 255.0) / (mx as real / 255.0)
                        == (mx - mn) as real / mx as real
    ensures mx != 0 ==> 0.0 <= (mx - mn) as real / mx as real <= 1.0
  {
    if mx != 0 {
      var M, m := mx as real, mn as real;
      assert M / 255.0 - m / 255.0 == (M - m) / 255.0;
      assert ((M - m) / 255.0) / (M / 255.0) == (M - m) / M;
      assert (M - m) / M <= 1.0 by { assert M - m <= M; }
    }
  }

  // ---------------------------------------------------------------------------
  // hsvToRgb (index.tsx:33-39)

  /** The arrow function `f(n)`: `k = (n + h/60) % 6`, then
      `v - v*s*max(min(k, 4-k, 1), 0)`. */
  function Level(n: real, h: real, s: real, v: real): real {
    var k := Rem6(n + h / 60.0);
    v - v * s * Ramp(k)
  }

  /** `Math.max(Math.min(k, 4 - k, 1), 0)`: a trapezoid over k, always in [0, 1]. */
  function Ramp(k: real): (t: real)
    ensures 0.0 <= t <= 1.0
  {
    Max(Min(Min(k, 4.0 - k), 1.0), 0.0)
  }

  /** `hsvToRgb`: channels f(5), f(3), f(1), each scaled by 255 and rounded. */
  function HsvToRgb(h: real, s: real, v: real): Rgb {
    Rgb(Round(Level(5.0, h, s, v) * 255.0),
        Round(Level(3.0, h, s, v) * 255.0),
        Round(Level(1.0, h, s, v) * 255.0))
  }
}
