/** What the conversions of index.tsx:33-69 guarantee: the hex string round
    trip, the value/saturation/hue ranges of `hexToHsv`, and the channel range,
    grey axis, periodicity and pure-hue corners of `hsvToRgb`. */
module ColorProperties {
  import opened JsNumber
  import opened ColorConversion

  // ---------------------------------------------------------------------------
  // Hex encoding and decoding

  /** Each digit `toString(16)` writes is read back by `parseInt(_, 16)`. */
  lemma DigitRoundTrip(d: int)
    requires 0 <= d < 16
    ensures IsHexDigit(DigitChar(d)) && DigitValue(DigitChar(d)) == d
  {
    assert LowerHexDigits[d] == "0123456789abcdef"[d];
    if d < 10 {
      assert "0123456789"[d] == ('0' as int + d) as char;
    } else {
      assert "abcdef"[d - 10] == ('a' as int + d - 10) as char;
    }
  }

  /** Parsing a string with one more digit appended shifts by a digit. */
  lemma ParseAppend(s: string, c: char)
    requires AllHexDigits(s) && IsHexDigit(c)
    ensures AllHexDigits(s + [c])
    ensures ParseHex(s + [c]) == ParseHex(s) * 16 + DigitValue(c)
  {
    assert (s + [c])[..|s|] == s;
  }

  /** `parseInt(x.toString(16), 16) == x` for every non-negative integer. */
  lemma {:induction false} ToHexStringRoundTrip(x: nat)
    ensures AllHexDigits(ToHexString(x)) && ParseHex(ToHexString(x)) == x
  {
    if x < 16 {
      DigitRoundTrip(x);
      ParseAppend([], DigitChar(x));
      assert [] + [DigitChar(x)] == [DigitChar(x)];
    } else {
      ToHexStringRoundTrip(x / 16);
      DigitRoundTrip(x % 16);
      ParseAppend(ToHexString(x / 16), DigitChar(x % 16));
    }
  }

  /** The output of `rgbToHex` passes the guard at index.tsx:132, and the three
      slices `hexToHsv` parses give back the channels exactly. */
  lemma HexRoundTrip(c: Rgb)
    requires InRange(c)
    ensures IsLowerHexColor(RgbToHex(c)) && IsHexColor(RgbToHex(c))
    ensures ParseRgb(RgbToHex(c)) == c
  {
    var s := RgbToHex(c);
    var rh, gh, bh := ChannelHex(c.r), ChannelHex(c.g), ChannelHex(c.b);
    HexLayout(rh, gh, bh);
    ChannelRoundTrip(c.r);
    ChannelRoundTrip(c.g);
    ChannelRoundTrip(c.b);
  }

  /** `rgbToHex` writes r, then g, then b, each as its high and low hex digit:
      two lowercase digits per channel, a leading zero below 16. */
  lemma HexChannels(c: Rgb)
    requires InRange(c)
    ensures var s := RgbToHex(c);
            s[1..3] == [DigitChar(c.r / 16), DigitChar(c.r % 16)] &&
            s[3..5] == [DigitChar(c.g / 16), DigitChar(c.g % 16)] &&
            s[5..7] == [DigitChar(c.b / 16), DigitChar(c.b % 16)]
  {
    HexLayout(ChannelHex(c.r), ChannelHex(c.g), ChannelHex(c.b));
  }

  lemma ChannelRoundTrip(x: int)
    requires IsByte(x)
    ensures AllHexDigits(ChannelHex(x)) && ParseHex(ChannelHex(x)) == x
  {
    var hi, lo := x / 16, x % 16;
    DigitRoundTrip(hi);
    DigitRoundTrip(lo);
    ParseTwo(DigitChar(hi), DigitChar(lo));
  }

  /** Two digits parse to the first times 16 plus the second. */
  lemma ParseTwo(a: char, b: char)
    requires IsHexDigit(a) && IsHexDigit(b)
    ensures AllHexDigits([a, b]) && ParseHex([a, b]) == DigitValue(a) * 16 + DigitValue(b)
  {
    ParsePair([a, b]);
  }

  /** The lowercase form of a hex digit. */
  function LowerDigit(c: char): (l: char)
    requires IsHexDigit(c)
    ensures IsLowerHexDigit(l)
  {
    if 'A' <= c <= 'F' then (c as int - 'A' as int + 'a' as int) as char else c
  }

  /** The guarded string with its digits lowercased (`#` kept). */
  function Lowercase(s: string): (l: string)
    requires IsHexColor(s)
    ensures IsLowerHexColor(l)
  {
    ['#', LowerDigit(s[1]), LowerDigit(s[2]), LowerDigit(s[3]),
     LowerDigit(s[4]), LowerDigit(s[5]), LowerDigit(s[6])]
  }

  lemma DigitCanonical(c: char)
    requires IsHexDigit(c)
    ensures DigitChar(DigitValue(c)) == LowerDigit(c)
  {
    var d := DigitValue(c);
    if d < 10 {
      assert "0123456789abcdef"[d] == "0123456789"[d];
    } else {
      assert "0123456789abcdef"[d] == "abcdef"[d - 10];
    }
  }

  /** The other direction of the round trip: re-encoding the channels of any
      string that passes the guard gives that string in lowercase. */
  lemma HexCanonical(s: string)
    requires IsHexColor(s)
    ensures RgbToHex(ParseRgb(s)) == Lowercase(s)
    ensures IsLowerHexColor(s) ==> RgbToHex(ParseRgb(s)) == s
  {
    var c := ParseRgb(s);
    var rh, gh, bh := ChannelHex(c.r), ChannelHex(c.g), ChannelHex(c.b);
    PairCanonical(s, 1);
    PairCanonical(s, 3);
    PairCanonical(s, 5);
    assert RgbToHex(c) == "#" + rh + gh + bh;
    LowercaseLayout(s);
    if IsLowerHexColor(s) {
      LowercaseOfLower(s);
    }
  }

  /** Lowercasing a string that is already lowercase changes nothing. */
  lemma LowercaseOfLower(s: string)
    requires IsLowerHexColor(s)
    ensures IsHexColor(s) && Lowercase(s) == s
  {
    assert LowerDigit(s[1]) == s[1] && LowerDigit(s[2]) == s[2];
    assert LowerDigit(s[3]) == s[3] && LowerDigit(s[4]) == s[4];
    assert LowerDigit(s[5]) == s[5] && LowerDigit(s[6]) == s[6];
    assert s == ['#', s[1], s[2], s[3], s[4], s[5], s[6]];
  }

  lemma LowercaseLayout(s: string)
    requires IsHexColor(s)
    ensures Lowercase(s) == "#" + [LowerDigit(s[1]), LowerDigit(s[2])]
                                + [LowerDigit(s[3]), LowerDigit(s[4])]
                                + [LowerDigit(s[5]), LowerDigit(s[6])]
  {
  }

  /** A byte written as two digits splits back into them. */
  lemma SplitByte(hi: int, lo: int)
    requires 0 <= hi < 16 && 0 <= lo < 16
    ensures (hi * 16 + lo) / 16 == hi && (hi * 16 + lo) % 16 == lo
  {
  }

  /** A byte whose two hex digits are known is written as exactly those digits. */
  lemma ChannelDigits(x: int, hi: int, lo: int)
    requires 0 <= hi < 16 && 0 <= lo < 16 && x == hi * 16 + lo
    ensures IsByte(x) && ChannelHex(x) == [DigitChar(hi), DigitChar(lo)]
  {
    SplitByte(hi, lo);
    assert ChannelHex(x) == [DigitChar(x / 16), DigitChar(x % 16)];
  }

  /** The pair of digits at `i` re-encodes to its own lowercase form. */
  lemma PairCanonical(s: string, i: nat)
    requires IsHexColor(s) && 1 <= i <= 5
    ensures AllHexDigits(s[i..i + 2]) && IsByte(ParseHex(s[i..i + 2]))
    ensures ChannelHex(ParseHex(s[i..i + 2])) == [LowerDigit(s[i]), LowerDigit(s[i + 1])]
  {
    var p := s[i..i + 2];
    assert p[0] == s[i] && p[1] == s[i + 1];
    ParsePair(p);
    var hi, lo := DigitValue(s[i]), DigitValue(s[i + 1]);
    ChannelDigits(ParseHex(p), hi, lo);
    DigitCanonical(s[i]);
    DigitCanonical(s[i + 1]);
  }

  // ---------------------------------------------------------------------------
  // hexToHsv

  /** A difference bounded by the spread divides to a ratio in [-1, 1] with the same sign. */
  lemma Ratio(a: real, d: real)
    requires 0.0 < d && -d <= a <= d
    ensures -1.0 <= a / d <= 1.0
    ensures 0.0 <= a ==> 0.0 <= a / d
    ensures a < 0.0 ==> a / d < 0.0
    ensures -d < a ==> -1.0 < a / d
  {
    var q := a / d;
    assert q * d == a;
    ProductSign(q + 1.0, d);
    ProductSign(1.0 - q, d);
    ProductSign(q, d);
  }

  lemma ProductSign(x: real, d: real)
    requires d > 0.0
    ensures (x * d >= 0.0) == (x >= 0.0)
    ensures (x * d > 0.0) == (x > 0.0)
  {
  }

  /** The hue of `hexToHsv`: 0 for a grey, otherwise in [0, 360) and in the
      sector of the largest channel, ties going to r, then g, then b. */
  lemma {:induction false} HueSector(c: Rgb)
    requires InRange(c)
    ensures var h := RgbToHsv(c).h;
            (c.r == c.g == c.b ==> h == 0.0) &&
            (0.0 <= h < 360.0) &&
            (!(c.r == c.g == c.b) && c.r >= c.g && c.r >= c.b ==> h <= 60.0 || 300.0 <= h) &&
            (!(c.r == c.g == c.b) && c.g > c.r && c.g >= c.b ==> 60.0 < h <= 180.0) &&
            (!(c.r == c.g == c.b) && c.b > c.r && c.b > c.g ==> 180.0 <= h <= 300.0)
  {
    var r, g, b := c.r as real / 255.0, c.g as real / 255.0, c.b as real / 255.0;
    var max, min := Max3(r, g, b), Min3(r, g, b);
    var d := max - min;
    if max != min {
      if max == r {
        Ratio(g - b, d);
      } else if max == g {
        Ratio(b - r, d);
      } else {
        Ratio(r - g, d);
      }
    }
  }

  // ---------------------------------------------------------------------------
  // hsvToRgb

  /** Every level `f(n)` lies in [0, 1] when s and v do, whatever the hue. */
  lemma LevelInUnit(n: real, h: real, s: real, v: real)
    requires 0.0 <= s <= 1.0 && 0.0 <= v <= 1.0
    ensures 0.0 <= Level(n, h, s, v) <= 1.0
  {
    var t := Ramp(Rem6(n + h / 60.0));
    assert Level(n, h, s, v) == v - v * s * t;
    MulUnit(s, t);
    MulUnit(s * t, v);
    assert v * s * t == (s * t) * v;
    assert 0.0 <= v * s * t <= v;
  }

  lemma MulUnit(x: real, y: real)
    requires 0.0 <= x <= 1.0 && 0.0 <= y
    ensures 0.0 <= x * y <= y
  {
    assert (1.0 - x) * y >= 0.0;
  }

  lemma RoundByte(x: real)
    requires 0.0 <= x <= 1.0
    ensures IsByte(Round(x * 255.0))
  {
  }

  /** With s and v in [0, 1] every channel of `hsvToRgb` lies in 0..255, for any hue. */
  lemma ChannelsInRange(h: real, s: real, v: real)
    requires 0.0 <= s <= 1.0 && 0.0 <= v <= 1.0
    ensures InRange(HsvToRgb(h, s, v))
  {
    LevelInUnit(5.0, h, s, v);
    LevelInUnit(3.0, h, s, v);
    LevelInUnit(1.0, h, s, v);
    RoundByte(Level(5.0, h, s, v));
    RoundByte(Level(3.0, h, s, v));
    RoundByte(Level(1.0, h, s, v));
  }

  /** Zero saturation gives a grey: all three channels are `round(v * 255)`. */
  lemma Achromatic(h: real, v: real)
    ensures HsvToRgb(h, 0.0, v) == Rgb(Round(v * 255.0), Round(v * 255.0), Round(v * 255.0))
  {
    assert forall n :: Level(n, h, 0.0, v) == v;
  }

  /** For a non-negative hue, h and h + 360 give the same triple. */
  lemma HuePeriod(h: real, s: real, v: real)
    requires 0.0 <= h
    ensures HsvToRgb(h + 360.0, s, v) == HsvToRgb(h, s, v)
  {
    LevelPeriod(5.0, h, s, v);
    LevelPeriod(3.0, h, s, v);
    LevelPeriod(1.0, h, s, v);
  }

  lemma LevelPeriod(n: real, h: real, s: real, v: real)
    requires 0.0 <= n && 0.0 <= h
    ensures Level(n, h + 360.0, s, v) == Level(n, h, s, v)
  {
    assert n + (h + 360.0) / 60.0 == (n + h / 60.0) + 6.0;
    RemShift(n + h / 60.0);
  }

  /** The level `f(n)` at full saturation and value, for a hue in [0, 360). */
  lemma PureLevel(n: real, h: real)
    requires n in {1.0, 3.0, 5.0} && 0.0 <= h < 360.0
    ensures var k := if n + h / 60.0 < 6.0 then n + h / 60.0 else n + h / 60.0 - 6.0;
            0.0 <= k < 6.0 &&
            Level(n, h, 1.0, 1.0) == 1.0 - Ramp(k) &&
            (4.0 <= k ==> Level(n, h, 1.0, 1.0) == 1.0) &&
            (1.0 <= k <= 3.0 ==> Level(n, h, 1.0, 1.0) == 0.0)
  {
    RemOfSmall(n + h / 60.0);
  }

  /** A channel of a pure hue is 255 where the ramp is 0 and 0 where it is 1. */
  lemma PureChannel(n: real, h: real)
    requires n in {1.0, 3.0, 5.0} && 0.0 <= h < 360.0
    ensures var k := if n + h / 60.0 < 6.0 then n + h / 60.0 else n + h / 60.0 - 6.0;
            (4.0 <= k || k == 0.0 ==> Round(Level(n, h, 1.0, 1.0) * 255.0) == 255) &&
            (1.0 <= k <= 3.0 ==> Round(Level(n, h, 1.0, 1.0) * 255.0) == 0)
  {
    PureLevel(n, h);
    assert Ramp(0.0) == 0.0;
  }

  /** A pure hue (s = v = 1, h in [0, 360)) has one channel at 255 and one at 0. */
  lemma PureHueExtremes(h: real)
    requires 0.0 <= h < 360.0
    ensures var c := HsvToRgb(h, 1.0, 1.0);
            (c.r == 255 || c.g == 255 || c.b == 255) && (c.r == 0 || c.g == 0 || c.b == 0)
  {
    PureChannel(5.0, h);
    PureChannel(3.0, h);
    PureChannel(1.0, h);
  }

  /** Hue 0 is pure red. */
  lemma RedAtZero(h: real)
    requires h == 0.0
    ensures HsvToRgb(h, 1.0, 1.0) == Rgb(255, 0, 0)
  {
    var c := HsvToRgb(h, 1.0, 1.0);
    assert c.r == 255 by { PureChannel(5.0, h); }
    assert c.g == 0 by { PureChannel(3.0, h); }
    assert c.b == 0 by { PureChannel(1.0, h); }
  }

  /** Hue 90 gives (128, 255, 0): red is 127.5 before rounding, and `Math.round` rounds it up. */
  lemma ChartreuseAtNinety(h: real)
    requires h == 90.0
    ensures HsvToRgb(h, 1.0, 1.0) == Rgb(128, 255, 0)
  {
    var c := HsvToRgb(h, 1.0, 1.0);
    assert c.r == 128 by {
      PureLevel(5.0, h);
      assert Level(5.0, h, 1.0, 1.0) * 255.0 == 127.5;
    }
    assert c.g == 255 by { PureChannel(3.0, h); }
    assert c.b == 0 by { PureChannel(1.0, h); }
  }

  /** Hue 60 gives two channels at 255: a pure hue can have more than one channel at 255. */
  lemma YellowAtSixty(h: real)
    requires h == 60.0
    ensures HsvToRgb(h, 1.0, 1.0) == Rgb(255, 255, 0)
  {
    var c := HsvToRgb(h, 1.0, 1.0);
    assert c.r == 255 by { PureChannel(5.0, h); }
    assert c.g == 255 by { PureChannel(3.0, h); }
    assert c.b == 0 by { PureChannel(1.0, h); }
  }

  /** Hue 180 is cyan. */
  lemma CyanAtOneEighty(h: real)
    requires h == 180.0
    ensures HsvToRgb(h, 1.0, 1.0) == Rgb(0, 255, 255)
  {
    var c := HsvToRgb(h, 1.0, 1.0);
    assert c.r == 0 by { PureChannel(5.0, h); }
    assert c.g == 255 by { PureChannel(3.0, h); }
    assert c.b == 255 by { PureChannel(1.0, h); }
  }

  /** Hue 240 is pure blue. */
  lemma BlueAtTwoForty(h: real)
    requires h == 240.0
    ensures HsvToRgb(h, 1.0, 1.0) == Rgb(0, 0, 255)
  {
    var c := HsvToRgb(h, 1.0, 1.0);
    assert c.r == 0 by { PureChannel(5.0, h); }
    assert c.g == 0 by { PureChannel(3.0, h); }
    assert c.b == 255 by { PureChannel(1.0, h); }
  }

  /** Hue 300 is magenta. */
  lemma MagentaAtThreeHundred(h: real)
    requires h == 300.0
    ensures HsvToRgb(h, 1.0, 1.0) == Rgb(255, 0, 255)
  {
    var c := HsvToRgb(h, 1.0, 1.0);
    assert c.r == 255 by { PureChannel(5.0, h); }
    assert c.g == 0 by { PureChannel(3.0, h); }
    assert c.b == 255 by { PureChannel(1.0, h); }
  }

  /** The level at s = v = 1 for a dividend whose remainder is known. */
  lemma FullLevel(n: real, h: real, k: real)
    requires Rem6(n + h / 60.0) == k
    ensures Level(n, h, 1.0, 1.0) == 1.0 - Ramp(k)
  {
  }

  /** Hue 120 is pure green. */
  lemma GreenAtOneTwenty(h: real)
    requires h == 120.0
    ensures HsvToRgb(h, 1.0, 1.0) == Rgb(0, 255, 0)
  {
    var c := HsvToRgb(h, 1.0, 1.0);
    assert c.r == 0 by { PureChannel(5.0, h); }
    assert c.g == 255 by { PureChannel(3.0, h); }
    assert c.b == 0 by { PureChannel(1.0, h); }
  }

  /** Hue -240 gives cyan: `%` keeps the sign of the negative dividends -1 and -3. */
  lemma CyanAtMinusTwoForty(h: real)
    requires h == -240.0
    ensures HsvToRgb(h, 1.0, 1.0) == Rgb(0, 255, 255)
  {
    var c := HsvToRgb(h, 1.0, 1.0);
    assert c.r == 0 by {
      assert Rem6(5.0 + h / 60.0) == 1.0 by { assert Trunc(1.0 / 6.0) == 0; }
      FullLevel(5.0, h, 1.0);
    }
    assert c.g == 255 by {
      assert Rem6(3.0 + h / 60.0) == -1.0 by { assert Trunc(-1.0 / 6.0) == 0; }
      FullLevel(3.0, h, -1.0);
    }
    assert c.b == 255 by {
      assert Rem6(1.0 + h / 60.0) == -3.0 by { assert Trunc(-3.0 / 6.0) == 0; }
      FullLevel(1.0, h, -3.0);
    }
  }

  /** A negative hue is not wrapped: -240 and -240 + 360 give different colours,
      so the periodicity of `HuePeriod` needs its requirement h >= 0. */
  lemma NegativeHueNotWrapped(h: real)
    requires h == -240.0
    ensures HsvToRgb(h, 1.0, 1.0) != HsvToRgb(h + 360.0, 1.0, 1.0)
  {
    GreenAtOneTwenty(h + 360.0);
    CyanAtMinusTwoForty(h);
  }

  // ---------------------------------------------------------------------------
  // The full round trip hue -> RGB -> hex -> hue

  /** The hue `hexToHsv` reads back from the hex string of a triple is the
      hue of the triple itself: the string carries the channels exactly. */
  lemma ReadBackHue(c: Rgb)
    requires InRange(c)
    ensures IsHexColor(RgbToHex(c)) && HexToHsv(RgbToHex(c)) == RgbToHsv(c)
  {
    HexRoundTrip(c);
  }

  /** Once hue h is known to give triple c and c is known to read back as hue k,
      the whole trip from h reads back as k. */
  lemma TripThrough(h: real, c: Rgb, k: real)
    requires HsvToRgb(h, 1.0, 1.0) == c && InRange(c) && RgbToHsv(c).h == k
    ensures InRange(HsvToRgb(h, 1.0, 1.0)) && IsHexColor(RgbToHex(HsvToRgb(h, 1.0, 1.0)))
    ensures HexToHsv(RgbToHex(HsvToRgb(h, 1.0, 1.0))).h == k
  {
    ReadBackHue(c);
  }

  /** At the six hues where the wheel's pure colours have only 0 and 255 as
      channels, hue -> RGB -> hex -> hue gives the hue back exactly. */
  lemma SampledHueRoundTrip(h: real)
    requires h in {0.0, 60.0, 120.0, 180.0, 240.0, 300.0}
    ensures InRange(HsvToRgb(h, 1.0, 1.0)) && IsHexColor(RgbToHex(HsvToRgb(h, 1.0, 1.0)))
    ensures HexToHsv(RgbToHex(HsvToRgb(h, 1.0, 1.0))).h == h
  {
    if h == 0.0 {
      RedAtZero(h);
      HueOfPrimary(Rgb(255, 0, 0));
      TripThrough(h, Rgb(255, 0, 0), h);
    } else if h == 60.0 {
      YellowAtSixty(h);
      HueOfPrimary(Rgb(255, 255, 0));
      TripThrough(h, Rgb(255, 255, 0), h);
    } else if h == 120.0 {
      GreenAtOneTwenty(h);
      HueOfPrimary(Rgb(0, 255, 0));
      TripThrough(h, Rgb(0, 255, 0), h);
    } else if h == 180.0 {
      CyanAtOneEighty(h);
      HueOfPrimary(Rgb(0, 255, 255));
      TripThrough(h, Rgb(0, 255, 255), h);
    } else if h == 240.0 {
      BlueAtTwoForty(h);
      HueOfPrimary(Rgb(0, 0, 255));
      TripThrough(h, Rgb(0, 0, 255), h);
    } else {
      MagentaAtThreeHundred(h);
      HueOfPrimary(Rgb(255, 0, 255));
      TripThrough(h, Rgb(255, 0, 255), h);
    }
  }

  /** The hue `hexToHsv` computes for the six triples built from 0 and 255 only. */
  lemma HueOfPrimary(c: Rgb)
    requires c in {Rgb(255, 0, 0), Rgb(255, 255, 0), Rgb(0, 255, 0), Rgb(0, 255, 255), Rgb(0, 0, 255), Rgb(255, 0, 255)}
    ensures RgbToHsv(c).h == if c == Rgb(255, 0, 0) then 0.0
                             else if c == Rgb(255, 255, 0) then 60.0
                             else if c == Rgb(0, 255, 0) then 120.0
                             else if c == Rgb(0, 255, 255) then 180.0
                             else if c == Rgb(0, 0, 255) then 240.0
                             else 300.0
  {
  }

  /** Between those hues the 8-bit channels lose precision: hue 90 becomes
      (128, 255, 0), which reads back as 120 - 60 * 128/255, about 89.88. */
  lemma QuantizedHueAtNinety(h: real)
    requires h == 90.0
    ensures InRange(HsvToRgb(h, 1.0, 1.0)) && IsHexColor(RgbToHex(HsvToRgb(h, 1.0, 1.0))) &&
            var k := HexToHsv(RgbToHex(HsvToRgb(h, 1.0, 1.0))).h;
            k == 120.0 - 60.0 * 128.0 / 255.0
  {
    var c := Rgb(128, 255, 0);
    assert HsvToRgb(h, 1.0, 1.0) == c by { ChartreuseAtNinety(h); }
    assert RgbToHsv(c).h == 120.0 - 60.0 * 128.0 / 255.0 by { HueOfChartreuse(c); }
    TripThrough(h, c, 120.0 - 60.0 * 128.0 / 255.0);
  }

  lemma HueOfChartreuse(c: Rgb)
    requires c == Rgb(128, 255, 0)
    ensures RgbToHsv(c).h == 120.0 - 60.0 * 128.0 / 255.0
  {
  }
}
