# Hue-ring colour picker — a Dafny model

This project models the non-visual core of `ColorPicker` (`index.tsx`), a React
Native hue-ring colour picker.

- **Colour conversions.**
  - `hsvToRgb` turns a hue, saturation and value into an integer RGB triple.
  - `rgbToHex` writes an RGB triple as a lowercase `#rrggbb` string.
  - `hexToHsv` parses such a string back to HSV.
- **Wheel bookkeeping.**
  - The loop that splits the ring into 60 hue arcs.
  - The marker angle, read back from the selected colour through the `#rrggbb` regex guard.
  - The press handler. Its band test decides whether a press hit the ring; a hit picks the pure hue at the press angle, which becomes the selected colour.

JavaScript numbers are modelled as exact reals, with the primitives made explicit:

- `Math.round(x)` is `(x + 0.5).Floor`;
- the remainder `%` truncates toward zero, so it keeps the dividend's sign;
- `Math.max` and `Math.min` are ordinary maximum and minimum.

Modules:

- `JsNumber` (`js_number.dfy`): the JavaScript number primitives.
- `ColorConversion` (`color_conversion.dfy`): the three conversions, `parseInt(_, 16)`, `toString(16)` and `padStart`.
- `ColorProperties` (`color_properties.dfy`): what the conversions guarantee. This covers:
  - the hex round trip in both directions;
  - the HSV ranges and the hue sector;
  - the channel range, grey axis and periodicity of `hsvToRgb`, and its pure-hue corners;
  - the full hue → RGB → hex → hue trip.
- `HueWheel` (`hue_wheel.dfy`):
  - the arc loop as a method, proved to tile the circle;
  - the marker angle and the press angle as functions;
  - a `ColorPicker` class. Its fields are the component's selected colour and the log of colours handed to `onColorChange`. Its methods are `HandleColorChange` and `HandlePress`.

Some of the code's behaviour differs from what one might expect of an HSV colour picker; the model follows the code:

- **Negative hues.** One might expect `hsvToRgb` to take the hue mod 360, so that negative hues wrap. The code's `%` keeps the sign of a negative dividend, so it does not wrap: -240 gives cyan, while 120 gives green (`NegativeHueNotWrapped`). Periodicity is therefore proved only for h >= 0. The component itself only calls `hsvToRgb` with hues in [0, 360).
- **Pure hues.** One might expect every pure hue to have exactly one channel at 255 and one at 0. This is false at hue 60, which gives (255, 255, 0) (`YellowAtSixty`). The model proves "at least one of each" instead.
- **Invalid input to `hexToHsv`.** `hexToHsv` has no error path for strings that are not `#rrggbb`. Its only caller tests the regex first (index.tsx:132), so the regex is a precondition of `HexToHsv`. `MarkerAngle` models the guarded call, with 0 for a string that fails the test.
- **Hue after the ×60.** The sector formula never needs re-wrapping after the `* 60`: `HueSector` proves the hue lies in [0, 360) for every triple.
- **Round trip of the hue.** At the six multiples of 60, where every channel is 0 or 255, the round trip hue → RGB → hex → hue is exact (`SampledHueRoundTrip`). The wheel colours its arcs every 6 degrees (index.tsx:101-106, 115), so the other 54 arc hues are not multiples of 60. For those no read-back bound is proved. The 8-bit quantisation is lossy there: hue 90 reads back as about 89.88 (`QuantizedHueAtNinety`).

## Model

| member | source | states |
|---|---|---|
| JsNumber.Round | index.tsx:35-37 | `Math.round` lands within half a unit of its argument, halves going up |
| JsNumber.Max | index.tsx:34 | `Math.max` of two numbers is at least both and equal to one of them |
| JsNumber.Min | index.tsx:34 | `Math.min` of two numbers is at most both and equal to one of them |
| JsNumber.Trunc | index.tsx:34 | the quotient `%` uses is the integer part toward zero: floor for x >= 0, ceiling for x < 0 |
| JsNumber.Rem6 | index.tsx:34 | `x % 6` lies in [0, 6) for a non-negative dividend and in (-6, 0] for a negative one (sign of the dividend kept) |
| JsNumber.RemMultiple | index.tsx:34 | `x % 6` differs from x by a whole multiple of 6; with `Rem6`'s range and sign this pins the truncating remainder for every dividend |
| JsNumber.RemOfSmall | index.tsx:34 | for a dividend in [0, 12), `% 6` is the dividend itself below 6 and the dividend minus 6 from 6 on |
| JsNumber.RemShift | index.tsx:34 | adding 6 to a non-negative dividend leaves `% 6` unchanged |
| ColorConversion.DigitChar | index.tsx:42 | `toString(16)` writes a digit below 16 as a lowercase hex character |
| ColorConversion.DigitValue | index.tsx:46-48 | `parseInt(_, 16)` gives a hex digit in either case a value in 0..15, below 10 exactly for `0`-`9` |
| ColorConversion.ToHexString | index.tsx:42 | `x.toString(16)` is a non-empty string of lowercase hex digits |
| ColorConversion.PadStart | index.tsx:42 | `padStart(n, fill)` has length max(\|s\|, n), ends with `s`, and is `fill` before it |
| ColorConversion.ParseHex | index.tsx:46-48 | `parseInt(s, 16)` on a string of hex digits, read left to right; its value is stated by `ParsePair`, `ParseAppend`, `ParseTwo` and `ToHexStringRoundTrip` |
| ColorConversion.ChannelHex | index.tsx:42 | one channel becomes exactly two lowercase digits, its high and low nibble, zero-padded below 16 |
| ColorConversion.RgbToHex | index.tsx:41-43 | `rgbToHex` gives 7 characters: `#` then six lowercase hex digits |
| ColorConversion.IsHexColor | index.tsx:132 | the test `/^#([0-9a-f]{6})$/i`: seven characters, `#` then six hex digits of either case |
| ColorConversion.ParsePair | index.tsx:46-48 | a two-digit slice parses to high digit × 16 + low digit, a value in 0..255 |
| ColorConversion.ParseRgb | index.tsx:46-48 | the three `parseInt(hex.slice(i, i + 2), 16)` calls give channels in 0..255 |
| ColorConversion.HexToHsv | index.tsx:45-69 | `hexToHsv`: the parsed channels converted to HSV; its properties are carried by `RgbToHsv` (value, saturation), `HueSector` (hue sector and range) and `ReadBackHue` (it inverts `rgbToHex`) |
| ColorConversion.RgbToHsv | index.tsx:49-68 | v is max/255; s is 0 for black and (max − min)/max otherwise; both lie in [0, 1] |
| ColorConversion.SaturationScale | index.tsx:52 | computing the saturation on channels divided by 255 gives the ratio of the integer channels, in [0, 1] |
| ColorConversion.Level | index.tsx:34 | the arrow function `f(n)` with `k = (n + h/60) % 6`; `LevelInUnit`, `LevelPeriod`, `PureLevel` and `FullLevel` state its range, period and values |
| ColorConversion.HsvToRgb | index.tsx:33-39 | `hsvToRgb`: channels `round(f(5)·255)`, `round(f(3)·255)`, `round(f(1)·255)`; its properties are carried by `ChannelsInRange`, `Achromatic`, `HuePeriod`, `PureHueExtremes` and the concrete-hue lemmas |
| ColorConversion.Ramp | index.tsx:34 | `max(min(k, 4 − k, 1), 0)` always lies in [0, 1] |
| ColorProperties.DigitRoundTrip | index.tsx:42-48 | every digit `toString(16)` writes parses back to its value |
| ColorProperties.ParseAppend | index.tsx:46-48 | appending a digit to a hex string multiplies its value by 16 and adds the digit |
| ColorProperties.ToHexStringRoundTrip | index.tsx:42-48 | `parseInt(x.toString(16), 16) == x` for every non-negative integer (by induction) |
| ColorProperties.HexRoundTrip | index.tsx:41-48 | `rgbToHex` output passes the regex of index.tsx:132, and the three slices parse back to exactly r, g, b |
| ColorProperties.HexChannels | index.tsx:41-42 | `rgbToHex` puts r, g, b in that order at slices [1,3), [3,5), [5,7), each as its high and low hex digit |
| ColorProperties.ChannelRoundTrip | index.tsx:42-48 | one channel's two-digit string parses back to the channel |
| ColorProperties.ParseTwo | index.tsx:46-48 | a two-character digit string parses to the first digit × 16 + the second |
| ColorProperties.DigitCanonical | index.tsx:42-48 | parsing a digit of either case and writing it back gives its lowercase form |
| ColorProperties.HexCanonical | index.tsx:41-48 | re-encoding the channels of any string passing the guard gives that string lowercased, and the string itself when it is already lowercase |
| ColorProperties.LowercaseOfLower | index.tsx:41-42 | lowercasing a lowercase `#rrggbb` string changes nothing |
| ColorProperties.PairCanonical | index.tsx:42-48 | each digit pair of a guarded string re-encodes to its own lowercase form |
| ColorProperties.ChannelDigits | index.tsx:42 | a byte hi × 16 + lo is written as exactly the digits hi, lo |
| ColorProperties.Ratio | index.tsx:57-63 | a channel difference bounded by the spread divides to a ratio in [−1, 1] with the same sign |
| ColorProperties.HueSector | index.tsx:53-66 | the hue is 0 for a grey; otherwise it lies in [0, 360), in [0, 60] ∪ [300, 360) when r is the largest channel, (60, 180] when g is, and [180, 300] when b is; ties go to r, then g |
| ColorProperties.LevelInUnit | index.tsx:34 | every level `f(n)` lies in [0, 1] for s, v in [0, 1] and any hue |
| ColorProperties.ChannelsInRange | index.tsx:33-38 | with s, v in [0, 1] every channel of `hsvToRgb` is in 0..255, for any hue |
| ColorProperties.Achromatic | index.tsx:33-38 | with s = 0 all three channels are `round(v × 255)`, whatever the hue |
| ColorProperties.HuePeriod | index.tsx:33-38 | for h >= 0, hues h and h + 360 give the same triple |
| ColorProperties.LevelPeriod | index.tsx:34 | for h >= 0 one level is unchanged by adding 360 to the hue |
| ColorProperties.PureLevel | index.tsx:34 | at s = v = 1 and h in [0, 360), the level is 1 − ramp(k) with k = n + h/60 folded into [0, 6); it is 1 for k >= 4 and 0 for k in [1, 3] |
| ColorProperties.PureChannel | index.tsx:34-37 | a channel of a pure hue is 255 where k >= 4 or k = 0, and 0 where k is in [1, 3] |
| ColorProperties.PureHueExtremes | index.tsx:33-38 | a pure hue (s = v = 1, h in [0, 360)) has at least one channel at 255 and at least one at 0 |
| ColorProperties.RedAtZero | index.tsx:33-38 | hue 0 gives (255, 0, 0) |
| ColorProperties.ChartreuseAtNinety | index.tsx:33-38 | hue 90 gives (128, 255, 0): red is 127.5 before rounding, and `Math.round` rounds it up |
| ColorProperties.YellowAtSixty | index.tsx:33-38 | hue 60 gives (255, 255, 0): two channels at 255 |
| ColorProperties.GreenAtOneTwenty | index.tsx:33-38 | hue 120 gives (0, 255, 0) |
| ColorProperties.CyanAtOneEighty | index.tsx:33-38 | hue 180 gives (0, 255, 255) |
| ColorProperties.BlueAtTwoForty | index.tsx:33-38 | hue 240 gives (0, 0, 255) |
| ColorProperties.MagentaAtThreeHundred | index.tsx:33-38 | hue 300 gives (255, 0, 255) |
| ColorProperties.FullLevel | index.tsx:34 | at s = v = 1 a level is 1 − ramp of its remainder |
| ColorProperties.CyanAtMinusTwoForty | index.tsx:33-38 | hue −240 gives cyan, because `%` keeps the negative sign of the dividends −1 and −3 |
| ColorProperties.NegativeHueNotWrapped | index.tsx:34 | hues −240 and −240 + 360 give different colours: negative hues are not wrapped |
| ColorProperties.ReadBackHue | index.tsx:41-68 | `hexToHsv(rgbToHex(c))` is the HSV of the triple c itself |
| ColorProperties.TripThrough | index.tsx:33-68 | a hue whose triple is known to have hue k reads back as k through hex |
| ColorProperties.SampledHueRoundTrip | index.tsx:33-68 | for h in {0, 60, …, 300}, hue → RGB → hex → hue gives h back exactly |
| ColorProperties.HueOfPrimary | index.tsx:53-66 | `hexToHsv`'s hue for the six triples built from 0 and 255 is 0, 60, 120, 180, 240 or 300 |
| ColorProperties.QuantizedHueAtNinety | index.tsx:33-68 | hue 90 reads back as 120 − 60 × 128/255 (about 89.88): the 8-bit trip is lossy between sampled hues |
| ColorProperties.HueOfChartreuse | index.tsx:53-66 | the triple (128, 255, 0) has hue 120 − 60 × 128/255 |
| HueWheel.ArcAt | index.tsx:105-115 | arc i spans 360/n degrees, has the large-arc flag exactly when n = 1, and has a colour in range |
| HueWheel.SpanAbove180 | index.tsx:110 | an arc is wider than 180 degrees exactly when there is one arc |
| HueWheel.BuildArcs | index.tsx:101-127 | the loop yields n arcs, arc i being `ArcAt(n, i)`; they start at 0, end at 360, abut, each span 360/n, and each is coloured with the pure hue of its start angle |
| HueWheel.ArcsTile | index.tsx:105-115 | arcs built one per index tile the circle as stated for `BuildArcs` |
| HueWheel.FullTurn | index.tsx:107 | the last arc's end angle n × 360/n is 360 |
| HueWheel.ArcIndex | index.tsx:106-107 | every angle in [0, 360) lies in some arc of the wheel (no gaps) |
| HueWheel.ScaledFloor | index.tsx:106-107 | floor(a × n/360) is an index whose arc holds angle a |
| HueWheel.AngleOfIndex | index.tsx:106-107 | comparisons against i on the index scale and against i × 360/n on the angle scale agree |
| HueWheel.ArcsPartition | index.tsx:106-107 | no overlaps: an angle lies in exactly one arc |
| HueWheel.DefaultWheel | index.tsx:101-110 | with 60 segments every arc is 6 degrees wide and none has the large-arc flag |
| HueWheel.MarkerAngle | index.tsx:131-135 | the marker angle is 0 for a string failing `/^#([0-9a-f]{6})$/i`, the `hexToHsv` hue otherwise, and always in [0, 360) |
| HueWheel.OnRing | index.tsx:147 | the band test negated: a press at distance `dist` is on the ring when it lies in [radius − strokeWidth/2, radius + strokeWidth/2] |
| HueWheel.PressAngle | index.tsx:148-149 | theta is atan2 degrees + 90, lifted by 360 when negative; it lies in [0, 360) for atan2 degrees in [−180, 180] |
| HueWheel.PressColor | index.tsx:150-151 | the colour a press picks is a lowercase string passing the guard |
| HueWheel.PressSelectsHue | index.tsx:148-151 | the picked colour parses back to exactly `hsvToRgb(theta, 1, 1)`, which has a channel at 255 and one at 0 |
| HueWheel.PressAbove | index.tsx:148-151 | a press straight above the centre (atan2 −90) picks red (255, 0, 0) |
| HueWheel.PressRight | index.tsx:148-151 | a press level with the centre on the right (atan2 0) picks (128, 255, 0) |
| HueWheel.DefaultMarker | index.tsx:131-135 | with the default value `#ff0000` the marker sits at angle 0 |
| HueWheel.ColorPicker.constructor | index.tsx:88-90 | the first render holds `value` as the selected colour, with `center = size/2` and `radius = center − strokeWidth/2` |
| HueWheel.ColorPicker.WithDefaults | index.tsx:79-90 | the default props give `#ff0000`, size 220, stroke 28, centre 110 and radius 96 |
| HueWheel.ColorPicker.HandleColorChange | index.tsx:95-98 | the colour becomes the selected colour, and it is appended to the listener log exactly when a listener is supplied |
| HueWheel.ColorPicker.HandlePress | index.tsx:140-153 | without SVG, or for a distance outside the band [radius − stroke/2, radius + stroke/2], nothing changes; otherwise the selected colour becomes `PressColor(atan)` and is reported to the listener |
| HueWheel.ColorPicker.WheelArcs | index.tsx:102-128 | there are no arcs without SVG; otherwise there are 60, they tile the circle, and none has the large-arc flag |
| HueWheel.ColorPicker.Marker | index.tsx:131-135 | the marker angle of the current selection is in [0, 360), and 0 when it fails the guard |

## Left out

- Rendering is not modelled: JSX, `StyleSheet`, the marker `Circle`, the preview swatch and the uppercase hex display (index.tsx:162-268). It is presentation only.
- The swatch grid used when SVG is missing (index.tsx:155-199) is not modelled. It is rendering; its `onPress` simply calls `handleColorChange`, which is modelled.
- The `require('react-native-svg')` probe (index.tsx:6-20) is not modelled. Its outcome is the constructor flag `svgAvailable`.
- `onColorChange` is foreign code. It becomes the flag `hasListener` and the log `notified` of colours passed to it.
- The stroke colour string `` `rgb(${r},${g},${b})` `` (index.tsx:116) is not modelled as text; each arc carries its `Rgb` triple instead.
- Trigonometry and square roots are left out: `polarToCartesian` (index.tsx:71-77), the marker position (index.tsx:138), the SVG path strings (index.tsx:108-114) and the `Math.sqrt`/`Math.atan2` of `handlePress` (index.tsx:143-148). `HandlePress` instead takes the distance from the centre and the raw atan2 angle in degrees as parameters.
- IEEE-754 rounding is not modelled: numbers are exact reals. For example, the model's arc bounds are exact multiples of 6, and its hues are exact quotients.
- `HexToHsv` has the regex test as a precondition rather than modelling `parseInt`'s lenient handling of malformed slices, because its only call site is guarded (index.tsx:132).
- `useState` re-rendering is modelled only as the class's fields persisting between method calls.
- HuePeriod: requires h >= 0. For negative hues the code's `%` does not wrap, so the property fails (`NegativeHueNotWrapped`).
- PureHueExtremes: states "at least one channel at 255 and at least one at 0", not "exactly one", because hue 60 gives two channels at 255 (`YellowAtSixty`).
- SampledHueRoundTrip: exact read-back is proved only at the six hues whose channels are 0 or 255. A bound on the quantisation error between them is not stated; `QuantizedHueAtNinety` shows one such error.
- HueWheel.ColorPicker.Marker: its contract states the range and the failing-guard case; the passing-guard value is stated by `MarkerAngle`, which it returns.
