/** The wheel bookkeeping of the `ColorPicker` component (index.tsx:79-153):
    the ring split into hue arcs, the marker angle read back from the selected
    colour, and the press handler that turns a ring hit into a new colour.
    Screen geometry (cosine, sine, square root, atan2) stays outside: a press
    arrives as its distance from the centre and its raw atan2 angle in degrees. */
module HueWheel {
  import opened ColorConversion
  import opened ColorProperties

  /** Number of arcs the wheel is drawn with (index.tsx:101). */
  const Segments: nat := 60

  /** One drawn arc: its angular extent, the SVG large-arc flag, and its stroke colour. */
  datatype Arc = Arc(startAngle: real, endAngle: real, largeArc: int, color: Rgb)

  /** Arc `i` of a wheel of `n` arcs, as one pass of the loop at index.tsx:105-127
      computes it: from i*360/n to (i+1)*360/n, flagged when wider than 180
      degrees, stroked with the pure hue of its start angle. */
  function ArcAt(n: nat, i: nat): (a: Arc)
    requires 0 < n
    ensures a.endAngle - a.startAngle == 360.0 / n as real
    ensures a.largeArc == (if n == 1 then 1 else 0)
    ensures InRange(a.color)
  {
    var start := (i * 360) as real / n as real;
    var end := ((i + 1) * 360) as real / n as real;
    assert end - start == 360.0 / n as real;
    SpanAbove180(n);
    ChannelsInRange(start, 1.0, 1.0);
    Arc(start, end, if end - start > 180.0 then 1 else 0, HsvToRgb(start, 1.0, 1.0))
  }

  /** One arc spans more than 180 degrees exactly when there is only one arc. */
  lemma SpanAbove180(n: nat)
    requires 0 < n
    ensures 360.0 / n as real > 180.0 <==> n == 1
  {
    if n >= 2 {
      assert 360.0 / n as real <= 360.0 / 2.0;
    }
  }

  /** The arcs tile the circle: the first starts at 0, the last ends at 360,
      each ends where the next begins, each spans 360/n degrees, and each is
      coloured with the pure hue at its start. */
  ghost predicate Tiles(arcs: seq<Arc>, n: nat)
    requires 0 < n
  {
    |arcs| == n &&
    arcs[0].startAngle == 0.0 && arcs[n - 1].endAngle == 360.0 &&
    (forall i :: 0 <= i < n - 1 ==> arcs[i].endAngle == arcs[i + 1].startAngle) &&
    (forall i :: 0 <= i < n ==> arcs[i].endAngle - arcs[i].startAngle == 360.0 / n as real) &&
    (forall i :: 0 <= i < n ==> arcs[i].color == HsvToRgb(arcs[i].startAngle, 1.0, 1.0))
  }

  /** The loop at index.tsx:105-127: one arc per index, pushed in order. */
  method BuildArcs(n: nat) returns (arcs: seq<Arc>)
    ensures |arcs| == n
    ensures forall i :: 0 <= i < n ==> arcs[i] == ArcAt(n, i)
    ensures 0 < n ==> Tiles(arcs, n)
  {
    arcs := [];
    var i := 0;
    while i < n
      invariant 0 <= i <= n
      invariant |arcs| == i
      invariant forall j :: 0 <= j < i ==> arcs[j] == ArcAt(n, j)
    {
      var start := (i * 360) as real / n as real;
      var end := ((i + 1) * 360) as real / n as real;
      var largeArc := if end - start > 180.0 then 1 else 0;
      ChannelsInRange(start, 1.0, 1.0);
      var color := HsvToRgb(start, 1.0, 1.0);
      arcs := arcs + [Arc(start, end, largeArc, color)];
      i := i + 1;
    }
    if 0 < n {
      ArcsTile(arcs, n);
    }
  }

  /** Arcs built by `ArcAt` tile the circle. */
  lemma ArcsTile(arcs: seq<Arc>, n: nat)
    requires 0 < n && |arcs| == n
    requires forall i :: 0 <= i < n ==> arcs[i] == ArcAt(n, i)
    ensures Tiles(arcs, n)
  {
    assert arcs[0].startAngle == 0.0 by {
      assert arcs[0] == ArcAt(n, 0);
    }
    assert arcs[n - 1].endAngle == 360.0 by {
      assert arcs[n - 1] == ArcAt(n, n - 1);
      FullTurn(n);
    }
    forall i | 0 <= i < n - 1
      ensures arcs[i].endAngle == arcs[i + 1].startAngle
    {
      assert arcs[i] == ArcAt(n, i) && arcs[i + 1] == ArcAt(n, i + 1);
    }
    forall i | 0 <= i < n
      ensures arcs[i].endAngle - arcs[i].startAngle == 360.0 / n as real
      ensures arcs[i].color == HsvToRgb(arcs[i].startAngle, 1.0, 1.0)
    {
      assert arcs[i] == ArcAt(n, i);
    }
  }

  /** Arc n of n ends a full turn from 0. */
  lemma FullTurn(n: nat)
    requires 0 < n
    ensures (((n - 1) + 1) * 360) as real / n as real == 360.0
  {
    var N := n as real;
    var X := (n * 360) as real;
    assert X == 360.0 * N;
    var q := X / N;
    assert q * N == X;
    assert (q - 360.0) * N == 0.0;
    ProductSign(q - 360.0, N);
    ProductSign(360.0 - q, N);
  }

  /** The arc that holds angle `a`. */
  function ArcIndex(n: nat, a: real): (i: nat)
    requires 0 < n && 0.0 <= a < 360.0
    ensures i < n
    ensures ArcAt(n, i).startAngle <= a < ArcAt(n, i).endAngle
  {
    ScaledFloor(n, a);
    (a * n as real / 360.0).Floor
  }

  /** The floor of a*n/360 is an arc index whose arc holds `a`. */
  lemma ScaledFloor(n: nat, a: real)
    requires 0 < n && 0.0 <= a < 360.0
    ensures var i := (a * n as real / 360.0).Floor;
            0 <= i < n &&
            (i * 360) as real / n as real <= a < ((i + 1) * 360) as real / n as real
  {
    var N := n as real;
    var x := a * N / 360.0;
    ProductSign(a, N);
    ProductSign(360.0 - a, N);
    assert (360.0 - a) * N == 360.0 * N - a * N;
    assert 0.0 <= x < N;
    AngleOfIndex(n, x.Floor, a);
  }

  /** Index and angle scales agree: i <= a*n/360 exactly when i*360/n <= a. */
  lemma AngleOfIndex(n: nat, i: int, a: real)
    requires 0 < n
    ensures (i as real <= a * n as real / 360.0) == ((i * 360) as real / n as real <= a)
    ensures (a * n as real / 360.0 < i as real + 1.0) == (a < ((i + 1) * 360) as real / n as real)
  {
    var N := n as real;
    var lo, hi := (i * 360) as real / N, ((i + 1) * 360) as real / N;
    assert lo * N == i as real * 360.0;
    assert hi * N == (i as real + 1.0) * 360.0;
    ProductSign(a - lo, N);
    ProductSign(hi - a, N);
    assert (a - lo) * N == a * N - i as real * 360.0;
    assert (hi - a) * N == (i as real + 1.0) * 360.0 - a * N;
  }

  /** No gaps and no overlaps: every angle in [0, 360) lies in exactly one arc. */
  lemma {:induction false} ArcsPartition(n: nat, a: real)
    requires 0 < n && 0.0 <= a < 360.0
    ensures var i := ArcIndex(n, a);
            forall j :: 0 <= j < n && ArcAt(n, j).startAngle <= a < ArcAt(n, j).endAngle ==> j == i
  {
    var i := ArcIndex(n, a);
    var x := a * n as real / 360.0;
    forall j | 0 <= j < n && ArcAt(n, j).startAngle <= a < ArcAt(n, j).endAngle
      ensures j == i
    {
      AngleOfIndex(n, j, a);
      AngleOfIndex(n, i, a);
    }
  }

  /** The default wheel: 60 arcs of 6 degrees, none with the large-arc flag. */
  lemma DefaultWheel(i: nat)
    requires i < Segments
    ensures ArcAt(Segments, i).endAngle - ArcAt(Segments, i).startAngle == 6.0
    ensures ArcAt(Segments, i).largeArc == 0
  {
  }

  // ---------------------------------------------------------------------------
  // Marker angle (index.tsx:131-135)

  /** The marker's hue: that of the selected colour when it passes the guard, 0 otherwise. */
  function MarkerAngle(selected: string): (angle: real)
    ensures !IsHexColor(selected) ==> angle == 0.0
    ensures IsHexColor(selected) ==> angle == HexToHsv(selected).h
    ensures 0.0 <= angle < 360.0
  {
    if IsHexColor(selected) then
      HueSector(ParseRgb(selected));
      HexToHsv(selected).h
    else 0.0
  }

  // ---------------------------------------------------------------------------
  // Press handling (index.tsx:140-153)

  /** The ring band test of index.tsx:147, negated: the press is on the ring. */
  predicate OnRing(dist: real, radius: real, strokeWidth: real) {
    !(dist < radius - strokeWidth / 2.0 || dist > radius + strokeWidth / 2.0)
  }

  /** The hue of a press: atan2 degrees turned a quarter clockwise so that 0 is
      straight up, with a negative result lifted by 360 (index.tsx:148-149). */
  function PressAngle(atanDegrees: real): (theta: real)
    ensures theta == atanDegrees + 90.0 || theta == atanDegrees + 450.0
    ensures -180.0 <= atanDegrees <= 180.0 ==> 0.0 <= theta < 360.0
  {
    var theta := atanDegrees + 90.0;
    if theta < 0.0 then theta + 360.0 else theta
  }

  /** The colour a press selects: the pure hue of its angle as a hex string. */
  function PressColor(atanDegrees: real): (hex: string)
    ensures IsLowerHexColor(hex) && IsHexColor(hex)
  {
    var theta := PressAngle(atanDegrees);
    ChannelsInRange(theta, 1.0, 1.0);
    HexRoundTrip(HsvToRgb(theta, 1.0, 1.0));
    RgbToHex(HsvToRgb(theta, 1.0, 1.0))
  }

  /** The selected colour after a press on the ring reads back, through the
      guard and the hex parser, as exactly the pure hue the press picked. */
  lemma PressSelectsHue(atanDegrees: real)
    requires -180.0 <= atanDegrees <= 180.0
    ensures IsHexColor(PressColor(atanDegrees))
    ensures ParseRgb(PressColor(atanDegrees)) == HsvToRgb(PressAngle(atanDegrees), 1.0, 1.0)
    ensures var c := ParseRgb(PressColor(atanDegrees));
            (c.r == 255 || c.g == 255 || c.b == 255) && (c.r == 0 || c.g == 0 || c.b == 0)
  {
    var theta := PressAngle(atanDegrees);
    ChannelsInRange(theta, 1.0, 1.0);
    HexRoundTrip(HsvToRgb(theta, 1.0, 1.0));
    PureHueExtremes(theta);
  }

  /** A press straight above the centre (atan2 gives -90 degrees) selects red. */
  lemma PressAbove(atanDegrees: real)
    requires atanDegrees == -90.0
    ensures IsHexColor(PressColor(atanDegrees)) && ParseRgb(PressColor(atanDegrees)) == Rgb(255, 0, 0)
  {
    PressSelectsHue(atanDegrees);
    var theta := PressAngle(atanDegrees);
    assert theta == 0.0;
    RedAtZero(theta);
  }

  /** A press level with the centre on the right (atan2 gives 0 degrees) lands a
      quarter turn round the ring and selects chartreuse, (128, 255, 0). */
  lemma PressRight(atanDegrees: real)
    requires atanDegrees == 0.0
    ensures IsHexColor(PressColor(atanDegrees)) && ParseRgb(PressColor(atanDegrees)) == Rgb(128, 255, 0)
  {
    PressSelectsHue(atanDegrees);
    var theta := PressAngle(atanDegrees);
    assert theta == 90.0;
    ChartreuseAtNinety(theta);
  }

  /** With the default value `#ff0000` the marker sits at angle 0, the top of the ring. */
  lemma DefaultMarker(selected: string)
    requires selected == "#ff0000"
    ensures IsHexColor(selected) && MarkerAngle(selected) == 0.0
  {
    assert selected[1..3] == ['f', 'f'] && selected[3..5] == ['0', '0'] && selected[5..7] == ['0', '0'];
    ParseTwo('f', 'f');
    ParseTwo('0', '0');
    assert ParseRgb(selected) == Rgb(255, 0, 0);
    HueOfPrimary(Rgb(255, 0, 0));
  }

  /** The component's selection state: `selectedColor` (index.tsx:88) and the
      colours handed to `onColorChange`, with the props fixed at construction. */
  class ColorPicker {
    var selectedColor: string
    /** Every colour passed to `onColorChange`, oldest first. */
    var notified: seq<string>

    /** Whether `react-native-svg` loaded (index.tsx:93). */
    const svgAvailable: bool
    /** Whether an `onColorChange` callback was supplied. */
    const hasListener: bool
    const size: real
    const strokeWidth: real
    const center: real
    const radius: real

    /** The first render: `useState(value)` and the derived geometry (index.tsx:88-90). */
    constructor (value: string, size: real, strokeWidth: real, svgAvailable: bool, hasListener: bool)
      ensures selectedColor == value && notified == []
      ensures this.size == size && this.strokeWidth == strokeWidth
      ensures center == size / 2.0 && radius == size / 2.0 - strokeWidth / 2.0
      ensures this.svgAvailable == svgAvailable && this.hasListener == hasListener
    {
      selectedColor := value;
      notified := [];
      this.size := size;
      this.strokeWidth := strokeWidth;
      this.svgAvailable := svgAvailable;
      this.hasListener := hasListener;
      center := size / 2.0;
      radius := size / 2.0 - strokeWidth / 2.0;
    }

    /** The default props `value = '#ff0000'`, `size = 220`, `strokeWidth = 28` (index.tsx:80-83). */
    constructor WithDefaults(svgAvailable: bool, hasListener: bool)
      ensures selectedColor == "#ff0000" && notified == []
      ensures size == 220.0 && strokeWidth == 28.0 && center == 110.0 && radius == 96.0
      ensures this.svgAvailable == svgAvailable && this.hasListener == hasListener
    {
      selectedColor := "#ff0000";
      notified := [];
      size := 220.0;
      strokeWidth := 28.0;
      this.svgAvailable := svgAvailable;
      this.hasListener := hasListener;
      center := 110.0;
      radius := 96.0;
    }

    /** `handleColorChange` (index.tsx:95-98): store the colour, then tell the listener. */
    method HandleColorChange(color: string)
      modifies this
      ensures selectedColor == color
      ensures notified == old(notified) + (if hasListener then [color] else [])
    {
      selectedColor := color;
      if hasListener {
        notified := notified + [color];
      }
    }

    /** `handlePress` (index.tsx:140-153): a press off the ring, or with no SVG
        support, changes nothing; a press on the ring selects the pure hue at
        its angle. */
    method HandlePress(dist: real, atanDegrees: real)
      modifies this
      ensures !(svgAvailable && OnRing(dist, radius, strokeWidth)) ==>
                selectedColor == old(selectedColor) && notified == old(notified)
      ensures svgAvailable && OnRing(dist, radius, strokeWidth) ==>
                selectedColor == PressColor(atanDegrees) &&
                notified == old(notified) + (if hasListener then [selectedColor] else [])
    {
      if !svgAvailable {
        return;
      }
      if dist < radius - strokeWidth / 2.0 || dist > radius + strokeWidth / 2.0 {
        return;
      }
      var theta := atanDegrees + 90.0;
      if theta < 0.0 {
        theta := theta + 360.0;
      }
      ChannelsInRange(theta, 1.0, 1.0);
      var hex := RgbToHex(HsvToRgb(theta, 1.0, 1.0));
      HandleColorChange(hex);
    }

    /** The arcs drawn this render: none without SVG support (index.tsx:104). */
    method WheelArcs() returns (arcs: seq<Arc>)
      ensures !svgAvailable ==> arcs == []
      ensures svgAvailable ==> |arcs| == Segments && Tiles(arcs, Segments)
      ensures forall i :: 0 <= i < |arcs| ==> arcs[i] == ArcAt(Segments, i) && arcs[i].largeArc == 0
    {
      arcs := [];
      if svgAvailable {
        arcs := BuildArcs(Segments);
      }
    }

    /** The marker's angle this render (index.tsx:131-135). */
    function Marker(): (angle: real)
      reads this
      ensures 0.0 <= angle < 360.0
      ensures !IsHexColor(selectedColor) ==> angle == 0.0
    {
      MarkerAngle(selectedColor)
    }
  }
}
