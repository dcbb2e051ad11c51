/**
 Conversion of legacy theme colours to canonical hex, over exact reals. Functional notations come in as the
 numbers their components were scanned to; text handling is kept for names and hex colours.
 */
module ThemeColor {
  import opened Prelude
  import opened Text

  // ---------------------------------------------------------------- HSL

  function Abs(x: real): real { if x < 0.0 then -x else x }

  /** The remainder of a truncated division: it has the sign of the dividend. */
  function Rem(x: real, m: real): real
    requires m > 0.0
  {
    if x >= 0.0 then x - m * (x / m).Floor as real else -(-x - m * (-x / m).Floor as real)
  }

  function Chroma(s: real, l: real): real { (1.0 - Abs(2.0 * l - 1.0)) * s }

  function Segment(hue: real): real { Rem(Rem(hue, 360.0) + 360.0, 360.0) / 60.0 }

  datatype Channels = Channels(r: real, g: real, b: real)

  /** The channel pattern of a segment, before lightness is added. */
  function Pattern(segment: real, chroma: real): Channels {
    var x := chroma * (1.0 - Abs(Rem(segment, 2.0) - 1.0));
    if segment < 1.0 then Channels(chroma, x, 0.0)
    else if segment < 2.0 then Channels(x, chroma, 0.0)
    else if segment < 3.0 then Channels(0.0, chroma, x)
    else if segment < 4.0 then Channels(0.0, x, chroma)
    else if segment < 5.0 then Channels(x, 0.0, chroma)
    else Channels(chroma, 0.0, x)
  }

  /** The conversion of the source, each channel in [0,1]. */
  function FromHsl(hue: real, s: real, l: real): Channels {
    var p, low := Pattern(Segment(hue), Chroma(s, l)), l - Chroma(s, l) / 2.0;
    Channels(p.r + low, p.g + low, p.b + low)
  }

  /** `hue.to.rgb` of section 4.2.4 of CSS Color Module Level 3. */
  function CssHueToRgb(m1: real, m2: real, hue: real): real {
    var h := if hue < 0.0 then hue + 1.0 else if hue > 1.0 then hue - 1.0 else hue;
    if h * 6.0 < 1.0 then m1 + (m2 - m1) * h * 6.0
    else if h * 2.0 < 1.0 then m2
    else if h * 3.0 < 2.0 then m1 + (m2 - m1) * (2.0 / 3.0 - h) * 6.0
    else m1
  }

  /** `hsl.to.rgb` of the same section, hue as a fraction of the circle. */
  function CssHslToRgb(h: real, s: real, l: real): Channels {
    var m2 := if l <= 0.5 then l * (s + 1.0) else l + s - l * s;
    var m1 := l * 2.0 - m2;
    Channels(CssHueToRgb(m1, m2, h + 1.0 / 3.0), CssHueToRgb(m1, m2, h), CssHueToRgb(m1, m2, h - 1.0 / 3.0))
  }

  /** The fraction of the circle an angle in degrees stands for: the angle wraps around. */
  function Turn(hue: real): real { hue / 360.0 - (hue / 360.0).Floor as real }

  lemma FloorIs(x: real, n: int)
    requires n as real <= x < n as real + 1.0
    ensures x.Floor == n
  {
  }

  lemma FloorNegative(x: real)
    ensures (-x).Floor == if x.Floor as real == x then -x.Floor else -x.Floor - 1
  {
    FloorIs(-x, if x.Floor as real == x then -x.Floor else -x.Floor - 1);
  }

  /** The two truncated remainders place any hue, negative ones included, on the circle. */
  lemma SegmentIsTurn(hue: real)
    ensures Segment(hue) == 6.0 * Turn(hue) && 0.0 <= Segment(hue) < 6.0
  {
    var q := hue / 360.0;
    var inner := Rem(hue, 360.0);
    if hue >= 0.0 {
      assert inner == 360.0 * Turn(hue);
      FloorIs((inner + 360.0) / 360.0, 1);
    } else {
      assert -hue / 360.0 == -q;
      FloorNegative(q);
      if q.Floor as real == q {
        assert inner == 0.0;
        FloorIs((inner + 360.0) / 360.0, 1);
      } else {
        assert inner == 360.0 * Turn(hue) - 360.0;
        FloorIs((inner + 360.0) / 360.0, 0);
      }
    }
  }

  /** The weight of chroma in each channel, as the standard computes it. */
  function Weight(hue: real): real {
    var h := if hue < 0.0 then hue + 1.0 else if hue > 1.0 then hue - 1.0 else hue;
    if h * 6.0 < 1.0 then h * 6.0
    else if h * 2.0 < 1.0 then 1.0
    else if h * 3.0 < 2.0 then (2.0 / 3.0 - h) * 6.0
    else 0.0
  }

  lemma WeightOfHue(m1: real, m2: real, hue: real)
    ensures CssHueToRgb(m1, m2, hue) == m1 + (m2 - m1) * Weight(hue)
  {
    var h := if hue < 0.0 then hue + 1.0 else if hue > 1.0 then hue - 1.0 else hue;
    assert (m2 - m1) * h * 6.0 == (m2 - m1) * (h * 6.0);
    assert (m2 - m1) * (2.0 / 3.0 - h) * 6.0 == (m2 - m1) * ((2.0 / 3.0 - h) * 6.0);
  }

  lemma RemTwo(segment: real)
    requires 0.0 <= segment < 6.0
    ensures Rem(segment, 2.0) == if segment < 2.0 then segment else if segment < 4.0 then segment - 2.0
                                 else segment - 4.0
  {
    FloorIs(segment / 2.0, if segment < 2.0 then 0 else if segment < 4.0 then 1 else 2);
  }

  /** With unit chroma the pattern is the standard's three weights. */
  lemma PatternIsWeights(h: real)
    requires 0.0 <= h < 1.0
    ensures Pattern(6.0 * h, 1.0) == Channels(Weight(h + 1.0 / 3.0), Weight(h), Weight(h - 1.0 / 3.0))
  {
    RemTwo(6.0 * h);
  }

  lemma PatternScales(segment: real, chroma: real)
    ensures var one := Pattern(segment, 1.0);
            Pattern(segment, chroma) == Channels(chroma * one.r, chroma * one.g, chroma * one.b)
  {
  }

  lemma ChromaIsSpread(s: real, l: real)
    requires 0.0 <= l <= 1.0
    ensures var m2 := if l <= 0.5 then l * (s + 1.0) else l + s - l * s;
            var m1 := l * 2.0 - m2;
            m2 - m1 == Chroma(s, l) && m1 == l - Chroma(s, l) / 2.0
  {
  }

  /** Three weights of a chroma on top of a common base. */
  function Blend(w: Channels, chroma: real, low: real): Channels {
    Channels(chroma * w.r + low, chroma * w.g + low, chroma * w.b + low)
  }

  function Weights(h: real): Channels { Channels(Weight(h + 1.0 / 3.0), Weight(h), Weight(h - 1.0 / 3.0)) }

  lemma PatternBlends(h: real, chroma: real)
    requires 0.0 <= h < 1.0
    ensures var w := Weights(h); Pattern(6.0 * h, chroma) == Channels(chroma * w.r, chroma * w.g, chroma * w.b)
  {
    hide Pattern, Weight;
    PatternIsWeights(h);
    PatternScales(6.0 * h, chroma);
  }

  lemma FromHslBlends(hue: real, s: real, l: real)
    ensures FromHsl(hue, s, l) == Blend(Weights(Turn(hue)), Chroma(s, l), l - Chroma(s, l) / 2.0)
  {
    hide Pattern, Segment, Turn, Weight, Chroma;
    SegmentIsTurn(hue);
    PatternBlends(Turn(hue), Chroma(s, l));
  }

  lemma CssBlends(h: real, m1: real, m2: real, c: real)
    requires m2 - m1 == c
    ensures Channels(CssHueToRgb(m1, m2, h + 1.0 / 3.0), CssHueToRgb(m1, m2, h), CssHueToRgb(m1, m2, h - 1.0 / 3.0))
            == Blend(Weights(h), c, m1)
  {
    hide CssHueToRgb, Weight;
    WeightOfHue(m1, m2, h + 1.0 / 3.0);
    WeightOfHue(m1, m2, h);
    WeightOfHue(m1, m2, h - 1.0 / 3.0);
  }

  /** Chroma and segment give the colour of section 4.2.4 for every hue and every saturation and lightness. */
  lemma HslMatchesCss(hue: real, s: real, l: real)
    requires 0.0 <= s <= 1.0 && 0.0 <= l <= 1.0
    ensures FromHsl(hue, s, l) == CssHslToRgb(Turn(hue), s, l)
  {
    var m2 := if l <= 0.5 then l * (s + 1.0) else l + s - l * s;
    FromHslBlends(hue, s, l);
    ChromaIsSpread(s, l);
    CssBlends(Turn(hue), l * 2.0 - m2, m2, Chroma(s, l));
  }

  lemma Product(a: real, b: real)
    requires 0.0 <= a && 0.0 <= b <= 1.0
    ensures 0.0 <= a * b <= a
  {
  }

  predicate Unit(x: real) { 0.0 <= x <= 1.0 }

  lemma WeightsUnit(h: real)
    requires 0.0 <= h < 1.0
    ensures var w := Weights(h); Unit(w.r) && Unit(w.g) && Unit(w.b)
  {
  }

  lemma BlendUnit(w: real, c: real, l: real)
    requires Unit(w) && 0.0 <= c && c <= 2.0 * l && c <= 2.0 - 2.0 * l
    ensures Unit(c * w + (l - c / 2.0))
  {
    Product(c, w);
  }

  lemma ChromaBound(s: real, l: real)
    requires 0.0 <= s <= 1.0 && 0.0 <= l <= 1.0
    ensures 0.0 <= Chroma(s, l) <= 2.0 * l && Chroma(s, l) <= 2.0 - 2.0 * l
  {
    ProductBound(1.0 - Abs(2.0 * l - 1.0), s, 2.0 * l, 2.0 - 2.0 * l);
  }

  lemma ProductBound(a: real, b: real, x: real, y: real)
    requires 0.0 <= a <= x && a <= y && Unit(b)
    ensures 0.0 <= a * b <= x && a * b <= y
  {
    Product(a, b);
  }

  /** No channel leaves [0,1]: every such colour passes the range check. */
  lemma HslInRange(hue: real, s: real, l: real)
    requires 0.0 <= s <= 1.0 && 0.0 <= l <= 1.0
    ensures var c := FromHsl(hue, s, l); Unit(c.r) && Unit(c.g) && Unit(c.b)
  {
    hide FromHsl, Turn, Weights, Chroma, Segment;
    var w, c := Weights(Turn(hue)), Chroma(s, l);
    FromHslBlends(hue, s, l);
    ChromaBound(s, l);
    SegmentIsTurn(hue);
    WeightsUnit(Turn(hue));
    BlendUnit(w.r, c, l);
    BlendUnit(w.g, c, l);
    BlendUnit(w.b, c, l);
  }

  // ---------------------------------------------------------------- hex colours

  const DIGITS16 := "0123456789abcdef"

  predicate HexDigit(c: char) { c in DIGITS16 }

  function HexValue(c: char): (n: int)
    requires HexDigit(c)
    ensures 0 <= n < 16 && DIGITS16[n] == c
  {
    var n := if '0' <= c <= '9' then c as int - '0' as int else c as int - 'a' as int + 10;
    assert DIGITS16[n] == c;
    n
  }

  /** Two digits, padded with zero. */
  function Byte(n: int): string
    requires 0 <= n <= 255
  {
    [DIGITS16[n / 16], DIGITS16[n % 16]]
  }

  function Round(x: real): int { (x + 0.5).Floor }

  predicate InByteRange(x: real) { 0.0 <= x <= 255.0 }

  function FromChannels(c: Channels): Option<string> {
    if !(InByteRange(c.r) && InByteRange(c.g) && InByteRange(c.b)) then None
    else
      assert 0 <= Round(c.r) <= 255 && 0 <= Round(c.g) <= 255 && 0 <= Round(c.b) <= 255;
      Some("#" + Byte(Round(c.r)) + Byte(Round(c.g)) + Byte(Round(c.b)))
  }

  datatype Part = Part(value: real, percent: bool)

  /** A scanned functional notation: alpha and hue are finite numbers, percentages still out of 100. */
  datatype Functional =
    | Rgb(r: Part, g: Part, b: Part, alpha: Part)
    | Hsl(hue: real, saturation: real, lightness: real, alpha: Part)

  function Alpha(p: Part): real { if p.percent then p.value / 100.0 else p.value }

  function RgbChannel(p: Part): real { p.value * if p.percent then 2.55 else 1.0 }

  /** The channels of a functional notation, out of 255. */
  function FunctionalChannels(f: Functional): Channels {
    match f
    case Rgb(r, g, b, _) => Channels(RgbChannel(r), RgbChannel(g), RgbChannel(b))
    case Hsl(hue, saturation, lightness, _) =>
      var c := FromHsl(hue, saturation / 100.0, lightness / 100.0);
      Channels(c.r * 255.0, c.g * 255.0, c.b * 255.0)
  }

  predicate WithinBounds(f: Functional) {
    f.Hsl? ==> 0.0 <= f.saturation / 100.0 <= 1.0 && 0.0 <= f.lightness / 100.0 <= 1.0
  }

  function FromFunctional(f: Functional): Option<string> {
    if Alpha(f.alpha) != 1.0 || !WithinBounds(f) then None else FromChannels(FunctionalChannels(f))
  }

  const NAMES: map<string, string> := map[
    "black" := "#080706", "blue" := "#4f7cff", "cyan" := "#63e6ff", "gray" := "#a0988f", "green" := "#86b875",
    "magenta" := "#ff7de8", "orange" := "#ff7a00", "red" := "#e47763", "white" := "#f4f1eb", "yellow" := "#e7a84d"]

  /** Names every object inherits: the lookup in the name table finds them too. */
  const INHERITED: set<string> := {"constructor", "__proto__"}

  function Lower(s: string): (r: string)
    ensures |r| == |s|
  {
    seq(|s|, i requires 0 <= i < |s| => if 'A' <= s[i] <= 'Z' then (s[i] as int + 32) as char else s[i])
  }

  predicate HexText(text: string) {
    && |text| in {4, 5, 7, 9} && text[0] == '#'
    && forall i | 1 <= i < |text| :: HexDigit(text[i])
  }

  function Doubled(digits: string): (r: string)
    ensures |r| == 2 * |digits|
    ensures forall i | 0 <= i < |r| :: r[i] == digits[i / 2]
  {
    if digits == "" then "" else
      var rest := Doubled(digits[1..]);
      [digits[0], digits[0]] + rest
  }

  /** Six digits, or eight with full opacity. */
  function FromHex(text: string): Option<string>
    requires HexText(text)
  {
    var hex := text[1..];
    var expanded := if |hex| <= 4 then Doubled(hex) else hex;
    if |expanded| == 8 && expanded[6..] != "ff" then None else Some("#" + expanded[..6])
  }

  datatype Colour = Undefined | Hex(text: string) | NotAColour

  /** `scan` recognises functional notations in trimmed lower-case text. */
  function LegacyThemeColor(value: string, scan: string -> Option<Functional>): Colour {
    if |value| > 240 then Undefined
    else
      var text := Lower(Trim(value));
      if text in NAMES then Hex(NAMES[text])
      else if text in INHERITED then NotAColour
      else
        var converted := if HexText(text) then FromHex(text)
                         else if scan(text).Some? then FromFunctional(scan(text).value)
                         else None;
        if converted.Some? then Hex(converted.value) else Undefined
  }

  /** Canonical colours: '#' and six lower-case hex digits. */
  predicate Canonical(text: string) {
    |text| == 7 && text[0] == '#' && forall i | 1 <= i < 7 :: HexDigit(text[i])
  }

  lemma ByteDigits(n: int)
    requires 0 <= n <= 255
    ensures |Byte(n)| == 2 && HexDigit(Byte(n)[0]) && HexDigit(Byte(n)[1])
    ensures 16 * HexValue(Byte(n)[0]) + HexValue(Byte(n)[1]) == n
  {
    DigitValue(n / 16);
    DigitValue(n % 16);
  }

  lemma DigitValue(n: int)
    requires 0 <= n < 16
    ensures HexDigit(DIGITS16[n]) && HexValue(DIGITS16[n]) == n
  {
  }

  /** The three channels a canonical colour denotes. */
  function Denoted(text: string): (int, int, int)
    requires Canonical(text)
  {
    (16 * HexValue(text[1]) + HexValue(text[2]), 16 * HexValue(text[3]) + HexValue(text[4]),
     16 * HexValue(text[5]) + HexValue(text[6]))
  }

  lemma RoundRange(x: real)
    requires InByteRange(x)
    ensures 0 <= Round(x) <= 255
  {
  }

  lemma ThreeBytes(a: string, b: string, c: string)
    requires |a| == 2 && |b| == 2 && |c| == 2
    requires HexDigit(a[0]) && HexDigit(a[1]) && HexDigit(b[0]) && HexDigit(b[1]) && HexDigit(c[0]) && HexDigit(c[1])
    ensures var text := "#" + a + b + c;
            && Canonical(text)
            && Denoted(text) == (16 * HexValue(a[0]) + HexValue(a[1]), 16 * HexValue(b[0]) + HexValue(b[1]),
                                 16 * HexValue(c[0]) + HexValue(c[1]))
  {
    hide HexDigit, HexValue;
    var text := "#" + a + b + c;
    assert text[1] == a[0] && text[2] == a[1] && text[3] == b[0] && text[4] == b[1];
    assert text[5] == c[0] && text[6] == c[1];
  }

  /** A printed colour is canonical and its digits are the rounded channels. */
  lemma ChannelsPrinted(c: Channels)
    requires FromChannels(c).Some?
    ensures var text := FromChannels(c).value;
            Canonical(text) && Denoted(text) == (Round(c.r), Round(c.g), Round(c.b))
  {
    hide Byte, HexValue, HexDigit, Denoted, Canonical, Round;
    RoundRange(c.r);
    RoundRange(c.g);
    RoundRange(c.b);
    ByteDigits(Round(c.r));
    ByteDigits(Round(c.g));
    ByteDigits(Round(c.b));
    ThreeBytes(Byte(Round(c.r)), Byte(Round(c.g)), Byte(Round(c.b)));
  }

  lemma HexCanonical(text: string)
    requires HexText(text) && FromHex(text).Some?
    ensures Canonical(FromHex(text).value)
  {
    var hex := text[1..];
    forall i | 1 <= i < 7 ensures HexDigit(FromHex(text).value[i]) {
      if |hex| <= 4 {
        assert FromHex(text).value[i] == hex[(i - 1) / 2] == text[(i - 1) / 2 + 1];
      } else {
        assert FromHex(text).value[i] == text[i];
      }
    }
  }

  /** Every result is canonical, except that a name every object inherits is taken for a table entry. */
  lemma ResultsAreCanonical(value: string, scan: string -> Option<Functional>)
    ensures var c := LegacyThemeColor(value, scan);
            (c.Undefined? || (c.Hex? && Canonical(c.text)))
            <==> !(|value| <= 240 && Lower(Trim(value)) in INHERITED)
  {
    var text := Lower(Trim(value));
    NamesCanonical(text);
    if HexText(text) {
      if FromHex(text).Some? { HexCanonical(text); }
    } else if scan(text).Some? && FromFunctional(scan(text).value).Some? {
      FunctionalCanonical(scan(text).value);
    }
  }

  /** Such a name is not refused as no colour: what comes back is no string at all. */
  lemma InheritedNameExample(scan: string -> Option<Functional>)
    ensures LegacyThemeColor("constructor", scan).NotAColour?
  {
    var text := "constructor";
    TrimFixed(text);
    assert Lower(text) == text;
    ResultsAreCanonical(text, scan);
  }

  lemma FunctionalCanonical(f: Functional)
    requires FromFunctional(f).Some?
    ensures Canonical(FromFunctional(f).value)
  {
    ChannelsPrinted(FunctionalChannels(f));
  }

  lemma NamesCanonical(text: string)
    ensures text in NAMES ==> Canonical(NAMES[text]) && text !in INHERITED
  {
  }

  lemma CanonicalFixed(text: string)
    requires Canonical(text)
    ensures Lower(Trim(text)) == text
  {
    assert HexDigit(text[6]);
    TrimFixed(text);
    forall i | 0 <= i < 7 ensures Lower(text)[i] == text[i] { assert i == 0 || HexDigit(text[i]); }
  }

  /** Converting a canonical colour, and so any result, again returns it unchanged. */
  lemma CanonicalUnchanged(text: string, scan: string -> Option<Functional>)
    requires Canonical(text)
    ensures LegacyThemeColor(text, scan) == Hex(text)
  {
    hide Trim, Lower;
    CanonicalFixed(text);
    NotANames(text);
    assert HexText(text);
    assert text == "#" + text[1..][..6];
  }

  lemma NotANames(text: string)
    requires text != "" && text[0] == '#'
    ensures text !in NAMES && text !in INHERITED
  {
  }

  function Scale(c: Channels): Channels { Channels(c.r * 255.0, c.g * 255.0, c.b * 255.0) }

  lemma InRangePrints(c: Channels)
    requires InByteRange(c.r) && InByteRange(c.g) && InByteRange(c.b)
    ensures FromChannels(c).Some?
  {
  }

  lemma ScaledPrinted(c: Channels)
    requires Unit(c.r) && Unit(c.g) && Unit(c.b)
    ensures var f := FromChannels(Scale(c));
            f.Some? && Canonical(f.value)
            && Denoted(f.value) == (Round(c.r * 255.0), Round(c.g * 255.0), Round(c.b * 255.0))
  {
    hide Denoted, Canonical, Round, FromChannels;
    InRangePrints(Scale(c));
    ChannelsPrinted(Scale(c));
  }

  /** Every opaque HSL colour with saturation and lightness within bounds converts, to the rounded channels
      of the standard's algorithm. */
  lemma HslConverts(hue: real, saturation: real, lightness: real, alpha: Part)
    requires 0.0 <= saturation / 100.0 <= 1.0 && 0.0 <= lightness / 100.0 <= 1.0 && Alpha(alpha) == 1.0
    ensures var f := FromFunctional(Hsl(hue, saturation, lightness, alpha));
            var css := CssHslToRgb(Turn(hue), saturation / 100.0, lightness / 100.0);
            && f.Some? && Canonical(f.value)
            && Denoted(f.value) == (Round(css.r * 255.0), Round(css.g * 255.0), Round(css.b * 255.0))
  {
    hide FromHsl, CssHslToRgb, Turn, FromChannels, Denoted, Canonical, Round;
    HslMatchesCss(hue, saturation / 100.0, lightness / 100.0);
    HslInRange(hue, saturation / 100.0, lightness / 100.0);
    ScaledPrinted(FromHsl(hue, saturation / 100.0, lightness / 100.0));
  }
}
