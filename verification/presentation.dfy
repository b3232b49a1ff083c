/** The pure presentation logic of little-bat: the colour threshold, the
    text for a power state, the ten-cell bar, the two frame layouts, the
    choice of content for one tick and the size of the box it needs.

    A line is a sequence of glyphs, each one terminal cell wide, together
    with the foreground colour of the whole line. */
module Presentation {
  import opened Decimal
  import Rounding

  /** A value that may be absent: a battery reading, or a widest line. */
  datatype Option<T> = None | Some(value: T)

  datatype Color = Green | Yellow | Red | DarkGray | Default

  /** The power state reported by the battery driver. The driver's
      enumeration is open to new variants; `Other` stands for any of them. */
  datatype State = Unknown | Charging | Discharging | Empty | Full | Other

  /** One reading of the primary battery: percent charge and power state. */
  datatype Reading = Reading(charge: real, state: State)

  /** The two command-line flags: `--graphic` and `--label`. */
  datatype Config = Config(graphicMode: bool, showLabel: bool)

  datatype Line = Line(glyphs: string, color: Color)

  /** The footprint handed to the centring layout, in terminal cells. */
  datatype Area = Area(width: nat, height: nat)

  const CellCount: nat := 10
  const FullBlock: char := '\U{2588}'
  const LightShade: char := '\U{2591}'
  const BatteryLabel: string := "Battery"
  const NoBatteryText: string := "No battery found"

  /** Sizes are `u16` in the terminal library. */
  const U16Modulus: nat := 0x1_0000

  /** Width used when there is no line to measure (`unwrap_or(20)`). */
  const FallbackWidth: nat := 20

  /** The range the battery driver keeps a charge in. */
  predicate ValidCharge(charge: real) {
    0.0 <= charge <= 100.0
  }

  function Width(l: Line): nat {
    |l.glyphs|
  }

  // ---------------------------------------------------------------------
  // Colour threshold

  /** Green above 50, yellow above 20 up to and including 50, red at 20
      and below. */
  function ChargeColor(charge: real): (c: Color)
    ensures c == Green <==> charge > 50.0
    ensures c == Yellow <==> 20.0 < charge <= 50.0
    ensures c == Red <==> charge <= 20.0
    ensures c != DarkGray && c != Default
  {
    if charge > 50.0 then Green else if charge > 20.0 then Yellow else Red
  }

  /** How alarming a charge colour is: green, then yellow, then red. */
  function Severity(c: Color): nat {
    match c
    case Green => 0
    case Yellow => 1
    case _ => 2
  }

  /** A lower charge is never shown in a less alarming colour. */
  lemma ChargeColorMonotone(lower: real, higher: real)
    requires lower <= higher
    ensures Severity(ChargeColor(higher)) <= Severity(ChargeColor(lower))
  {
  }

  /** The two boundaries belong to the more alarming side. */
  lemma ChargeColorBoundaries()
    ensures ChargeColor(50.0) == Yellow
    ensures ChargeColor(20.0) == Red
  {
  }

  // ---------------------------------------------------------------------
  // Power-state text

  /** The four states that have a name of their own on screen. */
  predicate Named(s: State) {
    s.Charging? || s.Discharging? || s.Full? || s.Empty?
  }

  /** Total: each named state reads as its own name, and exactly the states
      without a name of their own read "Unknown". */
  function StateText(s: State): (t: string)
    ensures s.Charging? ==> t == "Charging"
    ensures s.Discharging? ==> t == "Discharging"
    ensures s.Full? ==> t == "Full"
    ensures s.Empty? ==> t == "Empty"
    ensures t == "Unknown" <==> !Named(s)
    ensures 0 < |t| <= 11
  {
    match s
    case Charging => "Charging"
    case Discharging => "Discharging"
    case Full => "Full"
    case Empty => "Empty"
    case _ => "Unknown"
  }

  /** Named states are told apart on screen. */
  lemma StateTextDistinguishesNamed(a: State, b: State)
    requires Named(a) && Named(b)
    requires StateText(a) == StateText(b)
    ensures a == b
  {
  }

  // ---------------------------------------------------------------------
  // Percentage text

  /** The charge rounded to a whole number (ties to even), written in
      decimal with a `%` sign; a negative charge gets a leading `-`. */
  function PercentText(charge: real): (s: string)
    ensures 2 <= |s| && s[|s| - 1] == '%'
    ensures charge >= 0.0 ==>
      AllDigits(s[..|s| - 1]) && Rounding.HalfToEven(charge, DecimalValue(s[..|s| - 1]))
    ensures charge < 0.0 ==>
      s[0] == '-' && AllDigits(s[1..|s| - 1])
      && Rounding.HalfToEven(-charge, DecimalValue(s[1..|s| - 1]))
  {
    if charge < 0.0 then
      var n := Rounding.RoundHalfEven(-charge);
      DecimalRoundTrip(n);
      assert ("-" + DecimalString(n) + "%")[1..|DecimalString(n)| + 1] == DecimalString(n);
      "-" + DecimalString(n) + "%"
    else
      var n := Rounding.RoundHalfEven(charge);
      DecimalRoundTrip(n);
      assert (DecimalString(n) + "%")[..|DecimalString(n)|] == DecimalString(n);
      DecimalString(n) + "%"
  }

  /** The digits carry no leading zero, except for a charge that rounds to
      0 itself: "0%" or "-0%", never "075%". */
  lemma PercentTextNoLeadingZero(charge: real)
    ensures var s := PercentText(charge);
      && (charge >= 0.0 && s[0] == '0' ==> s == "0%")
      && (charge < 0.0 ==> 3 <= |s| && (s[1] == '0' ==> s == "-0%"))
  {
  }

  /** Within the driver's range the text is at most "100%". */
  lemma PercentTextWidth(charge: real)
    requires ValidCharge(charge)
    ensures |PercentText(charge)| <= 4
  {
  }

  // ---------------------------------------------------------------------
  // The bar

  /** Number of filled cells: `charge / 10` rounded half away from zero; a
      negative count saturates to zero as the cast to `usize` does. Above
      this precondition the source's `10 - filled` underflows and panics. */
  function Filled(charge: real): (n: nat)
    requires charge < 105.0
    ensures n <= CellCount
    ensures charge < 5.0 ==> n == 0
    ensures charge >= 5.0 ==> (n as real) * 10.0 - 5.0 <= charge < (n as real) * 10.0 + 5.0
  {
    var r := Rounding.RoundHalfAway(charge / 10.0);
    if r < 0 then 0 else r
  }

  /** An empty battery shows no filled cell and a full one shows all ten. */
  lemma FilledEnds()
    ensures Filled(0.0) == 0
    ensures Filled(100.0) == CellCount
  {
  }

  /** The bar rounds ties up: 5% already fills a cell, 15% two, 25% three. */
  lemma FilledTies()
    ensures Filled(5.0) == 1
    ensures Filled(15.0) == 2
    ensures Filled(25.0) == 3
  {
  }

  /** More charge never shows fewer filled cells. */
  lemma FilledMonotone(lower: real, higher: real)
    requires lower <= higher < 105.0
    ensures Filled(lower) <= Filled(higher)
  {
  }

  function Repeat(c: char, n: nat): (s: string)
    ensures |s| == n
    ensures forall i :: 0 <= i < n ==> s[i] == c
  {
    seq(n, _ => c)
  }

  /** `[`, then `filled` full blocks, then light shades up to ten cells,
      then `]`. */
  function Bar(filled: nat): (b: string)
    requires filled <= CellCount
    ensures |b| == CellCount + 2
    ensures b[0] == '[' && b[|b| - 1] == ']'
    ensures forall i :: 1 <= i <= filled ==> b[i] == FullBlock
    ensures forall i :: filled < i <= CellCount ==> b[i] == LightShade
  {
    "[" + Repeat(FullBlock, filled) + Repeat(LightShade, CellCount - filled) + "]"
  }

  /** How many times `c` occurs in `s`. */
  function Occurrences(s: string, c: char): nat {
    if |s| == 0 then 0 else (if s[0] == c then 1 else 0) + Occurrences(s[1..], c)
  }

  lemma {:induction false} OccurrencesAppend(a: string, b: string, c: char)
    ensures Occurrences(a + b, c) == Occurrences(a, c) + Occurrences(b, c)
  {
    if |a| > 0 {
      assert (a + b)[1..] == a[1..] + b;
      OccurrencesAppend(a[1..], b, c);
    } else {
      assert a + b == b;
    }
  }

  lemma {:induction false} OccurrencesRepeat(c: char, n: nat, d: char)
    ensures Occurrences(Repeat(c, n), d) == if c == d then n else 0
  {
    if n > 0 {
      assert Repeat(c, n)[1..] == Repeat(c, n - 1);
      OccurrencesRepeat(c, n - 1, d);
    }
  }

  /** Counting the glyphs of a bar gives back its fill: `filled` full
      blocks and `10 - filled` light shades. */
  lemma BarCellCounts(filled: nat)
    requires filled <= CellCount
    ensures Occurrences(Bar(filled), FullBlock) == filled
    ensures Occurrences(Bar(filled), LightShade) == CellCount - filled
  {
    var full, light := Repeat(FullBlock, filled), Repeat(LightShade, CellCount - filled);
    assert Bar(filled) == "[" + (full + (light + "]"));
    forall c: char
      ensures Occurrences(Bar(filled), c)
        == Occurrences("[", c) + Occurrences(full, c) + Occurrences(light, c) + Occurrences("]", c)
    {
      OccurrencesAppend("[", full + (light + "]"), c);
      OccurrencesAppend(full, light + "]", c);
      OccurrencesAppend(light, "]", c);
    }
    OccurrencesRepeat(FullBlock, filled, FullBlock);
    OccurrencesRepeat(LightShade, CellCount - filled, FullBlock);
    OccurrencesRepeat(FullBlock, filled, LightShade);
    OccurrencesRepeat(LightShade, CellCount - filled, LightShade);
  }

  // ---------------------------------------------------------------------
  // Frames

  const LabelLine: Line := Line(BatteryLabel, Default)

  function StateLine(s: State): Line {
    Line(StateText(s), DarkGray)
  }

  function PercentLine(charge: real): Line {
    Line(PercentText(charge), ChargeColor(charge))
  }

  function BarLine(charge: real): Line
    requires charge < 105.0
  {
    Line(Bar(Filled(charge)), ChargeColor(charge))
  }

  /** Percentage mode: the percentage alone, or framed by the label above
      and the state below. */
  function RenderPercentage(charge: real, state: State, showLabel: bool): (lines: seq<Line>)
    ensures |lines| == if showLabel then 3 else 1
    ensures showLabel ==> lines[0] == LabelLine && lines[2] == StateLine(state)
    ensures lines[if showLabel then 1 else 0] == PercentLine(charge)
  {
    (if showLabel then [LabelLine] else [])
    + [PercentLine(charge)]
    + (if showLabel then [StateLine(state)] else [])
  }

  /** Graphic mode: the bar and then the percentage, both in the charge
      colour, optionally framed by the label above and the state below. */
  function RenderGraphic(charge: real, state: State, showLabel: bool): (lines: seq<Line>)
    requires charge < 105.0
    ensures |lines| == if showLabel then 4 else 2
    ensures showLabel ==> lines[0] == LabelLine && lines[3] == StateLine(state)
    ensures var k := if showLabel then 1 else 0;
      && lines[k].color == ChargeColor(charge)
      && Occurrences(lines[k].glyphs, FullBlock) == Filled(charge)
      && lines[k + 1] == PercentLine(charge)
  {
    BarCellCounts(Filled(charge));
    (if showLabel then [LabelLine] else [])
    + [BarLine(charge)]
    + [PercentLine(charge)]
    + (if showLabel then [StateLine(state)] else [])
  }

  /** The label adds exactly two lines, the same in both modes: "Battery"
      first and the state text last, around the unlabelled frame. */
  lemma LabelFramesContent(charge: real, state: State)
    requires charge < 105.0
    ensures RenderPercentage(charge, state, true)
      == [LabelLine] + RenderPercentage(charge, state, false) + [StateLine(state)]
    ensures RenderGraphic(charge, state, true)
      == [LabelLine] + RenderGraphic(charge, state, false) + [StateLine(state)]
  {
  }

  /** Graphic mode is percentage mode with the bar inserted just above the
      percentage line. */
  lemma GraphicAddsBar(charge: real, state: State, showLabel: bool)
    requires charge < 105.0
    ensures var p := RenderPercentage(charge, state, showLabel);
      var k := if showLabel then 1 else 0;
      RenderGraphic(charge, state, showLabel) == p[..k] + [BarLine(charge)] + p[k..]
  {
  }

  /** In either mode the label is the only default-coloured line, the state
      the only grey one, and every other line wears the charge colour. */
  lemma FrameColors(charge: real, state: State, config: Config)
    requires config.graphicMode ==> charge < 105.0
    ensures var lines := Frame(charge, state, config);
      forall i :: 0 <= i < |lines| ==>
        && (lines[i].color == Default <==> config.showLabel && i == 0)
        && (lines[i].color == DarkGray <==> config.showLabel && i == |lines| - 1)
        && (lines[i].color != Default && lines[i].color != DarkGray ==> lines[i].color == ChargeColor(charge))
  {
  }

  function Frame(charge: real, state: State, config: Config): seq<Line>
    requires config.graphicMode ==> charge < 105.0
  {
    if config.graphicMode then RenderGraphic(charge, state, config.showLabel)
    else RenderPercentage(charge, state, config.showLabel)
  }

  // ---------------------------------------------------------------------
  // Content of one tick and its footprint

  /** What the renderer demands of a reading: in graphic mode the charge
      must stay below the value at which the bar would need an eleventh
      cell. */
  predicate Renderable(reading: Option<Reading>, config: Config) {
    reading.Some? && config.graphicMode ==> reading.value.charge < 105.0
  }

  /** The lines drawn for one tick: one fixed line when there is no battery,
      whatever the flags, otherwise the frame of the selected mode. */
  function Content(reading: Option<Reading>, config: Config): (lines: seq<Line>)
    requires Renderable(reading, config)
    ensures reading.None? ==> lines == [Line(NoBatteryText, Default)]
    ensures reading.Some? ==>
      |lines| == (if config.graphicMode then 2 else 1) + (if config.showLabel then 2 else 0)
    ensures 1 <= |lines| <= 4
  {
    match reading
    case None => [Line(NoBatteryText, Default)]
    case Some(r) => Frame(r.charge, r.state, config)
  }

  /** With a reading, only `graphicMode` picks the layout; `showLabel` only adds the
      frame around it. */
  lemma ContentMode(r: Reading, showLabel: bool)
    requires r.charge < 105.0
    ensures Content(Some(r), Config(false, showLabel)) == RenderPercentage(r.charge, r.state, showLabel)
    ensures Content(Some(r), Config(true, showLabel)) == RenderGraphic(r.charge, r.state, showLabel)
  {
  }

  /** The widest line, or `None` when there are no lines. */
  function MaxWidth(lines: seq<Line>): (m: Option<nat>)
    ensures m.None? <==> |lines| == 0
    ensures m.Some? ==> forall i :: 0 <= i < |lines| ==> Width(lines[i]) <= m.value
    ensures m.Some? ==> exists i :: 0 <= i < |lines| && Width(lines[i]) == m.value
  {
    if |lines| == 0 then None
    else
      match MaxWidth(lines[1..])
      case None => Some(Width(lines[0]))
      case Some(w) =>
        if Width(lines[0]) >= w then Some(Width(lines[0])) else Some(w)
  }

  /** The box the content is centred in: the line count by the widest line
      plus two, both cast to `u16` and added in `u16`. */
  function Footprint(lines: seq<Line>): (a: Area)
    ensures a.width < U16Modulus && a.height < U16Modulus
    ensures |lines| < U16Modulus ==> a.height == |lines|
    ensures |lines| > 0 && MaxWidth(lines).value + 2 < U16Modulus ==>
      a.width == MaxWidth(lines).value + 2
    ensures |lines| == 0 ==> a == Area(FallbackWidth + 2, 0)
  {
    var w := (match MaxWidth(lines) case Some(m) => m case None => FallbackWidth) % U16Modulus;
    Area((w + 2) % U16Modulus, |lines| % U16Modulus)
  }

  /** For any content drawn from a driver reading, the box is exactly the
      widest line plus two by the line count: the fallback width is never
      used and no `u16` conversion loses anything. */
  lemma ContentFootprint(reading: Option<Reading>, config: Config)
    requires reading.Some? ==> ValidCharge(reading.value.charge)
    ensures var lines := Content(reading, config);
      && MaxWidth(lines).Some?
      && MaxWidth(lines).value <= |NoBatteryText|
      && Footprint(lines) == Area(MaxWidth(lines).value + 2, |lines|)
  {
    var lines := Content(reading, config);
    if reading.Some? {
      PercentTextWidth(reading.value.charge);
    }
    assert forall i :: 0 <= i < |lines| ==> Width(lines[i]) <= |NoBatteryText|;
  }

  // ---------------------------------------------------------------------
  // End-to-end frames

  /** 75%, charging, no flags: the single line "75%" in green. */
  lemma PlainFrameAt75()
    ensures Content(Some(Reading(75.0, Charging)), Config(false, false)) == [Line("75%", Green)]
  {
    assert Rounding.RoundHalfEven(75.0) == 75;
    assert DecimalString(75) == "75";
    assert PercentText(75.0) == "75%";
  }

  /** 15%, discharging, both flags: label, a red bar with two of ten cells
      filled, "15%" in red, then "Discharging" in grey. */
  lemma FullFrameAt15()
    ensures Content(Some(Reading(15.0, Discharging)), Config(true, true))
      == [ LabelLine,
           Line(Bar(2), Red),
           Line("15%", Red),
           Line("Discharging", DarkGray) ]
  {
    assert Rounding.RoundHalfEven(15.0) == 15;
    assert DecimalString(15) == "15";
    assert PercentText(15.0) == "15%";
    assert Filled(15.0) == 2;
  }

  /** The text and the bar round a tie differently: 2.5% reads "2%" while
      25% fills three cells rather than two. */
  lemma PercentTextTies()
    ensures PercentText(2.5) == "2%"
    ensures PercentText(3.5) == "4%"
    ensures Filled(25.0) == 3
  {
    assert Rounding.RoundHalfEven(2.5) == 2;
    assert Rounding.RoundHalfEven(3.5) == 4;
  }
}
