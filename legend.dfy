/**
 * Content of the map legend: a heading, one row per depth band with its
 * colour swatch and label, a second heading, and one row per sample magnitude
 * with a circular swatch sized like a marker.
 */
module Legend {
  import opened Optional
  import opened Styling
  import opened Numerals

  /** Lower bounds of the depth bands shown, in km. */
  const Depths: seq<int> := [-10, 10, 30, 50, 70, 90]

  /** Swatch colour of each depth band, in the order of `Depths`. */
  const Colors: seq<string> := ["#00ff00", "#66ff66", "#ccff33", "#ffcc00", "#ff6600", "#ff0000"]

  /** Sample magnitudes shown with a swatch each. */
  const Magnitudes: seq<real> := [5.4, 5.5, 6.0, 6.1, 6.9, 7.0, 7.9, 8.0]

  const DepthHeading: string := "<strong>Depth (km)</strong><br>"
  const MagnitudeHeading: string := "<br><strong>Magnitude</strong><br>"

  /**
   * One piece appended to the legend. A depth row with no upper bound is the
   * open-ended last band, labelled with a trailing "+"; a magnitude row's
   * swatch is `size` pixels wide and high.
   */
  datatype Row =
    | Heading(html: string)
    | DepthRow(swatch: string, lower: int, upper: Option<int>)
    | MagnitudeRow(size: real, magnitude: real)

  /** `s[i]` as JavaScript reads it: `undefined` past the end. */
  function At(s: seq<int>, i: nat): (v: Option<int>)
    ensures v.Some? <==> i < |s|
    ensures v.Some? ==> v.value == s[i]
  {
    if i < |s| then Some(s[i]) else None
  }

  /** JavaScript truthiness of a number or `undefined`: `undefined` and 0 are falsy. */
  predicate Truthy(v: Option<int>)
    ensures v.None? ==> !Truthy(v)
    ensures v == Some(0) ==> !Truthy(v)
    ensures v.Some? && v.value != 0 ==> Truthy(v)
  {
    v.Some? && v.value != 0
  }

  /** The row for band `i`: bounded by the next lower bound when there is one. */
  function DepthRowAt(i: nat): Row
    requires i < |Depths|
  {
    DepthRow(Colors[i], Depths[i], if i + 1 < |Depths| then Some(Depths[i + 1]) else None)
  }

  function MagnitudeRowAt(i: nat): Row
    requires i < |Magnitudes|
  {
    MagnitudeRow(Magnitudes[i] * 3.0, Magnitudes[i])
  }

  /** The legend, row by row. */
  function LegendRows(): seq<Row>
  {
    [Heading(DepthHeading)]
      + seq(|Depths|, i requires 0 <= i < |Depths| => DepthRowAt(i))
      + [Heading(MagnitudeHeading)]
      + seq(|Magnitudes|, i requires 0 <= i < |Magnitudes| => MagnitudeRowAt(i))
  }

  /** Text after a depth swatch: "a &ndash; b<br>" for a bounded band, "a+" for the last. */
  function Label(row: Row): (s: string)
    requires row.DepthRow?
    ensures row.upper.Some? ==> s == IntToString(row.lower) + " &ndash; " + IntToString(row.upper.value) + "<br>"
    ensures row.upper.None? ==> s == IntToString(row.lower) + "+"
  {
    IntToString(row.lower)
      + (if row.upper.Some? then " &ndash; " + IntToString(row.upper.value) + "<br>" else "+")
  }

  /** Whether `depth` lies in the band a depth row describes: above its lower bound, up to its upper one. */
  predicate InBand(row: Row, depth: real)
    requires row.DepthRow?
  {
    row.lower as real < depth && (row.upper.None? || depth <= row.upper.value as real)
  }

  /** When no element after the first is 0, the truthiness test on `s[i + 1]` asks whether `i` is the last index. */
  lemma TruthyNextIffNotLast(s: seq<int>, i: nat)
    requires forall k :: 0 < k < |s| ==> s[k] != 0
    ensures Truthy(At(s, i + 1)) <==> i + 1 < |s|
  {
  }

  /** Builds the legend's rows with the two loops of the legend control. */
  method OnAdd() returns (rows: seq<Row>)
    ensures rows == LegendRows()
  {
    var depths := Depths;
    var colors := Colors;
    rows := [Heading(DepthHeading)];
    for i := 0 to |depths|
      invariant |rows| == 1 + i && rows[0] == Heading(DepthHeading)
      invariant forall k :: 0 <= k < i ==> rows[1 + k] == DepthRowAt(k)
    {
      var next := At(depths, i + 1);
      TruthyNextIffNotLast(depths, i);
      rows := rows + [DepthRow(colors[i], depths[i], if Truthy(next) then next else None)];
    }

    var magnitudes := Magnitudes;
    rows := rows + [Heading(MagnitudeHeading)];
    for i := 0 to |magnitudes|
      invariant |rows| == 8 + i && rows[0] == Heading(DepthHeading) && rows[7] == Heading(MagnitudeHeading)
      invariant forall k :: 0 <= k < |depths| ==> rows[1 + k] == DepthRowAt(k)
      invariant forall k :: 0 <= k < i ==> rows[8 + k] == MagnitudeRowAt(k)
    {
      rows := rows + [MagnitudeRow(magnitudes[i] * 3.0, magnitudes[i])];
    }
    assert forall k :: 0 <= k < |rows| ==> rows[k] == LegendRows()[k];
  }

  /** Exactly six depth rows, at positions 1 to 6, then exactly eight magnitude rows, at positions 8 to 15, in the literal orders. */
  lemma LegendLayout()
    ensures |LegendRows()| == 16
    ensures LegendRows()[0] == Heading(DepthHeading) && LegendRows()[7] == Heading(MagnitudeHeading)
    ensures forall i :: 0 <= i < 16 ==> (LegendRows()[i].DepthRow? <==> 1 <= i <= 6)
    ensures forall i :: 0 <= i < 16 ==> (LegendRows()[i].MagnitudeRow? <==> 8 <= i <= 15)
    ensures forall i :: 0 <= i < 6 ==> LegendRows()[1 + i].lower == Depths[i]
    ensures forall i :: 0 <= i < 8 ==> LegendRows()[8 + i].magnitude == Magnitudes[i]
    ensures Colors == LadderColors
    ensures forall i :: 0 <= i < |Thresholds| ==> Depths[i + 1] as real == Thresholds[i]
  {
  }

  /** Every depth in a row's band gets that row's swatch colour from the marker ladder. */
  lemma LegendMatchesLadder(i: nat, depth: real)
    requires i < |LegendRows()| && LegendRows()[i].DepthRow?
    requires InBand(LegendRows()[i], depth)
    ensures GetColor(depth) == LegendRows()[i].swatch
  {
  }

  /** Every depth above the first bound lies in exactly one row's band: the row of its ladder band. */
  lemma LegendBandsPartition(depth: real, j: nat)
    requires depth > Depths[0] as real
    ensures 1 + Band(depth) < |LegendRows()| && LegendRows()[1 + Band(depth)].DepthRow?
    ensures InBand(LegendRows()[1 + Band(depth)], depth)
    ensures j < |LegendRows()| && LegendRows()[j].DepthRow? && InBand(LegendRows()[j], depth) ==> j == 1 + Band(depth)
  {
    BandInterval(depth);
  }

  /** The labels read "-10 &ndash; 10<br>" up to "70 &ndash; 90<br>", then "90+". */
  lemma LegendLabels()
    ensures Label(LegendRows()[1]) == "-10 &ndash; 10<br>"
    ensures Label(LegendRows()[2]) == "10 &ndash; 30<br>"
    ensures Label(LegendRows()[3]) == "30 &ndash; 50<br>"
    ensures Label(LegendRows()[4]) == "50 &ndash; 70<br>"
    ensures Label(LegendRows()[5]) == "70 &ndash; 90<br>"
    ensures Label(LegendRows()[6]) == "90+"
  {
    DepthNumerals();
    var rows := LegendRows();
    assert rows[1] == DepthRow(Colors[0], -10, Some(10));
    assert rows[2] == DepthRow(Colors[1], 10, Some(30));
    assert rows[3] == DepthRow(Colors[2], 30, Some(50));
    assert rows[4] == DepthRow(Colors[3], 50, Some(70));
    assert rows[5] == DepthRow(Colors[4], 70, Some(90));
    assert rows[6] == DepthRow(Colors[5], 90, None);
  }

  /** The bounds print as JavaScript prints them. */
  lemma DepthNumerals()
    ensures IntToString(-10) == "-10" && IntToString(10) == "10" && IntToString(30) == "30"
    ensures IntToString(50) == "50" && IntToString(70) == "70" && IntToString(90) == "90"
  {
    TwoDigits(10);
    TwoDigits(30);
    TwoDigits(50);
    TwoDigits(70);
    TwoDigits(90);
  }

  /**
   * Each magnitude swatch is a circle whose width, `size`, equals the marker
   * radius for that magnitude, so the swatch has half the marker's diameter.
   */
  lemma MagnitudeSwatchIsRadius(i: nat)
    requires i < |LegendRows()| && LegendRows()[i].MagnitudeRow?
    ensures LegendRows()[i].magnitude > 0.0
    ensures LegendRows()[i].size == GetRadius(LegendRows()[i].magnitude)
    ensures MarkerDiameter(LegendRows()[i].magnitude) == 2.0 * LegendRows()[i].size
  {
  }
}
