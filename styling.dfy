/**
 * Styling of one earthquake marker: the depth-to-colour ladder, the
 * magnitude-to-radius rule and the style record built from a feature of the
 * USGS earthquake feed.
 */
module Styling {
  import opened Optional

  /** The ladder's thresholds in km, shallowest first; every comparison with them is strict. */
  const Thresholds: seq<real> := [10.0, 30.0, 50.0, 70.0, 90.0]

  /** The ladder's six colours, from the shallowest band to the deepest. */
  const LadderColors: seq<string> := ["#00ff00", "#66ff66", "#ccff33", "#ffcc00", "#ff6600", "#ff0000"]

  /** Fill colour of a marker at `depth` km: the first threshold the depth lies strictly above decides. */
  function GetColor(depth: real): (c: string)
    ensures c in LadderColors
  {
    if depth > 90.0 then "#ff0000"
    else if depth > 70.0 then "#ff6600"
    else if depth > 50.0 then "#ffcc00"
    else if depth > 30.0 then "#ccff33"
    else if depth > 10.0 then "#66ff66"
    else "#00ff00"
  }

  /** How many of `ts` the depth lies strictly above. */
  function Exceeded(ts: seq<real>, depth: real): (n: nat)
    ensures n <= |ts|
  {
    if ts == [] then 0 else (if depth > ts[0] then 1 else 0) + Exceeded(ts[1..], depth)
  }

  /** Band of a depth, 0 for the shallowest and 5 for the deepest: the number of thresholds it exceeds. */
  function Band(depth: real): (b: nat)
    ensures b < |LadderColors|
  {
    Exceeded(Thresholds, depth)
  }

  /** Position of `c` in `s`: its first occurrence. */
  function IndexOf(s: seq<string>, c: string): (k: nat)
    requires c in s
    ensures k < |s| && s[k] == c
    ensures forall j :: 0 <= j < k ==> s[j] != c
  {
    if s[0] == c then 0 else 1 + IndexOf(s[1..], c)
  }

  /** The ladder and the band count agree: a depth gets the colour of its band. */
  lemma GetColorIsBandColor(depth: real)
    ensures GetColor(depth) == LadderColors[Band(depth)]
  {
    var t := Thresholds;
    assert t[1..] == [30.0, 50.0, 70.0, 90.0] && t[2..] == [50.0, 70.0, 90.0];
    assert t[3..] == [70.0, 90.0] && t[4..] == [90.0] && t[5..] == [];
    assert t[1..][1..] == t[2..] && t[2..][1..] == t[3..] && t[3..][1..] == t[4..] && t[4..][1..] == t[5..];
    var e4 := if depth > 90.0 then 1 else 0;
    var e3 := (if depth > 70.0 then 1 else 0) + e4;
    var e2 := (if depth > 50.0 then 1 else 0) + e3;
    var e1 := (if depth > 30.0 then 1 else 0) + e2;
    assert Exceeded(t[4..], depth) == e4;
    assert Exceeded(t[3..], depth) == e3;
    assert Exceeded(t[2..], depth) == e2;
    assert Exceeded(t[1..], depth) == e1;
    assert Band(depth) == (if depth > 10.0 then 1 else 0) + e1;
  }

  /** Each colour of the ladder is taken exactly on its band, boundaries going to the shallower band. */
  lemma GetColorBands(depth: real)
    ensures GetColor(depth) == "#ff0000" <==> depth > 90.0
    ensures GetColor(depth) == "#ff6600" <==> 70.0 < depth <= 90.0
    ensures GetColor(depth) == "#ffcc00" <==> 50.0 < depth <= 70.0
    ensures GetColor(depth) == "#ccff33" <==> 30.0 < depth <= 50.0
    ensures GetColor(depth) == "#66ff66" <==> 10.0 < depth <= 30.0
    ensures GetColor(depth) == "#00ff00" <==> depth <= 10.0
  {
  }

  /** A depth in band `b` lies above the threshold below the band and at most the one above it. */
  lemma BandInterval(depth: real)
    ensures Band(depth) > 0 ==> Thresholds[Band(depth) - 1] < depth
    ensures Band(depth) < |Thresholds| ==> depth <= Thresholds[Band(depth)]
  {
    GetColorIsBandColor(depth);
    GetColorBands(depth);
  }

  /** A depth exactly on a threshold falls in the band below it. */
  lemma StrictBoundaries()
    ensures GetColor(90.0) == "#ff6600" && GetColor(70.0) == "#ffcc00" && GetColor(50.0) == "#ccff33"
    ensures GetColor(30.0) == "#66ff66" && GetColor(10.0) == "#00ff00"
  {
  }

  lemma {:induction false} ExceededMonotone(ts: seq<real>, d1: real, d2: real)
    requires d1 <= d2
    ensures Exceeded(ts, d1) <= Exceeded(ts, d2)
  {
    if ts != [] {
      ExceededMonotone(ts[1..], d1, d2);
    }
  }

  /** A deeper earthquake never gets a colour lower in the ladder. */
  lemma GetColorMonotone(d1: real, d2: real)
    requires d1 <= d2
    ensures Band(d1) <= Band(d2)
    ensures IndexOf(LadderColors, GetColor(d1)) <= IndexOf(LadderColors, GetColor(d2))
  {
    ExceededMonotone(Thresholds, d1, d2);
    GetColorIsBandColor(d1);
    GetColorIsBandColor(d2);
    LadderIndex(Band(d1));
    LadderIndex(Band(d2));
  }

  lemma LadderIndex(b: nat)
    requires b < |LadderColors|
    ensures IndexOf(LadderColors, LadderColors[b]) == b
  {
  }

  /** Radius of a marker for `magnitude`: three times the magnitude, or 1 when it is not positive. */
  function GetRadius(magnitude: real): (r: real)
    ensures r > 0.0
  {
    if magnitude > 0.0 then magnitude * 3.0 else 1.0
  }

  /** Width of the circle drawn for `magnitude`: twice the marker's radius. */
  function MarkerDiameter(magnitude: real): (w: real)
    ensures w > GetRadius(magnitude) > 0.0
  {
    2.0 * GetRadius(magnitude)
  }

  /** A positive magnitude gets three times its value as radius. */
  lemma RadiusOnPositive(m: real)
    requires 0.0 < m
    ensures GetRadius(m) == 3.0 * m
  {
  }

  /** On positive magnitudes the radius grows strictly. */
  lemma RadiusStrictlyIncreasing(m1: real, m2: real)
    requires 0.0 < m1 < m2
    ensures GetRadius(m1) < GetRadius(m2)
  {
  }

  /** Every non-positive magnitude gets the same radius, 1. */
  lemma RadiusOnNonPositive(m: real)
    requires m <= 0.0
    ensures GetRadius(m) == 1.0
  {
  }

  /** The guard does not keep the radius monotone: a magnitude just above 0 is drawn smaller than 0. */
  lemma RadiusDropsAboveZero()
    ensures GetRadius(0.1) < GetRadius(0.0)
  {
  }

  /** An earthquake of the feed: magnitude (null in some records), place and [longitude, latitude, depth]. */
  datatype Feature = Feature(mag: Option<real>, place: string, coords: seq<real>)

  /** Path options of a circle marker. */
  datatype Style = Style(
    opacity: real,
    fillOpacity: real,
    fillColor: string,
    color: string,
    radius: real,
    stroke: bool,
    weight: real)

  /** The third coordinate, when the feature has one. */
  function Depth(f: Feature): (d: Option<real>)
    ensures d.Some? <==> |f.coords| >= 3
    ensures d.Some? ==> d.value == f.coords[2]
  {
    if |f.coords| >= 3 then Some(f.coords[2]) else None
  }

  /**
   * Style of the marker for `f`. A missing depth or a null magnitude makes
   * every `>` comparison false in JavaScript, so the ladder falls through to
   * its last colour and the radius rule to 1.
   */
  function StyleInfo(f: Feature): (s: Style)
    ensures s.opacity == 1.0 && s.fillOpacity == 1.0 && s.color == "#000000"
    ensures s.stroke && s.weight == 0.5
    ensures s.fillColor in LadderColors && s.radius > 0.0
    ensures Depth(f).Some? ==> s.fillColor == LadderColors[Band(Depth(f).value)]
    ensures Depth(f).None? ==> s.fillColor == "#00ff00"
    ensures f.mag.None? || f.mag.value <= 0.0 ==> s.radius == 1.0
    ensures f.mag.Some? && f.mag.value > 0.0 ==> s.radius / 3.0 == f.mag.value
  {
    var fill := match Depth(f) case Some(d) => GetColor(d) case None => "#00ff00";
    var radius := match f.mag case Some(m) => GetRadius(m) case None => 1.0;
    GetColorIsBandColor(if Depth(f).Some? then Depth(f).value else 0.0);
    Style(1.0, 1.0, fill, "#000000", radius, true, 0.5)
  }

  /** Only the magnitude and the depth affect the style: not the place, not the position. */
  lemma StyleInfoDependsOnMagAndDepth(f1: Feature, f2: Feature)
    requires f1.mag == f2.mag && Depth(f1) == Depth(f2)
    ensures StyleInfo(f1) == StyleInfo(f2)
  {
  }

  /** A missing depth is styled as the shallowest band and a null magnitude as a non-positive one. */
  lemma MissingFieldsFallThrough(f: Feature)
    ensures Depth(f).None? ==> StyleInfo(f).fillColor == GetColor(0.0)
    ensures f.mag.None? ==> StyleInfo(f).radius == GetRadius(0.0)
  {
  }

  /** A shallow magnitude-4.2 earthquake at 12.4 km gets the second colour and radius 12.6. */
  lemma SampleFeatureStyle()
    ensures StyleInfo(Feature(Some(4.2), "10km N of X", [-120.1, 38.2, 12.4])).fillColor == "#66ff66"
    ensures StyleInfo(Feature(Some(4.2), "10km N of X", [-120.1, 38.2, 12.4])).radius == 12.6
  {
  }
}
