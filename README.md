# Earthquake marker styling and legend

A model of the styling logic of a Leaflet map of recent earthquakes
(`static/js/logic.js`). Each earthquake of the USGS weekly feed is drawn as a
circle marker whose fill colour comes from its depth, through a six-step
ladder of strict thresholds at 90, 70, 50, 30 and 10 km, and whose radius is
three times its magnitude, or 1 for a magnitude that is not positive. A legend
lists the six depth bands with their colour swatches and eight sample
magnitudes, each with a circular swatch whose width is the marker radius for
that magnitude. The swatch is therefore drawn at half the marker's diameter.

Modules:

- `Styling` (`styling.dfy`): `GetColor`, `GetRadius`, the `Feature` and
  `Style` records and `StyleInfo`. The ladder is checked against an
  independent definition, `Band` (the number of thresholds a depth lies
  strictly above), and proved monotone.
- `Legend` (`legend.dfy`): the rows appended by the legend control's two
  loops, as a `Row` datatype. `OnAdd` runs the loops as written, including
  the JavaScript truthiness test on `depths[i + 1]`. It is proved equal to
  `LegendRows`, an index-based definition. The lemmas prove that the legend
  agrees with the marker ladder band by band. They also prove that each
  magnitude swatch's width equals the marker radius, which makes the swatch
  half the marker's diameter.
- `Numerals` (`numerals.dfy`): how the legend's integral bounds print in
  decimal, with a parser and a round-trip lemma.
- `Optional` (`optional.dfy`): `Option`, for JavaScript `undefined`/`null`.

Depths and magnitudes are Dafny `real`s, so arithmetic is exact. A feature
whose coordinates lack a depth, or whose magnitude is `null`, is modelled
explicitly. In JavaScript every `>` against such a value is false, so the
ladder falls through to `#00ff00` and the radius rule to 1.

## Model

| member | source | states |
|---|---|---|
| `Styling.GetColor` | static/js/logic.js:45-52 | the colour is always one of the six ladder colours |
| `Styling.GetColorIsBandColor` | static/js/logic.js:45-52 | the early-return ladder gives the colour of the depth's band, where the band counts the thresholds the depth strictly exceeds |
| `Styling.GetColorBands` | static/js/logic.js:46-51 | each colour is returned exactly on its band (both directions): >90 red, (70,90] `#ff6600`, (50,70] `#ffcc00`, (30,50] `#ccff33`, (10,30] `#66ff66`, ≤10 `#00ff00` |
| `Styling.BandInterval` | static/js/logic.js:46-51 | a depth in band b lies strictly above the threshold below b and at most the one above it |
| `Styling.StrictBoundaries` | static/js/logic.js:46-50 | depths exactly 90, 70, 50, 30 and 10 get the colour of the shallower band |
| `Styling.GetColorMonotone` | static/js/logic.js:45-52 | a deeper earthquake never gets a colour lower in the ladder, by band and by position of the colour in ladder order |
| `Styling.GetRadius` | static/js/logic.js:55-57 | the radius is always strictly positive |
| `Styling.RadiusOnPositive` | static/js/logic.js:56 | every positive magnitude gets three times its value as radius |
| `Styling.RadiusStrictlyIncreasing` | static/js/logic.js:56 | on positive magnitudes the radius is strictly increasing |
| `Styling.MarkerDiameter` | static/js/logic.js:38 | a circle marker is drawn with twice its radius as width, which exceeds the radius |
| `Styling.RadiusOnNonPositive` | static/js/logic.js:56 | every magnitude ≤ 0 gets radius 1 |
| `Styling.RadiusDropsAboveZero` | static/js/logic.js:56 | the guard breaks monotonicity at 0: magnitude 0.1 is drawn smaller than magnitude 0 |
| `Styling.Depth` | static/js/logic.js:36 | the depth is the third coordinate, present exactly when the feature has at least three coordinates (otherwise `undefined`) |
| `Styling.StyleInfo` | static/js/logic.js:32-42 | opacity 1, fill opacity 1, stroke colour `#000000`, stroke on, weight 0.5; the fill is the colour of the depth's band (`#00ff00` without a depth); the radius is positive, a third of it is the magnitude when positive, and it is 1 for a missing or non-positive magnitude |
| `Styling.StyleInfoDependsOnMagAndDepth` | static/js/logic.js:32-42 | two features with the same magnitude and depth get the same style, whatever their place and position |
| `Styling.MissingFieldsFallThrough` | static/js/logic.js:36-38 | a missing depth is styled like a shallow one, a null magnitude like a non-positive one |
| `Styling.SampleFeatureStyle` | static/js/logic.js:32-42 | a magnitude-4.2 earthquake at 12.4 km gets `#66ff66` and radius 12.6 |
| `Legend.OnAdd` | static/js/logic.js:96-113 | the two loops produce exactly the rows of `LegendRows`: the depth heading, the six depth rows, the magnitude heading, the eight magnitude rows |
| `Legend.At` | static/js/logic.js:104 | `depths[i + 1]` is defined exactly when the index is in range, and is then that element; past the end it is `undefined` |
| `Legend.Truthy` | static/js/logic.js:104 | JavaScript truthiness of a number or `undefined`: `undefined` and 0 are falsy, every other number truthy |
| `Legend.Label` | static/js/logic.js:104 | the text after a depth swatch is the lower bound, " &ndash; ", the upper bound and "<br>" when there is an upper bound, and the lower bound followed by "+" otherwise |
| `Legend.TruthyNextIffNotLast` | static/js/logic.js:104 | when no bound after the first is 0, the truthiness test on `depths[i + 1]` holds exactly when row i is not the last |
| `Legend.LegendLayout` | static/js/logic.js:96-113 | 16 pieces: exactly six depth rows at positions 1–6 with lower bounds -10, 10, 30, 50, 70, 90 in order, then exactly eight magnitude rows with 5.4 … 8.0 in order; the swatch colours are the ladder colours and the bounds after the first are the ladder's thresholds |
| `Legend.LegendMatchesLadder` | static/js/logic.js:96-104 | every depth inside a row's band (lower, upper], or above 90 for the last row, gets that row's swatch colour from `GetColor` |
| `Legend.LegendBandsPartition` | static/js/logic.js:96-104 | every depth above -10 lies in exactly one legend band, the one of its ladder band |
| `Legend.LegendLabels` | static/js/logic.js:104 | the labels read "-10 &ndash; 10<br>", "10 &ndash; 30<br>", …, "70 &ndash; 90<br>", then "90+" |
| `Legend.DepthNumerals` | static/js/logic.js:104 | the bounds print as "-10", "10", "30", "50", "70", "90" |
| `Legend.MagnitudeSwatchIsRadius` | static/js/logic.js:107-112 | every sample magnitude is positive; its swatch width (m·3) equals the marker radius `GetRadius(m)`, so the marker's diameter is twice the swatch's |
| `Numerals.IntToString` | static/js/logic.js:104 | a bound prints as a non-empty string of digits, with a leading minus exactly when negative and no leading zero unless the number is 0 |
| `Numerals.IntToStringRoundTrip` | static/js/logic.js:104 | parsing a printed bound gives the bound back |
| `Numerals.IntToStringInjective` | static/js/logic.js:104 | distinct bounds print as distinct labels |

## Left out

- Map and base tile layer setup (static/js/logic.js:3-14): calls into Leaflet, whose code is not part of this model.
- The two `d3.json` fetches and their continuations (static/js/logic.js:25, 123): network I/O and asynchronous sequencing.
- `L.geoJson`, `L.circleMarker`, `pointToLayer`, layer groups and `addTo` (static/js/logic.js:18-19, 60-77, 125-130): rendering calls into Leaflet.
- The popup HTML (static/js/logic.js:69-73): it depends on JavaScript number formatting and is not modelled.
- Creating and styling the legend `div`, the layer control and `console.log` (static/js/logic.js:27, 86-93, 133-138): DOM and UI side effects.
- Legend.OnAdd: rows are modelled as structured values, not as the HTML text appended to `innerHTML`. The inline-style markup of the swatches and the printing of the magnitudes (JavaScript prints `6.0` as "6" and `5.4 * 3` with a floating-point tail) are not modelled. The depth labels, whose bounds are integers, are rendered.
- GetRadius: IEEE-754 rounding of `magnitude * 3` is not modelled; magnitudes are exact reals.
- StyleInfo: a feature without `properties` or `geometry` makes the JavaScript throw; the model's `Feature` always has both.
