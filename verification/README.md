# PM2.5 proportional-symbol engine, modelled in Dafny

The repository draws a Leaflet map of cities with circle markers for PM2.5.
Each circle's size and colour encode one of three values for the selected
year (1998–2019): the value itself, its change from the city's 1998–2000
baseline, or that change in percent. Three near-identical scripts do this.
`js/main-4.js` is the most complete. `js/main-2.js` is the same engine
without the legend. `js/main-3.js` is an earlier draft.

This project models the pure part shared by the scripts:

- `jsnumber.dfy` (`JsNumber`): JavaScript numbers as finite, ±Infinity or
  NaN, with the operations the scripts use, JS `>=`, and `parseInt` on a
  number (truncation toward zero).
- `encoder.dfy` (`Encoder`): the symbol area `|v| * 5` behind
  `calcPropRadius`, and the three colour step functions of main-2/main-4.
  Each step function is written as the script's if/else chain. It is proved
  equal to a reference definition: `palette[Rank(thresholds, v)]`, where
  `Rank` counts the thresholds that `v` does not reach.
- `metrics.dfy` (`Metrics`): features, the 22 attribute keys, the
  truthiness guard, the baseline, the change and the percent change.
- `stepper.dfy` (`Stepper`): the wrap-around year index.
- `symbols.dfy` (`Symbols`): the map's layers and the `map.eachLayer`
  restyle pass, which is a pure map over a sequence of layers.
- `controller.dfy` (`Controller`): main-4/main-2's `updatePropSymbols` mode
  dispatch, the `selectVizType` buttons, the `manageSequence` handlers as a
  state machine over (year index, mode), and the first rendering.
- `early.dfy` (`EarlyVariant`): main-3's palettes, its reversed-sign change
  coloured on the absolute scale, its year buttons, and its mode buttons,
  which restyle under the key "undefined" and throw after the first marker
  they restyle.
- `extremes.dfy` (`Extremes`): main-4's `getMax`/`getMin` scans.

js/main-2.js does the same as js/main-4.js in everything modelled here.
`calcPropRadius` and the colour functions sit at lines 33–79 in both
files. The year-button logic is at js/main-2.js:217–236 and
js/main-4.js:222–241. So main-2 shares the `Encoder`, `Metrics`, `Stepper`
and `Controller` members. Where it differs, it lacks the legend and the
`getMax`/`getMin` scans that feed it.

The radius Leaflet draws is `sqrt(area / PI)`. The model keeps the area and
states the radius properties (non-negative, zero exactly at 0, symmetric,
non-decreasing in |v|) on it. The square root of `area / PI` for a positive
PI is strictly increasing, so the same properties hold of the radius.

The scripts do not guard these cases, and the model follows them:

- The code does not guard a zero baseline. With a positive value,
  percent change is +Infinity and the symbol gets the top bucket.
- A missing base-year value makes every derived value NaN. A NaN value gets
  the bottom bucket of every scale (`Encoder.RankNonFinite`).
- Features whose value for the year is missing or zero keep whatever style
  they had before.

## Model

| member | source | states |
|---|---|---|
| JsNumber.Trunc | js/main-4.js:260 | `parseInt` of a number: an integer with the same sign and within 1 of it, never larger in magnitude |
| Encoder.AreaOf | js/main-4.js:33-42 | the symbol area is non-negative and zero exactly when the value is zero |
| Encoder.PropArea | js/main-4.js:37 | on a JS number the area is finite for finite values, NaN for NaN, and +Infinity for either infinity; it is never -Infinity |
| Encoder.AreaDependsOnMagnitude | js/main-4.js:33-42 | the size depends only on abs(v): equal magnitudes give equal areas, so r(v) == r(-v), and a larger magnitude never gives a smaller one |
| Encoder.CalcColorBucket | js/main-4.js:46-54 | `calcColor` is total: every number, NaN included, gets the palette colour at its rank on the descending thresholds 100/75/50/25/10 |
| Encoder.RankNonFinite | js/main-4.js:46-79 | on every threshold list NaN and -Infinity fail each `>=` and land in the last bucket, +Infinity passes the first and lands in the first bucket |
| Encoder.CalcColorMonotone | js/main-4.js:46-54 | a larger value never lands in a lighter bucket of `calcColor`, and two values share a colour exactly when they share a bucket |
| Encoder.CalcColorChangeBucket | js/main-4.js:56-66 | `calcColorChange` is the step function over 50/25/10/0/-10/-25/-50 with its eight-entry palette |
| Encoder.CalcColorPctChangeBucket | js/main-4.js:69-79 | `calcColorPctChange` is the step function over the same thresholds with its own palette |
| Encoder.ChangeColoursMonotone | js/main-4.js:56-79 | for both change scales a larger value never gets a higher rank, and each colour is the palette entry at the value's rank |
| Encoder.ChangeBelowMinus25 | js/main-4.js:62-65 | in `calcColorChange` a value gets '#66bd63' exactly when it does not reach -25, so the -50 threshold changes nothing |
| Metrics.Value | js/main-4.js:137 | `Number(props[attribute])` is finite exactly when the property is present, and NaN otherwise |
| Metrics.Baseline | js/main-4.js:138 | the baseline is finite exactly when all three base years are present; three times it is their sum; otherwise it is NaN |
| Metrics.BaselineBetween | js/main-4.js:138 | the baseline is a mean: it lies between the smallest and largest base-year value and equals them when they agree |
| Metrics.Change | js/main-4.js:139 | change plus baseline gives back the current value; NaN in either gives NaN |
| Metrics.PctChangeIsRelative | js/main-4.js:140 | with a non-zero baseline, `(histAvg - curVal)/histAvg*-100` equals change/baseline*100; its product with the baseline is positive exactly for an increase, so for a positive baseline an increase gives a positive percent change and for a negative baseline a negative one |
| Metrics.UnguardedBaseline | js/main-4.js:138-140 | a zero baseline gives ±Infinity with the sign of the value; a NaN baseline gives NaN change and percent change |
| Metrics.WorkedExample | js/main-4.js:137-140 | with base years 50/60/70 and 80 in 2005: baseline 60, change 20, percent change 100/3 |
| Stepper.Forward | js/main-4.js:227-230 | "Next Year" moves to (i + 1) mod 22 and stays within 0..21 |
| Stepper.Reverse | js/main-4.js:232-235 | "Previous Year" moves to (i + 21) mod 22 and stays within 0..21 |
| Stepper.StepsAreInverse | js/main-4.js:227-235 | forward after reverse and reverse after forward are the identity; 21 goes forward to 0 and 0 goes back to 21 |
| Stepper.AdvanceIsModular | js/main-4.js:227-230 | n presses of "Next Year" move n positions around the 22-year cycle |
| Stepper.FullCycle | js/main-4.js:227-230 | for 1 to 22 presses of "Next Year", the slider is back at its start exactly after 22 |
| Symbols.Restyle | js/main-4.js:130-131 | the pass keeps length, layer kinds and features; only markers with a truthy value under the key are restyled, each from its own feature; everything else is unchanged |
| Symbols.RestyleIdempotent | js/main-4.js:129-170 | running the same pass twice equals running it once |
| Symbols.RestyleLastWins | js/main-4.js:129-170 | of two passes over the same key, the second one decides every style |
| Symbols.CreateMarkers | js/main-4.js:101-123 | one marker per feature, in order, each styled from its own feature |
| Controller.ModeOfButton | js/main-2.js:186-194 | button ids 'ppm', 'ppm_change' and 'ppm_pctChange' select "ppm_viz", "ppm_change" and "ppm_pctChange"; any other id selects nothing |
| Controller.ButtonsCoverModes | js/main-2.js:177-194 | each mode has exactly one button |
| Controller.UpdatePropSymbols | js/main-4.js:129-170 | selected markers get the mode's style from their own feature; every other layer is left as it was |
| Controller.AbsoluteStyle | js/main-4.js:142-147 | in "ppm_viz" mode the area and the colour both come from the current value: five times its magnitude, and its bucket on the absolute scale |
| Controller.ChangeStyle | js/main-4.js:139-153 | in "ppm_change" mode the area and the colour both come from current - baseline, with the change palette |
| Controller.PctChangeStyle | js/main-4.js:140-159 | in "ppm_pctChange" mode, with a non-zero baseline, the area and the colour both come from the relative change in percent, with the percent palette |
| Controller.MissingBaselineStyle | js/main-4.js:138-159 | a city missing a base year gets a NaN size and '#66bd63' in both change modes |
| Controller.Next | js/main-4.js:180-241 | mode buttons keep the year; year buttons and the slider keep the mode; clicks that call no update leave the state alone |
| Controller.Handle | js/main-4.js:180-252 | after any re-rendering event, every selected marker keeps its feature and shows the style the new state asks for; unselected layers are untouched; an event whose handler calls no update leaves every layer as it was |
| Controller.YearButtonsWrap | js/main-4.js:213-241 | forward from 2019 gives 1998 and reverse from 1998 gives 2019, with the mode kept; the year-label button, which is also a `.skip` button, changes nothing |
| Controller.SlideIdempotent | js/main-4.js:243-249 | choosing the same slider position twice draws the same symbols as choosing it once |
| Controller.ModeSwitchKeepsYear | js/main-2.js:181-194 | a mode switch keeps the slider index and redraws at that index; the result does not depend on the mode drawn before |
| Controller.SliderClickLastWins | js/main-4.js:243-249 | slider click handlers pile up, one per mode switch, and are never unbound; running them all equals one pass with the last mode chosen |
| Controller.BoundTracksMode | js/main-4.js:180-197 | every mode button binds one more slider handler with its mode, so the last handler bound always runs the mode the state records |
| Controller.SlideRunsBoundHandlers | js/main-4.js:243-249 | with the last handler in step with the state, running all bound slider handlers draws exactly what the state machine draws for the slider click |
| Controller.PageMatchesModel | js/main-4.js:180-252 | for any sequence of clicks, the page with its piled-up slider handlers reaches the same state and the same symbols as the state machine, and the handlers stay in step |
| Controller.StartIsConsistent | js/main-4.js:97-118 | after loading, every city has a marker that matches the start state (1998, absolute), and the one slider handler bound at js/main-4.js:426 runs "ppm_viz" |
| EarlyVariant.CalcColorBucket3 | js/main-3.js:41-49 | main-3's `calcColor` is total over the same six buckets 100/75/50/25/10, with its own palette |
| EarlyVariant.ChangeBucket3 | js/main-3.js:51-61 | main-3's `calcColorChange` is the step function over 50..-50 with its own eight-colour palette |
| EarlyVariant.ChangeScales3 | js/main-3.js:51-74 | main-3's `calcColorChange` and `calcColorPctChange` are the same function: a step function over 50..-50 into eight distinct colours, '#66bd63' at the top and '#67000d' at the bottom |
| EarlyVariant.ChangeValue | js/main-3.js:131-132 | the change is baseline - current: adding the current value gives back the baseline; a missing value or base year gives NaN |
| EarlyVariant.ChangeReversed | js/main-3.js:132 | for every city, NaN cases included, main-3's change is the negation of the later scripts' change |
| EarlyVariant.IncreaseLooksLikeNoChange | js/main-3.js:132-137 | coloured with the absolute palette, any rise and any fall of less than 10 get the lightest colour '#fff5f0' |
| EarlyVariant.CreatePropSymbols | js/main-3.js:89-102 | every city gets a marker styled from baseline - ppm_1998, with no truthiness guard |
| EarlyVariant.InitialStyleIsReversedChange | js/main-3.js:94-102 | for every city with all three base years, its first symbol's area and colour both come from baseline - ppm_1998 |
| EarlyVariant.UpdatePropSymbols | js/main-3.js:122-151 | selected markers get the reversed-change style from their own feature; everything else is unchanged |
| EarlyVariant.SkipClick | js/main-3.js:193-212 | a year button moves the index by one modulo 22 and restyles at the new attribute |
| EarlyVariant.SkipWraps | js/main-3.js:198-208 | next from 2019 gives 1998 and previous from 1998 gives 2019 |
| EarlyVariant.AttributeByName | js/main-3.js:166-172 | looking up a name with a non-digit character in the attribute array gives `undefined`, read as the property key "undefined" |
| EarlyVariant.PassUntilThrow | js/main-3.js:122-151 | restyling under the `undefined` attribute throws at the first selected marker: the pass throws exactly when some marker is selected, and keeps the number of layers |
| EarlyVariant.PassUntilThrowStopsAtFirst | js/main-3.js:123-141 | the throwing pass restyles the layers up to and including the first selected marker as the full pass would, and leaves every later layer as it was |
| EarlyVariant.PassUntilThrowWithoutSelection | js/main-3.js:123-124 | with no selected marker the pass neither throws nor changes anything |
| EarlyVariant.VizSelectClick | js/main-3.js:161-174 | an unknown button id changes nothing; each of the three mode buttons runs the throwing pass under the key "undefined" |
| EarlyVariant.VizSelectIsNoOp | js/main-3.js:161-174 | when no city has a property named "undefined", a mode-button click neither throws nor changes any layer |
| Extremes.GetMax | js/main-4.js:256-266 | returns -Infinity for no values; otherwise one of the values, whose whole part is at least every value's whole part |
| Extremes.GetMin | js/main-4.js:269-276 | returns +Infinity for no values; otherwise one of the values, whose whole part is at most every value's whole part |
| Extremes.ScanMaxIsTruncMax | js/main-4.js:256-266 | the loop's result for any prefix has the properties above; for whole-number values it is the true maximum |
| Extremes.ScanMinIsTruncMin | js/main-4.js:269-276 | symmetrically for the minimum; for whole-number values it is the true minimum |
| Extremes.FractionalValuesMislead | js/main-4.js:260-273 | for the values 10.2 then 10.7, `getMax` returns 10.2 and `getMin` returns 10.7 |
| Extremes.GetMaxFixed | js/main-4.js:256-266 | comparing the stored values themselves gives the true maximum, and -Infinity for no values |
| Extremes.GetMinFixed | js/main-4.js:269-276 | comparing the stored values themselves gives the true minimum, and +Infinity for no values |

## Findings

| source | as written | input that shows it | evidently intended | confidence | as-written member | corrected member |
|---|---|---|---|---|---|---|
| js/main-4.js:256-276 | `getMax`/`getMin` compare `parseInt(v)` with the stored raw value `max`/`min` | values 10.2 then 10.7: `getMax` gives 10.2 and `getMin` gives 10.7 | the largest and the smallest value (10.7 and 10.2) | medium, not executed; the legend rounds these to tens, so the visible effect is small | Extremes.GetMax, Extremes.FractionalValuesMislead | Extremes.GetMaxFixed, Extremes.GetMinFixed |

## Left out

- Map, tile layer, circle-marker and control construction, and jQuery
  button, slider and label wiring: foreign UI library calls. Events are
  modelled as values instead (`Controller.Event`).
- The AJAX load in `getData`: network I/O. The model starts from a
  sequence of features.
- Popup HTML, `toFixed(1)`, the popup offset and the `#curr_year` label
  text: presentation only.
- `createLegend`, `updateLegend` and `minMax1998`: legend DOM construction.
  `updateLegend` calls `legend.remove()` on its own hoisted local `legend`
  (js/main-4.js:347), which is still `undefined` there. So every main-4
  mode-button click ends in a TypeError. The error comes after the
  `manageSequence` call (js/main-4.js:187/191/196), so the state change and
  restyle that `Controller.Handle` models for a mode button have already
  happened; only the legend is left stale.
  `getMax`/`getMin`, which feed the legend, are modelled.
- `Math.sqrt` and `Math.PI`: the model keeps the area. IEEE rounding,
  overflow and signed zero are left out; every zero is +0.
- `Number()` of strings, and string concatenation in the baseline sum:
  properties are taken to be JSON numbers. The slider's value is taken to be
  an integer index.
- `console.log` calls and zoom-control placement.
- Encoder.AreaDependsOnMagnitude: states the size properties of the area, not of the radius `sqrt(area / PI)` itself, because the square root is not modelled.
- Controller.UpdatePropSymbols: `viz_type` is a string in the script, and one that matched none of the three names would restyle nothing. The model uses a three-valued mode, because every caller passes one of the three names.
- Extremes.GetMax: takes the values as reals, so `parseInt(undefined)` (NaN, never stored) for a missing property is not modelled.
- JsNumber.Trunc: truncates the number itself, while `parseInt` reads the number's string form; for numbers written in exponent notation (below 1e-6 or from 1e21 on, such as `parseInt(1e-7) == 1`) the two differ, and that is not modelled. PM2.5 values never reach that notation.
- Extremes.GetMin: relies on `JsNumber.Trunc`, so it shares the exponent-notation gap above; `Extremes.GetMax` shares it too.
- EarlyVariant.AttributeByName: ignores the array's non-index properties (`length`, prototype methods). None of them is a key of any city's properties, so the effect is the same.
- main-3's `calcColorChange` and `calcColorPctChange` are never called in that script; they are modelled for their own properties only. main-3's slider click runs `EarlyVariant.UpdatePropSymbols` at the slider's attribute.
