# The Trains: Marey projection and map-glyph arithmetic

A Dafny model of the data logic under the "The Trains" visualisation of
Boston's subway. It covers two files:

- `scripts/the-trains.js` draws the Marey (time–distance) diagram. The model
  covers the following parts of it:
  - how a trip's stops become `[x, y]` points, or gaps;
  - the `station|32` label keys and the station-name dictionary;
  - the `lastWidth` re-render guard and the memoised `origY` anchor of each path;
  - the inverse dictionary from a header ordinate to its station key;
  - the strict horizontal gate of `selectTime`;
  - the set of titles `highlightMareyTitle` marks, and the label-visibility predicate built on it;
  - the highlighted and hovered trip.
- `scripts/header.js` draws the map glyph. The model covers:
  - the uniform scale that fits the station network into the glyph;
  - the position written into each node, and the svg's size;
  - the end-dot radius;
  - the interpolation between two station positions;
  - the animation clock's step, which advances 6 simulated seconds or wraps to the start.

The model has five modules:

- `Collections` (collections.dfy): the JavaScript and underscore idioms the code relies on.
  - `Option` stands for `null`.
  - `_.flatten` and `_.unique` are modelled as functions.
  - `LastWins` is the dictionary that a `forEach` loop writing `d[k] = v` leaves behind.
- `Scales` (scales.dfy): d3 version 3's linear scale, over `real`.
  - `Apply` and `Invert`, each with or without clamping.
  - A zero-width domain sends every input to the start of the range.
- `Marey` (marey.dfy): the pure projection, the key and name preparation, the inverse map, the hover functions and the title set.
- `MareyView` (marey_view.dfy): the state the diagram keeps between renders, as classes.
- `MapGlyph` (map_glyph.dfy): the glyph's layout arithmetic, the in-place position write, and the animation clock.

The scales reach `GetPointsFromStop` as arbitrary functions `real -> real`.
Where a property needs the diagram's real scales, they are `Scales.LinearScale`
values:

- the x scale maps the header's ordinate extent onto `[0, outerWidth - 270]`, without clamping;
- the time scale maps `[minTime, maxTime]` onto `[15, 2900]`, with clamping.

Where the written description of the program and its code disagree, the model
follows the code:

- A stop whose `stop|line` key is missing from the header makes
  `getPointsFromStop` throw. It is not skipped. `Marey.Projectable` states
  this as a precondition.
- y is measured from the scaled time of the trip's first stop, for the full
  and the lined-up diagram alike.
- `drawMap` writes `pos = [x * scale, y * scale]`. It does not subtract the
  extent's minimum, so positions are scaled but not translated into the box.
  `MapGlyph.PositionInBox` states what does hold.
- The animation wraps to exactly `minUnixSeconds` one tick after the cursor
  has passed `maxUnixSeconds`. It does not wrap to the start plus the
  overshoot, so the cursor can reach `max + 6` before it wraps.
- The diagram's time scale is clamped. Its inverse therefore never leaves the
  service day.

## Model

| member | source | states |
|---|---|---|
| Collections.FlattenSingletons | scripts/the-trains.js:236-240 | wrapping each stop in a one-element list (`Singletons`) and flattening gives back the stops exactly, order and gaps included |
| Collections.Flatten | scripts/the-trains.js:240 | definition of `_.flatten` on lists of lists; `FlattenSingletons` states what it does to the wrapped stops |
|  Collections.Unique | scripts/the-trains.js:48 | `_.unique` keeps exactly the elements of its input and repeats none  |
|  Collections.UniqueOfDistinct | scripts/the-trains.js:48 | on input without repetitions, `_.unique` is the identity  |
|  Collections.LastWins | scripts/the-trains.js:123-126 | a dictionary filled by a loop has exactly the keys written, and each value was written under its key  |
|  Collections.LastWinsSnoc | scripts/the-trains.js:124-126 | one more loop iteration updates exactly one key  |
|  Collections.LastWinsValue | scripts/the-trains.js:124-126 | a key holds the value of the last write under that key  |
|  Scales.Clamp | scripts/the-trains.js:111 | clamping lands in the interval and leaves values already inside unchanged  |
|  Scales.Uninterpolate | scripts/the-trains.js:104-111 | a clamped fraction lies in [0, 1]; a zero-width domain gives 0  |
|  Scales.Interpolate | scripts/header.js:25 | interpolation is `a + t * (b - a)`  |
| Scales.Apply | scripts/the-trains.js:104-111 | `scale(v)`; a zero-width domain sends every value to the start of the range, as d3 does by dividing by infinity; the lemmas below state its ends, range, order and slope |
| Scales.AsFunction | scripts/the-trains.js:183 | the scale handed to `draw` and `getPointsFromStop` as a plain function; definition only |
| Scales.Invert | scripts/the-trains.js:209-221 | `scale.invert(y)`; a zero-height range sends every pixel to the start of the domain; `ApplyInvert` and `InvertApply` relate it to `Apply` |
|  Scales.UninterpolateInterpolate | scripts/the-trains.js:104-111 | the fraction of an interpolated value is the fraction used  |
|  Scales.InterpolateUninterpolate | scripts/the-trains.js:209 | interpolating by a value's fraction gives back the value  |
|  Scales.InterpolateBetween | scripts/the-trains.js:107-111 | a fraction in [0, 1] lands between the two ends  |
|  Scales.FractionPosition | scripts/the-trains.js:221 | a value below, inside or above `[a, b]` has a fraction below, inside or above [0, 1]  |
| Scales.QuotientBounds | scripts/the-trains.js:221 | dividing by a positive width keeps a value's position relative to 0 and the width as the quotient's position relative to 0 and 1 |
|  Scales.ApplyAtEnds | scripts/the-trains.js:104-106 | the domain's ends map to the range's ends  |
|  Scales.ClampedApplyInRange | scripts/the-trains.js:107-111 | the clamped time scale never leaves `[15, height]`  |
|  Scales.ClampedApplyMonotone | scripts/the-trains.js:107-111 | the clamped time scale preserves the order of times  |
|  Scales.ClampedInvertInDomain | scripts/the-trains.js:221 | the clamped inverse never leaves `[mindate, maxdate]`  |
|  Scales.ApplyInvert | scripts/the-trains.js:221-228 | applying the scale to an inverted pixel gives that pixel, clamped into the range when the scale clamps  |
|  Scales.InvertApply | scripts/the-trains.js:209 | without clamping the inverse undoes the scale  |
|  Scales.UnclampedIsAffine | scripts/the-trains.js:104-106 | the x scale multiplies differences by one constant slope  |
| Marey.FirstBar | scripts/the-trains.js:44 | the index of the first bar: a bar stands there, or it is the length when the string has none, and no earlier character is a bar |
|  Marey.FirstBarOfKey | scripts/the-trains.js:44 | in a key (station, bar, line) with a bar-free station, the first bar ends the station  |
|  Marey.KeyInjective | scripts/the-trains.js:44 | two keys with bar-free stations are equal if and only if station and line are equal  |
|  Marey.KeySameLine | scripts/the-trains.js:44 | on one line, equal keys mean equal stations  |
|  Marey.KeyHasBar | scripts/the-trains.js:44 | a key always holds a bar  |
| Marey.Key | scripts/the-trains.js:44 | the key `station` bar `line`; definition only, whose injectivity `KeyInjective` states |
|  Marey.Round | scripts/the-trains.js:84 | `Math.round` gives the integer within half a unit, with halves rounded up  |
|  Marey.RoundOfInteger | scripts/the-trains.js:209 | rounding an integer gives that integer  |
| Marey.PrepareStations | scripts/the-trains.js:41-48 | `stationToName` is the last-wins dictionary of the (key, name) writes in node order (`NamePairs`); `nodesPerLine` is the unique `id` bar `32` keys in node order (`LabelKeys`); both hold exactly the same keys |
| Marey.StationNameIsLastNode | scripts/the-trains.js:43-46 | a label key is in the name dictionary and holds the name of the last node with its id |
|  Marey.GetPointsFromStop | scripts/the-trains.js:235-253 | one point per stop, in stop order; a point is absent exactly where the stop is absent  |
|  Marey.FirstPoint | scripts/the-trains.js:241-249 | the first point has y = 0; its x is 0 in the lined-up variant and the scaled ordinate of the stop's key otherwise  |
|  Marey.PointOfStop | scripts/the-trains.js:242-251 | a present stop's point is its scaled ordinate (less the first stop's when relative) and its scaled time less the first stop's  |
|  Marey.RelativeIsShiftedAbsolute | scripts/the-trains.js:247-249 | the lined-up points are the full points moved left by the first point's x  |
|  Marey.OnlyOrdinatesMatter | scripts/the-trains.js:241-246 | headers that agree on the trip's keys give the same points  |
|  Marey.TimeShiftInvariant | scripts/the-trains.js:245 | adding a constant to the time scale changes no point  |
|  Marey.LinedUpPoint | scripts/the-trains.js:104-111 | with the diagram's scales, a lined-up x is the ordinate difference times pixels per unit, and y never goes above the first stop for time-ordered stops  |
| Marey.SlopedPoint | scripts/the-trains.js:245-249 | for any x scale of constant slope and any time scale that keeps the trip's order, a lined-up point's x is the ordinate difference times the slope and its y is not negative |
| Marey.TimeScaleGrows | scripts/the-trains.js:107-111 | the diagram's time scale, as handed to the projection, preserves the order of times |
| Marey.XScale | scripts/the-trains.js:104-106 | the x scale: the ordinate extent onto `[0, fullMareyWidth]`, unclamped; definition only |
| Marey.TimeScale | scripts/the-trains.js:107-111 | the y scale: `[mindate, maxdate]` onto `[15, fullMareyHeight]`, clamped; definition only |
|  Marey.XScaleSlope | scripts/the-trains.js:104-106 | the x scale turns an ordinate difference into pixels at `width / (xHi - xLo)`  |
| Marey.BuildInverse | scripts/the-trains.js:119-126 | the loop leaves the last-wins dictionary of the (ordinate, key) writes in key order (`OrdinatePairs`); every entry maps an ordinate to a key with that ordinate, and every ordinate has an entry |
|  Marey.OrdinatePairsSnoc | scripts/the-trains.js:124-126 | one more key adds one more write at the end  |
|  Marey.InverseCovers | scripts/the-trains.js:123-126 | every header ordinate has an entry in the inverse  |
| Marey.InverseLastWins | scripts/the-trains.js:123-126 | a key's ordinate is in the inverse, and when ordinates collide the key visited last wins |
| Marey.StationAt | scripts/the-trains.js:206-213 | a station is found if and only if the inverse has a non-empty key at `Math.round(xScale.invert(x))`, and then it is that key |
|  Marey.StationAtOrdinate | scripts/the-trains.js:206-213 | pointing at a key's integral ordinate finds that key, unless a later key shares the ordinate  |
|  Marey.SelectTime | scripts/the-trains.js:216-224 | a time is picked if and only if `0 < x < fullMareyWidth`  |
|  Marey.SelectedTimeInDay | scripts/the-trains.js:220-229 | the picked time lies in the service day, and the time bar is drawn at the pointer's height clamped to `[15, height]`  |
|  Marey.DropToLineEnd | scripts/the-trains.js:319 | on a single line, `.*` consumes everything  |
|  Marey.StripKey | scripts/the-trains.js:319 | stripping a single-line key after its first bar gives back the station  |
| Marey.StripAfterBar | scripts/the-trains.js:319 | the regular-expression replace that cuts the title at its first bar keeps a string without a bar unchanged, and on a single line keeps exactly what precedes the first bar |
| Marey.Titles | scripts/the-trains.js:313-320 | the set of marked titles; definition only, which `HighlightMareyTitle`'s loop is proved to build |
| Marey.LabelDisplayed | scripts/the-trains.js:322-324 | a label is displayed when `end[d]` or `titles[d]` holds; definition only, characterised by `HoveredLabel` |
|  Marey.HighlightMareyTitle | scripts/the-trains.js:312-320 | the loop marks the title, then the title joined by a bar to each line for each given line, or else the title cut at its first bar when the title is non-empty  |
|  Marey.HoveredLabel | scripts/the-trains.js:313-325 | hovering a header key shows a label if and only if it is the same station keyed under line 32; with no titles, no label is shown  |
|  MareyView.WidthGuard.RenderMarey | scripts/the-trains.js:83-86 | rounds the width; redraws if and only if the rounded width differs from the last one; the rounded width becomes the last one  |
|  MareyView.RenderTwice | scripts/the-trains.js:83-86 | the first render always draws; a second render draws if and only if the width rounds differently  |
|  MareyView.MareyLine.Anchor | scripts/the-trains.js:178-182 | `origY` is set to the first stop's scaled time only when it is falsy; otherwise it is kept  |
| MareyView.MareyLine.HasAnchor | scripts/the-trains.js:180 | `d.origY` is truthy: set and not zero; definition only |
|  MareyView.AnchorTwice | scripts/the-trains.js:180 | the first anchor is at least 15, so it is never falsy, and every later render keeps it  |
|  MareyView.AnchoredPoint | scripts/the-trains.js:178-183 | moved down by the anchor, each point lands at its own stop's scaled time  |
|  MareyView.Selection.HighlightTrain | scripts/the-trains.js:290-298 | `null` clears the highlight, and a trip becomes the highlighted one; the hovered trip is unchanged  |
|  MareyView.Selection.HoverTrain | scripts/the-trains.js:303-306 | the trip becomes the hovered one; the highlight is unchanged  |
|  MareyView.Selection.UnHoverTrain | scripts/the-trains.js:299-302 | no trip is hovered afterwards; the highlight is unchanged  |
| MareyView.Selection.HighlightActive | scripts/the-trains.js:286 | the `highlight-active` class: the highlighted trip id is truthy; definition only |
| MareyView.Selection.IsActive | scripts/the-trains.js:288 | the `active` class: the trip is the highlighted one; definition only |
| MareyView.Selection.IsHovered | scripts/the-trains.js:310 | the `hover` class: the trip is the hovered one; definition only |
|  MapGlyph.InterpolateEnds | scripts/header.js:25 | ratio 0 gives the first station's position, and ratio 1 the second's  |
|  MapGlyph.InterpolateLinear | scripts/header.js:25 | each coordinate moves by the ratio change times the segment's extent  |
|  MapGlyph.InterpolateMonotone | scripts/header.js:25 | a growing ratio never moves the point backwards along either axis  |
| MapGlyph.InterpolateGrows | scripts/header.js:25 | along one coordinate, a growing ratio never moves the point backwards when the coordinate grows from the first station to the second |
| MapGlyph.InterpolatePos | scripts/header.js:25 | `d3.interpolate(fromPos, toPos)(ratio)`, element by element; definition only, whose ends, linearity and order the lemmas above state |
| MapGlyph.PlaceWithOffset | scripts/header.js:22-27 | the interpolated point moved `radius` along a given normal; definition only, whose geometry `OffsetGeometry` states |
|  MapGlyph.OffsetGeometry | scripts/header.js:26-27 | given a unit normal, the dot sits exactly `radius` from the midpoint, at right angles to the segment  |
|  MapGlyph.Extent | scripts/header.js:52-53 | `d3.extent` returns the least and the greatest element  |
|  MapGlyph.FitMap | scripts/header.js:51-66 | the uniform scale fits both inner spans and fills one of them; svg width is `max(250, scale*xSpan + 40)` and at most `max(250, outerWidth)`; svg height is `scale*ySpan + 30` and at most `outerHeight`; end-dot radius is `max(0.2*scale, 3)`  |
|  MapGlyph.FitFacts | scripts/header.js:56-58 | the smaller of the two factors fits both spans and fills one  |
|  MapGlyph.PositionInBox | scripts/header.js:52-61 | measured from the scaled minimum, every scaled coordinate lies within the inner box  |
|  MapGlyph.DrawMap | scripts/header.js:50-62 | the layout is `FitMap` of the nodes' extents, and every node's `pos` becomes its coordinates times the scale  |
|  MapGlyph.PlaceNodes | scripts/header.js:59-61 | every node's `pos` becomes its coordinates times the scale  |
|  MapGlyph.NextTime | scripts/header.js:35-44 | past the end, the cursor goes to the start; otherwise it advances by 6 seconds  |
|  MapGlyph.NextTimeInCycle | scripts/header.js:44 | one step keeps a cursor in `[min, max + 6]`  |
| MapGlyph.Ticks | scripts/header.js:43-46 | the cursor after a number of `animate` steps; definition only, characterised by the lemmas around it |
|  MapGlyph.TicksInCycle | scripts/header.js:43-46 | any number of steps keeps the cursor in `[min, max + 6]`  |
|  MapGlyph.TicksFromStart | scripts/header.js:44 | from the start, the cursor advances 6 seconds per step until it passes the end  |
|  MapGlyph.StepsPastEnd | scripts/header.js:44 | the number of steps that first carries the cursor past the end  |
|  MapGlyph.Cycle | scripts/header.js:43-46 | after first passing the end, the cursor is at the start one step later  |
|  MapGlyph.ServiceDayCycle | scripts/header.js:31-44 | the service day from 07:00 to 02:00 replays every 11402 steps  |
|  MapGlyph.AnimationClock.Animate | scripts/header.js:43-46 | one `animate` step moves the cursor by `NextTime` and keeps it in `[min, max + 6]`  |

## Left out

- Rendering is not modelled. This covers D3 selections, `appendOnce`, attributes, styles, `d3.tip` tooltips, `d3.mouse`, event wiring and CSS class toggling. The pointer position becomes a parameter.
- Data loading through `VIZ.requiresData` is I/O and is not modelled. The network, trips and header are parameters.
- `moment`, `Date`, `d3.time.scale`, the axis and the time display are library date handling. `minTime` and `maxTime` are given numbers, and the service-day constants are written out in unix seconds.
- The `setTimeout` loop is timing. Only the single step of `animate` is modelled.
- `renderTrainsAtTime`, `lastTime`, `idToNode` and `trips` are used by scripts/header.js but defined outside it, so they are not part of this model. `AnimationClock.Animate` assumes that the time it renders becomes the new `lastTime`.
- `d3.svg.line`, which serialises points to a path string, is not modelled. The model stops at the point and gap sequence that the path is drawn from.
- MapGlyph.PlaceWithOffset: the perpendicular offset is computed in the code with `atan2`, `cos` and `sin` (floating-point trigonometry). The unit normal is therefore a parameter.
- The hard-coded end-of-line dot colouring, the tooltip direction and the position of the time display are cosmetic.
- `stationXScale` (the ordinal scale that places labels) and `freezeHighlightedMarey` are not modelled. The first only positions text. The second is defined outside these files.
- Floating-point numbers are modelled as exact reals, and NaN and Infinity are not modelled. So:
  - zero spans in `drawMap` are excluded by precondition;
  - a NaN `origY` is not modelled.
- JavaScript object keys are strings. The inverse map is keyed by the ordinate as a real, so the string form of a number is not modelled.
- A header entry is an array. The model keeps only its element 0, the only element the code reads.
- Marey.Titles: the empty string is the only falsy title.
- The `active` class of a station label (`titles[d.id ? d.id : d]`) is not modelled. `showingMap` and `frozen` are written but never read by the logic modelled here.
- MareyView.Selection.HighlightTrain: `d3.event.stopPropagation()` is not modelled, because it is an event side effect.
