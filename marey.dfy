/** The data layer of the Marey (time-distance) diagram in
    scripts/the-trains.js: station-label keys and names, the projection of a
    trip's stops onto (x, y) points, the inverse of the station ordinates,
    the strict hover gate that picks a time, and the set of titles that
    decides which station labels are shown. */
module Marey {
  import opened Collections
  import opened Scales

  /** Every station label is keyed under this line (`d.id + '|32'`). */
  const LABEL_LINE: string := "32"

  /** Diagram geometry: margins and the fixed outer height. */
  const MARGIN_TOP: int := 100
  const MARGIN_RIGHT: int := 10
  const MARGIN_BOTTOM: int := 0
  const MARGIN_LEFT: int := 260
  const OUTER_HEIGHT: int := 3000
  /** The time axis starts 15 pixels below the top of the plotting area. */
  const TIME_TOP: real := 15.0

  /** The composite key `station + '|' + line`. */
  function Key(station: string, line: string): string
  {
    station + "|" + line
  }

  predicate NoBar(s: string)
  {
    forall i :: 0 <= i < |s| ==> s[i] != '|'
  }

  /** The index of the first `|` in `s`, or `|s|` when there is none. */
  function FirstBar(s: string): (i: nat)
    ensures i <= |s|
    ensures i < |s| ==> s[i] == '|'
    ensures forall j :: 0 <= j < i ==> s[j] != '|'
  {
    if s == [] || s[0] == '|' then 0 else 1 + FirstBar(s[1..])
  }

  lemma {:induction false} FirstBarOfKey(a: string, l: string)
    requires NoBar(a)
    ensures FirstBar(Key(a, l)) == |a|
  {
    if a != [] {
      assert Key(a, l)[1..] == Key(a[1..], l);
      FirstBarOfKey(a[1..], l);
    }
  }

  /** Keys built from bar-free stations are equal only for equal parts. */
  lemma KeyInjective(a: string, l: string, b: string, m: string)
    requires NoBar(a) && NoBar(b)
    ensures Key(a, l) == Key(b, m) <==> a == b && l == m
  {
    FirstBarOfKey(a, l);
    FirstBarOfKey(b, m);
    if Key(a, l) == Key(b, m) {
      assert a == Key(a, l)[..|a|] && b == Key(b, m)[..|b|];
      assert l == Key(a, l)[|a| + 1..] && m == Key(b, m)[|b| + 1..];
    }
  }

  /** On one line, keys are equal only for equal stations. */
  lemma KeySameLine(a: string, b: string, l: string)
    ensures Key(a, l) == Key(b, l) ==> a == b
  {
    if Key(a, l) == Key(b, l) {
      assert |a| == |b|;
      assert a == Key(a, l)[..|a|] && b == Key(b, l)[..|b|];
    }
  }

  /** A key always holds a bar, so it is never a bar-free name. */
  lemma KeyHasBar(a: string, l: string)
    ensures !NoBar(Key(a, l))
  {
    assert Key(a, l)[|a|] == '|';
  }

  /** JavaScript's `Math.round`: the nearest integer, halves rounded up. */
  function Round(v: real): (r: int)
    ensures v - 0.5 < r as real <= v + 0.5
  {
    (v + 0.5).Floor
  }

  /** Rounding leaves an integer unchanged. */
  lemma RoundOfInteger(n: int)
    ensures Round(n as real) == n
  {
    var r := Round(n as real);
    assert n as real - 0.5 < r as real <= n as real + 0.5;
  }

  // ---------------------------------------------------------------------
  // Station keys and names (the pre-processing at load time)

  datatype Node = Node(id: string, name: string, x: real, y: real)

  /** The label key of every node, in network order. */
  function LabelKeys(nodes: seq<Node>): seq<string>
  {
    seq(|nodes|, i requires 0 <= i < |nodes| => Key(nodes[i].id, LABEL_LINE))
  }

  /** The (key, name) writes in the order the loop performs them. */
  function NamePairs(nodes: seq<Node>): seq<(string, string)>
  {
    seq(|nodes|, i requires 0 <= i < |nodes| => (Key(nodes[i].id, LABEL_LINE), nodes[i].name))
  }

  /** Fills `stationToName` while collecting the keys, then removes repeated
      keys (`_.unique(_.flatten(...))`; flattening strings changes nothing). */
  method PrepareStations(nodes: seq<Node>) returns (stationToName: map<string, string>, nodesPerLine: seq<string>)
    ensures stationToName == LastWins(NamePairs(nodes))
    ensures nodesPerLine == Unique(LabelKeys(nodes))
    ensures Distinct(nodesPerLine)
    ensures forall k :: k in nodesPerLine <==> k in stationToName
  {
    stationToName := map[];
    var keys: seq<string> := [];
    var i := 0;
    while i < |nodes|
      invariant 0 <= i <= |nodes|
      invariant keys == LabelKeys(nodes[..i])
      invariant stationToName == LastWins(NamePairs(nodes[..i]))
    {
      var key := Key(nodes[i].id, LABEL_LINE);
      stationToName := stationToName[key := nodes[i].name];
      keys := keys + [key];
      assert NamePairs(nodes[..i + 1])[..i] == NamePairs(nodes[..i]);
      i := i + 1;
    }
    assert nodes[..i] == nodes;
    nodesPerLine := Unique(keys);
    forall k
      ensures k in nodesPerLine <==> k in stationToName
    {
      if k in stationToName {
        var p :| p in NamePairs(nodes) && p.0 == k;
        var j :| 0 <= j < |nodes| && NamePairs(nodes)[j] == p;
        assert keys[j] == k;
      }
      if k in keys {
        var j :| 0 <= j < |keys| && keys[j] == k;
        assert NamePairs(nodes)[j] in NamePairs(nodes);
      }
    }
  }

  /** The name shown for a label is that of the LAST node with its id. */
  lemma StationNameIsLastNode(nodes: seq<Node>, j: nat)
    requires j < |nodes|
    requires forall i :: j < i < |nodes| ==> nodes[i].id != nodes[j].id
    ensures Key(nodes[j].id, LABEL_LINE) in LastWins(NamePairs(nodes))
         && LastWins(NamePairs(nodes))[Key(nodes[j].id, LABEL_LINE)] == nodes[j].name
  {
    var ps := NamePairs(nodes);
    forall i | j < i < |ps|
      ensures ps[i].0 != ps[j].0
    {
      KeySameLine(nodes[i].id, nodes[j].id, LABEL_LINE);
    }
    LastWinsValue(ps, j);
  }

  // ---------------------------------------------------------------------
  // Projection of a trip onto the diagram

  /** One scheduled stop; `time` is in unix seconds. */
  datatype Stop = Stop(stop: string, time: real)

  /** A trip; an absent (falsy) entry among the stops is a gap in the path. */
  datatype Trip = Trip(trip: string, line: string, stops: seq<Option<Stop>>)

  datatype Point = Point(x: real, y: real)

  /** The station header: the ordinate `header[key][0]` of each `station|line`. */
  type Header = map<string, real>

  /** What `getPointsFromStop` needs in order not to throw: a first stop to
      measure from, and an ordinate for the key of every present stop. */
  predicate Projectable(header: Header, d: Trip)
  {
    && |d.stops| > 0
    && d.stops[0].Some?
    && forall i :: 0 <= i < |d.stops| && d.stops[i].Some? ==> Key(d.stops[i].value.stop, d.line) in header
  }

  /** `getPointsFromStop(xScale, yScale, d, relative)`: one entry per stop, in
      order; `None` where the stop is absent, otherwise the stop's scaled
      ordinate (less the first stop's when `relative`) and its scaled time
      less the first stop's scaled time. */
  function GetPointsFromStop(xScale: real -> real, yScale: real -> real, header: Header, d: Trip, relative: bool): (points: seq<Option<Point>>)
    requires Projectable(header, d)
    ensures |points| == |d.stops|
    ensures forall i :: 0 <= i < |points| ==> (points[i].None? <==> d.stops[i].None?)
  {
    var flattenedStops := Flatten(Singletons(d.stops));
    FlattenSingletons(d.stops);
    var first := flattenedStops[0].value;
    var startX := xScale(header[Key(first.stop, d.line)]);
    seq(|flattenedStops|, i requires 0 <= i < |flattenedStops| =>
      match flattenedStops[i]
      case None => None
      case Some(stop) =>
        var y := yScale(stop.time) - yScale(first.time);
        var x := xScale(header[Key(stop.stop, d.line)]);
        Some(Point(if relative then x - startX else x, y)))
  }

  /** The first point: y is always 0; x is 0 in the lined-up variant and the
      scaled ordinate of the first stop otherwise. */
  lemma FirstPoint(xScale: real -> real, yScale: real -> real, header: Header, d: Trip, relative: bool)
    requires Projectable(header, d)
    ensures GetPointsFromStop(xScale, yScale, header, d, relative)[0]
         == Some(Point(if relative then 0.0 else xScale(header[Key(d.stops[0].value.stop, d.line)]), 0.0))
  {
    FlattenSingletons(d.stops);
  }

  /** The point of a present stop, stated from the stop and the first stop. */
  lemma PointOfStop(xScale: real -> real, yScale: real -> real, header: Header, d: Trip, relative: bool, i: nat)
    requires Projectable(header, d) && i < |d.stops| && d.stops[i].Some?
    ensures var s, s0 := d.stops[i].value, d.stops[0].value;
            var x, x0 := xScale(header[Key(s.stop, d.line)]), xScale(header[Key(s0.stop, d.line)]);
            GetPointsFromStop(xScale, yScale, header, d, relative)[i]
              == Some(Point(if relative then x - x0 else x, yScale(s.time) - yScale(s0.time)))
  {
    FlattenSingletons(d.stops);
  }

  /** The lined-up projection is the full one moved so that its first point
      sits at x = 0. */
  lemma RelativeIsShiftedAbsolute(xScale: real -> real, yScale: real -> real, header: Header, d: Trip, i: nat)
    requires Projectable(header, d) && i < |d.stops|
    ensures var rel := GetPointsFromStop(xScale, yScale, header, d, true);
            var abs := GetPointsFromStop(xScale, yScale, header, d, false);
            abs[0].Some? && (rel[i].Some? <==> abs[i].Some?) &&
            (rel[i].Some? ==> rel[i].value == Point(abs[i].value.x - abs[0].value.x, abs[i].value.y))
  {
    FirstPoint(xScale, yScale, header, d, false);
    if d.stops[i].Some? {
      PointOfStop(xScale, yScale, header, d, true, i);
      PointOfStop(xScale, yScale, header, d, false, i);
    }
  }

  /** x depends on nothing but the header ordinate of `stop|line`: headers
      that agree on the trip's keys give the same points. */
  lemma OnlyOrdinatesMatter(xScale: real -> real, yScale: real -> real, h1: Header, h2: Header, d: Trip, relative: bool)
    requires Projectable(h1, d) && Projectable(h2, d)
    requires forall i :: 0 <= i < |d.stops| && d.stops[i].Some? ==>
               h1[Key(d.stops[i].value.stop, d.line)] == h2[Key(d.stops[i].value.stop, d.line)]
    ensures GetPointsFromStop(xScale, yScale, h1, d, relative) == GetPointsFromStop(xScale, yScale, h2, d, relative)
  {
    var p1 := GetPointsFromStop(xScale, yScale, h1, d, relative);
    var p2 := GetPointsFromStop(xScale, yScale, h2, d, relative);
    forall i | 0 <= i < |d.stops|
      ensures p1[i] == p2[i]
    {
      if d.stops[i].Some? {
        PointOfStop(xScale, yScale, h1, d, relative, i);
        PointOfStop(xScale, yScale, h2, d, relative, i);
      }
    }
  }

  /** y is measured from the first stop: shifting the time scale by a constant
      leaves every point where it was. */
  lemma TimeShiftInvariant(xScale: real -> real, yScale: real -> real, c: real, header: Header, d: Trip, relative: bool)
    requires Projectable(header, d)
    ensures GetPointsFromStop(xScale, v => yScale(v) + c, header, d, relative)
         == GetPointsFromStop(xScale, yScale, header, d, relative)
  {
    var p1 := GetPointsFromStop(xScale, v => yScale(v) + c, header, d, relative);
    var p2 := GetPointsFromStop(xScale, yScale, header, d, relative);
    forall i | 0 <= i < |d.stops|
      ensures p1[i] == p2[i]
    {
      if d.stops[i].Some? {
        PointOfStop(xScale, v => yScale(v) + c, header, d, relative, i);
        PointOfStop(xScale, yScale, header, d, relative, i);
      }
    }
  }

  /** The x scale of the full diagram: the header's ordinate extent onto the
      plotting width of an outer width. */
  function XScale(xLo: real, xHi: real, outerWidth: int): LinearScale
  {
    LinearScale(xLo, xHi, 0.0, (outerWidth - MARGIN_LEFT - MARGIN_RIGHT) as real, false)
  }

  /** The clamped time scale: the service day onto the plotting height. */
  function TimeScale(minTime: real, maxTime: real): LinearScale
  {
    LinearScale(minTime, maxTime, TIME_TOP, (OUTER_HEIGHT - MARGIN_TOP - MARGIN_BOTTOM) as real, true)
  }

  /** With the diagram's own scales, a lined-up point's x is the ordinate
      difference times the pixels per ordinate unit, and a trip whose stops
      are in time order never goes above its first stop. */
  lemma LinedUpPoint(xLo: real, xHi: real, outerWidth: int, minTime: real, maxTime: real, header: Header, d: Trip, i: nat)
    requires Projectable(header, d) && i < |d.stops| && d.stops[i].Some?
    requires xLo != xHi && minTime <= maxTime
    requires d.stops[0].value.time <= d.stops[i].value.time
    ensures var xs, ys := XScale(xLo, xHi, outerWidth), TimeScale(minTime, maxTime);
            var s, s0 := d.stops[i].value, d.stops[0].value;
            var p := GetPointsFromStop(AsFunction(xs), AsFunction(ys), header, d, true)[i];
            && p.Some?
            && p.value.x == (header[Key(s.stop, d.line)] - header[Key(s0.stop, d.line)]) * PixelsPerUnit(xLo, xHi, outerWidth)
            && p.value.y == Apply(ys, s.time) - Apply(ys, s0.time) >= 0.0
  {
    var o, o0 := header[Key(d.stops[i].value.stop, d.line)], header[Key(d.stops[0].value.stop, d.line)];
    XScaleSlope(xLo, xHi, outerWidth, o, o0);
    TimeScaleGrows(minTime, maxTime, d.stops[0].value.time, d.stops[i].value.time);
    SlopedPoint(AsFunction(XScale(xLo, xHi, outerWidth)), AsFunction(TimeScale(minTime, maxTime)),
                header, d, i, PixelsPerUnit(xLo, xHi, outerWidth));
  }

  /** `LinedUpPoint` for any pair of scale functions whose x scale has a
      constant slope and whose time scale keeps this trip's order. */
  lemma SlopedPoint(xScale: real -> real, yScale: real -> real, header: Header, d: Trip, i: nat, slope: real)
    requires Projectable(header, d) && i < |d.stops| && d.stops[i].Some?
    requires var o, o0 := header[Key(d.stops[i].value.stop, d.line)], header[Key(d.stops[0].value.stop, d.line)];
             xScale(o) - xScale(o0) == (o - o0) * slope
    requires yScale(d.stops[0].value.time) <= yScale(d.stops[i].value.time)
    ensures var s, s0 := d.stops[i].value, d.stops[0].value;
            var p := GetPointsFromStop(xScale, yScale, header, d, true)[i];
            && p.Some?
            && p.value.x == (header[Key(s.stop, d.line)] - header[Key(s0.stop, d.line)]) * slope
            && p.value.y == yScale(s.time) - yScale(s0.time) >= 0.0
  {
    PointOfStop(xScale, yScale, header, d, true, i);
  }

  lemma TimeScaleGrows(minTime: real, maxTime: real, t0: real, t: real)
    requires minTime <= maxTime && t0 <= t
    ensures AsFunction(TimeScale(minTime, maxTime))(t0) <= AsFunction(TimeScale(minTime, maxTime))(t)
  {
    ClampedApplyMonotone(TimeScale(minTime, maxTime), t0, t);
  }

  /** Pixels per unit of ordinate on the horizontal axis. */
  function PixelsPerUnit(xLo: real, xHi: real, outerWidth: int): real
    requires xLo != xHi
  {
    (outerWidth - MARGIN_LEFT - MARGIN_RIGHT) as real / (xHi - xLo)
  }

  lemma XScaleSlope(xLo: real, xHi: real, outerWidth: int, o: real, o0: real)
    requires xLo != xHi
    ensures AsFunction(XScale(xLo, xHi, outerWidth))(o) - AsFunction(XScale(xLo, xHi, outerWidth))(o0)
         == (o - o0) * PixelsPerUnit(xLo, xHi, outerWidth)
  {
    UnclampedIsAffine(XScale(xLo, xHi, outerWidth), o, o0);
  }

  // ---------------------------------------------------------------------
  // Hover: from a pointer position to a station and to a time

  /** `stationXScaleInvert`: for every header key in iteration order,
      `inverse[header[key][0]] = key`. */
  function OrdinatePairs(header: Header, keys: seq<string>): seq<(real, string)>
    requires forall k :: k in keys ==> k in header
  {
    seq(|keys|, i requires 0 <= i < |keys| => (header[keys[i]], keys[i]))
  }

  method BuildInverse(header: Header, keys: seq<string>) returns (inverse: map<real, string>)
    requires forall k :: k in keys <==> k in header
    requires Distinct(keys)
    ensures inverse == LastWins(OrdinatePairs(header, keys))
    ensures forall o :: o in inverse ==> inverse[o] in header && header[inverse[o]] == o
    ensures forall k :: k in header ==> header[k] in inverse
  {
    inverse := map[];
    var i := 0;
    while i < |keys|
      invariant 0 <= i <= |keys|
      invariant inverse == LastWins(OrdinatePairs(header, keys[..i]))
    {
      OrdinatePairsSnoc(header, keys, i);
      LastWinsSnoc(OrdinatePairs(header, keys[..i]), (header[keys[i]], keys[i]));
      inverse := inverse[header[keys[i]] := keys[i]];
      i := i + 1;
    }
    assert keys[..i] == keys;
    InverseCovers(header, keys);
  }

  lemma OrdinatePairsSnoc(header: Header, keys: seq<string>, i: nat)
    requires forall k :: k in keys ==> k in header
    requires i < |keys|
    ensures OrdinatePairs(header, keys[..i + 1]) == OrdinatePairs(header, keys[..i]) + [(header[keys[i]], keys[i])]
  {
  }

  /** Every ordinate of the header has an entry in the inverse. */
  lemma InverseCovers(header: Header, keys: seq<string>)
    requires forall k :: k in keys <==> k in header
    ensures forall k :: k in header ==> header[k] in LastWins(OrdinatePairs(header, keys))
  {
    forall k | k in header
      ensures header[k] in LastWins(OrdinatePairs(header, keys))
    {
      var j :| 0 <= j < |keys| && keys[j] == k;
      assert OrdinatePairs(header, keys)[j] in OrdinatePairs(header, keys);
    }
  }

  /** On a collision of ordinates the key visited last wins. */
  lemma InverseLastWins(header: Header, keys: seq<string>, j: nat)
    requires forall k :: k in keys ==> k in header
    requires j < |keys|
    requires forall i :: j < i < |keys| ==> header[keys[i]] != header[keys[j]]
    ensures header[keys[j]] in LastWins(OrdinatePairs(header, keys))
         && LastWins(OrdinatePairs(header, keys))[header[keys[j]]] == keys[j]
  {
    LastWinsValue(OrdinatePairs(header, keys), j);
  }

  /** `updateTitle`: the station under the pointer, if its rounded
      ordinate names one and that name is not empty. */
  function StationAt(inverse: map<real, string>, xs: LinearScale, px: real): (station: Option<string>)
    ensures var o := Round(Invert(xs, px)) as real;
            && (station.Some? <==> o in inverse && inverse[o] != "")
            && (station.Some? ==> station.value == inverse[o])
    ensures station.Some? ==> station.value != "" && station.value in inverse.Values
  {
    var o := Round(Invert(xs, px)) as real;
    if o in inverse && inverse[o] != "" then Some(inverse[o]) else None
  }

  /** Pointing exactly at a key's integral ordinate finds that key, when no
      later key shares the ordinate. */
  lemma StationAtOrdinate(header: Header, keys: seq<string>, j: nat, xLo: real, xHi: real, outerWidth: int)
    requires forall k :: k in keys ==> k in header
    requires j < |keys| && keys[j] != ""
    requires forall i :: j < i < |keys| ==> header[keys[i]] != header[keys[j]]
    requires header[keys[j]] == header[keys[j]].Floor as real
    requires xLo != xHi && outerWidth != MARGIN_LEFT + MARGIN_RIGHT
    ensures var xs := XScale(xLo, xHi, outerWidth);
            StationAt(LastWins(OrdinatePairs(header, keys)), xs, Apply(xs, header[keys[j]])) == Some(keys[j])
  {
    var xs := XScale(xLo, xHi, outerWidth);
    var o := header[keys[j]];
    InvertApply(xs, o);
    RoundOfInteger(o.Floor);
    InverseLastWins(header, keys, j);
  }

  /** `selectTime`: a pointer strictly inside the plotting width picks the
      time under it; anywhere else picks nothing. */
  function SelectTime(outerWidth: int, minTime: real, maxTime: real, px: real, py: real): (time: Option<real>)
    ensures time.Some? <==> 0.0 < px < (outerWidth - MARGIN_LEFT - MARGIN_RIGHT) as real
  {
    if 0.0 < px && px < (outerWidth - MARGIN_LEFT - MARGIN_RIGHT) as real
    then Some(Invert(TimeScale(minTime, maxTime), py))
    else None
  }

  /** The picked time lies in the service day, and the time bar is then drawn
      at the pointer's height, pulled into the plotting area. */
  lemma SelectedTimeInDay(outerWidth: int, minTime: real, maxTime: real, px: real, py: real)
    requires minTime < maxTime
    requires SelectTime(outerWidth, minTime, maxTime, px, py).Some?
    ensures var t := SelectTime(outerWidth, minTime, maxTime, px, py).value;
            && minTime <= t <= maxTime
            && Apply(TimeScale(minTime, maxTime), t)
               == Clamp(TIME_TOP, (OUTER_HEIGHT - MARGIN_TOP - MARGIN_BOTTOM) as real, py)
  {
    ClampedInvertInDomain(TimeScale(minTime, maxTime), py);
    ApplyInvert(TimeScale(minTime, maxTime), py);
  }

  // ---------------------------------------------------------------------
  // Station-label titles

  /** JavaScript's line terminators, where `.` in a regular expression stops. */
  predicate IsLineTerminator(c: char)
  {
    c == '\n' || c == '\r' || c == '\U{2028}' || c == '\U{2029}'
  }

  predicate SingleLine(s: string)
  {
    forall i :: 0 <= i < |s| ==> !IsLineTerminator(s[i])
  }

  function DropToLineEnd(s: string): (r: string)
    ensures SingleLine(s) ==> r == []
  {
    if s == [] || IsLineTerminator(s[0]) then s else DropToLineEnd(s[1..])
  }

  /** The title cut at its first `|`: the bar and the rest of its line go
      (a regular-expression replace of a bar followed by any non-terminators). */
  function StripAfterBar(s: string): (r: string)
    ensures FirstBar(s) == |s| ==> r == s
    ensures SingleLine(s) ==> r == s[..FirstBar(s)]
  {
    if s == [] then []
    else if s[0] == '|' then
      assert SingleLine(s) ==> SingleLine(s[1..]);
      DropToLineEnd(s[1..])
    else
      assert SingleLine(s) ==> SingleLine(s[1..]);
      assert [s[0]] + s[1..] == s;
      assert [s[0]] + s[1..][..FirstBar(s[1..])] == s[..FirstBar(s)];
      [s[0]] + StripAfterBar(s[1..])
  }

  /** On one line, stripping leaves what precedes the first `|`. */
  lemma {:induction false} StripKey(a: string, l: string)
    requires NoBar(a) && SingleLine(l)
    ensures StripAfterBar(Key(a, l)) == a
  {
    if a == [] {
      assert Key(a, l) == ['|'] + l;
    } else {
      assert Key(a, l)[1..] == Key(a[1..], l);
      StripKey(a[1..], l);
    }
  }

  /** The titles `highlightMareyTitle(title, lines)` marks: the title; then
      `title|line` for every line when lines are given, else (for a non-empty
      title) also the title cut at its first `|`. */
  function Titles(title: string, lines: Option<seq<string>>): (titles: set<string>)
  {
    {title}
    + (if lines.Some? then set l | l in lines.value :: Key(title, l)
       else if title != "" then {StripAfterBar(title)}
       else {})
  }

  method HighlightMareyTitle(title: string, lines: Option<seq<string>>) returns (titles: set<string>)
    ensures titles == Titles(title, lines)
    ensures title in titles
    ensures lines.Some? ==> forall i :: 0 <= i < |lines.value| ==> Key(title, lines.value[i]) in titles
  {
    titles := {title};
    if lines.Some? {
      var ls := lines.value;
      var i := 0;
      while i < |ls|
        invariant 0 <= i <= |ls|
        invariant titles == {title} + set l | l in ls[..i] :: Key(title, l)
      {
        titles := titles + {Key(title, ls[i])};
        assert forall l :: l in ls[..i + 1] <==> l in ls[..i] || l == ls[i];
        i := i + 1;
      }
      assert ls[..i] == ls;
    } else if title != "" {
      titles := titles + {title};
      titles := titles + {StripAfterBar(title)};
    }
  }

  /** `end`: the keys whose labels are always shown; never filled. */
  const END: set<string> := {}

  /** A label is shown iff `end[d] || titles[d]`. */
  predicate LabelDisplayed(end: set<string>, titles: set<string>, d: string)
  {
    d in end || d in titles
  }

  /** Hovering the header key of station `s` on line `l` shows the label of
      station `id` exactly when it is that station and the line is the one the
      labels are keyed under; with no titles, no label is shown. */
  lemma HoveredLabel(s: string, l: string, id: string)
    requires NoBar(s) && NoBar(id) && SingleLine(l)
    ensures LabelDisplayed(END, Titles(Key(s, l), None), Key(id, LABEL_LINE)) <==> s == id && l == LABEL_LINE
    ensures !LabelDisplayed(END, {}, Key(id, LABEL_LINE))
  {
    StripKey(s, l);
    KeyInjective(id, LABEL_LINE, s, l);
    KeyHasBar(id, LABEL_LINE);
  }
}
