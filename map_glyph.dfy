/** The arithmetic of the map glyph in scripts/header.js: fitting the station
    network into the glyph's box, the glyph's size, placing a train between
    two stations, and the animation clock that drives it. */
module MapGlyph {
  import opened Collections
  import opened Scales

  datatype Pos = Pos(x: real, y: real)

  /** Distance of a train's dot from the line it runs on. */
  const RADIUS: real := 2.0

  /** Margins of the map inside its svg. */
  const MARGIN_TOP: real := 20.0
  const MARGIN_RIGHT: real := 30.0
  const MARGIN_BOTTOM: real := 10.0
  const MARGIN_LEFT: real := 10.0
  /** The svg is never narrower than this. */
  const MIN_SVG_WIDTH: real := 250.0
  /** End-of-line dots: a fifth of the scale, but at least 3 pixels. */
  const END_DOT_FACTOR: real := 0.2
  const MIN_END_DOT_RADIUS: real := 3.0

  // ---------------------------------------------------------------------
  // Placing a train between two stations

  /** The point `ratio` of the way from `from` to `to` (d3's interpolation of
      two-element arrays, element by element). */
  function InterpolatePos(from: Pos, to: Pos, ratio: real): (p: Pos)
  {
    Pos(Interpolate(from.x, to.x, ratio), Interpolate(from.y, to.y, ratio))
  }

  /** Ratio 0 is the first station, ratio 1 the second. */
  lemma InterpolateEnds(from: Pos, to: Pos)
    ensures InterpolatePos(from, to, 0.0) == from
    ensures InterpolatePos(from, to, 1.0) == to
  {
  }

  /** Equal steps of the ratio move the point by equal displacements along
      the segment from `from` to `to`. */
  lemma InterpolateLinear(from: Pos, to: Pos, r: real, s: real)
    ensures InterpolatePos(from, to, s).x - InterpolatePos(from, to, r).x == (s - r) * (to.x - from.x)
    ensures InterpolatePos(from, to, s).y - InterpolatePos(from, to, r).y == (s - r) * (to.y - from.y)
  {
    assert s * (to.x - from.x) - r * (to.x - from.x) == (s - r) * (to.x - from.x);
    assert s * (to.y - from.y) - r * (to.y - from.y) == (s - r) * (to.y - from.y);
  }

  /** A growing ratio never moves the point backwards along either axis. */
  lemma InterpolateMonotone(from: Pos, to: Pos, r: real, s: real)
    requires r <= s
    ensures from.x <= to.x ==> InterpolatePos(from, to, r).x <= InterpolatePos(from, to, s).x
    ensures from.y <= to.y ==> InterpolatePos(from, to, r).y <= InterpolatePos(from, to, s).y
  {
    if from.x <= to.x { InterpolateGrows(from.x, to.x, r, s); }
    if from.y <= to.y { InterpolateGrows(from.y, to.y, r, s); }
  }

  lemma InterpolateGrows(a: real, b: real, r: real, s: real)
    requires a <= b && r <= s
    ensures Interpolate(a, b, r) <= Interpolate(a, b, s)
  {
    assert Interpolate(a, b, s) - Interpolate(a, b, r) == (s - r) * (b - a);
    ProductNonnegative(s - r, b - a);
  }

  /** `placeWithOffset`: the interpolated point moved by `RADIUS` along
      `normal`, where `normal` stands for the unit vector at the segment's
      angle plus a right angle that the source computes with trigonometry. */
  function PlaceWithOffset(from: Pos, to: Pos, ratio: real, normal: Pos): (p: Pos)
  {
    var mid := InterpolatePos(from, to, ratio);
    Pos(mid.x + normal.x * RADIUS, mid.y + normal.y * RADIUS)
  }

  /** For a unit normal at right angles to the segment, the dot sits exactly
      `RADIUS` from the interpolated point, to the side of the segment. */
  lemma OffsetGeometry(from: Pos, to: Pos, ratio: real, normal: Pos)
    requires normal.x * normal.x + normal.y * normal.y == 1.0
    requires normal.x * (to.x - from.x) + normal.y * (to.y - from.y) == 0.0
    ensures var p, mid := PlaceWithOffset(from, to, ratio, normal), InterpolatePos(from, to, ratio);
            && (p.x - mid.x) * (p.x - mid.x) + (p.y - mid.y) * (p.y - mid.y) == RADIUS * RADIUS
            && (p.x - mid.x) * (to.x - from.x) + (p.y - mid.y) * (to.y - from.y) == 0.0
  {
    var dx, dy := normal.x * RADIUS, normal.y * RADIUS;
    assert dx * dx + dy * dy == (normal.x * normal.x + normal.y * normal.y) * (RADIUS * RADIUS);
    assert dx * (to.x - from.x) + dy * (to.y - from.y)
        == (normal.x * (to.x - from.x) + normal.y * (to.y - from.y)) * RADIUS;
  }

  // ---------------------------------------------------------------------
  // Fitting the network into the glyph

  /** `d3.extent`: the least and the greatest value. */
  function Extent(vs: seq<real>): (e: (real, real))
    requires |vs| > 0
    ensures e.0 in vs && e.1 in vs
    ensures forall i :: 0 <= i < |vs| ==> e.0 <= vs[i] <= e.1
  {
    if |vs| == 1 then (vs[0], vs[0])
    else
      var rest := Extent(vs[1..]);
      assert forall i :: 1 <= i < |vs| ==> vs[i] == vs[1..][i - 1];
      (if vs[0] < rest.0 then vs[0] else rest.0, if vs[0] > rest.1 then vs[0] else rest.1)
  }

  function Min(a: real, b: real): real
  {
    if a <= b then a else b
  }

  function Max(a: real, b: real): real
  {
    if a >= b then a else b
  }

  /** What `drawMap` derives from the extents and the outer size. */
  datatype MapLayout = MapLayout(scale: real, svgWidth: real, svgHeight: real, endDotRadius: real)

  /** The uniform scale is the smaller of the two axis factors, so the
      network fits the inner box (outer size less margins) along both axes
      and fills it along one; the svg is at least 250 wide and exactly as
      tall as the scaled network plus margins; end dots are at least 3. */
  function FitMap(xExtent: (real, real), yExtent: (real, real), outerWidth: real, outerHeight: real): (layout: MapLayout)
    requires xExtent.0 < xExtent.1 && yExtent.0 < yExtent.1
    ensures var xSpan, ySpan := xExtent.1 - xExtent.0, yExtent.1 - yExtent.0;
            var width, height := outerWidth - MARGIN_LEFT - MARGIN_RIGHT, outerHeight - MARGIN_TOP - MARGIN_BOTTOM;
            && layout.scale * xSpan <= width
            && layout.scale * ySpan <= height
            && (layout.scale * xSpan == width || layout.scale * ySpan == height)
            && layout.svgWidth == Max(MIN_SVG_WIDTH, layout.scale * xSpan + MARGIN_LEFT + MARGIN_RIGHT)
            && layout.svgWidth <= Max(MIN_SVG_WIDTH, outerWidth)
            && layout.svgHeight == layout.scale * ySpan + MARGIN_TOP + MARGIN_BOTTOM
            && layout.svgHeight <= outerHeight
            && layout.endDotRadius == Max(END_DOT_FACTOR * layout.scale, MIN_END_DOT_RADIUS)
  {
    var xSpan, ySpan := xExtent.1 - xExtent.0, yExtent.1 - yExtent.0;
    var width := outerWidth - MARGIN_LEFT - MARGIN_RIGHT;
    var height := outerHeight - MARGIN_TOP - MARGIN_BOTTOM;
    var xScale := width / xSpan;
    var yScale := height / ySpan;
    var scale := Min(xScale, yScale);
    FitFacts(width, height, xSpan, ySpan);
    assert scale * xSpan + MARGIN_LEFT + MARGIN_RIGHT <= outerWidth;
    assert scale * ySpan + MARGIN_TOP + MARGIN_BOTTOM <= outerHeight;
    MapLayout(scale,
              Max(MIN_SVG_WIDTH, scale * xSpan + MARGIN_LEFT + MARGIN_RIGHT),
              scale * ySpan + MARGIN_TOP + MARGIN_BOTTOM,
              Max(END_DOT_FACTOR * scale, MIN_END_DOT_RADIUS))
  }

  lemma FitFacts(width: real, height: real, xSpan: real, ySpan: real)
    requires 0.0 < xSpan && 0.0 < ySpan
    ensures var scale := Min(width / xSpan, height / ySpan);
            && scale * xSpan <= width && scale * ySpan <= height
            && (scale * xSpan == width || scale * ySpan == height)
  {
    var xScale, yScale := width / xSpan, height / ySpan;
    assert xScale * xSpan == width && yScale * ySpan == height;
    var scale := Min(xScale, yScale);
    FactorBound(scale, xScale, xSpan);
    FactorBound(scale, yScale, ySpan);
  }

  lemma FactorBound(scale: real, factor: real, span: real)
    requires scale <= factor && 0.0 < span
    ensures scale * span <= factor * span
  {
    ProductNonnegative(factor - scale, span);
  }

  /** A station node; `drawMap` writes its scaled position into `pos`. */
  class MapNode {
    const id: string
    const name: string
    const x: real
    const y: real
    var pos: Option<Pos>

    constructor (id: string, name: string, x: real, y: real)
      ensures this.id == id && this.name == name && this.x == x && this.y == y
      ensures pos == None
    {
      this.id, this.name, this.x, this.y := id, name, x, y;
      pos := None;
    }
  }

  function Xs(nodes: seq<MapNode>): seq<real>
  {
    seq(|nodes|, i requires 0 <= i < |nodes| => nodes[i].x)
  }

  function Ys(nodes: seq<MapNode>): seq<real>
  {
    seq(|nodes|, i requires 0 <= i < |nodes| => nodes[i].y)
  }

  /** The network's extents are not degenerate (a zero span divides by zero). */
  predicate Spread(nodes: seq<MapNode>)
  {
    |nodes| > 0 && Extent(Xs(nodes)).0 < Extent(Xs(nodes)).1 && Extent(Ys(nodes)).0 < Extent(Ys(nodes)).1
  }

  /** `drawMap`: computes the layout and writes every node's `pos` as its
      coordinates times the scale; nothing else about a node changes. */
  method DrawMap(nodes: seq<MapNode>, outerWidth: real, outerHeight: real) returns (layout: MapLayout)
    requires Spread(nodes)
    modifies set n | n in nodes
    ensures layout == FitMap(Extent(Xs(nodes)), Extent(Ys(nodes)), outerWidth, outerHeight)
    ensures forall i :: 0 <= i < |nodes| ==> nodes[i].pos == Some(Scaled(nodes[i], layout.scale))
  {
    layout := FitMap(Extent(Xs(nodes)), Extent(Ys(nodes)), outerWidth, outerHeight);
    PlaceNodes(nodes, layout.scale);
  }

  /** The `forEach` over the nodes that writes `pos`. */
  method PlaceNodes(nodes: seq<MapNode>, scale: real)
    modifies set n | n in nodes
    ensures forall i :: 0 <= i < |nodes| ==> nodes[i].pos == Some(Scaled(nodes[i], scale))
  {
    var i := 0;
    while i < |nodes|
      invariant 0 <= i <= |nodes|
      invariant forall j :: 0 <= j < i ==> nodes[j].pos == Some(Scaled(nodes[j], scale))
    {
      nodes[i].pos := Some(Scaled(nodes[i], scale));
      i := i + 1;
    }
  }

  /** A node's coordinates times a scale. */
  function Scaled(n: MapNode, scale: real): Pos
  {
    Pos(n.x * scale, n.y * scale)
  }

  /** Positions are scaled but not moved: measured from the scaled minimum,
      every coordinate lies within the inner box (when the box is not
      smaller than the margins). */
  lemma PositionInBox(xExtent: (real, real), yExtent: (real, real), outerWidth: real, outerHeight: real, p: Pos)
    requires xExtent.0 < xExtent.1 && yExtent.0 < yExtent.1
    requires outerWidth >= MARGIN_LEFT + MARGIN_RIGHT && outerHeight >= MARGIN_TOP + MARGIN_BOTTOM
    requires xExtent.0 <= p.x <= xExtent.1 && yExtent.0 <= p.y <= yExtent.1
    ensures var s := FitMap(xExtent, yExtent, outerWidth, outerHeight).scale;
            && 0.0 <= p.x * s - xExtent.0 * s <= outerWidth - MARGIN_LEFT - MARGIN_RIGHT
            && 0.0 <= p.y * s - yExtent.0 * s <= outerHeight - MARGIN_TOP - MARGIN_BOTTOM
  {
    var xSpan, ySpan := xExtent.1 - xExtent.0, yExtent.1 - yExtent.0;
    var width := outerWidth - MARGIN_LEFT - MARGIN_RIGHT;
    var height := outerHeight - MARGIN_TOP - MARGIN_BOTTOM;
    var s := FitMap(xExtent, yExtent, outerWidth, outerHeight).scale;
    assert s == Min(width / xSpan, height / ySpan);
    assert 0.0 <= s by {
      ProductNonnegative(width, 1.0 / xSpan);
      ProductNonnegative(height, 1.0 / ySpan);
    }
    ProductNonnegative(p.x - xExtent.0, s);
    ProductNonnegative(xExtent.1 - p.x, s);
    ProductNonnegative(p.y - yExtent.0, s);
    ProductNonnegative(yExtent.1 - p.y, s);
  }

  // ---------------------------------------------------------------------
  // The animation clock

  /** Redraws per second of real time. */
  const PER_SECOND: int := 10
  /** Simulated seconds per redraw: one minute per real second. */
  const STEP: real := 60.0 / PER_SECOND as real

  /** The service day the glyph replays: 2014-02-03 07:00 to 2014-02-04
      02:00 at UTC-5, in unix seconds. */
  const MIN_UNIX_SECONDS: real := 1391428800.0
  const MAX_UNIX_SECONDS: real := 1391497200.0

  /** One `animate` tick: past the end, back to the start; otherwise on by
      one step. */
  function NextTime(lastTime: real, minTime: real, maxTime: real): (t: real)
    ensures lastTime > maxTime ==> t == minTime
    ensures lastTime <= maxTime ==> t == lastTime + 6.0
  {
    if lastTime > maxTime then minTime else lastTime + STEP
  }

  /** The cursor after `n` ticks. */
  function Ticks(n: nat, t: real, minTime: real, maxTime: real): real
  {
    if n == 0 then t else NextTime(Ticks(n - 1, t, minTime, maxTime), minTime, maxTime)
  }

  /** A cursor in [min, max + STEP] stays there after a tick. */
  lemma NextTimeInCycle(t: real, minTime: real, maxTime: real)
    requires minTime <= maxTime && minTime <= t <= maxTime + STEP
    ensures minTime <= NextTime(t, minTime, maxTime) <= maxTime + STEP
  {
  }

  /** ... and after any number of ticks. */
  lemma {:induction false} TicksInCycle(n: nat, t: real, minTime: real, maxTime: real)
    requires minTime <= maxTime && minTime <= t <= maxTime + STEP
    ensures minTime <= Ticks(n, t, minTime, maxTime) <= maxTime + STEP
  {
    if n > 0 {
      TicksInCycle(n - 1, t, minTime, maxTime);
      NextTimeInCycle(Ticks(n - 1, t, minTime, maxTime), minTime, maxTime);
    }
  }

  /** From the start, the cursor advances one step per tick for as long as it
      has not passed the end. */
  lemma {:induction false} TicksFromStart(k: nat, minTime: real, maxTime: real)
    requires (k as real - 1.0) * STEP <= maxTime - minTime
    ensures Ticks(k, minTime, minTime, maxTime) == minTime + k as real * STEP
  {
    if k > 0 {
      var before := (k - 1) as real * STEP;
      assert STEP == 6.0;
      assert (k - 1) as real == k as real - 1.0;
      TicksFromStart(k - 1, minTime, maxTime);
      assert Ticks(k - 1, minTime, minTime, maxTime) == minTime + before;
      assert before + STEP == k as real * STEP;
    }
  }

  /** The number of steps that first carries the cursor past the end. */
  function StepsPastEnd(minTime: real, maxTime: real): (m: nat)
    requires minTime <= maxTime
    ensures (m as real - 1.0) * STEP <= maxTime - minTime < m as real * STEP
  {
    ((maxTime - minTime) / STEP).Floor + 1
  }

  /** The cursor cycles: after passing the end once it is back at the start,
      one tick later (not at start plus the overshoot). */
  lemma Cycle(minTime: real, maxTime: real)
    requires minTime <= maxTime
    ensures var m := StepsPastEnd(minTime, maxTime);
            && Ticks(m, minTime, minTime, maxTime) > maxTime
            && Ticks(m + 1, minTime, minTime, maxTime) == minTime
  {
    TicksFromStart(StepsPastEnd(minTime, maxTime), minTime, maxTime);
  }

  /** The service day replays every 11402 ticks (19 hours in 6-second steps,
      one step past the end, and the jump back). */
  lemma ServiceDayCycle()
    ensures StepsPastEnd(MIN_UNIX_SECONDS, MAX_UNIX_SECONDS) == 11401
    ensures Ticks(11402, MIN_UNIX_SECONDS, MIN_UNIX_SECONDS, MAX_UNIX_SECONDS) == MIN_UNIX_SECONDS
  {
    assert (MAX_UNIX_SECONDS - MIN_UNIX_SECONDS) / STEP == 11400.0;
    Cycle(MIN_UNIX_SECONDS, MAX_UNIX_SECONDS);
  }

  /** The shared time cursor that `animate` advances; the source updates it
      as it renders the trains at the new time. */
  class AnimationClock {
    const minTime: real
    const maxTime: real
    var lastTime: real

    predicate Valid()
      reads this
    {
      minTime <= maxTime && minTime <= lastTime <= maxTime + STEP
    }

    constructor (minTime: real, maxTime: real, start: real)
      requires minTime <= start <= maxTime
      ensures Valid()
      ensures this.minTime == minTime && this.maxTime == maxTime && lastTime == start
    {
      this.minTime, this.maxTime, lastTime := minTime, maxTime, start;
    }

    method Animate()
      requires Valid()
      modifies this
      ensures Valid()
      ensures lastTime == NextTime(old(lastTime), minTime, maxTime)
    {
      lastTime := if lastTime > maxTime then minTime else lastTime + STEP;
    }
  }
}
