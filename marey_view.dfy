/** The state scripts/the-trains.js keeps between renders of the Marey
    diagram: the last outer width drawn, the vertical anchor memoised on each
    trip's path, and the highlighted and hovered trips. */
module MareyView {
  import opened Collections
  import opened Scales
  import opened Marey

  /** `renderMarey`'s memory of the width it drew for last. */
  class WidthGuard {
    var lastWidth: Option<int>

    constructor ()
      ensures lastWidth == None
    {
      lastWidth := None;
    }

    /** Rounds the width and redraws unless that rounded width was the last
        one drawn; either way the rounded width is then the last one. */
    method RenderMarey(outerWidth: real) returns (rendered: bool)
      modifies this
      ensures lastWidth == Some(Round(outerWidth))
      ensures rendered <==> old(lastWidth) != Some(Round(outerWidth))
    {
      var w := Round(outerWidth);
      if lastWidth == Some(w) {
        return false;
      }
      lastWidth := Some(w);
      rendered := true;
    }
  }

  /** Two width changes in a row: the first always draws, the second only
      when it rounds to a different width, so repeating a width is a no-op. */
  method RenderTwice(w1: real, w2: real) returns (first: bool, second: bool)
    ensures first
    ensures second <==> Round(w1) != Round(w2)
  {
    var guard := new WidthGuard();
    first := guard.RenderMarey(w1);
    second := guard.RenderMarey(w2);
  }

  /** A trip's path in the full diagram, with the vertical offset `origY`
      that the first render writes onto the trip. */
  class MareyLine {
    const trip: Trip
    var origY: Option<real>

    constructor (trip: Trip)
      ensures this.trip == trip && origY == None
    {
      this.trip := trip;
      origY := None;
    }

    /** `d.origY` is truthy: set and not zero. */
    predicate HasAnchor()
      reads this
    {
      origY.Some? && origY.value != 0.0
    }

    /** The `transform` of the path: sets `origY` to the scaled time of the
        first stop unless it already holds a truthy value. */
    method Anchor(yScale: LinearScale) returns (y: real)
      requires |trip.stops| > 0 && trip.stops[0].Some?
      modifies this
      ensures old(HasAnchor()) ==> origY == old(origY)
      ensures !old(HasAnchor()) ==> origY == Some(Apply(yScale, trip.stops[0].value.time))
      ensures origY == Some(y)
    {
      if !HasAnchor() {
        origY := Some(Apply(yScale, trip.stops[0].value.time));
      }
      y := origY.value;
    }
  }

  /** Under the diagram's clamped time scale the anchor is at least 15 and
      so never falsy: later renders, whatever scale they pass, keep the
      first anchor. */
  method AnchorTwice(d: Trip, minTime: real, maxTime: real, later: LinearScale) returns (first: real, second: real)
    requires |d.stops| > 0 && d.stops[0].Some?
    requires minTime <= maxTime
    ensures first == second == Apply(TimeScale(minTime, maxTime), d.stops[0].value.time)
    ensures first >= TIME_TOP
  {
    var line := new MareyLine(d);
    ClampedApplyInRange(TimeScale(minTime, maxTime), d.stops[0].value.time);
    first := line.Anchor(TimeScale(minTime, maxTime));
    second := line.Anchor(later);
  }

  /** Translated down by the anchor, every point of a path lands at its own
      stop's scaled time. */
  lemma AnchoredPoint(xScale: real -> real, yScale: real -> real, header: Header, d: Trip, i: nat)
    requires Projectable(header, d) && i < |d.stops| && d.stops[i].Some?
    ensures yScale(d.stops[0].value.time) + GetPointsFromStop(xScale, yScale, header, d, false)[i].value.y
         == yScale(d.stops[i].value.time)
  {
    PointOfStop(xScale, yScale, header, d, false, i);
  }

  /** The trip the reader clicked on and the trip under the pointer. */
  class Selection {
    var highlightedTrip: Option<string>
    var hoveredTrip: Option<string>

    constructor ()
      ensures highlightedTrip == None && hoveredTrip == None
    {
      highlightedTrip := None;
      hoveredTrip := None;
    }

    /** The `highlight-active` class: a highlighted trip id that is truthy. */
    predicate HighlightActive()
      reads this
    {
      highlightedTrip.Some? && highlightedTrip.value != ""
    }

    /** The `active` class of a trip's elements. */
    predicate IsActive(d: Trip)
      reads this
    {
      highlightedTrip == Some(d.trip)
    }

    /** The `hover` class of a trip's elements. */
    predicate IsHovered(d: Trip)
      reads this
    {
      hoveredTrip == Some(d.trip)
    }

    /** `highlightTrain(d)`: `null` clears the highlight, a trip takes it. */
    method HighlightTrain(d: Option<Trip>)
      modifies this
      ensures highlightedTrip == if d.None? then None else Some(d.value.trip)
      ensures hoveredTrip == old(hoveredTrip)
      ensures d.Some? ==> IsActive(d.value)
    {
      if d.None? {
        highlightedTrip := None;
      } else {
        highlightedTrip := Some(d.value.trip);
      }
    }

    method HoverTrain(d: Trip)
      modifies this
      ensures hoveredTrip == Some(d.trip) && IsHovered(d)
      ensures highlightedTrip == old(highlightedTrip)
    {
      hoveredTrip := Some(d.trip);
    }

    method UnHoverTrain()
      modifies this
      ensures hoveredTrip == None
      ensures forall d: Trip :: !IsHovered(d)
      ensures highlightedTrip == old(highlightedTrip)
    {
      hoveredTrip := None;
    }
  }
}
