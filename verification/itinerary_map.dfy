/**
 * The itinerary map: the controller's choice of what to show (fit the
 * route, fit both places, or centre on the one place given) and the route
 * polyline.
 */
module ItineraryMap {
  import opened Common
  import opened RouteGeometry

  /** The zoom of `setView` on a single place. */
  const PlaceZoom: int := 13

  /** What the controller asks of the map. */
  datatype ViewAction = NoAction | FitBounds(points: seq<Position>) | SetView(center: Position, zoom: int)

  /** The controller's effect: a route with segments wins and is fitted to
      its collected points (nothing at all when none are present); otherwise
      both places are fitted, or the view is centred on the one given. */
  method Controller(depart: Option<Place>, arrivee: Option<Place>, route: Option<Route>) returns (action: ViewAction)
    ensures |SegmentsOf(route)| > 0 ==>
      action == (if |SegmentPoints(SegmentsOf(route))| > 0 then FitBounds(SegmentPoints(SegmentsOf(route))) else NoAction)
    ensures |SegmentsOf(route)| == 0 && depart.Some? && arrivee.Some? ==>
      action == FitBounds([PlaceAt(depart.value), PlaceAt(arrivee.value)])
    ensures |SegmentsOf(route)| == 0 && depart.Some? && arrivee.None? ==> action == SetView(PlaceAt(depart.value), PlaceZoom)
    ensures |SegmentsOf(route)| == 0 && depart.None? && arrivee.Some? ==> action == SetView(PlaceAt(arrivee.value), PlaceZoom)
    ensures |SegmentsOf(route)| == 0 && depart.None? && arrivee.None? ==> action == NoAction
  {
    var segments := SegmentsOf(route);
    if |segments| > 0 {
      var allPoints := CollectPoints(segments);
      action := if |allPoints| > 0 then FitBounds(allPoints) else NoAction;
    } else if depart.Some? && arrivee.Some? {
      action := FitBounds([PlaceAt(depart.value), PlaceAt(arrivee.value)]);
    } else if depart.Some? {
      action := SetView(PlaceAt(depart.value), PlaceZoom);
    } else if arrivee.Some? {
      action := SetView(PlaceAt(arrivee.value), PlaceZoom);
    } else {
      action := NoAction;
    }
  }

  /** A route whose segments carry no point at all: nothing happens, and in
      particular the view does not fall back to the two places. */
  lemma NoFallbackToPlaces(route: Option<Route>)
    requires |SegmentsOf(route)| > 0
    requires forall i :: 0 <= i < |SegmentsOf(route)| ==> !HasStart(SegmentsOf(route)[i]) && !HasEnd(SegmentsOf(route)[i])
    ensures SegmentPoints(SegmentsOf(route)) == []
  {
    var segments := SegmentsOf(route);
    SegmentPointsLength(segments);
    Lists.CountWherePositive(segments, HasStart);
    Lists.CountWherePositive(segments, HasEnd);
  }
}
