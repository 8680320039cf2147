/**
 * Route geometry as the map components read it: a route's segments, each
 * with an optional start and end point, the points collected from them for
 * fitting the view, and the polyline drawn through them.
 */
module RouteGeometry {
  import opened Common
  import opened Lists

  /** A Leaflet position `[latitude, longitude]`. */
  datatype Position = Position(lat: real, lng: real)

  /** A segment end: `{ latitude, longitude }`. */
  datatype RoutePoint = RoutePoint(latitude: real, longitude: real)

  datatype Segment = Segment(startPoint: Option<RoutePoint>, endPoint: Option<RoutePoint>)

  /** A route object; `segments` may be missing. */
  datatype Route = Route(segments: Option<seq<Segment>>)

  /** A start or end place picked by the user: `{ lat, lon }`. */
  datatype Place = Place(lat: real, lon: real)

  function At(p: RoutePoint): Position {
    Position(p.latitude, p.longitude)
  }

  function PlaceAt(p: Place): Position {
    Position(p.lat, p.lon)
  }

  /** `route && route.segments`, as a list (none when either is missing). */
  function SegmentsOf(route: Option<Route>): seq<Segment> {
    if route.Some? && route.value.segments.Some? then route.value.segments.value else []
  }

  /** The positions of one segment: its start, then its end, each only when
      present. */
  function SegmentEnds(s: Segment): (r: seq<Position>)
    ensures |r| == (if s.startPoint.Some? then 1 else 0) + (if s.endPoint.Some? then 1 else 0)
  {
    (if s.startPoint.Some? then [At(s.startPoint.value)] else [])
    + (if s.endPoint.Some? then [At(s.endPoint.value)] else [])
  }

  /** The points collected from the segments, in segment order. */
  function SegmentPoints(segments: seq<Segment>): seq<Position> {
    if segments == [] then []
    else SegmentPoints(segments[..|segments| - 1]) + SegmentEnds(segments[|segments| - 1])
  }

  predicate HasStart(s: Segment) {
    s.startPoint.Some?
  }

  predicate HasEnd(s: Segment) {
    s.endPoint.Some?
  }

  /** `segments.forEach(seg => { if (seg.startPoint) push(start); if
      (seg.endPoint) push(end); })` */
  method CollectPoints(segments: seq<Segment>) returns (points: seq<Position>)
    ensures points == SegmentPoints(segments)
  {
    points := [];
    var i := 0;
    while i < |segments|
      invariant 0 <= i <= |segments|
      invariant points == SegmentPoints(segments[..i])
    {
      var seg := segments[i];
      if seg.startPoint.Some? {
        points := points + [At(seg.startPoint.value)];
      }
      if seg.endPoint.Some? {
        points := points + [At(seg.endPoint.value)];
      }
      assert segments[..i + 1][..i] == segments[..i];
      i := i + 1;
    }
    assert segments[..i] == segments;
  }

  /** One point per present segment end. */
  lemma {:induction false} SegmentPointsLength(segments: seq<Segment>)
    ensures |SegmentPoints(segments)| == CountWhere(segments, HasStart) + CountWhere(segments, HasEnd)
    decreases |segments|
  {
    if segments != [] {
      var init := segments[..|segments| - 1];
      var last := segments[|segments| - 1];
      assert segments == init + [last];
      SegmentPointsLength(init);
      CountWhereSnoc(init, last, HasStart);
      CountWhereSnoc(init, last, HasEnd);
    }
  }

  /** Every segment complete: both ends present. */
  predicate Complete(segments: seq<Segment>) {
    forall i :: 0 <= i < |segments| ==> segments[i].startPoint.Some? && segments[i].endPoint.Some?
  }

  /** The route polyline, `segments.map(seg => [start, end]).flat()`; `None`
      when a segment lacks an end, where reading its `latitude` throws. */
  function PolylinePositions(segments: seq<Segment>): (r: Option<seq<Position>>)
    ensures r.Some? <==> Complete(segments)
    ensures r.Some? ==> |r.value| == 2 * |segments|
    decreases |segments|
  {
    if segments == [] then Some([])
    else
      var init := segments[..|segments| - 1];
      var last := segments[|segments| - 1];
      var rest := PolylinePositions(init);
      if rest.None? || last.startPoint.None? || last.endPoint.None? then
        assert !Complete(segments) by {
          if rest.None? {
            var i :| 0 <= i < |init| && !(init[i].startPoint.Some? && init[i].endPoint.Some?);
            assert segments[i] == init[i];
          }
        }
        None
      else Some(rest.value + [At(last.startPoint.value), At(last.endPoint.value)])
  }

  /** The polyline holds each segment's start then its end, in segment
      order. */
  lemma {:induction false} PolylineIndex(segments: seq<Segment>, i: nat)
    requires Complete(segments) && i < |segments|
    ensures PolylinePositions(segments).value[2 * i] == At(segments[i].startPoint.value)
    ensures PolylinePositions(segments).value[2 * i + 1] == At(segments[i].endPoint.value)
    decreases |segments|
  {
    var init := segments[..|segments| - 1];
    if i < |init| {
      assert init[i] == segments[i];
      PolylineIndex(init, i);
    }
  }

  /** On complete segments the polyline passes through exactly the points
      collected for fitting the view. */
  lemma {:induction false} PolylineIsCollectedPoints(segments: seq<Segment>)
    requires Complete(segments)
    ensures PolylinePositions(segments) == Some(SegmentPoints(segments))
    decreases |segments|
  {
    if segments != [] {
      var init := segments[..|segments| - 1];
      var last := segments[|segments| - 1];
      PolylineIsCollectedPoints(init);
      assert SegmentEnds(last) == [At(last.startPoint.value), At(last.endPoint.value)];
    }
  }
}
