/**
 * The interactive route map: where it is centred, which positions the view
 * is fitted to, and the POI markers' optimistic like and favourite toggles
 * on the map's local copy of the POIs.
 */
module InteractiveMap {
  import opened Common
  import opened Lists
  import opened Pois
  import opened RouteGeometry

  /** Yaoundé, the centre when there is neither a route nor a start point. */
  const DefaultCenter: Position := Position(3.848, 11.5021)

  /** `center`: the first segment's start when the route has segments, else
      the start point, else the default. `None` when the first segment has
      no start point, where reading its `latitude` throws. */
  function Center(route: Option<Route>, startPoint: Option<Place>): (r: Option<Position>)
    ensures |SegmentsOf(route)| > 0 ==>
      r == (if SegmentsOf(route)[0].startPoint.Some? then Some(At(SegmentsOf(route)[0].startPoint.value)) else None)
    ensures |SegmentsOf(route)| == 0 && startPoint.Some? ==> r == Some(PlaceAt(startPoint.value))
    ensures |SegmentsOf(route)| == 0 && startPoint.None? ==> r == Some(DefaultCenter)
  {
    var segments := SegmentsOf(route);
    if |segments| > 0 then
      if segments[0].startPoint.Some? then Some(At(segments[0].startPoint.value)) else None
    else if startPoint.Some? then Some(PlaceAt(startPoint.value))
    else Some(DefaultCenter)
  }

  function PoiPosition(p: Poi): Position {
    Position(p.latitude, p.longitude)
  }

  function Optional(place: Option<Place>): seq<Position> {
    if place.Some? then [PlaceAt(place.value)] else []
  }

  /** `allPositions`: the route's segment ends, then every POI, then the
      start point, then the end point. */
  function AllPositions(route: Option<Route>, pois: seq<Poi>, startPoint: Option<Place>, endPoint: Option<Place>): seq<Position> {
    SegmentPoints(SegmentsOf(route)) + Map(pois, PoiPosition) + Optional(startPoint) + Optional(endPoint)
  }

  /** The render's `allPositions.push(...)` steps. */
  method CollectAllPositions(route: Option<Route>, pois: seq<Poi>, startPoint: Option<Place>, endPoint: Option<Place>)
    returns (positions: seq<Position>)
    ensures positions == AllPositions(route, pois, startPoint, endPoint)
  {
    positions := CollectPoints(SegmentsOf(route));
    ghost var routePoints := positions;
    var i := 0;
    while i < |pois|
      invariant 0 <= i <= |pois|
      invariant positions == routePoints + Map(pois[..i], PoiPosition)
    {
      assert Map(pois[..i + 1], PoiPosition) == Map(pois[..i], PoiPosition) + [PoiPosition(pois[i])];
      positions := positions + [PoiPosition(pois[i])];
      i := i + 1;
    }
    assert pois[..i] == pois;
    if startPoint.Some? {
      positions := positions + [PlaceAt(startPoint.value)];
    }
    if endPoint.Some? {
      positions := positions + [PlaceAt(endPoint.value)];
    }
  }

  /** One position per present segment end, per POI and per given start or
      end point. */
  lemma AllPositionsLength(route: Option<Route>, pois: seq<Poi>, startPoint: Option<Place>, endPoint: Option<Place>)
    ensures |AllPositions(route, pois, startPoint, endPoint)|
      == CountWhere(SegmentsOf(route), HasStart) + CountWhere(SegmentsOf(route), HasEnd)
         + |pois| + (if startPoint.Some? then 1 else 0) + (if endPoint.Some? then 1 else 0)
  {
    SegmentPointsLength(SegmentsOf(route));
  }

  /** `allPositions.length > 0 && <MapBounds .../>`: the view is fitted
      exactly when some segment end, some POI or a start or end point is
      given. */
  lemma FitsBoundsWhenSomethingToShow(route: Option<Route>, pois: seq<Poi>, startPoint: Option<Place>, endPoint: Option<Place>)
    ensures |AllPositions(route, pois, startPoint, endPoint)| > 0 <==>
      (exists i :: 0 <= i < |SegmentsOf(route)| && (HasStart(SegmentsOf(route)[i]) || HasEnd(SegmentsOf(route)[i])))
      || pois != [] || startPoint.Some? || endPoint.Some?
  {
    var segments := SegmentsOf(route);
    AllPositionsLength(route, pois, startPoint, endPoint);
    CountWherePositive(segments, HasStart);
    CountWherePositive(segments, HasEnd);
  }

  /** Whenever the centre is not the default it is one of the positions the
      view is fitted to. */
  lemma CenterIsShown(route: Option<Route>, pois: seq<Poi>, startPoint: Option<Place>, endPoint: Option<Place>)
    requires Center(route, startPoint).Some? && Center(route, startPoint) != Some(DefaultCenter)
    ensures Center(route, startPoint).value in AllPositions(route, pois, startPoint, endPoint)
  {
    var segments := SegmentsOf(route);
    if |segments| > 0 {
      var first := segments[0];
      assert segments == [first] + segments[1..];
      SegmentPointsFirst(first, segments[1..]);
      assert At(first.startPoint.value) in SegmentEnds(first);
    }
  }

  /** The first segment's ends are among the collected points. */
  lemma {:induction false} SegmentPointsFirst(first: Segment, rest: seq<Segment>)
    ensures forall x :: x in SegmentEnds(first) ==> x in SegmentPoints([first] + rest)
    decreases |rest|
  {
    if rest == [] {
      assert SegmentPoints([first]) == SegmentPoints([]) + SegmentEnds(first);
    } else {
      var all := [first] + rest;
      var init := rest[..|rest| - 1];
      assert all[..|all| - 1] == [first] + init;
      SegmentPointsFirst(first, init);
    }
  }

  /** The markers' layer: the map's own copy of the POIs (`localPois`). */
  class MarkerLayer {
    var localPois: seq<Poi>

    constructor(pois: seq<Poi>)
      ensures localPois == pois
    {
      localPois := pois;
    }

    /** The effect that copies new props into the local list. */
    method Sync(pois: seq<Poi>)
      modifies this
      ensures localPois == pois
    {
      localPois := pois;
    }

    /** A marker's like (`r == Like`) or favourite (`r == Favorite`) button:
        every POI with the marker's `poiId` negates its own flag and moves
        its counter; the request follows the marker's own flag; on success
        the parent is notified, on failure the list goes back to what it
        was. */
    method HandleReaction(r: Reaction, poi: Poi, succeeded: bool) returns (call: ReactionCall, notified: bool)
      modifies this
      ensures localPois == (if succeeded then ReactMatching(old(localPois), r, PoiIdOnly, poi.poiId, None)
                            else old(localPois))
      ensures call == CallFor(r, Flag(poi, r), poi.poiId)
      ensures notified == succeeded
    {
      var before := localPois;
      localPois := ReactMatching(localPois, r, PoiIdOnly, poi.poiId, None);
      call := CallFor(r, Flag(poi, r), poi.poiId);
      notified := succeeded;
      if !succeeded {
        localPois := before;
      }
    }
  }

  /** For the marker's own entry the new flag and the request agree: the
      flag is set exactly when a like (or add-to-favourites) is sent, and
      every other reaction is left alone. */
  lemma MarkerEntryAgreesWithCall(pois: seq<Poi>, i: nat, r: Reaction)
    requires i < |pois|
    ensures var qs := ReactMatching(pois, r, PoiIdOnly, pois[i].poiId, None);
      var c := CallFor(r, Flag(pois[i], r), pois[i].poiId);
      Flag(qs[i], r) == !Flag(pois[i], r)
      && (Flag(qs[i], r) <==> (c.LikePoi? || c.AddToFavorites?))
      && WithReaction(qs[i], r, Flag(pois[i], r), Count(pois[i], r)) == pois[i]
  {
  }
}
