/**
 * The itinerary editor page. The user names the itinerary, clicks the map
 * to place the departure, then the arrival, then any number of free
 * waypoints, and can toggle points of interest as waypoints. Every change
 * to the points throws away the route calculated so far. The route is
 * requested from the routing backend only when both ends are placed, and
 * saved only with a name and a calculated route.
 *
 * The page's React state is the class `ItineraryEditor`; each handler is a
 * method whose new state is given by a pure step function on `Draft`, the
 * value of that state, and the lemmas are about those step functions.
 * `Date.now()` and the backend's answers are parameters.
 */
module ItineraryCreate {
  import opened Common
  import Lists
  import Polyline

  /** A Leaflet `latlng`. */
  datatype LatLng = LatLng(lat: real, lng: real)

  /** An entry of the waypoint list: a free map point (`poiId` absent, `id`
      the click time) or a point of interest (`id` and `poiId` both its id). */
  datatype Waypoint = Waypoint(id: Option<int>, poiId: Option<int>, name: Option<string>, lat: real, lng: real)

  /** The fields of a point of interest that the page reads. */
  datatype Poi = Poi(poiId: Option<int>, name: Option<string>, latitude: real, longitude: real)

  /** A route as the routing backend describes it. */
  datatype RouteInfo = RouteInfo(geometryEncoded: Option<string>, totalDistanceKm: real, totalTimeSeconds: Option<int>)

  /** The points and the calculated route: everything a map click, a POI
      toggle, a waypoint removal or the reset button changes. */
  datatype Draft = Draft(
    origin: string,
    destination: string,
    originCoords: Option<LatLng>,
    destCoords: Option<LatLng>,
    waypoints: seq<Waypoint>,
    calculatedRoute: Option<RouteInfo>)

  const EmptyDraft := Draft("", "", None, None, [], None)

  // ---------------------------------------------------------------------------
  // `x.toFixed(f)` for the point labels
  // ---------------------------------------------------------------------------

  function Abs(x: real): real {
    if x < 0.0 then -x else x
  }

  /** The integer nearest to `a`, the larger one on a tie. */
  function RoundHalfUp(a: real): (n: nat)
    requires a >= 0.0
    ensures n as real - 0.5 <= a < n as real + 0.5
  {
    (a + 0.5).Floor
  }

  function Zeros(k: nat): (z: string)
    ensures |z| == k && forall i :: 0 <= i < k ==> z[i] == '0'
  {
    if k == 0 then "" else "0" + Zeros(k - 1)
  }

  /** The digits of `n`, with leading zeros up to at least `f + 1` digits. */
  function PaddedDigits(n: nat, f: nat): (z: string)
    ensures |z| >= f + 1
    ensures Polyline.AllDigits(z)
  {
    var m := NatToString(n);
    if |m| <= f then Zeros(f + 1 - |m|) + m else m
  }

  /** The digits of `n` with a '.' before the last `f` of them. */
  function FixedText(n: nat, f: nat): (t: string)
    ensures |t| >= f + 1
  {
    var z := PaddedDigits(n, f);
    if f == 0 then z else z[..|z| - f] + "." + z[|z| - f..]
  }

  /** `x.toFixed(f)`: the magnitude times 10^f rounded half up, printed with
      `f` decimals, and a '-' in front of a negative number. */
  function ToFixed(x: real, f: nat): (r: string)
    ensures |r| >= f + 1
  {
    SignedFixed(x < 0.0, RoundHalfUp(Scaled(x, f)), f)
  }

  /** |x| * 10^f */
  function Scaled(x: real, f: nat): (a: real)
    ensures a >= 0.0
  {
    Abs(x) * Polyline.Pow10(f) as real
  }

  function SignedFixed(negative: bool, n: nat, f: nat): (r: string)
    ensures |r| >= f + 1
  {
    if negative then "-" + FixedText(n, f) else FixedText(n, f)
  }

  lemma {:induction false} DigitsValueZeros(k: nat)
    ensures DigitsValue(Zeros(k)) == 0
  {
    if k > 0 {
      assert Zeros(k)[..k - 1] == Zeros(k - 1);
      DigitsValueZeros(k - 1);
    }
  }

  /** Leading zeros do not change the value of a digit string. */
  lemma {:induction false} DigitsValueLeadingZeros(k: nat, m: string)
    requires Polyline.AllDigits(m)
    ensures DigitsValue(Zeros(k) + m) == DigitsValue(m)
    decreases |m|
  {
    if m == [] {
      assert Zeros(k) + m == Zeros(k);
      DigitsValueZeros(k);
    } else {
      var s := Zeros(k) + m;
      assert s[..|s| - 1] == Zeros(k) + m[..|m| - 1];
      assert s[|s| - 1] == m[|m| - 1];
      DigitsValueLeadingZeros(k, m[..|m| - 1]);
    }
  }

  lemma PaddedDigitsValue(n: nat, f: nat)
    ensures DigitsValue(PaddedDigits(n, f)) == n
  {
    var m, z := NatToString(n), PaddedDigits(n, f);
    NatToStringValue(n);
    if |m| <= f {
      var k := f + 1 - |m|;
      assert z == Zeros(k) + m;
      assert Polyline.AllDigits(m);
      DigitsValueLeadingZeros(k, m);
    }
  }

  /** The text of `n` with `f > 0` decimals is its padded digits with a '.'
      inserted before the last `f`. */
  lemma FixedTextShape(n: nat, f: nat)
    requires f > 0
    ensures var t := FixedText(n, f);
      |t| >= f + 2 && t[|t| - f - 1] == '.' && IsDigit(t[0])
      && t[..|t| - f - 1] + t[|t| - f..] == PaddedDigits(n, f)
  {
    var z := PaddedDigits(n, f);
    var t := FixedText(n, f);
    var a, b := z[..|z| - f], z[|z| - f..];
    assert t == a + "." + b;
    assert t[..|t| - f - 1] == a;
    assert t[|t| - f..] == b;
    assert a + b == z;
    assert t[0] == z[0];
  }

  /** Reads a fixed-point text with `f > 0` decimals: an optional '-', one
      or more digits, '.', exactly `f` digits. Gives the sign and the digits
      taken as one integer, or `None` for any other text. */
  function ReadFixed(r: string, f: nat): Option<(bool, nat)> {
    var negative := |r| > 0 && r[0] == '-';
    var body := if negative then r[1..] else r;
    if f > 0 && |body| >= f + 2 && body[|body| - f - 1] == '.' then
      var digits := body[..|body| - f - 1] + body[|body| - f..];
      if Polyline.AllDigits(digits) then Some((negative, DigitsValue(digits))) else None
    else None
  }

  /** A text of digits, '.', `f` digits, read with or without a '-' in
      front. */
  lemma ReadFixedOf(r: string, t: string, f: nat, negative: bool)
    requires f > 0 && |t| >= f + 2 && t[|t| - f - 1] == '.' && IsDigit(t[0])
    requires r == if negative then "-" + t else t
    ensures var digits := t[..|t| - f - 1] + t[|t| - f..];
      ReadFixed(r, f) == if Polyline.AllDigits(digits) then Some((negative, DigitsValue(digits))) else None
  {
    if negative {
      assert r[0] == '-' && r[1..] == t;
    } else {
      assert r[0] == t[0];
    }
  }

  /** Reading a signed fixed-point text gives its sign and number back. */
  lemma ReadSignedFixed(negative: bool, n: nat, f: nat)
    requires f > 0
    ensures ReadFixed(SignedFixed(negative, n, f), f) == Some((negative, n))
  {
    FixedTextShape(n, f);
    PaddedDigitsValue(n, f);
    ReadFixedOf(SignedFixed(negative, n, f), FixedText(n, f), f, negative);
  }

  /** Reading `x.toFixed(f)` back gives the sign of `x` and an integer within
      half a unit of |x| * 10^f: the text is |x| rounded to `f` decimals. */
  lemma ToFixedReadsBack(x: real, f: nat)
    requires f > 0
    ensures var read := ReadFixed(ToFixed(x, f), f);
      read.Some? && read.value.0 == (x < 0.0)
      && -0.5 < read.value.1 as real - Scaled(x, f) <= 0.5
  {
    ReadSignedFixed(x < 0.0, RoundHalfUp(Scaled(x, f)), f);
  }

  /** `Point (${lat.toFixed(4)}, ${lng.toFixed(4)})` */
  function PointLabel(p: LatLng): string {
    "Point (" + ToFixed(p.lat, 4) + ", " + ToFixed(p.lng, 4) + ")"
  }

  // ---------------------------------------------------------------------------
  // Step functions
  // ---------------------------------------------------------------------------

  /** The waypoint a click adds once both ends are placed. */
  function ClickWaypoint(p: LatLng, now: int, count: nat): Waypoint {
    Waypoint(Some(now), None, Some("Étape " + NatToString(count + 1)), p.lat, p.lng)
  }

  /** `handleMapClick(latlng)` at time `now`: the first click places the
      departure, the second the arrival, every later one appends a free
      waypoint numbered after the existing ones; the route is dropped. */
  function MapClick(d: Draft, p: LatLng, now: int): (r: Draft)
    ensures r.calculatedRoute.None?
    ensures d.originCoords.None? ==> r == d.(originCoords := Some(p), origin := PointLabel(p), calculatedRoute := None)
    ensures d.originCoords.Some? ==> r.originCoords == d.originCoords && r.origin == d.origin
    ensures d.originCoords.Some? && d.destCoords.None? ==>
      r == d.(destCoords := Some(p), destination := PointLabel(p), calculatedRoute := None)
    ensures d.destCoords.Some? ==> r.destCoords == d.destCoords && r.destination == d.destination
    ensures d.originCoords.Some? && d.destCoords.Some? ==>
      r.waypoints == d.waypoints + [ClickWaypoint(p, now, |d.waypoints|)]
  {
    if d.originCoords.None? then
      d.(originCoords := Some(p), origin := PointLabel(p), calculatedRoute := None)
    else if d.destCoords.None? then
      d.(destCoords := Some(p), destination := PointLabel(p), calculatedRoute := None)
    else
      d.(waypoints := d.waypoints + [ClickWaypoint(p, now, |d.waypoints|)], calculatedRoute := None)
  }

  /** `{ ...poi, lat: poi.latitude, lng: poi.longitude, id: poi.poiId }` */
  function PoiWaypoint(poi: Poi): Waypoint {
    Waypoint(poi.poiId, poi.poiId, poi.name, poi.latitude, poi.longitude)
  }

  predicate HasPoi(ws: seq<Waypoint>, poiId: Option<int>) {
    exists k :: 0 <= k < |ws| && ws[k].poiId == poiId
  }

  /** `togglePoiWaypoint(poi)` on the list: every waypoint with the POI's id
      is removed if there is one, else the POI is appended. */
  function TogglePoi(ws: seq<Waypoint>, poi: Poi): (r: seq<Waypoint>)
    ensures HasPoi(ws, poi.poiId) ==> !HasPoi(r, poi.poiId) && Lists.IsSubsequence(r, ws)
    ensures !HasPoi(ws, poi.poiId) ==> r == ws + [PoiWaypoint(poi)]
  {
    if HasPoi(ws, poi.poiId) then
      var r := Lists.Filter(ws, (w: Waypoint) => w.poiId != poi.poiId);
      Lists.FilterSpec(ws, (w: Waypoint) => w.poiId != poi.poiId);
      r
    else ws + [PoiWaypoint(poi)]
  }

  /** The removal button of a waypoint: every entry with that `id` goes. */
  function WithoutWaypoint(ws: seq<Waypoint>, id: Option<int>): (r: seq<Waypoint>)
    ensures Lists.IsSubsequence(r, ws)
    ensures forall k :: 0 <= k < |r| ==> r[k].id != id
    ensures forall w :: w in ws && w.id != id ==> w in r
  {
    Lists.FilterSpec(ws, (w: Waypoint) => w.id != id);
    Lists.Filter(ws, (w: Waypoint) => w.id != id)
  }

  function TogglePoiStep(d: Draft, poi: Poi): (r: Draft)
    ensures r == d.(waypoints := TogglePoi(d.waypoints, poi), calculatedRoute := None)
  {
    d.(waypoints := TogglePoi(d.waypoints, poi), calculatedRoute := None)
  }

  // ---------------------------------------------------------------------------
  // Route calculation
  // ---------------------------------------------------------------------------

  datatype RouteRequest = RouteRequest(
    startLatitude: real, startLongitude: real,
    endLatitude: real, endLongitude: real,
    waypointPoiIds: seq<int>)

  /** `waypoints.filter(wp => wp.poiId).map(wp => wp.poiId)`: the truthy
      POI ids, in list order. */
  function PoiIds(ws: seq<Waypoint>): (r: seq<int>)
    ensures |r| <= |ws|
    ensures forall k :: 0 <= k < |r| ==> r[k] != 0
  {
    if ws == [] then []
    else (if TruthyInt(ws[0].poiId) then [ws[0].poiId.value] else []) + PoiIds(ws[1..])
  }

  lemma {:induction false} PoiIdsAppend(a: seq<Waypoint>, b: seq<Waypoint>)
    ensures PoiIds(a + b) == PoiIds(a) + PoiIds(b)
  {
    if a == [] {
      assert a + b == b;
    } else {
      assert (a + b)[0] == a[0] && (a + b)[1..] == a[1..] + b;
      PoiIdsAppend(a[1..], b);
    }
  }

  /** A number is sent as a POI waypoint exactly when it is non-zero and some
      waypoint carries it as its `poiId`. */
  lemma {:induction false} PoiIdsMembers(ws: seq<Waypoint>, x: int)
    ensures x in PoiIds(ws) <==> x != 0 && exists k :: 0 <= k < |ws| && ws[k].poiId == Some(x)
  {
    if ws != [] {
      PoiIdsMembers(ws[1..], x);
      if exists k :: 0 <= k < |ws[1..]| && ws[1..][k].poiId == Some(x) {
        var k :| 0 <= k < |ws[1..]| && ws[1..][k].poiId == Some(x);
        assert ws[k + 1].poiId == Some(x);
      }
      if exists k :: 0 <= k < |ws| && ws[k].poiId == Some(x) {
        var k :| 0 <= k < |ws| && ws[k].poiId == Some(x);
        if k > 0 {
          assert ws[1..][k - 1].poiId == Some(x);
        }
      }
    }
  }

  /** A free waypoint adds nothing to the request; a POI with a non-zero id
      adds its id at the end. */
  lemma PoiIdsAfterAdding(ws: seq<Waypoint>, p: LatLng, now: int, poi: Poi)
    ensures PoiIds(ws + [ClickWaypoint(p, now, |ws|)]) == PoiIds(ws)
    ensures TruthyInt(poi.poiId) ==> PoiIds(ws + [PoiWaypoint(poi)]) == PoiIds(ws) + [poi.poiId.value]
    ensures !TruthyInt(poi.poiId) ==> PoiIds(ws + [PoiWaypoint(poi)]) == PoiIds(ws)
  {
    PoiIdsAppend(ws, [ClickWaypoint(p, now, |ws|)]);
    PoiIdsSingle(ClickWaypoint(p, now, |ws|));
    assert ws + [] == ws;
    PoiIdsAppend(ws, [PoiWaypoint(poi)]);
    PoiIdsSingle(PoiWaypoint(poi));
  }

  lemma PoiIdsSingle(w: Waypoint)
    ensures PoiIds([w]) == if TruthyInt(w.poiId) then [w.poiId.value] else []
  {
    assert [w][1..] == [];
  }

  /** The request `handleCalculateRoute` sends, or `None` when a point is
      missing and it only alerts. */
  function RouteRequestFor(d: Draft): (r: Option<RouteRequest>)
    ensures r.Some? <==> d.originCoords.Some? && d.destCoords.Some?
    ensures r.Some? ==> r.value.startLatitude == d.originCoords.value.lat && r.value.startLongitude == d.originCoords.value.lng
    ensures r.Some? ==> r.value.endLatitude == d.destCoords.value.lat && r.value.endLongitude == d.destCoords.value.lng
  {
    if d.originCoords.None? || d.destCoords.None? then None
    else
      var o, t := d.originCoords.value, d.destCoords.value;
      Some(RouteRequest(o.lat, o.lng, t.lat, t.lng, PoiIds(d.waypoints)))
  }

  datatype RoutingData = RoutingData(found: bool, customRoute: Option<RouteInfo>, optimalRoute: Option<RouteInfo>)

  /** What `routingService.calculate` gave: a response (whose `data` may be
      missing) or a thrown error. */
  datatype RoutingOutcome = RoutingFailed | RoutingResponse(data: Option<RoutingData>)

  const MissingEndsMessage := "Veuillez sélectionner un point de départ et d'arrivée sur la carte."
  const NoRouteMessage := "Aucun itinéraire trouvé."
  const RoutingErrorMessage := "Erreur lors du calcul de l'itinéraire."

  /** `response.data.customRoute || response.data.optimalRoute` */
  function ChosenRoute(data: RoutingData): (r: Option<RouteInfo>)
    ensures data.customRoute.Some? ==> r == data.customRoute
    ensures data.customRoute.None? ==> r == data.optimalRoute
  {
    if data.customRoute.Some? then data.customRoute else data.optimalRoute
  }

  function Found(outcome: RoutingOutcome): bool {
    outcome.RoutingResponse? && outcome.data.Some? && outcome.data.value.found
  }

  // ---------------------------------------------------------------------------
  // Saving
  // ---------------------------------------------------------------------------

  /** The identifiers a stored user object may carry. */
  datatype StoredUser = StoredUser(id: Option<int>, userId: Option<int>, user_id: Option<int>)

  /** The body given to `itineraryService.createItinerary`; `waypoints` is
      the list that the page sends as JSON text. */
  datatype ItineraryPayload = ItineraryPayload(
    userId: Option<int>,
    name: string,
    originLocation: string,
    destinationLocation: string,
    waypoints: seq<Waypoint>,
    geometryEncoded: Option<string>,
    distanceMeters: real,
    durationSeconds: Option<int>)

  const NameRequiredMessage := "Nom requis"
  const RouteRequiredMessage := "Veuillez calculer l'itinéraire avant d'enregistrer."
  const SavedMessage := "Itinéraire sauvegardé !"
  const SaveErrorMessage := "Erreur lors de la sauvegarde."
  const ItineraryListPath := "/User/Itineraire"

  /** `user?.id || user?.userId || user?.user_id`: the first truthy id;
      when none is truthy, `||` yields `user_id` as it stands (possibly 0). */
  function UserIdOf(user: Option<StoredUser>): (r: Option<int>)
    ensures user.None? ==> r.None?
    ensures user.Some? ==> r == user.value.id || r == user.value.userId || r == user.value.user_id
    ensures TruthyInt(r) <==>
      user.Some? && (TruthyInt(user.value.id) || TruthyInt(user.value.userId) || TruthyInt(user.value.user_id))
    ensures user.Some? && TruthyInt(user.value.id) ==> r == user.value.id
    ensures user.Some? && !TruthyInt(user.value.id) && TruthyInt(user.value.userId) ==> r == user.value.userId
    ensures user.Some? && !TruthyInt(user.value.id) && !TruthyInt(user.value.userId) ==> r == user.value.user_id
  {
    if user.None? then None
    else if TruthyInt(user.value.id) then user.value.id
    else if TruthyInt(user.value.userId) then user.value.userId
    else user.value.user_id
  }

  function SavePayload(name: string, d: Draft, route: RouteInfo, user: Option<StoredUser>): (r: ItineraryPayload)
    ensures r.name == name && r.waypoints == d.waypoints
    ensures r.originLocation == (if d.origin == "" then "Départ personnalisé" else d.origin)
    ensures r.destinationLocation == (if d.destination == "" then "Arrivée personnalisée" else d.destination)
    ensures r.distanceMeters == route.totalDistanceKm * 1000.0
    ensures r.geometryEncoded == route.geometryEncoded && r.durationSeconds == route.totalTimeSeconds
    ensures r.userId == UserIdOf(user)
  {
    ItineraryPayload(
      UserIdOf(user), name,
      OrElse(Some(d.origin), "Départ personnalisé"),
      OrElse(Some(d.destination), "Arrivée personnalisée"),
      d.waypoints, route.geometryEncoded,
      route.totalDistanceKm * 1000.0, route.totalTimeSeconds)
  }

  // ---------------------------------------------------------------------------
  // Properties of the step functions
  // ---------------------------------------------------------------------------

  /** Clicks at `ps`, the i-th at time `ts[i]`, one after the other. */
  function Clicks(d: Draft, ps: seq<LatLng>, ts: seq<int>): Draft
    requires |ts| == |ps|
    decreases |ps|
  {
    if ps == [] then d else Clicks(MapClick(d, ps[0], ts[0]), ps[1..], ts[1..])
  }

  /** With both ends placed, clicks only append free waypoints, numbered
      on from the list's length, and leave both ends alone. */
  lemma {:induction false} ClicksAppendWaypoints(d: Draft, ps: seq<LatLng>, ts: seq<int>)
    requires |ts| == |ps|
    requires d.originCoords.Some? && d.destCoords.Some?
    ensures var r := Clicks(d, ps, ts);
      r.originCoords == d.originCoords && r.destCoords == d.destCoords
      && r.origin == d.origin && r.destination == d.destination
      && |r.waypoints| == |d.waypoints| + |ps|
      && r.waypoints[..|d.waypoints|] == d.waypoints
      && forall k :: 0 <= k < |ps| ==>
           r.waypoints[|d.waypoints| + k] == ClickWaypoint(ps[k], ts[k], |d.waypoints| + k)
    decreases |ps|
  {
    if ps != [] {
      var d1 := MapClick(d, ps[0], ts[0]);
      ClicksAppendWaypoints(d1, ps[1..], ts[1..]);
      var r := Clicks(d, ps, ts);
      assert r == Clicks(d1, ps[1..], ts[1..]);
      var n := |d.waypoints|;
      assert r.waypoints[..n + 1] == d1.waypoints;
      assert r.waypoints[..n] == d1.waypoints[..n];
      forall k | 0 <= k < |ps|
        ensures r.waypoints[n + k] == ClickWaypoint(ps[k], ts[k], n + k)
      {
        if k == 0 {
          assert r.waypoints[n] == r.waypoints[..n + 1][n];
        } else {
          assert ps[1..][k - 1] == ps[k] && ts[1..][k - 1] == ts[k];
        }
      }
    }
  }

  /** Starting from an empty editor, the first click is the departure, the
      second the arrival, and the i-th later click (from 1) is the waypoint
      'Étape i'; the route is cleared. */
  lemma ClicksFromEmpty(ps: seq<LatLng>, ts: seq<int>)
    requires |ts| == |ps| >= 2
    ensures var r := Clicks(EmptyDraft, ps, ts);
      r.originCoords == Some(ps[0]) && r.origin == PointLabel(ps[0])
      && r.destCoords == Some(ps[1]) && r.destination == PointLabel(ps[1])
      && |r.waypoints| == |ps| - 2
      && (forall k :: 2 <= k < |ps| ==>
            r.waypoints[k - 2] == Waypoint(Some(ts[k]), None, Some("Étape " + NatToString(k - 1)), ps[k].lat, ps[k].lng))
      && r.calculatedRoute.None?
  {
    var d2 := Draft(PointLabel(ps[0]), PointLabel(ps[1]), Some(ps[0]), Some(ps[1]), [], None);
    FirstTwoClicks(ps, ts, d2);
    ClicksAppendWaypoints(d2, ps[2..], ts[2..]);
    ClicksClearRoute(d2, ps[2..], ts[2..]);
    LaterClicksNumbered(d2, ps, ts);
  }

  /** After the two ends, the clicks become the waypoints 'Étape 1',
      'Étape 2', and so on. */
  lemma LaterClicksNumbered(d2: Draft, ps: seq<LatLng>, ts: seq<int>)
    requires |ts| == |ps| >= 2
    requires d2.originCoords.Some? && d2.destCoords.Some? && d2.waypoints == []
    ensures var r := Clicks(d2, ps[2..], ts[2..]);
      |r.waypoints| == |ps| - 2
      && forall k :: 2 <= k < |ps| ==>
           r.waypoints[k - 2] == ClickWaypoint(ps[k], ts[k], k - 2)
  {
    ClicksAppendWaypoints(d2, ps[2..], ts[2..]);
    var r := Clicks(d2, ps[2..], ts[2..]);
    forall k | 2 <= k < |ps|
      ensures r.waypoints[k - 2] == ClickWaypoint(ps[k], ts[k], k - 2)
    {
      assert ps[2..][k - 2] == ps[k] && ts[2..][k - 2] == ts[k];
      assert r.waypoints[0 + (k - 2)] == ClickWaypoint(ps[2..][k - 2], ts[2..][k - 2], k - 2);
    }
  }

  lemma FirstTwoClicks(ps: seq<LatLng>, ts: seq<int>, d2: Draft)
    requires |ts| == |ps| >= 2
    requires d2 == Draft(PointLabel(ps[0]), PointLabel(ps[1]), Some(ps[0]), Some(ps[1]), [], None)
    ensures Clicks(EmptyDraft, ps, ts) == Clicks(d2, ps[2..], ts[2..])
  {
    var d1 := MapClick(EmptyDraft, ps[0], ts[0]);
    assert d1 == Draft("", "", None, None, [], None).(originCoords := Some(ps[0]), origin := PointLabel(ps[0]));
    assert MapClick(d1, ps[1], ts[1]) == d2;
    assert ps[1..][1..] == ps[2..] && ts[1..][1..] == ts[2..];
  }

  lemma {:induction false} ClicksClearRoute(d: Draft, ps: seq<LatLng>, ts: seq<int>)
    requires |ts| == |ps|
    requires d.calculatedRoute.None? || |ps| > 0
    ensures Clicks(d, ps, ts).calculatedRoute.None?
    decreases |ps|
  {
    if ps != [] {
      ClicksClearRoute(MapClick(d, ps[0], ts[0]), ps[1..], ts[1..]);
    }
  }

  /** Toggling a POI that is not in the list twice gives the list back. */
  lemma ToggleTwiceRestores(ws: seq<Waypoint>, poi: Poi)
    requires !HasPoi(ws, poi.poiId)
    ensures TogglePoi(TogglePoi(ws, poi), poi) == ws
  {
    var once := ws + [PoiWaypoint(poi)];
    assert once[|ws|].poiId == poi.poiId;
    assert HasPoi(once, poi.poiId);
    var p := (w: Waypoint) => w.poiId != poi.poiId;
    Lists.FilterAppend(ws, [PoiWaypoint(poi)], p);
    Lists.FilterAll(ws, p);
    assert Lists.Filter([PoiWaypoint(poi)], p) == [];
  }

  /** Removing a present POI keeps every other waypoint, in order. */
  lemma ToggleRemovesOnlyThatPoi(ws: seq<Waypoint>, poi: Poi)
    requires HasPoi(ws, poi.poiId)
    ensures var r := TogglePoi(ws, poi);
      (forall w :: w in ws && w.poiId != poi.poiId ==> w in r)
      && (forall k :: 0 <= k < |r| ==> r[k].poiId != poi.poiId)
      && Lists.IsSubsequence(r, ws)
  {
    Lists.FilterSpec(ws, (w: Waypoint) => w.poiId != poi.poiId);
  }

  // ---------------------------------------------------------------------------
  // The page
  // ---------------------------------------------------------------------------

  class ItineraryEditor {
    var name: string
    var origin: string
    var destination: string
    var originCoords: Option<LatLng>
    var destCoords: Option<LatLng>
    var waypoints: seq<Waypoint>
    var calculatedRoute: Option<RouteInfo>
    var saving: bool
    var calculating: bool

    /** The points and route as a value. */
    function State(): Draft
      reads this
    {
      Draft(origin, destination, originCoords, destCoords, waypoints, calculatedRoute)
    }

    constructor()
      ensures State() == EmptyDraft && name == "" && !saving && !calculating
    {
      name, origin, destination := "", "", "";
      originCoords, destCoords := None, None;
      waypoints, calculatedRoute := [], None;
      saving, calculating := false, false;
    }

    /** The name input's `onChange`. */
    method SetName(value: string)
      modifies this
      ensures name == value && State() == old(State())
      ensures saving == old(saving) && calculating == old(calculating)
    {
      name := value;
    }

    /** `handleMapClick(latlng)`, `now` being `Date.now()`. */
    method HandleMapClick(latlng: LatLng, now: int)
      modifies this
      ensures State() == MapClick(old(State()), latlng, now)
      ensures name == old(name) && saving == old(saving) && calculating == old(calculating)
    {
      if originCoords.None? {
        originCoords := Some(latlng);
        origin := PointLabel(latlng);
      } else if destCoords.None? {
        destCoords := Some(latlng);
        destination := PointLabel(latlng);
      } else {
        var newWp := ClickWaypoint(latlng, now, |waypoints|);
        waypoints := waypoints + [newWp];
      }
      calculatedRoute := None;
    }

    /** `togglePoiWaypoint(poi)` */
    method TogglePoiWaypoint(poi: Poi)
      modifies this
      ensures State() == TogglePoiStep(old(State()), poi)
      ensures name == old(name) && saving == old(saving) && calculating == old(calculating)
    {
      waypoints := TogglePoi(waypoints, poi);
      calculatedRoute := None;
    }

    /** The delete button of the waypoint whose id is `id`. */
    method RemoveWaypoint(id: Option<int>)
      modifies this
      ensures State() == old(State()).(waypoints := WithoutWaypoint(old(waypoints), id), calculatedRoute := None)
      ensures name == old(name) && saving == old(saving) && calculating == old(calculating)
    {
      waypoints := WithoutWaypoint(waypoints, id);
      calculatedRoute := None;
    }

    /** The 'Réinitialiser' button: everything but the name is cleared. */
    method Reset()
      modifies this
      ensures State() == EmptyDraft
      ensures name == old(name) && saving == old(saving) && calculating == old(calculating)
    {
      originCoords, destCoords := None, None;
      waypoints := [];
      origin, destination := "", "";
      calculatedRoute := None;
    }

    /** `handleCalculateRoute()`, the backend answering `outcome`. Returns the
        request sent (none when a point is missing) and the alert shown. */
    method HandleCalculateRoute(outcome: RoutingOutcome) returns (request: Option<RouteRequest>, alert: Option<string>)
      modifies this
      ensures request == RouteRequestFor(old(State()))
      ensures request.None? ==> alert == Some(MissingEndsMessage) && State() == old(State()) && calculating == old(calculating)
      ensures request.Some? && Found(outcome) ==>
        alert.None? && State() == old(State()).(calculatedRoute := ChosenRoute(outcome.data.value))
      ensures request.Some? && outcome.RoutingFailed? ==> alert == Some(RoutingErrorMessage) && State() == old(State())
      ensures request.Some? && outcome.RoutingResponse? && !Found(outcome) ==>
        alert == Some(NoRouteMessage) && State() == old(State())
      ensures request.Some? ==> !calculating
      ensures name == old(name) && saving == old(saving)
    {
      if originCoords.None? || destCoords.None? {
        return None, Some(MissingEndsMessage);
      }
      calculating := true;
      var ids := PoiIds(waypoints);
      request := Some(RouteRequest(originCoords.value.lat, originCoords.value.lng, destCoords.value.lat, destCoords.value.lng, ids));
      match outcome {
        case RoutingFailed =>
          alert := Some(RoutingErrorMessage);
        case RoutingResponse(data) =>
          if data.Some? && data.value.found {
            calculatedRoute := ChosenRoute(data.value);
            alert := None;
          } else {
            alert := Some(NoRouteMessage);
          }
      }
      calculating := false;
    }

    /** `handleSave()`: `user` is what `authService.getUser()` returns and
        `succeeded` whether the backend accepted the itinerary. Returns the
        payload sent, the alert shown and the page navigated to. */
    method HandleSave(user: Option<StoredUser>, succeeded: bool)
      returns (payload: Option<ItineraryPayload>, alert: string, redirect: Option<string>)
      modifies this
      ensures name == "" ==> payload.None? && alert == NameRequiredMessage && redirect.None?
      ensures name != "" && calculatedRoute.None? ==> payload.None? && alert == RouteRequiredMessage && redirect.None?
      ensures name != "" && calculatedRoute.Some? ==>
        payload == Some(SavePayload(name, State(), calculatedRoute.value, user))
        && alert == (if succeeded then SavedMessage else SaveErrorMessage)
        && redirect == (if succeeded then Some(ItineraryListPath) else None)
      ensures payload.Some? ==> !saving
      ensures payload.None? ==> saving == old(saving)
      ensures State() == old(State()) && name == old(name) && calculating == old(calculating)
    {
      if name == "" {
        return None, NameRequiredMessage, None;
      }
      if calculatedRoute.None? {
        return None, RouteRequiredMessage, None;
      }
      saving := true;
      payload := Some(SavePayload(name, State(), calculatedRoute.value, user));
      if succeeded {
        alert, redirect := SavedMessage, Some(ItineraryListPath);
      } else {
        alert, redirect := SaveErrorMessage, None;
      }
      saving := false;
    }
  }
}
