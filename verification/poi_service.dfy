/**
 * The POI service: the loop that fetches every page of points of interest
 * and normalises the three response shapes the backend may use, and the
 * query-parameter builders of the area, nearby, search and top-N queries.
 *
 * The backend is a parameter: `responses(k)` is what the request for page
 * `k` gives, `None` when it throws.
 */
module PoiService {
  import opened Common

  /** A query-parameter value. */
  datatype ParamValue = Num(x: real) | Text(s: string)

  type Params = map<string, ParamValue>

  /** `response.data`: falsy, an object whose `content` and `pois` fields
      are arrays or not (`None`), or an array. */
  datatype Body<T> =
    | Falsy
    | Obj(content: Option<seq<T>>, pois: Option<seq<T>>, totalPages: Option<int>, totalElements: Option<int>)
    | Arr(items: seq<T>)

  datatype Page<T> = Page(content: seq<T>, totalPages: int, totalElements: int)

  /** The response-shape normalisation: `data.content` when it is an array
      (with `totalPages || 1` and `totalElements || content.length`), else
      `data.pois` when it is an array, else `data` itself when it is an
      array, else nothing. */
  function Normalize<T>(data: Body<T>): (p: Page<T>)
    ensures data.Obj? && data.content.Some? ==> p.content == data.content.value
    ensures data.Obj? && data.content.None? && data.pois.Some? ==> p.content == data.pois.value
    ensures data.Arr? ==> p.content == data.items
    ensures data.Falsy? || (data.Obj? && data.content.None? && data.pois.None?) ==> p.content == []
    ensures !(data.Obj? && data.content.Some?) ==> p.totalPages == 1 && p.totalElements == |p.content|
    ensures p.totalPages != 0
  {
    match data
    case Falsy => Page([], 1, 0)
    case Arr(items) => Page(items, 1, |items|)
    case Obj(content, pois, totalPages, totalElements) =>
      if content.Some? then
        Page(content.value,
          if TruthyInt(totalPages) then totalPages.value else 1,
          if TruthyInt(totalElements) then totalElements.value else |content.value|)
      else if pois.Some? then Page(pois.value, 1, |pois.value|)
      else Page([], 1, 0)
  }

  const PageSize := 100

  /** `{ ...filters, page, size }` */
  function PageParams(filters: Params, page: nat): Params {
    filters + map["page" := Num(page as real), "size" := Num(PageSize as real)]
  }

  /** The request carries the page and the size, overriding filters of the
      same name, and every other filter unchanged. */
  lemma PageParamsSpec(filters: Params, page: nat)
    ensures var r := PageParams(filters, page);
      && "page" in r && r["page"] == Num(page as real)
      && "size" in r && r["size"] == Num(PageSize as real)
      && (forall k :: k in filters && k != "page" && k != "size" ==> k in r && r[k] == filters[k])
      && r.Keys == filters.Keys + {"page", "size"}
  {
  }

  /** The content a request contributed: nothing when it threw. */
  function ContentOf<T>(response: Option<Body<T>>): seq<T> {
    if response.None? then [] else Normalize(response.value).content
  }

  /** `hasMore` after page `page`: the request succeeded, the page was full
      and it was not the last one the backend announced. */
  predicate Continues<T>(response: Option<Body<T>>, page: nat) {
    response.Some?
    && |Normalize(response.value).content| == PageSize
    && page < Normalize(response.value).totalPages - 1
  }

  /** The number of requests made when the loop is at page `page`. */
  function FetchCount<T>(responses: nat -> Option<Body<T>>, maxPages: int, page: nat): nat
    decreases maxPages - page
  {
    if page >= maxPages then page
    else if Continues(responses(page), page) then FetchCount(responses, maxPages, page + 1)
    else page + 1
  }

  /** The POIs gathered by the first `n` requests, in request order. */
  function Gathered<T>(responses: nat -> Option<Body<T>>, n: nat): seq<T> {
    if n == 0 then [] else Gathered(responses, n - 1) + ContentOf(responses(n - 1))
  }

  /** `getAllPaginated(filters, maxPages)`: returns the POIs and the
      parameters of every request, in order. */
  method GetAllPaginated<T>(filters: Params, maxPages: int, responses: nat -> Option<Body<T>>)
    returns (allPois: seq<T>, requests: seq<Params>)
    ensures |requests| == FetchCount(responses, maxPages, 0)
    ensures forall k :: 0 <= k < |requests| ==> requests[k] == PageParams(filters, k)
    ensures allPois == Gathered(responses, |requests|)
  {
    allPois, requests := [], [];
    var page: nat := 0;
    var hasMore := true;
    while hasMore && page < maxPages
      invariant hasMore ==> |requests| == page
      invariant forall k :: 0 <= k < |requests| ==> requests[k] == PageParams(filters, k)
      invariant allPois == Gathered(responses, |requests|)
      invariant FetchCount(responses, maxPages, 0) ==
        (if hasMore then FetchCount(responses, maxPages, page) else |requests|)
      invariant !hasMore ==> |requests| > 0
      decreases maxPages - page, hasMore
    {
      var params := PageParams(filters, page);
      AppendRequest(requests, filters, page);
      requests := requests + [params];
      PageStep(responses, maxPages, page);
      var ok, content, more := LoadPage(responses(page), page);
      if !ok {
        hasMore := false;
      } else {
        allPois := allPois + content;
        hasMore := more;
        page := page + 1;
      }
    }
  }

  /** Appending the parameters of page `|requests|` keeps every request
      the parameters of its own page. */
  lemma AppendRequest(requests: seq<Params>, filters: Params, page: nat)
    requires |requests| == page
    requires forall k :: 0 <= k < |requests| ==> requests[k] == PageParams(filters, k)
    ensures forall k :: 0 <= k < |requests| + 1 ==>
      (requests + [PageParams(filters, page)])[k] == PageParams(filters, k)
  {
  }

  /** The body of the `try`: whether the request succeeded, the content
      it brought, and `hasMore` for the next turn. */
  method LoadPage<T>(response: Option<Body<T>>, page: nat) returns (ok: bool, content: seq<T>, more: bool)
    ensures ok <==> response.Some?
    ensures content == ContentOf(response)
    ensures more <==> Continues(response, page)
  {
    if response.None? {
      return false, [], false;
    }
    var p := Normalize(response.value);
    ok, content := true, p.content;
    more := |p.content| == PageSize && page < p.totalPages - 1;
  }

  /** One turn of the loop at page `page`: its request adds the page's
      content, and the count goes on exactly when the page continues. */
  lemma PageStep<T>(responses: nat -> Option<Body<T>>, maxPages: int, page: nat)
    requires page < maxPages
    ensures Gathered(responses, page + 1) == Gathered(responses, page) + ContentOf(responses(page))
    ensures FetchCount(responses, maxPages, page) ==
      if Continues(responses(page), page) then FetchCount(responses, maxPages, page + 1) else page + 1
  {
  }

  /** What `FetchCount` means: no request when `maxPages <= 0`, otherwise
      between 1 and `maxPages` requests; every request but the last was a
      full page with more announced, and when the limit was not reached the
      last one failed or ended the listing. */
  lemma {:induction false} FetchCountSpec<T>(responses: nat -> Option<Body<T>>, maxPages: int, page: nat)
    requires page <= maxPages || page == 0
    ensures var n := FetchCount(responses, maxPages, page);
      n >= page
      && (maxPages <= page ==> n == page)
      && (maxPages > page ==> page < n <= maxPages)
      && (forall k :: page <= k < n - 1 ==> Continues(responses(k), k))
      && (page < n < maxPages ==> !Continues(responses(n - 1), n - 1))
    decreases maxPages - page
  {
    if page < maxPages && Continues(responses(page), page) {
      FetchCountSpec(responses, maxPages, page + 1);
    }
  }

  /** A request that throws is the last one made. */
  lemma FailureStops<T>(responses: nat -> Option<Body<T>>, maxPages: int, k: nat)
    requires k < FetchCount(responses, maxPages, 0)
    requires responses(k).None?
    ensures FetchCount(responses, maxPages, 0) == k + 1
  {
    FetchCountSpec(responses, maxPages, 0);
    var n := FetchCount(responses, maxPages, 0);
    assert !Continues(responses(k), k);
  }

  /** At most `maxPages` requests are made. */
  lemma AtMostMaxPages<T>(responses: nat -> Option<Body<T>>, maxPages: int)
    ensures FetchCount(responses, maxPages, 0) <= (if maxPages < 0 then 0 else maxPages)
  {
    FetchCountSpec(responses, maxPages, 0);
  }

  /** A gathered list only grows: the POIs of the first `m` requests are a
      prefix of those of the first `n >= m`. */
  lemma {:induction false} GatheredPrefix<T>(responses: nat -> Option<Body<T>>, m: nat, n: nat)
    requires m <= n
    ensures Gathered(responses, m) <= Gathered(responses, n)
    decreases n
  {
    if m < n {
      GatheredPrefix(responses, m, n - 1);
    }
  }

  /** Every page gathered from the array-shaped or `pois`-shaped response is
      read as one full listing: such a response never asks for more. */
  lemma SinglePageShapes<T>(body: Body<T>, page: nat)
    requires !(body.Obj? && body.content.Some?)
    ensures !Continues(Some(body), page)
  {
  }

  // ---------------------------------------------------------------------------
  // Parameter builders
  // ---------------------------------------------------------------------------

  /** `getInArea(minLat, minLon, maxLat, maxLon, categories)` */
  function InAreaParams(minLat: real, minLon: real, maxLat: real, maxLon: real, categories: seq<string>): (r: Params)
    ensures "minLat" in r && r["minLat"] == Num(minLat) && "minLon" in r && r["minLon"] == Num(minLon)
    ensures "maxLat" in r && r["maxLat"] == Num(maxLat) && "maxLon" in r && r["maxLon"] == Num(maxLon)
    ensures "categories" in r <==> |categories| > 0
    ensures r.Keys <= {"minLat", "minLon", "maxLat", "maxLon", "categories"}
  {
    var params := map["minLat" := Num(minLat), "minLon" := Num(minLon), "maxLat" := Num(maxLat), "maxLon" := Num(maxLon)];
    if |categories| > 0 then params["categories" := Text(Join(categories, ","))] else params
  }

  /** The comma-joined categories split back into the list, when no name
      holds a comma. */
  lemma InAreaCategoriesRoundTrip(minLat: real, minLon: real, maxLat: real, maxLon: real, categories: seq<string>)
    requires |categories| > 0
    requires forall k :: 0 <= k < |categories| ==> ',' !in categories[k]
    ensures Split(InAreaParams(minLat, minLon, maxLat, maxLon, categories)["categories"].s, ',') == categories
  {
    SplitJoin(categories, ',');
  }

  /** `getNearby(lat, lon, radiusKm = 10, category = null)` */
  function NearbyParams(lat: real, lon: real, radiusKm: Option<real>, category: Option<string>): (r: Params)
    ensures "lat" in r && r["lat"] == Num(lat) && "lon" in r && r["lon"] == Num(lon)
    ensures "radius" in r && r["radius"] == Num(if radiusKm.Some? then radiusKm.value else 10.0)
    ensures "category" in r <==> Truthy(category)
    ensures Truthy(category) ==> "category" in r && r["category"] == Text(category.value)
  {
    var params := map["lat" := Num(lat), "lon" := Num(lon), "radius" := Num(if radiusKm.Some? then radiusKm.value else 10.0)];
    if Truthy(category) then params["category" := Text(category.value)] else params
  }

  /** `search(query, size = 50)` */
  function SearchParams(query: string, size: Option<int>): (r: Params)
    ensures r.Keys == {"search", "size"}
    ensures "search" in r && r["search"] == Text(query)
    ensures "size" in r && r["size"] == Num((if size.Some? then size.value else 50) as real)
  {
    map["search" := Text(query), "size" := Num((if size.Some? then size.value else 50) as real)]
  }

  datatype Bounds = Bounds(minLat: real, minLon: real, maxLat: real, maxLon: real)

  datatype TopKind = TopLiked | TopFavorites | TopCommented

  function TopPath(kind: TopKind): string {
    match kind
    case TopLiked => "/pois/top-liked"
    case TopFavorites => "/pois/top-favorites"
    case TopCommented => "/pois/top-commented"
  }

  /** The parameters of `getTopLiked`, `getTopFavorites` and
      `getTopCommented(limit = 5, bounds = null)`. */
  function TopParams(limit: Option<int>, bounds: Option<Bounds>): (r: Params)
    ensures "limit" in r && r["limit"] == Num((if limit.Some? then limit.value else 5) as real)
    ensures bounds.None? ==> r.Keys == {"limit"}
    ensures bounds.Some? ==> r.Keys == {"limit", "minLat", "minLon", "maxLat", "maxLon"}
    ensures bounds.Some? ==> (r.Keys >= {"minLat", "minLon", "maxLat", "maxLon"}
      && r["minLat"] == Num(bounds.value.minLat) && r["minLon"] == Num(bounds.value.minLon)
      && r["maxLat"] == Num(bounds.value.maxLat) && r["maxLon"] == Num(bounds.value.maxLon))
  {
    var params := map["limit" := Num((if limit.Some? then limit.value else 5) as real)];
    if bounds.None? then params
    else
      var b := bounds.value;
      params["minLat" := Num(b.minLat)]["minLon" := Num(b.minLon)]["maxLat" := Num(b.maxLat)]["maxLon" := Num(b.maxLon)]
  }
}
