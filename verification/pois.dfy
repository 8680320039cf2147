/**
 * Points of interest as the list and map pages hold them, and what those
 * pages share:
 *
 * - POI identity
 * - the optimistic like/favourite toggle with its counter clamped at 0
 * - the search, town and category filters
 * - the sort keys
 * - the town and type facets with the per-category counts
 * - the category colour and icon lookups
 * - the normalisation of a list response
 */
module Pois {
  import opened Common
  import opened Lists
  import opened Sorting

  datatype Address = Address(city: Option<string>, town: Option<string>)

  /** A category, as embedded in a POI or as listed by the categories endpoint. */
  datatype Category = Category(
    categoryId: Option<int>,
    name: Option<string>,
    color: Option<string>,
    icon: Option<string>,
    emoji: Option<string>)

  /** A POI object. `isLiked`/`isFavorite` read a missing flag as false;
      `others` holds the remaining string-valued properties, which the
      generic sort branch `a[field]` may address. */
  datatype Poi = Poi(
    poiId: Option<int>,
    id: Option<int>,
    name: Option<string>,
    description: Option<string>,
    address: Option<Address>,
    category: Option<Category>,
    createdAt: Option<string>,
    dateCreated: Option<string>,
    isLiked: bool,
    likeCount: Option<int>,
    isFavorite: bool,
    favoriteCount: Option<int>,
    latitude: real,
    longitude: real,
    distanceFromRoute: Option<real>,
    others: map<string, string>)

  /** `poi.category?.name` */
  function CategoryName(p: Poi): Option<string> {
    if p.category.Some? then p.category.value.name else None
  }

  /** `poi.address?.city || poi.address?.town` */
  function TownOf(p: Poi): Option<string> {
    if p.address.Some? then OrOpt(p.address.value.city, p.address.value.town) else None
  }

  // ---------------------------------------------------------------------------
  // Identity
  // ---------------------------------------------------------------------------

  /** How a page identifies a POI: `p.poiId || p.id`, or `p.poiId` alone. */
  datatype IdRule = PoiIdOrId | PoiIdOnly

  function KeyOf(p: Poi, rule: IdRule): (k: Option<int>)
    ensures rule.PoiIdOnly? ==> k == p.poiId
    ensures rule.PoiIdOrId? && TruthyInt(p.poiId) ==> k == p.poiId
    ensures rule.PoiIdOrId? && !TruthyInt(p.poiId) ==> k == p.id
  {
    if rule.PoiIdOnly? || TruthyInt(p.poiId) then p.poiId else p.id
  }

  /** `pois.filter(p => key(p) !== id)`: the list after a deletion. */
  function WithoutKey(pois: seq<Poi>, rule: IdRule, id: Option<int>): (r: seq<Poi>)
    ensures IsSubsequence(r, pois)
    ensures forall i :: 0 <= i < |r| ==> KeyOf(r[i], rule) != id
    ensures forall p :: p in pois && KeyOf(p, rule) != id ==> p in r
    ensures |r| == |pois| - CountWhere(pois, (p: Poi) => KeyOf(p, rule) == id)
  {
    var keep := (p: Poi) => KeyOf(p, rule) != id;
    FilterSpec(pois, keep);
    FilterLength(pois, keep);
    KeptPlusDropped(pois, keep, (p: Poi) => KeyOf(p, rule) == id);
    Filter(pois, keep)
  }

  /** Every element is either kept or dropped. */
  lemma {:induction false} KeptPlusDropped(pois: seq<Poi>, keep: Poi -> bool, drop: Poi -> bool)
    requires forall p :: keep(p) == !drop(p)
    ensures CountWhere(pois, keep) + CountWhere(pois, drop) == |pois|
  {
    if pois != [] {
      KeptPlusDropped(pois[1..], keep, drop);
    }
  }

  // ---------------------------------------------------------------------------
  // Like and favourite
  // ---------------------------------------------------------------------------

  datatype Reaction = Like | Favorite

  /** `isLiked` or `isFavorite` */
  function Flag(p: Poi, r: Reaction): bool {
    if r.Like? then p.isLiked else p.isFavorite
  }

  /** `likeCount` or `favoriteCount` */
  function Count(p: Poi, r: Reaction): Option<int> {
    if r.Like? then p.likeCount else p.favoriteCount
  }

  /** `{ ...p, flag, count }` */
  function WithReaction(p: Poi, r: Reaction, flag: bool, count: Option<int>): Poi {
    if r.Like? then p.(isLiked := flag, likeCount := count)
    else p.(isFavorite := flag, favoriteCount := count)
  }

  /** The optimistic update of one POI: the flag becomes `on`, and the counter
      becomes `(count || 0) + 1` when it is set and
      `Math.max((count || 0) - 1, 0)` when it is cleared. */
  function React(p: Poi, r: Reaction, on: bool): (q: Poi)
    ensures Flag(q, r) == on
    ensures on ==> Count(q, r) == Some(IntOrZero(Count(p, r)) + 1)
    ensures !on && IntOrZero(Count(p, r)) >= 1 ==> Count(q, r) == Some(IntOrZero(Count(p, r)) - 1)
    ensures !on && IntOrZero(Count(p, r)) < 1 ==> Count(q, r) == Some(0)
    ensures IntOrZero(Count(p, r)) >= 0 || !on ==> IntOrZero(Count(q, r)) >= 0
    ensures WithReaction(q, r, Flag(p, r), Count(p, r)) == p
  {
    var c := IntOrZero(Count(p, r));
    WithReaction(p, r, on, Some(if on then c + 1 else if c - 1 > 0 then c - 1 else 0))
  }

  /** Liking then unliking (or the reverse) restores the POI when its counter
      was present and consistent with its flag. */
  lemma ReactTwiceRestores(p: Poi, r: Reaction)
    requires Count(p, r).Some? && Count(p, r).value >= (if Flag(p, r) then 1 else 0)
    ensures React(React(p, r, !Flag(p, r)), r, Flag(p, r)) == p
  {
    var q := React(p, r, !Flag(p, r));
    assert WithReaction(q, r, Flag(p, r), Count(p, r)) == p;
  }

  /** The new flag of a matching POI: the value the handler computed from the
      clicked POI (`Some`), or the POI's own flag negated (`None`). */
  function NewFlag(p: Poi, r: Reaction, on: Option<bool>): bool {
    if on.Some? then on.value else !Flag(p, r)
  }

  predicate CountsNonNegative(pois: seq<Poi>, r: Reaction) {
    forall i :: 0 <= i < |pois| ==> IntOrZero(Count(pois[i], r)) >= 0
  }

  /** `pois.map(p => key(p) === id ? react(p) : p)` */
  function ReactMatching(pois: seq<Poi>, r: Reaction, rule: IdRule, id: Option<int>, on: Option<bool>): (qs: seq<Poi>)
    ensures |qs| == |pois|
    ensures forall i :: 0 <= i < |pois| && KeyOf(pois[i], rule) != id ==> qs[i] == pois[i]
    ensures forall i :: 0 <= i < |pois| && KeyOf(pois[i], rule) == id ==>
      qs[i] == React(pois[i], r, NewFlag(pois[i], r, on))
    ensures forall i :: 0 <= i < |pois| ==> KeyOf(qs[i], rule) == KeyOf(pois[i], rule)
    ensures CountsNonNegative(pois, r) ==> CountsNonNegative(qs, r)
  {
    Map(pois, (p: Poi) => if KeyOf(p, rule) == id then React(p, r, NewFlag(p, r, on)) else p)
  }

  /** Reacting matching POIs touches no other reaction: liking never moves a
      favourite and the reverse. */
  lemma ReactMatchingLeavesOther(pois: seq<Poi>, r: Reaction, rule: IdRule, id: Option<int>, on: Option<bool>)
    ensures var qs := ReactMatching(pois, r, rule, id, on);
      var o := if r.Like? then Favorite else Like;
      forall i :: 0 <= i < |pois| ==> Flag(qs[i], o) == Flag(pois[i], o) && Count(qs[i], o) == Count(pois[i], o)
  {
    var qs := ReactMatching(pois, r, rule, id, on);
    var o := if r.Like? then Favorite else Like;
    forall i | 0 <= i < |pois|
      ensures Flag(qs[i], o) == Flag(pois[i], o) && Count(qs[i], o) == Count(pois[i], o)
    {
      if KeyOf(pois[i], rule) == id {
        var q := qs[i];
        assert WithReaction(q, r, Flag(pois[i], r), Count(pois[i], r)) == pois[i];
      }
    }
  }

  // ---------------------------------------------------------------------------
  // Filters
  // ---------------------------------------------------------------------------

  /** `poi.name?.toLowerCase().includes(term) ||
      poi.description?.toLowerCase().includes(term)` for the lower-cased term. */
  predicate MatchesSearch(p: Poi, search: string) {
    IncludesOpt(LowerOpt(p.name), Lower(search)) || IncludesOpt(LowerOpt(p.description), Lower(search))
  }

  /** `poi.address?.city?.toLowerCase() === town.toLowerCase() ||
      poi.address?.town?.toLowerCase() === town.toLowerCase()` */
  predicate MatchesTown(p: Poi, town: string) {
    p.address.Some?
    && (LowerOpt(p.address.value.city) == Some(Lower(town)) || LowerOpt(p.address.value.town) == Some(Lower(town)))
  }

  /** `poi.category?.name === category` */
  predicate MatchesCategory(p: Poi, category: string) {
    CategoryName(p) == Some(category)
  }

  /** Every active filter (a non-empty selection) accepts the POI. */
  predicate MatchesAll(p: Poi, search: string, town: string, category: string) {
    (search != "" ==> MatchesSearch(p, search))
    && (town != "" ==> MatchesTown(p, town))
    && (category != "" ==> MatchesCategory(p, category))
  }

  /** The filter chain of both POI list pages: search, then town, then
      category, each applied only when its selection is non-empty. */
  function FilterPois(pois: seq<Poi>, search: string, town: string, category: string): seq<Poi> {
    var a := if search != "" then Filter(pois, (p: Poi) => MatchesSearch(p, search)) else pois;
    var b := if town != "" then Filter(a, (p: Poi) => MatchesTown(p, town)) else a;
    if category != "" then Filter(b, (p: Poi) => MatchesCategory(p, category)) else b
  }

  /** The chain keeps exactly the POIs every active filter accepts, in their
      original order. */
  lemma FilterPoisIsOneFilter(pois: seq<Poi>, search: string, town: string, category: string)
    ensures FilterPois(pois, search, town, category) == Filter(pois, (p: Poi) => MatchesAll(p, search, town, category))
  {
    var ps := (p: Poi) => MatchesSearch(p, search);
    var pt := (p: Poi) => MatchesTown(p, town);
    var pc := (p: Poi) => MatchesCategory(p, category);
    var s := (p: Poi) => search != "" ==> MatchesSearch(p, search);
    var st := (p: Poi) => (search != "" ==> MatchesSearch(p, search)) && (town != "" ==> MatchesTown(p, town));
    var all := (p: Poi) => MatchesAll(p, search, town, category);
    var yes := (p: Poi) => true;
    FilterAll(pois, yes);
    var a := if search != "" then Filter(pois, ps) else pois;
    assert a == Filter(pois, s) by {
      if search == "" {
        FilterAll(pois, s);
      } else {
        FilterFilter(pois, yes, ps, s);
      }
    }
    var b := if town != "" then Filter(a, pt) else a;
    assert b == Filter(pois, st) by {
      if town == "" {
        FilterFilter(pois, s, yes, st);
        FilterAll(Filter(pois, s), yes);
      } else {
        FilterFilter(pois, s, pt, st);
      }
    }
    if category == "" {
      FilterFilter(pois, st, yes, all);
      FilterAll(Filter(pois, st), yes);
    } else {
      FilterFilter(pois, st, pc, all);
    }
  }

  /** The filtered list is a subsequence of `pois`; it holds every POI that
      matches all active filters and no other. */
  lemma FilterPoisSpec(pois: seq<Poi>, search: string, town: string, category: string)
    ensures var r := FilterPois(pois, search, town, category);
      IsSubsequence(r, pois)
      && (forall i :: 0 <= i < |r| ==> MatchesAll(r[i], search, town, category))
      && (forall p :: p in pois && MatchesAll(p, search, town, category) ==> p in r)
  {
    FilterPoisIsOneFilter(pois, search, town, category);
    FilterSpec(pois, (p: Poi) => MatchesAll(p, search, town, category));
  }

  /** With no selection the list is left as it is. */
  lemma FilterPoisNone(pois: seq<Poi>)
    ensures FilterPois(pois, "", "", "") == pois
  {
  }

  // ---------------------------------------------------------------------------
  // Sorting
  // ---------------------------------------------------------------------------

  /** Which list page sorts: the favourites page keys dates on `createdAt`
      alone, the administration page falls back to `date_created`, then 0. */
  datatype ListPage = FavoritesPage | CataloguePage

  /** `a[field]` for a string-valued field. */
  function FieldText(p: Poi, field: string): Option<string> {
    if field == "name" then p.name
    else if field == "description" then p.description
    else if field in p.others then Some(p.others[field])
    else None
  }

  /** The comparator's key for one POI:
      - 'town': the lower-cased `city || town || ''`
      - 'date': `createdAt || ''` (favourites) or `createdAt || date_created || 0` (catalogue)
      - 'category': `category?.name || ''`
      - any other field: the lower-cased `a[field] || ''`. */
  function SortKey(p: Poi, field: string, page: ListPage): Key {
    if field == "town" then Text(Lower(OrElse(TownOf(p), "")))
    else if field == "date" then
      (match page
       case FavoritesPage => Text(OrElse(p.createdAt, ""))
       case CataloguePage =>
         if Truthy(p.createdAt) then Text(p.createdAt.value)
         else if Truthy(p.dateCreated) then Text(p.dateCreated.value)
         else Num(0.0))
    else if field == "category" then Text(OrElse(CategoryName(p), ""))
    else Text(Lower(OrElse(FieldText(p, field), "")))
  }

  /** The sort key of `field` on a page, as a function of the POI. */
  function KeyOfField(field: string, page: ListPage): Poi -> Key {
    p => SortKey(p, field, page)
  }

  /** `results.sort(...)` for the criteria `field_direction`; an empty
      criteria string leaves the list as it is. */
  function SortPois(pois: seq<Poi>, criteria: string, page: ListPage): seq<Poi> {
    if criteria == "" then pois
    else
      var (field, asc) := ParseCriteria(criteria);
      SortBy(pois, KeyOfField(field, page), asc)
  }

  /** `filteredAndSortedPois` */
  function FilteredAndSorted(pois: seq<Poi>, search: string, town: string, category: string,
                             criteria: string, page: ListPage): seq<Poi> {
    SortPois(FilterPois(pois, search, town, category), criteria, page)
  }

  /** The sorted list is a permutation of the filtered one, ordered by the
      key of the criteria's field: non-decreasing for 'asc', non-increasing
      for any other direction; POIs with the same key keep their order. */
  lemma SortPoisSpec(pois: seq<Poi>, criteria: string, page: ListPage)
    requires criteria != ""
    ensures var r := SortPois(pois, criteria, page);
      var (field, asc) := ParseCriteria(criteria);
      multiset(r) == multiset(pois)
      && (forall i, j :: 0 <= i < j < |r| ==>
        (asc ==> KeyLe(SortKey(r[i], field, page), SortKey(r[j], field, page)))
        && (!asc ==> KeyLe(SortKey(r[j], field, page), SortKey(r[i], field, page))))
      && (forall k :: Filter(r, WithKey(KeyOfField(field, page), k)) == Filter(pois, WithKey(KeyOfField(field, page), k)))
  {
    var (field, asc) := ParseCriteria(criteria);
    var r := SortPois(pois, criteria, page);
    forall k ensures Filter(r, WithKey(KeyOfField(field, page), k)) == Filter(pois, WithKey(KeyOfField(field, page), k)) {
      SortByStable(pois, KeyOfField(field, page), asc, k);
    }
    assert SortedBy(r, KeyOfField(field, page), asc);
    forall i, j | 0 <= i < j < |r|
      ensures (asc ==> KeyLe(SortKey(r[i], field, page), SortKey(r[j], field, page)))
        && (!asc ==> KeyLe(SortKey(r[j], field, page), SortKey(r[i], field, page)))
    {
      assert Precedes(SortKey(r[i], field, page), SortKey(r[j], field, page), asc);
    }
  }

  /** With nothing selected and no criteria the pipeline returns `pois`. */
  lemma NothingSelectedKeepsList(pois: seq<Poi>, page: ListPage)
    ensures FilteredAndSorted(pois, "", "", "", "", page) == pois
  {
  }

  /** The criteria the nav bar emits before a field is chosen, '_asc', sorts
      on a field no POI has, so the order is left as it is. */
  lemma InitialCriteriaKeepsOrder(pois: seq<Poi>, page: ListPage)
    requires forall i :: 0 <= i < |pois| ==> "" !in pois[i].others
    ensures SortPois(pois, Criteria("", "asc"), page) == pois
  {
    CriteriaRoundTrip("", "asc");
    var key := KeyOfField("", page);
    assert forall i :: 0 <= i < |pois| ==> key(pois[i]) == Text("");
    SortByEqualKeys(pois, key, true);
  }

  // ---------------------------------------------------------------------------
  // Facets
  // ---------------------------------------------------------------------------

  /** `pois.map(p => p.address?.city || p.address?.town).filter(Boolean)` */
  function TownValues(pois: seq<Poi>): (r: seq<string>)
    ensures forall t :: t in r <==> t != "" && exists i :: 0 <= i < |pois| && TownOf(pois[i]) == Some(t)
  {
    if pois == [] then []
    else
      var rest := TownValues(pois[1..]);
      assert forall t :: ((exists i :: 0 <= i < |pois[1..]| && TownOf(pois[1..][i]) == Some(t))
        <==> (exists i :: 1 <= i < |pois| && TownOf(pois[i]) == Some(t))) by {
        forall t | exists i :: 1 <= i < |pois| && TownOf(pois[i]) == Some(t)
          ensures exists i :: 0 <= i < |pois[1..]| && TownOf(pois[1..][i]) == Some(t)
        {
          var i :| 1 <= i < |pois| && TownOf(pois[i]) == Some(t);
          assert pois[1..][i - 1] == pois[i];
        }
      }
      if Truthy(TownOf(pois[0])) then [TownOf(pois[0]).value] + rest else rest
  }

  /** `availableTowns`: the distinct truthy towns, sorted. */
  function AvailableTowns(pois: seq<Poi>): (r: seq<string>)
    ensures StrictlySorted(r)
    ensures forall t :: t in r <==> t != "" && exists i :: 0 <= i < |pois| && TownOf(pois[i]) == Some(t)
  {
    SortedSet(TownValues(pois))
  }

  /** Whether a POI's category has the name `name`. */
  function NamedPredicate(name: string): Poi -> bool {
    (p: Poi) => CategoryName(p) == Some(name)
  }

  /** `categoryCounts`, filled by `pois.forEach`: for every truthy category
      name, the number of POIs that carry it. */
  function CategoryCounts(pois: seq<Poi>): (m: map<string, nat>)
    decreases |pois|
  {
    if pois == [] then map[]
    else
      var m := CategoryCounts(pois[..|pois| - 1]);
      var n := CategoryName(pois[|pois| - 1]);
      if Truthy(n) then m[n.value := (if n.value in m then m[n.value] else 0) + 1] else m
  }

  /** The counts are keyed by exactly the truthy names present, and each
      count is the number of POIs of that category. */
  lemma {:induction false} CategoryCountsSpec(pois: seq<Poi>)
    ensures forall name :: name in CategoryCounts(pois) <==>
      name != "" && exists i :: 0 <= i < |pois| && CategoryName(pois[i]) == Some(name)
    ensures forall name :: name in CategoryCounts(pois) ==>
      CategoryCounts(pois)[name] == CountWhere(pois, NamedPredicate(name))
    decreases |pois|
  {
    if pois != [] {
      var init := pois[..|pois| - 1];
      var last := pois[|pois| - 1];
      assert pois == init + [last];
      CategoryCountsSpec(init);
      var m := CategoryCounts(init);
      forall name
        ensures name in CategoryCounts(pois) <==>
          name != "" && exists i :: 0 <= i < |pois| && CategoryName(pois[i]) == Some(name)
      {
        if name != "" && exists i :: 0 <= i < |pois| && CategoryName(pois[i]) == Some(name) {
          var i :| 0 <= i < |pois| && CategoryName(pois[i]) == Some(name);
          if i < |pois| - 1 {
            assert init[i] == pois[i];
          }
        }
      }
      forall name | name in CategoryCounts(pois)
        ensures CategoryCounts(pois)[name] == CountWhere(pois, NamedPredicate(name))
      {
        CountWhereSnoc(init, last, NamedPredicate(name));
        if name !in m {
          CountWherePositive(init, NamedPredicate(name));
        }
      }
    }
  }

  /** The truthy category names of `pois`, in order. */
  function CategoryValues(pois: seq<Poi>): (r: seq<string>)
    ensures forall t :: t in r <==> t != "" && exists i :: 0 <= i < |pois| && CategoryName(pois[i]) == Some(t)
  {
    if pois == [] then []
    else
      var rest := CategoryValues(pois[1..]);
      assert forall t :: ((exists i :: 0 <= i < |pois[1..]| && CategoryName(pois[1..][i]) == Some(t))
        <==> (exists i :: 1 <= i < |pois| && CategoryName(pois[i]) == Some(t))) by {
        forall t | exists i :: 1 <= i < |pois| && CategoryName(pois[i]) == Some(t)
          ensures exists i :: 0 <= i < |pois[1..]| && CategoryName(pois[1..][i]) == Some(t)
        {
          var i :| 1 <= i < |pois| && CategoryName(pois[i]) == Some(t);
          assert pois[1..][i - 1] == pois[i];
        }
      }
      if Truthy(CategoryName(pois[0])) then [CategoryName(pois[0]).value] + rest else rest
  }

  /** `availableTypes`: `Object.keys(categoryCounts).sort()` (the catalogue
      page sorts `{ name, count }` entries by name first, with the same
      result). */
  function AvailableTypes(pois: seq<Poi>): (r: seq<string>)
    ensures StrictlySorted(r)
    ensures forall t :: t in r <==> t in CategoryCounts(pois)
  {
    CategoryCountsSpec(pois);
    SortedSet(CategoryValues(pois))
  }

  // ---------------------------------------------------------------------------
  // Category colour and icon
  // ---------------------------------------------------------------------------

  const DefaultColor: string := "#3498DB"
  const DefaultIcon: string := "📍"

  /** `categories.find(c => c.name === name)`: the first category so named. */
  function FindCategory(categories: seq<Category>, name: Option<string>): (r: Option<Category>)
    ensures r.None? <==> forall i :: 0 <= i < |categories| ==> categories[i].name != name
    ensures r.Some? ==> r.value in categories && r.value.name == name
  {
    if categories == [] then None
    else if categories[0].name == name then Some(categories[0])
    else FindCategory(categories[1..], name)
  }

  /** The category found is the first one with that name. */
  lemma {:induction false} FindCategoryFirst(categories: seq<Category>, name: Option<string>, i: nat)
    requires i < |categories| && categories[i].name == name
    ensures FindCategory(categories, name).Some?
    ensures exists k :: (0 <= k <= i && categories[k] == FindCategory(categories, name).value
      && forall j :: 0 <= j < k ==> categories[j].name != name)
  {
    if categories[0].name != name {
      FindCategoryFirst(categories[1..], name, i - 1);
      var r := FindCategory(categories, name).value;
      var k :| 0 <= k <= i - 1 && categories[1..][k] == r
        && forall j :: 0 <= j < k ==> categories[1..][j].name != name;
      assert categories[k + 1] == r;
      forall j | 0 <= j < k + 1
        ensures categories[j].name != name
      {
        if j > 0 {
          assert categories[j] == categories[1..][j - 1];
        }
      }
    }
  }

  /** `getCategoryColor(name)`: the found category's colour, else '#3498DB'. */
  function CategoryColor(categories: seq<Category>, name: Option<string>): (r: string)
    ensures FindCategory(categories, name).None? ==> r == DefaultColor
    ensures FindCategory(categories, name).Some? && Truthy(FindCategory(categories, name).value.color) ==>
      r == FindCategory(categories, name).value.color.value
    ensures r != ""
  {
    var c := FindCategory(categories, name);
    if c.Some? then OrElse(c.value.color, DefaultColor) else DefaultColor
  }

  /** `getCategoryIcon(name)`: the found category's icon, else '📍'. */
  function CategoryIcon(categories: seq<Category>, name: Option<string>): (r: string)
    ensures FindCategory(categories, name).None? ==> r == DefaultIcon
    ensures FindCategory(categories, name).Some? && Truthy(FindCategory(categories, name).value.icon) ==>
      r == FindCategory(categories, name).value.icon.value
    ensures r != ""
  {
    var c := FindCategory(categories, name);
    if c.Some? then OrElse(c.value.icon, DefaultIcon) else DefaultIcon
  }

  /** A name no category has always gets both defaults. */
  lemma UnknownCategoryDefaults(categories: seq<Category>, name: Option<string>)
    requires forall c :: c in categories ==> c.name != name
    ensures CategoryColor(categories, name) == DefaultColor
    ensures CategoryIcon(categories, name) == DefaultIcon
  {
    assert forall i :: 0 <= i < |categories| ==> categories[i] in categories;
  }

  // ---------------------------------------------------------------------------
  // List responses
  // ---------------------------------------------------------------------------

  /** `response.data` of a list request: missing, paged (`data.content` is
      an array), or a plain array. */
  datatype ListBody =
    | NoData
    | Paged(content: seq<Poi>, totalElements: Option<int>, totalPages: Option<int>)
    | Plain(items: seq<Poi>)

  /** What a list page keeps of a response. */
  datatype Listing = Listing(pois: seq<Poi>, totalElements: int, totalPages: int)

  /** A paged response gives its content and totals (`|| 0`); otherwise the
      list is `data || []`, counted by its length, on a single page. */
  function ApplyListing(body: ListBody): (l: Listing)
    ensures body.Paged? ==> (l.pois == body.content
      && l.totalElements == IntOrZero(body.totalElements) && l.totalPages == IntOrZero(body.totalPages))
    ensures body.Plain? ==> l.pois == body.items
    ensures body.NoData? ==> l.pois == []
    ensures !body.Paged? ==> l.totalElements == |l.pois| && l.totalPages == 1
  {
    match body
    case NoData => Listing([], 0, 1)
    case Paged(content, totalElements, totalPages) =>
      Listing(content, IntOrZero(totalElements), IntOrZero(totalPages))
    case Plain(items) => Listing(items, |items|, 1)
  }

  /** What a list page holds of the backend's data. */
  datatype ListData = ListData(
    pois: seq<Poi>,
    categories: seq<Category>,
    totalElements: int,
    totalPages: int,
    error: Option<string>)

  /** `fetchData()` of a list page: the categories are fetched first, and
      only while none are held (`data?.categories || []`); then the POIs. A
      failure of either request sets `message` and keeps the POIs and totals;
      a success clears the error. */
  function AfterFetch(d: ListData, categoriesResult: Fetched<Option<seq<Category>>>,
                      listResult: Fetched<ListBody>, message: string): (e: ListData)
    ensures e.error.None? <==> listResult.Received? && (|d.categories| > 0 || categoriesResult.Received?)
    ensures e.error.Some? ==> (e.error == Some(message)
      && e.pois == d.pois && e.totalElements == d.totalElements && e.totalPages == d.totalPages)
    ensures e.error.None? ==> (e.pois == ApplyListing(listResult.data).pois
      && e.totalElements == ApplyListing(listResult.data).totalElements
      && e.totalPages == ApplyListing(listResult.data).totalPages)
    ensures |d.categories| > 0 ==> e.categories == d.categories
    ensures |d.categories| == 0 && categoriesResult.Received? ==>
      e.categories == (if categoriesResult.data.Some? then categoriesResult.data.value else [])
  {
    if |d.categories| == 0 && categoriesResult.Failed? then d.(error := Some(message))
    else
      var categories :=
        if |d.categories| > 0 then d.categories
        else if categoriesResult.data.Some? then categoriesResult.data.value
        else [];
      if listResult.Failed? then d.(categories := categories, error := Some(message))
      else
        var l := ApplyListing(listResult.data);
        ListData(l.pois, categories, l.totalElements, l.totalPages, None)
  }

  /** The request a like/favourite click sends. */
  datatype ReactionCall = LikePoi(id: Option<int>) | UnlikePoi(id: Option<int>)
                        | AddToFavorites(id: Option<int>) | RemoveFromFavorites(id: Option<int>)

  /** `unlikePoi`/`removeFromFavorites` when the clicked POI's flag was set,
      `likePoi`/`addToFavorites` otherwise. */
  function CallFor(r: Reaction, wasOn: bool, id: Option<int>): (c: ReactionCall)
    ensures c.id == id
    ensures (c.LikePoi? || c.AddToFavorites?) <==> !wasOn
    ensures (c.LikePoi? || c.UnlikePoi?) <==> r.Like?
  {
    match r
    case Like => if wasOn then UnlikePoi(id) else LikePoi(id)
    case Favorite => if wasOn then RemoveFromFavorites(id) else AddToFavorites(id)
  }
}
