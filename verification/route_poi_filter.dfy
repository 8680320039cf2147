/**
 * The route POI filter panel: icon names mapped to emoji, the categories
 * offered (the given ones, or those derived from the POIs), the local search,
 * category and distance ordering, and the loaders the sort and top-N buttons
 * call.
 */
module RoutePoiFilter {
  import opened Common
  import opened Lists
  import opened Sorting
  import opened Pois

  /** `ICON_TO_EMOJI` */
  const IconEmoji: map<string, string> := map[
    "toll" := "🚧", "hotel" := "🏨", "restaurant" := "🍽️", "gas_station" := "⛽", "fuel" := "⛽",
    "station" := "⛽", "attraction" := "🎡", "tourism" := "🎡", "pharmacy" := "💊", "bank" := "🏦",
    "market" := "🛒", "shop" := "🛒", "hospital" := "🏥", "police" := "👮", "parking" := "🅿️",
    "default" := "📍"]

  const DefaultEmoji: string := "📍"

  /** `getEmojiFromIcon(icon)`: the emoji of the lower-cased, trimmed icon
      name; '📍' for a missing, empty or unknown one. */
  function EmojiFromIcon(icon: Option<string>): (r: string)
    ensures !Truthy(icon) ==> r == DefaultEmoji
    ensures Truthy(icon) && Trim(Lower(icon.value)) in IconEmoji ==> r == IconEmoji[Trim(Lower(icon.value))]
    ensures Truthy(icon) && Trim(Lower(icon.value)) !in IconEmoji ==> r == DefaultEmoji
  {
    if !Truthy(icon) then DefaultEmoji
    else
      var key := Trim(Lower(icon.value));
      // `iconMap[key] || '📍'`: every emoji of the table is non-empty
      if key in IconEmoji then IconEmoji[key] else DefaultEmoji
  }

  /** Every emoji of the table is non-empty. */
  lemma IconValuesNonEmpty()
    ensures forall k :: k in IconEmoji ==> |IconEmoji[k]| > 0
  {
  }

  /** Every icon gets a non-empty emoji. */
  lemma EmojiNeverEmpty(icon: Option<string>)
    ensures EmojiFromIcon(icon) != ""
  {
    IconValuesNonEmpty();
  }

  /** Every key of the table is a non-empty lower-case name without
      surrounding whitespace. */
  lemma IconKeysAreTrimmed(k: string)
    requires k in IconEmoji
    ensures k != [] && !IsSpace(k[0]) && !IsSpace(k[|k| - 1])
  {
  }

  /** The lookup ignores case and surrounding whitespace: an icon name that
      lower-cases to a known key, padded with any whitespace, gets that key's
      emoji. */
  lemma EmojiIgnoresCaseAndPadding(a: string, name: string, b: string)
    requires AllSpaces(a) && AllSpaces(b)
    requires Lower(name) in IconEmoji
    ensures EmojiFromIcon(Some(a + name + b)) == IconEmoji[Lower(name)]
  {
    IconKeysAreTrimmed(Lower(name));
    LowerPadded(a, name, b);
    TrimPadded(a, Lower(name), b);
  }

  /** `{ ...cat, emoji: cat.emoji || getEmojiFromIcon(cat.icon) }` */
  function WithEmoji(c: Category): (d: Category)
    ensures d.(emoji := c.emoji) == c
    ensures d.emoji.Some? && d.emoji.value != ""
    ensures Truthy(c.emoji) ==> d.emoji == c.emoji
  {
    EmojiNeverEmpty(c.icon);
    c.(emoji := Some(if Truthy(c.emoji) then c.emoji.value else EmojiFromIcon(c.icon)))
  }

  /** `poi.category?.categoryId` */
  function CategoryIdOf(p: Poi): Option<int> {
    if p.category.Some? then p.category.value.categoryId else None
  }

  function IdsOf(cats: seq<Category>): set<Option<int>> {
    set i | 0 <= i < |cats| :: cats[i].categoryId
  }

  /** The categories derived from the POIs when none are given: the first
      category seen for each truthy `categoryId`, in POI order. */
  function Derived(pois: seq<Poi>): seq<Category>
    decreases |pois|
  {
    if pois == [] then []
    else
      var before := Derived(pois[..|pois| - 1]);
      var p := pois[|pois| - 1];
      if TruthyInt(CategoryIdOf(p)) && CategoryIdOf(p) !in IdsOf(before) then before + [WithEmoji(p.category.value)]
      else before
  }

  /** `displayCategories`: the given categories with their emoji, else the
      categories derived from the POIs. */
  function DisplayCategories(categories: seq<Category>, pois: seq<Poi>): seq<Category> {
    if |categories| > 0 then Map(categories, WithEmoji) else Derived(pois)
  }

  /** The memo's computation, with the `forEach` over the POIs and the
      `Map` of the ids already seen. */
  method ComputeDisplayCategories(categories: seq<Category>, pois: seq<Poi>) returns (cats: seq<Category>)
    ensures cats == DisplayCategories(categories, pois)
  {
    if |categories| > 0 {
      cats := Map(categories, WithEmoji);
      return;
    }
    cats := [];
    var seen: set<Option<int>> := {};
    var i := 0;
    while i < |pois|
      invariant 0 <= i <= |pois|
      invariant cats == Derived(pois[..i])
      invariant seen == IdsOf(cats)
    {
      var p := pois[i];
      assert pois[..i + 1][..i] == pois[..i];
      if p.category.Some? && TruthyInt(p.category.value.categoryId) && p.category.value.categoryId !in seen {
        var c := WithEmoji(p.category.value);
        assert IdsOf(cats + [c]) == IdsOf(cats) + {c.categoryId} by {
          forall x | x in IdsOf(cats + [c]) ensures x in IdsOf(cats) + {c.categoryId} {
            var j :| 0 <= j < |cats + [c]| && (cats + [c])[j].categoryId == x;
            if j < |cats| {
              assert cats[j].categoryId == x;
            }
          }
          forall x | x in IdsOf(cats) ensures x in IdsOf(cats + [c]) {
            var j :| 0 <= j < |cats| && cats[j].categoryId == x;
            assert (cats + [c])[j].categoryId == x;
          }
          assert (cats + [c])[|cats|].categoryId == c.categoryId;
        }
        cats := cats + [c];
        seen := seen + {c.categoryId};
      }
      i := i + 1;
    }
    assert pois[..i] == pois;
  }

  /** The derived categories have distinct, truthy ids. */
  lemma {:induction false} DerivedDistinct(pois: seq<Poi>)
    ensures var d := Derived(pois);
      (forall i, j :: 0 <= i < j < |d| ==> d[i].categoryId != d[j].categoryId)
      && (forall i :: 0 <= i < |d| ==> TruthyInt(d[i].categoryId))
    decreases |pois|
  {
    if pois != [] {
      var init := pois[..|pois| - 1];
      DerivedDistinct(init);
      var last := pois[|pois| - 1];
      var added := TruthyInt(CategoryIdOf(last)) && CategoryIdOf(last) !in IdsOf(Derived(init));
      assert Derived(pois) == (if added then Derived(init) + [WithEmoji(last.category.value)] else Derived(init));
      var before := Derived(init);
      var d := Derived(pois);
      if added {
        forall i | 0 <= i < |before|
          ensures before[i].categoryId != d[|before|].categoryId
        {
          assert before[i].categoryId in IdsOf(before);
        }
      }
    }
  }

  /** An id is offered exactly when it is truthy and some POI carries it. */
  lemma {:induction false} DerivedIds(pois: seq<Poi>)
    ensures forall id :: id in IdsOf(Derived(pois)) <==>
      TruthyInt(id) && exists k :: 0 <= k < |pois| && CategoryIdOf(pois[k]) == id
    decreases |pois|
  {
    if pois != [] {
      var init := pois[..|pois| - 1];
      var before := Derived(init);
      DerivedIds(init);
      var last := pois[|pois| - 1];
      var added := TruthyInt(CategoryIdOf(last)) && CategoryIdOf(last) !in IdsOf(Derived(init));
      assert Derived(pois) == (if added then Derived(init) + [WithEmoji(last.category.value)] else Derived(init));
      DerivedDistinct(pois);
      var d := Derived(pois);
      forall id
        ensures id in IdsOf(d) <==> TruthyInt(id) && exists k :: 0 <= k < |pois| && CategoryIdOf(pois[k]) == id
      {
        if id in IdsOf(d) {
          var j :| 0 <= j < |d| && d[j].categoryId == id;
          if j < |before| {
            assert before[j].categoryId == id;
            assert id in IdsOf(before);
            var k :| 0 <= k < |init| && CategoryIdOf(init[k]) == id;
            assert CategoryIdOf(pois[k]) == id;
          } else {
            assert CategoryIdOf(pois[|pois| - 1]) == id;
          }
        }
        if TruthyInt(id) && exists k :: 0 <= k < |pois| && CategoryIdOf(pois[k]) == id {
          var k :| 0 <= k < |pois| && CategoryIdOf(pois[k]) == id;
          if k < |init| {
            assert CategoryIdOf(init[k]) == id;
            var j :| 0 <= j < |before| && before[j].categoryId == id;
            assert d[j].categoryId == id;
          } else if added {
            assert d[|before|].categoryId == id;
          }
        }
      }
    }
  }

  /** Each derived entry is the category of the first POI with its id, with
      the emoji filled in. */
  lemma {:induction false} DerivedFirst(pois: seq<Poi>)
    ensures var d := Derived(pois);
      forall i :: 0 <= i < |d| ==> exists k :: (0 <= k < |pois| && pois[k].category.Some?
        && d[i] == WithEmoji(pois[k].category.value)
        && forall m :: 0 <= m < k ==> CategoryIdOf(pois[m]) != d[i].categoryId)
    decreases |pois|
  {
    if pois != [] {
      var init := pois[..|pois| - 1];
      var before := Derived(init);
      DerivedFirst(init);
      var last := pois[|pois| - 1];
      var added := TruthyInt(CategoryIdOf(last)) && CategoryIdOf(last) !in IdsOf(Derived(init));
      assert Derived(pois) == (if added then Derived(init) + [WithEmoji(last.category.value)] else Derived(init));
      DerivedIds(init);
      var d := Derived(pois);
      forall i | 0 <= i < |d|
        ensures exists k :: (0 <= k < |pois| && pois[k].category.Some?
          && d[i] == WithEmoji(pois[k].category.value)
          && forall m :: 0 <= m < k ==> CategoryIdOf(pois[m]) != d[i].categoryId)
      {
        if i < |before| {
          var k :| 0 <= k < |init| && init[k].category.Some?
            && before[i] == WithEmoji(init[k].category.value)
            && forall m :: 0 <= m < k ==> CategoryIdOf(init[m]) != before[i].categoryId;
          assert pois[k] == init[k] && d[i] == before[i];
          assert forall m :: 0 <= m < k ==> pois[m] == init[m];
        } else {
          var k := |pois| - 1;
          forall m | 0 <= m < k
            ensures CategoryIdOf(pois[m]) != d[i].categoryId
          {
            assert init[m] == pois[m];
          }
        }
      }
    }
  }

  /** Given categories take precedence: same length and order, emoji filled
      in. */
  lemma GivenCategoriesWin(categories: seq<Category>, pois: seq<Poi>)
    requires |categories| > 0
    ensures var d := DisplayCategories(categories, pois);
      |d| == |categories|
      && forall i :: 0 <= i < |d| ==> d[i].(emoji := categories[i].emoji) == categories[i] && d[i].emoji.Some?
  {
  }

  // ---------------------------------------------------------------------------
  // Filtering and ordering
  // ---------------------------------------------------------------------------

  /** The category button selected: 'all', or a category's `categoryId`
      (which may be missing). */
  datatype Selection = Everything | CategoryWithId(id: Option<int>)

  /** Name, description, category name or city contains the lower-cased
      query. */
  predicate MatchesQuery(p: Poi, q: string) {
    IncludesOpt(LowerOpt(p.name), q) || IncludesOpt(LowerOpt(p.description), q)
    || IncludesOpt(LowerOpt(CategoryName(p)), q)
    || IncludesOpt(LowerOpt(if p.address.Some? then p.address.value.city else None), q)
  }

  /** `poi.category?.categoryId == categoryFilter` */
  predicate InSelection(p: Poi, s: Selection) {
    s.Everything? || CategoryIdOf(p) == s.id
  }

  /** `(poi.distanceFromRoute || 0)` */
  function DistanceKey(p: Poi): Key {
    Num(if p.distanceFromRoute.Some? then p.distanceFromRoute.value else 0.0)
  }

  /** `filteredPois`: the search only when the query is not blank, but with
      the query lower-cased and not trimmed; then the category; then, in
      distance mode, nearest first. */
  function FilteredRoutePois(pois: seq<Poi>, query: string, selection: Selection, sortBy: string): seq<Poi> {
    var a := if Trim(query) != "" then Filter(pois, (p: Poi) => MatchesQuery(p, Lower(query))) else pois;
    var b := if selection.Everything? then a else Filter(a, (p: Poi) => InSelection(p, selection));
    if sortBy == "distance" then SortBy(b, DistanceKey, true) else b
  }

  /** Both filters in one. */
  predicate Kept(p: Poi, query: string, selection: Selection) {
    (Trim(query) != "" ==> MatchesQuery(p, Lower(query))) && InSelection(p, selection)
  }

  function Unsorted(pois: seq<Poi>, query: string, selection: Selection): seq<Poi> {
    Filter(pois, (p: Poi) => Kept(p, query, selection))
  }

  lemma UnsortedIsTheChain(pois: seq<Poi>, query: string, selection: Selection)
    ensures FilteredRoutePois(pois, query, selection, "") == Unsorted(pois, query, selection)
  {
    var q := (p: Poi) => MatchesQuery(p, Lower(query));
    var s := (p: Poi) => InSelection(p, selection);
    var qk := (p: Poi) => Trim(query) != "" ==> MatchesQuery(p, Lower(query));
    var all := (p: Poi) => Kept(p, query, selection);
    var yes := (p: Poi) => true;
    var a := if Trim(query) != "" then Filter(pois, q) else pois;
    assert a == Filter(pois, qk) by {
      if Trim(query) == "" {
        FilterAll(pois, qk);
      } else {
        FilterAll(pois, yes);
        FilterFilter(pois, yes, q, qk);
      }
    }
    if selection.Everything? {
      FilterFilter(pois, qk, yes, all);
      FilterAll(Filter(pois, qk), yes);
    } else {
      FilterFilter(pois, qk, s, all);
    }
  }

  /** The list shown: the POIs kept by the search and the category, in their
      order unless in distance mode, where they are a permutation ordered
      nearest first (a missing distance counting as 0). */
  lemma FilteredRoutePoisSpec(pois: seq<Poi>, query: string, selection: Selection, sortBy: string)
    ensures var r := FilteredRoutePois(pois, query, selection, sortBy);
      var kept := Unsorted(pois, query, selection);
      (forall i :: 0 <= i < |kept| ==> Kept(kept[i], query, selection))
      && (forall p :: p in pois && Kept(p, query, selection) ==> p in kept)
      && IsSubsequence(kept, pois)
      && (sortBy != "distance" ==> r == kept)
      && (sortBy == "distance" ==>
            (multiset(r) == multiset(kept)
             && (forall i, j :: 0 <= i < j < |r| ==> KeyLe(DistanceKey(r[i]), DistanceKey(r[j])))
             && (forall k :: Filter(r, WithKey(DistanceKey, k)) == Filter(kept, WithKey(DistanceKey, k)))))
  {
    UnsortedIsTheChain(pois, query, selection);
    FilterSpec(pois, (p: Poi) => Kept(p, query, selection));
    var r := FilteredRoutePois(pois, query, selection, sortBy);
    if sortBy == "distance" {
      var kept := Unsorted(pois, query, selection);
      forall k ensures Filter(r, WithKey(DistanceKey, k)) == Filter(kept, WithKey(DistanceKey, k)) {
        SortByStable(kept, DistanceKey, true, k);
      }
      assert SortedBy(r, DistanceKey, true);
      forall i, j | 0 <= i < j < |r|
        ensures KeyLe(DistanceKey(r[i]), DistanceKey(r[j]))
      {
        assert Precedes(DistanceKey(r[i]), DistanceKey(r[j]), true);
      }
    }
  }

  /** A blank query (only whitespace) does not filter. */
  lemma BlankQueryKeepsAll(pois: seq<Poi>, query: string)
    requires AllSpaces(query)
    ensures FilteredRoutePois(pois, query, Everything, "likes") == pois
  {
    TrimAllSpaces(query);
  }

  /** A query is matched with its surrounding whitespace kept: a trailing
      space makes a POI that the bare word finds by its name disappear. */
  lemma PaddedQueryIsNotTrimmed(p: Poi, w: string)
    requires w != [] && !IsSpace(w[0]) && !IsSpace(w[|w| - 1]) && Lower(w) == w
    requires p.name == Some(w) && p.description.None? && p.category.None? && p.address.None?
    ensures FilteredRoutePois([p], w, Everything, "likes") == [p]
    ensures FilteredRoutePois([p], w + " ", Everything, "likes") == []
  {
    BareQueryFinds(p, w);
    PaddedQueryMisses(p, w);
    var q := (x: Poi) => MatchesQuery(x, Lower(w));
    var q2 := (x: Poi) => MatchesQuery(x, Lower(w + " "));
    assert Filter([p], q) == [p] + Filter([p][1..], q);
    assert Filter([p], q2) == Filter([p][1..], q2);
  }

  lemma BareQueryFinds(p: Poi, w: string)
    requires w != [] && !IsSpace(w[0]) && !IsSpace(w[|w| - 1]) && Lower(w) == w
    requires p.name == Some(w)
    ensures Trim(w) != "" && MatchesQuery(p, Lower(w))
  {
    TrimUnpadded(w);
    assert w <= w[0..];
    assert Includes(w, w);
  }

  lemma TrailingSpaceTrimmed(w: string)
    requires w != [] && !IsSpace(w[0]) && !IsSpace(w[|w| - 1])
    ensures Trim(w + " ") == w
  {
    assert AllSpaces(" ") by {
      assert IsSpace(' ');
    }
    TrimPadded("", w, " ");
    assert "" + w + " " == w + " ";
  }

  lemma PaddedQueryMisses(p: Poi, w: string)
    requires w != [] && !IsSpace(w[0]) && !IsSpace(w[|w| - 1])
    requires p.name == Some(w) && p.description.None? && p.category.None? && p.address.None?
    ensures Trim(w + " ") != "" && !MatchesQuery(p, Lower(w + " "))
  {
    TrailingSpaceTrimmed(w);
    NameOnlyMisses(p, w, Lower(w + " "));
  }

  /** A POI known only by its name does not match a query longer than it. */
  lemma NameOnlyMisses(p: Poi, w: string, t: string)
    requires p.name == Some(w) && p.description.None? && p.category.None? && p.address.None?
    requires |t| > |w|
    ensures !MatchesQuery(p, t)
  {
    IncludesLonger(Lower(w), t);
    assert !IncludesOpt(LowerOpt(p.name), t);
    assert LowerOpt(p.description).None? && CategoryName(p).None?;
  }

  // ---------------------------------------------------------------------------
  // The panel
  // ---------------------------------------------------------------------------

  /** The loader callbacks of the panel. */
  datatype Loader = LoadAll | LoadTopLiked(limit: int) | LoadTopFavorites(limit: int) | LoadTopCommented(limit: int)

  /** The loader a sort mode calls with the limit `limit`. */
  function LoaderFor(mode: string, limit: int): (r: Option<Loader>)
    ensures r.None? <==> mode !in {"distance", "likes", "favorites", "comments"}
    ensures r.Some? && !r.value.LoadAll? ==> r.value.limit == limit
  {
    if mode == "distance" then Some(LoadAll)
    else if mode == "likes" then Some(LoadTopLiked(limit))
    else if mode == "favorites" then Some(LoadTopFavorites(limit))
    else if mode == "comments" then Some(LoadTopCommented(limit))
    else None
  }

  class FilterPanel {
    var searchQuery: string
    var sortBy: string
    var categoryFilter: Selection
    var topLimit: int
    var showFilters: bool

    /** The list shown and reported to the parent. */
    function Visible(pois: seq<Poi>): seq<Poi>
      reads this
    {
      FilteredRoutePois(pois, searchQuery, categoryFilter, sortBy)
    }

    constructor()
      ensures searchQuery == "" && sortBy == "distance" && categoryFilter == Everything
      ensures topLimit == 5 && showFilters
    {
      searchQuery, sortBy, categoryFilter, topLimit, showFilters := "", "distance", Everything, 5, true;
    }

    /** `handleSortChange(newSort)`: the mode changes and its loader is
        called with the current limit. */
    method HandleSortChange(newSort: string) returns (called: Option<Loader>)
      modifies this
      ensures sortBy == newSort
      ensures called == LoaderFor(newSort, old(topLimit))
      ensures newSort == "distance" ==> called == Some(LoadAll)
      ensures (searchQuery, categoryFilter, topLimit, showFilters)
        == old((searchQuery, categoryFilter, topLimit, showFilters))
    {
      sortBy := newSort;
      called := LoaderFor(newSort, topLimit);
    }

    /** `handleTopLimitChange(newLimit)`: reloads only in a top mode, with
        the new limit. */
    method HandleTopLimitChange(newLimit: int) returns (called: Option<Loader>)
      modifies this
      ensures topLimit == newLimit
      ensures called == (if sortBy == "distance" then None else LoaderFor(sortBy, newLimit))
      ensures called.Some? ==> !called.value.LoadAll? && called.value.limit == newLimit
      ensures (searchQuery, sortBy, categoryFilter, showFilters)
        == old((searchQuery, sortBy, categoryFilter, showFilters))
    {
      topLimit := newLimit;
      called := if sortBy == "distance" then None else LoaderFor(sortBy, newLimit);
    }

    /** A category button: 'all' reports `null`, a category reports
        `[categoryId]`. */
    method SelectCategory(selection: Selection) returns (reported: Option<seq<Option<int>>>)
      modifies this
      ensures categoryFilter == selection
      ensures reported == (if selection.Everything? then None else Some([selection.id]))
      ensures (searchQuery, sortBy, topLimit, showFilters) == old((searchQuery, sortBy, topLimit, showFilters))
    {
      categoryFilter := selection;
      reported := if selection.Everything? then None else Some([selection.id]);
    }

    /** The search box and its clear button. */
    method SetSearchQuery(query: string)
      modifies this
      ensures searchQuery == query
      ensures (sortBy, categoryFilter, topLimit, showFilters) == old((sortBy, categoryFilter, topLimit, showFilters))
    {
      searchQuery := query;
    }
  }
}
