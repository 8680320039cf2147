/**
 * The user's interactive map page: every POI loaded page by page, the
 * category filter with its per-category counts, the legend, the selected
 * POI's panel and the optimistic like and favourite toggles, which roll the
 * list back when the request fails.
 */
module UserMap {
  import opened Common
  import opened Lists
  import opened Pois
  import PoiService

  /** The id of the 'every POI' entry, also the initial selection. */
  const AllId: string := "all"
  const AllCaption: string := "Tous les POIs"
  const AllColor: string := "#6B7280"
  const AllIcon: string := "🏷️"
  /** The number of legend entries shown until 'see more' is clicked. */
  const LegendLimit: nat := 5
  /** `getAllPaginated({}, 50)` */
  const MaxPages: int := 50

  /** `p => p.category?.name === name`; a missing name matches the POIs
      whose category has no name (`undefined === undefined`). */
  function SameName(name: Option<string>): Poi -> bool {
    (p: Poi) => CategoryName(p) == name
  }

  /** `filteredPois`: every POI for 'all', else those whose category name is
      the selection. */
  function FilteredPois(pois: seq<Poi>, selected: Option<string>): seq<Poi> {
    if selected == Some(AllId) then pois else Filter(pois, SameName(selected))
  }

  /** The map shows a subsequence of the POIs; for 'all' it is every POI,
      otherwise exactly the POIs of the selected category, and the 'filtered'
      statistic is the number of the others. */
  lemma FilteredPoisSpec(pois: seq<Poi>, selected: Option<string>)
    ensures var r := FilteredPois(pois, selected);
      IsSubsequence(r, pois)
      && (selected == Some(AllId) ==> r == pois)
      && (selected != Some(AllId) ==>
            (forall i :: 0 <= i < |r| ==> CategoryName(r[i]) == selected)
            && (forall p :: p in pois && CategoryName(p) == selected ==> p in r)
            && |pois| - |r| == CountWhere(pois, (p: Poi) => CategoryName(p) != selected))
  {
    if selected == Some(AllId) {
      SubsequenceRefl(pois);
    } else {
      var same := SameName(selected);
      FilterSpec(pois, same);
      FilterLength(pois, same);
      KeptPlusDropped(pois, same, (p: Poi) => CategoryName(p) != selected);
    }
  }

  /** An entry of the category panel (`allCategories`). */
  datatype CategoryEntry = CategoryEntry(
    id: Option<string>,
    name: Option<string>,
    count: nat,
    color: Option<string>,
    icon: string)

  /** `allCategories`: the 'all' entry counting every POI, then one entry
      per category counting the POIs with that category name, with its
      icon or '📍'. */
  function AllCategories(pois: seq<Poi>, categories: seq<Category>): (r: seq<CategoryEntry>)
    ensures |r| == |categories| + 1
    ensures r[0] == CategoryEntry(Some(AllId), Some(AllCaption), |pois|, Some(AllColor), AllIcon)
    ensures forall i :: 0 <= i < |categories| ==> r[i + 1] == EntryFor(pois, categories[i])
  {
    var rest := Map(categories, (c: Category) => EntryFor(pois, c));
    assert forall i :: 0 <= i < |categories| ==> rest[i] == EntryFor(pois, categories[i]);
    [CategoryEntry(Some(AllId), Some(AllCaption), |pois|, Some(AllColor), AllIcon)] + rest
  }

  /** The panel entry of one category: its name as id and label, the
      number of POIs with that category name, its colour, and its icon or
      '📍'. */
  function EntryFor(pois: seq<Poi>, c: Category): CategoryEntry {
    CategoryEntry(c.name, c.name, CountWhere(pois, SameName(c.name)), c.color, OrElse(c.icon, DefaultIcon))
  }

  /** Clicking an entry of the panel selects its id, and the map then shows
      exactly as many POIs as the entry announces (unless a category is
      itself named 'all', which the page cannot tell from the 'all' entry). */
  lemma SelectingAnEntryShowsItsCount(pois: seq<Poi>, categories: seq<Category>, k: nat)
    requires k < |categories| + 1
    requires k > 0 ==> categories[k - 1].name != Some(AllId)
    ensures var e := AllCategories(pois, categories)[k];
      |FilteredPois(pois, e.id)| == e.count
  {
    var e := AllCategories(pois, categories)[k];
    if k > 0 {
      FilterLength(pois, SameName(categories[k - 1].name));
    }
  }

  /** Each category's count is bounded by the 'all' count, and for a named
      category it is the per-category count the list pages compute (0 when
      no POI carries the name). */
  lemma CategoryEntryCounts(pois: seq<Poi>, categories: seq<Category>, i: nat)
    requires i < |categories|
    ensures var e := AllCategories(pois, categories)[i + 1];
      e.count <= AllCategories(pois, categories)[0].count
      && (Truthy(categories[i].name) ==>
            e.count == (if categories[i].name.value in CategoryCounts(pois)
                        then CategoryCounts(pois)[categories[i].name.value] else 0))
  {
    var name := categories[i].name;
    CountWhereBound(pois, SameName(name));
    if Truthy(name) {
      CategoryCountsSpec(pois);
      CountWhereEquiv(pois, SameName(name), NamedPredicate(name.value));
      if name.value !in CategoryCounts(pois) {
        CountWherePositive(pois, NamedPredicate(name.value));
      }
    }
  }

  /** `displayedCategories`: every category once expanded, else the first
      five. */
  function DisplayedCategories(categories: seq<Category>, showAll: bool): (r: seq<Category>)
    ensures showAll ==> r == categories
    ensures !showAll ==> |r| == (if |categories| < LegendLimit then |categories| else LegendLimit)
    ensures r == categories[..|r|]
  {
    if showAll || |categories| <= LegendLimit then categories else categories[..LegendLimit]
  }

  /** `selectedPoi?.poiId` */
  function SelectedKey(selected: Option<Poi>): Option<int> {
    if selected.Some? then selected.value.poiId else None
  }

  class MapPage {
    var pois: seq<Poi>
    var categories: seq<Category>
    var selectedCategory: Option<string>
    var selectedPoi: Option<Poi>
    var showInfoPanel: bool
    var showAllLegend: bool

    /** The markers drawn. */
    function Visible(): seq<Poi>
      reads this
    {
      FilteredPois(pois, selectedCategory)
    }

    /** The 'filtered' statistic: `totalPois - visiblePois`. */
    function HiddenCount(): int
      reads this
    {
      |pois| - |Visible()|
    }

    constructor()
      ensures pois == [] && categories == [] && selectedCategory == Some(AllId)
      ensures selectedPoi.None? && !showInfoPanel && !showAllLegend
    {
      pois, categories, selectedCategory := [], [], Some(AllId);
      selectedPoi, showInfoPanel, showAllLegend := None, false, false;
    }

    /** The loading effect: the categories (`data?.categories || []`), then
        every POI through `getAllPaginated({}, 50)`, whose page responses are
        `responses`. A failed categories request skips the POIs. */
    method Load(categoriesResult: Fetched<Option<seq<Category>>>, responses: nat -> Option<PoiService.Body<Poi>>)
      returns (requests: seq<PoiService.Params>)
      modifies this
      ensures categoriesResult.Failed? ==> (requests == []
        && pois == old(pois) && categories == old(categories))
      ensures categoriesResult.Received? ==>
        (categories == (if categoriesResult.data.Some? then categoriesResult.data.value else [])
         && |requests| == PoiService.FetchCount(responses, MaxPages, 0)
         && (forall k :: 0 <= k < |requests| ==> requests[k] == PoiService.PageParams(map[], k))
         && pois == PoiService.Gathered(responses, |requests|))
      ensures selectedCategory == old(selectedCategory) && selectedPoi == old(selectedPoi)
      ensures showInfoPanel == old(showInfoPanel) && showAllLegend == old(showAllLegend)
    {
      requests := [];
      if categoriesResult.Failed? {
        return;
      }
      categories := if categoriesResult.data.Some? then categoriesResult.data.value else [];
      var all;
      all, requests := PoiService.GetAllPaginated(map[], MaxPages, responses);
      pois := all;
    }

    /** `handleLike(poi)` (`r == Like`) and `handleFavorite(poi)`
        (`r == Favorite`). A missing POI does nothing. Otherwise every POI
        with the clicked POI's `poiId` takes the negation of the clicked
        POI's flag and moves its counter, the selected POI is replaced by the
        updated clicked POI when their `poiId`s agree, and the request goes
        out; when it fails the list (only) goes back to what it was. */
    method HandleReaction(r: Reaction, poi: Option<Poi>, succeeded: bool) returns (call: Option<ReactionCall>)
      modifies this
      ensures poi.None? ==> call.None? && pois == old(pois) && selectedPoi == old(selectedPoi)
      ensures poi.Some? ==> call == Some(CallFor(r, Flag(poi.value, r), poi.value.poiId))
      ensures poi.Some? ==> pois == (if succeeded
        then ReactMatching(old(pois), r, PoiIdOnly, poi.value.poiId, Some(!Flag(poi.value, r)))
        else old(pois))
      ensures poi.Some? ==> selectedPoi == (if SelectedKey(old(selectedPoi)) == poi.value.poiId
        then Some(React(poi.value, r, !Flag(poi.value, r)))
        else old(selectedPoi))
      ensures categories == old(categories) && selectedCategory == old(selectedCategory)
      ensures showInfoPanel == old(showInfoPanel) && showAllLegend == old(showAllLegend)
    {
      call := None;
      if poi.None? {
        return;
      }
      var p := poi.value;
      var before := pois;
      var on := !Flag(p, r);
      pois := ReactMatching(pois, r, PoiIdOnly, p.poiId, Some(on));
      if SelectedKey(selectedPoi) == p.poiId {
        selectedPoi := Some(React(p, r, on));
      }
      call := Some(CallFor(r, Flag(p, r), p.poiId));
      if !succeeded {
        pois := before;
      }
    }

    /** A marker click or 'more details': the POI is selected and the panel
        opened. */
    method HandleMarkerClick(poi: Poi)
      modifies this
      ensures selectedPoi == Some(poi) && showInfoPanel
      ensures pois == old(pois) && categories == old(categories)
      ensures selectedCategory == old(selectedCategory) && showAllLegend == old(showAllLegend)
    {
      selectedPoi, showInfoPanel := Some(poi), true;
    }

    /** A click on an entry of the category panel selects its id. */
    method SelectCategory(id: Option<string>)
      modifies this
      ensures selectedCategory == id
      ensures pois == old(pois) && categories == old(categories) && selectedPoi == old(selectedPoi)
      ensures showInfoPanel == old(showInfoPanel) && showAllLegend == old(showAllLegend)
    {
      selectedCategory := id;
    }

    /** 'Reset everything': back to 'all', the panel closed. */
    method Reset()
      modifies this
      ensures selectedCategory == Some(AllId) && !showInfoPanel
      ensures Visible() == pois && HiddenCount() == 0
      ensures pois == old(pois) && categories == old(categories) && selectedPoi == old(selectedPoi)
      ensures showAllLegend == old(showAllLegend)
    {
      selectedCategory, showInfoPanel := Some(AllId), false;
    }

    /** 'See more' / 'see less' on the legend. */
    method ToggleLegend()
      modifies this
      ensures showAllLegend == !old(showAllLegend)
      ensures pois == old(pois) && categories == old(categories) && selectedPoi == old(selectedPoi)
      ensures selectedCategory == old(selectedCategory) && showInfoPanel == old(showInfoPanel)
    {
      showAllLegend := !showAllLegend;
    }
  }

  /** After a successful click on a POI that is in the list, the updated
      clicked POI is in the updated list: the panel and the markers agree. */
  lemma ClickedPoiStaysInList(pois: seq<Poi>, poi: Poi, r: Reaction)
    requires poi in pois
    ensures React(poi, r, !Flag(poi, r)) in ReactMatching(pois, r, PoiIdOnly, poi.poiId, Some(!Flag(poi, r)))
  {
    var i :| 0 <= i < |pois| && pois[i] == poi;
    var qs := ReactMatching(pois, r, PoiIdOnly, poi.poiId, Some(!Flag(poi, r)));
    assert qs[i] == React(poi, r, !Flag(poi, r));
  }
}
