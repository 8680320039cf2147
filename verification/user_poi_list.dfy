/**
 * The user's favourite-POI list page: its state (the POIs, categories,
 * totals, paging and the nav bar's selections) and its handlers: loading,
 * deleting, and the optimistic like and favourite toggles, which reload the
 * page when the request fails.
 */
module UserPoiList {
  import opened Common
  import opened Pois
  import PoiService

  const LoadErrorMessage: string := "Impossible de charger vos points d'intérêt favoris."
  const DeleteErrorMessage: string := "Erreur lors de la suppression du POI"

  /** `getFavorites({ page, size: pageSize })` */
  function FavoritesQuery(page: nat, pageSize: nat): (r: PoiService.Params)
    ensures r.Keys == {"page", "size"}
    ensures r["page"] == PoiService.Num(page as real) && r["size"] == PoiService.Num(pageSize as real)
  {
    map["page" := PoiService.Num(page as real), "size" := PoiService.Num(pageSize as real)]
  }

  class FavoritesPage {
    var pois: seq<Poi>
    var categories: seq<Category>
    var totalElements: int
    var totalPages: int
    var error: Option<string>
    var page: nat
    var pageSize: nat
    var searchTerm: string
    var sortCriteria: string
    var selectedTown: string
    var selectedCategory: string

    /** The part of the state a load replaces. */
    function Data(): ListData
      reads this
    {
      ListData(pois, categories, totalElements, totalPages, error)
    }

    /** The selections and the paging, which no load or click changes. */
    function Selections(): (nat, nat, string, string, string, string)
      reads this
    {
      (page, pageSize, searchTerm, sortCriteria, selectedTown, selectedCategory)
    }

    /** `filteredAndSortedPois` */
    function Visible(): seq<Poi>
      reads this
    {
      FilteredAndSorted(pois, searchTerm, selectedTown, selectedCategory, sortCriteria, FavoritesPage)
    }

    constructor()
      ensures Data() == ListData([], [], 0, 0, None)
      ensures Selections() == (0, 20, "", "", "", "")
    {
      pois, categories, totalElements, totalPages, error := [], [], 0, 0, None;
      page, pageSize := 0, 20;
      searchTerm, sortCriteria, selectedTown, selectedCategory := "", "", "", "";
    }

    /** `fetchData()`; `query` is the request sent for the POIs. */
    method FetchData(categoriesResult: Fetched<Option<seq<Category>>>, listResult: Fetched<ListBody>)
      returns (query: PoiService.Params)
      modifies this
      ensures Data() == AfterFetch(old(Data()), categoriesResult, listResult, LoadErrorMessage)
      ensures Selections() == old(Selections())
      ensures query == FavoritesQuery(page, pageSize)
    {
      query := FavoritesQuery(page, pageSize);
      if |categories| == 0 {
        if categoriesResult.Failed? {
          error := Some(LoadErrorMessage);
          return;
        }
        categories := if categoriesResult.data.Some? then categoriesResult.data.value else [];
      }
      if listResult.Failed? {
        error := Some(LoadErrorMessage);
        return;
      }
      var listing := ApplyListing(listResult.data);
      pois := listing.pois;
      totalElements := listing.totalElements;
      totalPages := listing.totalPages;
      error := None;
    }

    /** `handleDelete(id)`: on success the POIs keyed `poiId || id` equal to
        `id` are removed; on failure the list stays and an alert is shown. */
    method HandleDelete(id: Option<int>, succeeded: bool) returns (alert: Option<string>)
      modifies this
      ensures pois == (if succeeded then WithoutKey(old(pois), PoiIdOrId, id) else old(pois))
      ensures alert == (if succeeded then None else Some(DeleteErrorMessage))
      ensures categories == old(categories) && totalElements == old(totalElements)
        && totalPages == old(totalPages) && error == old(error)
      ensures Selections() == old(Selections())
    {
      alert := None;
      if succeeded {
        pois := WithoutKey(pois, PoiIdOrId, id);
      } else {
        alert := Some(DeleteErrorMessage);
      }
    }

    /** `handleLike(target)` (`r == Like`) and `handleFavorite(target)`
        (`r == Favorite`): every POI keyed like `target` takes the negation of
        the target's flag and moves its counter; the request goes out; when
        it fails the page is loaded again from `reload`. */
    method HandleReaction(r: Reaction, target: Poi, succeeded: bool,
                          reloadCategories: Fetched<Option<seq<Category>>>, reloadList: Fetched<ListBody>)
      returns (call: ReactionCall)
      modifies this
      ensures call == CallFor(r, Flag(target, r), KeyOf(target, PoiIdOrId))
      ensures var optimistic := old(Data()).(pois := ReactMatching(old(pois), r, PoiIdOrId, KeyOf(target, PoiIdOrId), Some(!Flag(target, r))));
        Data() == (if succeeded then optimistic else AfterFetch(optimistic, reloadCategories, reloadList, LoadErrorMessage))
      ensures Selections() == old(Selections())
    {
      var key := KeyOf(target, PoiIdOrId);
      pois := ReactMatching(pois, r, PoiIdOrId, key, Some(!Flag(target, r)));
      call := CallFor(r, Flag(target, r), key);
      if !succeeded {
        var _ := FetchData(reloadCategories, reloadList);
      }
    }

    /** `handleSearchChange(term)` */
    method HandleSearchChange(term: string)
      modifies this
      ensures searchTerm == term
      ensures Data() == old(Data())
      ensures (page, pageSize, sortCriteria, selectedTown, selectedCategory)
        == (old(page), old(pageSize), old(sortCriteria), old(selectedTown), old(selectedCategory))
    {
      searchTerm := term;
    }

    /** `handleSortChange(criteria)` */
    method HandleSortChange(criteria: string)
      modifies this
      ensures sortCriteria == criteria
      ensures Data() == old(Data())
      ensures (page, pageSize, searchTerm, selectedTown, selectedCategory)
        == (old(page), old(pageSize), old(searchTerm), old(selectedTown), old(selectedCategory))
    {
      sortCriteria := criteria;
    }

    /** `handleFilterChange({ town, type })`: both selections are replaced. */
    method HandleFilterChange(town: string, kind: string)
      modifies this
      ensures selectedTown == town && selectedCategory == kind
      ensures Data() == old(Data())
      ensures (page, pageSize, searchTerm, sortCriteria) == (old(page), old(pageSize), old(searchTerm), old(sortCriteria))
    {
      selectedTown, selectedCategory := town, kind;
    }

    /** The page-size selector: a new size goes back to the first page. */
    method SetPageSize(size: nat)
      modifies this
      ensures pageSize == size && page == 0
      ensures Data() == old(Data())
      ensures (searchTerm, sortCriteria, selectedTown, selectedCategory)
        == (old(searchTerm), old(sortCriteria), old(selectedTown), old(selectedCategory))
    {
      pageSize := size;
      page := 0;
    }
  }

  /** A successful like on the favourites page changes only the POIs keyed
      like the target, and keeps every counter non-negative when they were. */
  lemma LikeChangesOnlyTarget(pois: seq<Poi>, target: Poi, i: nat)
    requires i < |pois|
    ensures var qs := ReactMatching(pois, Like, PoiIdOrId, KeyOf(target, PoiIdOrId), Some(!target.isLiked));
      (KeyOf(pois[i], PoiIdOrId) != KeyOf(target, PoiIdOrId) ==> qs[i] == pois[i])
      && (KeyOf(pois[i], PoiIdOrId) == KeyOf(target, PoiIdOrId) ==>
            qs[i].isLiked == !target.isLiked
            && qs[i].(isLiked := pois[i].isLiked, likeCount := pois[i].likeCount) == pois[i]
            && qs[i].likeCount == Some(if !target.isLiked then IntOrZero(pois[i].likeCount) + 1
                                       else if IntOrZero(pois[i].likeCount) >= 1 then IntOrZero(pois[i].likeCount) - 1
                                       else 0))
  {
    var qs := ReactMatching(pois, Like, PoiIdOrId, KeyOf(target, PoiIdOrId), Some(!target.isLiked));
    if KeyOf(pois[i], PoiIdOrId) == KeyOf(target, PoiIdOrId) {
      assert qs[i] == React(pois[i], Like, !target.isLiked);
      assert WithReaction(qs[i], Like, Flag(pois[i], Like), Count(pois[i], Like)) == pois[i];
    }
  }
}
