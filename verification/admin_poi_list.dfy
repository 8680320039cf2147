/**
 * The administration POI list page: the catalogue with server-side paging,
 * category and search parameters, client-side filtering and sorting, the
 * facets, deletion and the page-size selector.
 */
module AdminPoiList {
  import opened Common
  import opened Lists
  import opened Sorting
  import opened Pois
  import PoiService

  const LoadErrorMessage: string := "Impossible de charger les données"
  const DeleteErrorMessage: string := "Erreur lors de la suppression du POI"

  /** The parameters of `poiService.getAll`: `page` and `size`, plus
      `category` and `search` only when selected (`|| undefined` leaves the
      parameter out). */
  function CatalogueQuery(page: nat, pageSize: nat, category: string, search: string): (r: PoiService.Params)
    ensures "page" in r && r["page"] == PoiService.Num(page as real)
    ensures "size" in r && r["size"] == PoiService.Num(pageSize as real)
    ensures "category" in r <==> category != ""
    ensures "search" in r <==> search != ""
    ensures category != "" ==> "category" in r && r["category"] == PoiService.Text(category)
    ensures search != "" ==> "search" in r && r["search"] == PoiService.Text(search)
    ensures r.Keys <= {"page", "size", "category", "search"}
  {
    var base := map["page" := PoiService.Num(page as real), "size" := PoiService.Num(pageSize as real)];
    var withCategory := if category != "" then base["category" := PoiService.Text(category)] else base;
    if search != "" then withCategory["search" := PoiService.Text(search)] else withCategory
  }

  class CatalogueList {
    var pois: seq<Poi>
    var categories: seq<Category>
    var totalElements: int
    var totalPages: int
    var error: Option<string>
    var page: nat
    var pageSize: nat
    var searchTerm: string
    var sortCriteria: string
    var selectedTown: string
    var selectedCategory: string

    function Data(): ListData
      reads this
    {
      ListData(pois, categories, totalElements, totalPages, error)
    }

    function Selections(): (nat, nat, string, string, string, string)
      reads this
    {
      (page, pageSize, searchTerm, sortCriteria, selectedTown, selectedCategory)
    }

    /** `filteredAndSortedPois` */
    function Visible(): seq<Poi>
      reads this
    {
      FilteredAndSorted(pois, searchTerm, selectedTown, selectedCategory, sortCriteria, CataloguePage)
    }

    constructor()
      ensures Data() == ListData([], [], 0, 0, None)
      ensures Selections() == (0, 20, "", "", "", "")
    {
      pois, categories, totalElements, totalPages, error := [], [], 0, 0, None;
      page, pageSize := 0, 20;
      searchTerm, sortCriteria, selectedTown, selectedCategory := "", "", "", "";
    }

    /** `fetchData()`; `query` is the request sent for the POIs. */
    method FetchData(categoriesResult: Fetched<Option<seq<Category>>>, listResult: Fetched<ListBody>)
      returns (query: PoiService.Params)
      modifies this
      ensures Data() == AfterFetch(old(Data()), categoriesResult, listResult, LoadErrorMessage)
      ensures Selections() == old(Selections())
      ensures query == CatalogueQuery(page, pageSize, selectedCategory, searchTerm)
    {
      query := CatalogueQuery(page, pageSize, selectedCategory, searchTerm);
      if |categories| == 0 {
        if categoriesResult.Failed? {
          error := Some(LoadErrorMessage);
          return;
        }
        categories := if categoriesResult.data.Some? then categoriesResult.data.value else [];
      }
      if listResult.Failed? {
        error := Some(LoadErrorMessage);
        return;
      }
      var listing := ApplyListing(listResult.data);
      pois := listing.pois;
      totalElements := listing.totalElements;
      totalPages := listing.totalPages;
      error := None;
    }

    /** `handleDelete(id)`: on success exactly the POIs keyed `poiId || id`
        equal to `id` are removed; on failure an alert is shown. */
    method HandleDelete(id: Option<int>, succeeded: bool) returns (alert: Option<string>)
      modifies this
      ensures pois == (if succeeded then WithoutKey(old(pois), PoiIdOrId, id) else old(pois))
      ensures alert == (if succeeded then None else Some(DeleteErrorMessage))
      ensures categories == old(categories) && totalElements == old(totalElements)
        && totalPages == old(totalPages) && error == old(error)
      ensures Selections() == old(Selections())
    {
      alert := None;
      if succeeded {
        pois := WithoutKey(pois, PoiIdOrId, id);
      } else {
        alert := Some(DeleteErrorMessage);
      }
    }

    /** `handleFilterChange({ town, type })` */
    method HandleFilterChange(town: string, kind: string)
      modifies this
      ensures selectedTown == town && selectedCategory == kind
      ensures Data() == old(Data())
      ensures (page, pageSize, searchTerm, sortCriteria) == (old(page), old(pageSize), old(searchTerm), old(sortCriteria))
    {
      selectedTown, selectedCategory := town, kind;
    }

    /** `handleSearchChange(term)` */
    method HandleSearchChange(term: string)
      modifies this
      ensures searchTerm == term
      ensures Data() == old(Data())
      ensures (page, pageSize, sortCriteria, selectedTown, selectedCategory)
        == (old(page), old(pageSize), old(sortCriteria), old(selectedTown), old(selectedCategory))
    {
      searchTerm := term;
    }

    /** `handleSortChange(criteria)` */
    method HandleSortChange(criteria: string)
      modifies this
      ensures sortCriteria == criteria
      ensures Data() == old(Data())
      ensures (page, pageSize, searchTerm, selectedTown, selectedCategory)
        == (old(page), old(pageSize), old(searchTerm), old(selectedTown), old(selectedCategory))
    {
      sortCriteria := criteria;
    }

    /** The 'reset filters' button: category, town and search are cleared. */
    method ClearFilters()
      modifies this
      ensures selectedCategory == "" && selectedTown == "" && searchTerm == ""
      ensures Data() == old(Data())
      ensures (page, pageSize, sortCriteria) == (old(page), old(pageSize), old(sortCriteria))
    {
      selectedCategory, selectedTown, searchTerm := "", "", "";
    }

    /** The page-size selector: a new size goes back to the first page. */
    method SetPageSize(size: nat)
      modifies this
      ensures pageSize == size && page == 0
      ensures Data() == old(Data())
      ensures (searchTerm, sortCriteria, selectedTown, selectedCategory)
        == (old(searchTerm), old(sortCriteria), old(selectedTown), old(selectedCategory))
    {
      pageSize := size;
      page := 0;
    }
  }

  /** After the filters are cleared and with no sort criteria, the catalogue
      shows every POI it holds, in order. */
  lemma ClearedShowsEverything(pois: seq<Poi>)
    ensures FilteredAndSorted(pois, "", "", "", "", CataloguePage) == pois
  {
    NothingSelectedKeepsList(pois, CataloguePage);
  }

  /** The catalogue's date key: `createdAt`, else `date_created`, else 0;
      in an ascending date sort the POIs with neither date come first. */
  lemma CatalogueDateOrder(pois: seq<Poi>, i: nat, j: nat)
    requires 0 <= i < j < |SortPois(pois, "date_asc", CataloguePage)|
    ensures var r := SortPois(pois, "date_asc", CataloguePage);
      !Truthy(r[j].createdAt) && !Truthy(r[j].dateCreated) ==>
        !Truthy(r[i].createdAt) && !Truthy(r[i].dateCreated)
  {
    DateAscCriteria();
    SortPoisSpec(pois, "date_asc", CataloguePage);
    var r := SortPois(pois, "date_asc", CataloguePage);
    assert KeyLe(SortKey(r[i], "date", CataloguePage), SortKey(r[j], "date", CataloguePage));
    if !Truthy(r[j].createdAt) && !Truthy(r[j].dateCreated) {
      UndatedFirst(r[i], r[j]);
    }
  }

  lemma DateAscCriteria()
    ensures ParseCriteria("date_asc") == ("date", true)
  {
    CriteriaRoundTrip("date", "asc");
    assert Criteria("date", "asc") == "date_asc";
  }

  /** Only an undated POI may come before an undated one. */
  lemma UndatedFirst(a: Poi, b: Poi)
    requires KeyLe(SortKey(a, "date", CataloguePage), SortKey(b, "date", CataloguePage))
    requires !Truthy(b.createdAt) && !Truthy(b.dateCreated)
    ensures !Truthy(a.createdAt) && !Truthy(a.dateCreated)
  {
  }
}
