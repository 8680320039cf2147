/**
 * The POI list nav bar: the search box, the town and type selectors and the
 * sort selector with its two direction buttons. Each handler updates its own
 * field and reports to the page: the search term, the sort criteria
 * `field_direction`, or both filter selections.
 */
module PoiListNavBar {
  import opened Common
  import opened Sorting

  /** The values of the sort selector (the empty one is the hidden
      placeholder). */
  const OfferedFields: set<string> := {"", "name", "town", "type", "date"}
  const Directions: set<string> := {"asc", "desc"}

  /** The type option label: `type.charAt(0).toUpperCase() + type.slice(1)`. */
  function TypeLabel(kind: string): (r: string)
    ensures |r| == |kind|
    ensures kind != "" ==> r[0] == UpperChar(kind[0]) && r[1..] == kind[1..]
  {
    Capitalize(kind)
  }

  class NavBar {
    var searchTerm: string
    var sortField: string
    var sortDirection: string
    var selectedTown: string
    var selectedType: string

    /** The sort field is one the selector offers and the direction is one
        the buttons set. */
    predicate Valid()
      reads this
    {
      sortField in OfferedFields && sortDirection in Directions
    }

    /** What the effect on `[sortField, sortDirection]` reports:
        `${sortField}_${sortDirection}`. */
    function Emitted(): string
      reads this
    {
      Criteria(sortField, sortDirection)
    }

    constructor()
      ensures Valid()
      ensures searchTerm == "" && sortField == "" && sortDirection == "asc"
      ensures selectedTown == "" && selectedType == ""
      ensures Emitted() == "_asc"
    {
      searchTerm, sortField, sortDirection := "", "", "asc";
      selectedTown, selectedType := "", "";
    }

    /** `handleSearch`: the new term is kept and reported. */
    method HandleSearch(term: string) returns (reported: string)
      modifies this
      ensures searchTerm == term && reported == term
      ensures (sortField, sortDirection, selectedTown, selectedType)
        == old((sortField, sortDirection, selectedTown, selectedType))
    {
      searchTerm := term;
      reported := term;
    }

    /** `handleFieldChange`: the field changes, the direction is kept, and
        the new criteria is reported. */
    method HandleFieldChange(field: string) returns (reported: string)
      requires Valid() && field in OfferedFields
      modifies this
      ensures Valid()
      ensures sortField == field && sortDirection == old(sortDirection)
      ensures reported == Criteria(field, old(sortDirection)) && reported == Emitted()
      ensures (searchTerm, selectedTown, selectedType) == old((searchTerm, selectedTown, selectedType))
    {
      sortField := field;
      reported := Criteria(field, sortDirection);
    }

    /** `handleDirectionToggle`: the direction changes, the field is kept. */
    method HandleDirectionToggle(direction: string) returns (reported: string)
      requires Valid() && direction in Directions
      modifies this
      ensures Valid()
      ensures sortDirection == direction && sortField == old(sortField)
      ensures reported == Criteria(old(sortField), direction) && reported == Emitted()
      ensures (searchTerm, selectedTown, selectedType) == old((searchTerm, selectedTown, selectedType))
    {
      sortDirection := direction;
      reported := Criteria(sortField, direction);
    }

    /** A direction button: nothing happens when the direction is already
        `direction`; otherwise it is toggled to it. */
    method ClickDirection(direction: string) returns (reported: Option<string>)
      requires Valid() && direction in Directions
      modifies this
      ensures Valid()
      ensures old(sortDirection) == direction ==> reported.None? && sortDirection == direction
      ensures old(sortDirection) != direction ==> reported == Some(Criteria(old(sortField), direction))
      ensures sortDirection == direction && sortField == old(sortField)
      ensures (searchTerm, selectedTown, selectedType) == old((searchTerm, selectedTown, selectedType))
    {
      reported := None;
      if sortDirection != direction {
        var r := HandleDirectionToggle(direction);
        reported := Some(r);
      }
    }

    /** `handleTownChange`: reports the new town with the current type. */
    method HandleTownChange(town: string) returns (reported: (string, string))
      modifies this
      ensures selectedTown == town && selectedType == old(selectedType)
      ensures reported == (town, old(selectedType))
      ensures (searchTerm, sortField, sortDirection) == old((searchTerm, sortField, sortDirection))
    {
      selectedTown := town;
      reported := (town, selectedType);
    }

    /** `handleTypeChange`: reports the current town with the new type. */
    method HandleTypeChange(kind: string) returns (reported: (string, string))
      modifies this
      ensures selectedType == kind && selectedTown == old(selectedTown)
      ensures reported == (old(selectedTown), kind)
      ensures (searchTerm, sortField, sortDirection) == old((searchTerm, sortField, sortDirection))
    {
      selectedType := kind;
      reported := (selectedTown, kind);
    }
  }

  /** For every offered field and direction, the list page's
      `criteria.split('_')` gives back the field and the direction. */
  lemma EmittedRoundTrip(field: string, direction: string)
    requires field in OfferedFields && direction in Directions
    ensures Split(Criteria(field, direction), '_') == [field, direction]
    ensures ParseCriteria(Criteria(field, direction)) == (field, direction == "asc")
  {
    assert '_' !in field && '_' !in direction;
    CriteriaRoundTrip(field, direction);
  }
}
