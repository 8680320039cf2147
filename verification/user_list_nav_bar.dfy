/**
 * The user list nav bar: the search box, the country and town selectors and
 * the sort selector with its direction buttons. Each handler updates its own
 * field and reports to the page.
 */
module UserListNavBar {
  import opened Common
  import opened JsStrings
  import opened Sorting

  const OfferedFields: set<string> := {"", "town", "date"}
  const Directions: set<string> := {"asc", "desc"}

  /** One `<option>` of a selector: its value and its label. */
  datatype MenuOption = MenuOption(value: JsString, caption: string)

  /** The town options: for each available town, the town itself as value
      and, as label, the town with its first character upper-cased
      (`town.charAt(0).toUpperCase() + town.slice(1)`); none when the list is
      not given (`availableTowns && ...`). A town that is `undefined` or
      `null` has no `charAt`: rendering throws, which is `None` here. */
  function TownOptions(availableTowns: Option<seq<JsString>>): (r: Option<seq<MenuOption>>)
    ensures availableTowns.None? ==> r == Some([])
    ensures availableTowns.Some? ==>
      (r.None? <==> exists i :: 0 <= i < |availableTowns.value| && !availableTowns.value[i].Str?)
    ensures availableTowns.Some? && r.Some? ==>
      |r.value| == |availableTowns.value|
      && forall i :: 0 <= i < |r.value| ==>
        var town := availableTowns.value[i].s;
        r.value[i].value == Str(town)
        && |r.value[i].caption| == |town|
        && (town != "" ==> r.value[i].caption[0] == UpperChar(town[0]) && r.value[i].caption[1..] == town[1..])
  {
    if availableTowns.None? then Some([])
    else
      var towns := availableTowns.value;
      if exists i :: 0 <= i < |towns| && !towns[i].Str? then None
      else Some(seq(|towns|, i requires 0 <= i < |towns| => MenuOption(towns[i], Capitalize(towns[i].s))))
  }

  /** The country options: value and label are the entry itself; React
      renders `null` and `undefined` as no text. */
  function CountryOptions(availableCountries: Option<seq<JsString>>): (r: seq<MenuOption>)
    ensures availableCountries.None? ==> r == []
    ensures availableCountries.Some? ==> |r| == |availableCountries.value|
    ensures availableCountries.Some? ==> forall i :: 0 <= i < |r| ==>
      r[i].value == availableCountries.value[i]
      && r[i].caption == OrElse(StrOpt(availableCountries.value[i]), "")
  {
    if availableCountries.None? then []
    else
      var cs := availableCountries.value;
      seq(|cs|, i requires 0 <= i < |cs| => MenuOption(cs[i], OrElse(StrOpt(cs[i]), "")))
  }

  class NavBar {
    var searchTerm: string
    var sortField: string
    var sortDirection: string
    var selectedCountry: string
    var selectedTown: string

    predicate Valid()
      reads this
    {
      sortField in OfferedFields && sortDirection in Directions
    }

    /** What the effect on `[sortField, sortDirection]` reports. */
    function Emitted(): string
      reads this
    {
      Criteria(sortField, sortDirection)
    }

    constructor()
      ensures Valid()
      ensures searchTerm == "" && sortField == "" && sortDirection == "asc"
      ensures selectedCountry == "" && selectedTown == ""
      ensures Emitted() == "_asc"
    {
      searchTerm, sortField, sortDirection := "", "", "asc";
      selectedCountry, selectedTown := "", "";
    }

    /** `handleSearch` */
    method HandleSearch(term: string) returns (reported: string)
      modifies this
      ensures searchTerm == term && reported == term
      ensures (sortField, sortDirection, selectedCountry, selectedTown)
        == old((sortField, sortDirection, selectedCountry, selectedTown))
    {
      searchTerm := term;
      reported := term;
    }

    /** `handleFieldChange`: the direction is kept. */
    method HandleFieldChange(field: string) returns (reported: string)
      requires Valid() && field in OfferedFields
      modifies this
      ensures Valid()
      ensures sortField == field && sortDirection == old(sortDirection)
      ensures reported == Criteria(field, old(sortDirection)) && reported == Emitted()
      ensures (searchTerm, selectedCountry, selectedTown) == old((searchTerm, selectedCountry, selectedTown))
    {
      sortField := field;
      reported := Criteria(field, sortDirection);
    }

    /** `handleDirectionToggle`: the field is kept. */
    method HandleDirectionToggle(direction: string) returns (reported: string)
      requires Valid() && direction in Directions
      modifies this
      ensures Valid()
      ensures sortDirection == direction && sortField == old(sortField)
      ensures reported == Criteria(old(sortField), direction) && reported == Emitted()
      ensures (searchTerm, selectedCountry, selectedTown) == old((searchTerm, selectedCountry, selectedTown))
    {
      sortDirection := direction;
      reported := Criteria(sortField, direction);
    }

    /** A direction button: nothing happens when already in `direction`. */
    method ClickDirection(direction: string) returns (reported: Option<string>)
      requires Valid() && direction in Directions
      modifies this
      ensures Valid()
      ensures old(sortDirection) == direction ==> reported.None?
      ensures old(sortDirection) != direction ==> reported == Some(Criteria(old(sortField), direction))
      ensures sortDirection == direction && sortField == old(sortField)
      ensures (searchTerm, selectedCountry, selectedTown) == old((searchTerm, selectedCountry, selectedTown))
    {
      reported := None;
      if sortDirection != direction {
        var r := HandleDirectionToggle(direction);
        reported := Some(r);
      }
    }

    /** `handleCountryChange`: reports the new country with the current town. */
    method HandleCountryChange(country: string) returns (reported: (string, string))
      modifies this
      ensures selectedCountry == country && selectedTown == old(selectedTown)
      ensures reported == (country, old(selectedTown))
      ensures (searchTerm, sortField, sortDirection) == old((searchTerm, sortField, sortDirection))
    {
      selectedCountry := country;
      reported := (country, selectedTown);
    }

    /** `handleTownChange`: reports the current country with the new town. */
    method HandleTownChange(town: string) returns (reported: (string, string))
      modifies this
      ensures selectedTown == town && selectedCountry == old(selectedCountry)
      ensures reported == (old(selectedCountry), town)
      ensures (searchTerm, sortField, sortDirection) == old((searchTerm, sortField, sortDirection))
    {
      selectedTown := town;
      reported := (selectedCountry, town);
    }
  }

  /** For every offered field and direction, splitting the emitted criteria
      on '_' gives back the field and the direction. */
  lemma EmittedRoundTrip(field: string, direction: string)
    requires field in OfferedFields && direction in Directions
    ensures ParseCriteria(Criteria(field, direction)) == (field, direction == "asc")
  {
    assert '_' !in field && '_' !in direction;
    CriteriaRoundTrip(field, direction);
  }
}
