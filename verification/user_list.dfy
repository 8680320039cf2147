/**
 * The administration user list page: loading, deletion, the search and the
 * two selector filters, and the facets offered to its nav bar.
 *
 * The selector the nav bar calls 'country' is filtered against the user's
 * role, and the facet it is fed is the list of roles.
 */
module AdminUserList {
  import opened Common
  import opened JsStrings
  import opened Lists
  import opened Sorting
  import UserListNavBar

  datatype User = User(
    id: Option<int>,
    username: Option<string>,
    email: Option<string>,
    role: JsString,
    city: JsString)

  const LoadErrorMessage: string := "Impossible de charger les utilisateurs"
  const DeleteErrorMessage: string := "Erreur lors de la suppression de l'utilisateur"

  /** `user.username?.toLowerCase().includes(term) ||
      user.email?.toLowerCase().includes(term)` */
  predicate MatchesSearch(u: User, search: string) {
    IncludesOpt(LowerOpt(u.username), Lower(search)) || IncludesOpt(LowerOpt(u.email), Lower(search))
  }

  /** `user.role?.toLowerCase() === selectedCountry.toLowerCase()` */
  predicate MatchesCountry(u: User, country: string) {
    LowerOpt(StrOpt(u.role)) == Some(Lower(country))
  }

  /** `user.city?.toLowerCase() === selectedTown.toLowerCase()` */
  predicate MatchesTown(u: User, town: string) {
    LowerOpt(StrOpt(u.city)) == Some(Lower(town))
  }

  predicate MatchesAll(u: User, search: string, country: string, town: string) {
    (search != "" ==> MatchesSearch(u, search))
    && (country != "" ==> MatchesCountry(u, country))
    && (town != "" ==> MatchesTown(u, town))
  }

  /** `filteredAndSortedUsers`: search, then the 'country' (role) filter,
      then the town filter, each only when selected. The sort criteria is a
      dependency of the memo but the list is never sorted, so it is not an
      argument here. */
  function FilterUsers(users: seq<User>, search: string, country: string, town: string): seq<User> {
    var a := if search != "" then Filter(users, (u: User) => MatchesSearch(u, search)) else users;
    var b := if country != "" then Filter(a, (u: User) => MatchesCountry(u, country)) else a;
    if town != "" then Filter(b, (u: User) => MatchesTown(u, town)) else b
  }

  /** The chain is one filter by the conjunction of the active filters. */
  lemma FilterUsersIsOneFilter(users: seq<User>, search: string, country: string, town: string)
    ensures FilterUsers(users, search, country, town) == Filter(users, (u: User) => MatchesAll(u, search, country, town))
  {
    var ps := (u: User) => MatchesSearch(u, search);
    var pc := (u: User) => MatchesCountry(u, country);
    var pt := (u: User) => MatchesTown(u, town);
    var s := (u: User) => search != "" ==> MatchesSearch(u, search);
    var sc := (u: User) => (search != "" ==> MatchesSearch(u, search)) && (country != "" ==> MatchesCountry(u, country));
    var all := (u: User) => MatchesAll(u, search, country, town);
    var yes := (u: User) => true;
    FilterAll(users, yes);
    var a := if search != "" then Filter(users, ps) else users;
    assert a == Filter(users, s) by {
      if search == "" {
        FilterAll(users, s);
      } else {
        FilterFilter(users, yes, ps, s);
      }
    }
    var b := if country != "" then Filter(a, pc) else a;
    assert b == Filter(users, sc) by {
      if country == "" {
        FilterFilter(users, s, yes, sc);
        FilterAll(Filter(users, s), yes);
      } else {
        FilterFilter(users, s, pc, sc);
      }
    }
    if town == "" {
      FilterFilter(users, sc, yes, all);
      FilterAll(Filter(users, sc), yes);
    } else {
      FilterFilter(users, sc, pt, all);
    }
  }

  /** The result keeps the original order (a subsequence), holds only users
      every active filter accepts, and every such user. */
  lemma FilterUsersSpec(users: seq<User>, search: string, country: string, town: string)
    ensures var r := FilterUsers(users, search, country, town);
      IsSubsequence(r, users)
      && (forall i :: 0 <= i < |r| ==> MatchesAll(r[i], search, country, town))
      && (forall u :: u in users && MatchesAll(u, search, country, town) ==> u in r)
  {
    FilterUsersIsOneFilter(users, search, country, town);
    FilterSpec(users, (u: User) => MatchesAll(u, search, country, town));
  }

  /** With nothing selected every user is listed. */
  lemma NoFilterKeepsAll(users: seq<User>)
    ensures FilterUsers(users, "", "", "") == users
  {
  }

  // ---------------------------------------------------------------------------
  // Facets
  // ---------------------------------------------------------------------------

  /** How the default `sort()` compares a value: `undefined` is kept apart
      (it goes to the end), anything else is compared as `String(v)`, which
      is "null" for `null`. */
  function DefaultSortKey(v: JsString): Key {
    match v
    case Undefined => Num(0.0)
    case Null => Text("null")
    case Str(s) => Text(s)
  }

  predicate IsDefined(v: JsString) {
    !v.Undefined?
  }

  /** The values the sort orders: the distinct values other than
      `undefined`, each once, in first-seen order. */
  function DefinedValues(values: seq<JsString>): seq<JsString> {
    Filter(Dedup(values), IsDefined)
  }

  /** `[...new Set(values)].sort()`: the distinct values other than
      `undefined`, sorted as strings with the sort's stability, then a single
      `undefined` when any value is missing. */
  function SortedDistinct(values: seq<JsString>): (r: seq<JsString>)
    ensures forall x :: x in r <==> x in values
    ensures Distinct(r)
    ensures forall i, j :: 0 <= i < j < |r| && !r[j].Undefined? ==>
      !r[i].Undefined? && StrLe(DefaultSortKey(r[i]).s, DefaultSortKey(r[j]).s)
    ensures Undefined in values ==> r[|r| - 1] == Undefined
    ensures forall k: Key :: k.Text? ==>
      Filter(r, WithKey(DefaultSortKey, k)) == Filter(Dedup(values), WithKey(DefaultSortKey, k))
  {
    var sorted := SortBy(DefinedValues(values), DefaultSortKey, true);
    SortedDefinedSpec(values);
    AppendUndefined(values, sorted);
    sorted + (if Undefined in values then [Undefined] else [])
  }

  /** The sorted defined values: each defined value once, in string order,
      values of equal text in first-seen order. */
  lemma SortedDefinedSpec(values: seq<JsString>)
    ensures var sorted := SortBy(DefinedValues(values), DefaultSortKey, true);
      (forall x :: x in sorted <==> x in values && !x.Undefined?)
      && Distinct(sorted)
      && (forall i, j :: 0 <= i < j < |sorted| ==> StrLe(DefaultSortKey(sorted[i]).s, DefaultSortKey(sorted[j]).s))
      && (forall k: Key :: k.Text? ==>
            Filter(sorted, WithKey(DefaultSortKey, k)) == Filter(Dedup(values), WithKey(DefaultSortKey, k)))
  {
    var defined := DefinedValues(values);
    var sorted := SortBy(defined, DefaultSortKey, true);
    DefinedValuesSpec(values);
    SortedMembers(defined, sorted);
    SortedOrder(sorted);
    forall k: Key | k.Text?
      ensures Filter(sorted, WithKey(DefaultSortKey, k)) == Filter(Dedup(values), WithKey(DefaultSortKey, k))
    {
      SortByStable(defined, DefaultSortKey, true, k);
      DefinedSameKey(Dedup(values), k);
    }
  }

  /** The defined values are those of the input other than `undefined`,
      each once. */
  lemma DefinedValuesSpec(values: seq<JsString>)
    ensures forall x :: x in DefinedValues(values) <==> x in values && !x.Undefined?
    ensures Distinct(DefinedValues(values))
  {
    FilterSpec(Dedup(values), IsDefined);
    SubsequenceDistinct(DefinedValues(values), Dedup(values));
  }

  /** Sorting keeps the members and their distinctness. */
  lemma SortedMembers(defined: seq<JsString>, sorted: seq<JsString>)
    requires multiset(sorted) == multiset(defined) && Distinct(defined)
    ensures forall x :: x in sorted <==> x in defined
    ensures Distinct(sorted)
  {
    DistinctPermutation(sorted, defined);
    forall x
      ensures x in sorted <==> x in defined
    {
      assert x in sorted <==> x in multiset(sorted);
      assert x in defined <==> x in multiset(defined);
    }
  }

  /** Sorted by the default key, defined values are in string order. */
  lemma SortedOrder(sorted: seq<JsString>)
    requires SortedBy(sorted, DefaultSortKey, true)
    requires forall x :: x in sorted ==> !x.Undefined?
    ensures forall i, j :: 0 <= i < j < |sorted| ==> StrLe(DefaultSortKey(sorted[i]).s, DefaultSortKey(sorted[j]).s)
  {
    forall i, j | 0 <= i < j < |sorted|
      ensures StrLe(DefaultSortKey(sorted[i]).s, DefaultSortKey(sorted[j]).s)
    {
      assert sorted[i] in sorted && sorted[j] in sorted;
      assert Precedes(DefaultSortKey(sorted[i]), DefaultSortKey(sorted[j]), true);
    }
  }

  /** Appending the single `undefined` after the sorted defined values. */
  lemma AppendUndefined(values: seq<JsString>, sorted: seq<JsString>)
    requires forall x :: x in sorted <==> x in values && !x.Undefined?
    requires Distinct(sorted)
    requires forall i, j :: 0 <= i < j < |sorted| ==> StrLe(DefaultSortKey(sorted[i]).s, DefaultSortKey(sorted[j]).s)
    requires forall k: Key :: k.Text? ==>
      Filter(sorted, WithKey(DefaultSortKey, k)) == Filter(Dedup(values), WithKey(DefaultSortKey, k))
    ensures var r := sorted + (if Undefined in values then [Undefined] else []);
      (forall x :: x in r <==> x in values)
      && Distinct(r)
      && (forall i, j :: 0 <= i < j < |r| && !r[j].Undefined? ==>
            !r[i].Undefined? && StrLe(DefaultSortKey(r[i]).s, DefaultSortKey(r[j]).s))
      && (Undefined in values ==> r[|r| - 1] == Undefined)
      && (forall k: Key :: k.Text? ==>
            Filter(r, WithKey(DefaultSortKey, k)) == Filter(Dedup(values), WithKey(DefaultSortKey, k)))
  {
    var tail := if Undefined in values then [Undefined] else [];
    var r := sorted + tail;
    forall i, j | 0 <= i < j < |r|
      ensures r[i] != r[j]
    {
      if j >= |sorted| {
        assert r[j] == Undefined && r[i] == sorted[i] && sorted[i] in sorted;
      } else {
        assert r[i] == sorted[i] && r[j] == sorted[j];
      }
    }
    forall i, j | 0 <= i < j < |r| && !r[j].Undefined?
      ensures !r[i].Undefined? && StrLe(DefaultSortKey(r[i]).s, DefaultSortKey(r[j]).s)
    {
      assert j < |sorted|;
      assert r[i] == sorted[i] && r[j] == sorted[j] && sorted[i] in sorted;
    }
    forall k: Key | k.Text?
      ensures Filter(r, WithKey(DefaultSortKey, k)) == Filter(Dedup(values), WithKey(DefaultSortKey, k))
    {
      FilterAppend(sorted, tail, WithKey(DefaultSortKey, k));
      if tail != [] {
        assert tail == [Undefined] && DefaultSortKey(Undefined) != k;
        assert Filter(tail[1..], WithKey(DefaultSortKey, k)) == [];
      }
      assert Filter(sorted, WithKey(DefaultSortKey, k)) + [] == Filter(sorted, WithKey(DefaultSortKey, k));
    }
  }

  /** Filtering on a string key sees only defined values. */
  lemma {:induction false} DefinedSameKey(xs: seq<JsString>, k: Key)
    requires k.Text?
    ensures Filter(Filter(xs, IsDefined), WithKey(DefaultSortKey, k)) == Filter(xs, WithKey(DefaultSortKey, k))
  {
    if xs != [] {
      DefinedSameKey(xs[1..], k);
      var rest := Filter(xs[1..], IsDefined);
      if IsDefined(xs[0]) {
        assert Filter(xs, IsDefined) == [xs[0]] + rest;
        assert ([xs[0]] + rest)[1..] == rest;
      } else {
        assert DefaultSortKey(xs[0]) != k;
      }
    }
  }

  /** A subsequence of a list without repetitions has none either. */
  lemma SubsequenceDistinct(a: seq<JsString>, b: seq<JsString>)
    requires IsSubsequence(a, b) && Distinct(b)
    ensures Distinct(a)
  {
    forall i, j | 0 <= i < j < |a|
      ensures a[i] != a[j]
    {
      SubsequenceIndices(a, b, i, j);
    }
  }

  /** The roles of the users. */
  function Roles(users: seq<User>): seq<JsString> {
    Map(users, (u: User) => u.role)
  }

  /** The cities of the users. */
  function Cities(users: seq<User>): seq<JsString> {
    Map(users, (u: User) => u.city)
  }

  /** `availableCountries`: the distinct roles, sorted. */
  function AvailableCountries(users: seq<User>): seq<JsString> {
    SortedDistinct(Roles(users))
  }

  /** `availableTowns`: the distinct cities, sorted. */
  function AvailableTowns(users: seq<User>): seq<JsString> {
    SortedDistinct(Cities(users))
  }

  /** Every role of some user is offered once, and nothing else is. */
  lemma AvailableCountriesSpec(users: seq<User>)
    ensures var r := AvailableCountries(users);
      Distinct(r)
      && (forall x :: x in r <==> exists k :: 0 <= k < |users| && users[k].role == x)
  {
    var roles := Roles(users);
    forall x | x in roles
      ensures exists k :: 0 <= k < |users| && users[k].role == x
    {
      var k :| 0 <= k < |roles| && roles[k] == x;
    }
    forall x | exists k :: 0 <= k < |users| && users[k].role == x
      ensures x in roles
    {
      var k :| 0 <= k < |users| && users[k].role == x;
      assert roles[k] == x;
    }
  }

  /** Every city of some user is offered once, and nothing else is. */
  lemma AvailableTownsSpec(users: seq<User>)
    ensures var r := AvailableTowns(users);
      Distinct(r)
      && (forall x :: x in r <==> exists k :: 0 <= k < |users| && users[k].city == x)
  {
    var cities := Cities(users);
    forall x | x in cities
      ensures exists k :: 0 <= k < |users| && users[k].city == x
    {
      var k :| 0 <= k < |cities| && cities[k] == x;
    }
    forall x | exists k :: 0 <= k < |users| && users[k].city == x
      ensures x in cities
    {
      var k :| 0 <= k < |users| && users[k].city == x;
      assert cities[k] == x;
    }
  }

  /** `null` is sorted as the text "null" among the cities, and `undefined`
      goes last. */
  lemma NullSortsAsText(values: seq<JsString>)
    requires values == [Str("paris"), Null, Undefined, Null]
    ensures SortedDistinct(values) == [Null, Str("paris"), Undefined]
  {
    var r := SortedDistinct(values);
    assert values[0] == Str("paris") && values[1] == Null && values[2] == Undefined;
    assert forall x :: x in r <==> x == Null || x == Str("paris") || x == Undefined;
    assert !StrLe("paris", "null");
    TwoThenUndefined(r, Null, Str("paris"));
  }

  /** A sorted list of two defined values and `undefined`, each once. */
  lemma TwoThenUndefined(r: seq<JsString>, a: JsString, b: JsString)
    requires !a.Undefined? && !b.Undefined?
    requires !StrLe(DefaultSortKey(b).s, DefaultSortKey(a).s)
    requires Distinct(r)
    requires forall x :: x in r <==> x == a || x == b || x == Undefined
    requires forall i, j :: 0 <= i < j < |r| && !r[j].Undefined? ==>
      !r[i].Undefined? && StrLe(DefaultSortKey(r[i]).s, DefaultSortKey(r[j]).s)
    ensures r == [a, b, Undefined]
  {
    StrLeRefl(DefaultSortKey(a).s);
    assert a != b && a != Undefined && b != Undefined;
    assert |r| == 3 by {
      DistinctCount(r, {a, b, Undefined});
    }
    assert r[0] in r && r[1] in r && r[2] in r;
    assert r[2] == Undefined;
    assert r[0] != b;
    assert r == [r[0], r[1], r[2]];
  }

  /** A list without repetitions whose elements are those of a set has
      as many elements as the set. */
  lemma DistinctCount(r: seq<JsString>, s: set<JsString>)
    requires Distinct(r) && forall x :: x in r <==> x in s
    ensures |r| == |s|
  {
    var t := set i | 0 <= i < |r| :: r[i];
    assert t == s;
    if r != [] {
      var rest := r[1..];
      assert Distinct(rest) by {
        forall i, j | 0 <= i < j < |rest| ensures rest[i] != rest[j] {
          assert rest[i] == r[i + 1] && rest[j] == r[j + 1];
        }
      }
      assert r[0] !in rest by {
        forall k | 0 <= k < |rest| ensures rest[k] != r[0] {
          assert rest[k] == r[k + 1];
        }
      }
      assert forall x :: x in rest <==> x in s - {r[0]} by {
        assert r == [r[0]] + rest;
      }
      DistinctCount(rest, s - {r[0]});
    }
  }

  // ---------------------------------------------------------------------------
  // The towns handed to the nav bar
  // ---------------------------------------------------------------------------

  /** The nav bar's `availableTowns` prop as the page renders it: the page
      passes its towns under the name `availableTypes`, which the nav bar
      does not read, so the prop is undefined. */
  function NavBarTownsAsWritten(users: seq<User>): Option<seq<JsString>> {
    None
  }

  /** The prop as intended: the page's `availableTowns`. */
  function NavBarTowns(users: seq<User>): Option<seq<JsString>> {
    Some(AvailableTowns(users))
  }

  /** As written, the town selector offers no town whatever the users. */
  lemma TownMenuAsWrittenIsEmpty(users: seq<User>)
    ensures UserListNavBar.TownOptions(NavBarTownsAsWritten(users)) == Some([])
  {
  }

  /** As intended, when every user has a city the selector offers exactly
      the users' distinct cities, and at least one as soon as there is a
      user; a user whose city is `null` or missing makes the intended page
      throw while rendering the selector. */
  lemma TownMenuOffersEveryCity(users: seq<User>)
    ensures var options := UserListNavBar.TownOptions(NavBarTowns(users));
      ((forall k :: 0 <= k < |users| ==> users[k].city.Str?) ==>
        options.Some?
        && |options.value| == |AvailableTowns(users)|
        && (forall i :: 0 <= i < |options.value| ==> options.value[i].value == AvailableTowns(users)[i])
        && (|users| > 0 ==> |options.value| > 0))
      && ((exists k :: 0 <= k < |users| && !users[k].city.Str?) ==> options.None?)
  {
    AvailableTownsSpec(users);
    var towns := AvailableTowns(users);
    if forall k :: 0 <= k < |users| ==> users[k].city.Str? {
      forall i | 0 <= i < |towns| ensures towns[i].Str? {
        assert towns[i] in towns;
      }
      OptionsOfTowns(towns);
      if |users| > 0 {
        assert users[0].city in towns;
      }
    } else {
      var k :| 0 <= k < |users| && !users[k].city.Str?;
      assert users[k].city in towns;
      var i :| 0 <= i < |towns| && towns[i] == users[k].city;
      OptionsOfMissingTown(towns, i);
    }
  }

  /** Towns that are all strings give one option each, valued by the town. */
  lemma OptionsOfTowns(towns: seq<JsString>)
    requires forall i :: 0 <= i < |towns| ==> towns[i].Str?
    ensures var options := UserListNavBar.TownOptions(Some(towns));
      options.Some? && |options.value| == |towns|
      && forall i :: 0 <= i < |towns| ==> options.value[i].value == towns[i]
  {
  }

  /** A town that is not a string makes the selector throw. */
  lemma OptionsOfMissingTown(towns: seq<JsString>, i: nat)
    requires i < |towns| && !towns[i].Str?
    ensures UserListNavBar.TownOptions(Some(towns)).None?
  {
  }

  class UserListPage {
    var users: seq<User>
    var error: Option<string>
    var searchTerm: string
    var sortCriteria: string
    var selectedCountry: string
    var selectedTown: string

    /** The rows shown. */
    function Visible(): seq<User>
      reads this
    {
      FilterUsers(users, searchTerm, selectedCountry, selectedTown)
    }

    constructor()
      ensures users == [] && error.None?
      ensures searchTerm == "" && sortCriteria == "" && selectedCountry == "" && selectedTown == ""
    {
      users, error := [], None;
      searchTerm, sortCriteria, selectedCountry, selectedTown := "", "", "", "";
    }

    /** `fetchUsers()`: the received list replaces the users and clears the
        error; a failure keeps them and sets the error. */
    method FetchUsers(result: Fetched<seq<User>>)
      modifies this
      ensures result.Received? ==> users == result.data && error.None?
      ensures result.Failed? ==> users == old(users) && error == Some(LoadErrorMessage)
      ensures (searchTerm, sortCriteria, selectedCountry, selectedTown)
        == old((searchTerm, sortCriteria, selectedCountry, selectedTown))
    {
      if result.Received? {
        users := result.data;
        error := None;
      } else {
        error := Some(LoadErrorMessage);
      }
    }

    /** `handleDelete(id)`: on success exactly the users with that id are
        removed, the others kept in order; on failure an alert is shown. */
    method HandleDelete(id: Option<int>, succeeded: bool) returns (alert: Option<string>)
      modifies this
      ensures succeeded ==> users == Filter(old(users), (u: User) => u.id != id)
      ensures !succeeded ==> users == old(users)
      ensures alert == (if succeeded then None else Some(DeleteErrorMessage))
      ensures error == old(error)
      ensures (searchTerm, sortCriteria, selectedCountry, selectedTown)
        == old((searchTerm, sortCriteria, selectedCountry, selectedTown))
    {
      alert := None;
      if succeeded {
        users := Filter(users, (u: User) => u.id != id);
      } else {
        alert := Some(DeleteErrorMessage);
      }
    }

    /** `handleFilterChange({ country, town })` */
    method HandleFilterChange(country: string, town: string)
      modifies this
      ensures selectedCountry == country && selectedTown == town
      ensures users == old(users) && error == old(error)
      ensures (searchTerm, sortCriteria) == old((searchTerm, sortCriteria))
    {
      selectedCountry, selectedTown := country, town;
    }

    /** `handleSortChange(criteria)`: recorded, and the rows do not move. */
    method HandleSortChange(criteria: string)
      modifies this
      ensures sortCriteria == criteria
      ensures Visible() == old(Visible())
      ensures users == old(users) && error == old(error)
      ensures (searchTerm, selectedCountry, selectedTown) == old((searchTerm, selectedCountry, selectedTown))
    {
      sortCriteria := criteria;
    }

    /** `handleSearchChange(term)` */
    method HandleSearchChange(term: string)
      modifies this
      ensures searchTerm == term
      ensures users == old(users) && error == old(error)
      ensures (sortCriteria, selectedCountry, selectedTown) == old((sortCriteria, selectedCountry, selectedTown))
    {
      searchTerm := term;
    }
  }

  /** A successful delete removes only the users with that id. */
  lemma DeleteRemovesOnlyThatId(users: seq<User>, id: Option<int>)
    ensures var r := Filter(users, (u: User) => u.id != id);
      IsSubsequence(r, users)
      && (forall u :: u in r ==> u.id != id)
      && (forall u :: u in users && u.id != id ==> u in r)
  {
    FilterSpec(users, (u: User) => u.id != id);
  }
}
