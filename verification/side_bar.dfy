/**
 * The side bar: the menu each role sees, the map of expanded sub-menus
 * that the chevron toggles and that opens itself on the pages of a
 * sub-menu, and which entries are highlighted.
 */
module SideBar {
  import opened Common

  datatype SubItem = SubItem(id: string, text: string, path: string)

  /** A menu entry: a link to a page, or a group (`hasSubMenu`) of links. */
  datatype MenuItem =
    | Link(id: string, text: string, path: string)
    | Group(id: string, text: string, subItems: seq<SubItem>)

  const ClientMenu: seq<MenuItem> := [
    Link("dashboard", "Dashboard", "/User/Dashboard"),
    Link("poi", "Mes POI", "/User/PoIList"),
    Link("planning", "Planning", "/User/Planning"),
    Link("itineraire", "Itinéraire", "/User/Itineraire"),
    Link("map", "Carte", "/User/Map"),
    Link("profil", "Profil", "/User/Profil"),
    Link("notifications", "Notifications", "/User/NotificationCenter")
  ]

  const AdminMenu: seq<MenuItem> := [
    Link("dashboard", "Dashboard", "/Admin/Dashboard"),
    Group("poi", "POI", [SubItem("add-poi", "Ajouter un POI", "/Admin/ajouterPoI"),
                         SubItem("poi-list", "Liste des POI", "/Admin/PoIList")]),
    Link("user", "Liste des utilisateurs", "/Admin/UserList"),
    Link("map", "Carte", "/Admin/Map"),
    Link("profil", "Profil", "/Admin/Profil"),
    Link("notifications", "Notifications", "/Admin/NotificationCenter")
  ]

  /** `menuItems[role] || []` */
  function MenuFor(role: Option<string>): seq<MenuItem> {
    if role == Some("client") then ClientMenu
    else if role == Some("admin") then AdminMenu
    else []
  }

  /** The only group of either menu is the administrator's "poi". */
  lemma MenuGroups(role: Option<string>)
    ensures forall i :: 0 <= i < |MenuFor(role)| && MenuFor(role)[i].Group? ==>
      role == Some("admin") && i == 1 && MenuFor(role)[i].id == "poi"
    ensures role != Some("client") && role != Some("admin") ==> MenuFor(role) == []
  {
  }

  // ---------------------------------------------------------------------------
  // Highlighting
  // ---------------------------------------------------------------------------

  /** `pathname === item.path`: only a link has a path. */
  predicate IsActive(item: MenuItem, pathname: string) {
    item.Link? && pathname == item.path
  }

  /** A group is highlighted when the pathname equals one of its links. */
  predicate ChildActive(item: MenuItem, pathname: string) {
    item.Group? && exists s :: s in item.subItems && pathname == s.path
  }

  /** A group opens itself when one of its links prefixes the pathname. */
  predicate ChildPrefixes(item: MenuItem, pathname: string) {
    item.Group? && exists s :: s in item.subItems && StartsWith(pathname, s.path)
  }

  /** The highlight is stricter than the opening: a group highlighted is
      opened, but a page below one of its links opens it without
      highlighting it. */
  lemma HighlightStricterThanOpening(item: MenuItem, pathname: string)
    ensures ChildActive(item, pathname) ==> ChildPrefixes(item, pathname)
    ensures ChildPrefixes(AdminMenu[1], "/Admin/PoIList/42") && !ChildActive(AdminMenu[1], "/Admin/PoIList/42")
  {
    if ChildActive(item, pathname) {
      var s :| s in item.subItems && pathname == s.path;
      assert StartsWith(pathname, s.path);
    }
    var list := AdminMenu[1].subItems[1];
    assert StartsWith("/Admin/PoIList/42", list.path);
    assert "/Admin/PoIList/42" != "/Admin/ajouterPoI" by {
      assert "/Admin/PoIList/42"[7] != "/Admin/ajouterPoI"[7];
    }
  }

  // ---------------------------------------------------------------------------
  // The expanded map
  // ---------------------------------------------------------------------------

  /** `expanded[id]` is truthy: present and true. */
  predicate IsExpanded(m: map<string, bool>, id: string) {
    id in m && m[id]
  }

  /** `{ ...prev, [id]: !prev[id] }` */
  function Toggled(m: map<string, bool>, id: string): map<string, bool> {
    m[id := !IsExpanded(m, id)]
  }

  /** A toggle flips `id` and leaves every other entry as it was; a second
      toggle restores the map, except that an absent entry comes back as
      `false`, which shows the same. */
  lemma ToggleSpec(m: map<string, bool>, id: string)
    ensures forall k :: IsExpanded(Toggled(m, id), k) <==> (if k == id then !IsExpanded(m, id) else IsExpanded(m, k))
    ensures forall k :: k != id ==> (k in Toggled(m, id) <==> k in m)
    ensures forall k :: IsExpanded(Toggled(Toggled(m, id), id), k) <==> IsExpanded(m, k)
    ensures id in m ==> Toggled(Toggled(m, id), id) == m
    ensures id !in m ==> Toggled(Toggled(m, id), id) == m[id := false]
  {
  }

  /** The ids of the groups the pathname opens. */
  function Opened(items: seq<MenuItem>, pathname: string): set<string> {
    set i | 0 <= i < |items| && ChildPrefixes(items[i], pathname) :: items[i].id
  }

  /** The map after the effect's `items.forEach`, item by item. */
  function AutoExpanded(m: map<string, bool>, items: seq<MenuItem>, pathname: string): map<string, bool> {
    if items == [] then m
    else
      var before := AutoExpanded(m, items[..|items| - 1], pathname);
      var last := items[|items| - 1];
      if ChildPrefixes(last, pathname) then before[last.id := true] else before
  }

  /** The groups opened by a menu are those opened by all but its last
      item, plus the last item when the pathname opens it. */
  lemma OpenedSnoc(items: seq<MenuItem>, pathname: string)
    requires items != []
    ensures var init, last := items[..|items| - 1], items[|items| - 1];
      Opened(items, pathname) == Opened(init, pathname) + (if ChildPrefixes(last, pathname) then {last.id} else {})
  {
    var init, last := items[..|items| - 1], items[|items| - 1];
    forall k | k in Opened(items, pathname)
      ensures k in Opened(init, pathname) || (ChildPrefixes(last, pathname) && k == last.id)
    {
      var i :| 0 <= i < |items| && ChildPrefixes(items[i], pathname) && items[i].id == k;
      if i < |init| {
        assert init[i] == items[i];
      }
    }
    forall k | k in Opened(init, pathname)
      ensures k in Opened(items, pathname)
    {
      var i :| 0 <= i < |init| && ChildPrefixes(init[i], pathname) && init[i].id == k;
      assert items[i] == init[i];
    }
  }

  /** `r` is `m` with every id of `ids` set to true. */
  ghost predicate SetTrue(r: map<string, bool>, m: map<string, bool>, ids: set<string>) {
    forall k :: (k in r <==> k in m || k in ids) && (k in r ==> r[k] == (k in ids || (k in m && m[k])))
  }

  /** The effect sets to true exactly the groups the pathname opens: it
      never closes a sub-menu and leaves every other entry as it was. */
  lemma {:induction false} AutoExpandedSpec(m: map<string, bool>, items: seq<MenuItem>, pathname: string)
    ensures SetTrue(AutoExpanded(m, items, pathname), m, Opened(items, pathname))
  {
    if items != [] {
      AutoExpandedSpec(m, items[..|items| - 1], pathname);
      OpenedSnoc(items, pathname);
    }
  }

  /** Consequences: no sub-menu closes, the opened groups are expanded,
      nothing else changes, and a menu without groups changes nothing. */
  lemma AutoExpandedNeverCloses(m: map<string, bool>, items: seq<MenuItem>, pathname: string)
    ensures forall k :: IsExpanded(m, k) ==> IsExpanded(AutoExpanded(m, items, pathname), k)
    ensures forall i :: 0 <= i < |items| && ChildPrefixes(items[i], pathname) ==>
      IsExpanded(AutoExpanded(m, items, pathname), items[i].id)
    ensures forall k :: k !in Opened(items, pathname) ==>
      (k in AutoExpanded(m, items, pathname) <==> k in m) && (k in m ==> AutoExpanded(m, items, pathname)[k] == m[k])
    ensures (forall i :: 0 <= i < |items| ==> items[i].Link?) ==> AutoExpanded(m, items, pathname) == m
  {
    AutoExpandedSpec(m, items, pathname);
    if forall i :: 0 <= i < |items| ==> items[i].Link? {
      assert Opened(items, pathname) == {};
    }
  }

  /** On any page under either administrator POI link the "poi" sub-menu
      is open; the client menu and an unknown role's empty menu open
      nothing. */
  lemma RoleMenusExpansion(m: map<string, bool>, pathname: string, role: Option<string>)
    ensures StartsWith(pathname, "/Admin/ajouterPoI") || StartsWith(pathname, "/Admin/PoIList") ==>
      IsExpanded(AutoExpanded(m, AdminMenu, pathname), "poi")
    ensures role != Some("admin") ==> AutoExpanded(m, MenuFor(role), pathname) == m
  {
    AutoExpandedNeverCloses(m, AdminMenu, pathname);
    if StartsWith(pathname, "/Admin/ajouterPoI") {
      assert AdminMenu[1].subItems[0] in AdminMenu[1].subItems;
      assert ChildPrefixes(AdminMenu[1], pathname);
    } else if StartsWith(pathname, "/Admin/PoIList") {
      assert AdminMenu[1].subItems[1] in AdminMenu[1].subItems;
      assert ChildPrefixes(AdminMenu[1], pathname);
    }
    AutoExpandedNeverCloses(m, MenuFor(role), pathname);
  }

  /** The sub-items of a group show only while the bar is open and the
      group expanded. */
  predicate ShowsSubItems(isOpen: bool, m: map<string, bool>, item: MenuItem) {
    isOpen && item.Group? && IsExpanded(m, item.id)
  }

  /** A group whose sub-menu the pathname opened shows its links once the
      bar is open; a closed bar shows none. */
  lemma SubItemsShown(m: map<string, bool>, items: seq<MenuItem>, pathname: string, i: int, isOpen: bool)
    requires 0 <= i < |items| && ChildPrefixes(items[i], pathname)
    ensures ShowsSubItems(isOpen, AutoExpanded(m, items, pathname), items[i]) <==> isOpen
  {
    AutoExpandedNeverCloses(m, items, pathname);
  }

  class SideBarState {
    var expanded: map<string, bool>

    constructor()
      ensures expanded == map[]
    {
      expanded := map[];
    }

    /** `toggleSubMenu(id)` */
    method ToggleSubMenu(id: string)
      modifies this
      ensures expanded == Toggled(old(expanded), id)
      ensures IsExpanded(expanded, id) <==> !IsExpanded(old(expanded), id)
    {
      expanded := expanded[id := !(id in expanded && expanded[id])];
    }

    /** The effect run when the pathname changes. */
    method AutoExpand(items: seq<MenuItem>, pathname: string)
      modifies this
      ensures expanded == AutoExpanded(old(expanded), items, pathname)
      ensures forall k :: IsExpanded(old(expanded), k) ==> IsExpanded(expanded, k)
    {
      AutoExpandedNeverCloses(expanded, items, pathname);
      for i := 0 to |items|
        invariant expanded == AutoExpanded(old(expanded), items[..i], pathname)
      {
        assert items[..i + 1][..i] == items[..i];
        var item := items[i];
        if item.Group? {
          var isChildActive := exists s :: s in item.subItems && StartsWith(pathname, s.path);
          if isChildActive {
            expanded := expanded[item.id := true];
          }
        }
      }
      assert items[..|items|] == items;
    }
  }
}
