/**
 The permission decision, the guard of a page path, and the sidebar menu built from them
 (packages/contracts/src/authorization.ts, apps/portal/src/lib/route-access.ts,
 apps/portal/src/lib/menu-tree.ts).
 */
module MenuTree {
  import opened Wrappers
  import opened Strings
  import Collections

  // ---- Decisions ----

  const ADMIN_ROLE_CODES := ["SUPER_ADMIN"]

  datatype Subject = Subject(roleCodes: seq<string>, permissionCodes: seq<string>)

  predicate IsAdminRole(roleCodes: seq<string>)
  {
    exists i | 0 <= i < |roleCodes| :: roleCodes[i] in ADMIN_ROLE_CODES
  }

  predicate Can(subject: Subject, required: string)
  {
    IsAdminRole(subject.roleCodes) || required in subject.permissionCodes
  }

  predicate CanAny(subject: Subject, required: seq<string>)
  {
    || required == []
    || IsAdminRole(subject.roleCodes)
    || exists i | 0 <= i < |required| :: required[i] in subject.permissionCodes
  }

  /** At least the same roles and codes. */
  ghost predicate AtLeast(more: Subject, less: Subject)
  {
    && (forall i | 0 <= i < |less.roleCodes| :: less.roleCodes[i] in more.roleCodes)
    && forall i | 0 <= i < |less.permissionCodes| :: less.permissionCodes[i] in more.permissionCodes
  }

  lemma MoreCanDoMore(more: Subject, less: Subject, required: seq<string>, code: string)
    requires AtLeast(more, less)
    ensures Can(less, code) ==> Can(more, code)
    ensures CanAny(less, required) ==> CanAny(more, required)
  {
    if i :| 0 <= i < |less.roleCodes| && less.roleCodes[i] in ADMIN_ROLE_CODES {
      var j :| 0 <= j < |more.roleCodes| && more.roleCodes[j] == less.roleCodes[i];
    }
  }

  // ---- The guard of a path ----

  datatype Route = Route(path: string, permissions: seq<string>)

  const DASHBOARD := "/dashboard"

  const ROUTE_ACCESS := [
    Route(DASHBOARD, []),
    Route("/users", ["portal:user:list"]),
    Route("/roles", ["portal:role:list"]),
    Route("/permissions", ["portal:permission:list"]),
    Route("/departments", ["portal:department:list"]),
    Route("/clients", ["portal:client:list"]),
    Route("/audit-logs", ["portal:audit:read"])
  ]

  function TrimSlashes(s: string): string
  {
    if s != "" && s[|s| - 1] == '/' then TrimSlashes(s[..|s| - 1]) else s
  }

  /** The path without query and trailing slashes; `/` when nothing is left. */
  function Normalized(path: string): string
  {
    var trimmed := TrimSlashes(Split(path, '?')[0]);
    if trimmed == "" then "/" else trimmed
  }

  /** The page lies below the route. */
  predicate Below(route: Route, path: string)
  {
    route.path != DASHBOARD && route.path + "/" <= path
  }

  function Exact(routes: seq<Route>, path: string): Option<Route>
  {
    if routes == [] then None else if routes[0].path == path then Some(routes[0]) else Exact(routes[1..], path)
  }

  /** The longest route the page lies below. */
  function LongestBelow(routes: seq<Route>, path: string): Option<Route>
  {
    if routes == [] then None
    else
      var rest := LongestBelow(routes[1..], path);
      if Below(routes[0], path) && (rest.None? || |routes[0].path| >= |rest.value.path|) then Some(routes[0]) else rest
  }

  function AccessForPath(routes: seq<Route>, path: string): Option<Route>
  {
    var normalized := Normalized(path);
    if Exact(routes, normalized).Some? then Exact(routes, normalized) else LongestBelow(routes, normalized)
  }

  predicate CanAccessPath(routes: seq<Route>, subject: Subject, path: string)
  {
    match AccessForPath(routes, path)
    case None => true
    case Some(route) => CanAny(subject, route.permissions)
  }

  /** The route governs the page: it is the page or the page lies below it. */
  predicate Governs(route: Route, path: string)
  {
    route.path == Normalized(path) || Below(route, Normalized(path))
  }

  lemma {:induction false} ExactIsFound(routes: seq<Route>, path: string)
    ensures match Exact(routes, path)
            case Some(route) => route in routes && route.path == path
            case None => forall i | 0 <= i < |routes| :: routes[i].path != path
  {
    if routes == [] || routes[0].path == path {
    } else {
      ExactIsFound(routes[1..], path);
      forall i | 0 <= i < |routes| && Exact(routes[1..], path).None? ensures routes[i].path != path {
        assert i > 0 ==> routes[i] == routes[1..][i - 1];
      }
    }
  }

  lemma {:induction false} LongestIsFound(routes: seq<Route>, path: string)
    ensures match LongestBelow(routes, path)
            case Some(route) =>
              && route in routes && Below(route, path)
              && forall i | 0 <= i < |routes| && Below(routes[i], path) :: |routes[i].path| <= |route.path|
            case None => forall i | 0 <= i < |routes| :: !Below(routes[i], path)
  {
    if routes == [] {
    } else {
      LongestIsFound(routes[1..], path);
      forall i | 0 < i < |routes| ensures routes[i] == routes[1..][i - 1] {
      }
    }
  }

  /** The guard of a path is the most specific route that governs it, and there is none only if no route does. */
  lemma AccessIsMostSpecific(routes: seq<Route>, path: string)
    ensures match AccessForPath(routes, path)
            case Some(route) =>
              && route in routes && Governs(route, path)
              && forall i | 0 <= i < |routes| && Governs(routes[i], path) :: |routes[i].path| <= |route.path|
            case None => forall i | 0 <= i < |routes| :: !Governs(routes[i], path)
  {
    ExactIsFound(routes, Normalized(path));
    LongestIsFound(routes, Normalized(path));
  }

  /**
   Who may open a page: everybody when no route governs it or its route asks for nothing; else the administrators
   and whoever holds one of the route's codes.
   */
  lemma PageGuard(routes: seq<Route>, subject: Subject, path: string)
    ensures match AccessForPath(routes, path)
            case None => CanAccessPath(routes, subject, path)
            case Some(route) =>
              CanAccessPath(routes, subject, path) <==>
              route.permissions == [] || "SUPER_ADMIN" in subject.roleCodes
              || exists code :: code in route.permissions && code in subject.permissionCodes
  {
    AdminByRole(subject);
    if AccessForPath(routes, path).Some? {
      var required := AccessForPath(routes, path).value.permissions;
      if i :| 0 <= i < |required| && required[i] in subject.permissionCodes {
        assert required[i] in required;
      }
    }
  }

  lemma AdminByRole(subject: Subject)
    ensures IsAdminRole(subject.roleCodes) <==> "SUPER_ADMIN" in subject.roleCodes
  {
    assert ADMIN_ROLE_CODES[0] == "SUPER_ADMIN";
    if i :| 0 <= i < |subject.roleCodes| && subject.roleCodes[i] == "SUPER_ADMIN" {
      assert subject.roleCodes[i] in ADMIN_ROLE_CODES;
    }
  }

  lemma {:induction false} TrimAfterSlash(s: string)
    ensures TrimSlashes(s + "/") == TrimSlashes(s)
  {
    assert (s + "/")[..|s|] == s;
  }

  /** Query strings and trailing slashes never change the guard. */
  lemma GuardIgnoresDecoration(routes: seq<Route>, path: string, query: string)
    requires '?' !in path
    ensures AccessForPath(routes, path + "/") == AccessForPath(routes, path)
    ensures AccessForPath(routes, path + "?" + query) == AccessForPath(routes, path)
  {
    SplitOfFree(path, '?');
    SplitOfFree(path + "/", '?');
    SplitOfConcat(path, query, '?');
    assert "?" == ['?'];
    TrimAfterSlash(path);
  }

  predicate AllSlashes(slashes: string)
  {
    forall i | 0 <= i < |slashes| :: slashes[i] == '/'
  }

  lemma {:induction false} TrimManySlashes(s: string, slashes: string)
    requires AllSlashes(slashes)
    ensures TrimSlashes(s + slashes) == TrimSlashes(s)
    decreases |slashes|
  {
    if slashes == "" {
      assert s + slashes == s;
    } else {
      var fewer := slashes[..|slashes| - 1];
      assert s + slashes == s + fewer + "/";
      TrimAfterSlash(s + fewer);
      TrimManySlashes(s, fewer);
    }
  }

  lemma {:induction false} TrimSplits(s: string)
    ensures TrimSlashes(s) <= s && AllSlashes(s[|TrimSlashes(s)|..])
    ensures TrimSlashes(s) != "" ==> TrimSlashes(s)[|TrimSlashes(s)| - 1] != '/'
  {
    if s != "" && s[|s| - 1] == '/' {
      TrimSplits(s[..|s| - 1]);
    }
  }

  /** An address in its parts. */
  ghost predicate IsAddress(path: string, page: string, slashes: string, query: string)
  {
    && path == page + slashes + query && '?' !in page && (page != "" ==> page[|page| - 1] != '/')
    && AllSlashes(slashes) && (query != "" ==> query[0] == '?')
  }

  /**
   The guard of every address, on the address itself: its page is what stands before query and trailing slashes,
   and the route is the page's own or, off the dashboard, the longest one the page lies below.
   */
  lemma RouteOfAddress(routes: seq<Route>, page: string, slashes: string, query: string)
    requires IsAddress(page + slashes + query, page, slashes, query)
    ensures var found := AccessForPath(routes, page + slashes + query);
            var at := if page == "" then "/" else page;
            && (found.Some? ==> found.value in routes)
            && ((exists r :: r in routes && r.path == at) ==> found.Some? && found.value.path == at)
            && (forall r | r in routes && r.path != "/dashboard" && r.path + "/" <= at ::
                  found.Some? && |r.path| <= |found.value.path|)
            && (found.Some? ==>
                  || found.value.path == at
                  || (found.value.path != "/dashboard" && found.value.path + "/" <= at))
  {
    var whole := page + slashes;
    SplitOfFree(whole, '?');
    if query != "" {
      SplitOfConcat(whole, query[1..], '?');
      assert query == "?" + query[1..] && "?" == ['?'];
      assert whole + query == whole + ['?'] + query[1..];
    } else {
      assert whole + query == whole;
    }
    TrimManySlashes(page, slashes);
    var at := Normalized(whole + query);
    ExactIsFound(routes, at);
    LongestIsFound(routes, at);
    forall r | r in routes ensures exists i :: 0 <= i < |routes| && routes[i] == r {
    }
  }

  lemma {:induction false} FirstPieceStops(path: string)
    ensures var whole := Split(path, '?')[0];
            whole <= path && '?' !in whole && (|whole| < |path| ==> path[|whole|] == '?')
  {
    if path == "" || path[0] == '?' {
    } else {
      FirstPieceStops(path[1..]);
    }
  }

  /** Every address has that form. */
  lemma {:induction false} EveryAddressHasPage(path: string)
    ensures exists page, slashes, query :: IsAddress(path, page, slashes, query)
  {
    var whole := Split(path, '?')[0];
    FirstPieceStops(path);
    TrimSplits(whole);
    var page := TrimSlashes(whole);
    var slashes := whole[|page|..];
    assert whole == page + slashes;
    PiecesOfAddress(path, page, slashes);
  }

  lemma PiecesOfAddress(path: string, page: string, slashes: string)
    requires page + slashes <= path && (|page + slashes| < |path| ==> path[|page + slashes|] == '?')
    requires '?' !in page && (page != "" ==> page[|page| - 1] != '/')
    requires AllSlashes(slashes)
    ensures exists query :: IsAddress(path, page, slashes, query)
  {
    var query := path[|page + slashes|..];
    assert path == page + slashes + query;
    assert IsAddress(path, page, slashes, query);
  }

  // ---- The tree ----

  datatype Kind = Directory | Page

  datatype MenuRow = MenuRow(id: string, parent: Option<string>, kind: Kind, code: string, name: string,
                             path: Option<string>, icon: Option<string>, visible: Option<bool>)

  /** No children is an absent list. */
  datatype MenuItem = MenuItem(id: string, title: string, url: string, icon: string, children: seq<MenuItem>)

  /** Everything the builder reads: the active menu rows in sort order, the routes and the user. */
  datatype Menu = Menu(rows: seq<MenuRow>, routes: seq<Route>)

  predicate UniqueIds(rows: seq<MenuRow>)
  {
    forall i, j | 0 <= i < |rows| && 0 <= j < |rows| && rows[i].id == rows[j].id :: i == j
  }

  predicate Visible(row: MenuRow)
  {
    row.visible != Some(false)
  }

  function TextOr(text: Option<string>, fallback: string): string
  {
    if text.Some? && text.value != "" then text.value else fallback
  }

  /** The row's own code and, for a page, the guard of its path. */
  predicate Permitted(m: Menu, subject: Subject, row: MenuRow)
  {
    && (row.code == "" || Can(subject, row.code))
    && (row.kind != Page || TextOr(row.path, "") == "" || CanAccessPath(m.routes, subject, row.path.value))
  }

  /** A row is permitted by its own code and, if it is a page with a path, by the guard of that path. */
  lemma PermittedIs(m: Menu, subject: Subject, row: MenuRow)
    ensures Permitted(m, subject, row) <==>
            && (row.code == "" || "SUPER_ADMIN" in subject.roleCodes || row.code in subject.permissionCodes)
            && (row.kind == Page && row.path.Some? && row.path.value != "" ==>
                  CanAccessPath(m.routes, subject, row.path.value))
  {
    AdminByRole(subject);
  }

  /** Visible rows, each the parent of the next, from a root downwards. */
  ghost predicate VisiblePath(rows: seq<MenuRow>, path: seq<MenuRow>)
  {
    forall k | 0 <= k < |path| :: Linked(rows, path, k)
  }

  ghost predicate Linked(rows: seq<MenuRow>, path: seq<MenuRow>, k: nat)
    requires k < |path|
  {
    && path[k] in rows && path[k].visible != Some(false)
    && path[k].parent == (if k == 0 then None else Some(path[k - 1].id))
  }

  function EndOf(path: seq<MenuRow>): Option<string>
  {
    if path == [] then None else Some(path[|path| - 1].id)
  }

  lemma {:induction false} PathHasNoRepeats(rows: seq<MenuRow>, path: seq<MenuRow>, i: nat, j: nat)
    requires UniqueIds(rows) && VisiblePath(rows, path) && i < j < |path|
    ensures path[i] != path[j]
  {
    assert Linked(rows, path, i) && Linked(rows, path, j);
    if i == 0 {
    } else {
      assert Linked(rows, path, i - 1) && Linked(rows, path, j - 1);
      PathHasNoRepeats(rows, path, i - 1, j - 1);
    }
  }

  lemma {:induction false} DistinctFit(path: seq<MenuRow>, rows: set<MenuRow>)
    requires forall i, j | 0 <= i < j < |path| :: path[i] != path[j]
    requires forall i | 0 <= i < |path| :: path[i] in rows
    ensures |path| <= |rows|
  {
    if path == [] {
    } else {
      var last := path[|path| - 1];
      var before := path[..|path| - 1];
      DistinctFit(before, rows - {last});
    }
  }

  /** A path from a root has no more rows than there are, even where rows off the roots form cycles. */
  lemma PathIsShort(rows: seq<MenuRow>, path: seq<MenuRow>)
    requires UniqueIds(rows) && VisiblePath(rows, path)
    ensures |path| <= |rows|
  {
    forall i, j | 0 <= i < j < |path| ensures path[i] != path[j] {
      PathHasNoRepeats(rows, path, i, j);
    }
    forall i | 0 <= i < |path| ensures path[i] in rows {
      assert Linked(rows, path, i);
    }
    Collections.SetOfSeq(rows);
    DistinctFit(path, set row | row in rows);
  }

  lemma PathGrows(rows: seq<MenuRow>, path: seq<MenuRow>, row: MenuRow)
    requires VisiblePath(rows, path) && row in rows && Visible(row) && row.parent == EndOf(path)
    ensures VisiblePath(rows, path + [row])
  {
    forall k | 0 <= k < |path + [row]| ensures Linked(rows, path + [row], k) {
      if k < |path| {
        assert Linked(rows, path, k);
      }
    }
  }

  lemma PathStart(rows: seq<MenuRow>, path: seq<MenuRow>, more: seq<MenuRow>)
    requires VisiblePath(rows, path + more)
    ensures VisiblePath(rows, path)
    ensures more != [] ==> more[0] in rows && Visible(more[0]) && more[0].parent == EndOf(path)
  {
    forall k | 0 <= k < |path| ensures Linked(rows, path, k) {
      assert Linked(rows, path + more, k);
    }
    if more != [] {
      assert Linked(rows, path + more, |path|);
    }
  }

  /** The recursion: children of the end of `path`, from row `i` on; `path` is the stack of open calls. */
  function BuildFrom(m: Menu, subject: Subject, path: seq<MenuRow>, i: nat): seq<MenuItem>
    requires UniqueIds(m.rows) && VisiblePath(m.rows, path) && i <= |m.rows|
    decreases |m.rows| - |path|, |m.rows| - i
  {
    PathIsShort(m.rows, path);
    if i == |m.rows| then []
    else
      var row := m.rows[i];
      var rest := BuildFrom(m, subject, path, i + 1);
      if row.parent != EndOf(path) || !Visible(row) then rest
      else
        PathGrows(m.rows, path, row);
        PathIsShort(m.rows, path + [row]);
        var children := BuildFrom(m, subject, path + [row], 0);
        if !Permitted(m, subject, row) && children == [] then rest
        else [ItemOf(row, children)] + rest
  }

  function ItemOf(row: MenuRow, children: seq<MenuItem>): MenuItem
  {
    MenuItem(row.id, row.name, TextOr(row.path, "#"), TextOr(row.icon, "LayoutGrid"), children)
  }

  /** What the item of a row shows: the row's id and name, its path or `#`, its icon or the grid. */
  lemma ItemShowsRow(row: MenuRow, children: seq<MenuItem>)
    ensures var item := ItemOf(row, children);
            && item.id == row.id && item.title == row.name && item.children == children
            && (row.path.Some? && row.path.value != "" ==> item.url == row.path.value)
            && (row.path == None || row.path == Some("") ==> item.url == "#")
            && (row.icon.Some? && row.icon.value != "" ==> item.icon == row.icon.value)
            && (row.icon == None || row.icon == Some("") ==> item.icon == "LayoutGrid")
  {
  }

  function BuildTree(m: Menu, subject: Subject): seq<MenuItem>
    requires UniqueIds(m.rows)
  {
    BuildFrom(m, subject, [], 0)
  }

  // ---- What is shown ----

  /** A chain of visible rows that leads, possibly further down through visible rows, to a permitted one. */
  ghost predicate Displayed(m: Menu, subject: Subject, path: seq<MenuRow>)
  {
    path != [] && exists more :: LeadsToPermitted(m, subject, path, more)
  }

  ghost predicate LeadsToPermitted(m: Menu, subject: Subject, path: seq<MenuRow>, more: seq<MenuRow>)
    requires path != []
  {
    var whole := path + more;
    VisiblePath(m.rows, whole) && Permitted(m, subject, whole[|whole| - 1])
  }

  lemma DisplayedUnfolds(m: Menu, subject: Subject, path: seq<MenuRow>)
    requires path != [] && VisiblePath(m.rows, path)
    ensures Displayed(m, subject, path) <==>
            || Permitted(m, subject, path[|path| - 1])
            || exists row | row in m.rows :: Displayed(m, subject, path + [row])
  {
    if Permitted(m, subject, path[|path| - 1]) {
      assert path + [] == path;
      assert LeadsToPermitted(m, subject, path, []);
    }
    if row :| row in m.rows && Displayed(m, subject, path + [row]) {
      var more :| LeadsToPermitted(m, subject, path + [row], more);
      assert path + [row] + more == path + ([row] + more);
      assert LeadsToPermitted(m, subject, path, [row] + more);
    }
    if more :| LeadsToPermitted(m, subject, path, more) {
      if more != [] {
        assert path + more == path + [more[0]] + more[1..];
        PathStart(m.rows, path, more);
        assert LeadsToPermitted(m, subject, path + [more[0]], more[1..]);
      } else {
        assert path + [] == path;
      }
    }
  }

  /** The rows below `path` that are displayed, in row order, from row `i` on. */
  ghost function ShownBelow(m: Menu, subject: Subject, path: seq<MenuRow>, i: nat): seq<MenuRow>
    requires i <= |m.rows|
    decreases |m.rows| - i
  {
    if i == |m.rows| then []
    else (if Displayed(m, subject, path + [m.rows[i]]) then [m.rows[i]] else []) + ShownBelow(m, subject, path, i + 1)
  }

  lemma {:induction false} ShownBelowAreThose(m: Menu, subject: Subject, path: seq<MenuRow>, i: nat, row: MenuRow)
    requires i <= |m.rows|
    ensures row in ShownBelow(m, subject, path, i) <==> row in m.rows[i..] && Displayed(m, subject, path + [row])
    decreases |m.rows| - i
  {
    if i >= |m.rows| {
    } else {
      ShownBelowAreThose(m, subject, path, i + 1, row);
      assert m.rows[i..] == [m.rows[i]] + m.rows[i + 1..];
    }
  }

  /** The item of a row, children included, is what the builder makes of that row's path. */
  ghost predicate Matches(m: Menu, subject: Subject, path: seq<MenuRow>, row: MenuRow, item: MenuItem)
    requires UniqueIds(m.rows)
  {
    VisiblePath(m.rows, path + [row]) && item == ItemOf(row, BuildFrom(m, subject, path + [row], 0))
  }

  ghost predicate AllMatch(m: Menu, subject: Subject, path: seq<MenuRow>, shown: seq<MenuRow>, items: seq<MenuItem>)
    requires UniqueIds(m.rows)
  {
    |items| == |shown| && forall k | 0 <= k < |items| :: Matches(m, subject, path, shown[k], items[k])
  }

  lemma {:induction false} OneMoreMatches(m: Menu, subject: Subject, path: seq<MenuRow>, row: MenuRow,
                                          shown: seq<MenuRow>, items: seq<MenuItem>)
    requires UniqueIds(m.rows) && VisiblePath(m.rows, path + [row]) && AllMatch(m, subject, path, shown, items)
    ensures var item := ItemOf(row, BuildFrom(m, subject, path + [row], 0));
            AllMatch(m, subject, path, [row] + shown, [item] + items)
  {
  }

  lemma DisplayedIsPath(m: Menu, subject: Subject, path: seq<MenuRow>, row: MenuRow)
    requires VisiblePath(m.rows, path) && row in m.rows && Displayed(m, subject, path + [row])
    ensures row.parent == EndOf(path) && Visible(row)
  {
    var more :| LeadsToPermitted(m, subject, path + [row], more);
    assert path + [row] + more == path + ([row] + more);
    PathStart(m.rows, path, [row] + more);
  }

  /**
   One level of the tree: exactly one item, in row order, for each row whose chain to the root is
   visible and which is permitted itself or leads through visible rows to a permitted one.
   */
  lemma {:induction false} LevelIsWhatIsShown(m: Menu, subject: Subject, path: seq<MenuRow>, i: nat)
    requires UniqueIds(m.rows) && VisiblePath(m.rows, path) && i <= |m.rows|
    ensures AllMatch(m, subject, path, ShownBelow(m, subject, path, i), BuildFrom(m, subject, path, i))
    decreases |m.rows| - |path|, |m.rows| - i
  {
    PathIsShort(m.rows, path);
    if i >= |m.rows| {
    } else {
      var row := m.rows[i];
      LevelIsWhatIsShown(m, subject, path, i + 1);
      if row.parent == EndOf(path) && Visible(row) {
        PathGrows(m.rows, path, row);
        PathIsShort(m.rows, path + [row]);
        LevelIsWhatIsShown(m, subject, path + [row], 0);
        ChildrenIffDisplayed(m, subject, path + [row]);
        var shown, items := ShownBelow(m, subject, path, i + 1), BuildFrom(m, subject, path, i + 1);
        OneMoreMatches(m, subject, path, row, shown, items);
      } else if Displayed(m, subject, path + [row]) {
        DisplayedIsPath(m, subject, path, row);
      }
    }
  }

  lemma {:induction false} ChildrenIffDisplayed(m: Menu, subject: Subject, path: seq<MenuRow>)
    requires path != [] && VisiblePath(m.rows, path)
    ensures Displayed(m, subject, path) <==>
            Permitted(m, subject, path[|path| - 1]) || ShownBelow(m, subject, path, 0) != []
  {
    DisplayedUnfolds(m, subject, path);
    var shown := ShownBelow(m, subject, path, 0);
    assert m.rows[0..] == m.rows;
    if shown != [] {
      ShownBelowAreThose(m, subject, path, 0, shown[0]);
    }
    if row :| row in m.rows && Displayed(m, subject, path + [row]) {
      ShownBelowAreThose(m, subject, path, 0, row);
    }
  }

  /** The items show this chain of ids, each inside the one before. */
  ghost predicate Shows(items: seq<MenuItem>, path: seq<MenuRow>)
  {
    path == [] || exists k | 0 <= k < |items| :: items[k].id == path[0].id && Shows(items[k].children, path[1..])
  }

  /**
   A row appears in the menu exactly if its whole chain to the root is visible and it or some row
   reached from it through visible rows is permitted.
   */
  lemma {:induction false} ShownExactlyWhenDisplayed(m: Menu, subject: Subject, path: seq<MenuRow>, more: seq<MenuRow>)
    requires UniqueIds(m.rows) && VisiblePath(m.rows, path + more)
    ensures VisiblePath(m.rows, path)
    ensures Shows(BuildFrom(m, subject, path, 0), more) <==> more == [] || Displayed(m, subject, path + more)
    decreases |more|
  {
    PathStart(m.rows, path, more);
    if more == [] {
    } else {
      var row := more[0];
      assert path + more == path + [row] + more[1..];
      assert (path + more)[|path|] == row;
      ShownExactlyWhenDisplayed(m, subject, path + [row], more[1..]);
      LevelIsWhatIsShown(m, subject, path, 0);
      var items, shown := BuildFrom(m, subject, path, 0), ShownBelow(m, subject, path, 0);
      ShownBelowAreThose(m, subject, path, 0, row);
      assert m.rows[0..] == m.rows;
      if Displayed(m, subject, path + more) {
        DisplayedPrefix(m, subject, path + [row], more[1..]);
        var k :| 0 <= k < |shown| && shown[k] == row;
        assert Matches(m, subject, path, shown[k], items[k]);
        if |more| == 1 {
          assert Shows(items[k].children, []);
        }
      }
      if Shows(items, more) {
        var k :| 0 <= k < |items| && items[k].id == row.id && Shows(items[k].children, more[1..]);
        assert Matches(m, subject, path, shown[k], items[k]);
        ShownBelowAreThose(m, subject, path, 0, shown[k]);
        assert shown[k] == row;
        if |more| == 1 {
          assert path + more == path + [row];
        }
      }
    }
  }

  lemma DisplayedPrefix(m: Menu, subject: Subject, path: seq<MenuRow>, more: seq<MenuRow>)
    requires path != [] && Displayed(m, subject, path + more)
    ensures Displayed(m, subject, path)
  {
    var further :| LeadsToPermitted(m, subject, path + more, further);
    assert path + more + further == path + (more + further);
    assert LeadsToPermitted(m, subject, path, more + further);
  }

  /** Every leaf of the menu is permitted: nothing is shown that leads nowhere. */
  lemma {:induction false} LeavesArePermitted(m: Menu, subject: Subject, path: seq<MenuRow>)
    requires UniqueIds(m.rows) && VisiblePath(m.rows, path)
    ensures AllLeaves(m, subject, BuildFrom(m, subject, path, 0))
    decreases |m.rows| - |path|
  {
    var items, shown := BuildFrom(m, subject, path, 0), ShownBelow(m, subject, path, 0);
    LevelIsWhatIsShown(m, subject, path, 0);
    forall k | 0 <= k < |items| ensures LeafOk(m, subject, items[k]) {
      assert Matches(m, subject, path, shown[k], items[k]);
      PathIsShort(m.rows, path + [shown[k]]);
      LeavesArePermitted(m, subject, path + [shown[k]]);
      LevelIsWhatIsShown(m, subject, path + [shown[k]], 0);
      ChildrenIffDisplayed(m, subject, path + [shown[k]]);
      ShownBelowAreThose(m, subject, path, 0, shown[k]);
      assert (path + [shown[k]])[|path|] == shown[k];
    }
  }

  ghost predicate AllLeaves(m: Menu, subject: Subject, items: seq<MenuItem>)
  {
    forall k | 0 <= k < |items| :: LeafOk(m, subject, items[k])
  }

  ghost predicate LeafOk(m: Menu, subject: Subject, item: MenuItem)
  {
    && (item.children == [] ==> exists row | row in m.rows :: row.id == item.id && Permitted(m, subject, row))
    && AllLeaves(m, subject, item.children)
  }

  lemma PermittedGrows(m: Menu, more: Subject, less: Subject, row: MenuRow)
    requires AtLeast(more, less) && Permitted(m, less, row)
    ensures Permitted(m, more, row)
  {
    MoreCanDoMore(more, less, [], row.code);
    if row.path.Some? && AccessForPath(m.routes, row.path.value).Some? {
      MoreCanDoMore(more, less, AccessForPath(m.routes, row.path.value).value.permissions, row.code);
    }
  }

  /** More roles or permissions never remove a row. */
  lemma {:induction false} MorePermissionsShowMore(m: Menu, more: Subject, less: Subject, path: seq<MenuRow>)
    requires UniqueIds(m.rows) && VisiblePath(m.rows, path) && AtLeast(more, less)
    ensures Shows(BuildTree(m, less), path) ==> Shows(BuildTree(m, more), path)
  {
    assert [] + path == path;
    ShownExactlyWhenDisplayed(m, less, [], path);
    ShownExactlyWhenDisplayed(m, more, [], path);
    if path != [] && Displayed(m, less, path) {
      var further :| LeadsToPermitted(m, less, path, further);
      var whole := path + further;
      PermittedGrows(m, more, less, whole[|whole| - 1]);
      assert LeadsToPermitted(m, more, path, further);
    }
  }
}
