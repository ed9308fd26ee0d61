/**
 * The application shell: the `ProtectedRoute` guard, the sidebar menu builder
 * and the route table that ties paths to role constraints.
 */
module App {
  import opened Wrappers
  import opened AuthContext
  import opened Seqs

  /** The `requiredRole` of a protected route: absent, one role, or an array of roles. */
  datatype Constraint = NoConstraint | One(role: Role) | AnyOf(roles: seq<Role>)

  /** What the guard does: render the protected page, or redirect. */
  datatype Decision = Allow | Redirect(to: string)

  /** The roles a constraint lets through, read as a set. */
  function Admitted(c: Constraint): set<Role>
  {
    match c
    case NoConstraint => {SUPERADMIN, ADMIN, MANAGER, USER}
    case One(r) => {r}
    case AnyOf(rs) => set r | r in rs
  }

  /** The guard's refusal test: an array constraint that does not include the role, or a single role that differs. */
  predicate Refuses(requiredRole: Constraint, role: Role)
  {
    match requiredRole
    case NoConstraint => false
    case AnyOf(rs) => role !in rs
    case One(r) => role != r
  }

  /**
   * `ProtectedRoute`: nobody signed in goes to the login page whatever the
   * constraint; a signed-in user the constraint refuses goes to the dashboard.
   */
  function Guard(user: Option<Identity>, requiredRole: Constraint): (d: Decision)
    ensures user.None? ==> d == Redirect("/login")
    ensures user.Some? ==> (d == Allow <==> user.value.role in Admitted(requiredRole))
    ensures user.Some? && d != Allow ==> d == Redirect("/dashboard")
  {
    if user.None? then Redirect("/login")
    else if Refuses(requiredRole, user.value.role) then Redirect("/dashboard")
    else
      assert user.value.role.SUPERADMIN? || user.value.role.ADMIN? || user.value.role.MANAGER? || user.value.role.USER?;
      Allow
  }

  /** One sidebar entry. */
  datatype MenuItem = MenuItem(text: string, path: string)

  const DashboardItem := MenuItem("Dashboard", "/dashboard")

  /** `user?.role`: the role string of the session, if any. */
  function RoleOf(user: Option<Identity>): Option<string>
  {
    match user
    case Some(u) => Some(RoleName(u.role))
    case None => None
  }

  /** `getSidebarItems`: the switch on the role string, with the Dashboard entry first. */
  function SidebarItems(role: Option<string>): (items: seq<MenuItem>)
    ensures |items| >= 1 && items[0] == DashboardItem
  {
    var commonItems := [DashboardItem];
    if role == Some("SUPERADMIN") then
      commonItems + [MenuItem("User Management", "/users"), MenuItem("Role Management", "/roles")]
    else if role == Some("ADMIN") then
      commonItems + [MenuItem("User Management", "/users")]
    else if role == Some("MANAGER") then
      commonItems + [MenuItem("Team View", "/team")]
    else
      commonItems
  }

  /** The paths the sidebar offers, in menu order. */
  function MenuPaths(items: seq<MenuItem>): (paths: seq<string>)
    ensures |paths| == |items| && forall k :: 0 <= k < |items| ==> paths[k] == items[k].path
  {
    if items == [] then [] else [items[0].path] + MenuPaths(items[1..])
  }

  /** The menu for each role of the catalog, and the Dashboard-only default for anything else. */
  lemma MenuTable(role: Option<string>)
    ensures role == Some("SUPERADMIN") ==>
      SidebarItems(role) == [DashboardItem, MenuItem("User Management", "/users"), MenuItem("Role Management", "/roles")]
    ensures role == Some("ADMIN") ==> SidebarItems(role) == [DashboardItem, MenuItem("User Management", "/users")]
    ensures role == Some("MANAGER") ==> SidebarItems(role) == [DashboardItem, MenuItem("Team View", "/team")]
    ensures role !in {Some("SUPERADMIN"), Some("ADMIN"), Some("MANAGER")} ==> SidebarItems(role) == [DashboardItem]
  {
  }

  /** The pages the router can show behind a guard. */
  datatype Page = DashboardPage | UserManagementPage | RoleManagementPage

  /** A route's element: the open login page, or a page behind `ProtectedRoute`. */
  datatype Element = LoginPage | Protected(requiredRole: Constraint, page: Page)

  datatype Route = Route(path: string, element: Element)

  /** The route table of `AppContent`; any other path falls to the catch-all. */
  const Routes: seq<Route> := [
    Route("/login", LoginPage),
    Route("/dashboard", Protected(NoConstraint, DashboardPage)),
    Route("/users", Protected(AnyOf([SUPERADMIN, ADMIN]), UserManagementPage)),
    Route("/roles", Protected(One(SUPERADMIN), RoleManagementPage)),
    Route("/team", Protected(One(MANAGER), UserManagementPage))
  ]

  /** The element of the first route of `table` whose path is `path`. */
  function Match(table: seq<Route>, path: string): (e: Option<Element>)
    ensures e.None? <==> forall i :: 0 <= i < |table| ==> table[i].path != path
    ensures e.Some? ==> exists i :: 0 <= i < |table| && table[i] == Route(path, e.value)
  {
    if table == [] then None
    else if table[0].path == path then Some(table[0].element)
    else
      var e := Match(table[1..], path);
      assert e.Some? ==> exists i :: 1 <= i < |table| && table[i] == Route(path, e.value) by {
        if e.Some? {
          var i :| 0 <= i < |table[1..]| && table[1..][i] == Route(path, e.value);
          assert table[i + 1] == Route(path, e.value);
        }
      }
      e
  }

  function PathOf(r: Route): string { r.path }

  /** In a table without repeated paths, a listed path selects its own route. */
  lemma {:induction false} MatchListed(table: seq<Route>, i: nat)
    requires DistinctBy(table, PathOf) && i < |table|
    ensures Match(table, table[i].path) == Some(table[i].element)
  {
    if i > 0 {
      assert PathOf(table[0]) != PathOf(table[i]);
      var rest := table[1..];
      assert DistinctBy(rest, PathOf) by {
        forall a, b | 0 <= a < b < |rest| ensures PathOf(rest[a]) != PathOf(rest[b]) {
          assert rest[a] == table[a + 1] && rest[b] == table[b + 1];
        }
      }
      MatchListed(rest, i - 1);
    }
  }

  /** No path is listed twice in the route table. */
  lemma RoutePathsDistinct()
    ensures DistinctBy(Routes, PathOf)
  {
  }

  /** What the user sees: a rendered screen, or a redirect to another path. */
  datatype View = LoginView | PageView(page: Page)
  datatype Screen = Render(view: View) | GoTo(path: string)

  /** Navigating to `path`: route lookup, the guard of a protected route, and the catch-all to `/login`. */
  function Navigate(user: Option<Identity>, path: string): (s: Screen)
    ensures (forall i :: 0 <= i < |Routes| ==> Routes[i].path != path) ==> s == GoTo("/login")
    ensures user.None? && path != "/login" ==> s == GoTo("/login")
    ensures path == "/login" ==> s == Render(LoginView)
  {
    match Match(Routes, path)
    case None => GoTo("/login")
    case Some(LoginPage) => Render(LoginView)
    case Some(Protected(c, page)) =>
      match Guard(user, c)
      case Allow => Render(PageView(page))
      case Redirect(to) => GoTo(to)
  }

  /** A listed path is handled by its own route: open, or behind that route's guard. */
  lemma NavigateListed(user: Option<Identity>, i: nat)
    requires i < |Routes|
    ensures Routes[i].element == LoginPage ==> Navigate(user, Routes[i].path) == Render(LoginView)
    ensures Routes[i].element.Protected? ==>
      Navigate(user, Routes[i].path) ==
        match Guard(user, Routes[i].element.requiredRole)
        case Allow => Render(PageView(Routes[i].element.page))
        case Redirect(to) => GoTo(to)
  {
    RoutePathsDistinct();
    MatchListed(Routes, i);
  }

  /** The dashboard is open to every signed-in role. */
  lemma DashboardOpenToAll(u: Identity)
    ensures Navigate(Some(u), "/dashboard") == Render(PageView(DashboardPage))
  {
    NavigateListed(Some(u), 1);
  }

  /** For one protected route of the table: the menu lists it exactly when the guard admits the role. */
  lemma MenuAgreesAt(u: Identity, i: nat)
    requires i < |Routes| && Routes[i].element.Protected?
    ensures Routes[i].path in MenuPaths(SidebarItems(RoleOf(Some(u))))
            <==> Guard(Some(u), Routes[i].element.requiredRole) == Allow
  {
    var paths := MenuPaths(SidebarItems(RoleOf(Some(u))));
    assert paths == match u.role
      case SUPERADMIN => ["/dashboard", "/users", "/roles"]
      case ADMIN => ["/dashboard", "/users"]
      case MANAGER => ["/dashboard", "/team"]
      case USER => ["/dashboard"];
  }

  /** `isAuthenticated` holds exactly when the session may open the dashboard. */
  lemma AuthenticatedIffDashboard(session: Session)
    ensures session.IsAuthenticated() <==> Navigate(session.user, "/dashboard") == Render(PageView(DashboardPage))
    ensures !session.IsAuthenticated() ==> Navigate(session.user, "/dashboard") == GoTo("/login")
  {
    NavigateListed(session.user, 1);
  }

  /**
   * The menu and the guard agree: for every role, the sidebar offers exactly
   * the protected routes of the table that the guard lets that role reach.
   */
  lemma MenuAgreesWithGuard(u: Identity)
    ensures forall i :: 0 <= i < |Routes| && Routes[i].element.Protected? ==>
      (Routes[i].path in MenuPaths(SidebarItems(RoleOf(Some(u)))) <==> Navigate(Some(u), Routes[i].path).Render?)
  {
    forall i | 0 <= i < |Routes| && Routes[i].element.Protected?
      ensures Routes[i].path in MenuPaths(SidebarItems(RoleOf(Some(u)))) <==> Navigate(Some(u), Routes[i].path).Render?
    {
      MenuAgreesAt(u, i);
      NavigateListed(Some(u), i);
      var d := Guard(Some(u), Routes[i].element.requiredRole);
      assert Navigate(Some(u), Routes[i].path).Render? <==> d == Allow by {
        if d.Redirect? { assert Navigate(Some(u), Routes[i].path) == GoTo(d.to); }
      }
    }
  }

  /** Whatever the role string, every menu entry points at a protected route of the table. */
  lemma MenuOnlyProtectedRoutes(role: Option<string>)
    ensures forall p :: p in MenuPaths(SidebarItems(role)) ==>
      exists i :: 0 <= i < |Routes| && Routes[i].element.Protected? && Routes[i].path == p
  {
    var paths := MenuPaths(SidebarItems(role));
    assert paths == if role == Some("SUPERADMIN") then ["/dashboard", "/users", "/roles"]
      else if role == Some("ADMIN") then ["/dashboard", "/users"]
      else if role == Some("MANAGER") then ["/dashboard", "/team"]
      else ["/dashboard"];
    forall p | p in paths
      ensures exists i :: 0 <= i < |Routes| && Routes[i].element.Protected? && Routes[i].path == p
    {
      if p == "/dashboard" { assert Routes[1].path == p; }
      else if p == "/users" { assert Routes[2].path == p; }
      else if p == "/roles" { assert Routes[3].path == p; }
      else { assert Routes[4].path == p; }
    }
  }

  /** The scenario of a manager: the menu has the team view, and the role page sends them to the dashboard. */
  lemma ManagerScenario()
    ensures SidebarItems(RoleOf(Some(Directory(MANAGER)))) == [DashboardItem, MenuItem("Team View", "/team")]
    ensures Guard(Some(Directory(MANAGER)), One(SUPERADMIN)) == Redirect("/dashboard")
    ensures Navigate(Some(Directory(MANAGER)), "/roles") == GoTo("/dashboard")
    ensures Navigate(Some(Directory(MANAGER)), "/team") == Render(PageView(UserManagementPage))
  {
    var manager := Some(Directory(MANAGER));
    assert RoleOf(manager) == Some("MANAGER");
    MenuTable(Some("MANAGER"));
    assert Guard(manager, One(SUPERADMIN)) == Redirect("/dashboard");
    assert Guard(manager, One(MANAGER)) == Allow;
    assert Navigate(manager, "/roles") == GoTo("/dashboard") by {
      assert Routes[3] == Route("/roles", Protected(One(SUPERADMIN), RoleManagementPage));
      NavigateListed(manager, 3);
    }
    assert Navigate(manager, "/team") == Render(PageView(UserManagementPage)) by {
      assert Routes[4] == Route("/team", Protected(One(MANAGER), UserManagementPage));
      NavigateListed(manager, 4);
    }
  }

  /**
   * The manager walk-through from a fresh provider: before signing in `/team` sends
   * the visitor to `/login`; `login("MANAGER")` succeeds, after which the menu is
   * Dashboard and Team View, `/roles` goes back to `/dashboard` and `/team` renders.
   */
  method ManagerWalkthrough() returns (before: Screen, ok: bool, menu: seq<MenuItem>, roles: Screen, team: Screen)
    ensures before == GoTo("/login")
    ensures ok
    ensures menu == [DashboardItem, MenuItem("Team View", "/team")]
    ensures roles == GoTo("/dashboard")
    ensures team == Render(PageView(UserManagementPage))
  {
    var session := new Session();
    before := Navigate(session.user, "/team");
    ok := session.Login("MANAGER");
    assert RoleName(MANAGER) == "MANAGER";
    assert session.user == Some(Directory(MANAGER));
    ManagerScenario();
    menu := SidebarItems(RoleOf(session.user));
    roles := Navigate(session.user, "/roles");
    team := Navigate(session.user, "/team");
  }
}
