/** The page layout's navigation: which items a role sees, the shown name and role, and which item is active. */
module Layout {
  import opened Text
  import opened AuthContext
  import ProtectedRoute

  datatype NavItem = NavItem(name: string, path: string)

  const PlayerNavItems := [NavItem("首页", "/home"), NavItem("游戏库", "/games"), NavItem("个人中心", "/player-profile")]

  const AdminNavItems := [NavItem("项目总览", "/admin/overview"), NavItem("用户管理", "/admin/users"),
                          NavItem("资产管理", "/admin/assets"), NavItem("玩法管理", "/admin/gameplay"),
                          NavItem("数据库管理", "/admin/database")]

  /** `user ? user.username : 'Guest'`. */
  function DisplayName(user: Option<User>): (name: string)
    ensures user.None? ==> name == "Guest"
    ensures user.Some? ==> name == user.value.username
  {
    if user.Some? then user.value.username else "Guest"
  }

  /**
   * The items shown for the role the route guard also compares (`guest`
   * without a user): the admin list for `admin`, the player list for
   * `player`, none for any other role.
   */
  function DisplayedNavItems(user: Option<User>): (items: seq<NavItem>)
    ensures ProtectedRoute.UserRole(user) == "admin" ==> items == AdminNavItems
    ensures ProtectedRoute.UserRole(user) == "player" ==> items == PlayerNavItems
    ensures ProtectedRoute.UserRole(user) != "admin" && ProtectedRoute.UserRole(user) != "player" ==> items == []
  {
    var role := ProtectedRoute.UserRole(user);
    if role == "admin" then AdminNavItems
    else if role == "player" then PlayerNavItems
    else []
  }

  lemma AdminPathsInAdminArea()
    ensures forall i :: 0 <= i < |AdminNavItems| ==> StartsWith(AdminNavItems[i].path, "/admin/")
  {
    assert StartsWith("/admin/overview", "/admin/");
    assert StartsWith("/admin/users", "/admin/");
    assert StartsWith("/admin/assets", "/admin/");
    assert StartsWith("/admin/gameplay", "/admin/");
    assert StartsWith("/admin/database", "/admin/");
  }

  lemma PlayerPathsOutsideAdminArea()
    ensures forall i :: 0 <= i < |PlayerNavItems| ==> !StartsWith(PlayerNavItems[i].path, "/admin/")
  {
    assert "/home"[1] != "/admin/"[1];
    assert "/games"[1] != "/admin/"[1];
    assert "/player-profile"[1] != "/admin/"[1];
  }

  /** The five admin items all lead into the admin area and the three player items none do. */
  lemma NavItemsByArea(user: Option<User>)
    ensures ProtectedRoute.UserRole(user) == "admin" ==>
      |DisplayedNavItems(user)| == 5 && forall i :: 0 <= i < 5 ==> StartsWith(DisplayedNavItems(user)[i].path, "/admin/")
    ensures ProtectedRoute.UserRole(user) == "player" ==>
      |DisplayedNavItems(user)| == 3 && forall i :: 0 <= i < 3 ==> !StartsWith(DisplayedNavItems(user)[i].path, "/admin/")
  {
    AdminPathsInAdminArea();
    PlayerPathsOutsideAdminArea();
  }

  const ProjectPrefix := "/admin/project/"

  /** A prefix of a prefix of a string is a prefix of it. */
  lemma PrefixOfPrefix(s: string, p: string, q: string)
    requires StartsWith(s, p) && StartsWith(p, q)
    ensures StartsWith(s, q)
  {
    assert s[..|q|] == s[..|p|][..|q|];
  }

  /** The project prefix holds a `/`, so `path.substring(0, path.lastIndexOf('/'))` is a prefix of `path`. */
  lemma ProjectBaseIsPrefix(path: string)
    requires StartsWith(path, ProjectPrefix)
    ensures StartsWith(path, Substring(path, 0, LastIndexOf(path, '/')))
  {
    assert path[14] == ProjectPrefix[14] == '/';
    var k := LastIndexOf(path, '/');
    assert k >= 14;
    assert Substring(path, 0, k) == path[..k];
  }

  /**
   * `isActive(path)` on the current pathname: `/home` is active on `/`;
   * two project pages compare the path only up to its last `/`; otherwise
   * the pathname must start with the path.
   */
  function IsActive(pathname: string, path: string): (r: bool)
    ensures StartsWith(pathname, path) ==> r
    ensures path == "/home" && pathname == "/" ==> r
    ensures !(path == "/home" && pathname == "/") && !(StartsWith(path, ProjectPrefix) && StartsWith(pathname, ProjectPrefix)) ==>
      (r <==> StartsWith(pathname, path))
  {
    if path == "/home" && pathname == "/" then true
    else if StartsWith(path, ProjectPrefix) && StartsWith(pathname, ProjectPrefix) then
      var base := Substring(path, 0, LastIndexOf(path, '/'));
      ProjectBaseIsPrefix(path);
      if StartsWith(pathname, path) then PrefixOfPrefix(pathname, path, base); true
      else StartsWith(pathname, base)
    else StartsWith(pathname, path)
  }

  /** Two tabs of one project page are both active: the compared base stops at the last `/`. */
  lemma ProjectSiblingsActive(project: string, tab: string, other: string)
    requires '/' !in tab
    ensures IsActive(ProjectPrefix + project + "/" + other, ProjectPrefix + project + "/" + tab)
  {
    var base := ProjectPrefix + project;
    var path := base + "/" + tab;
    var pathname := base + "/" + other;
    var k := |base|;
    assert path[k] == '/';
    forall i | k < i < |path|
      ensures path[i] != '/'
    {
      assert path[i] == tab[i - k - 1];
    }
    assert LastIndexOf(path, '/') == k;
    assert path[..k] == base == pathname[..k];
    assert path[..|ProjectPrefix|] == ProjectPrefix == pathname[..|ProjectPrefix|];
  }
}
