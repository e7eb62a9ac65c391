/** The route guard: whether a route renders for the current user and token, or where it redirects. */
module ProtectedRoute {
  import opened Text
  import opened AuthContext

  /** The roles a route can require. */
  datatype Role = Player | Admin

  function RoleName(r: Role): string {
    match r
    case Player => "player"
    case Admin => "admin"
  }

  datatype Outcome = Redirect(to: string) | RenderChildren | RenderOutlet

  /** The role the guard compares: the user's, or `guest` without a user. */
  function UserRole(user: Option<User>): (role: string)
    ensures user.None? ==> role == "guest"
    ensures user.Some? ==> role == user.value.role
  {
    if user.Some? then user.value.role else "guest"
  }

  /** A token is present and non-empty (`!!token`). */
  predicate Authenticated(token: Option<string>) {
    token.Some? && token.value != ""
  }

  /**
   * `ProtectedRoute`: to `/login` without a token; renders when no role is
   * required or the roles agree; on a mismatch a player goes to `/home`,
   * an admin to `/admin/overview`, any other role to `/login`.
   */
  function Guard(token: Option<string>, user: Option<User>, requiredRole: Option<Role>, hasChildren: bool): (o: Outcome)
    ensures !Authenticated(token) ==> o == Redirect("/login")
    ensures o.RenderChildren? || o.RenderOutlet? <==>
      Authenticated(token) && (requiredRole.None? || UserRole(user) == RoleName(requiredRole.value))
    ensures (o.RenderChildren? || o.RenderOutlet?) ==> (o.RenderChildren? <==> hasChildren)
    ensures Authenticated(token) && requiredRole.Some? && UserRole(user) != RoleName(requiredRole.value) ==>
      o == Redirect(if UserRole(user) == "player" then "/home"
                    else if UserRole(user) == "admin" then "/admin/overview"
                    else "/login")
  {
    var role := UserRole(user);
    if !Authenticated(token) then Redirect("/login")
    else if requiredRole.Some? && role != RoleName(requiredRole.value) then
      if role == "player" then Redirect("/home")
      else if role == "admin" then Redirect("/admin/overview")
      else Redirect("/login")
    else if hasChildren then RenderChildren
    else RenderOutlet
  }

  /** A token without a user is a guest: every role-restricted route sends it to `/login`. */
  lemma GuestToLogin(token: Option<string>, required: Role, hasChildren: bool)
    requires Authenticated(token)
    ensures Guard(token, None, Some(required), hasChildren) == Redirect("/login")
  {
  }

  /** On a role mismatch the guard redirects, and a player or an admin is sent to their own area. */
  lemma MismatchTargets(token: Option<string>, user: User, required: Role, hasChildren: bool)
    requires Authenticated(token) && user.role != RoleName(required)
    ensures Guard(token, Some(user), Some(required), hasChildren).Redirect?
    ensures required == Admin && user.role == "player" ==> Guard(token, Some(user), Some(required), hasChildren) == Redirect("/home")
    ensures required == Player && user.role == "admin" ==> Guard(token, Some(user), Some(required), hasChildren) == Redirect("/admin/overview")
  {
  }
}
