/** The client-side route guard (`ProtectedRoute`) and the role lists the admin
    routes pass to it. */
module App {
  import opened Basics

  /** The signed-in user as the client keeps it; only the role matters here. */
  datatype SessionUser = SessionUser(role: string)

  /** The authentication context: a session check in flight, and the current user
      (the context reports "authenticated" exactly when one is present). */
  datatype AuthView = AuthView(isLoading: bool, currentUser: Option<SessionUser>)

  /** What a guarded route shows. */
  datatype RouteDecision = RenderNothing | RedirectTo(path: string) | RenderChildren

  const LoginPath: string := "/login"
  const DashboardPath: string := "/dashboard"

  /** The role list of every `/admin/...` route. */
  const AdminRoles: seq<string> := ["admin", "esd_admin"]

  /** `ProtectedRoute`: nothing while loading; the login page when signed out; the
      dashboard when the route names roles and the user holds none of them; the
      children otherwise. An empty role list admits any signed-in user. */
  function ProtectedRoute(auth: AuthView, requiredRoles: seq<string>): (d: RouteDecision)
    ensures auth.isLoading ==> d == RenderNothing
    ensures d == RenderNothing ==> auth.isLoading
    ensures d == RedirectTo(LoginPath) <==> !auth.isLoading && auth.currentUser.None?
    ensures d == RedirectTo(DashboardPath) <==>
      !auth.isLoading && auth.currentUser.Some? && |requiredRoles| > 0 && auth.currentUser.value.role !in requiredRoles
    ensures d == RenderChildren <==>
      !auth.isLoading && auth.currentUser.Some? && (|requiredRoles| == 0 || auth.currentUser.value.role in requiredRoles)
  {
    if auth.isLoading then RenderNothing
    else if auth.currentUser.None? then RedirectTo(LoginPath)
    else if |requiredRoles| > 0 && auth.currentUser.value.role !in requiredRoles then RedirectTo(DashboardPath)
    else RenderChildren
  }

  /** An admin page sits behind two guards: the layout's, with no roles, and its
      own, with the admin roles. */
  function AdminPage(auth: AuthView): (d: RouteDecision)
    ensures d == RenderChildren <==>
      !auth.isLoading && auth.currentUser.Some? && auth.currentUser.value.role in AdminRoles
  {
    match ProtectedRoute(auth, [])
    case RenderChildren => ProtectedRoute(auth, AdminRoles)
    case other => other
  }

  /** The page a role-refused user is sent to admits that user, so the refusal
      cannot bounce back and forth. */
  lemma {:induction false} DashboardRedirectSettles(auth: AuthView, requiredRoles: seq<string>)
    requires ProtectedRoute(auth, requiredRoles) == RedirectTo(DashboardPath)
    ensures ProtectedRoute(auth, []) == RenderChildren
  {
  }

  /** Adding a role to a route's list never turns away a user it admitted. */
  lemma {:induction false} MoreRolesAdmitMore(auth: AuthView, requiredRoles: seq<string>, extra: string)
    requires |requiredRoles| > 0
    ensures ProtectedRoute(auth, requiredRoles) == RenderChildren ==>
      ProtectedRoute(auth, requiredRoles + [extra]) == RenderChildren
  {
    if ProtectedRoute(auth, requiredRoles) == RenderChildren {
      var role := auth.currentUser.value.role;
      assert role in requiredRoles;
      var k :| 0 <= k < |requiredRoles| && requiredRoles[k] == role;
      assert (requiredRoles + [extra])[k] == role;
    }
  }
}
