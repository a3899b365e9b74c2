/** frontend/Task-manager/src/routes/PrivateRoute.jsx: the guard wrapped
    around the protected pages. It reads the session's user and loading
    flag and decides what the route shows. */
module PrivateRoute {
  import opened Common
  import opened UserContext

  /** What a route renders: the spinner, a redirect to a path, or its child
      page (the `<Outlet />`). */
  datatype Render = Spinner | Redirect(path: string) | Outlet

  const LoginPath := "/login"
  const AdminHome := "/admin/dashboard"
  const UserHome := "/user/userdashboard"

  /** `allowedRoles.includes(user.role)`: an absent role is in no list. */
  predicate RoleAllowed(roles: seq<string>, u: UserData) {
    RoleOf(u).Some? && RoleOf(u).value in roles
  }

  /** The guard's decision. `allowedRoles` is an array when given, and an
      array is truthy even when empty. */
  function Guard(loading: bool, user: Option<UserData>, allowedRoles: Option<seq<string>>): (r: Render)
    ensures loading <==> r == Spinner
    ensures !loading && user.None? ==> r == Redirect(LoginPath)
    ensures r == Outlet <==> !loading && user.Some? && (allowedRoles.None? || RoleAllowed(allowedRoles.value, user.value))
    ensures r.Redirect? ==> r.path in {LoginPath, AdminHome, UserHome}
    ensures r.Redirect? && user.Some? ==> (r.path == AdminHome <==> RoleOf(user.value) == Some("admin"))
  {
    if loading then Spinner
    else if user.None? then Redirect(LoginPath)
    else if allowedRoles.Some? && !RoleAllowed(allowedRoles.value, user.value) then
      if RoleOf(user.value) == Some("admin") then Redirect(AdminHome) else Redirect(UserHome)
    else Outlet
  }
}
