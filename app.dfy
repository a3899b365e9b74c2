/** frontend/Task-manager/src/App.jsx: the route table. Login and sign-up
    are public; the admin pages sit behind a guard admitting the role
    'admin', the user pages behind one admitting 'user' and 'member'; the
    path "/" renders `Root`, which sends each visitor on by role. */
module App {
  import opened Common
  import opened UserContext
  import opened PrivateRoute

  datatype Page =
    | LoginPage | SignUpPage
    | AdminDashboard | AdminTasks | AdminCreateTask | AdminUsers
    | UserDashboard | UserTasks | UserTaskDetails(id: string)
    | RootPage

  function PathOf(page: Page): string {
    match page
    case LoginPage => "/login"
    case SignUpPage => "/signup"
    case AdminDashboard => "/admin/dashboard"
    case AdminTasks => "/admin/tasks"
    case AdminCreateTask => "/admin/create-task"
    case AdminUsers => "/admin/user"
    case UserDashboard => "/user/userdashboard"
    case UserTasks => "/user/tasks"
    case UserTaskDetails(id) => "/user/task-details/" + id
    case RootPage => "/"
  }

  predicate IsAdminPage(page: Page) {
    page.AdminDashboard? || page.AdminTasks? || page.AdminCreateTask? || page.AdminUsers?
  }

  predicate IsUserPage(page: Page) {
    page.UserDashboard? || page.UserTasks? || page.UserTaskDetails?
  }

  const AdminRoles := ["admin"]
  const UserRoles := ["user", "member"]

  /** Root: while loading it renders its (empty) outlet; with nobody signed
      in it goes to the login page; an admin stays, anyone else goes to the
      user dashboard. */
  function Root(loading: bool, user: Option<UserData>): (r: Render)
    ensures r == Outlet <==> loading || (user.Some? && RoleOf(user.value) == Some("admin"))
    ensures !loading && user.None? ==> r == Redirect(LoginPath)
    ensures !loading && user.Some? && RoleOf(user.value) != Some("admin") ==> r == Redirect(UserHome)
  {
    if loading then Outlet
    else if user.None? then Redirect(LoginPath)
    else if RoleOf(user.value) == Some("admin") then Outlet
    else Redirect(UserHome)
  }

  /** What visiting a page renders for the session's state. */
  function Visit(page: Page, loading: bool, user: Option<UserData>): (r: Render)
    ensures page.LoginPage? || page.SignUpPage? ==> r == Outlet
    ensures IsAdminPage(page) ==> (r == Outlet <==> !loading && user.Some? && RoleAllowed(AdminRoles, user.value))
    ensures IsUserPage(page) ==> (r == Outlet <==> !loading && user.Some? && RoleAllowed(UserRoles, user.value))
    ensures page.RootPage? ==> (r == Outlet <==> loading || (user.Some? && RoleOf(user.value) == Some("admin")))
  {
    if IsAdminPage(page) then Guard(loading, user, Some(AdminRoles))
    else if IsUserPage(page) then Guard(loading, user, Some(UserRoles))
    else if page.RootPage? then Root(loading, user)
    else Outlet
  }

  /** Nothing protected renders while the session is loading, nor to a
      visitor who is not signed in: a protected page shows the spinner, then
      the login page. */
  lemma ProtectedPagesNeedSession(page: Page, loading: bool, user: Option<UserData>)
    requires IsAdminPage(page) || IsUserPage(page)
    ensures loading ==> Visit(page, loading, user) == Spinner
    ensures !loading && user.None? ==> Visit(page, loading, user) == Redirect(LoginPath)
    ensures Visit(page, loading, user) == Outlet ==> !loading && user.Some?
  {
  }

  /** An admin page renders exactly for admins, a user page exactly for
      the roles 'user' and 'member'. */
  lemma PagesByRole(page: Page, u: UserData)
    ensures IsAdminPage(page) ==> (Visit(page, false, Some(u)) == Outlet <==> RoleOf(u) == Some("admin"))
    ensures IsUserPage(page) ==> (Visit(page, false, Some(u)) == Outlet <==> RoleOf(u) in {Some("user"), Some("member")})
  {
  }

  /** An admin never reaches a user page and a member never reaches an
      admin page: each is sent to their own dashboard, which then renders. */
  lemma RolesStayApart(page: Page, u: UserData)
    ensures IsUserPage(page) && RoleOf(u) == Some("admin") ==>
      Visit(page, false, Some(u)) == Redirect(PathOf(AdminDashboard)) && Visit(AdminDashboard, false, Some(u)) == Outlet
    ensures IsAdminPage(page) && RoleOf(u) in {Some("user"), Some("member")} ==>
      Visit(page, false, Some(u)) == Redirect(PathOf(UserDashboard)) && Visit(UserDashboard, false, Some(u)) == Outlet
  {
  }

  /** A signed-in account with any other role (or none) is refused by both
      guards and sent to the user dashboard, which sends it to itself again. */
  lemma OtherRoleRedirectsToItself(page: Page, u: UserData)
    requires RoleOf(u) !in {Some("admin"), Some("user"), Some("member")}
    requires IsAdminPage(page) || IsUserPage(page) || page.RootPage?
    ensures Visit(page, false, Some(u)) == Redirect(PathOf(UserDashboard))
    ensures Visit(UserDashboard, false, Some(u)) == Redirect(PathOf(UserDashboard))
  {
  }

  /** Root and the guards agree: Root sends a user or member to the user
      dashboard, and that page renders for them. */
  lemma RootLandsOnDashboard(u: UserData)
    requires RoleOf(u) in {Some("user"), Some("member")}
    ensures Root(false, Some(u)) == Redirect(PathOf(UserDashboard))
    ensures Visit(UserDashboard, false, Some(u)) == Outlet
  {
  }
}
