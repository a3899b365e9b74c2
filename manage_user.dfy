/** frontend/Task-manager/src/pages/Admin/ManageUser.jsx: the admin's team
    page. The fetched user list, the user picked for deletion and whether
    the confirmation modal is shown are the fields of a `UserPage`; the
    counts and the filtered list are functions of the user list. */
module ManageUser {
  import opened Common
  import opened ClientModel

  function RoleEquals(role: string): ClientUser -> bool {
    (u: ClientUser) => u.role == Some(role)
  }

  datatype RoleCounts = RoleCounts(all: nat, admin: nat, member: nat)

  /** getCounts: all users, and those whose role is exactly 'admin' or 'member'. */
  function GetCounts(users: seq<ClientUser>): (c: RoleCounts)
    ensures c.all == |users|
    ensures c.admin == Count(users, RoleEquals("admin")) && c.member == Count(users, RoleEquals("member"))
    ensures c.admin + c.member <= c.all
    ensures (forall k :: 0 <= k < |users| ==> users[k].role in {Some("admin"), Some("member")}) ==> c.admin + c.member == c.all
  {
    CountTwo(users, RoleEquals("admin"), RoleEquals("member"));
    RoleCounts(|users|, Count(users, RoleEquals("admin")), Count(users, RoleEquals("member")))
  }

  /** The role tab matches (`'all'` matches every user) and the search hits
      the name or the email. */
  function OnRoleTab(roleFilter: string, query: string): (r: ClientUser -> bool)
    ensures forall u :: r(u) ==> UserMatchesSearch(query)(u)
    ensures forall u :: r(u) && roleFilter != "all" ==> u.role == Some(roleFilter)
    ensures roleFilter == "all" ==> forall u :: r(u) == UserMatchesSearch(query)(u)
  {
    (u: ClientUser) => (roleFilter == "all" || u.role == Some(roleFilter)) && UserMatchesSearch(query)(u)
  }

  function FilteredUsers(users: seq<ClientUser>, roleFilter: string, query: string): (r: seq<ClientUser>)
    ensures IsSubsequence(r, users)
    ensures forall k :: 0 <= k < |r| ==> (roleFilter == "all" || r[k].role == Some(roleFilter)) && UserMatchesSearch(query)(r[k])
    ensures forall k :: 0 <= k < |users| && OnRoleTab(roleFilter, query)(users[k]) ==> users[k] in r
  {
    FilterIsSubsequence(users, OnRoleTab(roleFilter, query));
    Filter(users, OnRoleTab(roleFilter, query))
  }

  /** A role tab never lists more users than its badge counts. */
  lemma RoleTabWithinBadge(users: seq<ClientUser>, roleFilter: string, query: string)
    requires roleFilter != "all"
    ensures |FilteredUsers(users, roleFilter, query)| <= Count(users, RoleEquals(roleFilter))
  {
    CountMono(users, OnRoleTab(roleFilter, query), RoleEquals(roleFilter));
  }

  function OtherUser(id: UserId): ClientUser -> bool {
    (u: ClientUser) => u.id != id
  }

  class UserPage {
    var users: seq<ClientUser>
    var selectedUser: Option<ClientUser>
    var showDeleteModal: bool

    /** The modal is shown only with a user picked. */
    predicate Valid()
      reads this
    {
      showDeleteModal ==> selectedUser.Some?
    }

    /** The page after the user list has been fetched. */
    constructor (fetched: seq<ClientUser>)
      ensures Valid()
      ensures users == fetched && selectedUser.None? && !showDeleteModal
    {
      users := fetched;
      selectedUser := None;
      showDeleteModal := false;
    }

    /** handleDeleteClick: the user is picked and the modal opens. */
    method HandleDeleteClick(user: ClientUser)
      modifies this
      ensures Valid()
      ensures selectedUser == Some(user) && showDeleteModal
      ensures users == old(users)
    {
      selectedUser := Some(user);
      showDeleteModal := true;
    }

    /** handleDeleteConfirm: without a pick nothing happens; otherwise every
        listed user with the picked id leaves the local list (no request
        is sent to the server), the modal closes and the pick is cleared. */
    method HandleDeleteConfirm()
      requires Valid()
      modifies this
      ensures Valid()
      ensures old(selectedUser).None? ==>
        users == old(users) && selectedUser == old(selectedUser) && showDeleteModal == old(showDeleteModal)
      ensures old(selectedUser).Some? ==> users == Filter(old(users), OtherUser(old(selectedUser).value.id))
      ensures old(selectedUser).Some? ==> selectedUser.None? && !showDeleteModal
    {
      if selectedUser.None? {
        return;
      }
      users := Filter(users, OtherUser(selectedUser.value.id));
      showDeleteModal := false;
      selectedUser := None;
    }

    /** The modal's cancel button: the modal closes, the pick stays. */
    method CancelDelete()
      requires Valid()
      modifies this
      ensures Valid()
      ensures !showDeleteModal && selectedUser == old(selectedUser) && users == old(users)
    {
      showDeleteModal := false;
    }
  }

  /** What confirming a deletion leaves: no user with that id, every other
      user in its order, and a smaller `all` badge when the id was listed. */
  lemma DeleteConfirmEffect(users: seq<ClientUser>, id: UserId)
    ensures forall k :: 0 <= k < |Filter(users, OtherUser(id))| ==> Filter(users, OtherUser(id))[k].id != id
    ensures IsSubsequence(Filter(users, OtherUser(id)), users)
    ensures forall u :: u in users && u.id != id ==> u in Filter(users, OtherUser(id))
    ensures (exists k :: 0 <= k < |users| && users[k].id == id) ==>
      GetCounts(Filter(users, OtherUser(id))).all < GetCounts(users).all
  {
    FilterIsSubsequence(users, OtherUser(id));
    if exists k :: 0 <= k < |users| && users[k].id == id {
      var k :| 0 <= k < |users| && users[k].id == id;
      FilterDropsSome(users, k, OtherUser(id));
    }
  }

  /** Picking a user, cancelling (the pick survives), picking again and
      confirming: the user is gone and the page is at rest. */
  method DeleteScenario(page: UserPage, a: ClientUser)
    requires page.Valid()
    modifies page
    ensures page.Valid()
    ensures forall k :: 0 <= k < |page.users| ==> page.users[k].id != a.id
    ensures page.selectedUser.None? && !page.showDeleteModal
  {
    page.HandleDeleteClick(a);
    page.CancelDelete();
    assert page.selectedUser == Some(a);
    page.HandleDeleteClick(a);
    page.HandleDeleteConfirm();
  }
}
