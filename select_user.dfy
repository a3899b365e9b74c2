/** frontend/Task-manager/src/component/Inputs/SelectUser.jsx: the assignee
    picker. The selection is the list of user ids the parent holds; the
    handlers compute the list handed to `onChange`. */
module SelectUser {
  import opened Common
  import opened ClientModel

  /** filteredUsers: the users whose name or email contains the search term,
      ignoring letter case, in list order. */
  function FilteredUsers(users: seq<ClientUser>, searchTerm: string): (r: seq<ClientUser>)
    ensures IsSubsequence(r, users)
    ensures forall k :: 0 <= k < |r| ==> UserMatchesSearch(searchTerm)(r[k])
    ensures forall k :: 0 <= k < |users| && UserMatchesSearch(searchTerm)(users[k]) ==> users[k] in r
  {
    FilterIsSubsequence(users, UserMatchesSearch(searchTerm));
    Filter(users, UserMatchesSearch(searchTerm))
  }

  /** An empty search term keeps every user that has a name or an email. */
  lemma EmptySearchKeepsNamedUsers(users: seq<ClientUser>)
    requires forall k :: 0 <= k < |users| ==> users[k].name.Some? || users[k].email.Some?
    ensures FilteredUsers(users, "") == users
  {
    forall k | 0 <= k < |users| ensures UserMatchesSearch("")(users[k]) {
      if users[k].name.Some? {
        ContainsEmpty(ToLower(users[k].name.value));
      } else {
        ContainsEmpty(ToLower(users[k].email.value));
      }
    }
    FilterAll(users, UserMatchesSearch(""));
  }

  function IsSelected(selectedUsers: seq<UserId>, userId: UserId): (r: bool)
    ensures r <==> exists k :: 0 <= k < |selectedUsers| && selectedUsers[k] == userId
  {
    userId in selectedUsers
  }

  function OtherId(userId: UserId): UserId -> bool {
    (id: UserId) => id != userId
  }

  /** removeUser: every occurrence of the id dropped, the others kept in order. */
  function RemoveUser(selectedUsers: seq<UserId>, userId: UserId): (r: seq<UserId>)
    ensures userId !in r
    ensures IsSubsequence(r, selectedUsers)
    ensures forall x :: x != userId ==> (x in r <==> x in selectedUsers)
  {
    FilterIsSubsequence(selectedUsers, OtherId(userId));
    Filter(selectedUsers, OtherId(userId))
  }

  /** toggleUser: a selected id is removed everywhere, an unselected one is
      appended; either way its membership flips and no other id's does. */
  function ToggleUser(selectedUsers: seq<UserId>, userId: UserId): (r: seq<UserId>)
    ensures IsSelected(r, userId) <==> !IsSelected(selectedUsers, userId)
    ensures forall x :: x != userId ==> (x in r <==> x in selectedUsers)
    ensures !IsSelected(selectedUsers, userId) ==> r == selectedUsers + [userId]
  {
    if IsSelected(selectedUsers, userId) then RemoveUser(selectedUsers, userId)
    else selectedUsers + [userId]
  }

  /** Toggling an unselected id twice gives the selection back. */
  lemma ToggleTwiceUnselected(selectedUsers: seq<UserId>, userId: UserId)
    requires !IsSelected(selectedUsers, userId)
    ensures ToggleUser(ToggleUser(selectedUsers, userId), userId) == selectedUsers
  {
    FilterAppend(selectedUsers, [userId], OtherId(userId));
    FilterAll(selectedUsers, OtherId(userId));
    assert Filter([userId], OtherId(userId)) == [];
  }

  /** Toggling a selected id twice moves it, once, to the end. */
  lemma ToggleTwiceSelected(selectedUsers: seq<UserId>, userId: UserId)
    requires IsSelected(selectedUsers, userId)
    ensures ToggleUser(ToggleUser(selectedUsers, userId), userId) == RemoveUser(selectedUsers, userId) + [userId]
  {
  }

  function SelectedIn(selectedUsers: seq<UserId>): ClientUser -> bool {
    (u: ClientUser) => u.id in selectedUsers
  }

  /** selectedUsersData: the selected users in the order of `users`. */
  function SelectedUsersData(users: seq<ClientUser>, selectedUsers: seq<UserId>): (r: seq<ClientUser>)
    ensures IsSubsequence(r, users)
    ensures forall k :: 0 <= k < |r| ==> r[k].id in selectedUsers
    ensures forall k :: 0 <= k < |users| && users[k].id in selectedUsers ==> users[k] in r
  {
    FilterIsSubsequence(users, SelectedIn(selectedUsers));
    Filter(users, SelectedIn(selectedUsers))
  }

  /** The order is that of `users`, not that of the selection. */
  lemma SelectedUsersFollowListOrder(a: ClientUser, b: ClientUser)
    requires a.id != b.id
    ensures SelectedUsersData([a, b], [b.id, a.id]) == [a, b]
  {
    var sel := [b.id, a.id];
    assert SelectedIn(sel)(a) && SelectedIn(sel)(b);
    assert [a, b][1..] == [b];
    assert [b][1..] == [];
    assert Filter([b], SelectedIn(sel)) == [b];
  }
}
