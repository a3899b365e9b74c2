/** The handlers of backend/controllers/userController.js: the user list
    with per-user task counts, the single-user read and deletion. */
module UserController {
  import opened Common
  import opened UserModel
  import opened TaskController

  /** A listed user: the password-free document plus three task counts. */
  datatype UserWithCounts = UserWithCounts(
    user: PublicUser, pendingTasks: nat, inProgressTasks: nat, completedTasks: nat)

  /** `Task.countDocuments({ assignedTo: id, status: s })`: the array contains id. */
  function AssignedWithStatus(id: UserId, st: string): Task -> bool {
    (t: Task) => id in t.assignedTo && t.status == st
  }

  function WithCounts(u: User, tasks: seq<Task>): UserWithCounts {
    UserWithCounts(Public(u),
                   Count(tasks, AssignedWithStatus(u.id, "pending")),
                   Count(tasks, AssignedWithStatus(u.id, "in-progress")),
                   Count(tasks, AssignedWithStatus(u.id, "completed")))
  }

  /** getUsers: one entry per stored user, in store order, without the password. */
  function GetUsers(users: seq<User>, tasks: seq<Task>): (r: seq<UserWithCounts>)
    ensures |r| == |users|
    ensures forall k :: 0 <= k < |users| ==> r[k].user == Public(users[k])
    ensures forall k :: 0 <= k < |users| ==>
      && r[k].pendingTasks == Count(tasks, AssignedWithStatus(users[k].id, "pending"))
      && r[k].inProgressTasks == Count(tasks, AssignedWithStatus(users[k].id, "in-progress"))
      && r[k].completedTasks == Count(tasks, AssignedWithStatus(users[k].id, "completed"))
  {
    if users == [] then [] else [WithCounts(users[0], tasks)] + GetUsers(users[1..], tasks)
  }

  /** A user's three counts add up to at most the number of tasks assigned
      to them. */
  lemma UserCountsWithinAssigned(u: User, tasks: seq<Task>)
    ensures var c := WithCounts(u, tasks);
      c.pendingTasks + c.inProgressTasks + c.completedTasks <= Count(tasks, AssignedTo(u.id))
  {
    CountThreeWithin(tasks, AssignedWithStatus(u.id, "pending"), AssignedWithStatus(u.id, "in-progress"),
                     AssignedWithStatus(u.id, "completed"), AssignedTo(u.id));
  }

  /** The counts of a user agree with the user dashboard's counts for the same
      user: both count the tasks whose assignees include them. */
  lemma UserCountsMatchUserDashboard(u: User, tasks: seq<Task>, today: int, tomorrow: int)
    ensures var c := WithCounts(u, tasks);
      var d := GetUserDashboardData(tasks, u.id, today, tomorrow);
      c.pendingTasks == d.pendingTasks && c.inProgressTasks == d.inProgressTasks
      && c.completedTasks == d.completedTasks
  {
    FilterThenCount(tasks, u.id, "pending");
    FilterThenCount(tasks, u.id, "in-progress");
    FilterThenCount(tasks, u.id, "completed");
  }

  lemma {:induction false} FilterThenCount(tasks: seq<Task>, id: UserId, st: string)
    ensures Count(Filter(tasks, AssignedTo(id)), HasStatus(st)) == Count(tasks, AssignedWithStatus(id, st))
  {
    if tasks != [] {
      FilterThenCount(tasks[1..], id, st);
      var f := Filter(tasks, AssignedTo(id));
      assert f == (if AssignedTo(id)(tasks[0]) then [tasks[0]] else []) + Filter(tasks[1..], AssignedTo(id));
      FilterAppend(if AssignedTo(id)(tasks[0]) then [tasks[0]] else [], Filter(tasks[1..], AssignedTo(id)), HasStatus(st));
      assert [tasks[0]][1..] == [];
    }
  }

  /** getUsersById: the password-free user, or 404 "User not found". */
  function GetUsersById(users: seq<User>, id: UserId): (r: Response<PublicUser>)
    ensures r.Fail? <==> forall k :: 0 <= k < |users| ==> users[k].id != id
    ensures r.Fail? ==> r == Fail(404, UserNotFound)
    ensures r.Ok? ==> r.value.id == id && exists k :: 0 <= k < |users| && r.value == Public(users[k])
  {
    match UserIndex(users, id)
    case None => Fail(404, UserNotFound)
    case Some(k) => Ok(Public(users[k]))
  }

  /** deleteUser: 404 "User not found" for an unknown id, otherwise exactly
      that user removed. Tasks are not touched, so assignee lists may keep
      the removed id. */
  method DeleteUser(store: UserStore, id: UserId) returns (r: Response<string>)
    requires store.Valid()
    modifies store
    ensures store.Valid() && store.nextId == old(store.nextId)
    ensures match UserIndex(old(store.users), id)
      case None => r == Fail(404, UserNotFound) && store.users == old(store.users)
      case Some(k) => r == Ok("User removed") && store.users == RemoveAt(old(store.users), k)
    ensures forall k :: 0 <= k < |store.users| ==> store.users[k].id != id
  {
    match UserIndex(store.users, id)
    case None =>
      r := Fail(404, UserNotFound);
    case Some(k) =>
      store.users := RemoveAt(store.users, k);
      r := Ok("User removed");
  }

  /** After a deletion the removed id is listed by neither getUsers nor
      getUsersById. */
  lemma DeletedUserIsGone(users: seq<User>, tasks: seq<Task>, id: UserId)
    requires DistinctUserIds(users)
    requires UserIndex(users, id).Some?
    ensures var users' := RemoveAt(users, UserIndex(users, id).value);
      && GetUsersById(users', id) == Fail(404, UserNotFound)
      && (forall k :: 0 <= k < |GetUsers(users', tasks)| ==> GetUsers(users', tasks)[k].user.id != id)
  {
    var i := UserIndex(users, id).value;
    var users' := RemoveAt(users, i);
    forall k | 0 <= k < |users'| ensures users'[k].id != id {
      if k >= i {
        assert users'[k] == users[k + 1];
        assert users[i].id != users[k + 1].id;
      }
    }
  }
}
