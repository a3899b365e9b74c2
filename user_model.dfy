/** The user collection shared by the authentication and user-management
    handlers: the stored user document, its password-free projection and
    the store object the handlers write to.

    The user schema file is not part of this model; the stored role
    defaults to "member" and `profileImageUrl` to null, an assumption. */
module UserModel {
  import opened Common

  /** A stored user document; `password` holds the hash. */
  datatype User = User(
    id: UserId,
    name: string,
    email: string,
    password: string,
    role: string,
    profileImageUrl: Option<string>)

  /** A user document read with `.select("-password")`. */
  datatype PublicUser = PublicUser(
    id: UserId,
    name: string,
    email: string,
    role: string,
    profileImageUrl: Option<string>)

  const DefaultRole := "member"
  const UserNotFound := "User not found"

  /** The password-free projection keeps every other field. */
  function Public(u: User): (p: PublicUser)
    ensures p.id == u.id && p.name == u.name && p.email == u.email
    ensures p.role == u.role && p.profileImageUrl == u.profileImageUrl
  {
    PublicUser(u.id, u.name, u.email, u.role, u.profileImageUrl)
  }

  /** `User.findById(id)`: the position of the user with that id. */
  function UserIndex(users: seq<User>, id: UserId): (r: Option<nat>)
    ensures r.Some? ==> r.value < |users| && users[r.value].id == id
                        && forall k :: 0 <= k < r.value ==> users[k].id != id
    ensures r.None? ==> forall k :: 0 <= k < |users| ==> users[k].id != id
  {
    FindFirst(users, (u: User) => u.id == id)
  }

  /** `User.findOne({ email })`: the position of the first user with that email. */
  function EmailIndex(users: seq<User>, email: string): (r: Option<nat>)
    ensures r.Some? ==> r.value < |users| && users[r.value].email == email
                        && forall k :: 0 <= k < r.value ==> users[k].email != email
    ensures r.None? ==> forall k :: 0 <= k < |users| ==> users[k].email != email
  {
    FindFirst(users, (u: User) => u.email == email)
  }

  ghost predicate DistinctUserIds(users: seq<User>) {
    forall i, j :: 0 <= i < j < |users| ==> users[i].id != users[j].id
  }

  ghost predicate DistinctEmails(users: seq<User>) {
    forall i, j :: 0 <= i < j < |users| ==> users[i].email != users[j].email
  }

  /** The user collection. Ids are distinct and below `nextId`. */
  class UserStore {
    var users: seq<User>
    var nextId: UserId

    ghost predicate Valid()
      reads this
    {
      DistinctUserIds(users) && forall k :: 0 <= k < |users| ==> users[k].id < nextId
    }

    constructor ()
      ensures Valid() && users == []
    {
      users := [];
      nextId := 0;
    }
  }
}
