/** frontend/Task-manager/src/context/Usercontext.jsx: the session shared by
    every page. The signed-in user, the loading flag, the last error and the
    browser's localStorage are the fields of a `Session`. A user object is a
    JSON object, here a map from field names to values; the stored 'user'
    entry holds such an object in its JSON form, the 'token' entry a string.
    The profile request is a network call, so its outcome is a parameter of
    `FetchUser`. */
module UserContext {
  import opened Common

  /** A JSON user object: field name to value. */
  type UserData = map<string, string>

  /** A localStorage entry: plain text, or a user object written with
      `JSON.stringify`. */
  datatype Stored = Text(text: string) | UserJson(obj: UserData)

  const TokenKey := "token"
  const UserKey := "user"
  const FetchFailed := "Failed to fetch user profile"

  /** `localStorage.getItem('token')` is truthy: present and not the empty
      string (a serialized object is never empty). */
  predicate HasToken(storage: map<string, Stored>) {
    TokenKey in storage && storage[TokenKey] != Text("")
  }

  /** `user.role`, absent when the object has no `role` field. */
  function RoleOf(u: UserData): Option<string> {
    if "role" in u then Some(u["role"]) else None
  }

  /** `{ ...prev, ...data }`: every field of `data` with its new value, every
      other field of `prev` as it was, and nothing else. */
  function Merge(prev: UserData, data: UserData): (r: UserData)
    ensures r.Keys == prev.Keys + data.Keys
    ensures forall k :: k in data ==> r[k] == data[k]
    ensures forall k :: k in prev && k !in data ==> r[k] == prev[k]
  {
    prev + data
  }

  /** Merging the same fields twice changes nothing more, and merging
      nothing is the identity. */
  lemma MergeIdempotent(prev: UserData, data: UserData)
    ensures Merge(Merge(prev, data), data) == Merge(prev, data)
    ensures Merge(prev, map[]) == prev
  {
    assert Merge(Merge(prev, data), data).Keys == Merge(prev, data).Keys;
    assert Merge(prev, map[]).Keys == prev.Keys;
  }

  /** The outcome of the profile request. */
  datatype ProfileReply = Profile(data: UserData) | Failure(status: Option<nat>, message: Option<string>)

  class Session {
    var user: Option<UserData>
    var loading: bool
    var error: Option<string>
    var storage: map<string, Stored>

    /** The provider as it mounts: no user, loading, no error, and whatever
        the browser has stored. */
    constructor (stored: map<string, Stored>)
      ensures user.None? && loading && error.None? && storage == stored
    {
      user := None;
      loading := true;
      error := None;
      storage := stored;
    }

    /** isAuthenticated: a user is set and a token is stored. */
    predicate IsAuthenticated()
      reads this
      ensures IsAuthenticated() ==> user.Some? && TokenKey in storage && storage[TokenKey] != Text("")
    {
      user.Some? && HasToken(storage)
    }

    /** isAdmin: the user's role is exactly 'admin'. */
    predicate IsAdmin()
      reads this
      ensures IsAdmin() ==> user.Some? && "role" in user.value && user.value["role"] == "admin"
    {
      user.Some? && RoleOf(user.value) == Some("admin")
    }

    /** fetchUser: without a stored token nothing is requested and only
        loading ends. Otherwise the profile becomes the user; a failure
        clears the user, records the server's message or a fixed one, and
        a 401 also removes the token and the stored user. */
    method FetchUser(reply: ProfileReply)
      modifies this
      ensures !loading
      ensures !HasToken(old(storage)) ==> user == old(user) && error == old(error) && storage == old(storage)
      ensures HasToken(old(storage)) && reply.Profile? ==>
        user == Some(reply.data) && error.None? && storage == old(storage)
      ensures HasToken(old(storage)) && reply.Failure? ==>
        user.None? && error == Some(OrElse(reply.message, FetchFailed))
      ensures HasToken(old(storage)) && reply.Failure? && reply.status == Some(401) ==>
        storage == old(storage) - {TokenKey, UserKey}
      ensures HasToken(old(storage)) && reply.Failure? && reply.status != Some(401) ==>
        storage == old(storage)
    {
      if !HasToken(storage) {
        loading := false;
        return;
      }
      match reply {
        case Profile(data) =>
          user := Some(data);
          error := None;
        case Failure(status, message) =>
          error := Some(OrElse(message, FetchFailed));
          user := None;
          if status == Some(401) {
            storage := storage - {TokenKey, UserKey};
          }
      }
      loading := false;
    }

    /** updateUser: the fields are merged over the current user (over an
        empty object when there is none), and over the stored user only
        when one is stored. */
    method UpdateUser(data: UserData)
      modifies this
      ensures user == Some(Merge(old(user).GetOr(map[]), data))
      ensures UserKey in old(storage) && old(storage)[UserKey].UserJson? ==>
        storage == old(storage)[UserKey := UserJson(Merge(old(storage)[UserKey].obj, data))]
      ensures !(UserKey in old(storage) && old(storage)[UserKey].UserJson?) ==> storage == old(storage)
      ensures loading == old(loading) && error == old(error)
    {
      user := Some(Merge(user.GetOr(map[]), data));
      if UserKey in storage && storage[UserKey].UserJson? {
        var parsed := storage[UserKey].obj;
        storage := storage[UserKey := UserJson(Merge(parsed, data))];
      }
    }

    /** login: token and user are stored, the user is set, the error cleared. */
    method Login(token: string, data: UserData)
      modifies this
      ensures storage == old(storage)[TokenKey := Text(token)][UserKey := UserJson(data)]
      ensures user == Some(data) && error.None? && loading == old(loading)
      ensures IsAuthenticated() <==> token != ""
      ensures IsAdmin() <==> RoleOf(data) == Some("admin")
    {
      storage := storage[TokenKey := Text(token)][UserKey := UserJson(data)];
      user := Some(data);
      error := None;
    }

    /** logout: both entries are removed, user and error are cleared. */
    method Logout()
      modifies this
      ensures storage == old(storage) - {TokenKey, UserKey}
      ensures user.None? && error.None? && loading == old(loading)
      ensures !IsAuthenticated() && !IsAdmin()
    {
      storage := storage - {TokenKey, UserKey};
      user := None;
      error := None;
    }

    /** clearError: only the error goes. */
    method ClearError()
      modifies this
      ensures error.None?
      ensures user == old(user) && loading == old(loading) && storage == old(storage)
    {
      error := None;
    }
  }

  /** Signing in and then updating the name keeps the session signed in
      with the same role, and the stored copy follows the new name. */
  method LoginThenRename(token: string, data: UserData, name: string) returns (s: Session)
    requires token != ""
    ensures s.IsAuthenticated()
    ensures s.IsAdmin() <==> RoleOf(data) == Some("admin")
    ensures s.user == Some(data["name" := name])
    ensures UserKey in s.storage && s.storage[UserKey] == UserJson(data["name" := name])
  {
    s := new Session(map[]);
    s.Login(token, data);
    s.UpdateUser(map["name" := name]);
    assert Merge(data, map["name" := name]) == data["name" := name];
    assert s.storage[TokenKey] == Text(token);
  }

  /** A rejected token on a fresh page leaves nobody signed in and nothing
      stored under either key, whatever the store held before. */
  method ExpiredToken(stored: map<string, Stored>) returns (s: Session)
    requires HasToken(stored)
    ensures !s.IsAuthenticated() && !s.loading && s.user.None?
    ensures TokenKey !in s.storage && UserKey !in s.storage
  {
    s := new Session(stored);
    s.FetchUser(Failure(Some(401), None));
  }
}
