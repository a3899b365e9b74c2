/** The handlers of backend/controllers/authController.js: registration,
    login, profile read and profile update.

    Password hashing, password comparison and token signing are external
    libraries; they enter as function parameters `hash`, `compare` and
    `sign`. A salted hash is therefore modelled as a fixed function of the
    password. */
module AuthController {
  import opened Common
  import opened UserModel

  const MissingFields := "Please include all fields"
  const UserExists := "User already exists"
  const InvalidCredentials := "Invalid credentials"

  /** The fields registration destructures from the body. The client sends
      its invite token as `adminInviteToken`; the handler reads
      `adminviteToken`, and uses neither. */
  datatype RegisterBody = RegisterBody(
    name: Option<string>,
    email: Option<string>,
    password: Option<string>,
    profileImageUrl: Option<string>,
    adminviteToken: Option<string>)

  datatype RegisterReply = RegisterReply(
    id: UserId, name: string, email: string, role: string,
    profileImageUrl: Option<string>, token: string)

  datatype LoginReply = LoginReply(id: UserId, name: string, email: string, role: string, token: string)

  datatype ProfileReply = ProfileReply(id: UserId, name: string, email: string, role: string)

  /** `User.create({ name, email, password: hashedPassword })`: only these
      three fields come from the request; role and image take their defaults. */
  function NewUser(id: UserId, name: string, email: string, password: string, hash: string -> string): (u: User)
    ensures u.id == id && u.name == name && u.email == email
    ensures u.password == hash(password)
    ensures u.role == DefaultRole && u.profileImageUrl == None
  {
    User(id, name, email, hash(password), DefaultRole, None)
  }

  /** registerUser: 400 "Please include all fields" when name, email or
      password is missing or empty; 400 "User already exists" when the
      email is stored; otherwise the new user appended under a fresh id.
      Both failures leave the store unchanged. */
  method RegisterUser(store: UserStore, body: RegisterBody, hash: string -> string, sign: UserId -> string)
    returns (r: Response<RegisterReply>)
    requires store.Valid()
    modifies store
    ensures store.Valid()
    ensures !Truthy(body.name) || !Truthy(body.email) || !Truthy(body.password) ==>
      r == Fail(400, MissingFields) && store.users == old(store.users) && store.nextId == old(store.nextId)
    ensures Truthy(body.name) && Truthy(body.email) && Truthy(body.password)
            && EmailIndex(old(store.users), body.email.value).Some? ==>
      r == Fail(400, UserExists) && store.users == old(store.users) && store.nextId == old(store.nextId)
    ensures Truthy(body.name) && Truthy(body.email) && Truthy(body.password)
            && EmailIndex(old(store.users), body.email.value).None? ==>
      var u := NewUser(old(store.nextId), body.name.value, body.email.value, body.password.value, hash);
      && store.users == old(store.users) + [u]
      && store.nextId == old(store.nextId) + 1
      && r == Ok(RegisterReply(u.id, u.name, u.email, u.role, u.profileImageUrl, sign(u.id)))
    ensures DistinctEmails(old(store.users)) ==> DistinctEmails(store.users)
  {
    if !Truthy(body.name) || !Truthy(body.email) || !Truthy(body.password) {
      return Fail(400, MissingFields);
    }
    if EmailIndex(store.users, body.email.value).Some? {
      return Fail(400, UserExists);
    }
    var u := NewUser(store.nextId, body.name.value, body.email.value, body.password.value, hash);
    store.users := store.users + [u];
    store.nextId := store.nextId + 1;
    r := Ok(RegisterReply(u.id, u.name, u.email, u.role, u.profileImageUrl, sign(u.id)));
  }

  /** loginUser: succeeds exactly when a user with that email exists and
      the password matches its stored hash; an unknown email and a wrong
      password give the same 401 reply. */
  function LoginUser(users: seq<User>, email: string, password: string,
                     compare: (string, string) -> bool, sign: UserId -> string): (r: Response<LoginReply>)
    ensures var k := EmailIndex(users, email);
      r.Ok? <==> k.Some? && compare(password, users[k.value].password)
    ensures (forall k :: 0 <= k < |users| ==> users[k].email != email) ==> r.Fail?
    ensures r.Fail? ==> r == Fail(401, InvalidCredentials)
    ensures r.Ok? ==> var u := users[EmailIndex(users, email).value];
      r.value == LoginReply(u.id, u.name, u.email, u.role, sign(u.id)) && u.email == email
  {
    match EmailIndex(users, email)
    case None => Fail(401, InvalidCredentials)
    case Some(k) =>
      if compare(password, users[k].password) then
        Ok(LoginReply(users[k].id, users[k].name, users[k].email, users[k].role, sign(users[k].id)))
      else Fail(401, InvalidCredentials)
  }

  /** A user just registered can log in with the password chosen, whenever
      `compare` accepts a password against its own hash. */
  lemma LoginAfterRegister(users: seq<User>, id: UserId, name: string, email: string, password: string,
                           hash: string -> string, compare: (string, string) -> bool, sign: UserId -> string)
    requires EmailIndex(users, email).None?
    requires compare(password, hash(password))
    ensures LoginUser(users + [NewUser(id, name, email, password, hash)], email, password, compare, sign)
            == Ok(LoginReply(id, name, email, DefaultRole, sign(id)))
  {
    var u := NewUser(id, name, email, password, hash);
    EmailIndexAppend(users, u, email);
  }

  lemma {:induction false} EmailIndexAppend(users: seq<User>, u: User, email: string)
    requires EmailIndex(users, email).None? && u.email == email
    ensures EmailIndex(users + [u], email) == Some(|users|)
  {
    if users != [] {
      assert (users + [u])[1..] == users[1..] + [u];
      EmailIndexAppend(users[1..], u, email);
    } else {
      assert users + [u] == [u];
    }
  }

  /** getUserProfile: the caller's id, name, email and role; 404 when the
      caller's record is gone. */
  function GetUserProfile(users: seq<User>, callerId: UserId): (r: Response<ProfileReply>)
    ensures r.Fail? <==> forall k :: 0 <= k < |users| ==> users[k].id != callerId
    ensures r.Fail? ==> r == Fail(404, UserNotFound)
    ensures r.Ok? ==> exists k :: 0 <= k < |users| && users[k].id == callerId
                                 && r.value == ProfileReply(users[k].id, users[k].name, users[k].email, users[k].role)
    ensures r.Ok? ==> r.value.id == callerId
  {
    match UserIndex(users, callerId)
    case None => Fail(404, UserNotFound)
    case Some(k) => Ok(ProfileReply(users[k].id, users[k].name, users[k].email, users[k].role))
  }

  /** The fields a profile update reads from the body. */
  datatype ProfileBody = ProfileBody(
    name: Option<string>,
    email: Option<string>,
    profileImageUrl: Option<string>,
    password: Option<string>)

  datatype UpdateReply = UpdateReply(id: UserId, name: string, email: string, role: string, token: string)

  /** `user.x = req.body.x || user.x` for name, email and image, and a new
      hash only when a password is sent. */
  function MergeProfile(u: User, body: ProfileBody, hash: string -> string): User {
    u.(name := OrElse(body.name, u.name),
       email := OrElse(body.email, u.email),
       profileImageUrl := if Truthy(body.profileImageUrl) then body.profileImageUrl else u.profileImageUrl,
       password := if Truthy(body.password) then hash(body.password.value) else u.password)
  }

  /** A profile update never changes id or role; each field is overwritten
      exactly when the body carries a non-empty value for it. */
  lemma MergeProfileFields(u: User, body: ProfileBody, hash: string -> string)
    ensures var m := MergeProfile(u, body, hash);
      && m.id == u.id && m.role == u.role
      && (Truthy(body.name) ==> m.name == body.name.value)
      && (!Truthy(body.name) ==> m.name == u.name)
      && (Truthy(body.email) ==> m.email == body.email.value)
      && (!Truthy(body.email) ==> m.email == u.email)
      && (Truthy(body.profileImageUrl) ==> m.profileImageUrl == body.profileImageUrl)
      && (!Truthy(body.profileImageUrl) ==> m.profileImageUrl == u.profileImageUrl)
      && (Truthy(body.password) ==> m.password == hash(body.password.value))
      && (!Truthy(body.password) ==> m.password == u.password)
  {
  }

  /** Empty strings count as absent: a body of empty values changes nothing. */
  lemma MergeProfileEmptyStrings(u: User, hash: string -> string)
    ensures MergeProfile(u, ProfileBody(Some(""), Some(""), Some(""), Some("")), hash) == u
    ensures MergeProfile(u, ProfileBody(None, None, None, None), hash) == u
  {
  }

  /** Another record than the one at position k already holds the email. */
  predicate EmailTakenByOther(users: seq<User>, k: nat, email: string) {
    exists j :: 0 <= j < |users| && j != k && users[j].email == email
  }

  /** updateUserProfile: 404 when the caller's record is gone; otherwise the
      merged record is saved in place. The unique index on `email` makes
      `user.save()` throw when the merged email is another user's, and the
      catch block answers 500 with the driver's message, which enters as
      `duplicateKeyMessage`; the store is then unchanged. */
  method UpdateUserProfile(store: UserStore, callerId: UserId, body: ProfileBody,
                           hash: string -> string, sign: UserId -> string, duplicateKeyMessage: string)
    returns (r: Response<UpdateReply>)
    requires store.Valid()
    modifies store
    ensures store.Valid() && store.nextId == old(store.nextId)
    ensures match UserIndex(old(store.users), callerId)
      case None => r == Fail(404, UserNotFound) && store.users == old(store.users)
      case Some(k) =>
        var m := MergeProfile(old(store.users)[k], body, hash);
        if EmailTakenByOther(old(store.users), k, m.email) then
          r == Fail(500, duplicateKeyMessage) && store.users == old(store.users)
        else
          store.users == old(store.users)[k := m]
          && r == Ok(UpdateReply(m.id, m.name, m.email, m.role, sign(m.id)))
    ensures DistinctEmails(old(store.users)) ==> DistinctEmails(store.users)
  {
    match UserIndex(store.users, callerId)
    case None =>
      r := Fail(404, UserNotFound);
    case Some(k) =>
      var m := MergeProfile(store.users[k], body, hash);
      if exists j :: 0 <= j < |store.users| && j != k && store.users[j].email == m.email {
        r := Fail(500, duplicateKeyMessage);
      } else {
        store.users := store.users[k := m];
        r := Ok(UpdateReply(m.id, m.name, m.email, m.role, sign(m.id)));
      }
  }

  /** Without the index check, the merge alone could give two records one
      email: the second user takes the first user's address. The save is
      what refuses it. */
  lemma MergeAloneCanDuplicateEmail(hash: string -> string)
    ensures var users := [User(0, "a", "a@x.io", "h", "member", None), User(1, "b", "b@x.io", "h", "member", None)];
      var m := MergeProfile(users[1], ProfileBody(None, Some("a@x.io"), None, None), hash);
      DistinctEmails(users) && !DistinctEmails(users[1 := m]) && EmailTakenByOther(users, 1, m.email)
  {
    var users := [User(0, "a", "a@x.io", "h", "member", None), User(1, "b", "b@x.io", "h", "member", None)];
    assert users[0].email != users[1].email by {
      assert users[0].email[0] != users[1].email[0];
    }
    var m := MergeProfile(users[1], ProfileBody(None, Some("a@x.io"), None, None), hash);
    assert users[1 := m][0].email == users[1 := m][1].email;
  }
}
