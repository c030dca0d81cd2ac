/** The user handlers: list, create, update (which never succeeds), delete. */
module UserController {
  import opened Common
  import opened Collections
  import opened Models
  import opened Http
  import opened Store

  /** `getUsers`: every stored user. */
  method GetUsers(db: Database, store: StoreStatus) returns (r: Response)
    requires db.Valid()
    ensures store.Down? ==> r == Fail(500, "Server Error")
    ensures store.Up? ==>
              && r.status == 200 && r.success && r.body.Users?
              && (forall u :: u in r.body.users <==> u in db.users.Values)
              && Distinct(r.body.users)
  {
    if store.Down? {
      return Fail(500, "Server Error");
    }
    var stored := db.users;
    var ks := KeysWhere(stored, (u: User) => true);
    var users := seq(|ks|, i requires 0 <= i < |ks| => stored[ks[i]]);
    forall u | u in stored.Values
      ensures u in users
    {
      var k :| k in stored && stored[k] == u;
      var i :| 0 <= i < |ks| && ks[i] == k;
      assert users[i] == u;
    }
    forall i, j | 0 <= i < j < |users|
      ensures users[i] != users[j]
    {
      assert users[i].id == ks[i] && users[j].id == ks[j];
    }
    r := Ok(200, Users(users));
  }

  /** The fields of a create request that the handler or the schema reads. The
      handler insists on `passwordHash`, the schema stores `password`. The body
      is handed to `new User` whole, so it may also preset the post list (as id
      strings), the like total and the creation time. */
  datatype UserBody = UserBody(
    username: Option<string>,
    email: Option<string>,
    passwordHash: Option<string>,
    password: Option<string>,
    bio: Option<string>,
    profileImage: Option<string>,
    posts: Option<seq<string>>,
    totalLikesReceived: Option<int>,
    createdAt: Option<int>)

  /** Every preset post id casts to an ObjectId. */
  predicate PostsCast(b: UserBody) {
    b.posts.None? || forall i :: 0 <= i < |b.posts.value| ==> ValidId(b.posts.value[i])
  }

  predicate FieldsGiven(b: UserBody) {
    Truthy(b.username) && Truthy(b.email) && Truthy(b.passwordHash)
  }

  /** Some stored user already has this (trimmed) username or email. */
  predicate NameTaken(users: map<Id, User>, username: string, email: string) {
    exists k :: k in users && (users[k].username == username || users[k].email == email)
  }

  /** `newUser.save()` succeeds: the store is up, the preset post ids cast, the
      schema's required fields are non-empty after trimming, and neither unique
      index is hit. */
  predicate UserSaves(s: Snapshot, b: UserBody, store: StoreStatus) {
    && FieldsGiven(b) && store.Up? && PostsCast(b) && Truthy(b.password)
    && Trim(b.username.value) != "" && Trim(b.email.value) != ""
    && !NameTaken(s.users, Trim(b.username.value), Trim(b.email.value))
  }

  /** The user `new User(body)` builds for the request. */
  function UserFromBody(b: UserBody, newId: Id, now: int): User
    requires FieldsGiven(b)
  {
    NewUser(newId, b.username.value, b.email.value, b.password.GetOr(""), b.bio, b.profileImage,
            b.posts, b.totalLikesReceived, b.createdAt, now)
  }

  /** The user a successful save stores keeps the users well formed. */
  lemma SavedUserKeeps(s: Snapshot, b: UserBody, newId: Id, now: int, store: StoreStatus)
    requires Invariant(s) && ValidId(newId) && newId !in s.users && UserSaves(s, b, store)
    ensures Invariant(s.(users := s.users[newId := UserFromBody(b, newId, now)]))
  {
    AddUserKeeps(s.users, UserFromBody(b, newId, now));
  }

  /** `newId` is the id the driver gives the new document. */
  function CreateUserOutcome(s: Snapshot, b: UserBody, newId: Id, now: int, store: StoreStatus): (o: Outcome)
    requires Invariant(s) && ValidId(newId) && newId !in s.users
    ensures Invariant(o.after)
    ensures !FieldsGiven(b) ==> o == Outcome(Fail(400, "Please provide all fields"), s)
    // a failed save, whatever the reason, is a 500 that stores nothing
    ensures FieldsGiven(b) && !UserSaves(s, b, store) ==> o == Outcome(Fail(500, "Server Error"), s)
    ensures o.response.status == 201 <==> UserSaves(s, b, store)
    ensures UserSaves(s, b, store) ==>
              var u := UserFromBody(b, newId, now);
              && o.response == Ok(201, OneUser(u))
              && o.after == s.(users := s.users[newId := u])
  {
    if !FieldsGiven(b) then Outcome(Fail(400, "Please provide all fields"), s)
    else if !UserSaves(s, b, store) then Outcome(Fail(500, "Server Error"), s)
    else
      var u := UserFromBody(b, newId, now);
      SavedUserKeeps(s, b, newId, now, store);
      Outcome(Ok(201, OneUser(u)), s.(users := s.users[newId := u]))
  }

  /** A request that names an existing user's username or email, up to white
      space at either end, is refused. */
  lemma DuplicateRefused(s: Snapshot, b: UserBody, newId: Id, now: int, store: StoreStatus, k: Id)
    requires Invariant(s) && ValidId(newId) && newId !in s.users && FieldsGiven(b) && k in s.users
    requires s.users[k].username == Trim(b.username.value) || s.users[k].email == Trim(b.email.value)
    ensures CreateUserOutcome(s, b, newId, now, store) == Outcome(Fail(500, "Server Error"), s)
  {
  }

  /** A request with `passwordHash` but no `password` passes the handler's
      check and fails in the schema. */
  lemma PasswordHashAlone(s: Snapshot, b: UserBody, newId: Id, now: int, store: StoreStatus)
    requires Invariant(s) && ValidId(newId) && newId !in s.users && FieldsGiven(b) && b.password.None?
    ensures CreateUserOutcome(s, b, newId, now, store).response == Fail(500, "Server Error")
  {
  }

  /** A new user is stored under trimmed names; a body that presets none of
      `posts`, `totalLikesReceived` and `createdAt` gives a clean record. */
  lemma CreatedUserFresh(s: Snapshot, b: UserBody, newId: Id, now: int, store: StoreStatus)
    requires Invariant(s) && ValidId(newId) && newId !in s.users && UserSaves(s, b, store)
    ensures var u := CreateUserOutcome(s, b, newId, now, store).after.users[newId];
            && u.username == Trim(b.username.value) && Trim(u.username) == u.username
            && u.email == Trim(b.email.value) && Trim(u.email) == u.email
            && (b.posts.None? && b.totalLikesReceived.None? && b.createdAt.None? ==>
                  u.posts == [] && u.totalLikesReceived == 0 && u.createdAt == now)
  {
    TrimIdempotent(b.username.value);
    TrimIdempotent(b.email.value);
  }

  /** Mass assignment: whatever counters the body presets are stored as given,
      a negative like total included. */
  lemma PresetCountersStored(s: Snapshot, b: UserBody, newId: Id, now: int, store: StoreStatus)
    requires Invariant(s) && ValidId(newId) && newId !in s.users && UserSaves(s, b, store)
    ensures var u := CreateUserOutcome(s, b, newId, now, store).after.users[newId];
            && (b.posts.Some? ==> u.posts == b.posts.value)
            && (b.totalLikesReceived.Some? ==> u.totalLikesReceived == b.totalLikesReceived.value)
            && (b.createdAt.Some? ==> u.createdAt == b.createdAt.value)
  {
  }

  /** A preset post id that is not an ObjectId makes the save fail. */
  lemma BadPresetPostRefused(s: Snapshot, b: UserBody, newId: Id, now: int, store: StoreStatus, i: nat)
    requires Invariant(s) && ValidId(newId) && newId !in s.users && FieldsGiven(b)
    requires b.posts.Some? && i < |b.posts.value| && !ValidId(b.posts.value[i])
    ensures CreateUserOutcome(s, b, newId, now, store) == Outcome(Fail(500, "Server Error"), s)
  {
  }

  /** `createUser`. */
  method CreateUser(db: Database, b: UserBody, newId: Id, now: int, store: StoreStatus) returns (r: Response)
    requires db.Valid() && ValidId(newId) && newId !in db.users
    modifies db
    ensures db.Valid()
    ensures Outcome(r, db.State()) == CreateUserOutcome(old(db.State()), b, newId, now, store)
  {
    ghost var o := CreateUserOutcome(db.State(), b, newId, now, store);
    if !Truthy(b.username) || !Truthy(b.email) || !Truthy(b.passwordHash) {
      return Fail(400, "Please provide all fields");
    }
    var newUser := NewUser(newId, b.username.value, b.email.value, b.password.GetOr(""), b.bio, b.profileImage,
                           b.posts, b.totalLikesReceived, b.createdAt, now);
    assert newUser == UserFromBody(b, newId, now);
    assert newUser.username == Trim(b.username.value) && newUser.email == Trim(b.email.value);
    if store.Down? || !PostsCast(b) || newUser.password == "" || newUser.username == "" || newUser.email == ""
       || NameTaken(db.users, newUser.username, newUser.email) {
      assert !UserSaves(db.State(), b, store);
      return Fail(500, "Server Error");
    }
    assert UserSaves(db.State(), b, store);
    SavedUserKeeps(db.State(), b, newId, now, store);
    db.users := db.users[newId := newUser];
    r := Ok(201, OneUser(newUser));
  }

  /** `updateUser` as it stands: a well-formed id is answered "Invalid Product
      ID", and with any other id the store lookup throws. Nothing is written. */
  method UpdateUser(id: string) returns (r: Response)
    ensures ValidId(id) ==> r == Fail(404, "Invalid Product ID")
    ensures !ValidId(id) ==> r == Fail(500, "Server Error")
    ensures !r.success
  {
    if ValidId(id) {
      return Fail(404, "Invalid Product ID");
    }
    r := Fail(500, "Server Error");
  }

  /** `findByIdAndDelete` with an id that casts and a live store removes the
      user if there is one; anything else throws. */
  function DeleteUserOutcome(s: Snapshot, id: string, store: StoreStatus): (o: Outcome)
    requires Invariant(s)
    ensures Invariant(o.after)
    ensures !(ValidId(id) && store.Up?) ==> o == Outcome(Fail(500, "Server Error"), s)
    // a missing user is reported deleted as well
    ensures ValidId(id) && store.Up? ==> o == Outcome(Done("User deleted"), s.(users := s.users - {id}))
  {
    if ValidId(id) && store.Up? then Outcome(Done("User deleted"), s.(users := s.users - {id}))
    else Outcome(Fail(500, "Server Error"), s)
  }

  /** Deleting a user leaves their posts and comments behind: the posts keep an
      author id that no longer names a user. */
  lemma DeleteUserOrphansPosts(s: Snapshot, id: Id, store: StoreStatus)
    requires Invariant(s) && store.Up? && ValidId(id)
    ensures var after := DeleteUserOutcome(s, id, store).after;
            && after.posts == s.posts && after.comments == s.comments
            && id !in after.users
            && forall k :: k in after.posts && after.posts[k].userId == id ==> after.posts[k].userId !in after.users
  {
  }

  /** `deleteUser`. */
  method DeleteUser(db: Database, id: string, store: StoreStatus) returns (r: Response)
    requires db.Valid()
    modifies db
    ensures db.Valid()
    ensures Outcome(r, db.State()) == DeleteUserOutcome(old(db.State()), id, store)
  {
    if !ValidId(id) || store.Down? {
      return Fail(500, "Server Error");
    }
    db.users := db.users - {id};
    r := Done("User deleted");
  }
}
