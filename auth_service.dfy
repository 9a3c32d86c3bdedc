/** The account service over the user collection: register, login, profile
    update, password change and delete. Email lookups go through the email
    field's setters, so a query for an address finds the stored normalised
    form. */
module AuthService {
  import opened Wrappers
  import opened Text
  import opened EmailPattern
  import opened Crypto
  import opened UserModel
  import opened Validation

  datatype AuthError =
    | EmailTaken            // 'User already exists with this email'
    | InvalidCredentials    // 'Invalid email or password'
    | UserNotFound          // 'User not found'
    | WrongCurrentPassword  // 'Current password is incorrect'
    | ValidationFailed      // the schema rejected the written document

  function Message(e: AuthError): string {
    match e
    case EmailTaken => "User already exists with this email"
    case InvalidCredentials => "Invalid email or password"
    case UserNotFound => "User not found"
    case WrongCurrentPassword => "Current password is incorrect"
    case ValidationFailed => "Validation failed"
  }

  const PasswordChanged := "Password changed successfully"

  /** What register and login return: the user without its password, and a
      token. */
  datatype Session = Session(user: PublicUser, token: string)

  /** `generateToken`: the signed payload `{ id, email, role }`. */
  function IssueToken(u: User, c: Primitives): string {
    c.sign(Claims(u.id, u.email, RoleName(u.role)))
  }

  function SessionFor(u: User, c: Primitives): Session {
    Session(Public(u), IssueToken(u, c))
  }

  /** The response of a session does not depend on the stored password. */
  lemma {:induction false} SessionIgnoresPassword(u: User, password: string, c: Primitives)
    ensures SessionFor(u.(password := password), c) == SessionFor(u, c)
  {
  }

  /** What a lookup matches on: the email of `findOne({ email })` or the id
      of `findById`. */
  datatype UserKey = ByEmail(email: string) | ById(id: UserId)

  predicate HasKey(u: User, key: UserKey) {
    match key
    case ByEmail(e) => u.email == e
    case ById(i) => u.id == i
  }

  /** The first user matching the key, or None when no user does. */
  function FindUser(users: seq<User>, key: UserKey): (r: Option<nat>)
    ensures r.None? <==> forall k :: 0 <= k < |users| ==> !HasKey(users[k], key)
    ensures r.Some? ==> r.value < |users| && HasKey(users[r.value], key)
    ensures r.Some? ==> forall k :: 0 <= k < r.value ==> !HasKey(users[k], key)
  {
    if |users| == 0 then None
    else if HasKey(users[0], key) then Some(0)
    else match FindUser(users[1..], key)
      case None => None
      case Some(i) => Some(i + 1)
  }

  /** `User.findOne({ email })`. */
  function FindByEmail(users: seq<User>, email: string): Option<nat> {
    FindUser(users, ByEmail(email))
  }

  /** `User.findById(id)`. */
  function FindById(users: seq<User>, id: UserId): Option<nat> {
    FindUser(users, ById(id))
  }

  predicate UniqueEmails(users: seq<User>) {
    forall j, k :: 0 <= j < k < |users| ==> users[j].email != users[k].email
  }

  predicate UniqueIds(users: seq<User>) {
    forall j, k :: 0 <= j < k < |users| ==> users[j].id != users[k].id
  }

  /** With unique emails, the lookup finds the one user with that email. */
  lemma {:induction false} FindUniqueEmail(users: seq<User>, k: nat)
    requires UniqueEmails(users) && k < |users|
    ensures FindByEmail(users, users[k].email) == Some(k)
  {
  }

  lemma {:induction false} FindUniqueId(users: seq<User>, k: nat)
    requires UniqueIds(users) && k < |users|
    ensures FindById(users, users[k].id) == Some(k)
  {
  }

  /** `User.create(userData)`: the setters (trimmed name, normalised email),
      then the validators on the plain password, then the pre-save hook,
      which hashes the newly assigned password. */
  function NewUser(id: UserId, data: SignupData, salt: Salt, c: Primitives): (r: Result<User, AuthError>)
    ensures r.Err? ==> r.error == ValidationFailed
    ensures r.Ok? <==> Present(Trim(data.name)) && IsEmailShaped(NormalizeEmail(data.email))
                       && |data.password| >= MinPasswordLength
    ensures r.Ok? ==> r.value == User(id, Trim(data.name), NormalizeEmail(data.email),
                                      c.hash(data.password, salt), data.role, data.profile)
  {
    var u := User(id, Trim(data.name), NormalizeEmail(data.email), data.password, data.role, data.profile);
    if !PassesValidation(u) then Err(ValidationFailed)
    else Ok(PreSave(Draft(u, true), salt, c).user)
  }

  /** A created user satisfies what every stored user does. */
  lemma {:induction false} NewUserStored(id: UserId, data: SignupData, salt: Salt, c: Primitives)
    requires NewUser(id, data, salt, c).Ok?
    ensures Stored(NewUser(id, data, salt, c).value)
  {
    NormalizeEmailIdempotent(data.email);
    TrimIdempotent(data.name);
  }

  /** `loginUserService`: one error for an unknown email and for a wrong
      password. */
  function Login(users: seq<User>, credentials: LoginData, c: Primitives): (r: Result<Session, AuthError>)
    ensures r.Err? ==> r.error == InvalidCredentials
    ensures var found := FindByEmail(users, NormalizeEmail(credentials.email));
      r.Ok? <==> found.Some? && ComparePassword(users[found.value], credentials.password, c)
    ensures r.Ok? ==> var u := users[FindByEmail(users, NormalizeEmail(credentials.email)).value];
      r.value == SessionFor(u, c) && r.value.token == c.sign(Claims(u.id, u.email, RoleName(u.role)))
  {
    var found := FindByEmail(users, NormalizeEmail(credentials.email));
    if found.None? then Err(InvalidCredentials)
    else if !ComparePassword(users[found.value], credentials.password, c) then Err(InvalidCredentials)
    else Ok(SessionFor(users[found.value], c))
  }

  /** The `$set` of a profile update: a given name, trimmed by its setter,
      replaces the name; a given profile replaces the whole profile. */
  function ApplyProfileUpdate(u: User, update: ProfileUpdate): (r: User)
    ensures r.id == u.id && r.email == u.email && r.password == u.password && r.role == u.role
    ensures r.name == (if update.name.Some? then Trim(update.name.value) else u.name)
    ensures r.profile == (if update.profile.Some? then update.profile else u.profile)
  {
    u.(name := if update.name.Some? then Trim(update.name.value) else u.name,
       profile := if update.profile.Some? then update.profile else u.profile)
  }

  /** An update with no keys changes nothing. */
  lemma {:induction false} EmptyUpdateChangesNothing(u: User)
    ensures ApplyProfileUpdate(u, ProfileUpdate(None, None)) == u
  {
  }

  /** The update validator: a given name must stay present after trimming. */
  predicate UpdateValid(update: ProfileUpdate) {
    update.name.Some? ==> Present(Trim(update.name.value))
  }

  /** An accepted update keeps a stored user stored. */
  lemma {:induction false} UpdateKeepsStored(u: User, update: ProfileUpdate)
    requires Stored(u) && UpdateValid(update)
    ensures Stored(ApplyProfileUpdate(u, update))
  {
  }

  /** What holds of the user store: every stored user carries the setters'
      output and passed the validators, its id was issued, and ids and emails
      are unique (the email field's unique index). */
  ghost predicate StoreValid(users: seq<User>, nextId: nat) {
    AllStored(users) && IdsBelow(users, nextId) && UniqueIds(users) && UniqueEmails(users)
  }

  ghost predicate AllStored(users: seq<User>) {
    forall k :: 0 <= k < |users| ==> Stored(users[k])
  }

  predicate IdsBelow(users: seq<User>, nextId: nat) {
    forall k :: 0 <= k < |users| ==> users[k].id < nextId
  }

  /** Appending a stored user under a fresh id and an unused email keeps the
      store valid. */
  lemma {:induction false} AppendKeepsStore(users: seq<User>, nextId: nat, u: User)
    requires StoreValid(users, nextId) && Stored(u) && u.id == nextId
    requires FindByEmail(users, u.email).None?
    ensures StoreValid(users + [u], nextId + 1)
  {
    AppendStored(users, u);
    AppendIds(users, nextId, u);
    AppendEmails(users, u);
  }

  lemma {:induction false} AppendStored(users: seq<User>, u: User)
    requires AllStored(users) && Stored(u)
    ensures AllStored(users + [u])
  {
    var after := users + [u];
    forall k | 0 <= k < |after| ensures Stored(after[k]) {
      if k < |users| { assert after[k] == users[k]; }
    }
  }

  lemma {:induction false} AppendIds(users: seq<User>, nextId: nat, u: User)
    requires IdsBelow(users, nextId) && UniqueIds(users) && u.id == nextId
    ensures IdsBelow(users + [u], nextId + 1) && UniqueIds(users + [u])
  {
    var after := users + [u];
    assert forall k :: 0 <= k < |users| ==> after[k] == users[k];
  }

  lemma {:induction false} AppendEmails(users: seq<User>, u: User)
    requires UniqueEmails(users) && forall k :: 0 <= k < |users| ==> users[k].email != u.email
    ensures UniqueEmails(users + [u])
  {
    var after := users + [u];
    assert forall k :: 0 <= k < |users| ==> after[k] == users[k];
  }

  /** Replacing a user by a stored one with the same id and email keeps the
      store valid. */
  lemma {:induction false} ReplaceKeepsStore(users: seq<User>, nextId: nat, k: nat, u: User)
    requires StoreValid(users, nextId) && k < |users| && Stored(u)
    requires u.id == users[k].id && u.email == users[k].email
    ensures StoreValid(users[k := u], nextId)
  {
    ReplaceStored(users, k, u);
    ReplaceKeys(users, nextId, k, u);
  }

  lemma {:induction false} ReplaceStored(users: seq<User>, k: nat, u: User)
    requires AllStored(users) && k < |users| && Stored(u)
    ensures AllStored(users[k := u])
  {
    var after := users[k := u];
    forall i | 0 <= i < |after| ensures Stored(after[i]) {
      if i != k { assert after[i] == users[i]; }
    }
  }

  lemma {:induction false} ReplaceKeys(users: seq<User>, nextId: nat, k: nat, u: User)
    requires IdsBelow(users, nextId) && UniqueIds(users) && UniqueEmails(users) && k < |users|
    requires u.id == users[k].id && u.email == users[k].email
    ensures IdsBelow(users[k := u], nextId) && UniqueIds(users[k := u]) && UniqueEmails(users[k := u])
  {
    var after := users[k := u];
    assert forall i :: 0 <= i < |after| ==> after[i].id == users[i].id && after[i].email == users[i].email;
  }

  /** Removing a user keeps the store valid. */
  lemma {:induction false} RemoveKeepsStore(users: seq<User>, nextId: nat, k: nat)
    requires StoreValid(users, nextId) && k < |users|
    ensures StoreValid(RemoveAt(users, k), nextId)
  {
    var after := RemoveAt(users, k);
    RemoveStored(users, k, after);
    RemoveKeys(users, nextId, k, after);
  }

  /** The users with the one at `k` removed. */
  function RemoveAt(users: seq<User>, k: nat): (r: seq<User>)
    requires k < |users|
    ensures |r| == |users| - 1
    ensures forall j :: 0 <= j < k ==> r[j] == users[j]
    ensures forall j :: k <= j < |r| ==> r[j] == users[j + 1]
  {
    users[..k] + users[k + 1..]
  }

  lemma {:induction false} RemoveStored(users: seq<User>, k: nat, after: seq<User>)
    requires AllStored(users) && k < |users| && |after| == |users| - 1
    requires forall j :: 0 <= j < k ==> after[j] == users[j]
    requires forall j :: k <= j < |after| ==> after[j] == users[j + 1]
    ensures AllStored(after)
  {
    forall j | 0 <= j < |after| ensures Stored(after[j]) {
      if j < k { assert after[j] == users[j]; } else { assert after[j] == users[j + 1]; }
    }
  }

  /** What a registration returns and leaves behind. */
  datatype Registered = Registered(response: Result<Session, AuthError>, users: seq<User>, nextId: nat)

  /** What an operation on one user returns and leaves behind. */
  datatype Changed<T> = Changed(response: Result<T, AuthError>, users: seq<User>)

  /** `registerUserService` on the store: the duplicate check on the
      normalised email, then `User.create`. Returns the response, the users
      and the next id. A registration succeeds exactly when the email is free
      and the document passes validation; it then appends one user, which the
      email now finds, and consumes one id; a refused one changes nothing. */
  function RegisterIn(users: seq<User>, nextId: nat, data: SignupData, salt: Salt, c: Primitives)
    : (r: Registered)
    ensures r.response == Err(EmailTaken) <==> FindByEmail(users, NormalizeEmail(data.email)).Some?
    ensures r.response == Err(ValidationFailed) <==>
              FindByEmail(users, NormalizeEmail(data.email)).None? && NewUser(nextId, data, salt, c).Err?
    ensures r.response.Err? ==>
              r.response.error in {EmailTaken, ValidationFailed} && r.users == users && r.nextId == nextId
    ensures r.response.Ok? ==>
              && r.users == users + [NewUser(nextId, data, salt, c).value]
              && r.response.value == SessionFor(NewUser(nextId, data, salt, c).value, c)
              && r.nextId == nextId + 1
  {
    if FindByEmail(users, NormalizeEmail(data.email)).Some? then Registered(Err(EmailTaken), users, nextId)
    else match NewUser(nextId, data, salt, c)
      case Err(e) => Registered(Err(e), users, nextId)
      case Ok(u) => Registered(Ok(SessionFor(u, c)), users + [u], nextId + 1)
  }

  /** After a registration the email finds the new user, at the end. */
  lemma {:induction false} RegisteredEmailFound(users: seq<User>, nextId: nat, data: SignupData, salt: Salt, c: Primitives)
    requires RegisterIn(users, nextId, data, salt, c).response.Ok?
    ensures var r := RegisterIn(users, nextId, data, salt, c);
      FindByEmail(r.users, NormalizeEmail(data.email)) == Some(|users|)
  {
    FindAppended(users, NewUser(nextId, data, salt, c).value, NormalizeEmail(data.email));
  }

  lemma {:induction false} RegisterKeepsStore(users: seq<User>, nextId: nat, data: SignupData, salt: Salt, c: Primitives)
    requires StoreValid(users, nextId)
    ensures StoreValid(RegisterIn(users, nextId, data, salt, c).users, RegisterIn(users, nextId, data, salt, c).nextId)
  {
    var r := RegisterIn(users, nextId, data, salt, c);
    if r.response.Ok? {
      NewUserStored(nextId, data, salt, c);
      AppendKeepsStore(users, nextId, NewUser(nextId, data, salt, c).value);
    }
  }

  /** `changePasswordService` on the users: the user must exist and the
      current password match; the new password passes the length validator
      as plain text and is hashed by the pre-save hook. On success only that
      user's password changes; on failure nothing does. */
  function ChangePasswordIn(users: seq<User>, id: UserId, change: PasswordChange, salt: Salt, c: Primitives)
    : (r: Changed<string>)
    ensures r.response == Err(UserNotFound) <==> FindById(users, id).None?
    ensures r.response == Err(WrongCurrentPassword) <==>
              FindById(users, id).Some? && !ComparePassword(users[FindById(users, id).value], change.currentPassword, c)
    ensures r.response.Ok? <==>
              && FindById(users, id).Some?
              && ComparePassword(users[FindById(users, id).value], change.currentPassword, c)
              && |change.newPassword| >= MinPasswordLength
    ensures r.response.Err? ==>
              r.response.error in {UserNotFound, WrongCurrentPassword, ValidationFailed} && r.users == users
    ensures r.response.Ok? ==> var k := FindById(users, id).value;
      && r.response.value == PasswordChanged
      && |r.users| == |users|
      && (forall j :: 0 <= j < |users| && j != k ==> r.users[j] == users[j])
      && r.users[k] == users[k].(password := c.hash(change.newPassword, salt))
  {
    var found := FindById(users, id);
    if found.None? then Changed(Err(UserNotFound), users)
    else
      var u := users[found.value];
      if !ComparePassword(u, change.currentPassword, c) then Changed(Err(WrongCurrentPassword), users)
      else if |change.newPassword| < MinPasswordLength then Changed(Err(ValidationFailed), users)
      else
        var saved := PreSave(Draft(u.(password := change.newPassword), true), salt, c);
        Changed(Ok(PasswordChanged), users[found.value := saved.user])
  }

  lemma {:induction false} ChangePasswordKeepsStore(users: seq<User>, nextId: nat, id: UserId,
                                                    change: PasswordChange, salt: Salt, c: Primitives)
    requires StoreValid(users, nextId)
    ensures StoreValid(ChangePasswordIn(users, id, change, salt, c).users, nextId)
  {
    var r := ChangePasswordIn(users, id, change, salt, c);
    if r.response.Ok? {
      var k := FindById(users, id).value;
      assert r.users == users[k := users[k].(password := c.hash(change.newPassword, salt))];
      ReplaceKeepsStore(users, nextId, k, users[k].(password := c.hash(change.newPassword, salt)));
    }
  }

  /** `updateUserProfileService` on the users: the update validators run
      first, then the lookup; on success only the given keys of that user
      change, and the user comes back without its password. */
  function UpdateProfileIn(users: seq<User>, id: UserId, update: ProfileUpdate)
    : (r: Changed<PublicUser>)
    ensures r.response == Err(ValidationFailed) <==> !UpdateValid(update)
    ensures r.response == Err(UserNotFound) <==> UpdateValid(update) && FindById(users, id).None?
    ensures r.response.Err? ==> r.users == users
    ensures r.response.Ok? ==> var k := FindById(users, id).value;
      && r.users == users[k := ApplyProfileUpdate(users[k], update)]
      && r.response.value == Public(r.users[k])
  {
    if !UpdateValid(update) then Changed(Err(ValidationFailed), users)
    else match FindById(users, id)
      case None => Changed(Err(UserNotFound), users)
      case Some(k) =>
        var u := ApplyProfileUpdate(users[k], update);
        Changed(Ok(Public(u)), users[k := u])
  }

  lemma {:induction false} UpdateProfileKeepsStore(users: seq<User>, nextId: nat, id: UserId, update: ProfileUpdate)
    requires StoreValid(users, nextId)
    ensures StoreValid(UpdateProfileIn(users, id, update).users, nextId)
  {
    var r := UpdateProfileIn(users, id, update);
    if r.response.Ok? {
      var k := FindById(users, id).value;
      assert Stored(users[k]);
      UpdateKeepsStored(users[k], update);
      ReplaceKeepsStore(users, nextId, k, ApplyProfileUpdate(users[k], update));
    }
  }

  /** `deleteUserService` on the users: the user with that id is removed and
      returned; with unique ids the id is then gone. */
  function DeleteIn(users: seq<User>, id: UserId): (r: Changed<User>)
    ensures r.response.Err? <==> FindById(users, id).None?
    ensures r.response.Err? ==> r.response.error == UserNotFound && r.users == users
    ensures r.response.Ok? ==> var k := FindById(users, id).value;
      r.response.value == users[k] && r.response.value.id == id && r.users == RemoveAt(users, k)
  {
    match FindById(users, id)
    case None => Changed(Err(UserNotFound), users)
    case Some(k) => Changed(Ok(users[k]), RemoveAt(users, k))
  }

  lemma {:induction false} DeleteRemovesId(users: seq<User>, id: UserId)
    requires UniqueIds(users)
    ensures FindById(DeleteIn(users, id).users, id).None?
  {
    var r := DeleteIn(users, id);
    if r.response.Ok? {
      var k := FindById(users, id).value;
      forall j | 0 <= j < |r.users| ensures r.users[j].id != id {
        if j < k { assert r.users[j] == users[j]; } else { assert r.users[j] == users[j + 1]; }
      }
    }
  }

  lemma {:induction false} DeleteKeepsStore(users: seq<User>, nextId: nat, id: UserId)
    requires StoreValid(users, nextId)
    ensures StoreValid(DeleteIn(users, id).users, nextId)
  {
    if FindById(users, id).Some? {
      RemoveKeepsStore(users, nextId, FindById(users, id).value);
    }
  }

  lemma {:induction false} RemoveKeys(users: seq<User>, nextId: nat, k: nat, after: seq<User>)
    requires IdsBelow(users, nextId) && UniqueIds(users) && UniqueEmails(users)
    requires k < |users| && |after| == |users| - 1
    requires forall j :: 0 <= j < k ==> after[j] == users[j]
    requires forall j :: k <= j < |after| ==> after[j] == users[j + 1]
    ensures IdsBelow(after, nextId) && UniqueIds(after) && UniqueEmails(after)
  {
    forall i, j | 0 <= i < j < |after|
      ensures after[i].id != after[j].id && after[i].email != after[j].email
    {
      var i' := if i < k then i else i + 1;
      var j' := if j < k then j else j + 1;
      assert after[i] == users[i'] && after[j] == users[j'] && i' < j';
    }
  }

  /** The user store. `nextId` stands for the id generator. */
  class UserCollection {
    var users: seq<User>
    var nextId: nat

    ghost predicate Valid()
      reads this
    {
      StoreValid(users, nextId)
    }

    constructor ()
      ensures Valid() && users == [] && nextId == 0
    {
      users := [];
      nextId := 0;
    }

    method Register(data: SignupData, salt: Salt, c: Primitives) returns (r: Result<Session, AuthError>)
      requires Valid()
      modifies this
      ensures Valid()
      ensures var out := RegisterIn(old(users), old(nextId), data, salt, c);
        r == out.response && users == out.users && nextId == out.nextId
    {
      var out := RegisterIn(users, nextId, data, salt, c);
      RegisterKeepsStore(users, nextId, data, salt, c);
      Install(out.users, out.nextId);
      r := out.response;
    }

    /** Replace the stored state by a valid one. */
    method Install(newUsers: seq<User>, newNextId: nat)
      requires StoreValid(newUsers, newNextId)
      modifies this
      ensures Valid() && users == newUsers && nextId == newNextId
    {
      users, nextId := newUsers, newNextId;
    }

    method ChangePassword(id: UserId, change: PasswordChange, salt: Salt, c: Primitives)
      returns (r: Result<string, AuthError>)
      requires Valid()
      modifies this
      ensures Valid() && nextId == old(nextId)
      ensures var out := ChangePasswordIn(old(users), id, change, salt, c);
        r == out.response && users == out.users
    {
      var out := ChangePasswordIn(users, id, change, salt, c);
      ChangePasswordKeepsStore(users, nextId, id, change, salt, c);
      Install(out.users, nextId);
      r := out.response;
    }

    method UpdateProfile(id: UserId, update: ProfileUpdate) returns (r: Result<PublicUser, AuthError>)
      requires Valid()
      modifies this
      ensures Valid() && nextId == old(nextId)
      ensures var out := UpdateProfileIn(old(users), id, update);
        r == out.response && users == out.users
    {
      var out := UpdateProfileIn(users, id, update);
      UpdateProfileKeepsStore(users, nextId, id, update);
      Install(out.users, nextId);
      r := out.response;
    }

    method Delete(id: UserId) returns (r: Result<User, AuthError>)
      requires Valid()
      modifies this
      ensures Valid() && nextId == old(nextId)
      ensures var out := DeleteIn(old(users), id);
        r == out.response && users == out.users
    {
      var out := DeleteIn(users, id);
      DeleteKeepsStore(users, nextId, id);
      Install(out.users, nextId);
      r := out.response;
    }
  }

  /** A user who just registered can log in with the same email and
      password. */
  lemma {:induction false} RegisterThenLogin(users: seq<User>, id: UserId, data: SignupData, salt: Salt, c: Primitives)
    requires Sound(c)
    requires FindByEmail(users, NormalizeEmail(data.email)).None?
    requires NewUser(id, data, salt, c).Ok?
    ensures var u := NewUser(id, data, salt, c).value;
      Login(users + [u], LoginData(data.email, data.password), c) == Ok(SessionFor(u, c))
  {
    var u := NewUser(id, data, salt, c).value;
    FindAppended(users, u, NormalizeEmail(data.email));
    assert ComparePassword(u, data.password, c);
  }

  lemma {:induction false} FindAppended(users: seq<User>, u: User, email: string)
    requires FindByEmail(users, email).None? && u.email == email
    ensures FindByEmail(users + [u], email) == Some(|users|)
    decreases |users|
  {
    if |users| > 0 {
      assert (users + [u])[1..] == users[1..] + [u];
      FindAppended(users[1..], u, email);
    }
  }

  /** After a password change the new password logs in and the old one no
      longer does, unless the hash happens to accept it too. */
  lemma {:induction false} LoginAfterPasswordChange(users: seq<User>, k: nat, newPassword: string, email: string,
                                 salt: Salt, c: Primitives)
    requires Sound(c) && UniqueEmails(users) && k < |users|
    requires NormalizeEmail(email) == users[k].email
    ensures var changed := users[k := users[k].(password := c.hash(newPassword, salt))];
      Login(changed, LoginData(email, newPassword), c).Ok?
  {
    var changed := users[k := users[k].(password := c.hash(newPassword, salt))];
    assert UniqueEmails(changed) by {
      forall i, j | 0 <= i < j < |changed| ensures changed[i].email != changed[j].email {
        assert changed[i].email == users[i].email && changed[j].email == users[j].email;
      }
    }
    FindUniqueEmail(changed, k);
  }
}
