/** The user document: its shape, the setters and validators of its schema,
    the hash-before-save hook and `comparePassword`. */
module UserModel {
  import opened Wrappers
  import opened Text
  import opened EmailPattern
  import opened Crypto

  type UserId = nat

  datatype Role = Customer | Admin

  function RoleName(r: Role): string {
    match r
    case Customer => "customer"
    case Admin => "admin"
  }

  /** Membership in the role enum. */
  function ParseRole(s: string): (r: Option<Role>)
    ensures r.Some? <==> s == "customer" || s == "admin"
    ensures r.Some? ==> RoleName(r.value) == s
  {
    if s == "customer" then Some(Customer)
    else if s == "admin" then Some(Admin)
    else None
  }

  lemma ParseRoleName(r: Role)
    ensures ParseRole(RoleName(r)) == Some(r)
  {
  }

  /** The role a user gets when none is given. */
  const DefaultRole: Role := Customer

  datatype Profile = Profile(
    phone: Option<string>,
    address: Option<string>,
    city: Option<string>,
    country: Option<string>)

  /** A stored user; `password` holds the hash once the document is saved. */
  datatype User = User(
    id: UserId,
    name: string,
    email: string,
    password: string,
    role: Role,
    profile: Option<Profile>)

  /** A user as responses carry it: there is no password field. */
  datatype PublicUser = PublicUser(
    id: UserId,
    name: string,
    email: string,
    role: Role,
    profile: Option<Profile>)

  function Public(u: User): PublicUser {
    PublicUser(u.id, u.name, u.email, u.role, u.profile)
  }

  const MinPasswordLength: nat := 6

  /** The email field's setters: lower-case and trim. */
  function NormalizeEmail(email: string): string {
    Trim(Lower(email))
  }

  /** A normalised email is a fixed point of normalisation, and the order of
      the two setters does not matter. */
  lemma NormalizeEmailIdempotent(email: string)
    ensures NormalizeEmail(NormalizeEmail(email)) == NormalizeEmail(email)
    ensures NormalizeEmail(email) == Lower(Trim(email))
  {
    LowerTrimCommute(email);
    var n := NormalizeEmail(email);
    LowerTrimCommute(Lower(email));
    LowerIdempotent(email);
    assert Lower(n) == Trim(Lower(Lower(email)));
    TrimIdempotent(Lower(email));
  }

  /** The schema validators on a document about to be saved, while the
      password is still the plain text: name and email present, email of the
      required shape, password at least six characters. */
  predicate PassesValidation(u: User) {
    && Present(u.name)
    && IsEmailShaped(u.email)
    && |u.password| >= MinPasswordLength
  }

  predicate Present(s: string) {
    s != []
  }

  /** What holds of every stored user: the setters' output (trimmed name,
      normalised email) and the validators other than the password length,
      which applies to the plain text before hashing. */
  ghost predicate Stored(u: User) {
    && Present(u.name) && IsTrimmed(u.name)
    && Matches(u.email) && NormalizeEmail(u.email) == u.email
  }

  /** A document in memory, with Mongoose's record of whether the password
      path was assigned since the last save. */
  datatype Draft = Draft(user: User, passwordModified: bool)

  /** The pre-save hook: hash the password only if it was modified. */
  function PreSave(d: Draft, salt: Salt, c: Primitives): (r: Draft)
    ensures !r.passwordModified
    ensures r.user.(password := d.user.password) == d.user
  {
    if !d.passwordModified then d
    else Draft(d.user.(password := c.hash(d.user.password, salt)), false)
  }

  /** Saving again without assigning the password does not hash it twice. */
  lemma PreSaveHashesOnce(d: Draft, salt1: Salt, salt2: Salt, c: Primitives)
    ensures PreSave(PreSave(d, salt1, c), salt2, c) == PreSave(d, salt1, c)
  {
  }

  /** `comparePassword`: the candidate matches the stored hash. */
  predicate ComparePassword(u: User, candidate: string, c: Primitives) {
    c.compare(candidate, u.password)
  }

  /** After a save that hashed an assigned password, that password matches. */
  lemma HashedPasswordMatches(d: Draft, salt: Salt, c: Primitives)
    requires Sound(c) && d.passwordModified
    ensures ComparePassword(PreSave(d, salt, c).user, d.user.password, c)
  {
  }
}
