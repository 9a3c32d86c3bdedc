/** The request-body schemas, as predicates and parsers over the JSON value
    of the body. A schema accepts an object whose listed keys hold values of
    the listed kinds; unlisted keys are ignored. The library's email check is
    a parameter, `isEmail`. */
module Validation {
  import opened Wrappers
  import opened Js
  import opened UserModel

  /** The value under `key`; with a repeated key the last one counts, as in
      `JSON.parse`. */
  function Get(members: seq<(string, Json)>, key: string): (r: Option<Json>)
    ensures r.None? <==> forall k :: 0 <= k < |members| ==> members[k].0 != key
    ensures r.Some? ==> exists k :: 0 <= k < |members| && members[k] == (key, r.value)
                                  && forall j :: k < j < |members| ==> members[j].0 != key
  {
    if |members| == 0 then None
    else if members[|members| - 1].0 == key then Some(members[|members| - 1].1)
    else
      var r := Get(members[..|members| - 1], key);
      assert forall k :: 0 <= k < |members| - 1 ==> members[..|members| - 1][k] == members[k];
      r
  }

  predicate IsInteger(x: real) {
    x == x.Floor as real
  }

  /** `z.string().min(n)` on a present value. */
  predicate StringAtLeast(v: Option<Json>, n: nat) {
    v.Some? && v.value.JString? && |v.value.s| >= n
  }

  /** `z.string().optional()`: absent, or a string. */
  predicate OptionalString(v: Option<Json>) {
    v.None? || v.value.JString?
  }

  /** `z.number().positive()`. */
  predicate PositiveNumber(v: Option<Json>) {
    v.Some? && v.value.JNumber? && v.value.n > 0.0
  }

  /** Every element of the array satisfies `p`. */
  predicate AllElements(elements: seq<Json>, p: Json -> bool) {
    forall k :: 0 <= k < |elements| ==> p(elements[k])
  }

  predicate IsString(j: Json) {
    j.JString?
  }

  /** `variantValidationSchema`: non-empty `type` and `value`. */
  predicate VariantValid(j: Json) {
    j.JObject? && StringAtLeast(Get(j.members, "type"), 1) && StringAtLeast(Get(j.members, "value"), 1)
  }

  /** `inventoryValidationSchema`: an integer `quantity` of at least 0 and a
      boolean `inStock`. */
  predicate InventoryValid(j: Json) {
    && j.JObject?
    && (var q := Get(j.members, "quantity");
        q.Some? && q.value.JNumber? && IsInteger(q.value.n) && q.value.n >= 0.0)
    && (var s := Get(j.members, "inStock");
        s.Some? && s.value.JBool?)
  }

  /** `productValidationSchema`: non-empty name, description and category, a
      positive price, at least one string tag, at least one valid variant, a
      valid inventory. */
  predicate ProductPayloadValid(j: Json) {
    && j.JObject?
    && StringAtLeast(Get(j.members, "name"), 1)
    && StringAtLeast(Get(j.members, "description"), 1)
    && PositiveNumber(Get(j.members, "price"))
    && StringAtLeast(Get(j.members, "category"), 1)
    && (var tags := Get(j.members, "tags");
        tags.Some? && tags.value.JArray? && |tags.value.elements| >= 1 && AllElements(tags.value.elements, IsString))
    && (var variants := Get(j.members, "variants");
        && variants.Some? && variants.value.JArray? && |variants.value.elements| >= 1
        && AllElements(variants.value.elements, VariantValid))
    && (var inventory := Get(j.members, "inventory");
        inventory.Some? && InventoryValid(inventory.value))
  }

  /** `orderValidationSchema`: an email, a product id, a positive price and a
      positive integer quantity. */
  predicate OrderLineValid(j: Json, isEmail: string -> bool) {
    && j.JObject?
    && (var email := Get(j.members, "email");
        email.Some? && email.value.JString? && isEmail(email.value.s))
    && StringAtLeast(Get(j.members, "productId"), 1)
    && PositiveNumber(Get(j.members, "price"))
    && (var q := Get(j.members, "quantity");
        q.Some? && q.value.JNumber? && IsInteger(q.value.n) && q.value.n > 0.0)
  }

  /** `profileValidationSchema`: every field an optional string. */
  predicate ProfileValid(j: Json) {
    && j.JObject?
    && OptionalString(Get(j.members, "phone"))
    && OptionalString(Get(j.members, "address"))
    && OptionalString(Get(j.members, "city"))
    && OptionalString(Get(j.members, "country"))
  }

  function OptionalText(v: Option<Json>): Option<string> {
    if v.Some? && v.value.JString? then Some(v.value.s) else None
  }

  /** The object's member `key` holds the text `v`, or is absent when `v` is. */
  predicate CarriesText(j: Json, key: string, v: Option<string>)
    requires j.JObject?
  {
    Get(j.members, key) == if v.Some? then Some(JString(v.value)) else None
  }

  /** Each field of `p` is what the profile object carries under its key. */
  predicate ProfileOf(p: Profile, j: Json)
    requires j.JObject?
  {
    && CarriesText(j, "phone", p.phone) && CarriesText(j, "address", p.address)
    && CarriesText(j, "city", p.city) && CarriesText(j, "country", p.country)
  }

  /** The parsed profile of a valid profile object. */
  function ToProfile(j: Json): (p: Profile)
    requires ProfileValid(j)
    ensures ProfileOf(p, j)
  {
    Profile(OptionalText(Get(j.members, "phone")), OptionalText(Get(j.members, "address")),
            OptionalText(Get(j.members, "city")), OptionalText(Get(j.members, "country")))
  }

  /** `TSignup`: the parsed signup body, with the role defaulted. */
  datatype SignupData = SignupData(name: string, email: string, password: string, role: Role,
                                   profile: Option<Profile>)

  /** `TLogin`. */
  datatype LoginData = LoginData(email: string, password: string)

  /** `TUpdateProfile`: the keys the body carried. */
  datatype ProfileUpdate = ProfileUpdate(name: Option<string>, profile: Option<Profile>)

  /** `TChangePassword`. */
  datatype PasswordChange = PasswordChange(currentPassword: string, newPassword: string)

  /** `role: z.enum(['customer', 'admin']).optional().default('customer')`. */
  function ParseRoleField(v: Option<Json>): (r: Option<Role>)
    ensures v.None? ==> r == Some(DefaultRole)
    ensures v.Some? ==> (r.Some? <==> v.value.JString? && (v.value.s == "customer" || v.value.s == "admin"))
    ensures v.Some? && r.Some? ==> RoleName(r.value) == v.value.s
  {
    if v.None? then Some(DefaultRole)
    else if v.value.JString? then ParseRole(v.value.s)
    else None
  }

  /** `signupValidationSchema`: a non-empty name, an email, a password of at
      least six characters, an optional role defaulting to customer, an
      optional profile. */
  function ParseSignup(j: Json, isEmail: string -> bool): (r: Option<SignupData>)
    ensures r.Some? <==>
      && j.JObject?
      && StringAtLeast(Get(j.members, "name"), 1)
      && (var e := Get(j.members, "email"); e.Some? && e.value.JString? && isEmail(e.value.s))
      && StringAtLeast(Get(j.members, "password"), MinPasswordLength)
      && ParseRoleField(Get(j.members, "role")).Some?
      && (var p := Get(j.members, "profile"); p.None? || ProfileValid(p.value))
    ensures r.Some? ==> |r.value.name| >= 1 && |r.value.password| >= MinPasswordLength && isEmail(r.value.email)
    ensures r.Some? ==> Get(j.members, "role").None? ==> r.value.role == DefaultRole
    ensures r.Some? ==>
      && Get(j.members, "name") == Some(JString(r.value.name))
      && Get(j.members, "email") == Some(JString(r.value.email))
      && Get(j.members, "password") == Some(JString(r.value.password))
      && (Get(j.members, "role").Some? ==> Get(j.members, "role") == Some(JString(RoleName(r.value.role))))
      && (r.value.profile.Some? <==> Get(j.members, "profile").Some?)
      && (r.value.profile.Some? ==> Get(j.members, "profile").value.JObject?
                                    && ProfileOf(r.value.profile.value, Get(j.members, "profile").value))
  {
    if !j.JObject? then None
    else
      var name, email, password := Get(j.members, "name"), Get(j.members, "email"), Get(j.members, "password");
      var role, profile := ParseRoleField(Get(j.members, "role")), Get(j.members, "profile");
      if !StringAtLeast(name, 1) || !(email.Some? && email.value.JString? && isEmail(email.value.s))
         || !StringAtLeast(password, MinPasswordLength) || role.None?
         || !(profile.None? || ProfileValid(profile.value))
      then None
      else Some(SignupData(name.value.s, email.value.s, password.value.s, role.value,
                           if profile.None? then None else Some(ToProfile(profile.value))))
  }

  /** `loginValidationSchema`: an email and a non-empty password. */
  function ParseLogin(j: Json, isEmail: string -> bool): (r: Option<LoginData>)
    ensures r.Some? <==>
      && j.JObject?
      && (var e := Get(j.members, "email"); e.Some? && e.value.JString? && isEmail(e.value.s))
      && StringAtLeast(Get(j.members, "password"), 1)
    ensures r.Some? ==> isEmail(r.value.email) && |r.value.password| >= 1
    ensures r.Some? ==> Get(j.members, "email") == Some(JString(r.value.email))
                        && Get(j.members, "password") == Some(JString(r.value.password))
  {
    if !j.JObject? then None
    else
      var email, password := Get(j.members, "email"), Get(j.members, "password");
      if !(email.Some? && email.value.JString? && isEmail(email.value.s)) || !StringAtLeast(password, 1) then None
      else Some(LoginData(email.value.s, password.value.s))
  }

  /** `updateProfileValidationSchema`: a name, if given, is non-empty; a
      profile, if given, is a valid profile. */
  function ParseUpdateProfile(j: Json): (r: Option<ProfileUpdate>)
    ensures r.Some? <==>
      && j.JObject?
      && (Get(j.members, "name").None? || StringAtLeast(Get(j.members, "name"), 1))
      && (var p := Get(j.members, "profile"); p.None? || ProfileValid(p.value))
    ensures r.Some? ==> (r.value.name.Some? <==> Get(j.members, "name").Some?)
    ensures r.Some? ==> (r.value.profile.Some? <==> Get(j.members, "profile").Some?)
    ensures r.Some? && r.value.name.Some? ==> |r.value.name.value| >= 1
    ensures r.Some? && r.value.name.Some? ==> Get(j.members, "name") == Some(JString(r.value.name.value))
    ensures r.Some? && r.value.profile.Some? ==>
              Get(j.members, "profile").value.JObject?
              && ProfileOf(r.value.profile.value, Get(j.members, "profile").value)
  {
    if !j.JObject? then None
    else
      var name, profile := Get(j.members, "name"), Get(j.members, "profile");
      if !(name.None? || StringAtLeast(name, 1)) || !(profile.None? || ProfileValid(profile.value)) then None
      else Some(ProfileUpdate(if name.None? then None else Some(name.value.s),
                              if profile.None? then None else Some(ToProfile(profile.value))))
  }

  /** `changePasswordValidationSchema`: a non-empty current password and a new
      one of at least six characters. */
  function ParseChangePassword(j: Json): (r: Option<PasswordChange>)
    ensures r.Some? <==>
      j.JObject? && StringAtLeast(Get(j.members, "currentPassword"), 1)
      && StringAtLeast(Get(j.members, "newPassword"), MinPasswordLength)
    ensures r.Some? ==> |r.value.currentPassword| >= 1 && |r.value.newPassword| >= MinPasswordLength
    ensures r.Some? ==> Get(j.members, "currentPassword") == Some(JString(r.value.currentPassword))
                        && Get(j.members, "newPassword") == Some(JString(r.value.newPassword))
  {
    if !j.JObject? then None
    else
      var current, next := Get(j.members, "currentPassword"), Get(j.members, "newPassword");
      if !StringAtLeast(current, 1) || !StringAtLeast(next, MinPasswordLength) then None
      else Some(PasswordChange(current.value.s, next.value.s))
  }

  lemma {:induction false} GetAppend(ms: seq<(string, Json)>, m: (string, Json), key: string)
    ensures Get(ms + [m], key) == if m.0 == key then Some(m.1) else Get(ms, key)
  {
    assert (ms + [m])[..|ms|] == ms;
  }

  /** The signup object with the given fields and role. */
  function SignupObject(name: string, email: string, password: string, role: string): (j: Json)
    ensures j.JObject?
    ensures Get(j.members, "name") == Some(JString(name))
    ensures Get(j.members, "email") == Some(JString(email))
    ensures Get(j.members, "password") == Some(JString(password))
    ensures Get(j.members, "role") == Some(JString(role))
    ensures Get(j.members, "profile") == None
  {
    var m0 := [("name", JString(name))];
    var m1 := m0 + [("email", JString(email))];
    var m2 := m1 + [("password", JString(password))];
    var m3 := m2 + [("role", JString(role))];
    GetAppend([], ("name", JString(name)), "name");
    GetAppend([], ("name", JString(name)), "profile");
    assert [] + [("name", JString(name))] == m0;
    GetAppend(m0, ("email", JString(email)), "name");
    GetAppend(m1, ("password", JString(password)), "name");
    GetAppend(m2, ("role", JString(role)), "name");
    GetAppend(m0, ("email", JString(email)), "email");
    GetAppend(m1, ("password", JString(password)), "email");
    GetAppend(m2, ("role", JString(role)), "email");
    GetAppend(m0, ("email", JString(email)), "password");
    GetAppend(m1, ("password", JString(password)), "password");
    GetAppend(m2, ("role", JString(role)), "password");
    GetAppend(m0, ("email", JString(email)), "role");
    GetAppend(m1, ("password", JString(password)), "role");
    GetAppend(m2, ("role", JString(role)), "role");
    GetAppend(m0, ("email", JString(email)), "profile");
    GetAppend(m1, ("password", JString(password)), "profile");
    GetAppend(m2, ("role", JString(role)), "profile");
    assert "name" != "role" by { assert "name"[0] != "role"[0]; }
    JObject(m3)
  }

  /** An explicit `admin` role is accepted, and only the two enum names are. */
  lemma SignupAcceptsAdmin(name: string, email: string, password: string, isEmail: string -> bool)
    requires |name| >= 1 && isEmail(email) && |password| >= MinPasswordLength
    ensures ParseSignup(SignupObject(name, email, password, "admin"), isEmail)
              == Some(SignupData(name, email, password, Admin, None))
    ensures ParseSignup(SignupObject(name, email, password, "owner"), isEmail) == None
    ensures ParseSignup(SignupObject(name, email, password, "customer"), isEmail)
              == Some(SignupData(name, email, password, Customer, None))
  {
    assert "owner" != "customer" && "owner" != "admin" by {
      assert "owner"[0] != "customer"[0] && "owner"[0] != "admin"[0];
    }
  }

  /** The validator is stricter than the product schema on the price: 0 is a
      price the schema stores but the validator refuses. */
  lemma ZeroPriceRefused(j: Json)
    requires j.JObject? && Get(j.members, "price") == Some(JNumber(0.0))
    ensures !ProductPayloadValid(j)
  {
  }

  /** A valid order line carries the positive integral quantity and the
      non-negative price that the order item schema asks for. */
  lemma OrderLineMeetsItemSchema(j: Json, isEmail: string -> bool)
    requires OrderLineValid(j, isEmail)
    ensures var q := Get(j.members, "quantity").value.n;
      IsInteger(q) && q >= 1.0 && Get(j.members, "price").value.n >= 0.0
  {
    var q := Get(j.members, "quantity").value.n;
    assert q == q.Floor as real && q > 0.0;
    assert q.Floor >= 1;
  }
}
