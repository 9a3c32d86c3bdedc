/** The authorization gates in front of the routes: bearer-token extraction,
    `protect`, `restrictTo`, `adminOnly` and `optionalAuth`. A request leaves
    a gate in exactly one of three ways: a 401, a 403, or on to the next
    handler. */
module AuthMiddleware {
  import opened Wrappers
  import opened Text
  import opened Crypto
  import opened UserModel
  import opened AuthService

  const NoTokenMessage := "Not authorized to access this route. Please login."
  const InvalidTokenMessage := "Invalid token. Please login again."
  const UserNotFoundMessage := "User not found"
  const NotAuthorizedMessage := "Not authorized to access this route"
  const NoPermissionMessage := "You do not have permission to perform this action"
  const AdminRequiredMessage := "Access denied. Admin privileges required"

  /** A 401, a 403, or a call to `next`. */
  datatype Outcome = Unauthorized(message: string) | Forbidden(message: string) | Next

  /** The token in an `Authorization` header: the header must start with
      `Bearer` (no space required), and the token is the second
      space-separated field, which must be non-empty. */
  function ExtractToken(header: Option<string>): (t: Option<string>)
    ensures t.Some? ==> header.Some? && StartsWith(header.value, "Bearer")
    ensures t.Some? ==> t.value != [] && ' ' !in t.value
    ensures t.Some? ==> |Split(header.value, ' ')| >= 2 && t.value == Split(header.value, ' ')[1]
    ensures (&& header.Some? && StartsWith(header.value, "Bearer")
             && |Split(header.value, ' ')| >= 2 && Split(header.value, ' ')[1] != []) ==> t.Some?
  {
    if header.None? || !StartsWith(header.value, "Bearer") then None
    else
      var fields := Split(header.value, ' ');
      if |fields| >= 2 && fields[1] != [] then Some(fields[1]) else None
  }

  lemma {:induction false} StartsWithBearer(rest: string)
    ensures StartsWith("Bearer" + rest, "Bearer")
  {
    assert ("Bearer" + rest)[..6] == "Bearer";
  }

  /** `Bearer <token>` yields the token, whatever space-separated fields
      follow it. */
  lemma {:induction false} BearerRoundTrip(token: string, more: seq<string>)
    requires token != [] && ' ' !in token
    requires forall k :: 0 <= k < |more| ==> ' ' !in more[k]
    ensures ExtractToken(Some("Bearer " + Join([token] + more, ' '))) == Some(token)
  {
    var tail := Join([token] + more, ' ');
    var header := "Bearer " + tail;
    assert header == "Bearer" + [' '] + tail;
    StartsWithBearer([' '] + tail);
    SplitConcat("Bearer", ' ', tail);
    SplitWithoutSeparator("Bearer", ' ');
    assert forall k :: 0 <= k < |[token] + more| ==> ' ' !in ([token] + more)[k] by {
      forall k | 0 <= k < |[token] + more| ensures ' ' !in ([token] + more)[k] {
        if k > 0 { assert ([token] + more)[k] == more[k - 1]; }
      }
    }
    SplitJoin([token] + more, ' ');
    assert Split(header, ' ') == ["Bearer", token] + more;
  }

  /** No header, or `Bearer` alone: no token. */
  lemma {:induction false} NoHeaderNoToken()
    ensures ExtractToken(None) == None
    ensures ExtractToken(Some("Bearer")) == None
  {
    SplitWithoutSeparator("Bearer", ' ');
    StartsWithBearer([]);
    assert "Bearer" + [] == "Bearer";
  }

  /** Two spaces after `Bearer` leave an empty second field: no token. */
  lemma {:induction false} DoubleSpaceNoToken(rest: string)
    ensures ExtractToken(Some("Bearer  " + rest)) == None
  {
    var header := "Bearer  " + rest;
    assert header == "Bearer" + [' '] + ([] + [' '] + rest);
    SplitConcat("Bearer", ' ', [] + [' '] + rest);
    SplitConcat([], ' ', rest);
    SplitWithoutSeparator("Bearer", ' ');
    assert Split([], ' ') == [[]];
    assert Split(header, ' ')[1] == [];
  }

  /** The prefix test does not ask for the space: `Bearerfoo <token>` is
      accepted as well. */
  lemma {:induction false} PrefixWithoutSpaceAccepted(token: string)
    requires token != [] && ' ' !in token
    ensures ExtractToken(Some("Bearerfoo " + token)) == Some(token)
  {
    var header := "Bearerfoo " + token;
    assert header == "Bearer" + ("foo " + token);
    StartsWithBearer("foo " + token);
    assert header == "Bearerfoo" + [' '] + token;
    SplitConcat("Bearerfoo", ' ', token);
    SplitWithoutSeparator("Bearerfoo", ' ');
    SplitWithoutSeparator(token, ' ');
  }

  /** What a gate decides and the user it attaches (`select('-password')`:
      the user without its password). */
  datatype Decision = Decision(outcome: Outcome, user: Option<PublicUser>)

  /** `protect`: no token, a token that does not verify, or a verified id
      with no user each give a 401 with its own message; otherwise the user
      is attached and the request goes on. */
  function ProtectDecision(header: Option<string>, users: seq<User>, c: Primitives): (d: Decision)
    ensures !d.outcome.Forbidden?
    ensures d.user.Some? <==> d.outcome.Next?
    ensures ExtractToken(header).None? ==> d.outcome == Unauthorized(NoTokenMessage)
    ensures ExtractToken(header).Some? && c.verify(ExtractToken(header).value).None? ==>
              d.outcome == Unauthorized(InvalidTokenMessage)
    ensures d.outcome == Unauthorized(UserNotFoundMessage) <==>
              && ExtractToken(header).Some? && c.verify(ExtractToken(header).value).Some?
              && FindById(users, c.verify(ExtractToken(header).value).value.id).None?
    ensures d.outcome.Next? ==>
              && ExtractToken(header).Some? && c.verify(ExtractToken(header).value).Some?
              && FindById(users, c.verify(ExtractToken(header).value).value.id).Some?
              && d.user.value.id == c.verify(ExtractToken(header).value).value.id
              && exists k :: 0 <= k < |users| && d.user.value == Public(users[k])
  {
    match ExtractToken(header)
    case None => Decision(Unauthorized(NoTokenMessage), None)
    case Some(token) =>
      match c.verify(token)
      case None => Decision(Unauthorized(InvalidTokenMessage), None)
      case Some(claims) =>
        match FindById(users, claims.id)
        case None => Decision(Unauthorized(UserNotFoundMessage), None)
        case Some(k) => Decision(Next, Some(Public(users[k])))
  }

  /** `optionalAuth`: never an error response; the user is attached exactly
      when `protect` would attach it. */
  function OptionalAuthDecision(header: Option<string>, users: seq<User>, c: Primitives): (d: Decision)
    ensures d.outcome == Next
  {
    Decision(Next, ProtectDecision(header, users, c).user)
  }

  lemma {:induction false} OptionalAuthAgreesWithProtect(header: Option<string>, users: seq<User>, c: Primitives)
    ensures OptionalAuthDecision(header, users, c).user.Some? <==> ProtectDecision(header, users, c).outcome.Next?
    ensures ProtectDecision(header, users, c).outcome.Next? ==>
              OptionalAuthDecision(header, users, c).user == ProtectDecision(header, users, c).user
  {
  }

  /** `restrictTo(...roles)`: 401 without an attached user, 403 when the
      user's role is not listed, otherwise on. */
  function RestrictTo(roles: seq<string>, user: Option<PublicUser>): (o: Outcome)
    ensures o == Unauthorized(NotAuthorizedMessage) <==> user.None?
    ensures o.Forbidden? <==> user.Some? && RoleName(user.value.role) !in roles
    ensures o.Next? <==> user.Some? && RoleName(user.value.role) in roles
  {
    if user.None? then Unauthorized(NotAuthorizedMessage)
    else if RoleName(user.value.role) !in roles then Forbidden(NoPermissionMessage)
    else Next
  }

  /** `adminOnly`: 401 without an attached user, 403 unless the user is an
      admin, otherwise on. */
  function AdminOnly(user: Option<PublicUser>): (o: Outcome)
    ensures o.Next? <==> user.Some? && user.value.role == Admin
  {
    if user.None? then Unauthorized(NotAuthorizedMessage)
    else if RoleName(user.value.role) != "admin" then Forbidden(AdminRequiredMessage)
    else Next
  }

  /** `adminOnly` decides as `restrictTo('admin')` does; only the 403 message
      differs. */
  lemma {:induction false} AdminOnlyIsRestrictToAdmin(user: Option<PublicUser>)
    ensures AdminOnly(user).Next? == RestrictTo(["admin"], user).Next?
    ensures AdminOnly(user).Forbidden? == RestrictTo(["admin"], user).Forbidden?
    ensures AdminOnly(user).Unauthorized? ==> AdminOnly(user) == RestrictTo(["admin"], user)
  {
    if user.Some? {
      assert RoleName(user.value.role) in ["admin"] <==> RoleName(user.value.role) == "admin";
    }
  }

  /** A customer passes `restrictTo('customer', 'admin')` and not
      `adminOnly`. */
  lemma {:induction false} CustomerGates(u: PublicUser)
    requires u.role == Customer
    ensures RestrictTo(["customer", "admin"], Some(u)) == Next
    ensures AdminOnly(Some(u)) == Forbidden(AdminRequiredMessage)
    ensures RestrictTo(["admin"], Some(u)) == Forbidden(NoPermissionMessage)
  {
  }

  /** A token the service issued at login gets its holder through `protect`,
      provided verification returns the signed claims. */
  lemma {:induction false} IssuedTokenPasses(users: seq<User>, k: nat, c: Primitives)
    requires UniqueIds(users) && k < |users|
    requires var t := IssueToken(users[k], c); t != [] && ' ' !in t
    requires c.verify(IssueToken(users[k], c)) == Some(Claims(users[k].id, users[k].email, RoleName(users[k].role)))
    ensures ProtectDecision(Some("Bearer " + IssueToken(users[k], c)), users, c) == Decision(Next, Some(Public(users[k])))
  {
    var t := IssueToken(users[k], c);
    BearerRoundTrip(t, []);
    assert Join([t] + [], ' ') == t;
    FindUniqueId(users, k);
  }

  /** An incoming request: its `Authorization` header and the user a gate
      attached to it. */
  class Request {
    const authorization: Option<string>
    var user: Option<PublicUser>

    constructor (authorization: Option<string>)
      ensures this.authorization == authorization && user.None?
    {
      this.authorization := authorization;
      user := None;
    }
  }

  /** `protect` on a request: the decision, and the user assigned to the
      request when it goes on; a refused request keeps what it had. */
  method Protect(req: Request, users: seq<User>, c: Primitives) returns (o: Outcome)
    modifies req
    ensures o == ProtectDecision(req.authorization, users, c).outcome
    ensures req.user == if o.Next? then ProtectDecision(req.authorization, users, c).user else old(req.user)
  {
    var token := ExtractToken(req.authorization);
    if token.None? {
      return Unauthorized(NoTokenMessage);
    }
    var claims := c.verify(token.value);
    if claims.None? {
      return Unauthorized(InvalidTokenMessage);
    }
    var found := FindById(users, claims.value.id);
    if found.None? {
      return Unauthorized(UserNotFoundMessage);
    }
    req.user := Some(Public(users[found.value]));
    o := Next;
  }

  /** `optionalAuth` on a request: always on; a user is assigned only when
      the token verifies and the user exists. */
  method OptionalAuth(req: Request, users: seq<User>, c: Primitives) returns (o: Outcome)
    modifies req
    ensures o == Next
    ensures req.user == if OptionalAuthDecision(req.authorization, users, c).user.Some?
                        then OptionalAuthDecision(req.authorization, users, c).user else old(req.user)
  {
    var token := ExtractToken(req.authorization);
    if token.Some? {
      var claims := c.verify(token.value);
      if claims.Some? {
        var found := FindById(users, claims.value.id);
        if found.Some? {
          req.user := Some(Public(users[found.value]));
        }
      }
    }
    o := Next;
  }
}
