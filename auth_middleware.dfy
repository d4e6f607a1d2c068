/** The identity resolver of `middleware/auth.js`: bearer-token extraction,
    the mandatory `authenticateToken` and the degrading `optionalAuth`.
    `jwt.verify` is a parameter that classifies a token. */
module AuthMiddleware {
  import opened Common
  import opened Users

  /** The claims `generateToken` signs. */
  datatype Claims = Claims(userId: Id, email: string)

  /** What `jwt.verify(token, secret)` does: return the decoded claims or throw
      an error. The handler looks only at the error's `name`, so an error is
      one of the two names it tests for, or `OtherError` for every other name. */
  datatype Verification =
    | Verified(claims: Claims)
    | JsonWebTokenError
    | TokenExpiredError
    | OtherError

  const TokenRequired := Failure(401, "Access token required", "Please provide a valid authentication token")
  const UnknownUser := Failure(401, "Invalid token", "User not found")
  const Deactivated := Failure(401, "Account deactivated", "Your account has been deactivated")
  const InvalidToken := Failure(403, "Invalid token", "Please login again")
  const TokenExpired := Failure(403, "Token expired", "Please login again")
  const AuthenticationFailed := Failure(500, "Authentication failed", "Internal server error")

  /** `authHeader && authHeader.split(' ')[1]`, with every falsy result
      (absent header, empty header, no second field, empty second field) as
      `None`. The first field, the scheme, is never looked at. */
  function BearerToken(header: Option<string>): (token: Option<string>)
    ensures token.Some? ==> token.value != "" && ' ' !in token.value
    ensures token.Some? ==> header.Some? && ' ' in header.value
  {
    match header
    case None => None
    case Some(h) =>
      var parts := Split(h, ' ');
      if |parts| > 1 && parts[1] != "" then
        SplitManyHasSep(h, ' ');
        Some(parts[1])
      else None
  }

  /** Whatever word comes before the first space is accepted as the scheme,
      and the token is the text up to the next space. */
  lemma {:induction false} AnySchemeAccepted(scheme: string, token: string, rest: string)
    requires ' ' !in scheme && ' ' !in token && token != ""
    ensures BearerToken(Some(scheme + " " + token)) == Some(token)
    ensures BearerToken(Some(scheme + " " + token + " " + rest)) == Some(token)
  {
    SplitAtFirst(scheme, ' ', token);
    SplitNoSep(token, ' ');
    assert scheme + " " + token + " " + rest == scheme + [' '] + (token + [' '] + rest);
    SplitAtFirst(scheme, ' ', token + [' '] + rest);
    SplitAtFirst(token, ' ', rest);
  }

  /** A header with nothing after the first space, or two spaces in a row,
      carries no token. */
  lemma {:induction false} EmptySecondFieldNoToken(scheme: string, rest: string)
    requires ' ' !in scheme
    ensures BearerToken(Some(scheme + " ")) == None
    ensures BearerToken(Some(scheme + "  " + rest)) == None
  {
    assert scheme + " " == scheme + [' '] + "";
    SplitAtFirst(scheme, ' ', "");
    assert scheme + "  " + rest == scheme + [' '] + ([] + [' '] + rest);
    SplitAtFirst(scheme, ' ', [' '] + rest);
    SplitAtFirst([], ' ', rest);
  }

  datatype AuthOutcome = Proceed(identity: Identity) | Reject(rejection: Failure)

  /** `authenticateToken` as a function of the header, the verifier and the
      user table: a response, or the identity context `next()` runs with. */
  function Authenticate(header: Option<string>, verify: string -> Verification, users: Store): (r: AuthOutcome)
    ensures BearerToken(header).None? ==> r == Reject(TokenRequired)
    ensures r.Proceed? ==>
      BearerToken(header).Some? && verify(BearerToken(header).value).Verified? &&
      var id := verify(BearerToken(header).value).claims.userId;
      id in users && users[id].isActive && r.identity == IdentityOf(id, users[id])
    ensures r.Reject? ==>
      r.rejection in {TokenRequired, UnknownUser, Deactivated, InvalidToken, TokenExpired, AuthenticationFailed}
  {
    match BearerToken(header)
    case None => Reject(TokenRequired)
    case Some(token) =>
      match verify(token)
      case JsonWebTokenError => Reject(InvalidToken)
      case TokenExpiredError => Reject(TokenExpired)
      case OtherError => Reject(AuthenticationFailed)
      case Verified(claims) =>
        if claims.userId !in users then Reject(UnknownUser)
        else if !users[claims.userId].isActive then Reject(Deactivated)
        else Proceed(IdentityOf(claims.userId, users[claims.userId]))
  }

  /** How each failure of `jwt.verify` is answered. */
  lemma VerifyFailuresMapped(header: Option<string>, verify: string -> Verification, users: Store)
    requires BearerToken(header).Some?
    ensures verify(BearerToken(header).value) == JsonWebTokenError ==>
      Authenticate(header, verify, users) == Reject(InvalidToken)
    ensures verify(BearerToken(header).value) == TokenExpiredError ==>
      Authenticate(header, verify, users) == Reject(TokenExpired)
    ensures verify(BearerToken(header).value).OtherError? ==>
      Authenticate(header, verify, users) == Reject(AuthenticationFailed)
  {
  }

  /** A token that verifies is still refused unless its `userId` names an
      active row; the identity then comes from the row, not from the claims. */
  lemma VerifiedTokenNeedsActiveRow(header: Option<string>, verify: string -> Verification, users: Store, claims: Claims)
    requires BearerToken(header).Some? && verify(BearerToken(header).value) == Verified(claims)
    ensures claims.userId !in users ==> Authenticate(header, verify, users) == Reject(UnknownUser)
    ensures claims.userId in users && !users[claims.userId].isActive ==>
      Authenticate(header, verify, users) == Reject(Deactivated)
    ensures claims.userId in users && users[claims.userId].isActive ==>
      Authenticate(header, verify, users) ==
        Proceed(Identity(claims.userId, users[claims.userId].email, users[claims.userId].username,
                         users[claims.userId].fullName))
  {
  }

  /** `optionalAuth` as a function: the identity context, or `null`. */
  function OptionalIdentity(header: Option<string>, verify: string -> Verification, users: Store): (r: Option<Identity>)
    ensures r.Some? <==> Authenticate(header, verify, users).Proceed?
    ensures r.Some? ==> Authenticate(header, verify, users) == Proceed(r.value)
  {
    match BearerToken(header)
    case None => None
    case Some(token) =>
      match verify(token)
      case Verified(claims) =>
        // WHERE id = $1 AND is_active = true
        if claims.userId in users && users[claims.userId].isActive then
          Some(IdentityOf(claims.userId, users[claims.userId]))
        else None
      case _ => None
  }

  /** The value of `req.user`: never assigned, `null`, or an identity context. */
  datatype UserSlot = Unassigned | NullUser | Bound(identity: Identity)

  /** The parts of an Express request and response the middleware touches:
      the `authorization` header, `req.user`, how often `next()` ran, and the
      error response sent, if any. */
  class Request {
    const authorization: Option<string>
    var user: UserSlot
    var nextCalls: nat
    var response: Option<Failure>

    constructor (authorization: Option<string>)
      ensures this.authorization == authorization
      ensures user == Unassigned && nextCalls == 0 && response == None
    {
      this.authorization := authorization;
      user := Unassigned;
      nextCalls := 0;
      response := None;
    }

    /** `authenticateToken`: on success `req.user` is set and `next()` runs once;
        on every rejection a response is sent, `req.user` is left alone and
        `next()` does not run. */
    method AuthenticateToken(verify: string -> Verification, users: Store)
      modifies this
      ensures match Authenticate(authorization, verify, users)
        case Proceed(identity) =>
          user == Bound(identity) && nextCalls == old(nextCalls) + 1 && response == old(response)
        case Reject(rejection) =>
          user == old(user) && nextCalls == old(nextCalls) && response == Some(rejection)
    {
      var token := BearerToken(authorization);
      if token.None? {
        response := Some(TokenRequired);
        return;
      }
      var decoded := verify(token.value);
      if decoded == JsonWebTokenError {
        response := Some(InvalidToken);
        return;
      }
      if decoded == TokenExpiredError {
        response := Some(TokenExpired);
        return;
      }
      if decoded.OtherError? {
        response := Some(AuthenticationFailed);
        return;
      }
      var id := decoded.claims.userId;
      if id !in users {
        response := Some(UnknownUser);
        return;
      }
      var row := users[id];
      if !row.isActive {
        response := Some(Deactivated);
        return;
      }
      user := Bound(IdentityOf(id, row));
      nextCalls := nextCalls + 1;
    }

    /** `optionalAuth`: `next()` runs exactly once, no response is ever sent,
        and `req.user` is the identity context or `null`. */
    method OptionalAuth(verify: string -> Verification, users: Store)
      modifies this
      ensures nextCalls == old(nextCalls) + 1 && response == old(response)
      ensures match OptionalIdentity(authorization, verify, users)
        case Some(identity) => user == Bound(identity)
        case None => user == NullUser
    {
      var token := BearerToken(authorization);
      if token.None? {
        user := NullUser;
        nextCalls := nextCalls + 1;
        return;
      }
      var decoded := verify(token.value);
      if !decoded.Verified? {
        // the catch block
        user := NullUser;
        nextCalls := nextCalls + 1;
        return;
      }
      var id := decoded.claims.userId;
      if id in users && users[id].isActive {
        user := Bound(IdentityOf(id, users[id]));
      } else {
        user := NullUser;
      }
      nextCalls := nextCalls + 1;
    }
  }
}
