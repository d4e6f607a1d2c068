/** The authentication router of `rotes/auth.js`: which gate runs before which
    handler. `POST /register` passes the registration limiter, `POST /login`
    the authentication limiter, and `GET /profile` and `POST /logout` the
    mandatory identity check. */
module Routes {
  import opened Common
  import opened Users
  import opened Accounts
  import opened AuthMiddleware
  import opened RateLimit

  datatype Reply =
    | TooManyRequests(message: LimitMessage)   // 429
    | Unauthenticated(rejection: Failure)
    | RegisterReply(register: RegisterResult)
    | LoginReply(login: LoginResult)
    | ProfileReply(profile: ProfileResult)
    | LogoutReply(logout: LogoutResult)

  /** A freshly registered account can use the token it was given: presented
      as a bearer header, and accepted by a verifier that recovers the signed
      claims, it resolves to the new row. */
  lemma RegisterThenAuthenticate(users: Store, nextId: Id, crypto: Crypto, form: RegisterForm, salt: nat, now: nat,
                                 verify: string -> Verification)
    requires nextId !in users
    requires RegisterCheck(users, form) == None
    requires CompactTokens(crypto) && Recovers(crypto, verify)
    ensures Authenticate(Some("Bearer " + GenerateToken(crypto, nextId, Lower(form.email))), verify,
                         users[nextId := NewUser(form, crypto.hash(form.password, SaltRounds, salt), now)])
            == Proceed(Identity(nextId, Lower(form.email), Lower(form.username), Clip(form.fullName, 100)))
  {
    var token := GenerateToken(crypto, nextId, Lower(form.email));
    var row := NewUser(form, crypto.hash(form.password, SaltRounds, salt), now);
    AnySchemeAccepted("Bearer", token, "");
    assert "Bearer " + token == "Bearer" + " " + token;
    assert BearerToken(Some("Bearer " + token)) == Some(token);
    assert users[nextId := row][nextId] == row && row.isActive;
  }

  /** The account service and the limiter bank behind the router. */
  class App {
    const service: AccountService
    const limiters: LimiterBank

    ghost predicate Valid()
      reads this, service
    {
      service.Valid() && limiters.Valid()
    }

    constructor (service: AccountService, limiters: LimiterBank)
      requires service.Valid() && limiters.Valid()
      ensures Valid() && this.service == service && this.limiters == limiters
    {
      this.service := service;
      this.limiters := limiters;
    }

    /** `POST /register`: a request the registration limiter refuses never
        reaches the store. */
    method PostRegister(now: nat, client: Client, nodeEnv: Option<string>, form: RegisterForm, salt: nat)
      returns (out: Reply)
      requires Valid()
      modifies limiters.registration, service
      ensures Valid()
      ensures limiters.registration.hits ==
        Step(RegistrationConfig, old(limiters.registration.hits), now, client, nodeEnv).hits
      ensures Step(RegistrationConfig, old(limiters.registration.hits), now, client, nodeEnv).decision.Limited? ==>
        out == TooManyRequests(RegistrationConfig.message) &&
        service.users == old(service.users) && service.nextId == old(service.nextId)
      ensures !Step(RegistrationConfig, old(limiters.registration.hits), now, client, nodeEnv).decision.Limited? ==>
        out.RegisterReply? &&
        (RegisterCheck(old(service.users), form).Some? ==>
           out.register == RegisterRejected(RegisterCheck(old(service.users), form).value) &&
           service.users == old(service.users)) &&
        (RegisterCheck(old(service.users), form).None? ==>
           out.register.Registered? &&
           service.users == old(service.users)[old(service.nextId) :=
             NewUser(form, service.crypto.hash(form.password, SaltRounds, salt), now)])
      ensures !Step(RegistrationConfig, old(limiters.registration.hits), now, client, nodeEnv).decision.Limited? ==>
        service.nextId == if InsertRuns(old(service.users), form) then old(service.nextId) + 1 else old(service.nextId)
    {
      var d := limiters.Admit(RegistrationLimiter, now, client, nodeEnv);
      if d.Limited? {
        return TooManyRequests(d.message);
      }
      var r := service.Register(form, salt, now);
      out := RegisterReply(r);
    }

    /** `POST /login`: a request the authentication limiter refuses never
        reaches the store. */
    method PostLogin(now: nat, client: Client, nodeEnv: Option<string>, email: string, password: string)
      returns (out: Reply)
      requires Valid()
      modifies limiters.auth, service
      ensures Valid()
      ensures limiters.auth.hits == Step(AuthConfig, old(limiters.auth.hits), now, client, nodeEnv).hits
      ensures Step(AuthConfig, old(limiters.auth.hits), now, client, nodeEnv).decision.Limited? ==>
        out == TooManyRequests(AuthConfig.message) && service.users == old(service.users)
      ensures service.nextId == old(service.nextId)
      ensures !Step(AuthConfig, old(limiters.auth.hits), now, client, nodeEnv).decision.Limited? ==>
        out.LoginReply? &&
        var d := LoginCheck(old(service.users), service.crypto, email, password);
        (d.Deny? ==>
           out.login == LoginRejected(d.failure) && service.users == old(service.users)) &&
        (d.Accept? ==>
           out.login.LoggedIn? &&
           service.users == old(service.users)[d.id := old(service.users)[d.id].(lastLogin := Some(now))])
    {
      var d := limiters.Admit(AuthLimiter, now, client, nodeEnv);
      if d.Limited? {
        return TooManyRequests(d.message);
      }
      var r := service.Login(email, password, now);
      out := LoginReply(r);
    }

    /** `GET /profile`: the identity check, then the profile. Since the check
        has just found the row, the profile is always found. */
    method GetProfile(authorization: Option<string>, verify: string -> Verification) returns (out: Reply)
      requires Valid()
      ensures match Authenticate(authorization, verify, service.users)
        case Reject(rejection) => out == Unauthenticated(rejection)
        case Proceed(identity) =>
          identity.userId in service.users &&
          out == ProfileReply(ProfileFound(ProfileOf(identity.userId, service.users[identity.userId])))
    {
      var req := new Request(authorization);
      req.AuthenticateToken(verify, service.users);
      if req.response.Some? {
        return Unauthenticated(req.response.value);
      }
      var r := service.GetProfile(req.user.identity);
      out := ProfileReply(r);
    }

    /** `POST /logout`: the identity check, then a success reply; no state changes. */
    method PostLogout(authorization: Option<string>, verify: string -> Verification) returns (out: Reply)
      requires Valid()
      ensures Authenticate(authorization, verify, service.users).Reject? ==>
        out == Unauthenticated(Authenticate(authorization, verify, service.users).rejection)
      ensures Authenticate(authorization, verify, service.users).Proceed? ==>
        out == LogoutReply(LogoutResult(true, "Logout successful"))
    {
      var req := new Request(authorization);
      req.AuthenticateToken(verify, service.users);
      if req.response.Some? {
        return Unauthenticated(req.response.value);
      }
      var r := service.Logout(req.user.identity);
      out := LogoutReply(r);
    }
  }
}
