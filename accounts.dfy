/** The account service of `authController.js`: the university e-mail check,
    token issuing, and the register / login / profile / logout handlers over
    the user store. */
module Accounts {
  import opened Common
  import opened Users
  import AuthMiddleware

  // ---------------------------------------------------------------------------
  // University e-mail check
  // ---------------------------------------------------------------------------

  /** The allow-list, in source order. */
  const UniversityDomains: seq<string> := [
    ".ac.jp", ".edu", ".edu.au", ".edu.cn", ".edu.sg",
    "u-tokyo.ac.jp", "kyoto-u.ac.jp", "osaka-u.ac.jp", "tohoku.ac.jp",
    "nagoya-u.ac.jp", "kyushu-u.ac.jp", "hokudai.ac.jp", "titech.ac.jp",
    "waseda.jp", "keio.jp", "rikkyo.ac.jp", "meiji.ac.jp", "chuo-u.ac.jp",
    "hosei.ac.jp", "aoyama.ac.jp", "sophia.ac.jp", "icu.ac.jp"
  ]

  /** `suffixes.some(d => s.endsWith(d))`, scanning left to right. */
  function EndsWithAny(s: string, suffixes: seq<string>): (r: bool)
    ensures r <==> exists i :: 0 <= i < |suffixes| && EndsWith(s, suffixes[i])
  {
    if suffixes == [] then false
    else if EndsWith(s, suffixes[0]) then true
    else
      var r := EndsWithAny(s, suffixes[1..]);
      assert forall i :: 1 <= i < |suffixes| ==> suffixes[i] == suffixes[1..][i - 1];
      r
  }

  /** `validateUniversityEmail`: a pure suffix test on the string as given. */
  function ValidateUniversityEmail(email: string): (r: bool)
    ensures r <==> exists d :: d in UniversityDomains && EndsWith(email, d)
  {
    EndsWithAny(email, UniversityDomains)
  }

  /** The tails that the allow-list reduces to: every university-specific
      `*.ac.jp` entry is already covered by the generic `.ac.jp` entry. */
  const GenericTails: seq<string> :=
    [".ac.jp", ".edu", ".edu.au", ".edu.cn", ".edu.sg", "waseda.jp", "keio.jp"]

  /** Each allow-list entry is a generic tail or lies under `.ac.jp`. */
  lemma EntryCovered(i: nat)
    requires i < |UniversityDomains|
    ensures UniversityDomains[i] in GenericTails || EndsWith(UniversityDomains[i], ".ac.jp")
  {
  }

  /** The check accepts exactly the addresses ending in one of the generic
      tails, so any address under any `.ac.jp` host passes. */
  lemma ValidateIsGenericTailTest(email: string)
    ensures ValidateUniversityEmail(email) <==> exists d :: d in GenericTails && EndsWith(email, d)
  {
    if ValidateUniversityEmail(email) {
      var i :| 0 <= i < |UniversityDomains| && EndsWith(email, UniversityDomains[i]);
      EntryCovered(i);
      if UniversityDomains[i] !in GenericTails {
        EndsWithTransitive(email, UniversityDomains[i], ".ac.jp");
        assert ".ac.jp" in GenericTails;
      }
    }
    if exists d :: d in GenericTails && EndsWith(email, d) {
      var d :| d in GenericTails && EndsWith(email, d);
      assert d in UniversityDomains;
    }
  }

  /** The test is suffix-only: an address whose host is `evil.com` passes as
      long as the whole string ends with a listed domain. */
  lemma SuffixOnlyAcceptsForeignHost()
    ensures ValidateUniversityEmail("foo@evil.com/u-tokyo.ac.jp")
    ensures ValidateUniversityEmail("x.edu")
  {
    assert EndsWith("foo@evil.com/u-tokyo.ac.jp", "u-tokyo.ac.jp");
    assert EndsWith("x.edu", ".edu");
  }

  /** An allow-list entry is non-empty and ends in a lower-case letter. */
  lemma EntryEndsLower(i: nat)
    requires i < |UniversityDomains|
    ensures UniversityDomains[i] != [] && 'a' <= UniversityDomains[i][|UniversityDomains[i]| - 1] <= 'z'
  {
  }

  /** Every listed domain ends in a lower-case letter, so an address whose last
      character is an upper-case letter is rejected, whatever it lower-cases to. */
  lemma UpperCaseTailRejected(email: string)
    requires |email| > 0 && IsUpper(email[|email| - 1])
    ensures !ValidateUniversityEmail(email)
  {
    forall i | 0 <= i < |UniversityDomains|
      ensures !EndsWith(email, UniversityDomains[i])
    {
      EntryEndsLower(i);
    }
  }

  /** An address typed with an upper-case `.AC.JP` tail is rejected, although
      its lower-cased form, the one the store would hold, is accepted. */
  lemma UpperCaseUniversityAddress(email: string)
    requires EndsWith(email, ".AC.JP")
    ensures !ValidateUniversityEmail(email)
    ensures ValidateUniversityEmail(Lower(email))
  {
    assert email[|email| - 1] == 'P';
    UpperCaseTailRejected(email);
    LowerKeepsSuffix(email, ".AC.JP");
    assert Lower(".AC.JP") == ".ac.jp";
    assert ".ac.jp" in UniversityDomains;
  }

  // ---------------------------------------------------------------------------
  // Password hashing and token signing, left uninterpreted
  // ---------------------------------------------------------------------------

  /** `bcrypt.hash(plaintext, rounds)` with the salt it draws, `bcrypt.compare`,
      and `jwt.sign({userId, email}, secret, {expiresIn})` with the secret and
      lifetime fixed by configuration. */
  datatype Crypto = Crypto(
    hash: (string, nat, nat) -> string,
    compare: (string, string) -> bool,
    sign: (Id, string) -> string)

  const SaltRounds: nat := 12

  /** The one fact assumed of bcrypt: a password matches its own digest. */
  ghost predicate HashSound(c: Crypto)
  {
    forall p, salt :: c.compare(p, c.hash(p, SaltRounds, salt))
  }

  /** A verifier holding the signing secret: it decodes every token `sign`
      issues back to the claims signed into it. */
  ghost predicate Recovers(c: Crypto, verify: string -> AuthMiddleware.Verification)
  {
    forall id, email :: verify(c.sign(id, email)) == AuthMiddleware.Verified(AuthMiddleware.Claims(id, email))
  }

  /** The shape of a compact JWT, three base64url segments joined by dots:
      never empty and never containing a space. */
  ghost predicate CompactTokens(c: Crypto)
  {
    forall id, email :: c.sign(id, email) != "" && ' ' !in c.sign(id, email)
  }

  /** `generateToken(userId, email)`: the token carries exactly the claims
      `{userId, email}`, so every verifier sharing the secret reads them back. */
  function GenerateToken(c: Crypto, id: Id, email: string): (t: string)
    ensures forall verify :: Recovers(c, verify) ==> verify(t) == AuthMiddleware.Verified(AuthMiddleware.Claims(id, email))
  {
    c.sign(id, email)
  }

  // ---------------------------------------------------------------------------
  // Responses
  // ---------------------------------------------------------------------------

  const MissingFields := Failure(400, "Required fields missing", "Email, password, username, and full name are required")
  const InvalidEmailDomain := Failure(400, "Invalid email domain", "Please use a valid university email address")
  const WeakPassword := Failure(400, "Weak password", "Password must be at least 8 characters long")
  const InvalidUsername := Failure(400, "Invalid username", "Username must be between 3 and 20 characters")
  const UserExists := Failure(409, "User already exists", "Email or username is already registered")
  const RegistrationFailed := Failure(500, "Registration failed", "Internal server error. Please try again later.")
  const MissingCredentials := Failure(400, "Missing credentials", "Email and password are required")
  const InvalidCredentials := Failure(401, "Invalid credentials", "Email or password is incorrect")
  const AccountDeactivated := Failure(401, "Account deactivated", "Your account has been deactivated. Please contact support.")
  const ProfileNotFound := Failure(404, "User not found", "User profile not found")

  /** The `user` object of the register and login responses: no password column. */
  datatype PublicUser = PublicUser(id: Id, email: string, username: string, fullName: string, university: Option<string>)

  function PublicOf(id: Id, u: User): PublicUser
  {
    PublicUser(id, u.email, u.username, u.fullName, u.university)
  }

  datatype RegisterResult =
    | Registered(token: string, user: PublicUser, createdAt: nat)   // 201
    | RegisterRejected(failure: Failure)

  datatype LoginResult =
    | LoggedIn(token: string, user: PublicUser)
    | LoginRejected(failure: Failure)

  datatype Profile = Profile(
    id: Id, email: string, username: string, fullName: string,
    university: Option<string>, year: Option<int>, department: Option<string>,
    bio: Option<string>, profileImage: Option<string>, createdAt: nat, lastLogin: Option<nat>)

  function ProfileOf(id: Id, u: User): Profile
  {
    Profile(id, u.email, u.username, u.fullName, u.university, u.year, u.department,
            u.bio, u.profileImage, u.createdAt, u.lastLogin)
  }

  datatype ProfileResult = ProfileFound(user: Profile) | ProfileMissing(failure: Failure)

  datatype LogoutResult = LogoutResult(success: bool, message: string)

  // ---------------------------------------------------------------------------
  // Register
  // ---------------------------------------------------------------------------

  /** The request body of `register`. A field that is absent or empty (both
      falsy) is `""`; an absent or zero `year` is `0`. */
  datatype RegisterForm = RegisterForm(
    email: string, password: string, username: string, fullName: string,
    university: string, year: int, department: string)

  predicate Filled(form: RegisterForm)
  {
    form.email != "" && form.password != "" && form.username != "" && form.fullName != ""
  }

  /** `SELECT id FROM users WHERE email = $1 OR username = $2` finds a row. */
  predicate Taken(users: Store, email: string, username: string)
  {
    exists id :: id in users && (users[id].email == email || users[id].username == username)
  }

  /** The range of a PostgreSQL `INTEGER` column. */
  const IntMin: int := -0x8000_0000
  const IntMax: int := 0x7fff_ffff

  /** PostgreSQL stores a string in a VARCHAR(n) column when it has at most
      `n` characters, or when every character past the `n`-th is a space;
      any other longer string makes the statement fail. */
  predicate FitsColumn(s: string, n: nat)
  {
    |s| <= n || forall i :: n <= i < |s| ==> s[i] == ' '
  }

  /** What a VARCHAR(n) column holds for a value that fits: the value cut to
      `n` characters. */
  function Clip(s: string, n: nat): (r: string)
    requires FitsColumn(s, n)
    ensures |r| <= n && r <= s
    ensures |s| <= n ==> r == s
    ensures |s| > n ==> |r| == n
    ensures forall i :: |r| <= i < |s| ==> s[i] == ' '
  {
    if |s| <= n then s else s[..n]
  }

  /** The INSERT succeeds only when every value fits its column: `email`
      VARCHAR(255), `full_name`, `university` and `department` VARCHAR(100),
      `year` INTEGER. The username is at most 20 characters by then, well
      within VARCHAR(50). An accepted address never ends in a space, so for
      it fitting means being at most 255 characters long (`AddressNeverCut`). */
  predicate FitsSchema(form: RegisterForm)
  {
    YearFits(form) && TextFits(form)
  }

  /** `year` is bound as an INTEGER parameter before the statement runs. */
  predicate YearFits(form: RegisterForm)
  {
    IntMin <= form.year <= IntMax
  }

  /** The text values are coerced to their VARCHAR columns while the row is
      built, after the `id` default has drawn from the SERIAL sequence. */
  predicate TextFits(form: RegisterForm)
  {
    |Lower(form.email)| <= 255 && FitsColumn(form.fullName, 100) && FitsColumn(form.university, 100) &&
    FitsColumn(form.department, 100)
  }

  /** An address that passes the domain check ends in a letter, so the column
      could never cut trailing spaces from it: it fits VARCHAR(255) exactly
      when it has at most 255 characters. */
  lemma AddressNeverCut(email: string)
    requires ValidateUniversityEmail(email)
    ensures FitsColumn(Lower(email), 255) <==> |Lower(email)| <= 255
  {
    var i :| 0 <= i < |UniversityDomains| && EndsWith(email, UniversityDomains[i]);
    EntryEndsLower(i);
    EndsInLetter(email, UniversityDomains[i]);
  }

  /** A string ending in a suffix whose last character is a lower-case letter
      keeps that letter as its last character when lower-cased. */
  lemma EndsInLetter(email: string, d: string)
    requires EndsWith(email, d) && d != [] && 'a' <= d[|d| - 1] <= 'z'
    ensures email != [] && Lower(email)[|email| - 1] == d[|d| - 1]
  {
    assert email[|email| - 1] == d[|d| - 1];
  }

  /** The first rejection `register` answers with, or `None` when its insert
      succeeds. */
  function RegisterCheck(users: Store, form: RegisterForm): (r: Option<Failure>)
    ensures r.None? <==>
      Filled(form) && ValidateUniversityEmail(form.email) && |form.password| >= 8 &&
      3 <= |form.username| <= 20 && !Taken(users, Lower(form.email), Lower(form.username)) &&
      FitsSchema(form)
    ensures r == Some(UserExists) <==>
      Filled(form) && ValidateUniversityEmail(form.email) && |form.password| >= 8 &&
      3 <= |form.username| <= 20 && Taken(users, Lower(form.email), Lower(form.username))
    ensures r == Some(RegistrationFailed) <==>
      Filled(form) && ValidateUniversityEmail(form.email) && |form.password| >= 8 &&
      3 <= |form.username| <= 20 && !Taken(users, Lower(form.email), Lower(form.username)) &&
      !FitsSchema(form)
  {
    if !Filled(form) then Some(MissingFields)
    else if !ValidateUniversityEmail(form.email) then Some(InvalidEmailDomain)
    else if |form.password| < 8 then Some(WeakPassword)
    else if |form.username| < 3 || |form.username| > 20 then Some(InvalidUsername)
    else if Taken(users, Lower(form.email), Lower(form.username)) then Some(UserExists)
    else if !FitsSchema(form) then Some(RegistrationFailed)
    else None
  }

  /** The INSERT starts executing, and so draws an id from the SERIAL
      sequence, exactly when registration succeeds or fails only on a text
      value too wide for its column. */
  predicate InsertRuns(users: Store, form: RegisterForm)
  {
    Filled(form) && ValidateUniversityEmail(form.email) && |form.password| >= 8 &&
    3 <= |form.username| <= 20 && !Taken(users, Lower(form.email), Lower(form.username)) && YearFits(form)
  }

  /** Which answers use up an id: every success, and a 500 caused by a text
      value, but not a 500 caused by an out-of-range `year` nor any 4xx. */
  lemma InsertRunsExactly(users: Store, form: RegisterForm)
    ensures InsertRuns(users, form) <==>
      RegisterCheck(users, form).None? || (RegisterCheck(users, form) == Some(RegistrationFailed) && YearFits(form))
  {
  }

  /** A full name over 100 characters with something other than a space past
      the 100th makes the INSERT throw, which the handler answers with 500
      "Registration failed", even for a single request against an empty table. */
  lemma OverlongNameFailsInsert(users: Store, form: RegisterForm, i: nat)
    requires Filled(form) && ValidateUniversityEmail(form.email) && |form.password| >= 8
    requires 3 <= |form.username| <= 20 && !Taken(users, Lower(form.email), Lower(form.username))
    requires 100 <= i < |form.fullName| && form.fullName[i] != ' '
    ensures RegisterCheck(users, form) == Some(RegistrationFailed)
  {
  }

  /** A full name that is over 100 characters only through trailing spaces
      does not stop the insert: registration goes through and the row holds
      the first 100 characters. */
  lemma PaddedNameIsCut(users: Store, form: RegisterForm, digest: string, now: nat)
    requires |form.fullName| > 100 && forall i :: 100 <= i < |form.fullName| ==> form.fullName[i] == ' '
    requires RegisterCheck(users, form.(fullName := form.fullName[..100])) == None
    ensures RegisterCheck(users, form) == None
    ensures NewUser(form, digest, now).fullName == form.fullName[..100]
  {
  }

  /** The four input checks answer in a fixed order: each rejection is given
      only when every earlier check passed. */
  lemma RegisterRejectionOrder(users: Store, form: RegisterForm)
    ensures RegisterCheck(users, form) == Some(MissingFields) <==> !Filled(form)
    ensures RegisterCheck(users, form) == Some(InvalidEmailDomain) <==>
      Filled(form) && !ValidateUniversityEmail(form.email)
    ensures RegisterCheck(users, form) == Some(WeakPassword) <==>
      Filled(form) && ValidateUniversityEmail(form.email) && |form.password| < 8
    ensures RegisterCheck(users, form) == Some(InvalidUsername) <==>
      Filled(form) && ValidateUniversityEmail(form.email) && |form.password| >= 8 &&
      !(3 <= |form.username| <= 20)
  {
  }

  /** The domain is checked on the address as typed, before lower-casing: an
      otherwise valid registration whose address ends in an upper-case letter
      is refused, while the same address in lower case would be accepted. */
  lemma UpperCaseRegistrationRefused(users: Store, form: RegisterForm)
    requires Filled(form) && IsUpper(form.email[|form.email| - 1])
    ensures RegisterCheck(users, form) == Some(InvalidEmailDomain)
  {
    UpperCaseTailRejected(form.email);
  }

  function OrNull(s: string): Option<string>
  {
    if s == "" then None else Some(s)
  }

  /** The row `register` leaves behind: lower-cased e-mail and username, the
      digest instead of the password, the text columns as their VARCHAR(100)
      columns hold them, active, `last_login` set to the time of registration. */
  function NewUser(form: RegisterForm, digest: string, now: nat): (u: User)
    requires FitsSchema(form)
    ensures u.email == Lower(form.email) && u.username == Lower(form.username)
    ensures u.passwordHash == digest
    ensures u.fullName == Clip(form.fullName, 100)
    ensures u.isActive && u.createdAt == now && u.lastLogin == Some(now)
    ensures form.university == "" ==> u.university == None
    ensures form.university != "" ==> u.university == Some(Clip(form.university, 100))
    ensures form.department == "" ==> u.department == None
    ensures form.department != "" ==> u.department == Some(Clip(form.department, 100))
    ensures form.year == 0 ==> u.year == None
    ensures form.year != 0 ==> u.year == Some(form.year)
    ensures u.bio.None? && u.profileImage.None?
  {
    User(Lower(form.email), digest, Lower(form.username), Clip(form.fullName, 100),
         OrNull(Clip(form.university, 100)), if form.year == 0 then None else Some(form.year),
         OrNull(Clip(form.department, 100)), None, None, true, Some(now), now)
  }

  /** Inserting a row whose e-mail and username are not taken keeps both
      UNIQUE constraints. */
  lemma InsertKeepsUnique(users: Store, id: Id, u: User)
    requires UniqueEmails(users) && UniqueUsernames(users)
    requires id !in users && !Taken(users, u.email, u.username)
    ensures UniqueEmails(users[id := u]) && UniqueUsernames(users[id := u])
  {
  }

  /** Once a row is stored, a later registration with the same e-mail or the
      same username, in any letter case, is answered 409. */
  lemma SecondRegistrationConflicts(users: Store, id: Id, form: RegisterForm, digest: string, now: nat,
                                    again: RegisterForm)
    requires FitsSchema(form)
    requires Filled(again) && ValidateUniversityEmail(again.email) && |again.password| >= 8
    requires 3 <= |again.username| <= 20
    requires Lower(again.email) == Lower(form.email) || Lower(again.username) == Lower(form.username)
    ensures RegisterCheck(users[id := NewUser(form, digest, now)], again) == Some(UserExists)
  {
    var store := users[id := NewUser(form, digest, now)];
    assert id in store && store[id] == NewUser(form, digest, now);
  }

  // ---------------------------------------------------------------------------
  // Login
  // ---------------------------------------------------------------------------

  /** `SELECT ... FROM users WHERE email = $1`: the row with that e-mail, if any. */
  ghost function FindByEmail(users: Store, email: string): (r: Option<Id>)
    ensures r.Some? ==> r.value in users && users[r.value].email == email
    ensures r.None? <==> forall id :: id in users ==> users[id].email != email
  {
    if exists id :: id in users && users[id].email == email then
      var id :| id in users && users[id].email == email; Some(id)
    else None
  }

  /** Under the UNIQUE constraint the row found is the only one with that e-mail. */
  lemma FindByEmailUnique(users: Store, email: string, id: Id)
    requires UniqueEmails(users)
    requires id in users && users[id].email == email
    ensures FindByEmail(users, email) == Some(id)
  {
  }

  datatype LoginDecision = Deny(failure: Failure) | Accept(id: Id)

  /** The outcome of `login` before any store update: presence check, lookup
      by the lower-cased e-mail, the active flag, then the password. */
  ghost function LoginCheck(users: Store, crypto: Crypto, email: string, password: string): (r: LoginDecision)
    ensures r.Accept? ==>
      r.id in users && users[r.id].email == Lower(email) && users[r.id].isActive &&
      crypto.compare(password, users[r.id].passwordHash)
    ensures r.Deny? ==> r.failure in {MissingCredentials, InvalidCredentials, AccountDeactivated}
    ensures r == Deny(MissingCredentials) <==> email == "" || password == ""
    ensures r == Deny(AccountDeactivated) ==>
      exists id :: id in users && users[id].email == Lower(email) && !users[id].isActive
  {
    if email == "" || password == "" then Deny(MissingCredentials)
    else match FindByEmail(users, Lower(email))
      case None => Deny(InvalidCredentials)
      case Some(id) =>
        if !users[id].isActive then Deny(AccountDeactivated)
        else if !crypto.compare(password, users[id].passwordHash) then Deny(InvalidCredentials)
        else Accept(id)
  }

  /** Conversely, under the UNIQUE constraint a login with both fields present,
      naming an active row by its e-mail in any letter case, and a password
      the row's digest matches, is accepted for that row. */
  lemma LoginAccepts(users: Store, crypto: Crypto, email: string, password: string, id: Id)
    requires UniqueEmails(users)
    requires email != "" && password != ""
    requires id in users && users[id].email == Lower(email) && users[id].isActive
    requires crypto.compare(password, users[id].passwordHash)
    ensures LoginCheck(users, crypto, email, password) == Accept(id)
  {
    FindByEmailUnique(users, Lower(email), id);
  }

  /** An unknown e-mail and a wrong password give the same status, error and
      message, so a caller cannot tell which one happened. */
  lemma CredentialFailuresAlike(users: Store, crypto: Crypto, email: string, password: string)
    requires email != "" && password != ""
    ensures (forall id :: id in users ==> users[id].email != Lower(email)) ==>
      LoginCheck(users, crypto, email, password) == Deny(InvalidCredentials)
    ensures forall id ::
      (id in users && users[id].email == Lower(email) && users[id].isActive &&
       !crypto.compare(password, users[id].passwordHash) && UniqueEmails(users)) ==>
      LoginCheck(users, crypto, email, password) == Deny(InvalidCredentials)
  {
    forall id | id in users && users[id].email == Lower(email) && UniqueEmails(users)
      ensures FindByEmail(users, Lower(email)) == Some(id)
    {
      FindByEmailUnique(users, Lower(email), id);
    }
  }

  /** A deactivated account is refused before the password is looked at: the
      answer is the same for every non-empty password. */
  lemma DeactivatedBeforePassword(users: Store, crypto: Crypto, email: string, p1: string, p2: string, id: Id)
    requires UniqueEmails(users)
    requires id in users && users[id].email == Lower(email) && !users[id].isActive
    requires email != "" && p1 != "" && p2 != ""
    ensures LoginCheck(users, crypto, email, p1) == Deny(AccountDeactivated)
    ensures LoginCheck(users, crypto, email, p2) == Deny(AccountDeactivated)
  {
    FindByEmailUnique(users, Lower(email), id);
  }

  /** Registration followed by login with the same e-mail and password logs in
      the new account, given only that bcrypt matches a password to its digest. */
  lemma RegisterThenLogin(users: Store, nextId: Id, crypto: Crypto, form: RegisterForm, salt: nat, now: nat)
    requires forall id :: id in users ==> id < nextId
    requires UniqueEmails(users) && UniqueUsernames(users)
    requires HashSound(crypto)
    requires RegisterCheck(users, form) == None
    ensures LoginCheck(users[nextId := NewUser(form, crypto.hash(form.password, SaltRounds, salt), now)],
                       crypto, form.email, form.password) == Accept(nextId)
  {
    var u := NewUser(form, crypto.hash(form.password, SaltRounds, salt), now);
    InsertKeepsUnique(users, nextId, u);
    FindByEmailUnique(users[nextId := u], Lower(form.email), nextId);
  }

  // ---------------------------------------------------------------------------
  // The service
  // ---------------------------------------------------------------------------

  /** The handlers, over the user table. `nextId` is the SERIAL sequence. */
  class AccountService {
    const crypto: Crypto
    var users: Store
    var nextId: Id

    ghost predicate Valid()
      reads this
    {
      (forall id :: id in users ==> id < nextId) && UniqueEmails(users) && UniqueUsernames(users)
    }

    constructor (crypto: Crypto, users: Store, nextId: Id)
      requires forall id :: id in users ==> id < nextId
      requires UniqueEmails(users) && UniqueUsernames(users)
      ensures Valid()
      ensures this.crypto == crypto && this.users == users && this.nextId == nextId
    {
      this.crypto := crypto;
      this.users := users;
      this.nextId := nextId;
    }

    /** `register`. Every rejection leaves the store as it was; success inserts
        exactly one row under a fresh id and issues a token for it. The id
        sequence advances whenever the INSERT runs, even when it then fails. */
    method Register(form: RegisterForm, salt: nat, now: nat) returns (out: RegisterResult)
      requires Valid()
      modifies this
      ensures Valid()
      ensures RegisterCheck(old(users), form).Some? ==>
        out == RegisterRejected(RegisterCheck(old(users), form).value) && users == old(users)
      ensures nextId == if InsertRuns(old(users), form) then old(nextId) + 1 else old(nextId)
      ensures RegisterCheck(old(users), form).None? ==>
        var row := NewUser(form, crypto.hash(form.password, SaltRounds, salt), now);
        old(nextId) !in old(users) &&
        users == old(users)[old(nextId) := row] && nextId == old(nextId) + 1 &&
        out == Registered(GenerateToken(crypto, old(nextId), row.email), PublicOf(old(nextId), row), now)
    {
      if form.email == "" || form.password == "" || form.username == "" || form.fullName == "" {
        return RegisterRejected(MissingFields);
      }
      if !ValidateUniversityEmail(form.email) {
        return RegisterRejected(InvalidEmailDomain);
      }
      if |form.password| < 8 {
        return RegisterRejected(WeakPassword);
      }
      if |form.username| < 3 || |form.username| > 20 {
        return RegisterRejected(InvalidUsername);
      }
      var email, username := Lower(form.email), Lower(form.username);
      if Taken(users, email, username) {
        return RegisterRejected(UserExists);
      }
      var hashed := crypto.hash(form.password, SaltRounds, salt);
      if !YearFits(form) {
        // binding `year` as INTEGER fails before the statement runs
        return RegisterRejected(RegistrationFailed);
      }
      // INSERT ... RETURNING: the `id` default draws from the sequence first
      var id := nextId;
      nextId := nextId + 1;
      if !TextFits(form) {
        // a value wider than its column; the drawn id is not given back
        return RegisterRejected(RegistrationFailed);
      }
      // the row as inserted, before `last_login` is set
      var row := NewUser(form, hashed, now).(lastLogin := None);
      InsertKeepsUnique(users, id, row);
      users := users[id := row];
      var token := GenerateToken(crypto, id, row.email);
      // UPDATE users SET last_login
      users := users[id := users[id].(lastLogin := Some(now))];
      out := Registered(token, PublicOf(id, row), row.createdAt);
    }

    /** `login`. Only an accepted login changes the store, and then only the
        `last_login` of the matched row. */
    method Login(email: string, password: string, now: nat) returns (out: LoginResult)
      requires Valid()
      modifies this
      ensures Valid() && nextId == old(nextId)
      ensures var d := LoginCheck(old(users), crypto, email, password);
        (d.Deny? ==> out == LoginRejected(d.failure) && users == old(users)) &&
        (d.Accept? ==>
          users == old(users)[d.id := old(users)[d.id].(lastLogin := Some(now))] &&
          out == LoggedIn(GenerateToken(crypto, d.id, old(users)[d.id].email), PublicOf(d.id, old(users)[d.id])))
    {
      if email == "" || password == "" {
        return LoginRejected(MissingCredentials);
      }
      var key := Lower(email);
      if !exists id :: id in users && users[id].email == key {
        return LoginRejected(InvalidCredentials);
      }
      var id :| id in users && users[id].email == key;
      FindByEmailUnique(users, key, id);
      var u := users[id];
      if !u.isActive {
        return LoginRejected(AccountDeactivated);
      }
      if !crypto.compare(password, u.passwordHash) {
        return LoginRejected(InvalidCredentials);
      }
      users := users[id := u.(lastLogin := Some(now))];
      var token := GenerateToken(crypto, id, u.email);
      out := LoggedIn(token, PublicOf(id, u));
    }

    /** `getProfile` for the identity the middleware attached. */
    method GetProfile(identity: Identity) returns (out: ProfileResult)
      ensures identity.userId !in users ==> out == ProfileMissing(ProfileNotFound)
      ensures identity.userId in users ==>
        out.ProfileFound? && out.user.id == identity.userId &&
        out.user == ProfileOf(identity.userId, users[identity.userId])
    {
      if identity.userId !in users {
        return ProfileMissing(ProfileNotFound);
      }
      out := ProfileFound(ProfileOf(identity.userId, users[identity.userId]));
    }

    /** `logout`: touches no state and always reports success; the token stays
        valid until it expires. */
    method Logout(identity: Identity) returns (out: LogoutResult)
      ensures out.success && out.message == "Logout successful"
    {
      out := LogoutResult(true, "Logout successful");
    }
  }
}
