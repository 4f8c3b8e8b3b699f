/** The public authentication endpoints: `register`, `login` and `verifyEmail`. */
module AuthController {
  import opened Wrappers
  import opened Octets
  import opened Strings
  import opened Tables
  import opened Http
  import opened AuthMiddleware

  const MissingRegistrationFields := "Email, password, and publicKey are required"
  const InvalidEmailFormat := "Invalid email format"
  const UserExists := "User with this email already exists"
  const UserRegistered := "User registered successfully! Please verify your email."
  const MissingCredentials := "Email and password are required"
  const InvalidCredentials := "Invalid credentials"
  const LoginSuccessful := "Login successful"
  const InvalidVerificationToken := "Invalid or expired verification token"
  const EmailVerified := "Email verified successfully"
  /** `crypto.randomBytes(32)` for the verification token. */
  const TokenBytes := 32

  /** bcrypt at cost 10. The random salt `hash` draws is part of the function. */
  datatype Bcrypt = Bcrypt(hash: string -> string, compare: (string, string) -> bool)

  /** A password matches its own hash. */
  ghost predicate HashVerifies(b: Bcrypt) {
    forall p :: b.compare(p, b.hash(p))
  }

  /** `jwt.sign({ userId, email }, JWT_SECRET, { expiresIn })`. */
  type Signer = (nat, string) -> string

  /** A token `sign` issues is a non-empty compact JWT (no spaces) that `verify`
      accepts and resolves to the id it was issued for. */
  ghost predicate SignedTokensVerify(sign: Signer, verify: Verifier) {
    forall id: nat, email: string {:trigger sign(id, email)} ::
      sign(id, email) != "" && ' ' !in sign(id, email) && verify(sign(id, email)) == Some(id as int)
  }

  /** `email.split('@')[1]`: the text between the first and the second `@`. */
  function EmailDomain(email: string): (d: Option<string>)
    ensures d.Some? ==> '@' !in d.value
  {
    Field(email, '@', 1)
  }

  /** For `local@domain` the domain is what follows the `@`; a further `@` ends it. */
  lemma EmailDomainOf(local: string, domain: string, rest: string)
    requires '@' !in local && '@' !in domain
    ensures EmailDomain(local + "@" + domain) == Some(domain)
    ensures EmailDomain(local + "@" + domain + "@" + rest) == Some(domain)
    ensures EmailDomain(local).None?
  {
    SecondField(local, '@', domain, rest);
    SecondFieldExists(local, '@');
  }

  /** `emailDomain.split('.')[0]`: the domain up to its first dot. */
  function CompanyName(domain: string): (name: string)
    ensures '.' !in name && StartsWith(domain, name)
    ensures |name| < |domain| ==> domain[|name|] == '.'
  {
    FirstField(domain, '.');
    Split(domain, '.')[0]
  }

  datatype RegisterBody = RegisterBody(
    email: Option<string>, password: Option<string>,
    firstName: Option<string>, lastName: Option<string>, publicKey: Option<string>)

  datatype Registered = Registered(message: string, verificationToken: string, userId: nat)

  /** The checks `register` makes before it writes anything, in their order. */
  function RegistrationError(body: RegisterBody, users: seq<User>): (e: Option<string>)
    ensures (!Truthy(body.email) || !Truthy(body.password) || !Truthy(body.publicKey)) ==>
              e == Some(MissingRegistrationFields)
    ensures (Truthy(body.email) && Truthy(body.password) && Truthy(body.publicKey)
             && !Truthy(EmailDomain(body.email.value))) ==> e == Some(InvalidEmailFormat)
    ensures e.None? <==>
              (Truthy(body.email) && Truthy(body.password) && Truthy(body.publicKey)
               && Truthy(EmailDomain(body.email.value)) && UserByEmail(users, body.email.value).None?)
    ensures (Truthy(body.email) && Truthy(body.password) && Truthy(body.publicKey)
             && Truthy(EmailDomain(body.email.value)) && UserByEmail(users, body.email.value).Some?) ==>
              e == Some(UserExists)
  {
    if !Truthy(body.email) || !Truthy(body.password) || !Truthy(body.publicKey) then Some(MissingRegistrationFields)
    else if !Truthy(EmailDomain(body.email.value)) then Some(InvalidEmailFormat)
    else if UserByEmail(users, body.email.value).Some? then Some(UserExists)
    else None
  }

  /** `register`: validates, finds or creates the company of the email's
      domain, stores the user unverified with a hashed password and a fresh
      verification token, and answers 201. `randomBytes` are the 32 bytes
      `crypto.randomBytes` returns. */
  method Register(db: Database, bcrypt: Bcrypt, body: RegisterBody, randomBytes: Bytes)
    returns (resp: Response<Registered>)
    requires db.Valid()
    requires |randomBytes| == TokenBytes
    modifies db
    ensures db.Valid()
    ensures db.secrets == old(db.secrets)
    ensures RegistrationError(body, old(db.users)).Some? ==>
              resp == Error(400, RegistrationError(body, old(db.users)).value)
              && db.users == old(db.users) && db.companies == old(db.companies)
    ensures RegistrationError(body, old(db.users)).None? ==>
              (var email := body.email.value;
               var domain := EmailDomain(email).value;
               var k := CompanyByDomain(db.companies, domain);
               k.Some?
               && db.users == old(db.users) + [User(old(db.nextUserId), email, bcrypt.hash(body.password.value),
                                                    body.firstName, body.lastName, body.publicKey.value,
                                                    db.companies[k.value].id, false, Some(Hex(randomBytes)))]
               && db.companies == (if CompanyByDomain(old(db.companies), domain).Some? then old(db.companies)
                                   else old(db.companies) + [Company(old(db.nextCompanyId), CompanyName(domain), domain)])
               && resp == Reply(201, Registered(UserRegistered, Hex(randomBytes), old(db.nextUserId)))
               && |resp.body.verificationToken| == 2 * TokenBytes)
  {
    var error := RegistrationError(body, db.users);
    if error.Some? {
      return Error(400, error.value);
    }
    var email := body.email.value;
    var domain := EmailDomain(email).value;
    var found := CompanyByDomain(db.companies, domain);
    var company: Company;
    if found.None? {
      company := db.CreateCompany(CompanyName(domain), domain);
      FirstIndexAppend(old(db.companies), company, (c: Company) => c.domain == domain);
      FirstIndexAppend(old(db.companies), company, (c: Company) => c.id == company.id);
    } else {
      company := db.companies[found.value];
      LookupFindsStoredCompany(db.companies, db.nextCompanyId, found.value);
    }
    var verificationToken := Hex(randomBytes);
    var user := db.CreateUser(email, bcrypt.hash(body.password.value), body.firstName, body.lastName,
                              body.publicKey.value, company.id, verificationToken);
    resp := Reply(201, Registered(UserRegistered, verificationToken, user.id));
  }

  datatype LoginBody = LoginBody(email: Option<string>, password: Option<string>)
  datatype LoginUser = LoginUser(id: nat, email: string, firstName: Option<string>, lastName: Option<string>,
                                 isEmailVerified: bool)
  datatype LoggedIn = LoggedIn(message: string, token: string, user: LoginUser)

  /** `login`: no database change; the email-verification check is disabled in the source. */
  function Login(users: seq<User>, bcrypt: Bcrypt, sign: Signer, body: LoginBody): (r: Response<LoggedIn>)
    ensures (!Truthy(body.email) || !Truthy(body.password)) ==> r == Error(400, MissingCredentials)
    ensures r.Reply? <==>
              (Truthy(body.email) && Truthy(body.password)
               && var i := UserByEmail(users, body.email.value);
                  i.Some? && bcrypt.compare(body.password.value, users[i.value].password))
    ensures r.Reply? ==>
              (var u := users[UserByEmail(users, body.email.value).value];
               r == Reply(200, LoggedIn(LoginSuccessful, sign(u.id, u.email),
                                        LoginUser(u.id, u.email, u.firstName, u.lastName, u.isEmailVerified))))
    ensures r.Error? ==> r == Error(400, MissingCredentials) || r == Error(401, InvalidCredentials)
    ensures Truthy(body.email) && Truthy(body.password) && !r.Reply? ==> r == Error(401, InvalidCredentials)
  {
    if !Truthy(body.email) || !Truthy(body.password) then Error(400, MissingCredentials)
    else match UserByEmail(users, body.email.value)
      case None => Error(401, InvalidCredentials)
      case Some(i) =>
        var u := users[i];
        if !bcrypt.compare(body.password.value, u.password) then Error(401, InvalidCredentials)
        else Reply(200, LoggedIn(LoginSuccessful, sign(u.id, u.email),
                                 LoginUser(u.id, u.email, u.firstName, u.lastName, u.isEmailVerified)))
  }

  /** An unknown email and a wrong password get the same answer, so a
      failed login does not reveal whether the account exists. */
  lemma LoginFailuresAlike(users: seq<User>, bcrypt: Bcrypt, sign: Signer,
                           unknown: string, known: string, guess1: string, guess2: string)
    requires unknown != "" && known != "" && guess1 != "" && guess2 != ""
    requires UserByEmail(users, unknown).None?
    requires UserByEmail(users, known).Some?
    requires !bcrypt.compare(guess2, users[UserByEmail(users, known).value].password)
    ensures Login(users, bcrypt, sign, LoginBody(Some(unknown), Some(guess1)))
         == Login(users, bcrypt, sign, LoginBody(Some(known), Some(guess2)))
  {
  }

  /** Whoever has just registered can log in with the same email and password. */
  lemma {:induction false} RegisterThenLogin(users: seq<User>, nextId: nat, bcrypt: Bcrypt, sign: Signer, u: User, password: string)
    requires UsersWellFormed(users + [u], nextId)
    requires HashVerifies(bcrypt) && u.password == bcrypt.hash(password)
    requires u.email != "" && password != ""
    ensures Login(users + [u], bcrypt, sign, LoginBody(Some(u.email), Some(password))).Reply?
    ensures Login(users + [u], bcrypt, sign, LoginBody(Some(u.email), Some(password))).body.token == sign(u.id, u.email)
  {
    LookupFindsStoredUser(users + [u], nextId, |users|);
    assert bcrypt.compare(password, bcrypt.hash(password));
  }

  /** The token `login` issues authenticates its holder at the middleware,
      exactly when the email has been verified. */
  lemma LoginTokenAuthenticates(users: seq<User>, nextId: nat, bcrypt: Bcrypt, sign: Signer, verify: Verifier,
                                body: LoginBody)
    requires UsersWellFormed(users, nextId) && SignedTokensVerify(sign, verify)
    requires Login(users, bcrypt, sign, body).Reply?
    ensures (var r := Login(users, bcrypt, sign, body);
             var d := Decide(Some(Scheme + r.body.token), verify, users);
             (d.Admit? <==> r.body.user.isEmailVerified)
             && (d.Admit? ==> d.user.id == r.body.user.id && d.user.email == r.body.user.email))
  {
    var i := UserByEmail(users, body.email.value).value;
    var token := sign(users[i].id, users[i].email);
    LookupFindsStoredUser(users, nextId, i);
    ClientTokenAdmitted(token, verify, users);
  }

  /** The user a verification link names: the first holding that token. */
  function TokenHolderAt(users: seq<User>, token: string): Option<nat> {
    FirstIndex(users, (u: User) => u.verificationToken == Some(token))
  }

  /** `verifyEmail`: marks the holder of the token verified and spends the token. */
  method VerifyEmail(db: Database, token: string) returns (resp: Response<string>)
    requires db.Valid()
    modifies db
    ensures db.Valid()
    ensures db.companies == old(db.companies) && db.secrets == old(db.secrets)
    ensures TokenHolderAt(old(db.users), token).None? ==>
              resp == Error(400, InvalidVerificationToken) && db.users == old(db.users)
    ensures TokenHolderAt(old(db.users), token).Some? ==>
              (var i := TokenHolderAt(old(db.users), token).value;
               resp == Reply(200, EmailVerified)
               && db.users == old(db.users)[i := old(db.users)[i].(isEmailVerified := true, verificationToken := None)])
  {
    var found := TokenHolderAt(db.users, token);
    if found.None? {
      return Error(400, InvalidVerificationToken);
    }
    var i := found.value;
    LookupFindsStoredUser(db.users, db.nextUserId, i);
    db.UpdateUser(i, db.users[i].(isEmailVerified := true, verificationToken := None));
    resp := Reply(200, EmailVerified);
  }

  /** When no other user holds the same token, a verification link works once:
      afterwards nobody holds the token, so a second use is rejected. */
  lemma {:induction false} VerificationTokenSpent(users: seq<User>, token: string)
    requires TokenHolderAt(users, token).Some?
    requires forall j :: 0 <= j < |users| && j != TokenHolderAt(users, token).value ==>
               users[j].verificationToken != Some(token)
    ensures (var i := TokenHolderAt(users, token).value;
             TokenHolderAt(users[i := users[i].(isEmailVerified := true, verificationToken := None)], token).None?)
  {
    var i := TokenHolderAt(users, token).value;
    var after := users[i := users[i].(isEmailVerified := true, verificationToken := None)];
    forall j | 0 <= j < |after|
      ensures after[j].verificationToken != Some(token)
    {
      if j == i {
        assert after[j].verificationToken == None;
      }
    }
  }
}
