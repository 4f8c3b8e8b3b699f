/** The `authenticate` middleware that guards the user and secret routes:
    it reads a bearer token, resolves it to a user and either attaches that
    user to the request or answers 401/403. */
module AuthMiddleware {
  import opened Wrappers
  import opened Strings
  import opened Tables

  const Scheme := "Bearer "
  const NoTokenProvided := "No token provided"
  const InvalidToken := "Invalid token"
  const EmailNotVerified := "Email not verified"

  /** What the middleware attaches to `req.user`. */
  datatype AuthUser = AuthUser(id: nat, email: string, companyId: nat)

  /** `jwt.verify(token, JWT_SECRET).userId`: `None` when verification
      throws (bad signature, expired, malformed) or the payload has no
      usable `userId`. The signing secret is inside the function. */
  type Verifier = string -> Option<int>

  /** `authHeader.split(' ')[1]` for a header that starts with `Bearer `:
      the text after the scheme up to the next space. */
  function BearerToken(header: string): (token: string)
    requires StartsWith(header, Scheme)
    ensures ' ' !in token
    ensures StartsWith(header[|Scheme|..], token)
    ensures |Scheme| + |token| < |header| ==> header[|Scheme| + |token|] == ' '
  {
    var rest := header[|Scheme|..];
    assert header == "Bearer" + [' '] + rest;
    SplitAfterField("Bearer", ' ', rest);
    FirstField(rest, ' ');
    Split(rest, ' ')[0]
  }

  /** The token the client builds (`Bearer ${token}`) is the one the middleware verifies. */
  lemma BearerTokenRoundTrip(token: string)
    requires ' ' !in token
    ensures StartsWith(Scheme + token, Scheme)
    ensures BearerToken(Scheme + token) == token
  {
    assert (Scheme + token)[|Scheme|..] == token;
    FirstField(token, ' ');
  }

  /** The position of the user a well-formed bearer header names, if any. */
  function TokenHolder(authorization: Option<string>, verify: Verifier, users: seq<User>): (i: Option<nat>)
    ensures i.Some? ==> i.value < |users| && Truthy(authorization) && StartsWith(authorization.value, Scheme)
    ensures i.Some? ==> verify(BearerToken(authorization.value)) == Some(users[i.value].id)
    ensures (Truthy(authorization) && StartsWith(authorization.value, Scheme)
             && verify(BearerToken(authorization.value)).Some?) ==>
              i == UserById(users, verify(BearerToken(authorization.value)).value)
    ensures (!Truthy(authorization) || !StartsWith(authorization.value, Scheme)
             || verify(BearerToken(authorization.value)).None?) ==> i.None?
  {
    if !Truthy(authorization) || !StartsWith(authorization.value, Scheme) then None
    else match verify(BearerToken(authorization.value))
      case None => None
      case Some(id) => UserById(users, id)
  }

  datatype Decision = Admit(user: AuthUser) | Deny(status: nat, message: string)

  /** What `authenticate` decides for a request with this `Authorization` header. */
  function Decide(authorization: Option<string>, verify: Verifier, users: seq<User>): (d: Decision)
    ensures !Truthy(authorization) || !StartsWith(authorization.value, Scheme) ==> d == Deny(401, NoTokenProvided)
    ensures (Truthy(authorization) && StartsWith(authorization.value, Scheme)
             && TokenHolder(authorization, verify, users).None?) ==> d == Deny(401, InvalidToken)
    ensures d.Admit? <==> (var i := TokenHolder(authorization, verify, users); i.Some? && users[i.value].isEmailVerified)
    ensures d == Deny(403, EmailNotVerified) <==>
              (var i := TokenHolder(authorization, verify, users); i.Some? && !users[i.value].isEmailVerified)
    ensures d.Admit? ==> (var u := users[TokenHolder(authorization, verify, users).value];
                          d.user == AuthUser(u.id, u.email, u.companyId))
  {
    if !Truthy(authorization) || !StartsWith(authorization.value, Scheme) then Deny(401, NoTokenProvided)
    else match TokenHolder(authorization, verify, users)
      case None => Deny(401, InvalidToken)
      case Some(i) =>
        if !users[i].isEmailVerified then Deny(403, EmailNotVerified)
        else Admit(AuthUser(users[i].id, users[i].email, users[i].companyId))
  }

  /** A request the client signs with `Bearer <token>` is admitted exactly when
      the token verifies to the id of a stored user whose email is verified,
      and is then attributed to that user. */
  lemma {:induction false} ClientTokenAdmitted(token: string, verify: Verifier, users: seq<User>)
    requires token != "" && ' ' !in token
    ensures Decide(Some(Scheme + token), verify, users).Admit? <==>
              (verify(token).Some? && UserById(users, verify(token).value).Some?
               && users[UserById(users, verify(token).value).value].isEmailVerified)
    ensures Decide(Some(Scheme + token), verify, users).Admit? ==>
              Decide(Some(Scheme + token), verify, users).user.id == verify(token).value
  {
    BearerTokenRoundTrip(token);
  }

  /** An incoming request: its `Authorization` header and the `user` the middleware may attach. */
  class Request {
    const authorization: Option<string>
    var user: Option<AuthUser>

    constructor (authorization: Option<string>)
      ensures this.authorization == authorization && user == None
    {
      this.authorization := authorization;
      user := None;
    }
  }

  /** Either the middleware hands the request on (`next()`) or it answers. */
  datatype Outcome = CallNext | Respond(status: nat, message: string)

  method Authenticate(req: Request, verify: Verifier, db: Database) returns (out: Outcome)
    modifies req
    ensures out == CallNext <==> Decide(req.authorization, verify, db.users).Admit?
    ensures out == CallNext ==> req.user == Some(Decide(req.authorization, verify, db.users).user)
    ensures out.Respond? ==> req.user == old(req.user)
    ensures out.Respond? ==> (var d := Decide(req.authorization, verify, db.users);
                              out.status == d.status && out.message == d.message)
  {
    var d := Decide(req.authorization, verify, db.users);
    if d.Admit? {
      req.user := Some(d.user);
      out := CallNext;
    } else {
      out := Respond(d.status, d.message);
    }
  }
}
