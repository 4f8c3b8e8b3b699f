/** The relay's database (users, companies, secrets), held in memory in
    place of the Prisma client. Ids are assigned by auto-increment from 1.
    The lookups by email and by domain are `findUnique` calls, so those
    columns are unique; `verificationToken` is looked up with `findFirst`
    and is not. */
module Tables {
  import opened Wrappers

  datatype User = User(
    id: nat, email: string, password: string,
    firstName: Option<string>, lastName: Option<string>, publicKey: string,
    companyId: nat, isEmailVerified: bool, verificationToken: Option<string>)

  datatype Company = Company(id: nat, name: string, domain: string)

  datatype Secret = Secret(
    id: nat, encryptedData: string, senderId: nat, receiverId: nat,
    isRead: bool, createdAt: int)

  /** The first position whose element satisfies `p`. */
  function FirstIndex<T>(s: seq<T>, p: T -> bool): (r: Option<nat>)
    ensures r.Some? ==> r.value < |s| && p(s[r.value])
    ensures r.Some? ==> forall j :: 0 <= j < r.value ==> !p(s[j])
    ensures r.None? ==> forall j :: 0 <= j < |s| ==> !p(s[j])
  {
    if s == [] then None
    else if p(s[0]) then Some(0)
    else match FirstIndex(s[1..], p)
      case None => None
      case Some(i) => Some(i + 1)
  }

  /** `prisma.user.findUnique({ where: { id } })`, as a position. */
  function UserById(users: seq<User>, id: int): Option<nat> {
    FirstIndex(users, (u: User) => u.id == id)
  }

  /** `prisma.user.findUnique({ where: { email } })`, as a position. */
  function UserByEmail(users: seq<User>, email: string): Option<nat> {
    FirstIndex(users, (u: User) => u.email == email)
  }

  /** `prisma.company.findUnique({ where: { domain } })`, as a position. */
  function CompanyByDomain(companies: seq<Company>, domain: string): Option<nat> {
    FirstIndex(companies, (c: Company) => c.domain == domain)
  }

  /** `prisma.secret.findUnique({ where: { id } })`, as a position. */
  function SecretById(secrets: seq<Secret>, id: int): Option<nat> {
    FirstIndex(secrets, (s: Secret) => s.id == id)
  }

  ghost predicate UsersWellFormed(users: seq<User>, nextId: nat) {
    0 < nextId
    && (forall i :: 0 <= i < |users| ==> 0 < users[i].id < nextId)
    && (forall i, j :: 0 <= i < j < |users| ==> users[i].id != users[j].id && users[i].email != users[j].email)
  }

  ghost predicate CompaniesWellFormed(companies: seq<Company>, nextId: nat) {
    0 < nextId
    && (forall i :: 0 <= i < |companies| ==> 0 < companies[i].id < nextId)
    && (forall i, j :: 0 <= i < j < |companies| ==>
          companies[i].id != companies[j].id && companies[i].domain != companies[j].domain)
  }

  ghost predicate SecretsWellFormed(secrets: seq<Secret>, nextId: nat) {
    0 < nextId
    && (forall i :: 0 <= i < |secrets| ==> 0 < secrets[i].id < nextId)
    && (forall i, j :: 0 <= i < j < |secrets| ==> secrets[i].id != secrets[j].id)
  }

  /** `prisma.company.findUnique({ where: { id } })`, as a position. */
  function CompanyById(companies: seq<Company>, id: int): Option<nat> {
    FirstIndex(companies, (c: Company) => c.id == id)
  }

  /** Appending an element leaves an earlier match in place, and otherwise
      finds the new element exactly when it matches. */
  lemma {:induction false} FirstIndexAppend<T>(s: seq<T>, x: T, p: T -> bool)
    ensures FirstIndex(s + [x], p) ==
              if FirstIndex(s, p).Some? then FirstIndex(s, p) else if p(x) then Some(|s|) else None
  {
    if s != [] {
      assert (s + [x])[1..] == s[1..] + [x];
      FirstIndexAppend(s[1..], x, p);
    }
  }

  /** Replacing an element by one that agrees with it on `p` does not move any match. */
  lemma {:induction false} FirstIndexUpdate<T>(s: seq<T>, i: nat, y: T, p: T -> bool)
    requires i < |s| && p(y) == p(s[i])
    ensures FirstIndex(s[i := y], p) == FirstIndex(s, p)
  {
    if i > 0 {
      assert s[i := y][1..] == s[1..][i - 1 := y];
      FirstIndexUpdate(s[1..], i - 1, y, p);
    }
  }

  /** With distinct ids and emails, looking a stored user up by id or by email finds that user. */
  lemma LookupFindsStoredUser(users: seq<User>, nextId: nat, i: nat)
    requires UsersWellFormed(users, nextId) && i < |users|
    ensures UserById(users, users[i].id) == Some(i)
    ensures UserByEmail(users, users[i].email) == Some(i)
  {
  }

  /** With distinct ids, looking a stored company up by id finds that company. */
  lemma LookupFindsStoredCompany(companies: seq<Company>, nextId: nat, i: nat)
    requires CompaniesWellFormed(companies, nextId) && i < |companies|
    ensures CompanyById(companies, companies[i].id) == Some(i)
  {
  }

  /** Every user belongs to a stored company. */
  ghost predicate UsersHaveCompanies(users: seq<User>, companies: seq<Company>) {
    forall i :: 0 <= i < |users| ==> CompanyById(companies, users[i].companyId).Some?
  }

  /** Every secret names a stored sender and a stored receiver. */
  ghost predicate SecretsHaveParties(secrets: seq<Secret>, users: seq<User>) {
    forall i :: 0 <= i < |secrets| ==>
      UserById(users, secrets[i].senderId).Some? && UserById(users, secrets[i].receiverId).Some?
  }

  /** A new record with the next id and stored parties keeps the secrets table well formed. */
  lemma SecretAppended(secrets: seq<Secret>, users: seq<User>, nextId: nat, s: Secret)
    requires SecretsWellFormed(secrets, nextId) && SecretsHaveParties(secrets, users)
    requires s.id == nextId && UserById(users, s.senderId).Some? && UserById(users, s.receiverId).Some?
    ensures SecretsWellFormed(secrets + [s], nextId + 1) && SecretsHaveParties(secrets + [s], users)
  {
    var t := secrets + [s];
    assert forall k :: 0 <= k < |secrets| ==> t[k] == secrets[k];
    assert t[|secrets|] == s;
  }

  /** Replacing a record by one with the same id and parties keeps the table well formed. */
  lemma SecretReplaced(secrets: seq<Secret>, users: seq<User>, nextId: nat, i: nat, s: Secret)
    requires SecretsWellFormed(secrets, nextId) && SecretsHaveParties(secrets, users)
    requires i < |secrets| && s.id == secrets[i].id
    requires s.senderId == secrets[i].senderId && s.receiverId == secrets[i].receiverId
    ensures SecretsWellFormed(secrets[i := s], nextId) && SecretsHaveParties(secrets[i := s], users)
  {
    var t := secrets[i := s];
    assert forall k :: 0 <= k < |t| ==> t[k].id == secrets[k].id;
    assert forall k :: 0 <= k < |t| ==> t[k].senderId == secrets[k].senderId && t[k].receiverId == secrets[k].receiverId;
  }

  class Database {
    var users: seq<User>
    var companies: seq<Company>
    var secrets: seq<Secret>
    var nextUserId: nat
    var nextCompanyId: nat
    var nextSecretId: nat

    /** Ids are below the next id to assign and distinct; emails and domains
        are unique; foreign keys resolve. */
    ghost predicate Valid()
      reads this
    {
      UsersWellFormed(users, nextUserId)
      && CompaniesWellFormed(companies, nextCompanyId)
      && SecretsWellFormed(secrets, nextSecretId)
      && UsersHaveCompanies(users, companies)
      && SecretsHaveParties(secrets, users)
    }

    constructor ()
      ensures Valid()
      ensures users == [] && companies == [] && secrets == []
    {
      users, companies, secrets := [], [], [];
      nextUserId, nextCompanyId, nextSecretId := 1, 1, 1;
    }

    /** `prisma.company.create`; the domain column is unique. */
    method CreateCompany(name: string, domain: string) returns (c: Company)
      requires Valid()
      requires CompanyByDomain(companies, domain).None?
      modifies this
      ensures Valid()
      ensures c == Company(old(nextCompanyId), name, domain)
      ensures companies == old(companies) + [c] && nextCompanyId == old(nextCompanyId) + 1
      ensures users == old(users) && secrets == old(secrets)
      ensures nextUserId == old(nextUserId) && nextSecretId == old(nextSecretId)
    {
      c := Company(nextCompanyId, name, domain);
      forall id | CompanyById(companies, id).Some?
        ensures CompanyById(companies + [c], id).Some?
      {
        FirstIndexAppend(companies, c, (x: Company) => x.id == id);
      }
      companies := companies + [c];
      nextCompanyId := nextCompanyId + 1;
    }

    /** `prisma.user.create`, with `isEmailVerified` at its default `false`;
        the email column is unique and `companyId` must name a company. */
    method CreateUser(email: string, password: string, firstName: Option<string>, lastName: Option<string>,
                      publicKey: string, companyId: nat, verificationToken: string) returns (u: User)
      requires Valid()
      requires UserByEmail(users, email).None?
      requires CompanyById(companies, companyId).Some?
      modifies this
      ensures Valid()
      ensures u == User(old(nextUserId), email, password, firstName, lastName, publicKey,
                        companyId, false, Some(verificationToken))
      ensures users == old(users) + [u] && nextUserId == old(nextUserId) + 1
      ensures companies == old(companies) && secrets == old(secrets)
      ensures nextCompanyId == old(nextCompanyId) && nextSecretId == old(nextSecretId)
    {
      u := User(nextUserId, email, password, firstName, lastName, publicKey, companyId, false, Some(verificationToken));
      forall id | UserById(users, id).Some?
        ensures UserById(users + [u], id).Some?
      {
        FirstIndexAppend(users, u, (x: User) => x.id == id);
      }
      users := users + [u];
      nextUserId := nextUserId + 1;
    }

    /** `prisma.user.update` of the user at position `i`; id and email stay. */
    method UpdateUser(i: nat, u: User)
      requires Valid()
      requires i < |users| && u.id == users[i].id && u.email == users[i].email
      requires CompanyById(companies, u.companyId).Some?
      modifies this
      ensures Valid()
      ensures users == old(users)[i := u]
      ensures companies == old(companies) && secrets == old(secrets)
      ensures nextUserId == old(nextUserId) && nextCompanyId == old(nextCompanyId) && nextSecretId == old(nextSecretId)
    {
      forall id
        ensures UserById(users[i := u], id) == UserById(users, id)
      {
        FirstIndexUpdate(users, i, u, (x: User) => x.id == id);
      }
      users := users[i := u];
    }

    /** `prisma.secret.create`, with `isRead` at its default `false` and
        `createdAt` at its default, the current time `now`. */
    method CreateSecret(encryptedData: string, senderId: nat, receiverId: nat, now: int) returns (s: Secret)
      requires Valid()
      requires UserById(users, senderId).Some? && UserById(users, receiverId).Some?
      modifies this
      ensures Valid()
      ensures s == Secret(old(nextSecretId), encryptedData, senderId, receiverId, false, now)
      ensures secrets == old(secrets) + [s] && nextSecretId == old(nextSecretId) + 1
      ensures users == old(users) && companies == old(companies)
      ensures nextUserId == old(nextUserId) && nextCompanyId == old(nextCompanyId)
    {
      s := Secret(nextSecretId, encryptedData, senderId, receiverId, false, now);
      SecretAppended(secrets, users, nextSecretId, s);
      secrets := secrets + [s];
      nextSecretId := nextSecretId + 1;
    }

    /** `prisma.secret.update` of the secret at position `i`; id and parties stay. */
    method UpdateSecret(i: nat, s: Secret)
      requires Valid()
      requires i < |secrets| && s.id == secrets[i].id
      requires s.senderId == secrets[i].senderId && s.receiverId == secrets[i].receiverId
      modifies this
      ensures Valid()
      ensures secrets == old(secrets)[i := s]
      ensures users == old(users) && companies == old(companies)
      ensures nextUserId == old(nextUserId) && nextCompanyId == old(nextCompanyId) && nextSecretId == old(nextSecretId)
    {
      SecretReplaced(secrets, users, nextSecretId, i, s);
      secrets := secrets[i := s];
    }
  }
}
