/** The authenticated user endpoints: the company directory, the caller's
    profile and the profile update. */
module UserController {
  import opened Wrappers
  import opened Strings
  import opened Tables
  import opened Http
  import opened AuthMiddleware
  import opened AuthController

  const UserNotFound := "User not found"
  const CurrentPasswordIncorrect := "Current password is incorrect"
  const UpdateFailed := "Failed to update profile"
  const ProfileUpdated := "Profile updated successfully"

  /** A directory entry: what `getCompanyUsers` selects (no password, no token). */
  datatype Colleague = Colleague(id: nat, email: string, firstName: Option<string>, lastName: Option<string>,
                                 publicKey: string)

  function AsColleague(u: User): Colleague {
    Colleague(u.id, u.email, u.firstName, u.lastName, u.publicKey)
  }

  /** The `where` of `getCompanyUsers`: same company, not the caller. */
  predicate IsColleague(caller: AuthUser, u: User) {
    u.companyId == caller.companyId && u.id != caller.id
  }

  /** `getCompanyUsers`: every other user of the caller's company, in table order. */
  function CompanyUsers(users: seq<User>, caller: AuthUser): (r: seq<Colleague>)
    ensures |r| <= |users|
    ensures forall c :: c in r ==> c.id != caller.id
    ensures forall c :: c in r ==> exists u :: u in users && IsColleague(caller, u) && c == AsColleague(u)
    ensures forall u :: u in users && IsColleague(caller, u) ==> AsColleague(u) in r
  {
    if users == [] then []
    else
      var rest := CompanyUsers(users[1..], caller);
      assert forall u :: u in users[1..] ==> u in users;
      if IsColleague(caller, users[0]) then [AsColleague(users[0])] + rest else rest
  }

  /** An id no user of the table carries is not in the directory. */
  lemma CompanyUsersAvoid(users: seq<User>, caller: AuthUser, id: nat)
    requires forall k :: 0 <= k < |users| ==> users[k].id != id
    ensures forall c :: c in CompanyUsers(users, caller) ==> c.id != id
  {
  }

  /** No two entries of a directory share an id. */
  predicate ListedOnce(r: seq<Colleague>) {
    forall i, j :: 0 <= i < j < |r| ==> r[i].id != r[j].id
  }

  /** With the table's ids unique, the directory lists each colleague once. */
  lemma {:induction false} CompanyUsersDistinct(users: seq<User>, caller: AuthUser)
    requires forall i, j :: 0 <= i < j < |users| ==> users[i].id != users[j].id
    ensures ListedOnce(CompanyUsers(users, caller))
  {
    if users != [] {
      var tail := users[1..];
      CompanyUsersDistinct(tail, caller);
      var rest := CompanyUsers(tail, caller);
      if IsColleague(caller, users[0]) {
        CompanyUsersAvoid(tail, caller, users[0].id);
        var r := [AsColleague(users[0])] + rest;
        assert CompanyUsers(users, caller) == r;
        forall i, j | 0 <= i < j < |r| ensures r[i].id != r[j].id {
          assert r[j] == rest[j - 1] && rest[j - 1] in rest;
          if i == 0 {
            assert r[0].id == users[0].id;
          } else {
            assert r[i] == rest[i - 1] && rest[i - 1].id != rest[j - 1].id;
          }
        }
      }
    }
  }

  datatype CompanySummary = CompanySummary(id: nat, name: string, domain: string)
  datatype Profile = Profile(id: nat, email: string, firstName: Option<string>, lastName: Option<string>,
                             isEmailVerified: bool, company: CompanySummary)

  /** `getUserProfile`: the caller's row with its company, or 404. */
  function GetUserProfile(users: seq<User>, companies: seq<Company>, caller: AuthUser): (r: Response<Profile>)
    requires UsersHaveCompanies(users, companies)
    ensures r.Reply? <==> UserById(users, caller.id).Some?
    ensures r.Error? ==> r == Error(404, UserNotFound)
    ensures r.Reply? ==>
              (var u := users[UserById(users, caller.id).value];
               r.status == 200 && r.body.id == caller.id && r.body.email == u.email
               && r.body.company.id == u.companyId
               && CompanyById(companies, u.companyId).Some?
               && r.body.company.domain == companies[CompanyById(companies, u.companyId).value].domain)
    ensures r.Reply? ==>
              (var u := users[UserById(users, caller.id).value];
               var c := companies[CompanyById(companies, u.companyId).value];
               r.body == Profile(u.id, u.email, u.firstName, u.lastName, u.isEmailVerified,
                                 CompanySummary(c.id, c.name, c.domain)))
  {
    match UserById(users, caller.id)
    case None => Error(404, UserNotFound)
    case Some(i) =>
      var u := users[i];
      var c := companies[CompanyById(companies, u.companyId).value];
      Reply(200, Profile(u.id, u.email, u.firstName, u.lastName, u.isEmailVerified,
                         CompanySummary(c.id, c.name, c.domain)))
  }

  /** The body of a profile update. An absent name field is `None`; a name
      sent as `null` is `Some(None)`. */
  datatype ProfileChanges = ProfileChanges(
    firstName: Option<Option<string>>, lastName: Option<Option<string>>,
    currentPassword: Option<string>, newPassword: Option<string>)

  datatype UpdatedUser = UpdatedUser(id: nat, email: string, firstName: Option<string>, lastName: Option<string>)
  datatype ProfileUpdate = ProfileUpdate(message: string, user: UpdatedUser)

  /** The password is changed only when both the current and the new one are given. */
  predicate ChangesPassword(changes: ProfileChanges) {
    Truthy(changes.currentPassword) && Truthy(changes.newPassword)
  }

  /** A password change whose current password does not match is refused. */
  predicate WrongCurrentPassword(u: User, changes: ProfileChanges, bcrypt: Bcrypt) {
    ChangesPassword(changes) && !bcrypt.compare(changes.currentPassword.value, u.password)
  }

  /** The row after an accepted update. */
  function Updated(u: User, changes: ProfileChanges, bcrypt: Bcrypt): (v: User)
    ensures v.id == u.id && v.email == u.email && v.publicKey == u.publicKey && v.companyId == u.companyId
    ensures v.isEmailVerified == u.isEmailVerified && v.verificationToken == u.verificationToken
    ensures changes.firstName.None? ==> v.firstName == u.firstName
    ensures changes.firstName.Some? ==> v.firstName == changes.firstName.value
    ensures changes.lastName.None? ==> v.lastName == u.lastName
    ensures changes.lastName.Some? ==> v.lastName == changes.lastName.value
    ensures !ChangesPassword(changes) ==> v.password == u.password
    ensures ChangesPassword(changes) ==> v.password == bcrypt.hash(changes.newPassword.value)
  {
    u.(firstName := if changes.firstName.Some? then changes.firstName.value else u.firstName,
       lastName := if changes.lastName.Some? then changes.lastName.value else u.lastName,
       password := if ChangesPassword(changes) then bcrypt.hash(changes.newPassword.value) else u.password)
  }

  /** `updateUserProfile`. A caller with no row gets 500 (the source dereferences
      the missing row, or the update throws); a wrong current password gets
      401 and nothing is written. */
  method UpdateUserProfile(db: Database, bcrypt: Bcrypt, caller: AuthUser, changes: ProfileChanges)
    returns (resp: Response<ProfileUpdate>)
    requires db.Valid()
    modifies db
    ensures db.Valid()
    ensures db.companies == old(db.companies) && db.secrets == old(db.secrets)
    ensures UserById(old(db.users), caller.id).None? ==>
              resp == Error(500, UpdateFailed) && db.users == old(db.users)
    ensures (var i := UserById(old(db.users), caller.id);
             i.Some? && WrongCurrentPassword(old(db.users)[i.value], changes, bcrypt) ==>
               resp == Error(401, CurrentPasswordIncorrect) && db.users == old(db.users))
    ensures (var i := UserById(old(db.users), caller.id);
             i.Some? && !WrongCurrentPassword(old(db.users)[i.value], changes, bcrypt) ==>
               (var v := Updated(old(db.users)[i.value], changes, bcrypt);
                db.users == old(db.users)[i.value := v]
                && resp == Reply(200, ProfileUpdate(ProfileUpdated, UpdatedUser(v.id, v.email, v.firstName, v.lastName)))))
  {
    var found := UserById(db.users, caller.id);
    if found.None? {
      return Error(500, UpdateFailed);
    }
    var i := found.value;
    if WrongCurrentPassword(db.users[i], changes, bcrypt) {
      return Error(401, CurrentPasswordIncorrect);
    }
    var v := Updated(db.users[i], changes, bcrypt);
    assert CompanyById(db.companies, v.companyId).Some?;
    db.UpdateUser(i, v);
    resp := Reply(200, ProfileUpdate(ProfileUpdated, UpdatedUser(v.id, v.email, v.firstName, v.lastName)));
  }

  /** An update with no field set writes the row back unchanged. */
  lemma EmptyUpdateKeepsRow(u: User, bcrypt: Bcrypt)
    ensures Updated(u, ProfileChanges(None, None, None, None), bcrypt) == u
  {
  }

  /** After a password change the new password logs in. */
  lemma {:induction false} NewPasswordLogsIn(users: seq<User>, nextId: nat, i: nat, changes: ProfileChanges,
                                             bcrypt: Bcrypt, sign: Signer)
    requires UsersWellFormed(users, nextId) && i < |users| && users[i].email != ""
    requires HashVerifies(bcrypt) && ChangesPassword(changes)
    ensures (var after := users[i := Updated(users[i], changes, bcrypt)];
             Login(after, bcrypt, sign, LoginBody(Some(users[i].email), changes.newPassword)).Reply?)
  {
    var after := users[i := Updated(users[i], changes, bcrypt)];
    assert UsersWellFormed(after, nextId);
    LookupFindsStoredUser(after, nextId, i);
    assert bcrypt.compare(changes.newPassword.value, bcrypt.hash(changes.newPassword.value));
  }
}
