/** The authenticated secret endpoints. The relay stores only the
    ciphertext a client sends; it never sees a key or a plaintext. */
module SecretController {
  import opened Wrappers
  import opened Strings
  import opened Tables
  import opened Http
  import opened AuthMiddleware

  const MissingSecretFields := "Receiver ID and encrypted data are required"
  const ReceiverNotFound := "Receiver not found"
  const SecretShared := "Secret shared successfully"
  const SecretNotFound := "Secret not found"
  const AccessDenied := "Access denied"
  const SecretMarkedRead := "Secret marked as read"

  /** JavaScript truthiness of a numeric body field: absent and `0` are falsy. */
  predicate Present(n: Option<int>) {
    n.Some? && n.value != 0
  }

  datatype SecretCreated = SecretCreated(message: string, secretId: nat)

  /** `createSecret`. The sender is the authenticated caller, whom the
      middleware found in the user table. Any stored user can receive; the
      source does not require the same company. */
  method CreateSecret(db: Database, caller: AuthUser, receiverId: Option<int>, encryptedData: Option<string>, now: int)
    returns (resp: Response<SecretCreated>)
    requires db.Valid()
    requires UserById(db.users, caller.id).Some?
    modifies db
    ensures db.Valid()
    ensures db.users == old(db.users) && db.companies == old(db.companies)
    ensures (!Present(receiverId) || !Truthy(encryptedData)) ==>
              resp == Error(400, MissingSecretFields) && db.secrets == old(db.secrets)
    ensures (Present(receiverId) && Truthy(encryptedData) && UserById(db.users, receiverId.value).None?) ==>
              resp == Error(404, ReceiverNotFound) && db.secrets == old(db.secrets)
    ensures (Present(receiverId) && Truthy(encryptedData) && UserById(db.users, receiverId.value).Some?) ==>
              (var s := Secret(old(db.nextSecretId), encryptedData.value, caller.id,
                               db.users[UserById(db.users, receiverId.value).value].id, false, now);
               s.receiverId == receiverId.value
               && db.secrets == old(db.secrets) + [s]
               && resp == Reply(201, SecretCreated(SecretShared, s.id)))
  {
    if !Present(receiverId) || !Truthy(encryptedData) {
      return Error(400, MissingSecretFields);
    }
    var found := UserById(db.users, receiverId.value);
    if found.None? {
      return Error(404, ReceiverNotFound);
    }
    var receiver := db.users[found.value];
    var secret := db.CreateSecret(encryptedData.value, caller.id, receiver.id, now);
    resp := Reply(201, SecretCreated(SecretShared, secret.id));
  }

  /** The `where` clause of `getSecrets` for the `type` query parameter
      (`None` when absent, which defaults to `'all'`). */
  predicate Selected(kind: Option<string>, userId: nat, s: Secret) {
    if kind == Some("sent") then s.senderId == userId
    else if kind == Some("received") then s.receiverId == userId
    else s.senderId == userId || s.receiverId == userId
  }

  /** Every `type` other than `sent` and `received` selects both. */
  lemma AnyOtherKindSelectsBoth(kind: Option<string>, userId: nat, s: Secret)
    requires kind != Some("sent") && kind != Some("received")
    ensures Selected(kind, userId, s) <==> Selected(Some("sent"), userId, s) || Selected(Some("received"), userId, s)
  {
  }

  /** The records the `where` clause keeps, in table order. */
  function Filter(secrets: seq<Secret>, kind: Option<string>, userId: nat): (r: seq<Secret>)
    ensures forall s :: multiset(r)[s] == if Selected(kind, userId, s) then multiset(secrets)[s] else 0
  {
    if secrets == [] then []
    else
      assert secrets == [secrets[0]] + secrets[1..];
      var rest := Filter(secrets[1..], kind, userId);
      if Selected(kind, userId, secrets[0]) then [secrets[0]] + rest else rest
  }

  /** `orderBy: { createdAt: 'desc' }`. */
  predicate NewestFirst(s: seq<Secret>) {
    forall i, j :: 0 <= i < j < |s| ==> s[i].createdAt >= s[j].createdAt
  }

  function Insert(x: Secret, s: seq<Secret>): (r: seq<Secret>)
    requires NewestFirst(s)
    ensures NewestFirst(r)
    ensures multiset(r) == multiset(s) + multiset{x}
  {
    if s == [] || x.createdAt >= s[0].createdAt then
      PrependNewest(x, s);
      [x] + s
    else
      TailNewestFirst(s);
      var rest := Insert(x, s[1..]);
      InsertedAfter(x, s, rest);
      [s[0]] + rest
  }

  /** The tail of a newest-first list is newest first and no newer than its head. */
  lemma TailNewestFirst(s: seq<Secret>)
    requires NewestFirst(s) && s != []
    ensures NewestFirst(s[1..])
    ensures forall k :: 0 <= k < |s[1..]| ==> s[1..][k].createdAt <= s[0].createdAt
  {
    assert forall k :: 0 <= k < |s[1..]| ==> s[1..][k] == s[k + 1];
  }

  /** Keeping the head in front of the tail with `x` inserted. */
  lemma InsertedAfter(x: Secret, s: seq<Secret>, rest: seq<Secret>)
    requires NewestFirst(s) && s != [] && x.createdAt < s[0].createdAt
    requires NewestFirst(rest) && multiset(rest) == multiset(s[1..]) + multiset{x}
    ensures NewestFirst([s[0]] + rest)
    ensures multiset([s[0]] + rest) == multiset(s) + multiset{x}
  {
    var head, tail := s[0], s[1..];
    assert s == [head] + tail;
    TailNewestFirst(s);
    NoNewerThan(head.createdAt, x, tail, rest);
    PrependNewest(head, rest);
    assert multiset([head] + rest) == multiset([head]) + multiset(rest);
  }

  /** A record no older than any of a newest-first list can lead it. */
  lemma PrependNewest(y: Secret, s: seq<Secret>)
    requires NewestFirst(s)
    requires forall k :: 0 <= k < |s| ==> s[k].createdAt <= y.createdAt
    ensures NewestFirst([y] + s)
  {
    var r := [y] + s;
    forall i, j | 0 <= i < j < |r|
      ensures r[i].createdAt >= r[j].createdAt
    {
      assert r[j] == s[j - 1];
      if i > 0 {
        assert r[i] == s[i - 1];
      }
    }
  }

  /** Inserting `x` into a tail whose records are at most `t` old keeps them at most `t`. */
  lemma NoNewerThan(t: int, x: Secret, tail: seq<Secret>, rest: seq<Secret>)
    requires x.createdAt <= t
    requires forall k :: 0 <= k < |tail| ==> tail[k].createdAt <= t
    requires multiset(rest) == multiset(tail) + multiset{x}
    ensures forall k :: 0 <= k < |rest| ==> rest[k].createdAt <= t
  {
    forall k | 0 <= k < |rest|
      ensures rest[k].createdAt <= t
    {
      assert rest[k] in multiset(rest);
      if rest[k] != x {
        assert rest[k] in multiset(tail);
      }
    }
  }

  /** The records newest first: a sorted permutation. */
  function SortNewestFirst(s: seq<Secret>): (r: seq<Secret>)
    ensures NewestFirst(r)
    ensures multiset(r) == multiset(s)
  {
    if s == [] then []
    else
      assert s == [s[0]] + s[1..];
      Insert(s[0], SortNewestFirst(s[1..]))
  }

  /** The `select` of `sender` and `receiver`: no password, no key. */
  datatype Party = Party(id: nat, email: string, firstName: Option<string>, lastName: Option<string>)

  /** A secret with its two parties, as `getSecrets` and `getSecretById` return it. */
  datatype SecretView = SecretView(secret: Secret, sender: Party, receiver: Party)

  function PartyAt(users: seq<User>, id: nat): (p: Party)
    requires UserById(users, id).Some?
    ensures p.id == id
    ensures exists u :: u in users && u.id == id && p == Party(u.id, u.email, u.firstName, u.lastName)
  {
    var u := users[UserById(users, id).value];
    assert u in users;
    Party(u.id, u.email, u.firstName, u.lastName)
  }

  /** The view's sender and receiver are the stored users its record names. */
  predicate ShowsStoredParties(users: seq<User>, v: SecretView) {
    UserById(users, v.secret.senderId).Some? && UserById(users, v.secret.receiverId).Some?
    && v.sender == PartyAt(users, v.secret.senderId) && v.receiver == PartyAt(users, v.secret.receiverId)
  }

  function Records(views: seq<SecretView>): (r: seq<Secret>)
    ensures |r| == |views| && forall i :: 0 <= i < |r| ==> r[i] == views[i].secret
  {
    seq(|views|, i requires 0 <= i < |views| => views[i].secret)
  }

  function Include(users: seq<User>, secrets: seq<Secret>): (r: seq<SecretView>)
    requires forall s :: s in secrets ==> UserById(users, s.senderId).Some? && UserById(users, s.receiverId).Some?
    ensures Records(r) == secrets
    ensures forall i :: 0 <= i < |r| ==> r[i].sender.id == r[i].secret.senderId && r[i].receiver.id == r[i].secret.receiverId
    ensures forall i :: 0 <= i < |r| ==> ShowsStoredParties(users, r[i])
  {
    seq(|secrets|, i requires 0 <= i < |secrets| =>
      SecretView(secrets[i], PartyAt(users, secrets[i].senderId), PartyAt(users, secrets[i].receiverId)))
  }

  /** `getSecrets`: exactly the caller's records the `type` selects, newest
      first, each with its sender and receiver. */
  function GetSecrets(secrets: seq<Secret>, users: seq<User>, caller: AuthUser, kind: Option<string>)
    : (r: seq<SecretView>)
    requires SecretsHaveParties(secrets, users)
    ensures NewestFirst(Records(r))
    ensures forall s :: multiset(Records(r))[s] == if Selected(kind, caller.id, s) then multiset(secrets)[s] else 0
    ensures forall i :: 0 <= i < |r| ==> r[i].secret.senderId == caller.id || r[i].secret.receiverId == caller.id
    ensures forall i :: 0 <= i < |r| ==> r[i].sender.id == r[i].secret.senderId && r[i].receiver.id == r[i].secret.receiverId
    ensures forall i :: 0 <= i < |r| ==> ShowsStoredParties(users, r[i])
  {
    var sorted := SortNewestFirst(Filter(secrets, kind, caller.id));
    SortedSelection(secrets, users, kind, caller.id);
    var r := Include(users, sorted);
    assert forall i :: 0 <= i < |r| ==> r[i].secret in sorted by {
      assert Records(r) == sorted;
    }
    r
  }

  /** Every record of the sorted selection is selected and has both parties stored. */
  lemma SortedSelection(secrets: seq<Secret>, users: seq<User>, kind: Option<string>, userId: nat)
    requires SecretsHaveParties(secrets, users)
    ensures forall s :: s in SortNewestFirst(Filter(secrets, kind, userId)) ==>
      Selected(kind, userId, s) && UserById(users, s.senderId).Some? && UserById(users, s.receiverId).Some?
  {
    var sorted := SortNewestFirst(Filter(secrets, kind, userId));
    forall s | s in sorted
      ensures Selected(kind, userId, s) && UserById(users, s.senderId).Some? && UserById(users, s.receiverId).Some?
    {
      assert multiset(sorted)[s] > 0;
      assert s in secrets;
      var i :| 0 <= i < |secrets| && secrets[i] == s;
    }
  }

  /** `getSecretById`: the record if the caller sent or received it. */
  function GetSecretById(secrets: seq<Secret>, users: seq<User>, caller: AuthUser, secretId: int)
    : (r: Response<SecretView>)
    requires SecretsHaveParties(secrets, users)
    ensures SecretById(secrets, secretId).None? ==> r == Error(404, SecretNotFound)
    ensures r == Error(403, AccessDenied) <==>
              (var i := SecretById(secrets, secretId);
               i.Some? && secrets[i.value].senderId != caller.id && secrets[i.value].receiverId != caller.id)
    ensures r.Reply? <==>
              (var i := SecretById(secrets, secretId);
               i.Some? && (secrets[i.value].senderId == caller.id || secrets[i.value].receiverId == caller.id))
    ensures r.Reply? ==> r.status == 200 && r.body.secret.id == secretId && r.body.secret in secrets
    ensures r.Reply? ==>
              var s := secrets[SecretById(secrets, secretId).value];
              r.body == SecretView(s, PartyAt(users, s.senderId), PartyAt(users, s.receiverId))
  {
    match SecretById(secrets, secretId)
    case None => Error(404, SecretNotFound)
    case Some(i) =>
      var s := secrets[i];
      if s.senderId != caller.id && s.receiverId != caller.id then Error(403, AccessDenied)
      else Reply(200, SecretView(s, PartyAt(users, s.senderId), PartyAt(users, s.receiverId)))
  }

  /** What `getSecretById` shows the caller also appears in the caller's `all` list. */
  lemma ByIdIsListed(secrets: seq<Secret>, users: seq<User>, caller: AuthUser, secretId: int)
    requires SecretsHaveParties(secrets, users)
    requires GetSecretById(secrets, users, caller, secretId).Reply?
    ensures GetSecretById(secrets, users, caller, secretId).body.secret in Records(GetSecrets(secrets, users, caller, None))
  {
    var s := GetSecretById(secrets, users, caller, secretId).body.secret;
    var listed := Records(GetSecrets(secrets, users, caller, None));
    assert multiset(secrets)[s] > 0;
    assert multiset(listed)[s] > 0;
  }

  /** The table after `markAsRead`: the addressed record is read if the caller
      received it; nothing else changes. */
  function AfterMark(secrets: seq<Secret>, userId: nat, secretId: int): (r: seq<Secret>)
    ensures |r| == |secrets|
    ensures forall k :: 0 <= k < |r| ==> r[k] == secrets[k].(isRead := r[k].isRead)
    ensures forall k :: 0 <= k < |r| && r[k].isRead != secrets[k].isRead ==>
              !secrets[k].isRead && secrets[k].id == secretId && secrets[k].receiverId == userId
    ensures var i := SecretById(secrets, secretId);
              i.Some? && secrets[i.value].receiverId == userId ==> r[i.value].isRead
    ensures var i := SecretById(secrets, secretId);
              i.None? || secrets[i.value].receiverId != userId ==> r == secrets
  {
    match SecretById(secrets, secretId)
    case None => secrets
    case Some(i) =>
      if secrets[i].receiverId != userId then secrets
      else secrets[i := secrets[i].(isRead := true)]
  }

  /** Marking a secret read twice leaves the table as marking it once. */
  lemma {:induction false} MarkIdempotent(secrets: seq<Secret>, userId: nat, secretId: int)
    ensures AfterMark(AfterMark(secrets, userId, secretId), userId, secretId) == AfterMark(secrets, userId, secretId)
  {
    var once := AfterMark(secrets, userId, secretId);
    match SecretById(secrets, secretId)
    case None =>
    case Some(i) =>
      if secrets[i].receiverId == userId {
        FirstIndexUpdate(secrets, i, secrets[i].(isRead := true), (s: Secret) => s.id == secretId);
        assert once[i := once[i].(isRead := true)] == once;
      }
  }

  datatype SecretMarked = SecretMarked(message: string, secretId: nat)

  /** `markAsRead`: only the receiver may mark a secret read. */
  method MarkAsRead(db: Database, caller: AuthUser, secretId: int) returns (resp: Response<SecretMarked>)
    requires db.Valid()
    modifies db
    ensures db.Valid()
    ensures db.users == old(db.users) && db.companies == old(db.companies)
    ensures db.secrets == AfterMark(old(db.secrets), caller.id, secretId)
    ensures SecretById(old(db.secrets), secretId).None? ==> resp == Error(404, SecretNotFound)
    ensures (var i := SecretById(old(db.secrets), secretId);
             i.Some? && old(db.secrets)[i.value].receiverId != caller.id ==> resp == Error(403, AccessDenied))
    ensures (var i := SecretById(old(db.secrets), secretId);
             i.Some? && old(db.secrets)[i.value].receiverId == caller.id ==>
               resp == Reply(200, SecretMarked(SecretMarkedRead, old(db.secrets)[i.value].id)))
  {
    var found := SecretById(db.secrets, secretId);
    if found.None? {
      return Error(404, SecretNotFound);
    }
    var i := found.value;
    var s := db.secrets[i];
    if s.receiverId != caller.id {
      return Error(403, AccessDenied);
    }
    db.UpdateSecret(i, s.(isRead := true));
    resp := Reply(200, SecretMarked(SecretMarkedRead, s.id));
  }
}
