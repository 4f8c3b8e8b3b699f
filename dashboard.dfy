/** The dashboard's state and the handlers that change it: loading,
    polling for new secrets, sharing a secret and opening one. */
module Dashboard {
  import opened Wrappers
  import opened Octets
  import opened Strings
  import opened BrowserStorage
  import CryptoService
  import opened UserController
  import opened SecretController

  const PrivateKeyItem := "privateKey"
  const NoPrivateKey := "Unable to decrypt: Private key not available"
  const DecryptionFailed := "Failed to decrypt the secret"
  const ShareFailedPrefix := "Failed to share secret: "
  const LoadFailedPrefix := "Failed to load dashboard data. "

  /** `getInitials`: the first letter of the first name (or `?`) and, when
      there is a last name, its first letter, both upper-cased. */
  function GetInitials(firstName: Option<string>, lastName: Option<string>): (r: string)
    ensures |r| == 1 || |r| == 2
    ensures Truthy(firstName) ==> r[0] == UpperAscii(firstName.value[0])
    ensures !Truthy(firstName) ==> r[0] == '?'
    ensures |r| == 2 <==> Truthy(lastName)
    ensures |r| == 2 ==> r[1] == UpperAscii(lastName.value[0])
  {
    var first := if Truthy(firstName) then [UpperAscii(firstName.value[0])] else "?";
    var last := if Truthy(lastName) then [UpperAscii(lastName.value[0])] else "";
    if last != "" then first + last else first
  }

  /** A secret the user received and has not read. */
  predicate UnreadFor(userId: nat, v: SecretView) {
    v.secret.receiverId == userId && !v.secret.isRead
  }

  /** `secrets.filter(s => s.receiverId === id && !s.isRead).length`. */
  function CountUnread(userId: nat, secrets: seq<SecretView>): (n: nat)
    ensures n <= |secrets|
    ensures n == 0 <==> forall i :: 0 <= i < |secrets| ==> !UnreadFor(userId, secrets[i])
  {
    if secrets == [] then 0
    else (if UnreadFor(userId, secrets[0]) then 1 else 0) + CountUnread(userId, secrets[1..])
  }

  /** `unreadCount`: zero without a profile. */
  function UnreadCount(profile: Option<Profile>, secrets: seq<SecretView>): (n: nat)
    ensures profile.None? ==> n == 0
    ensures profile.Some? ==> n == CountUnread(profile.value.id, secrets)
  {
    if profile.None? then 0 else CountUnread(profile.value.id, secrets)
  }

  /** The local mark-read: `secrets.map(s => s.id === id ? { ...s, isRead: true } : s)`. */
  function MarkedRead(secrets: seq<SecretView>, id: nat): (r: seq<SecretView>)
    ensures |r| == |secrets|
    ensures forall i :: 0 <= i < |r| && secrets[i].secret.id != id ==> r[i] == secrets[i]
    ensures forall i :: 0 <= i < |r| && secrets[i].secret.id == id ==>
              r[i].secret.isRead && r[i] == secrets[i].(secret := secrets[i].secret.(isRead := true))
  {
    seq(|secrets|, i requires 0 <= i < |secrets| =>
      if secrets[i].secret.id == id then secrets[i].(secret := secrets[i].secret.(isRead := true)) else secrets[i])
  }

  /** Marking the same secret read again changes nothing. */
  lemma MarkedReadIdempotent(secrets: seq<SecretView>, id: nat)
    ensures MarkedRead(MarkedRead(secrets, id), id) == MarkedRead(secrets, id)
  {
  }

  predicate DistinctIds(secrets: seq<SecretView>) {
    forall i, j :: 0 <= i < j < |secrets| ==> secrets[i].secret.id != secrets[j].secret.id
  }

  /** In a list with distinct ids, marking one unread received secret read
      lowers the unread count by exactly one. */
  lemma {:induction false} MarkingUnreadLowersCount(userId: nat, secrets: seq<SecretView>, k: nat)
    requires DistinctIds(secrets) && k < |secrets| && UnreadFor(userId, secrets[k])
    ensures CountUnread(userId, MarkedRead(secrets, secrets[k].secret.id)) == CountUnread(userId, secrets) - 1
  {
    var id := secrets[k].secret.id;
    var marked := MarkedRead(secrets, id);
    assert marked[1..] == MarkedRead(secrets[1..], id);
    if k == 0 {
      NoMatchUnchanged(secrets[1..], id);
      assert !UnreadFor(userId, marked[0]);
    } else {
      assert marked[0] == secrets[0];
      MarkingUnreadLowersCount(userId, secrets[1..], k - 1);
    }
  }

  /** Marking an id no secret has leaves the list as it was. */
  lemma NoMatchUnchanged(secrets: seq<SecretView>, id: nat)
    requires forall i :: 0 <= i < |secrets| ==> secrets[i].secret.id != id
    ensures MarkedRead(secrets, id) == secrets
  {
  }

  /** The list one `checkNewSecrets` call leaves behind, given the profile
      and the list that call sees and the settled `getSecrets` request. */
  function AfterCheck(seenProfile: Option<Profile>, seenSecrets: seq<SecretView>, current: seq<SecretView>,
                      latest: Result<seq<SecretView>, string>): (r: seq<SecretView>)
    ensures seenProfile.None? || latest.Failure? ==> r == current
    ensures r != current ==> latest.Success? && r == latest.value && |r| > |seenSecrets|
  {
    if seenProfile.None? then current
    else if latest.Success? && |latest.value| > |seenSecrets| then latest.value
    else current
  }

  /** The polling tick as written: the interval is installed once, at mount,
      so it keeps calling the `checkNewSecrets` of the first render, which
      sees the initial state (no profile, no secrets). */
  function PolledAsWritten(current: seq<SecretView>, latest: Result<seq<SecretView>, string>): (r: seq<SecretView>)
    ensures r == current
  {
    AfterCheck(None, [], current, latest)
  }

  /** The discrepancy: once the profile is loaded, a longer fetched list is
      picked up by a check that sees the current state, and ignored by the
      polling tick as written. */
  lemma PollingMissesNewSecrets(p: Profile, current: seq<SecretView>, latest: seq<SecretView>)
    requires |latest| > |current|
    ensures AfterCheck(Some(p), current, current, Success(latest)) == latest
    ensures PolledAsWritten(current, Success(latest)) == current != latest
  {
  }

  /** A secret the current user received. */
  predicate ReceivedBy(profile: Option<Profile>, v: SecretView) {
    profile.Some? && v.secret.receiverId == profile.value.id
  }

  /** What `loadDashboardData` fetches in parallel. */
  datatype DashboardData = DashboardData(profile: Profile, companyUsers: seq<Colleague>, secrets: seq<SecretView>)

  /** The share dialog's state. */
  datatype ShareDialog = ShareDialog(open: bool, selectedUser: Option<Colleague>, secretText: string, sending: bool)

  /** The view dialog's state. */
  datatype ViewDialog = ViewDialog(open: bool, selectedSecret: Option<SecretView>, decryptedSecret: string, decrypting: bool)

  /** The request body `handleShareSecret` sends. */
  datatype ShareRequest = ShareRequest(receiverId: nat, encryptedData: string)

  class DashboardPage {
    var loading: bool
    var error: string
    var profile: Option<Profile>
    var companyUsers: seq<Colleague>
    var secrets: seq<SecretView>
    var share: ShareDialog
    var view: ViewDialog

    constructor ()
      ensures loading && error == "" && profile.None? && companyUsers == [] && secrets == []
      ensures share == ShareDialog(false, None, "", false) && view == ViewDialog(false, None, "", false)
    {
      loading, error, profile, companyUsers, secrets := true, "", None, [], [];
      share := ShareDialog(false, None, "", false);
      view := ViewDialog(false, None, "", false);
    }

    /** `loadDashboardData` given the settled fetches: all three lists on
        success, an error text otherwise. */
    method LoadDashboardData(fetched: Result<DashboardData, string>)
      modifies this
      ensures !loading && share == old(share) && view == old(view)
      ensures fetched.Success? ==>
                error == "" && profile == Some(fetched.value.profile)
                && companyUsers == fetched.value.companyUsers && secrets == fetched.value.secrets
      ensures fetched.Failure? ==>
                error == LoadFailedPrefix + fetched.error
                && profile == old(profile) && companyUsers == old(companyUsers) && secrets == old(secrets)
    {
      loading := true;
      error := "";
      if fetched.Success? {
        profile := Some(fetched.value.profile);
        companyUsers := fetched.value.companyUsers;
        secrets := fetched.value.secrets;
      } else {
        error := LoadFailedPrefix + fetched.error;
      }
      loading := false;
    }

    /** `checkNewSecrets` against the current state, given the settled
        `getSecrets` request: the list is replaced only by a strictly longer
        one, so a check never shrinks it. */
    method CheckNewSecrets(latest: Result<seq<SecretView>, string>)
      modifies this
      ensures loading == old(loading) && error == old(error) && profile == old(profile)
      ensures companyUsers == old(companyUsers) && share == old(share) && view == old(view)
      ensures secrets == AfterCheck(profile, old(secrets), old(secrets), latest)
      ensures (profile.Some? && latest.Success? && |latest.value| > |old(secrets)|) ==> secrets == latest.value
      ensures |secrets| >= |old(secrets)|
    {
      if profile.None? {
        return;
      }
      if latest.Success? && |latest.value| > |secrets| {
        secrets := latest.value;
      }
    }

    /** `handleOpenShareModal`. */
    method OpenShareModal(user: Colleague)
      modifies this
      ensures share == ShareDialog(true, Some(user), "", old(share).sending)
      ensures loading == old(loading) && error == old(error) && profile == old(profile)
      ensures companyUsers == old(companyUsers) && secrets == old(secrets) && view == old(view)
    {
      share := share.(open := true, selectedUser := Some(user), secretText := "");
    }

    /** `handleShareSecret`. The text is encrypted for the selected user's
        public key with the OAEP `seed`; only the ciphertext is sent.
        `reply` is the settled `shareSecret` request and `reload` the
        settled reload that follows a successful share. */
    method ShareSecret(wc: CryptoService.WebCrypto, seed: Bytes,
                       reply: Result<SecretCreated, string>, reload: Result<DashboardData, string>)
      returns (sent: Option<ShareRequest>)
      modifies this
      ensures (old(share).secretText == "" || old(share).selectedUser.None?) ==>
                sent.None? && share == old(share) && error == old(error) && secrets == old(secrets)
                && profile == old(profile) && companyUsers == old(companyUsers)
      ensures view == old(view)
      ensures sent.Some? <==>
                (old(share).secretText != "" && old(share).selectedUser.Some?
                 && CryptoService.EncryptWithPublicKey(wc, old(share).secretText,
                                                       old(share).selectedUser.value.publicKey, seed).Success?)
      ensures sent.Some? ==>
                sent.value == ShareRequest(old(share).selectedUser.value.id,
                                           CryptoService.EncryptWithPublicKey(wc, old(share).secretText,
                                                                              old(share).selectedUser.value.publicKey, seed).value)
      ensures (old(share).secretText != "" && old(share).selectedUser.Some? && sent.None?) ==>
                error == ShareFailedPrefix + CryptoService.EncryptFailed && !share.sending && share.open == old(share).open
      ensures sent.Some? && reply.Failure? ==>
                error == ShareFailedPrefix + reply.error && !share.sending && share.open == old(share).open
                && secrets == old(secrets)
      ensures sent.Some? && reply.Success? ==>
                !share.sending && !share.open
                && (reload.Success? ==> error == "" && secrets == reload.value.secrets)
                && (reload.Failure? ==> error == LoadFailedPrefix + reload.error && secrets == old(secrets))
    {
      if share.secretText == "" || share.selectedUser.None? {
        return None;
      }
      share := share.(sending := true);
      var encrypted := CryptoService.EncryptWithPublicKey(wc, share.secretText, share.selectedUser.value.publicKey, seed);
      if encrypted.Failure? {
        error := ShareFailedPrefix + encrypted.error;
        share := share.(sending := false);
        return None;
      }
      sent := Some(ShareRequest(share.selectedUser.value.id, encrypted.value));
      if reply.Failure? {
        error := ShareFailedPrefix + reply.error;
        share := share.(sending := false);
        return;
      }
      share := share.(sending := false, open := false);
      LoadDashboardData(reload);
    }

    /** `handleOpenViewModal` given the settled `markAsRead` request and the
        session storage. An unread received secret is marked read on the
        server and then locally; a received secret is decrypted with the
        session's private key. Returns the id a mark-read request was sent for. */
    method OpenViewModal(wc: CryptoService.WebCrypto, secret: SecretView,
                         markReply: Result<SecretMarked, string>, session: Storage)
      returns (markRequested: Option<nat>)
      modifies this
      ensures view.open && view.selectedSecret == Some(secret)
      ensures loading == old(loading) && profile == old(profile) && companyUsers == old(companyUsers)
      ensures share == old(share)
      ensures markRequested.Some? <==> ReceivedBy(profile, secret) && !secret.secret.isRead
      ensures markRequested.Some? ==> markRequested.value == secret.secret.id
      ensures markRequested.Some? && markReply.Success? ==> secrets == MarkedRead(old(secrets), secret.secret.id)
      ensures !(markRequested.Some? && markReply.Success?) ==> secrets == old(secrets)
      ensures !ReceivedBy(profile, secret) ==>
                view.decryptedSecret == "" && view.decrypting == old(view).decrypting && error == old(error)
      ensures ReceivedBy(profile, secret) ==> !view.decrypting
      ensures ReceivedBy(profile, secret) && !Truthy(session.GetItem(PrivateKeyItem)) ==>
                error == NoPrivateKey && view.decryptedSecret == ""
      ensures ReceivedBy(profile, secret) && Truthy(session.GetItem(PrivateKeyItem)) ==>
                (var d := CryptoService.DecryptWithPrivateKey(wc, secret.secret.encryptedData,
                                                              session.items[PrivateKeyItem]);
                 (d.Success? ==> view.decryptedSecret == d.value && error == old(error))
                 && (d.Failure? ==> view.decryptedSecret == "" && error == DecryptionFailed))
    {
      view := view.(selectedSecret := Some(secret), decryptedSecret := "", open := true);
      markRequested := None;
      if profile.Some? && secret.secret.receiverId == profile.value.id && !secret.secret.isRead {
        markRequested := Some(secret.secret.id);
        if markReply.Success? {
          secrets := MarkedRead(secrets, secret.secret.id);
        }
      }
      if profile.Some? && secret.secret.receiverId == profile.value.id {
        view := view.(decrypting := true);
        var privateKey := session.GetItem(PrivateKeyItem);
        if !Truthy(privateKey) {
          error := NoPrivateKey;
          view := view.(decrypting := false);
          return;
        }
        var decrypted := CryptoService.DecryptWithPrivateKey(wc, secret.secret.encryptedData, privateKey.value);
        if decrypted.Success? {
          view := view.(decryptedSecret := decrypted.value);
        } else {
          error := DecryptionFailed;
        }
        view := view.(decrypting := false);
      }
    }
  }
}
