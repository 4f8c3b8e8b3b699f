/** The client's request helper and its session bookkeeping in
    `localStorage` (`AuthService`). */
module ApiService {
  import opened Wrappers
  import opened Strings
  import opened BrowserStorage
  import CryptoService

  const ApiUrl := "http://localhost:3001/api"
  const TokenKey := "token"
  const UserKey := "user"
  const DefaultError := "Something went wrong"
  const JsonContentType := "application/json"

  /** `apiRequest` before `fetch`: the URL and the headers it sends. Caller
      headers override the default `Content-Type`; a stored token overrides
      any caller `Authorization`. */
  method PrepareRequest(local: Storage, endpoint: string, callerHeaders: map<string, string>)
    returns (url: string, headers: map<string, string>)
    ensures StartsWith(url, ApiUrl) && url[|ApiUrl|..] == endpoint
    ensures headers.Keys == callerHeaders.Keys + {"Content-Type"}
                            + (if Truthy(local.GetItem(TokenKey)) then {"Authorization"} else {})
    ensures forall k :: k in callerHeaders && k != "Authorization" ==> headers[k] == callerHeaders[k]
    ensures "Content-Type" !in callerHeaders ==> headers["Content-Type"] == JsonContentType
    ensures Truthy(local.GetItem(TokenKey)) ==> headers["Authorization"] == "Bearer " + local.items[TokenKey]
    ensures !Truthy(local.GetItem(TokenKey)) && "Authorization" in callerHeaders ==>
              headers["Authorization"] == callerHeaders["Authorization"]
  {
    url := ApiUrl + endpoint;
    headers := map["Content-Type" := JsonContentType] + callerHeaders;
    var token := local.GetItem(TokenKey);
    if Truthy(token) {
      headers := headers["Authorization" := "Bearer " + token.value];
    }
  }

  /** `apiRequest` after the body is parsed: the data of an ok response,
      otherwise an error with the body's `message` or the default text. */
  function Settle<T>(ok: bool, data: T, message: Option<string>): (r: Result<T, string>)
    ensures ok <==> r.Success?
    ensures r.Success? ==> r.value == data
    ensures r.Failure? ==> r.error != ""
    ensures !ok && Truthy(message) ==> r.error == message.value
    ensures !ok && !Truthy(message) ==> r.error == DefaultError
  {
    if ok then Success(data)
    else if Truthy(message) then Failure(message.value)
    else Failure(DefaultError)
  }

  /** What `AuthService.login` gets back: the token, if any, and the user
      object as the JSON text it stores. */
  datatype LoginReply = LoginReply(token: Option<string>, user: string)

  /** `AuthService.isLoggedIn`: a non-empty token is stored. */
  function IsLoggedIn(local: Storage): (r: bool)
    reads local
    ensures r <==> TokenKey in local.items && local.items[TokenKey] != ""
  {
    Truthy(local.GetItem(TokenKey))
  }

  /** `AuthService.getCurrentUser`: the stored user text, or null when it is
      absent or empty. Parsing the JSON is not modelled. */
  function GetCurrentUser(local: Storage): (r: Option<string>)
    reads local
    ensures r.Some? <==> UserKey in local.items && local.items[UserKey] != ""
    ensures r.Some? ==> r.value == local.items[UserKey]
  {
    if Truthy(local.GetItem(UserKey)) then local.GetItem(UserKey) else None
  }

  /** `AuthService.login` given the settled `/auth/login` request: the
      session is written only when the reply carries a token. */
  method Login(local: Storage, reply: Result<LoginReply, string>) returns (r: Result<LoginReply, string>)
    modifies local
    ensures r == reply
    ensures reply.Success? && Truthy(reply.value.token) ==>
              local.items == old(local.items)[TokenKey := reply.value.token.value][UserKey := reply.value.user]
    ensures !(reply.Success? && Truthy(reply.value.token)) ==> local.items == old(local.items)
    ensures reply.Success? && Truthy(reply.value.token) ==>
              IsLoggedIn(local) && (reply.value.user != "" ==> GetCurrentUser(local) == Some(reply.value.user))
  {
    r := reply;
    if reply.Success? && Truthy(reply.value.token) {
      local.SetItem(TokenKey, reply.value.token.value);
      local.SetItem(UserKey, reply.value.user);
    }
  }

  /** `AuthService.logout`: removes exactly the token and the user. */
  method Logout(local: Storage)
    modifies local
    ensures local.items == old(local.items) - {TokenKey, UserKey}
    ensures !IsLoggedIn(local) && GetCurrentUser(local).None?
    ensures forall k :: k in old(local.items) && k != TokenKey && k != UserKey ==>
              k in local.items && local.items[k] == old(local.items)[k]
  {
    local.RemoveItem(TokenKey);
    local.RemoveItem(UserKey);
  }

  /** Logging out keeps the private-key envelope: it opens as before. */
  lemma {:induction false} EnvelopeSurvivesLogout(wc: CryptoService.WebCrypto, items: map<string, string>, password: string)
    ensures CryptoService.RetrievePrivateKey(wc, items - {TokenKey, UserKey}, password)
         == CryptoService.RetrievePrivateKey(wc, items, password)
  {
    var after := items - {TokenKey, UserKey};
    assert CryptoService.EnvelopeKey != TokenKey && CryptoService.EnvelopeKey != UserKey;
    assert (CryptoService.EnvelopeKey in after) == (CryptoService.EnvelopeKey in items);
    if CryptoService.EnvelopeKey in items {
      assert after[CryptoService.EnvelopeKey] == items[CryptoService.EnvelopeKey];
    }
  }
}
