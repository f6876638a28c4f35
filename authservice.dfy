/**
 * The secured app's session store (mobile-secured/src/services/authService.js):
 * the JWT and the user's id and name kept in expo-secure-store, and the two
 * axios interceptors that attach the token to every request and drop the
 * session when the server answers 401.
 */
module AuthService {
  import opened Common
  import opened Json
  import opened Bearer
  import opened Client

  const TokenKey := "auth_token"
  const UserIdKey := "user_id"
  const UsernameKey := "username"

  /** The keys a session occupies in the secure store. */
  const SessionKeys: set<string> := {TokenKey, UserIdKey, UsernameKey}

  /** What getToken resolves to for a store in this state: null when the key is missing or the read fails. */
  function StoredToken(items: map<string, string>, available: bool): (r: Option<string>)
    ensures r.Some? <==> available && TokenKey in items
    ensures r.Some? ==> r.value == items[TokenKey]
  {
    if available then Lookup(items, TokenKey) else None
  }

  /** The record getUserInfo resolves to. */
  datatype UserInfo = UserInfo(userId: Option<string>, username: Option<string>)

  /** What getUserInfo resolves to for a store in this state: nulls when the reads fail. */
  function StoredUserInfo(items: map<string, string>, available: bool): (r: UserInfo)
    ensures !available ==> r == UserInfo(None, None)
    ensures available ==> r == UserInfo(Lookup(items, UserIdKey), Lookup(items, UsernameKey))
  {
    if available then UserInfo(Lookup(items, UserIdKey), Lookup(items, UsernameKey)) else UserInfo(None, None)
  }

  /** The headers the request interceptor sends on: a Bearer authorization exactly when the token is truthy. */
  function AuthorizedHeaders(headers: map<string, string>, token: Option<string>): (r: map<string, string>)
    ensures token.Some? && token.value != [] ==> r == headers["Authorization" := BearerHeader(token.value)]
    ensures token.None? || token.value == [] ==> r == headers
  {
    if token.Some? && token.value != [] then headers["Authorization" := BearerHeader(token.value)] else headers
  }

  /**
   * End to end: a request sent with no Authorization header of its own
   * reaches require_auth carrying the stored JWT, which the server judges by
   * the verifier alone; with no token stored it is refused as unauthenticated.
   */
  lemma AttachedHeaderAuthenticates(headers: map<string, string>, token: Option<string>, verify: map<string, Claims>)
    requires "Authorization" !in headers
    requires token.Some? ==> IsCompactJws(token.value)
    ensures token.None? ==> Authenticate(Lookup(AuthorizedHeaders(headers, token), "Authorization"), verify) == Err(MissingToken)
    ensures token.Some? ==>
              Authenticate(Lookup(AuthorizedHeaders(headers, token), "Authorization"), verify)
              == if token.value in verify then Ok(verify[token.value]) else Err(BadToken)
  {
    if token.Some? {
      assert multiset(token.value)['.'] == 2;
      assert token.value != [];
      JwtHeaderRoundTrip(token.value, verify);
    }
  }

  /** authService, over the secure store it keeps the session in. */
  class Auth {
    const secure: KeyStore

    constructor(secure: KeyStore)
      ensures this.secure == secure
    {
      this.secure := secure;
    }

    /** saveToken: a failing write is rethrown (`ok` false); a token saved reads back. */
    method SaveToken(token: string) returns (ok: bool)
      modifies secure
      ensures ok == secure.available
      ensures secure.items == if ok then old(secure.items)[TokenKey := token] else old(secure.items)
      ensures ok ==> StoredToken(secure.items, secure.available) == Some(token)
    {
      ok := secure.SetItem(TokenKey, token);
    }

    /** getToken: a failing read gives null rather than an error. */
    method GetToken() returns (token: Option<string>)
      ensures token == StoredToken(secure.items, secure.available)
    {
      var ok;
      ok, token := secure.GetItem(TokenKey);
      if !ok {
        token := None;
      }
    }

    /** removeToken: all three session keys go; a failure is swallowed. */
    method RemoveToken()
      modifies secure
      ensures secure.items == if secure.available then old(secure.items) - SessionKeys else old(secure.items)
      ensures secure.available ==>
                && StoredToken(secure.items, secure.available) == None
                && StoredUserInfo(secure.items, secure.available) == UserInfo(None, None)
    {
      var ok := secure.RemoveItem(TokenKey);
      if !ok {
        return;
      }
      ok := secure.RemoveItem(UserIdKey);
      ok := secure.RemoveItem(UsernameKey);
      assert old(secure.items) - {TokenKey} - {UserIdKey} - {UsernameKey} == old(secure.items) - SessionKeys;
    }

    /**
     * saveUserInfo: String(userId), then the username; a failure is swallowed.
     * The secure store takes only strings, so a username that is not one is
     * refused after the id has been written.
     */
    method SaveUserInfo(userId: Option<Value>, username: Option<Value>)
      modifies secure
      ensures !secure.available ==> secure.items == old(secure.items)
      ensures secure.available && username.Some? && username.value.Str? ==>
                secure.items == old(secure.items)[UserIdKey := JsString(userId)][UsernameKey := username.value.s]
      ensures secure.available && !(username.Some? && username.value.Str?) ==>
                secure.items == old(secure.items)[UserIdKey := JsString(userId)]
      ensures secure.available && username.Some? && username.value.Str? ==>
                StoredUserInfo(secure.items, secure.available) == UserInfo(Some(JsString(userId)), Some(username.value.s))
    {
      var ok := secure.SetItem(UserIdKey, JsString(userId));
      if ok && username.Some? && username.value.Str? {
        ok := secure.SetItem(UsernameKey, username.value.s);
      }
    }

    /** getUserInfo: the id and name as stored, or nulls when the reads fail. */
    method GetUserInfo() returns (info: UserInfo)
      ensures info == StoredUserInfo(secure.items, secure.available)
    {
      var ok, userId := secure.GetItem(UserIdKey);
      if !ok {
        return UserInfo(None, None);
      }
      var username;
      ok, username := secure.GetItem(UsernameKey);
      info := UserInfo(userId, username);
    }

    /** The request interceptor: Authorization is set from the stored token when it is truthy. */
    method InterceptRequest(headers: map<string, string>) returns (sent: map<string, string>)
      ensures sent == AuthorizedHeaders(headers, StoredToken(secure.items, secure.available))
    {
      var token := GetToken();
      sent := headers;
      if token.Some? && token.value != [] {
        sent := sent["Authorization" := BearerHeader(token.value)];
      }
    }

    /** The response interceptor's error path: a 401 clears the session; the error is rejected again unchanged. */
    method InterceptError(fault: Fault) returns (rejected: Fault)
      modifies secure
      ensures rejected == fault
      ensures secure.items == if Unauthorized(fault) && secure.available then old(secure.items) - SessionKeys else old(secure.items)
      ensures Unauthorized(fault) && secure.available ==>
                AuthorizedHeaders(map[], StoredToken(secure.items, secure.available)) == map[]
    {
      if Unauthorized(fault) {
        RemoveToken();
      }
      rejected := fault;
    }
  }
}
