/**
 * The original app's login logic (mobile/src/handlers/loginHandler.js): no
 * form check, and a remember-me that keeps the username and the password in
 * plain text in the preference store, beside the user id the session runs on.
 */
module VulnerableLogin {
  import opened Common
  import opened Json
  import opened Client

  const NameKey := "username"
  const PasswordKey := "password"
  const UserIdKey := "user_id"
  const UnknownError := "Unknown error"

  /** What checkStoredCredentials resolves to. */
  datatype StoredLogin = StoredLogin(username: string, password: string, rememberMe: bool)

  /**
   * checkStoredCredentials over the preference store's state: both stored
   * strings, when both are present and non-empty; otherwise, or when the
   * store fails, nothing.
   */
  function CheckStoredCredentials(items: map<string, string>, available: bool): (r: StoredLogin)
    ensures r.rememberMe <==>
              && available && NameKey in items && PasswordKey in items
              && items[NameKey] != "" && items[PasswordKey] != ""
    ensures r.rememberMe ==> r.username == items[NameKey] && r.password == items[PasswordKey]
    ensures !r.rememberMe ==> r == StoredLogin("", "", false)
  {
    var name := Lookup(items, NameKey).GetOr("");
    var password := Lookup(items, PasswordKey).GetOr("");
    if available && name != "" && password != "" then StoredLogin(name, password, true)
    else StoredLogin("", "", false)
  }

  /** The POST handleLogin sends: both fields exactly as typed. */
  function LoginRequest(username: string, password: string): (r: Request)
    ensures r.verb == Post && r.path == "/login" && r.body.Keys == {"username", "password"}
    ensures r.body["username"] == Str(username) && r.body["password"] == Str(password)
  {
    Request(Post, "/login", map["username" := Str(username), "password" := Str(password)])
  }

  /**
   * The preference store after a successful login: both credentials written
   * or both removed, then String(response.data.user_id) under user_id.
   */
  function LoggedInPrefs(items: map<string, string>, rememberMe: bool, username: string, password: string, p: Payload)
    : map<string, string>
  {
    var remembered := if rememberMe then items[NameKey := username][PasswordKey := password]
                      else items - {NameKey, PasswordKey};
    remembered[UserIdKey := JsString(Field(p, "user_id"))]
  }

  /**
   * What a login writes is what the next start-up reads back: the two
   * credentials themselves, unless remember-me was off or one of them was
   * empty.
   */
  lemma RememberRoundTrip(items: map<string, string>, rememberMe: bool, username: string, password: string, p: Payload)
    ensures CheckStoredCredentials(LoggedInPrefs(items, rememberMe, username, password, p), true)
            == if rememberMe && username != "" && password != "" then StoredLogin(username, password, true)
               else StoredLogin("", "", false)
  {
  }

  /**
   * handleLogin, given how its POST ends. The POST is sent whatever was
   * typed; the caught error itself is what a failure resolves to.
   */
  method HandleLogin(prefs: KeyStore, username: string, password: string, rememberMe: bool, reply: Reply)
    returns (run: Run)
    modifies prefs
    ensures run.request == Some(LoginRequest(username, password))
    ensures run.outcome == Succeeded(None) <==> reply.Success? && prefs.available
    ensures run.outcome == Succeeded(None) ==> run.nav == Replace(HomeScreen) && run.alert.None?
    ensures !reply.Success? ==>
              && run.outcome == FailedWith(Network(reply)) && run.nav == Stay
              && run.alert == Some(Alert("Login Failed", ErrorText(Network(reply), UnknownError), Stay))
    ensures reply.Success? && !prefs.available ==>
              && run.outcome == FailedWith(Storage) && run.nav == Stay
              && run.alert == Some(Alert("Login Failed", UnknownError, Stay))
    ensures prefs.items ==
              if reply.Success? && prefs.available then LoggedInPrefs(old(prefs.items), rememberMe, username, password, reply.payload)
              else old(prefs.items)
    ensures reply.Success? && prefs.available && rememberMe ==> prefs.items[PasswordKey] == password
  {
    run := Run(Some(LoginRequest(username, password)), None, Replace(HomeScreen), false, Succeeded(None));
    if !reply.Success? {
      run := run.(alert := Some(Alert("Login Failed", ErrorText(Network(reply), UnknownError), Stay)), nav := Stay,
                  outcome := FailedWith(Network(reply)));
      return;
    }
    var ok;
    if rememberMe {
      ok := prefs.SetItem(NameKey, username);
      if ok {
        ok := prefs.SetItem(PasswordKey, password);
      }
    } else {
      ok := prefs.RemoveItem(NameKey);
      if ok {
        ok := prefs.RemoveItem(PasswordKey);
        assert prefs.items == old(prefs.items) - {NameKey, PasswordKey};
      }
    }
    if ok {
      ok := prefs.SetItem(UserIdKey, JsString(Field(reply.payload, "user_id")));
    }
    if !ok {
      run := run.(alert := Some(Alert("Login Failed", ErrorText(Storage, UnknownError), Stay)), nav := Stay,
                  outcome := FailedWith(Storage));
    }
  }
}
