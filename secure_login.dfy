/**
 * The secured app's login logic (mobile-secured/src/handlers/loginHandler.js):
 * the remembered-name preference read at start-up, the form check, and
 * handleLogin's writes to the two stores. Only the session goes to the
 * secure store; the preference store gets the remember-me flag and the name,
 * never the password.
 */
module SecureLogin {
  import opened Common
  import opened Text
  import opened Json
  import opened Client
  import opened AuthService

  const RememberKey := "rememberMe"
  const NameKey := "username"

  const FillInBoth := "Please enter both username and password"
  const UsernameTooLong := "Username is too long"
  const LoginFailed := "Login failed. Please try again."

  /** What checkStoredCredentials resolves to. */
  datatype RememberedLogin = RememberedLogin(rememberMe: bool, username: string)

  /**
   * checkStoredCredentials over the preference store's state: the stored
   * name ('' when missing) only when the flag is the string 'true';
   * otherwise, or when the store fails, nothing is remembered.
   */
  function CheckStoredCredentials(items: map<string, string>, available: bool): (r: RememberedLogin)
    ensures r.rememberMe <==> available && RememberKey in items && items[RememberKey] == "true"
    ensures r.rememberMe && NameKey in items ==> r.username == items[NameKey]
    ensures !(r.rememberMe && NameKey in items) ==> r.username == ""
  {
    if available && Lookup(items, RememberKey) == Some("true") then
      RememberedLogin(true, Lookup(items, NameKey).GetOr(""))
    else
      RememberedLogin(false, "")
  }

  /** The preference writes of a login: the flag and the name when remembering, both keys removed otherwise. */
  function RememberPrefs(items: map<string, string>, rememberMe: bool, username: string): map<string, string> {
    if rememberMe then items[RememberKey := "true"][NameKey := username]
    else items - {RememberKey, NameKey}
  }

  /** What a login writes is what the next start-up reads back. */
  lemma RememberRoundTrip(items: map<string, string>, rememberMe: bool, username: string)
    ensures CheckStoredCredentials(RememberPrefs(items, rememberMe, username), true)
            == if rememberMe then RememberedLogin(true, username) else RememberedLogin(false, "")
  {
  }

  /**
   * validateInput: neither field blank after trim(), then the untrimmed
   * username within 50 UTF-16 code units.
   */
  function ValidateInput(username: string, password: string): (r: Check)
    ensures r == Reject(FillInBoth) <==> AllSpace(JavaScript, username) || AllSpace(JavaScript, password)
    ensures r == Reject(UsernameTooLong) <==>
              !AllSpace(JavaScript, username) && !AllSpace(JavaScript, password) && Utf16Length(username) > 50
    ensures r == Pass <==>
              !AllSpace(JavaScript, username) && !AllSpace(JavaScript, password) && Utf16Length(username) <= 50
  {
    TrimSpec(JavaScript, username);
    TrimSpec(JavaScript, password);
    if Trim(JavaScript, username) == [] || Trim(JavaScript, password) == [] then Reject(FillInBoth)
    else if Utf16Length(username) > 50 then Reject(UsernameTooLong)
    else Pass
  }

  /** The reply carries a token to keep: response.data.token is truthy. */
  predicate HasToken(p: Payload) {
    Field(p, "token").Some? && Truthy(Field(p, "token").value)
  }

  /**
   * Keeping the reply's session succeeds: there is no token to keep, or it
   * is a string and the secure store works (the store refuses anything but
   * a string).
   */
  predicate SessionKept(p: Payload, available: bool) {
    !HasToken(p) || (Field(p, "token").value.Str? && available)
  }

  /** The secure store after saveToken and saveUserInfo have stored a reply's session. */
  function SavedSession(items: map<string, string>, p: Payload): map<string, string>
    requires HasToken(p) && Field(p, "token").value.Str?
  {
    var withId := items[TokenKey := Field(p, "token").value.s][UserIdKey := JsString(Field(p, "user_id"))];
    var name := Field(p, "username");
    if name.Some? && name.value.Str? then withId[UsernameKey := name.value.s] else withId
  }

  /** The secure-store half of a successful POST: saveToken then saveUserInfo, when the reply has a token. */
  method KeepSession(auth: Auth, p: Payload) returns (ok: bool)
    modifies auth.secure
    ensures ok == SessionKept(p, auth.secure.available)
    ensures auth.secure.items ==
              if HasToken(p) && SessionKept(p, auth.secure.available) then SavedSession(old(auth.secure.items), p)
              else old(auth.secure.items)
  {
    ok := true;
    var token := Field(p, "token");
    if token.Some? && Truthy(token.value) {
      if token.value.Str? {
        ok := auth.SaveToken(token.value.s);
        if ok {
          auth.SaveUserInfo(Field(p, "user_id"), Field(p, "username"));
        }
      } else {
        // the secure store refuses a value that is not a string, and saveToken rethrows
        ok := false;
      }
    }
  }

  /** The preference-store half: the writes RememberPrefs describes, stopping at the first failing call. */
  method KeepPreferences(prefs: KeyStore, rememberMe: bool, username: string) returns (ok: bool)
    modifies prefs
    ensures ok == prefs.available
    ensures prefs.items == if ok then RememberPrefs(old(prefs.items), rememberMe, username) else old(prefs.items)
    ensures forall k :: k in prefs.items && (k !in old(prefs.items) || prefs.items[k] != old(prefs.items)[k]) ==>
              prefs.items[k] in {"true", username}
  {
    if rememberMe {
      ok := prefs.SetItem(RememberKey, "true");
      if ok {
        ok := prefs.SetItem(NameKey, username);
      }
    } else {
      ok := prefs.RemoveItem(RememberKey);
      if ok {
        ok := prefs.RemoveItem(NameKey);
        assert prefs.items == old(prefs.items) - {RememberKey, NameKey};
      }
    }
  }

  /**
   * handleLogin, given how its POST ends. An invalid form sends nothing;
   * a failing POST or store call lands in the catch block with its alert;
   * otherwise the session goes to the secure store, the preference store
   * gets what RememberPrefs says, and home replaces the login screen. A
   * failing POST first passes through the response interceptor that
   * authService.js installs when it loads, so a 401 (wrong credentials)
   * clears any stored session before the catch block runs.
   */
  method HandleLogin(auth: Auth, prefs: KeyStore, username: string, password: string, rememberMe: bool, reply: Reply)
    returns (run: Run)
    requires auth.secure != prefs
    modifies auth.secure, prefs
    ensures ValidateInput(username, password).Reject? ==>
              && run == Refused(ValidateInput(username, password).message, Failed(None))
              && auth.secure.items == old(auth.secure.items) && prefs.items == old(prefs.items)
    ensures ValidateInput(username, password) == Pass ==> run.request == Some(CredentialsPost("/login", username, password))
    ensures ValidateInput(username, password) == Pass && !reply.Success? ==>
              && run.outcome == Failed(Some(ErrorText(Network(reply), LoginFailed)))
              && run.alert == Some(Alert("Login Failed", ErrorText(Network(reply), LoginFailed), Stay))
              && run.nav == Stay
    ensures run.outcome == Succeeded(None) <==>
              && ValidateInput(username, password) == Pass && reply.Success?
              && SessionKept(reply.payload, auth.secure.available) && prefs.available
    ensures run.outcome == Succeeded(None) ==> run.nav == Replace(HomeScreen) && run.alert.None?
    ensures ValidateInput(username, password) == Pass && reply.Success? && run.outcome != Succeeded(None) ==>
              && run.outcome == Failed(Some(LoginFailed))
              && run.alert == Some(Alert("Login Failed", LoginFailed, Stay)) && run.nav == Stay
    ensures auth.secure.items ==
              if && ValidateInput(username, password) == Pass && reply.Success? && HasToken(reply.payload)
                 && SessionKept(reply.payload, auth.secure.available)
              then SavedSession(old(auth.secure.items), reply.payload)
              else if ValidateInput(username, password) == Pass && Unauthorized(Network(reply)) && auth.secure.available
              then old(auth.secure.items) - SessionKeys
              else old(auth.secure.items)
    ensures prefs.items ==
              if && ValidateInput(username, password) == Pass && reply.Success?
                 && SessionKept(reply.payload, auth.secure.available) && prefs.available
              then RememberPrefs(old(prefs.items), rememberMe, Trim(JavaScript, username))
              else old(prefs.items)
    ensures forall k :: k in prefs.items && (k !in old(prefs.items) || prefs.items[k] != old(prefs.items)[k]) ==>
              prefs.items[k] in {"true", Trim(JavaScript, username)}
  {
    var check := ValidateInput(username, password);
    if check.Reject? {
      return Refused(check.message, Failed(None));
    }
    var request := Some(CredentialsPost("/login", username, password));
    if !reply.Success? {
      var fault := auth.InterceptError(Network(reply));
      var message := ErrorText(fault, LoginFailed);
      return Run(request, Some(Alert("Login Failed", message, Stay)), Stay, false, Failed(Some(message)));
    }
    var ok := KeepSession(auth, reply.payload);
    if ok {
      ok := KeepPreferences(prefs, rememberMe, Trim(JavaScript, username));
    }
    if !ok {
      return Run(request, Some(Alert("Login Failed", LoginFailed, Stay)), Stay, false, Failed(Some(LoginFailed)));
    }
    run := Run(request, None, Replace(HomeScreen), false, Succeeded(None));
  }
}
