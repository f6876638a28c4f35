/**
 * What the phone apps see of the world outside their handlers: the requests
 * they send through axios, the ways an awaited call can end, the alerts and
 * screen changes they cause, the records they resolve to, and the key-value
 * stores (AsyncStorage, expo-secure-store) they persist into.
 */
module Client {
  import opened Common
  import opened Text
  import opened Json

  datatype Verb = Get | Post | Put | Delete

  /** A request as axios sends it: the path after API_URL, and a JSON object body. */
  datatype Request = Request(verb: Verb, path: string, body: map<string, Value>)

  /** A JSON reply body: an object, or the list of rows a listing route answers with. */
  datatype Payload = Object(fields: map<string, Value>) | Rows(rows: seq<map<string, Value>>)

  /**
   * How an awaited axios call ends: a 2xx reply, an error that carries the
   * server's response, or an error with no response at all (network down,
   * timeout), which carries only its message.
   */
  datatype Reply = Success(payload: Payload) | HttpError(status: int, payload: Payload) | NoResponse(message: string)

  /** Why a handler's try block was left: an axios error, or a failing store call. */
  datatype Fault = Network(reply: Reply) | Storage

  /** The property `key` of a reply body, when the body is an object that has it. */
  function Field(p: Payload, key: string): (r: Option<Value>)
    ensures r.Some? <==> p.Object? && key in p.fields
    ensures r.Some? ==> r.value == p.fields[key]
  {
    if p.Object? && key in p.fields then Some(p.fields[key]) else None
  }

  /** error.response?.status === 401 */
  predicate Unauthorized(f: Fault) {
    f.Network? && f.reply.HttpError? && f.reply.status == 401
  }

  /**
   * error.response?.data?.error || fallback: the server's own message when
   * the error carries a response whose body has a truthy `error`.
   */
  function ErrorText(f: Fault, fallback: string): (r: string)
    ensures !(f.Network? && f.reply.HttpError?) ==> r == fallback
    ensures f.Network? && f.reply.HttpError? && Field(f.reply.payload, "error").Some?
            && Truthy(Field(f.reply.payload, "error").value) ==>
              r == JsString(Field(f.reply.payload, "error"))
    ensures r != fallback ==>
              && f.Network? && f.reply.HttpError? && Field(f.reply.payload, "error").Some?
              && Truthy(Field(f.reply.payload, "error").value)
  {
    if f.Network? && f.reply.HttpError? then
      var e := Field(f.reply.payload, "error");
      if e.Some? && Truthy(e.value) then JsString(e) else fallback
    else fallback
  }

  /** error.message of an axios error; an error with a response names its status. */
  function AxiosMessage(reply: Reply): (r: string)
    requires !reply.Success?
    ensures reply.HttpError? ==> r == "Request failed with status code " + IntToString(reply.status)
    ensures reply.NoResponse? ==> r == reply.message
  {
    if reply.HttpError? then "Request failed with status code " + IntToString(reply.status) else reply.message
  }

  datatype Screen = LoginScreen | HomeScreen

  /** What a handler does to the navigation stack. */
  datatype Nav = Stay | Replace(screen: Screen) | GoBack

  /** An Alert.alert; `onOk` is where pressing its OK button navigates. */
  datatype Alert = Alert(title: string, message: string, onOk: Nav)

  /** The verdict of a client-side validator, with the message its alert shows. */
  datatype Check = Pass | Reject(message: string)

  /** The object a handler's promise resolves to, or how that promise ends otherwise. */
  datatype Outcome =
    | Succeeded(data: Option<Payload>)     // { success: true, data? }
    | Failed(error: Option<string>)        // { success: false, error?: <string> }
    | FailedWith(cause: Fault)             // { success: false, error: <the caught error> }
    | Rejected(cause: Fault)               // the promise rejects
    | Settled                              // the promise resolves to undefined

  /**
   * Everything one call of a handler does: the request it sends if any, the
   * alert it shows if any, where it navigates, whether it calls the caller's
   * onSuccess callback, and what it resolves to.
   */
  datatype Run = Run(request: Option<Request>, alert: Option<Alert>, nav: Nav, notified: bool, outcome: Outcome)

  /** A validator's rejection: the alert it shows and the record the handler returns. */
  function Refused(message: string, outcome: Outcome): (r: Run)
    ensures r.request.None? && r.alert == Some(Alert("Validation Error", message, Stay))
    ensures r.nav == Stay && !r.notified && r.outcome == outcome
  {
    Run(None, Some(Alert("Validation Error", message, Stay)), Stay, false, outcome)
  }

  /** The alert the secured handlers show on a 401, which sends the user back to the login screen. */
  const SessionExpired := Alert("Session Expired", "Please login again", Replace(LoginScreen))

  /** The POST a secured credentials form sends to `path`: the trimmed username, the password as typed. */
  function CredentialsPost(path: string, username: string, password: string): (r: Request)
    ensures r.verb == Post && r.path == path && r.body.Keys == {"username", "password"}
    ensures r.body["username"] == Str(Trim(JavaScript, username)) && r.body["password"] == Str(password)
  {
    Request(Post, path, map["username" := Str(Trim(JavaScript, username)), "password" := Str(password)])
  }

  /**
   * A secured listing handler's GET of `path`: the rows on success; after a
   * 401 the alert that leads back to login; otherwise an alert naming what
   * failed to load.
   */
  function FetchRows(path: string, what: string, reply: Reply): (r: Run)
    ensures r.request == Some(Request(Get, path, map[])) && r.nav == Stay && !r.notified
    ensures reply.Success? <==> r.outcome.Succeeded?
    ensures reply.Success? ==> r.outcome == Succeeded(Some(reply.payload)) && r.alert.None?
    ensures Unauthorized(Network(reply)) ==> r.outcome == Failed(Some("UNAUTHORIZED")) && r.alert == Some(SessionExpired)
    ensures !reply.Success? && !Unauthorized(Network(reply)) ==>
              r.outcome == Failed(Some("FETCH_FAILED")) && r.alert == Some(Alert("Error", "Failed to load " + what, Stay))
  {
    var request := Some(Request(Get, path, map[]));
    if reply.Success? then Run(request, None, Stay, false, Succeeded(Some(reply.payload)))
    else if Unauthorized(Network(reply)) then Run(request, Some(SessionExpired), Stay, false, Failed(Some("UNAUTHORIZED")))
    else Run(request, Some(Alert("Error", "Failed to load " + what, Stay)), Stay, false, Failed(Some("FETCH_FAILED")))
  }

  /**
   * A persistent string store. When it is unavailable every call on it
   * rejects and nothing changes; a store that works, works for every call.
   */
  class KeyStore {
    var items: map<string, string>
    const available: bool

    constructor(items: map<string, string>, available: bool)
      ensures this.items == items && this.available == available
    {
      this.items := items;
      this.available := available;
    }

    /** setItem / setItemAsync; `ok` is false when the call rejects. */
    method SetItem(key: string, value: string) returns (ok: bool)
      modifies this
      ensures ok == available
      ensures items == if available then old(items)[key := value] else old(items)
    {
      ok := available;
      if available {
        items := items[key := value];
      }
    }

    /** getItem / getItemAsync: null for a missing key. */
    method GetItem(key: string) returns (ok: bool, value: Option<string>)
      ensures ok == available
      ensures value == if available then Lookup(items, key) else None
    {
      ok := available;
      value := if available then Lookup(items, key) else None;
    }

    /** removeItem / deleteItemAsync. */
    method RemoveItem(key: string) returns (ok: bool)
      modifies this
      ensures ok == available
      ensures items == if available then old(items) - {key} else old(items)
    {
      ok := available;
      if available {
        items := items - {key};
      }
    }
  }
}
