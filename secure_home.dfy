/**
 * The secured app's home screen logic
 * (mobile-secured/src/handlers/homeHandler.js): loading the user and the
 * tasks, searching, toggling and deleting a task, and logging out.
 */
module SecureHome {
  import opened Common
  import opened Text
  import opened Json
  import opened Client
  import opened Uri
  import opened AuthService
  import Backend

  /**
   * loadUserInfo: what getUserInfo resolves to. getUserInfo answers a failing
   * store with nulls instead of rejecting, so the handler's own fallback of
   * an empty name is never what it returns.
   */
  method LoadUserInfo(auth: Auth) returns (info: UserInfo)
    ensures info == StoredUserInfo(auth.secure.items, auth.secure.available)
    ensures !auth.secure.available ==> info == UserInfo(None, None)
  {
    info := auth.GetUserInfo();
  }

  const SearchPrefix := "/tasks/search?q="

  /** The GET searchTasks sends: the trimmed query, percent-encoded, as the q parameter. */
  function SearchRequest(query: string): Request {
    Request(Get, SearchPrefix + EncodeUriComponent(Trim(JavaScript, query)), map[])
  }

  /**
   * searchTasks: a query that is blank after trim() is refused without a
   * request; otherwise the reply maps as fetchTasks' does, with the server's
   * message on a failure other than 401.
   */
  function SearchTasks(query: string, reply: Reply): (r: Run)
    ensures AllSpace(JavaScript, query) ==>
              r == Refused("Please enter a search query", Failed(Some("VALIDATION_ERROR")))
    ensures !AllSpace(JavaScript, query) ==> r.request == Some(SearchRequest(query)) && r.nav == Stay && !r.notified
    ensures !AllSpace(JavaScript, query) && reply.Success? ==> r.outcome == Succeeded(Some(reply.payload)) && r.alert.None?
    ensures !AllSpace(JavaScript, query) && Unauthorized(Network(reply)) ==>
              r.outcome == Failed(Some("UNAUTHORIZED")) && r.alert == Some(SessionExpired)
    ensures !AllSpace(JavaScript, query) && !reply.Success? && !Unauthorized(Network(reply)) ==>
              && r.outcome == Failed(Some("SEARCH_FAILED"))
              && r.alert == Some(Alert("Error", ErrorText(Network(reply), "Search failed"), Stay))
  {
    TrimSpec(JavaScript, query);
    if Trim(JavaScript, query) == [] then Refused("Please enter a search query", Failed(Some("VALIDATION_ERROR")))
    else
      var request := Some(SearchRequest(query));
      if reply.Success? then Run(request, None, Stay, false, Succeeded(Some(reply.payload)))
      else if Unauthorized(Network(reply)) then Run(request, Some(SessionExpired), Stay, false, Failed(Some("UNAUTHORIZED")))
      else
        Run(request, Some(Alert("Error", ErrorText(Network(reply), "Search failed"), Stay)), Stay, false,
            Failed(Some("SEARCH_FAILED")))
  }

  /**
   * The search URL carries the query intact: the parameter holds no
   * character that ends or rewrites it, and percent- and UTF-8 decoding it
   * gives back the trimmed query, non-empty.
   */
  lemma SearchQueryArrives(query: string)
    requires !AllSpace(JavaScript, query)
    ensures SearchRequest(query).path[..|SearchPrefix|] == SearchPrefix
    ensures forall i :: |SearchPrefix| <= i < |SearchRequest(query).path| ==> SearchRequest(query).path[i] !in "&=#+ "
    ensures Utf8Decode(PercentDecode(SearchRequest(query).path[|SearchPrefix|..])) == Some(Trim(JavaScript, query))
    ensures Trim(JavaScript, query) != []
  {
    var encoded := EncodeUriComponent(Trim(JavaScript, query));
    var path := SearchRequest(query).path;
    assert path[|SearchPrefix|..] == encoded;
    EncodedIsSafe(Trim(JavaScript, query));
    forall i | |SearchPrefix| <= i < |path| ensures path[i] !in "&=#+ " {
      assert path[i] == encoded[i - |SearchPrefix|];
    }
    ComponentRoundTrip(Trim(JavaScript, query));
    TrimSpec(JavaScript, query);
  }

  /**
   * The two runtimes disagree on whitespace: a query of one information
   * separator (U+001F) passes the screen's trim() check and is sent, but
   * the server's strip() empties it and search_tasks answers 400.
   */
  lemma SeparatorQueryRefusedByServer()
    ensures !AllSpace(JavaScript, "\U{1F}")
    ensures SearchRequest("\U{1F}").path == SearchPrefix + "%1F"
    ensures Trim(Python, Trim(JavaScript, "\U{1F}")) == []
  {
    var q := "\U{1F}";
    assert !IsJsSpace(q[0]);
    TrimmedFixed(JavaScript, q);
    assert Utf8(q[0]) == [0x1F];
    assert EncodeUriComponent(q) == EscapeAll([0x1F]) + EncodeUriComponent([]);
    assert EscapeAll([0x1F]) == Escape(0x1F) + EscapeAll([]);
    TrimSpec(Python, q);
  }

  /** toggleTaskDone's PUT: is_done is the negation of the status the screen shows. */
  function ToggleRequest(taskId: Value, currentStatus: Value): (r: Request)
    ensures r.verb == Put && r.path == "/tasks/" + JsString(Some(taskId))
    ensures r.body == map["is_done" := Bool(!Truthy(currentStatus))]
  {
    Request(Put, "/tasks/" + JsString(Some(taskId)), map["is_done" := Bool(!Truthy(currentStatus))])
  }

  /** toggleTaskDone, given how its PUT ends. */
  function ToggleTaskDone(taskId: Value, currentStatus: Value, reply: Reply): (r: Run)
    ensures r.request == Some(ToggleRequest(taskId, currentStatus)) && r.nav == Stay && !r.notified
    ensures reply.Success? ==> r.outcome == Succeeded(None) && r.alert.None?
    ensures !reply.Success? ==> r.outcome == Failed(None) && r.alert == Some(Alert("Error", "Failed to update task", Stay))
  {
    var request := Some(ToggleRequest(taskId, currentStatus));
    if reply.Success? then Run(request, None, Stay, false, Succeeded(None))
    else Run(request, Some(Alert("Error", "Failed to update task", Stay)), Stay, false, Failed(None))
  }

  /**
   * The server applies a toggle to the caller's row by flipping its
   * completion and keeping its owner and text (stripped as update_task
   * always strips).
   */
  lemma ToggleFlipsStatus(row: Backend.Task, taskId: Value, currentStatus: Value)
    ensures Backend.EditedTask(row, ToggleRequest(taskId, currentStatus).body).Ok?
    ensures Truthy(Backend.EditedTask(row, ToggleRequest(taskId, currentStatus).body).value.isDone) == !Truthy(currentStatus)
    ensures Backend.EditedTask(row, ToggleRequest(taskId, currentStatus).body).value
            == row.(title := Trim(Python, row.title), description := Trim(Python, row.description),
                    isDone := Int(if Truthy(currentStatus) then 0 else 1))
  {
  }

  /**
   * deleteTask, with whether the user confirmed the dialog and how the
   * DELETE ends: onSuccess runs only after a confirmed DELETE succeeds, and
   * the handler itself resolves to undefined. The handler calls onSuccess only
   * when one was passed; `notified` says it ran, assuming the caller passed one.
   */
  function DeleteTask(taskId: Value, confirmed: bool, reply: Reply): (r: Run)
    ensures r.outcome == Settled && r.nav == Stay
    ensures r.request.Some? <==> confirmed
    ensures confirmed ==> r.request == Some(Request(Delete, "/tasks/" + JsString(Some(taskId)), map[]))
    ensures r.notified <==> confirmed && reply.Success?
    ensures r.alert.Some? <==> confirmed && !reply.Success?
    ensures r.alert.Some? ==> r.alert.value == Alert("Error", "Failed to delete task", Stay)
  {
    if !confirmed then Run(None, None, Stay, false, Settled)
    else
      var request := Some(Request(Delete, "/tasks/" + JsString(Some(taskId)), map[]));
      if reply.Success? then Run(request, None, Stay, true, Settled)
      else Run(request, Some(Alert("Error", "Failed to delete task", Stay)), Stay, false, Settled)
  }

  /** handleLogout: once confirmed, the session is removed from the secure store and the login screen replaces home. */
  method HandleLogout(auth: Auth, confirmed: bool) returns (nav: Nav)
    modifies auth.secure
    ensures nav == if confirmed then Replace(LoginScreen) else Stay
    ensures auth.secure.items
            == if confirmed && auth.secure.available then old(auth.secure.items) - SessionKeys else old(auth.secure.items)
    ensures confirmed && auth.secure.available ==>
              StoredToken(auth.secure.items, auth.secure.available) == None
  {
    nav := Stay;
    if confirmed {
      auth.RemoveToken();
      nav := Replace(LoginScreen);
    }
  }
}
