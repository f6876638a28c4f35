/**
 * The original app's add-task logic (mobile/src/handlers/taskHandler.js):
 * the owner of the new task is whatever user_id the device has stored, sent
 * in the request body.
 */
module VulnerableTasks {
  import opened Common
  import opened Text
  import opened Json
  import opened Validation
  import opened Client
  import SecureTasks
  import Backend

  const UserIdKey := "user_id"

  /** `!title || !title.trim()`: no title, or one that is blank after trim(). */
  predicate Blank(title: Option<string>) {
    title.None? || AllSpace(JavaScript, title.value)
  }

  /**
   * The POST body: the stored user id as the owner, the trimmed title, and
   * the trimmed description or '' when there is none.
   */
  function TaskBody(userId: string, title: string, description: Option<string>): (r: map<string, Value>)
    ensures r.Keys == {"user_id", "title", "description"}
    ensures r["user_id"] == Str(userId) && r["title"] == Str(Trim(JavaScript, title))
    ensures description.None? ==> r["description"] == Str("")
    ensures description.Some? ==> r["description"] == Str(Trim(JavaScript, description.value))
  {
    map["user_id" := Str(userId), "title" := Str(Trim(JavaScript, title)),
        "description" := Str(if description.Some? then Trim(JavaScript, description.value) else "")]
  }

  /**
   * The rest of the chain `error.message || 'Could not add task'`, used when
   * the server gave no truthy error: the axios message, or the fixed text
   * when that message is empty.
   */
  function FailureFallback(reply: Reply): (r: string)
    requires !reply.Success?
    ensures r != ""
    ensures AxiosMessage(reply) != "" ==> r == AxiosMessage(reply)
    ensures AxiosMessage(reply) == "" ==> r == "Could not add task"
  {
    if AxiosMessage(reply) != "" then AxiosMessage(reply) else "Could not add task"
  }

  /**
   * addTask, given the preference store's state and how its POST ends. A
   * failing store rejects the promise; then the stored user id is checked
   * before the title; only a call that passes both sends the POST.
   */
  function AddTask(items: map<string, string>, available: bool, title: Option<string>, description: Option<string>,
                   reply: Reply): (r: Run)
    ensures !available ==> r == Run(None, None, Stay, false, Rejected(Storage))
    ensures r.request.Some? <==> available && Lookup(items, UserIdKey).GetOr("") != "" && !Blank(title)
    ensures available && Lookup(items, UserIdKey).GetOr("") == "" ==>
              r == Run(None, Some(Alert("Error", "Please login first", Stay)), Replace(LoginScreen), false,
                       Failed(Some("NO_USER_ID")))
    ensures available && Lookup(items, UserIdKey).GetOr("") != "" && Blank(title) ==>
              r == Run(None, Some(Alert("Error", "Please enter a task title", Stay)), Stay, false, Failed(Some("NO_TITLE")))
    ensures r.request.Some? ==>
              r.request.value == Request(Post, "/tasks", TaskBody(items[UserIdKey], title.value, description))
    ensures r.request.Some? && reply.Success? ==> r.outcome == Succeeded(None) && r.nav == GoBack && r.alert.None?
    ensures r.request.Some? && !reply.Success? ==>
              && r.outcome == FailedWith(Network(reply)) && r.nav == Stay
              && r.alert == Some(Alert("Error", ErrorText(Network(reply), FailureFallback(reply)), Stay))
    ensures r.outcome == Succeeded(None) <==> r.request.Some? && reply.Success?
  {
    if !available then Run(None, None, Stay, false, Rejected(Storage))
    else
      var userId := Lookup(items, UserIdKey).GetOr("");
      if userId == "" then
        Run(None, Some(Alert("Error", "Please login first", Stay)), Replace(LoginScreen), false, Failed(Some("NO_USER_ID")))
      else if title.None? then
        Run(None, Some(Alert("Error", "Please enter a task title", Stay)), Stay, false, Failed(Some("NO_TITLE")))
      else
        TrimSpec(JavaScript, title.value);
        if Trim(JavaScript, title.value) == [] then
          Run(None, Some(Alert("Error", "Please enter a task title", Stay)), Stay, false, Failed(Some("NO_TITLE")))
        else
          var request := Some(Request(Post, "/tasks", TaskBody(userId, title.value, description)));
          if reply.Success? then Run(request, None, GoBack, false, Succeeded(None))
          else
            Run(request, Some(Alert("Error", ErrorText(Network(reply), FailureFallback(reply)), Stay)), Stay, false,
                FailedWith(Network(reply)))
  }

  /**
   * For an HTTP error the chain never reaches its last link: axios gives
   * such an error a non-empty message naming the status. The fixed text
   * replaces the axios message only for a failure without a response whose
   * message is empty.
   */
  lemma FixedFallbackOnlyWithoutMessage(reply: Reply)
    requires !reply.Success?
    ensures FailureFallback(reply) != AxiosMessage(reply) <==> reply.NoResponse? && reply.message == ""
  {
  }

  /**
   * A field add_task does not read changes nothing: the server's verdict on a
   * body is the same with or without it.
   */
  lemma UnreadFieldIgnored(userId: int, data: map<string, Value>, key: string, v: Value)
    requires key !in data && key !in Backend.TaskLimits
    ensures Backend.NewTask(userId, data[key := v]) == Backend.NewTask(userId, data)
  {
    var extended := data[key := v];
    assert FieldErrors(extended, "title", Backend.TaskLimits) == FieldErrors(data, "title", Backend.TaskLimits);
    assert RequiredErrors(extended, Backend.TaskFields, Backend.TaskLimits)
           == RequiredErrors(data, Backend.TaskFields, Backend.TaskLimits) by {
      assert Backend.TaskFields[..0] == [];
    }
    SanitizedText(extended, Backend.TaskLimits, "title");
    SanitizedText(data, Backend.TaskLimits, "title");
    SanitizedText(extended, Backend.TaskLimits, "description");
    SanitizedText(data, Backend.TaskLimits, "description");
    assert OptionalText(Sanitized(extended, Backend.TaskLimits), "description", "")
           == OptionalText(Sanitized(data, Backend.TaskLimits), "description", "");
  }

  /**
   * Against the secured server the stored user id claims nothing: add_task
   * takes the owner from the token, and this body is judged exactly as the
   * secured app's body for the same title and description.
   */
  lemma ClaimedOwnerIgnored(tokenUser: int, storedUserId: string, title: string, description: string)
    ensures Backend.NewTask(tokenUser, TaskBody(storedUserId, title, Some(description)))
            == Backend.NewTask(tokenUser, SecureTasks.TaskRequest(title, description).body)
    ensures Backend.NewTask(tokenUser, TaskBody(storedUserId, title, Some(description))).Ok? ==>
              Backend.NewTask(tokenUser, TaskBody(storedUserId, title, Some(description))).value.userId == tokenUser
  {
    var secure := SecureTasks.TaskRequest(title, description).body;
    assert TaskBody(storedUserId, title, Some(description)) == secure["user_id" := Str(storedUserId)];
    UnreadFieldIgnored(tokenUser, secure, "user_id", Str(storedUserId));
  }
}
