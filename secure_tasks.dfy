/**
 * The secured app's add-task logic (mobile-secured/src/handlers/taskHandler.js):
 * the form check, and the request and outcome of addTask.
 */
module SecureTasks {
  import opened Common
  import opened Text
  import opened Json
  import opened Validation
  import opened Client
  import Backend

  const TitleMissing := "Please enter a task title"
  const TitleTooLong := "Title must be 200 characters or less"
  const DescriptionTooLong := "Description must be 1000 characters or less"

  /**
   * validateInput: the title must not be blank after trim(), and the
   * untrimmed title and description must be within 200 and 1000 UTF-16 code
   * units; the first check that fails names the alert.
   */
  function ValidateInput(title: string, description: string): (r: Check)
    ensures r == Reject(TitleMissing) <==> AllSpace(JavaScript, title)
    ensures r == Reject(TitleTooLong) <==> !AllSpace(JavaScript, title) && Utf16Length(title) > 200
    ensures r == Reject(DescriptionTooLong) <==>
              !AllSpace(JavaScript, title) && Utf16Length(title) <= 200 && Utf16Length(description) > 1000
    ensures r == Pass <==>
              !AllSpace(JavaScript, title) && Utf16Length(title) <= 200 && Utf16Length(description) <= 1000
  {
    TrimSpec(JavaScript, title);
    if Trim(JavaScript, title) == [] then Reject(TitleMissing)
    else if Utf16Length(title) > 200 then Reject(TitleTooLong)
    else if Utf16Length(description) > 1000 then Reject(DescriptionTooLong)
    else Pass
  }

  /** The POST addTask sends: both fields trimmed, and no user_id: the server takes the owner from the token. */
  function TaskRequest(title: string, description: string): (r: Request)
    ensures r.verb == Post && r.path == "/tasks" && r.body.Keys == {"title", "description"}
    ensures "user_id" !in r.body
    ensures r.body["title"] == Str(Trim(JavaScript, title))
    ensures r.body["description"] == Str(Trim(JavaScript, description))
  {
    Request(Post, "/tasks", map["title" := Str(Trim(JavaScript, title)), "description" := Str(Trim(JavaScript, description))])
  }

  /** addTask, given how its POST ends: back on success, to the login screen after a 401, an alert otherwise. */
  function AddTask(title: string, description: string, reply: Reply): (r: Run)
    ensures r.request == Some(TaskRequest(title, description)) && !r.notified
    ensures r.outcome == Succeeded(None) <==> reply.Success?
    ensures reply.Success? ==> r.nav == GoBack && r.alert.None?
    ensures Unauthorized(Network(reply)) ==>
              r.outcome == Failed(Some("UNAUTHORIZED")) && r.alert == Some(SessionExpired) && r.nav == Stay
    ensures !reply.Success? && !Unauthorized(Network(reply)) ==>
              && r.outcome == Failed(Some("ADD_FAILED")) && r.nav == Stay
              && r.alert == Some(Alert("Error", ErrorText(Network(reply), "Could not add task"), Stay))
  {
    var request := Some(TaskRequest(title, description));
    if reply.Success? then Run(request, None, GoBack, false, Succeeded(None))
    else if Unauthorized(Network(reply)) then Run(request, Some(SessionExpired), Stay, false, Failed(Some("UNAUTHORIZED")))
    else
      Run(request, Some(Alert("Error", ErrorText(Network(reply), "Could not add task"), Stay)), Stay, false,
          Failed(Some("ADD_FAILED")))
  }

  /**
   * A form the screen accepts is stored by add_task for the token's user:
   * the trimmed title is non-empty and within the server's 200 characters.
   */
  lemma AcceptedTaskIsStored(userId: int, title: string, description: string)
    requires ValidateInput(title, description) == Pass
    ensures RequiredErrors(TaskRequest(title, description).body, Backend.TaskFields, Backend.TaskLimits) == []
    ensures Backend.NewTask(userId, TaskRequest(title, description).body).Ok?
    ensures Backend.NewTask(userId, TaskRequest(title, description).body).value.userId == userId
  {
    var body := TaskRequest(title, description).body;
    TrimSpec(JavaScript, title);
    assert FieldAccepted(body, "title", Backend.TaskLimits);
    RequiredErrorsEmpty(body, Backend.TaskFields, Backend.TaskLimits);
  }
}
