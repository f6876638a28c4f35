/**
 * The secured Flask server (backend/secure/app.py) over the three SQLite
 * tables of backend/init_db.py, each table a map from row id to row.
 */
module Backend {
  import opened Common
  import opened Text
  import opened Json
  import opened Validation
  import opened Bearer

  /** A bcrypt hash, abstracted to the salt it drew and the password it commits to. */
  datatype PasswordHash = PasswordHash(salt: nat, secret: string)

  /** bcrypt.checkpw: does the password match the hash? */
  predicate VerifyPassword(password: string, hashed: PasswordHash) {
    hashed.secret == password
  }

  /** hash_password; the random salt is a parameter. Only the hashed password verifies. */
  function HashPassword(password: string, salt: nat): (h: PasswordHash)
    ensures forall p :: VerifyPassword(p, h) <==> p == password
  {
    PasswordHash(salt, password)
  }

  /** A row of `users`. */
  datatype User = User(username: string, password: PasswordHash)

  /** A row of `tasks`; is_done holds whatever value was bound to it. */
  datatype Task = Task(userId: int, title: string, description: string, isDone: Value)

  /** A row of `events`. */
  datatype Event = Event(userId: int, title: string, date: string)

  /** The JSON a route answers with. */
  datatype Body =
    | Message(text: string)
    | Error(text: string)
    | Session(token: string, userId: int, username: string)
    | TaskRows(tasks: map<int, Task>)
    | EventRows(events: map<int, Event>)

  datatype Response = Response(status: int, body: Body)

  /** A 400 whose message joins the validation errors with "; ". */
  function BadRequest(errors: seq<string>): Response {
    Response(400, Error(Join(errors, "; ")))
  }

  /** What Flask's 500 handler answers when a route raises outside its own try block. */
  const InternalError := Response(500, Error("An internal error occurred"))
  const InvalidCredentials := Response(401, Error("Invalid credentials"))
  const TaskNotFound := Response(404, Error("Task not found"))
  const UpdateFailed := Response(500, Error("Failed to update task"))

  const CredentialFields := ["username", "password"]
  const CredentialLimits := map["username" := 50, "password" := 100]
  const TaskFields := ["title"]
  const TaskLimits := map["title" := 200, "description" := 1000]
  const EventFields := ["title", "date"]
  const EventLimits := map["title" := 200, "date" := 20]
  const MinPasswordLength := 6

  /** The value sqlite3 stores for a bound parameter: booleans become 0 or 1. */
  function Bound(v: Value): (r: Value)
    ensures v.Bool? ==> r == Int(if v.b then 1 else 0)
    ensures !v.Bool? ==> r == v
    ensures Truthy(r) == Truthy(v)
  {
    if v.Bool? then Int(if v.b then 1 else 0) else v
  }

  /** Python's strip() would leave s as it is: neither end is whitespace (see TrimmedFixed). */
  predicate Stripped(s: string) {
    Trimmed(Python, s)
  }

  /** Free of the two sequences the rewrite deletes. */
  predicate Defused(s: string) {
    ';' !in s && !Contains(s, "--")
  }

  /** What every stored piece of sanitised text is: stripped and defused. */
  lemma StoredText(s: string)
    ensures Stripped(Trim(Python, Sanitize(s))) && Defused(Trim(Python, Sanitize(s)))
  {
    SanitizeSafe(s);
    TrimSpec(Python, Sanitize(s));
    TrimKeepsOut(Python, Sanitize(s), ';', "--");
  }

  /** The UNIQUE constraint on users.username. */
  predicate UniqueUsernames(users: map<int, User>) {
    forall a, b :: a in users && b in users && users[a].username == users[b].username ==> a == b
  }

  predicate UsernameTaken(users: map<int, User>, name: string) {
    exists id | id in users :: users[id].username == name
  }

  /** Adding a user under a fresh id whose name is not taken keeps the names unique. */
  lemma InsertKeepsUnique(users: map<int, User>, id: int, row: User)
    requires UniqueUsernames(users) && id !in users && !UsernameTaken(users, row.username)
    ensures UniqueUsernames(users[id := row])
  {
  }

  /** SELECT * FROM tasks WHERE user_id = ? */
  function OwnedTasks(tasks: map<int, Task>, userId: int): (r: map<int, Task>)
    ensures forall id :: id in r <==> id in tasks && tasks[id].userId == userId
    ensures forall id :: id in r ==> r[id] == tasks[id]
  {
    map id | id in tasks && tasks[id].userId == userId :: tasks[id]
  }

  /** SELECT * FROM tasks WHERE user_id = ? AND title LIKE '%query%', LIKE read as containment. */
  function MatchingTasks(tasks: map<int, Task>, userId: int, query: string): (r: map<int, Task>)
    ensures forall id :: id in r <==> id in tasks && tasks[id].userId == userId && Contains(tasks[id].title, query)
    ensures forall id :: id in r ==> r[id] == tasks[id]
  {
    map id | id in tasks && tasks[id].userId == userId && Contains(tasks[id].title, query) :: tasks[id]
  }

  /** SELECT * FROM events WHERE user_id = ? */
  function OwnedEvents(events: map<int, Event>, userId: int): (r: map<int, Event>)
    ensures forall id :: id in r <==> id in events && events[id].userId == userId
    ensures forall id :: id in r ==> r[id] == events[id]
  {
    map id | id in events && events[id].userId == userId :: events[id]
  }

  /**
   * What register decides for a body: the row to insert, or the answer that
   * refuses the request. The route reads the body back after validate_input
   * has rewritten it, so the length check and the hash see the sanitised
   * password and the stored name is the sanitised username, stripped.
   */
  function Registration(users: map<int, User>, data: map<string, Value>, salt: nat): (r: Result<User, Response>)
    ensures RequiredErrors(data, CredentialFields, CredentialLimits) != [] ==>
              r == Err(BadRequest(RequiredErrors(data, CredentialFields, CredentialLimits)))
    ensures r.Ok? <==>
              && RequiredErrors(data, CredentialFields, CredentialLimits) == []
              && TextField(data, "username").Some? && TextField(data, "password").Some?
              && |Sanitize(TextField(data, "password").value)| >= MinPasswordLength
              && !UsernameTaken(users, Trim(Python, Sanitize(TextField(data, "username").value)))
    ensures r.Ok? ==>
              && r.value.username == Trim(Python, Sanitize(TextField(data, "username").value))
              && (forall p :: VerifyPassword(p, r.value.password) <==> p == Sanitize(TextField(data, "password").value))
    ensures r.Err? ==> r.error.status in {400, 409, 500}
  {
    var errors := RequiredErrors(data, CredentialFields, CredentialLimits);
    var clean := Sanitized(data, CredentialLimits);
    if errors != [] then Err(BadRequest(errors))
    else
      var username := TextField(clean, "username");
      var password := TextField(clean, "password");
      if username.None? || password.None? then Err(InternalError)
      else if |password.value| < MinPasswordLength then
        Err(Response(400, Error("Password must be at least 6 characters")))
      else if UsernameTaken(users, Trim(Python, username.value)) then
        Err(Response(409, Error("User already exists")))
      else
        Ok(User(Trim(Python, username.value), HashPassword(password.value, salt)))
  }

  /** A registered name is stripped and defused, and the stored password is at least six characters long. */
  lemma RegisteredRow(users: map<int, User>, data: map<string, Value>, salt: nat)
    requires Registration(users, data, salt).Ok?
    ensures Stripped(Registration(users, data, salt).value.username)
    ensures Defused(Registration(users, data, salt).value.username)
    ensures |Registration(users, data, salt).value.password.secret| >= MinPasswordLength
  {
    StoredText(TextField(data, "username").value);
  }

  /**
   * A long enough password under a name that is already taken is refused with
   * 409: the INSERT raises IntegrityError on the unique username column.
   */
  lemma TakenNameRefused(users: map<int, User>, data: map<string, Value>, salt: nat)
    requires RequiredErrors(data, CredentialFields, CredentialLimits) == []
    requires TextField(data, "username").Some? && TextField(data, "password").Some?
    requires |Sanitize(TextField(data, "password").value)| >= MinPasswordLength
    requires UsernameTaken(users, Trim(Python, Sanitize(TextField(data, "username").value)))
    ensures Registration(users, data, salt) == Err(Response(409, Error("User already exists")))
  {
    SanitizedText(data, CredentialLimits, "username");
    SanitizedText(data, CredentialLimits, "password");
  }

  /**
   * What login answers. The credentials are only checked for presence and are
   * not rewritten; an unknown username and a wrong password get the same 401.
   * `token` is the JWT the library signs for the user found.
   */
  ghost function LoginResponse(users: map<int, User>, data: map<string, Value>, token: string): (r: Response)
    requires UniqueUsernames(users)
    ensures RequiredErrors(data, CredentialFields, map[]) != [] ==>
              r == BadRequest(RequiredErrors(data, CredentialFields, map[]))
    ensures r.status == 200 <==>
              && RequiredErrors(data, CredentialFields, map[]) == []
              && TextField(data, "username").Some? && TextField(data, "password").Some?
              && exists id | id in users ::
                   && users[id].username == Trim(Python, TextField(data, "username").value)
                   && VerifyPassword(TextField(data, "password").value, users[id].password)
    ensures r.status == 200 ==>
              && r.body.Session? && r.body.token == token && r.body.userId in users
              && users[r.body.userId].username == r.body.username
              && r.body.username == Trim(Python, TextField(data, "username").value)
    ensures RequiredErrors(data, CredentialFields, map[]) == [] && TextField(data, "username").Some?
            && !UsernameTaken(users, Trim(Python, TextField(data, "username").value)) ==>
              r == InvalidCredentials
    ensures RequiredErrors(data, CredentialFields, map[]) == []
            && TextField(data, "username").Some? && TextField(data, "password").Some? && r.status != 200 ==>
              r == InvalidCredentials
    ensures r.status in {200, 400, 401, 500}
  {
    var errors := RequiredErrors(data, CredentialFields, map[]);
    var username := TextField(data, "username");
    var password := TextField(data, "password");
    if errors != [] then BadRequest(errors)
    else if username.None? then InternalError
    else
      var name := Trim(Python, username.value);
      if !UsernameTaken(users, name) then InvalidCredentials
      else
        var id :| id in users && users[id].username == name;
        if password.None? then InternalError
        else if VerifyPassword(password.value, users[id].password) then
          Response(200, Session(token, id, users[id].username))
        else
          InvalidCredentials
  }

  /**
   * What add_task decides: the row to insert, owned by the token's user
   * whatever the body says, or the refusal. Only the title is required, and
   * an absent description is the empty string.
   */
  function NewTask(userId: int, data: map<string, Value>): (r: Result<Task, Response>)
    ensures RequiredErrors(data, TaskFields, TaskLimits) != [] ==>
              r == Err(BadRequest(RequiredErrors(data, TaskFields, TaskLimits)))
    ensures r.Ok? <==>
              && RequiredErrors(data, TaskFields, TaskLimits) == []
              && TextField(data, "title").Some? && OptionalText(data, "description", "").Some?
    ensures r.Ok? ==> r.value.userId == userId && r.value.isDone == Int(0)
    ensures r.Err? ==> r.error.status in {400, 500}
  {
    var errors := RequiredErrors(data, TaskFields, TaskLimits);
    var clean := Sanitized(data, TaskLimits);
    if errors != [] then Err(BadRequest(errors))
    else
      var title := TextField(clean, "title");
      var description := OptionalText(clean, "description", "");
      if title.None? || description.None? then Err(InternalError)
      else
        Ok(Task(userId, Trim(Python, title.value), Trim(Python, description.value), Int(0)))
  }

  /**
   * The text of a new task is the sanitised title and description, stripped,
   * so it holds no ; and no --, and an absent description is stored empty.
   */
  lemma NewTaskText(userId: int, data: map<string, Value>)
    requires NewTask(userId, data).Ok?
    ensures NewTask(userId, data).value.title == Trim(Python, Sanitize(TextField(data, "title").value))
    ensures NewTask(userId, data).value.description == Trim(Python, Sanitize(OptionalText(data, "description", "").value))
    ensures "description" !in data ==> NewTask(userId, data).value.description == ""
    ensures Stripped(NewTask(userId, data).value.title) && Defused(NewTask(userId, data).value.title)
    ensures Stripped(NewTask(userId, data).value.description) && Defused(NewTask(userId, data).value.description)
  {
    assert Sanitize("") == "";
    StoredText(TextField(data, "title").value);
    StoredText(OptionalText(data, "description", "").value);
  }

  /**
   * What update_task writes over a row the caller owns: each field the body
   * leaves out keeps its stored value, and nothing is validated or
   * sanitised. A title or description that is not a string makes the
   * update fail.
   */
  function EditedTask(row: Task, data: map<string, Value>): (r: Result<Task, Response>)
    ensures r.Err? <==>
              OptionalText(data, "title", row.title).None? || OptionalText(data, "description", row.description).None?
    ensures r.Err? ==> r.error == UpdateFailed
    ensures r.Ok? ==>
              && r.value.userId == row.userId
              && ("title" in data ==> r.value.title == Trim(Python, data["title"].s))
              && ("title" !in data ==> r.value.title == Trim(Python, row.title))
              && ("description" in data ==> r.value.description == Trim(Python, data["description"].s))
              && ("description" !in data ==> r.value.description == Trim(Python, row.description))
              && ("is_done" in data ==> r.value.isDone == Bound(data["is_done"]))
              && ("is_done" !in data ==> r.value.isDone == row.isDone)
  {
    var title := OptionalText(data, "title", row.title);
    var description := OptionalText(data, "description", row.description);
    if title.None? || description.None? then Err(UpdateFailed)
    else
      var isDone := if "is_done" in data then Bound(data["is_done"]) else row.isDone;
      Ok(Task(row.userId, Trim(Python, title.value), Trim(Python, description.value), isDone))
  }

  /** Whatever an update writes is stripped, as a new task's text is. */
  lemma EditedTaskStripped(row: Task, data: map<string, Value>)
    requires EditedTask(row, data).Ok?
    ensures Stripped(EditedTask(row, data).value.title) && Stripped(EditedTask(row, data).value.description)
  {
    TrimSpec(Python, OptionalText(data, "title", row.title).value);
    TrimSpec(Python, OptionalText(data, "description", row.description).value);
  }

  /** An update with an empty body writes a stored, stripped row back unchanged. */
  lemma EmptyEditKeepsRow(row: Task)
    requires Stripped(row.title) && Stripped(row.description)
    ensures EditedTask(row, map[]) == Ok(row)
  {
    TrimmedFixed(Python, row.title);
    TrimmedFixed(Python, row.description);
  }

  /** What add_event decides: the row to insert, owned by the token's user, or the refusal. */
  function NewEvent(userId: int, data: map<string, Value>): (r: Result<Event, Response>)
    ensures RequiredErrors(data, EventFields, EventLimits) != [] ==>
              r == Err(BadRequest(RequiredErrors(data, EventFields, EventLimits)))
    ensures r.Ok? <==>
              && RequiredErrors(data, EventFields, EventLimits) == []
              && TextField(data, "title").Some? && TextField(data, "date").Some?
    ensures r.Ok? ==> r.value.userId == userId
    ensures r.Err? ==> r.error.status in {400, 500}
  {
    var errors := RequiredErrors(data, EventFields, EventLimits);
    var clean := Sanitized(data, EventLimits);
    if errors != [] then Err(BadRequest(errors))
    else
      var title := TextField(clean, "title");
      var date := TextField(clean, "date");
      if title.None? || date.None? then Err(InternalError)
      else
        Ok(Event(userId, Trim(Python, title.value), Trim(Python, date.value)))
  }

  /** The text of a new event is the sanitised title and date, stripped, so it holds no ; and no --. */
  lemma NewEventText(userId: int, data: map<string, Value>)
    requires NewEvent(userId, data).Ok?
    ensures NewEvent(userId, data).value.title == Trim(Python, Sanitize(TextField(data, "title").value))
    ensures NewEvent(userId, data).value.date == Trim(Python, Sanitize(TextField(data, "date").value))
    ensures Defused(NewEvent(userId, data).value.title) && Defused(NewEvent(userId, data).value.date)
  {
    StoredText(TextField(data, "title").value);
    StoredText(TextField(data, "date").value);
  }

  /** Rows of other users are untouched, and every row added or changed belongs to userId. */
  ghost predicate TasksIsolated(before: map<int, Task>, after: map<int, Task>, userId: int) {
    && (forall id :: id in before && before[id].userId != userId ==> id in after && after[id] == before[id])
    && (forall id :: id in after && (id !in before || after[id] != before[id]) ==> after[id].userId == userId)
  }

  ghost predicate EventsIsolated(before: map<int, Event>, after: map<int, Event>, userId: int) {
    && (forall id :: id in before && before[id].userId != userId ==> id in after && after[id] == before[id])
    && (forall id :: id in after && (id !in before || after[id] != before[id]) ==> after[id].userId == userId)
  }

  /** Writing a row of userId's over nothing or over one of userId's own rows keeps the others' tasks. */
  lemma TaskWriteIsolated(before: map<int, Task>, id: int, row: Task, userId: int)
    requires id in before ==> before[id].userId == userId
    requires row.userId == userId
    ensures TasksIsolated(before, before[id := row], userId)
  {
  }

  /** Removing one of userId's own rows keeps the others' tasks. */
  lemma TaskRemoveIsolated(before: map<int, Task>, id: int, userId: int)
    requires id in before ==> before[id].userId == userId
    ensures TasksIsolated(before, before - {id}, userId)
  {
  }

  /** Adding an event of userId's under a fresh id keeps the others' events. */
  lemma EventWriteIsolated(before: map<int, Event>, id: int, row: Event, userId: int)
    requires id !in before && row.userId == userId
    ensures EventsIsolated(before, before[id := row], userId)
  {
  }

  /** Every row a response lists belongs to userId. */
  ghost predicate RowsOwnedBy(body: Body, userId: int) {
    && (body.TaskRows? ==> forall id :: id in body.tasks ==> body.tasks[id].userId == userId)
    && (body.EventRows? ==> forall id :: id in body.events ==> body.events[id].userId == userId)
  }

  /** The routes behind require_auth, each with the parts of the request it reads. */
  datatype Route =
    | ListTasks                                               // GET /tasks
    | CreateTask(body: map<string, Value>)                    // POST /tasks
    | FindTasks(q: Option<string>)                            // GET /tasks/search?q=
    | EditTask(taskId: nat, body: map<string, Value>)         // PUT /tasks/<int:task_id>
    | RemoveTask(taskId: nat)                                 // DELETE /tasks/<int:task_id>
    | ListEvents                                              // GET /events
    | CreateEvent(body: map<string, Value>)                   // POST /events

  /** The three tables and their AUTOINCREMENT counters. */
  class Database {
    var users: map<int, User>
    var tasks: map<int, Task>
    var events: map<int, Event>
    var nextUserId: int
    var nextTaskId: int
    var nextEventId: int

    /**
     * Ids are positive and below their counter, so fresh ids are never reused;
     * usernames are unique; stored task text is stripped.
     */
    ghost predicate Valid()
      reads this
    {
      && 1 <= nextUserId && 1 <= nextTaskId && 1 <= nextEventId
      && (forall id :: id in users ==> 1 <= id < nextUserId)
      && (forall id :: id in tasks ==> 1 <= id < nextTaskId)
      && (forall id :: id in events ==> 1 <= id < nextEventId)
      && UniqueUsernames(users)
      && (forall id :: id in tasks ==> Stripped(tasks[id].title) && Stripped(tasks[id].description))
    }

    /** The freshly created database: three empty tables. */
    constructor ()
      ensures Valid()
      ensures users == map[] && tasks == map[] && events == map[]
    {
      users, tasks, events := map[], map[], map[];
      nextUserId, nextTaskId, nextEventId := 1, 1, 1;
    }

    /** The INSERT of register: a name not yet taken goes in under the next id, which AUTOINCREMENT then moves past. */
    method InsertUser(row: User)
      requires Valid() && !UsernameTaken(users, row.username)
      modifies this
      ensures Valid()
      ensures users == old(users)[old(nextUserId) := row] && nextUserId == old(nextUserId) + 1
      ensures tasks == old(tasks) && events == old(events)
      ensures nextTaskId == old(nextTaskId) && nextEventId == old(nextEventId)
    {
      InsertKeepsUnique(users, nextUserId, row);
      users := users[nextUserId := row];
      nextUserId := nextUserId + 1;
    }

    /** POST /register: inserts the row Registration decides on, under a fresh id. */
    method Register(data: map<string, Value>, salt: nat) returns (resp: Response)
      requires Valid()
      modifies this
      ensures Valid()
      ensures tasks == old(tasks) && events == old(events)
      ensures nextTaskId == old(nextTaskId) && nextEventId == old(nextEventId)
      ensures Registration(old(users), data, salt).Err? ==>
                && resp == Registration(old(users), data, salt).error
                && users == old(users) && nextUserId == old(nextUserId)
      ensures Registration(old(users), data, salt).Ok? ==>
                && resp == Response(201, Message("User registered successfully"))
                && users == old(users)[old(nextUserId) := Registration(old(users), data, salt).value]
                && nextUserId == old(nextUserId) + 1
    {
      var errors, clean := ValidateInput(data, CredentialFields, CredentialLimits);
      if errors != [] {
        return BadRequest(errors);
      }
      var username := TextField(clean, "username");
      var password := TextField(clean, "password");
      if username.None? || password.None? {
        return InternalError;
      }
      var name := Trim(Python, username.value);
      if |password.value| < MinPasswordLength {
        return Response(400, Error("Password must be at least 6 characters"));
      }
      var hashed := HashPassword(password.value, salt);
      if UsernameTaken(users, name) {
        return Response(409, Error("User already exists"));
      }
      var row := User(name, hashed);
      assert row == Registration(users, data, salt).value;
      InsertUser(row);
      resp := Response(201, Message("User registered successfully"));
    }

    /** POST /login: reads the users table only. */
    method Login(data: map<string, Value>, token: string) returns (resp: Response)
      requires Valid()
      ensures resp == LoginResponse(users, data, token)
    {
      var errors, _ := ValidateInput(data, CredentialFields, map[]);
      if errors != [] {
        return BadRequest(errors);
      }
      var username := TextField(data, "username");
      if username.None? {
        return InternalError;
      }
      var name := Trim(Python, username.value);
      if !UsernameTaken(users, name) {
        return InvalidCredentials;
      }
      var id :| id in users && users[id].username == name;
      var password := TextField(data, "password");
      if password.None? {
        return InternalError;
      }
      if VerifyPassword(password.value, users[id].password) {
        resp := Response(200, Session(token, id, users[id].username));
      } else {
        resp := InvalidCredentials;
      }
    }

    /** GET /tasks: the caller's tasks and no one else's. */
    method GetTasks(user: Claims) returns (resp: Response)
      ensures resp.status == 200 && resp.body.TaskRows?
      ensures forall id :: id in resp.body.tasks <==> id in tasks && tasks[id].userId == user.userId
      ensures forall id :: id in resp.body.tasks ==> resp.body.tasks[id] == tasks[id]
    {
      resp := Response(200, TaskRows(OwnedTasks(tasks, user.userId)));
    }

    /** The INSERT of add_task: the row goes in under the next id, which AUTOINCREMENT then moves past. */
    method InsertTask(row: Task)
      requires Valid() && Stripped(row.title) && Stripped(row.description)
      modifies this
      ensures Valid()
      ensures tasks == old(tasks)[old(nextTaskId) := row] && nextTaskId == old(nextTaskId) + 1
      ensures users == old(users) && events == old(events)
      ensures nextUserId == old(nextUserId) && nextEventId == old(nextEventId)
    {
      tasks := tasks[nextTaskId := row];
      nextTaskId := nextTaskId + 1;
    }

    /** POST /tasks: inserts the row NewTask decides on, under a fresh id. */
    method AddTask(user: Claims, data: map<string, Value>) returns (resp: Response)
      requires Valid()
      modifies this
      ensures Valid()
      ensures users == old(users) && events == old(events)
      ensures nextUserId == old(nextUserId) && nextEventId == old(nextEventId)
      ensures NewTask(user.userId, data).Err? ==>
                && resp == NewTask(user.userId, data).error
                && tasks == old(tasks) && nextTaskId == old(nextTaskId)
      ensures NewTask(user.userId, data).Ok? ==>
                && resp == Response(201, Message("Task added"))
                && tasks == old(tasks)[old(nextTaskId) := NewTask(user.userId, data).value]
                && nextTaskId == old(nextTaskId) + 1
    {
      var errors, clean := ValidateInput(data, TaskFields, TaskLimits);
      if errors != [] {
        return BadRequest(errors);
      }
      var title := TextField(clean, "title");
      var description := OptionalText(clean, "description", "");
      if title.None? || description.None? {
        return InternalError;
      }
      NewTaskText(user.userId, data);
      InsertTask(Task(user.userId, Trim(Python, title.value), Trim(Python, description.value), Int(0)));
      resp := Response(201, Message("Task added"));
    }

    /** GET /tasks/search: the caller's tasks whose title contains the stripped query. */
    method SearchTasks(user: Claims, q: Option<string>) returns (resp: Response)
      ensures Trim(Python, q.GetOr("")) == [] ==> resp == Response(400, Error("Search query is required"))
      ensures Trim(Python, q.GetOr("")) != [] ==>
                && resp.status == 200 && resp.body.TaskRows?
                && (forall id :: id in resp.body.tasks <==>
                      && id in tasks && tasks[id].userId == user.userId
                      && Contains(tasks[id].title, Trim(Python, q.GetOr(""))))
                && (forall id :: id in resp.body.tasks ==> resp.body.tasks[id] == tasks[id])
    {
      var query := Trim(Python, q.GetOr(""));
      if query == [] {
        return Response(400, Error("Search query is required"));
      }
      resp := Response(200, TaskRows(MatchingTasks(tasks, user.userId, query)));
    }

    /** PUT /tasks/<id>: only the caller's own task is found, and it is rewritten as EditedTask says. */
    method UpdateTask(user: Claims, taskId: nat, data: map<string, Value>) returns (resp: Response)
      requires Valid()
      modifies this
      ensures Valid()
      ensures users == old(users) && events == old(events)
      ensures nextUserId == old(nextUserId) && nextTaskId == old(nextTaskId) && nextEventId == old(nextEventId)
      ensures !(taskId in old(tasks) && old(tasks)[taskId].userId == user.userId) ==>
                resp == TaskNotFound && tasks == old(tasks)
      ensures taskId in old(tasks) && old(tasks)[taskId].userId == user.userId ==>
                && (EditedTask(old(tasks)[taskId], data).Err? ==>
                      resp == UpdateFailed && tasks == old(tasks))
                && (EditedTask(old(tasks)[taskId], data).Ok? ==>
                      && resp == Response(200, Message("Task updated"))
                      && tasks == old(tasks)[taskId := EditedTask(old(tasks)[taskId], data).value])
    {
      if !(taskId in tasks && tasks[taskId].userId == user.userId) {
        return TaskNotFound;
      }
      var row := tasks[taskId];
      var title := OptionalText(data, "title", row.title);
      var description := OptionalText(data, "description", row.description);
      if title.None? || description.None? {
        return UpdateFailed;
      }
      var isDone := if "is_done" in data then Bound(data["is_done"]) else row.isDone;
      EditedTaskStripped(row, data);
      tasks := tasks[taskId := Task(row.userId, Trim(Python, title.value), Trim(Python, description.value), isDone)];
      resp := Response(200, Message("Task updated"));
    }

    /** DELETE /tasks/<id>: removes exactly the caller's task with that id, or answers 404. */
    method DeleteTask(user: Claims, taskId: nat) returns (resp: Response)
      requires Valid()
      modifies this
      ensures Valid()
      ensures users == old(users) && events == old(events)
      ensures nextUserId == old(nextUserId) && nextTaskId == old(nextTaskId) && nextEventId == old(nextEventId)
      ensures taskId in old(tasks) && old(tasks)[taskId].userId == user.userId ==>
                resp == Response(200, Message("Task deleted")) && tasks == old(tasks) - {taskId}
      ensures !(taskId in old(tasks) && old(tasks)[taskId].userId == user.userId) ==>
                resp == TaskNotFound && tasks == old(tasks)
    {
      if taskId in tasks && tasks[taskId].userId == user.userId {
        tasks := tasks - {taskId};
        resp := Response(200, Message("Task deleted"));
      } else {
        resp := TaskNotFound;
      }
    }

    /** GET /events: the caller's events and no one else's. */
    method GetEvents(user: Claims) returns (resp: Response)
      ensures resp.status == 200 && resp.body.EventRows?
      ensures forall id :: id in resp.body.events <==> id in events && events[id].userId == user.userId
      ensures forall id :: id in resp.body.events ==> resp.body.events[id] == events[id]
    {
      resp := Response(200, EventRows(OwnedEvents(events, user.userId)));
    }

    /** The INSERT of add_event: the row goes in under the next id, which AUTOINCREMENT then moves past. */
    method InsertEvent(row: Event)
      requires Valid()
      modifies this
      ensures Valid()
      ensures events == old(events)[old(nextEventId) := row] && nextEventId == old(nextEventId) + 1
      ensures users == old(users) && tasks == old(tasks)
      ensures nextUserId == old(nextUserId) && nextTaskId == old(nextTaskId)
    {
      events := events[nextEventId := row];
      nextEventId := nextEventId + 1;
    }

    /** POST /events: inserts the row NewEvent decides on, under a fresh id. */
    method AddEvent(user: Claims, data: map<string, Value>) returns (resp: Response)
      requires Valid()
      modifies this
      ensures Valid()
      ensures users == old(users) && tasks == old(tasks)
      ensures nextUserId == old(nextUserId) && nextTaskId == old(nextTaskId)
      ensures NewEvent(user.userId, data).Err? ==>
                && resp == NewEvent(user.userId, data).error
                && events == old(events) && nextEventId == old(nextEventId)
      ensures NewEvent(user.userId, data).Ok? ==>
                && resp == Response(201, Message("Event added"))
                && events == old(events)[old(nextEventId) := NewEvent(user.userId, data).value]
                && nextEventId == old(nextEventId) + 1
    {
      var errors, clean := ValidateInput(data, EventFields, EventLimits);
      if errors != [] {
        return BadRequest(errors);
      }
      var title := TextField(clean, "title");
      var date := TextField(clean, "date");
      if title.None? || date.None? {
        return InternalError;
      }
      InsertEvent(Event(user.userId, Trim(Python, title.value), Trim(Python, date.value)));
      resp := Response(201, Message("Event added"));
    }

    /**
     * A request to a protected route: require_auth first, then the route with
     * the token's claims. A refused request changes nothing; an accepted one
     * never touches another user's rows nor lists them.
     */
    method Serve(header: Option<string>, verify: map<string, Claims>, route: Route) returns (resp: Response)
      requires Valid()
      modifies this
      ensures Valid()
      ensures users == old(users)
      ensures Authenticate(header, verify).Err? ==>
                && resp == Response(401, Error(DenialMessage(Authenticate(header, verify).error)))
                && tasks == old(tasks) && events == old(events)
      ensures Authenticate(header, verify).Ok? ==>
                && TasksIsolated(old(tasks), tasks, Authenticate(header, verify).value.userId)
                && EventsIsolated(old(events), events, Authenticate(header, verify).value.userId)
                && RowsOwnedBy(resp.body, Authenticate(header, verify).value.userId)
    {
      var auth := Authenticate(header, verify);
      if auth.Err? {
        return Response(401, Error(DenialMessage(auth.error)));
      }
      var user := auth.value;
      var tasks0, events0, nextTaskId0, nextEventId0 := tasks, events, nextTaskId, nextEventId;
      match route {
        case ListTasks =>
          resp := GetTasks(user);
        case CreateTask(body) =>
          resp := AddTask(user, body);
          if NewTask(user.userId, body).Ok? {
            TaskWriteIsolated(tasks0, nextTaskId0, NewTask(user.userId, body).value, user.userId);
          }
        case FindTasks(q) =>
          resp := SearchTasks(user, q);
        case EditTask(taskId, body) =>
          resp := UpdateTask(user, taskId, body);
          if taskId in tasks0 && tasks0[taskId].userId == user.userId && EditedTask(tasks0[taskId], body).Ok? {
            TaskWriteIsolated(tasks0, taskId, EditedTask(tasks0[taskId], body).value, user.userId);
          }
        case RemoveTask(taskId) =>
          resp := DeleteTask(user, taskId);
          if taskId in tasks0 && tasks0[taskId].userId == user.userId {
            TaskRemoveIsolated(tasks0, taskId, user.userId);
          }
        case ListEvents =>
          resp := GetEvents(user);
        case CreateEvent(body) =>
          resp := AddEvent(user, body);
          if NewEvent(user.userId, body).Ok? {
            EventWriteIsolated(events0, nextEventId0, NewEvent(user.userId, body).value, user.userId);
          }
      }
    }
  }

  /** add_task lists only the title as required, so no description, however long, is ever refused. */
  lemma DescriptionNeverLimited(data: map<string, Value>, description: Value)
    ensures RequiredErrors(data["description" := description], TaskFields, TaskLimits)
            == RequiredErrors(data, TaskFields, TaskLimits)
  {
    assert TaskFields[..0] == [];
  }

  /** With usernames unique, a login for a name that row id holds succeeds exactly when that row's hash verifies. */
  lemma LoginFindsOwner(users: map<int, User>, data: map<string, Value>, id: int, token: string)
    requires UniqueUsernames(users)
    requires RequiredErrors(data, CredentialFields, map[]) == []
    requires TextField(data, "username").Some? && TextField(data, "password").Some?
    requires id in users && users[id].username == Trim(Python, TextField(data, "username").value)
    ensures LoginResponse(users, data, token).status == 200
            <==> VerifyPassword(TextField(data, "password").value, users[id].password)
  {
  }

  /**
   * Registering and then logging in with the same body: when the username
   * is clean, the login succeeds exactly when the password is clean too,
   * because register stores the sanitised password and login checks the
   * password as sent.
   */
  lemma RegisterThenLogin(users: map<int, User>, newId: int, username: string, password: string, salt: nat, token: string)
    requires UniqueUsernames(users) && newId !in users
    requires Clean(username)
    requires Registration(users, map["username" := Str(username), "password" := Str(password)], salt).Ok?
    ensures
      var data := map["username" := Str(username), "password" := Str(password)];
      var after := users[newId := Registration(users, data, salt).value];
      LoginResponse(after, data, token).status == 200 <==> Clean(password)
  {
    var data := map["username" := Str(username), "password" := Str(password)];
    var row := Registration(users, data, salt).value;
    var after := users[newId := row];
    InsertKeepsUnique(users, newId, row);
    SanitizeFixedPoints(username);
    SanitizeFixedPoints(password);
    assert TextField(data, "username") == Some(username) && TextField(data, "password") == Some(password);
    RequiredErrorsEmpty(data, CredentialFields, CredentialLimits);
    RequiredErrorsEmpty(data, CredentialFields, map[]);
    assert forall i :: 0 <= i < |CredentialFields| ==> FieldAccepted(data, CredentialFields[i], map[]);
    assert after[newId].username == Trim(Python, username);
    LoginFindsOwner(after, data, newId, token);
    assert VerifyPassword(password, after[newId].password) <==> Clean(password);
  }

}
