# PlanIT in Dafny

PlanIT is a small task and calendar tracker. It has a Flask server backed by SQLite and two React Native clients:

- an original app that is deliberately insecure;
- a secured app.

This project models the logic that decides things in that system:

- **Server (`backend/secure/app.py`).**
  - `validate_input`, with its required-field checks, its length limits and its in-place rewrite of `'`, `;` and `--`.
  - The `require_auth` decorator.
  - The nine routes, over the `users`, `tasks` and `events` tables. Each table is a map from row id to row.
- **Secured app (`mobile-secured`).**
  - The session store and the two axios interceptors in `authService.js`.
  - The form validators, the requests and the outcome mapping of the login, register, task, calendar and home handlers.
  - The remember-me preference policy of the login screen.
- **Original app (`mobile`).**
  - The plaintext remember-me of the login handler.
  - The add-task handler, which sends the stored `user_id` in the request body.

## How the model is organised

**Shared modules**

- `Common`: `Option`/`Result`.
- `Text`:
  - JavaScript `trim()` and Python `strip()`, each with its own whitespace set;
  - JavaScript `.length` in UTF-16 code units;
  - `str.replace`, `split`, `join` and decimal printing.
- `Json`: request and response values, Python and JavaScript truthiness, and `String(v)`.
- `Validation`: `validate_input`. The error loop is a method whose loop invariant ties it to the `RequiredErrors` function.

**Server modules**

- `Bearer`: `require_auth`, and the round trip of the `Authorization` header between the two ends.
- `Backend`: each route's decision as a function (`Registration`, `NewTask`, `EditedTask`, ...), and the three tables as a `Database` class whose route methods update its maps.
  - `Valid()` holds the `AUTOINCREMENT` and `UNIQUE` constraints of `backend/init_db.py`.
  - `Serve` runs `require_auth` before a route. It proves that a request with a valid token never touches or lists another user's rows.

**Client modules**

- `Client`: replies, alerts, navigation, outcome records, and the `KeyStore` class that stands for AsyncStorage and expo-secure-store.
- `Uri`: `encodeURIComponent`, defined concretely through UTF-8. It comes with the decoding the server applies, and a proved round trip.
- `AuthService`: the secure store of a session, as the `Auth` class.
- `SecureLogin`, `SecureRegister`, `SecureTasks`, `SecureCalendar`, `SecureHome`: the secured handlers.
  - The handlers that only build a request and map a reply are functions of the reply.
  - The login and logout handlers, which write to the stores, are methods.
- `VulnerableLogin`, `VulnerableTasks`: the two handlers of the original app.

**What an awaited call becomes**

- **An axios call** becomes a `Reply` parameter: success, an HTTP error with its body, or no response.
- **A storage call** goes to a `KeyStore`. A store with `available` false fails every call, and nothing is written.

**Where the two ends disagree:**

- The secured app's form refuses a description longer than 1000 characters (mobile-secured/src/handlers/taskHandler.js:21). The server accepts any length: `add_task` lists only `title` as required, and `validate_input` checks lengths only for required fields. See `Backend.DescriptionNeverLimited`.
- The schema declares `is_done INTEGER DEFAULT 0` (backend/init_db.py:29). `update_task` binds whatever JSON value it receives: a boolean becomes 0/1 and any other value is stored as it is. See `Backend.Bound`.

## Model

| member | source | states |
|---|---|---|
| Backend.HashPassword | backend/secure/app.py:31-38 | only the hashed password verifies against the hash |
| Backend.Bound | backend/secure/app.py:269-273 | a bound boolean becomes 1 or 0, other values are stored as sent, truthiness is kept |
| Backend.StoredText | backend/secure/app.py:97-102 | sanitised then stripped text is stripped and holds no `;` and no `--` |
| Backend.InsertKeepsUnique | backend/init_db.py:17 | inserting a name that is not taken under a fresh id keeps usernames unique |
| Backend.OwnedTasks | backend/secure/app.py:186 | exactly the rows of tasks whose user_id is the caller's, unchanged |
| Backend.MatchingTasks | backend/secure/app.py:240-244 | exactly the caller's tasks whose title contains the query |
| Backend.OwnedEvents | backend/secure/app.py:313 | exactly the rows of events whose user_id is the caller's |
| Backend.Registration | backend/secure/app.py:112-135 | validation errors give 400 with the joined messages; otherwise a row exactly when both fields are strings, the sanitised password is at least 6 long and the stripped sanitised name is free; the row stores that name and a hash only the sanitised password verifies; errors are 400, 409 or 500 |
| Backend.TakenNameRefused | backend/secure/app.py:127-135 | a long enough password under a name already taken is answered 409 "User already exists" |
| Backend.RegisteredRow | backend/secure/app.py:120-131 | a registered name is stripped and defused, its stored password at least 6 characters |
| Backend.LoginResponse | backend/secure/app.py:149-174 | 200 exactly when a user with the stripped name has a hash the unsanitised password verifies; the session names that user; when both credentials are present, every answer other than 200 is that same 401, for an unknown name and a wrong password alike |
| Backend.LoginFindsOwner | backend/secure/app.py:158-165 | with unique usernames, a login for a name row id holds succeeds exactly when that row's hash verifies the password |
| Backend.NewTask | backend/secure/app.py:201-217 | validation errors give 400 with the joined messages; a row exists exactly when validation passes, the title is a string and the description is absent or a string; the row belongs to the token's user, never to a user named in the body, and starts with is_done 0 |
| Backend.NewTaskText | backend/secure/app.py:210-212 | the stored title and description are the sanitised fields, stripped, defused, and an absent description is stored as '' |
| Backend.EditedTask | backend/secure/app.py:267-273 | keeps the owner; a title or description the body sends replaces the stored one, and one it omits keeps the stored text, both stripped; a sent is_done is stored as bound and an omitted one is kept; a non-string title or description makes the update fail with 500 |
| Backend.EditedTaskStripped | backend/secure/app.py:267-268 | an update writes stripped text |
| Backend.EmptyEditKeepsRow | backend/secure/app.py:267-269 | an empty body writes a stored row back unchanged |
| Backend.NewEvent | backend/secure/app.py:328-343 | refused with the validation errors, or a row owned by the token's user exactly when title and date are strings |
| Backend.NewEventText | backend/secure/app.py:337-338 | the stored title and date are the sanitised fields, stripped and defused |
| Backend.Database.constructor | backend/init_db.py:14-43 | three empty tables, and the invariant holds |
| Backend.Database.Register | backend/secure/app.py:106-141 | inserts exactly the row Registration decides on under the next id, or answers its refusal with the tables unchanged |
| Backend.Database.InsertUser | backend/secure/app.py:131 | a name not yet taken goes in under the next id, the counter moves past it, and names stay unique |
| Backend.Database.Login | backend/secure/app.py:143-174 | answers LoginResponse and writes nothing |
| Backend.Database.GetTasks | backend/secure/app.py:176-192 | lists exactly the caller's tasks |
| Backend.Database.InsertTask | backend/secure/app.py:216-217 | the row goes in under the next id and the counter moves past it; nothing else changes |
| Backend.Database.AddTask | backend/secure/app.py:194-224 | inserts exactly the row NewTask decides on under the next id, or answers its refusal with the tables unchanged |
| Backend.Database.SearchTasks | backend/secure/app.py:226-250 | a query blank after strip gives 400; otherwise exactly the caller's tasks whose title contains the stripped query |
| Backend.Database.UpdateTask | backend/secure/app.py:252-281 | a task absent or owned by someone else gives 404 and no change; otherwise only that row changes, to EditedTask |
| Backend.Database.DeleteTask | backend/secure/app.py:283-303 | removes exactly the caller's task with that id, or gives 404 and no change |
| Backend.Database.GetEvents | backend/secure/app.py:305-319 | lists exactly the caller's events |
| Backend.Database.InsertEvent | backend/secure/app.py:342-343 | the row goes in under the next id and the counter moves past it; nothing else changes |
| Backend.Database.AddEvent | backend/secure/app.py:321-350 | inserts exactly the row NewEvent decides on under the next id, or answers its refusal |
| Backend.Database.Serve | backend/secure/app.py:61-83 | a refused token answers its 401 and changes nothing; an accepted one leaves other users' rows as they were and lists only the caller's |
| Backend.DescriptionNeverLimited | backend/secure/app.py:201-204 | the description never changes add_task's validation errors, however long |
| Backend.RegisterThenLogin | backend/secure/app.py:112-165 | after registering a clean name, logging in with the same body succeeds exactly when the password is clean too |
| Bearer.SecondField | backend/secure/app.py:70-72 | the second space-separated field exists exactly when the header has a space |
| Bearer.Authenticate | backend/secure/app.py:64-82 | no space gives "Invalid authorization header"; no or empty header or empty token gives "Authentication required"; a token the verifier refuses gives "Invalid or expired token"; otherwise the verifier's claims |
| Bearer.BearerRoundTrip | mobile-secured/src/services/authService.js:66 | split(' ')[1] of "Bearer " + token gives back a token without spaces |
| Bearer.AuthenticateBearer | backend/secure/app.py:66-81 | a non-empty token without spaces sent by the interceptor is judged by the verifier alone |
| Bearer.JwtHeaderRoundTrip | backend/secure/app.py:48 | every compact JWS token survives the header round trip |
| Validation.SanitizeSafe | backend/secure/app.py:102 | no `;` and no `--` survive, and quotes are doubled |
| Validation.SanitizeFixedPoints | backend/secure/app.py:102 | the rewrite leaves a string unchanged exactly when it has no `'`, `;` or `--` |
| Validation.FieldErrors | backend/secure/app.py:91-95 | at most one message; none exactly when the field is accepted; a missing or falsy field gets exactly "is required" and no length check |
| Validation.RequiredErrorsEmpty | backend/secure/app.py:90-95 | no errors exactly when every required field is present, truthy and within its limit |
| Validation.RequiredErrorsBound | backend/secure/app.py:90-95 | at most one message per required field |
| Validation.RequiredErrorsInOrder | backend/secure/app.py:90-95 | messages come in the order the fields are listed |
| Validation.SanitizedFields | backend/secure/app.py:98-102 | only string fields named in the limits change, and each loses every `;` and `--` |
| Validation.SanitizedText | backend/secure/app.py:98-102 | a route reads back the sanitised string under a limited key and the original elsewhere |
| Validation.SanitizeFields | backend/secure/app.py:97-102 | the loop over the body's keys gives Sanitized: each limited string field rewritten, every other field as sent, and nothing when no limits are given |
| Validation.ValidateInput | backend/secure/app.py:86-104 | the loop collects RequiredErrors and the rewrite gives Sanitized, even when errors were found |
| Text.TrimSpec | backend/secure/app.py:120 | trimming removes a whitespace run from each end only; the result is empty exactly when the string is all whitespace |
| Text.TrimmedFixed | backend/secure/app.py:211 | trimming leaves a string unchanged exactly when neither end is whitespace |
| Text.TrimIdempotent | backend/secure/app.py:211 | trimming twice is trimming once |
| Text.TrimShortens | mobile-secured/src/handlers/taskHandler.js:16 | trimming never lengthens a string in code points or UTF-16 units |
| Text.TrimKeepsOut | backend/secure/app.py:211-212 | trimming never brings in a character or a piece the string lacked |
| Text.Utf16Length | mobile-secured/src/handlers/loginHandler.js:40 | JavaScript's length is between the code point count and twice it |
| Text.JoinSplit | backend/secure/app.py:70 | joining a split with its separator gives the string back, so the split loses nothing |
| Text.SplitFieldCount | backend/secure/app.py:70 | a split has one more field than there are separators |
| Text.NatToStringRoundTrip | backend/secure/app.py:95 | the decimal form of a limit reads back as that limit |
| Text.IntToString | mobile-secured/src/services/authService.js:42 | String(n) is the decimal form, with '-' for negatives |
| Text.DoublingCount | backend/secure/app.py:102 | replacing `'` by `''` doubles the quotes |
| Text.DeletionRemovesPair | backend/secure/app.py:102 | after deleting every `--` none is left |
| Json.TextField | backend/secure/app.py:120 | a string is read only where the key holds one |
| Json.OptionalText | backend/secure/app.py:212 | data.get(key, default) gives the default for a missing key |
| Uri.Utf8 | mobile-secured/src/handlers/homeHandler.js:54 | one to four bytes, one exactly for ASCII |
| Uri.EncodedIsSafe | mobile-secured/src/handlers/homeHandler.js:54 | the encoding holds only unescaped characters, `%` and hex digits, and no `&`, `=`, `#`, `+` or space |
| Uri.EncodeLength | mobile-secured/src/handlers/homeHandler.js:54 | the encoding is never shorter, and as long exactly when nothing needs escaping |
| Uri.EncodeFixedPoints | mobile-secured/src/handlers/homeHandler.js:54 | the encoding changes a string exactly when it has a character outside the unescaped set |
| Uri.Utf8RoundTrip | backend/secure/app.py:230 | UTF-8 decoding of a string's bytes gives the string |
| Uri.PercentDecodeEncoded | backend/secure/app.py:230 | percent-decoding the encoding gives the UTF-8 bytes |
| Uri.ComponentRoundTrip | backend/secure/app.py:230 | the server reads back exactly the string the client encoded |
| Client.Field | mobile-secured/src/handlers/loginHandler.js:64 | response.data.key exists exactly for an object body with that key |
| Client.ErrorText | mobile-secured/src/handlers/loginHandler.js:82 | the server's truthy error when the failure carries a response, the fallback otherwise |
| Client.AxiosMessage | mobile/src/handlers/taskHandler.js:34 | an HTTP error's message names its status code; a failure without a response keeps its own message |
| Client.Refused | mobile-secured/src/handlers/loginHandler.js:53-55 | a refused form sends nothing and shows a 'Validation Error' alert |
| Client.KeyStore.SetItem | mobile/src/handlers/loginHandler.js:40 | a working store writes the key; a failing one rejects and changes nothing |
| Client.KeyStore.GetItem | mobile/src/handlers/loginHandler.js:14 | reads the key, null when missing |
| Client.KeyStore.RemoveItem | mobile/src/handlers/loginHandler.js:43 | removes only that key |
| AuthService.StoredToken | mobile-secured/src/services/authService.js:21-28 | the stored token, null when missing or the read fails |
| AuthService.StoredUserInfo | mobile-secured/src/services/authService.js:49-58 | the stored id and name, nulls when the reads fail |
| AuthService.AuthorizedHeaders | mobile-secured/src/services/authService.js:63-68 | Authorization is "Bearer " + token exactly when a non-empty token is stored; otherwise the headers are unchanged |
| AuthService.AttachedHeaderAuthenticates | mobile-secured/src/services/authService.js:63-68 | a stored JWT reaches require_auth and is judged by the verifier alone; with none stored the request gets "Authentication required" |
| AuthService.Auth.SaveToken | mobile-secured/src/services/authService.js:12-19 | a saved token reads back via getToken; a failing write is rethrown and changes nothing |
| AuthService.Auth.GetToken | mobile-secured/src/services/authService.js:21-28 | resolves to StoredToken, null on failure |
| AuthService.Auth.RemoveToken | mobile-secured/src/services/authService.js:30-38 | removes exactly the three session keys; afterwards no token and no user info |
| AuthService.Auth.SaveUserInfo | mobile-secured/src/services/authService.js:40-47 | writes String(userId) and a string username, which getUserInfo then reads back |
| AuthService.Auth.GetUserInfo | mobile-secured/src/services/authService.js:49-58 | resolves to StoredUserInfo |
| AuthService.Auth.InterceptRequest | mobile-secured/src/services/authService.js:62-73 | sends AuthorizedHeaders for the stored token |
| AuthService.Auth.InterceptError | mobile-secured/src/services/authService.js:75-84 | rejects with the same error; a 401 clears the session keys, other errors change nothing |
| SecureLogin.CheckStoredCredentials | mobile-secured/src/handlers/loginHandler.js:13-28 | remembered exactly when the flag is 'true', with the stored name or ''; otherwise or on failure, nothing |
| SecureLogin.RememberRoundTrip | mobile-secured/src/handlers/loginHandler.js:70-77 | what a login writes is what the next start-up reads back |
| SecureLogin.ValidateInput | mobile-secured/src/handlers/loginHandler.js:34-46 | each alert exactly when its check is the first to fail: a blank username or password, then a username over 50 UTF-16 units |
| Client.CredentialsPost | mobile-secured/src/handlers/loginHandler.js:58-61 | handleLogin's POST /login, and handleRegister's POST /register (registerHandler.js:39-42): the trimmed username and the untrimmed password |
| SecureLogin.KeepSession | mobile-secured/src/handlers/loginHandler.js:64-67 | the token and user info are saved only when the reply carries a truthy token, and a token that is not a string fails |
| SecureLogin.KeepPreferences | mobile-secured/src/handlers/loginHandler.js:70-77 | the flag and the trimmed name, or both keys removed; no other value is written |
| SecureLogin.HandleLogin | mobile-secured/src/handlers/loginHandler.js:52-86 | an invalid form sends nothing; success exactly when the POST and every store call succeed, then Home replaces Login; a 401 from the POST goes through the response interceptor, which clears the stored session before the alert; no other failure touches the secure store; the preference store only ever receives 'true' and the trimmed name, never the password |
| SecureRegister.ValidateInput | mobile-secured/src/handlers/registerHandler.js:10-32 | each alert exactly when its check is the first to fail, in the order blank, username over 50, password under 6, mismatch; Pass exactly when all pass |
| SecureRegister.HandleRegister | mobile-secured/src/handlers/registerHandler.js:37-52 | success shows the alert that goes back; failure resolves to the server's error or the fallback |
| SecureRegister.AcceptedFormValidates | backend/secure/app.py:112-125 | a form the screen accepts, with a password of at most 100 characters, passes validate_input; the server then registers exactly when the sanitised password is 6 or longer and the name is free |
| SecureRegister.DashesVanish | backend/secure/app.py:102 | "------" sanitises to the empty string |
| SecureRegister.ShortSanitisedPassword | backend/secure/app.py:120-125 | a valid body whose sanitised password is under 6 characters gets the 400 length message |
| SecureRegister.SanitisedPasswordTooShort | mobile-secured/src/handlers/registerHandler.js:21-24 | "------" passes the screen's 6-character check but the server answers 400 |
| SecureTasks.ValidateInput | mobile-secured/src/handlers/taskHandler.js:10-27 | each alert exactly when its check is the first to fail; Pass exactly when the title is non-blank and at most 200 and the description at most 1000 |
| SecureTasks.TaskRequest | mobile-secured/src/handlers/taskHandler.js:35-38 | POST /tasks with both fields trimmed and no user_id |
| SecureTasks.AddTask | mobile-secured/src/handlers/taskHandler.js:33-51 | success goes back; 401 is UNAUTHORIZED with the session-expired alert; anything else is ADD_FAILED with the server's error or 'Could not add task' |
| SecureTasks.AcceptedTaskIsStored | backend/secure/app.py:201-217 | a form the screen accepts is stored by add_task for the token's user |
| Client.FetchRows | mobile-secured/src/handlers/calendarHandler.js:11-25 | fetchEvents as the GET of /events, and fetchTasks as the GET of /tasks (homeHandler.js:25-39): the rows on success; 401 is UNAUTHORIZED with the session-expired alert; anything else is FETCH_FAILED |
| SecureCalendar.MatchesPositionwise | mobile-secured/src/handlers/calendarHandler.js:43-44 | an anchored match is a match position by position, with equal lengths |
| SecureCalendar.DatePatternIsShape | mobile-secured/src/handlers/calendarHandler.js:43-44 | the pattern accepts exactly four digits, a dash, two digits, a dash, two digits |
| SecureCalendar.ValidateInput | mobile-secured/src/handlers/calendarHandler.js:31-50 | each alert exactly when its check is the first to fail; Pass exactly when the title is non-blank and the trimmed date has the shape |
| SecureCalendar.ImpossibleDateAccepted | mobile-secured/src/handlers/calendarHandler.js:43-47 | "2024-13-45" passes |
| SecureCalendar.EventRequest | mobile-secured/src/handlers/calendarHandler.js:58-61 | POST /events with title and date trimmed |
| SecureCalendar.AddEvent | mobile-secured/src/handlers/calendarHandler.js:56-71 | onSuccess exactly when the POST succeeds; 401 is UNAUTHORIZED with no alert; anything else is ADD_FAILED |
| SecureCalendar.DateShapeUntouched | backend/secure/app.py:328-338 | a date of the accepted shape is neither rewritten nor stripped by the server |
| SecureCalendar.AcceptedEventIsStored | backend/secure/app.py:328-343 | an accepted form with a title of at most 200 is stored for the token's user with the date as trimmed |
| SecureCalendar.LongEventTitleRefused | backend/secure/app.py:328-334 | a trimmed title over 200 is refused by the server alone |
| SecureHome.LoadUserInfo | mobile-secured/src/handlers/homeHandler.js:11-19 | resolves to what getUserInfo reads, nulls when the store fails |
| SecureHome.SearchTasks | mobile-secured/src/handlers/homeHandler.js:46-67 | a blank query is VALIDATION_ERROR with no request; otherwise the encoded trimmed query is sent and failures map to UNAUTHORIZED or SEARCH_FAILED |
| SecureHome.SearchQueryArrives | mobile-secured/src/handlers/homeHandler.js:53-55 | the q parameter holds no separator and decodes to the trimmed query, non-empty |
| SecureHome.SeparatorQueryRefusedByServer | backend/secure/app.py:230-234 | a query of U+001F passes the client's trim check but the server's strip empties it |
| SecureHome.ToggleRequest | mobile-secured/src/handlers/homeHandler.js:75-77 | PUT with is_done the negation of the shown status |
| SecureHome.ToggleTaskDone | mobile-secured/src/handlers/homeHandler.js:73-83 | success, or the 'Failed to update task' alert |
| SecureHome.ToggleFlipsStatus | backend/secure/app.py:267-273 | the server applies a toggle by flipping the row's completion and keeping its owner |
| SecureHome.DeleteTask | mobile-secured/src/handlers/homeHandler.js:88-108 | a DELETE exactly when confirmed; onSuccess exactly when a confirmed DELETE succeeds |
| SecureHome.HandleLogout | mobile-secured/src/handlers/homeHandler.js:113-129 | once confirmed, the session keys are removed and Login replaces Home |
| VulnerableLogin.CheckStoredCredentials | mobile/src/handlers/loginHandler.js:12-28 | remembered exactly when both stored strings are non-empty, and then both are returned; otherwise empty |
| VulnerableLogin.LoginRequest | mobile/src/handlers/loginHandler.js:36 | POST /login with both fields as typed, for any input |
| VulnerableLogin.RememberRoundTrip | mobile/src/handlers/loginHandler.js:38-48 | the next start-up reads back the plaintext username and password |
| VulnerableLogin.HandleLogin | mobile/src/handlers/loginHandler.js:34-56 | the POST is always sent; on success the credentials are written or removed, then String(user_id); with remember-me the password is stored as typed |
| VulnerableTasks.TaskBody | mobile/src/handlers/taskHandler.js:26-30 | the stored user_id, the trimmed title, and the trimmed description or '' |
| VulnerableTasks.AddTask | mobile/src/handlers/taskHandler.js:11-39 | a failing store rejects; no user_id gives NO_USER_ID and goes to Login; then a missing or blank title gives NO_TITLE; only then is the POST sent; a failed POST alerts the server's error, else the axios message, else 'Could not add task' |
| VulnerableTasks.FailureFallback | mobile/src/handlers/taskHandler.js:34 | with no server error, the alert shows the axios message, or 'Could not add task' when that message is empty |
| VulnerableTasks.FixedFallbackOnlyWithoutMessage | mobile/src/handlers/taskHandler.js:34 | 'Could not add task' replaces the axios message only for a failure without a response whose message is empty, never for an HTTP error |
| VulnerableTasks.UnreadFieldIgnored | backend/secure/app.py:201-217 | a field add_task does not read never changes its verdict |
| VulnerableTasks.ClaimedOwnerIgnored | backend/secure/app.py:209-217 | against the secured server, the original app's body is judged as the secured app's, owned by the token's user |

## Left out

- **Time, randomness and secrets.** bcrypt, PyJWT, their secrets and token expiry are parameters:
  - a hash is its salt plus the password it commits to;
  - `verify_token` is a map from token to claims.

  bcrypt's 72-byte truncation is not modelled.
- **SQLite.**
  - `LIKE '%q%'` is modelled as case-sensitive containment. SQLite's ASCII case folding and the `%` and `_` wildcards are not modelled.
  - Column type affinity is not modelled, and neither is the foreign key.
  - The generic 500 answers for database exceptions and the connection handling are not modelled.
  - A body field of the wrong type that makes `strip()` raise is modelled as a 500 answer.
- **JSON values.** JSON floats, arrays and nested objects are not modelled. A value is null, a boolean, an integer or a string.
- **Unpaired surrogates.** A Dafny `string` holds only Unicode scalar values, so all request and reply text is assumed to be valid Unicode. Python's `json.loads` accepts a lone `"\ud800"`, and a JavaScript string can carry one; neither is modelled.
- **The 401 interceptor in the other secured handlers.** `Auth.InterceptError` and `SecureLogin.HandleLogin` model the response interceptor clearing the session on a 401. The fetch, add, toggle and delete handlers are functions without the secure store, so their contracts say nothing about it.
- **URL decoding.** The server decodes query strings strictly. Flask's replacement of invalid UTF-8 is not modelled, because the client only sends valid encodings. A `+` is decoded to a space, as Werkzeug's query parser does.
- **Unmatched routes.** A path that matches no route, such as `/tasks/-1` against `<int:task_id>`, gets Flask's 404 "Endpoint not found" (backend/secure/app.py:352-354) before `require_auth` runs. The model's routes carry only non-negative task ids and do not model that answer.
- **Clients.**
  - `API_URL` (mobile-secured/src/config.js) is left out; request paths are relative.
  - Asynchrony, logging and the `console.error` calls are not modelled.
  - Confirmation dialogs are a `confirmed` parameter.
  - The Alert OK callbacks are the alert's `onOk` target.
- **Storage failures.** A store either works for every call or fails every call. Failures partway through a sequence of writes are not modelled.
- SecureHome.LoadUserInfo: the handler's own fallback `{username:'', userId:null}` is unreachable, because getUserInfo never rejects. So the model states only the value getUserInfo resolves to.
- AuthService.Auth.SaveUserInfo: the secure store refuses a non-string value. The model writes the username only when it is a string; otherwise the rejected write is swallowed.
- The original app's server (`backend/vulnerable/app.py`) is not part of this model. The original app's requests are judged only against the secured server's decisions.
