/**
 * The secured app's registration logic
 * (mobile-secured/src/handlers/registerHandler.js): the form check and the
 * request and outcome of handleRegister.
 */
module SecureRegister {
  import opened Common
  import opened Text
  import opened Json
  import opened Validation
  import opened Client
  import Backend

  const FillInAllFields := "Please fill in all fields"
  const UsernameTooLong := "Username must be 50 characters or less"
  const PasswordTooShort := "Password must be at least 6 characters"
  const PasswordMismatch := "Passwords do not match"

  /**
   * validateInput: the four checks, in order; the first that fails names the
   * alert. Blankness is judged after trim(), the lengths on the untrimmed
   * strings in UTF-16 code units.
   */
  function ValidateInput(username: string, password: string, confirmPassword: string): (r: Check)
    ensures r == Reject(FillInAllFields) <==> AllSpace(JavaScript, username) || AllSpace(JavaScript, password)
    ensures r == Reject(UsernameTooLong) <==>
              && !AllSpace(JavaScript, username) && !AllSpace(JavaScript, password)
              && Utf16Length(username) > 50
    ensures r == Reject(PasswordTooShort) <==>
              && !AllSpace(JavaScript, username) && !AllSpace(JavaScript, password)
              && Utf16Length(username) <= 50 && Utf16Length(password) < 6
    ensures r == Reject(PasswordMismatch) <==>
              && !AllSpace(JavaScript, username) && !AllSpace(JavaScript, password)
              && Utf16Length(username) <= 50 && Utf16Length(password) >= 6
              && password != confirmPassword
    ensures r == Pass <==>
              && !AllSpace(JavaScript, username) && !AllSpace(JavaScript, password)
              && Utf16Length(username) <= 50 && Utf16Length(password) >= 6
              && password == confirmPassword
  {
    TrimSpec(JavaScript, username);
    TrimSpec(JavaScript, password);
    if Trim(JavaScript, username) == [] || Trim(JavaScript, password) == [] then Reject(FillInAllFields)
    else if Utf16Length(username) > 50 then Reject(UsernameTooLong)
    else if Utf16Length(password) < 6 then Reject(PasswordTooShort)
    else if password != confirmPassword then Reject(PasswordMismatch)
    else Pass
  }

  /** handleRegister, given how its POST ends. */
  function HandleRegister(username: string, password: string, reply: Reply): (r: Run)
    ensures r.request == Some(CredentialsPost("/register", username, password))
    ensures r.nav == Stay && !r.notified
    ensures r.outcome.Succeeded? <==> reply.Success?
    ensures reply.Success? ==>
              r.outcome == Succeeded(None) && r.alert == Some(Alert("Success", "Account created successfully!", GoBack))
    ensures !reply.Success? ==>
              && r.outcome == Failed(Some(ErrorText(Network(reply), "Registration failed. Please try again.")))
              && r.alert == Some(Alert("Error", r.outcome.error.value, Stay))
  {
    var request := Some(CredentialsPost("/register", username, password));
    if reply.Success? then
      Run(request, Some(Alert("Success", "Account created successfully!", GoBack)), Stay, false, Succeeded(None))
    else
      var message := ErrorText(Network(reply), "Registration failed. Please try again.");
      Run(request, Some(Alert("Error", message, Stay)), Stay, false, Failed(Some(message)))
  }

  /**
   * A form the screen accepts passes the server's validate_input as long as
   * the password is within the server's 100 characters, which the screen
   * does not check; the server then registers the name exactly when it is
   * free and the password is still six characters long once sanitised.
   */
  lemma AcceptedFormValidates(users: map<int, Backend.User>, username: string, password: string, salt: nat)
    requires ValidateInput(username, password, password) == Pass
    requires |password| <= 100
    ensures RequiredErrors(CredentialsPost("/register", username, password).body, Backend.CredentialFields, Backend.CredentialLimits) == []
    ensures Backend.Registration(users, CredentialsPost("/register", username, password).body, salt).Ok? <==>
              && |Sanitize(password)| >= 6
              && !Backend.UsernameTaken(users, Trim(Python, Sanitize(Trim(JavaScript, username))))
  {
    var body := CredentialsPost("/register", username, password).body;
    TrimSpec(JavaScript, username);
    TrimSpec(JavaScript, password);
    assert password != [];
    assert FieldAccepted(body, "username", Backend.CredentialLimits);
    assert FieldAccepted(body, "password", Backend.CredentialLimits);
    RequiredErrorsEmpty(body, Backend.CredentialFields, Backend.CredentialLimits);
  }

  /** Six dashes are three "--" pairs, all of which the rewrite deletes. */
  lemma DashesVanish()
    ensures Sanitize("------") == []
  {
    var dashes := "------";
    ContainsChar(dashes, '\'');
    ContainsChar(dashes, ';');
    ReplaceAbsent(dashes, "'", "''");
    ReplaceAbsent(dashes, ";", "");
    assert ReplaceAll(dashes, "--", "") == [];
  }

  /** A valid body whose password sanitises to under six characters is refused with the length message. */
  lemma ShortSanitisedPassword(users: map<int, Backend.User>, data: map<string, Value>, salt: nat)
    requires RequiredErrors(data, Backend.CredentialFields, Backend.CredentialLimits) == []
    requires TextField(data, "username").Some? && TextField(data, "password").Some?
    requires |Sanitize(TextField(data, "password").value)| < 6
    ensures Backend.Registration(users, data, salt) == Err(Backend.Response(400, Backend.Error(PasswordTooShort)))
  {
    SanitizedText(data, Backend.CredentialLimits, "username");
    SanitizedText(data, Backend.CredentialLimits, "password");
  }

  /**
   * The screen's six-character minimum is not the server's: six dashes pass
   * the form but are sanitised away to nothing, and the server answers 400.
   */
  lemma SanitisedPasswordTooShort(users: map<int, Backend.User>, salt: nat)
    ensures ValidateInput("alice", "------", "------") == Pass
    ensures Backend.Registration(users, CredentialsPost("/register", "alice", "------").body, salt)
            == Err(Backend.Response(400, Backend.Error(PasswordTooShort)))
  {
    var dashes := "------";
    assert !IsJsSpace("alice"[0]) && !IsJsSpace(dashes[0]);
    assert Utf16Length("alice") == 5 && Utf16Length(dashes) == 6;
    DashesVanish();
    AcceptedFormValidates(users, "alice", dashes, salt);
    ShortSanitisedPassword(users, CredentialsPost("/register", "alice", dashes).body, salt);
  }
}
