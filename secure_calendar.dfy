/**
 * The secured app's calendar logic
 * (mobile-secured/src/handlers/calendarHandler.js): loading events, the
 * new-event form check with its date pattern, and the request and outcome of
 * addEvent.
 */
module SecureCalendar {
  import opened Common
  import opened Text
  import opened Json
  import opened Validation
  import opened Client
  import Backend

  const TitleMissing := "Please enter an event title"
  const DateMissing := "Please enter a date"
  const DateMalformed := "Please enter date in YYYY-MM-DD format"

  /** One position of a regular expression built from \d and literal characters. */
  datatype Atom = AnyDigit | Literal(c: char)

  predicate AtomMatches(a: Atom, c: char) {
    match a
    case AnyDigit => IsDigit(c)
    case Literal(l) => c == l
  }

  /** /^\d{4}-\d{2}-\d{2}$/, atom by atom. */
  const DatePattern: seq<Atom> :=
    [AnyDigit, AnyDigit, AnyDigit, AnyDigit, Literal('-'), AnyDigit, AnyDigit, Literal('-'), AnyDigit, AnyDigit]

  /** RegExp test of a pattern anchored at both ends, matched left to right. */
  function Matches(s: string, pattern: seq<Atom>): bool {
    if pattern == [] then s == []
    else s != [] && AtomMatches(pattern[0], s[0]) && Matches(s[1..], pattern[1..])
  }

  /** An anchored match is a position-by-position match of equal lengths. */
  lemma {:induction false} MatchesPositionwise(s: string, pattern: seq<Atom>)
    ensures Matches(s, pattern) <==>
              |s| == |pattern| && forall i :: 0 <= i < |s| ==> AtomMatches(pattern[i], s[i])
  {
    if pattern != [] && s != [] {
      MatchesPositionwise(s[1..], pattern[1..]);
      if |s| == |pattern| && forall i :: 1 <= i < |s| ==> AtomMatches(pattern[i], s[i]) {
        assert forall i :: 0 <= i < |s[1..]| ==> AtomMatches(pattern[1..][i], s[1..][i]) by {
          forall i | 0 <= i < |s[1..]| ensures AtomMatches(pattern[1..][i], s[1..][i]) {
            assert pattern[1..][i] == pattern[i + 1] && s[1..][i] == s[i + 1];
          }
        }
      }
      if Matches(s, pattern) {
        forall i | 1 <= i < |s| ensures AtomMatches(pattern[i], s[i]) {
          assert pattern[1..][i - 1] == pattern[i] && s[1..][i - 1] == s[i];
        }
      }
    }
  }

  /** The shape a date must have: four digits, a dash, two digits, a dash, two digits. */
  predicate IsDateShape(s: string) {
    && |s| == 10 && s[4] == '-' && s[7] == '-'
    && forall i :: 0 <= i < 10 && i != 4 && i != 7 ==> IsDigit(s[i])
  }

  /** The pattern accepts exactly the strings of that shape; month and day ranges are not part of it. */
  lemma DatePatternIsShape(s: string)
    ensures Matches(s, DatePattern) <==> IsDateShape(s)
  {
    MatchesPositionwise(s, DatePattern);
  }

  /**
   * validateInput: title not blank, then date not blank, then the trimmed
   * date matches the pattern; the first check that fails names the alert.
   */
  function ValidateInput(title: string, date: string): (r: Check)
    ensures r == Reject(TitleMissing) <==> AllSpace(JavaScript, title)
    ensures r == Reject(DateMissing) <==> !AllSpace(JavaScript, title) && AllSpace(JavaScript, date)
    ensures r == Reject(DateMalformed) <==>
              !AllSpace(JavaScript, title) && !AllSpace(JavaScript, date) && !IsDateShape(Trim(JavaScript, date))
    ensures r == Pass <==> !AllSpace(JavaScript, title) && IsDateShape(Trim(JavaScript, date))
  {
    TrimSpec(JavaScript, title);
    TrimSpec(JavaScript, date);
    DatePatternIsShape(Trim(JavaScript, date));
    if Trim(JavaScript, title) == [] then Reject(TitleMissing)
    else if Trim(JavaScript, date) == [] then Reject(DateMissing)
    else if !Matches(Trim(JavaScript, date), DatePattern) then Reject(DateMalformed)
    else Pass
  }

  /** The date check is about shape only: a thirteenth month and a forty-fifth day pass. */
  lemma ImpossibleDateAccepted()
    ensures ValidateInput("Standup", "2024-13-45") == Pass
  {
    var date := "2024-13-45";
    assert !IsJsSpace("Standup"[0]);
    assert Trimmed(JavaScript, date);
    TrimmedFixed(JavaScript, date);
    assert IsDateShape(date);
  }

  /** The POST addEvent sends: both fields trimmed, and no user_id. */
  function EventRequest(title: string, date: string): (r: Request)
    ensures r.verb == Post && r.path == "/events" && r.body.Keys == {"title", "date"}
    ensures r.body["title"] == Str(Trim(JavaScript, title)) && r.body["date"] == Str(Trim(JavaScript, date))
  {
    Request(Post, "/events", map["title" := Str(Trim(JavaScript, title)), "date" := Str(Trim(JavaScript, date))])
  }

  /**
   * addEvent, given how its POST ends: onSuccess only after the POST
   * succeeds, no alert on a 401. The handler calls onSuccess only when one
   * was passed; `notified` says it ran, assuming the caller passed one.
   */
  function AddEvent(title: string, date: string, reply: Reply): (r: Run)
    ensures r.request == Some(EventRequest(title, date)) && r.nav == Stay
    ensures r.notified <==> reply.Success?
    ensures reply.Success? <==> r.outcome == Succeeded(None)
    ensures reply.Success? ==> r.alert.None?
    ensures Unauthorized(Network(reply)) ==> r.outcome == Failed(Some("UNAUTHORIZED")) && r.alert.None?
    ensures !reply.Success? && !Unauthorized(Network(reply)) ==>
              && r.outcome == Failed(Some("ADD_FAILED"))
              && r.alert == Some(Alert("Error", ErrorText(Network(reply), "Failed to add event"), Stay))
  {
    var request := Some(EventRequest(title, date));
    if reply.Success? then Run(request, None, Stay, true, Succeeded(None))
    else if Unauthorized(Network(reply)) then Run(request, None, Stay, false, Failed(Some("UNAUTHORIZED")))
    else
      Run(request, Some(Alert("Error", ErrorText(Network(reply), "Failed to add event"), Stay)), Stay, false,
          Failed(Some("ADD_FAILED")))
  }

  /** A date of the accepted shape has nothing the server rewrites or strips. */
  lemma DateShapeUntouched(d: string)
    requires IsDateShape(d)
    ensures Sanitize(d) == d && Trim(Python, d) == d
  {
    assert forall i :: 0 <= i < |d| ==> IsDigit(d[i]) || d[i] == '-';
    forall i | 0 <= i <= |d| - 2
      ensures !OccursAt(d, "--", i)
    {
      assert d[i..i + 2][0] == d[i] && d[i..i + 2][1] == d[i + 1];
    }
    SanitizeFixedPoints(d);
    assert !IsPySpace(d[0]) && !IsPySpace(d[9]);
    TrimmedFixed(Python, d);
  }

  /**
   * A form the screen accepts, with a title within the server's 200
   * characters, is stored by add_event for the token's user with the date
   * exactly as the screen trimmed it.
   */
  lemma AcceptedEventIsStored(userId: int, title: string, date: string)
    requires ValidateInput(title, date) == Pass
    requires |Trim(JavaScript, title)| <= 200
    ensures Backend.NewEvent(userId, EventRequest(title, date).body).Ok?
    ensures Backend.NewEvent(userId, EventRequest(title, date).body).value.userId == userId
    ensures Backend.NewEvent(userId, EventRequest(title, date).body).value.date == Trim(JavaScript, date)
  {
    var body := EventRequest(title, date).body;
    var limits := Backend.EventLimits;
    TrimSpec(JavaScript, title);
    assert FieldErrors(body, "title", limits) == [];
    assert FieldErrors(body, "date", limits) == [];
    assert RequiredErrors(body, ["title"], limits) == [] by {
      assert ["title"][..0] == [];
    }
    assert RequiredErrors(body, Backend.EventFields, limits) == [] by {
      assert Backend.EventFields[..1] == ["title"];
    }
    Backend.NewEventText(userId, body);
    DateShapeUntouched(Trim(JavaScript, date));
  }

  /** The screen does not limit the title; a trimmed title over 200 characters is refused by the server alone. */
  lemma LongEventTitleRefused(userId: int, title: string, date: string)
    requires ValidateInput(title, date) == Pass
    requires |Trim(JavaScript, title)| > 200
    ensures Backend.NewEvent(userId, EventRequest(title, date).body)
            == Err(Backend.BadRequest([TooLongMessage("title", 200)]))
  {
    var body := EventRequest(title, date).body;
    var limits := Backend.EventLimits;
    assert FieldErrors(body, "date", limits) == [];
    assert FieldErrors(body, "title", limits) == [TooLongMessage("title", 200)];
    assert RequiredErrors(body, ["title"], limits) == [TooLongMessage("title", 200)] by {
      assert ["title"][..0] == [];
    }
    assert RequiredErrors(body, Backend.EventFields, limits) == [TooLongMessage("title", 200)] by {
      assert Backend.EventFields[..1] == ["title"];
    }
  }
}
