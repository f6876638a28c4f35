/**
 * The server's input check, validate_input in backend/secure/app.py: required
 * fields and length limits, then the in-place rewrite of limited string fields
 * meant to keep SQL metacharacters out.
 */
module Validation {
  import opened Common
  import opened Text
  import opened Json

  /** The rewrite of a limited string field: ' doubled, then every ; and every -- removed. */
  function Sanitize(s: string): string {
    ReplaceAll(ReplaceAll(ReplaceAll(s, "'", "''"), ";", ""), "--", "")
  }

  /** Strings free of the three sequences the rewrite touches. */
  predicate Clean(s: string) {
    '\'' !in s && ';' !in s && !Contains(s, "--")
  }

  /** What survives the rewrite: no ;, no --, and twice as many quotes as went in. */
  lemma SanitizeSafe(s: string)
    ensures ';' !in Sanitize(s)
    ensures !Contains(Sanitize(s), "--")
    ensures multiset(Sanitize(s))['\''] == 2 * multiset(s)['\'']
  {
    var quoted := ReplaceAll(s, "'", "''");
    var unsemi := ReplaceAll(quoted, ";", "");
    DoublingCount(s, '\'');
    DeletionRemovesChar(quoted, ';');
    DeletionKeeps(quoted, ";", '\'');
    DeletionKeeps(unsemi, "--", ';');
    DeletionKeeps(unsemi, "--", '\'');
    DeletionRemovesPair(unsemi, '-');
  }

  /** The rewrite leaves a string unchanged exactly when the string is clean. */
  lemma SanitizeFixedPoints(s: string)
    ensures Sanitize(s) == s <==> Clean(s)
  {
    SanitizeSafe(s);
    if Clean(s) {
      ContainsChar(s, '\'');
      ContainsChar(s, ';');
      ReplaceAbsent(s, "'", "''");
      ReplaceAbsent(s, ";", "");
      ReplaceAbsent(s, "--", "");
    }
  }

  function RequiredMessage(field: string): string {
    field + " is required"
  }

  function TooLongMessage(field: string, limit: nat): string {
    field + " exceeds maximum length of " + NatToString(limit)
  }

  /** A required field passes: present, truthy and, if it has a limit, within it as str() measures. */
  predicate FieldAccepted(data: map<string, Value>, field: string, maxLengths: map<string, nat>) {
    && field in data
    && Truthy(data[field])
    && (field in maxLengths ==> |PyStr(data[field])| <= maxLengths[field])
  }

  /**
   * The messages one required field contributes: a missing or falsy field
   * gives exactly the "is required" message and is not length-checked.
   */
  function FieldErrors(data: map<string, Value>, field: string, maxLengths: map<string, nat>): (errs: seq<string>)
    ensures |errs| <= 1
    ensures errs == [] <==> FieldAccepted(data, field, maxLengths)
    ensures errs == [RequiredMessage(field)] <==> field !in data || !Truthy(data[field])
  {
    if field !in data || !Truthy(data[field]) then [RequiredMessage(field)]
    else if field in maxLengths && |PyStr(data[field])| > maxLengths[field] then
      var limit := maxLengths[field];
      assert RequiredMessage(field)[|field| + 1] == 'i';
      assert TooLongMessage(field, limit)[|field| + 1] == 'e';
      [TooLongMessage(field, limit)]
    else []
  }

  /** validate_input's error list: each required field's messages, in the order the fields are listed. */
  function RequiredErrors(data: map<string, Value>, required: seq<string>, maxLengths: map<string, nat>): seq<string> {
    if required == [] then []
    else
      RequiredErrors(data, required[..|required| - 1], maxLengths)
        + FieldErrors(data, required[|required| - 1], maxLengths)
  }

  /** No error is reported exactly when every required field is accepted. */
  lemma {:induction false} RequiredErrorsEmpty(data: map<string, Value>, required: seq<string>, maxLengths: map<string, nat>)
    ensures RequiredErrors(data, required, maxLengths) == []
            <==> forall i :: 0 <= i < |required| ==> FieldAccepted(data, required[i], maxLengths)
  {
    if required != [] {
      var init := required[..|required| - 1];
      RequiredErrorsEmpty(data, init, maxLengths);
      assert forall i :: 0 <= i < |init| ==> init[i] == required[i];
    }
  }

  /** At most one message per required field. */
  lemma {:induction false} RequiredErrorsBound(data: map<string, Value>, required: seq<string>, maxLengths: map<string, nat>)
    ensures |RequiredErrors(data, required, maxLengths)| <= |required|
  {
    if required != [] {
      RequiredErrorsBound(data, required[..|required| - 1], maxLengths);
    }
  }

  /** Messages come in field order: the errors for a + b are those for a followed by those for b. */
  lemma {:induction false} RequiredErrorsInOrder(data: map<string, Value>, a: seq<string>, b: seq<string>, maxLengths: map<string, nat>)
    ensures RequiredErrors(data, a + b, maxLengths) == RequiredErrors(data, a, maxLengths) + RequiredErrors(data, b, maxLengths)
  {
    if b == [] {
      assert a + b == a;
    } else {
      var ab := a + b;
      assert ab[..|ab| - 1] == a + b[..|b| - 1];
      assert ab[|ab| - 1] == b[|b| - 1];
      RequiredErrorsInOrder(data, a, b[..|b| - 1], maxLengths);
    }
  }

  /** A value after the rewrite pass: a string under a limited key is sanitised, anything else is kept. */
  function SanitizedValue(v: Value, limited: bool): Value {
    if limited && v.Str? then Str(Sanitize(v.s)) else v
  }

  /** The request body after validate_input has rewritten it. */
  function Sanitized(data: map<string, Value>, maxLengths: map<string, nat>): map<string, Value> {
    map f | f in data :: SanitizedValue(data[f], f in maxLengths)
  }

  /**
   * Only string fields named in the limits change; each of those loses every
   * ; and -- and has its quotes doubled.
   */
  lemma SanitizedFields(data: map<string, Value>, maxLengths: map<string, nat>, f: string)
    requires f in data
    ensures Sanitized(data, maxLengths).Keys == data.Keys
    ensures f !in maxLengths || !data[f].Str? ==> Sanitized(data, maxLengths)[f] == data[f]
    ensures f in maxLengths && data[f].Str? ==>
              && Sanitized(data, maxLengths)[f].Str?
              && ';' !in Sanitized(data, maxLengths)[f].s
              && !Contains(Sanitized(data, maxLengths)[f].s, "--")
              && multiset(Sanitized(data, maxLengths)[f].s)['\''] == 2 * multiset(data[f].s)['\'']
  {
    if data[f].Str? {
      SanitizeSafe(data[f].s);
    }
  }

  /** The string a route reads back from the rewritten body under a key. */
  lemma SanitizedText(data: map<string, Value>, maxLengths: map<string, nat>, key: string)
    ensures key !in maxLengths ==> TextField(Sanitized(data, maxLengths), key) == TextField(data, key)
    ensures key in maxLengths ==>
              TextField(Sanitized(data, maxLengths), key)
              == if TextField(data, key).Some? then Some(Sanitize(TextField(data, key).value)) else None
  {
  }

  /**
   * The rewrite half of validate_input: when limits were given, each limited
   * string field of the caller's dictionary is rewritten in place, which the
   * model returns as the new dictionary.
   */
  method SanitizeFields(data: map<string, Value>, maxLengths: map<string, nat>) returns (sanitized: map<string, Value>)
    ensures sanitized == Sanitized(data, maxLengths)
  {
    sanitized := data;
    if |maxLengths| > 0 {
      var pending := data.Keys;
      while pending != {}
        invariant pending <= data.Keys
        invariant sanitized.Keys == data.Keys
        invariant forall f :: f in data ==>
                    sanitized[f] == if f in pending then data[f] else SanitizedValue(data[f], f in maxLengths)
        decreases pending
      {
        var f :| f in pending;
        if sanitized[f].Str? && f in maxLengths {
          sanitized := sanitized[f := Str(Sanitize(sanitized[f].s))];
        }
        pending := pending - {f};
      }
    } else {
      assert forall f | f in data :: SanitizedValue(data[f], f in maxLengths) == data[f];
    }
  }

  /**
   * validate_input: collects the messages of the required fields, then (when
   * limits were given) rewrites the limited string fields, whether or not
   * errors were found.
   */
  method ValidateInput(data: map<string, Value>, required: seq<string>, maxLengths: map<string, nat>)
    returns (errors: seq<string>, sanitized: map<string, Value>)
    ensures errors == RequiredErrors(data, required, maxLengths)
    ensures sanitized == Sanitized(data, maxLengths)
  {
    errors := [];
    for i := 0 to |required|
      invariant errors == RequiredErrors(data, required[..i], maxLengths)
    {
      var field := required[i];
      assert required[..i + 1][..i] == required[..i];
      if field !in data || !Truthy(data[field]) {
        errors := errors + [RequiredMessage(field)];
      } else if field in maxLengths {
        if |PyStr(data[field])| > maxLengths[field] {
          errors := errors + [TooLongMessage(field, maxLengths[field])];
        }
      }
    }
    assert required[..|required|] == required;
    sanitized := SanitizeFields(data, maxLengths);
  }
}
