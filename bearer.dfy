/**
 * Bearer authentication across the two ends: the header the phone's request
 * interceptor writes (mobile-secured/src/services/authService.js) and the
 * require_auth decorator that reads it back (backend/secure/app.py), in the
 * style of section 2.1 of RFC 6750.
 */
module Bearer {
  import opened Common
  import opened Text

  /** The claims a valid token carries; signature and expiry checks are folded into the verifier. */
  datatype Claims = Claims(userId: int, username: string)

  /** The header value the request interceptor writes for a stored token. */
  function BearerHeader(token: string): string {
    "Bearer " + token
  }

  /** auth_header.split(' ')[1]; None where Python raises IndexError, i.e. when there is no space. */
  function SecondField(header: string): (r: Option<string>)
    ensures r.Some? <==> ' ' in header
  {
    SplitFieldCount(header, ' ');
    var parts := Split(header, ' ');
    if |parts| > 1 then Some(parts[1]) else None
  }

  /** The three ways require_auth answers 401. */
  datatype Denial = InvalidHeader | MissingToken | BadToken

  function DenialMessage(d: Denial): string {
    match d
    case InvalidHeader => "Invalid authorization header"
    case MissingToken => "Authentication required"
    case BadToken => "Invalid or expired token"
  }

  /**
   * The decision require_auth makes before a protected route runs. `header` is
   * the Authorization header if sent; `verify` is verify_token, the partial
   * function the JWT library computes from the secret and the clock.
   */
  function Authenticate(header: Option<string>, verify: map<string, Claims>): (r: Result<Claims, Denial>)
    ensures r == Err(InvalidHeader) <==> header.Some? && header.value != [] && ' ' !in header.value
    ensures r == Err(MissingToken) <==>
              header.None? || header.value == [] || SecondField(header.value) == Some([])
    ensures r == Err(BadToken) <==>
              && header.Some? && SecondField(header.value).Some?
              && SecondField(header.value).value != []
              && SecondField(header.value).value !in verify
    ensures r.Ok? <==>
              && header.Some? && SecondField(header.value).Some?
              && SecondField(header.value).value in verify
              && SecondField(header.value).value != []
    ensures r.Ok? ==> r.value == verify[SecondField(header.value).value]
  {
    if header.Some? && header.value != [] && SecondField(header.value).None? then Err(InvalidHeader)
    else
      var token := if header.Some? && header.value != [] then SecondField(header.value).value else [];
      if token == [] then Err(MissingToken)
      else if token !in verify then Err(BadToken)
      else Ok(verify[token])
  }

  /** Splitting the interceptor's header at spaces gives back a token that has no space. */
  lemma BearerRoundTrip(token: string)
    requires ' ' !in token
    ensures SecondField(BearerHeader(token)) == Some(token)
  {
    assert BearerHeader(token) == "Bearer" + [' '] + token;
    SplitAtFirst("Bearer", ' ', token);
    SplitNoSep(token, ' ');
  }

  /** A non-empty token without spaces sent by the interceptor is judged by the verifier alone. */
  lemma AuthenticateBearer(token: string, verify: map<string, Claims>)
    requires token != [] && ' ' !in token
    ensures Authenticate(Some(BearerHeader(token)), verify)
            == if token in verify then Ok(verify[token]) else Err(BadToken)
  {
    BearerRoundTrip(token);
  }

  predicate IsBase64UrlChar(c: char) {
    ('A' <= c <= 'Z') || ('a' <= c <= 'z') || ('0' <= c <= '9') || c == '-' || c == '_'
  }

  /**
   * The JWS compact serialisation of section 7.1 of RFC 7515, which a JWT
   * uses (section 3.1 of RFC 7519): three base64url parts joined by '.'.
   */
  predicate IsCompactJws(token: string) {
    && (forall i :: 0 <= i < |token| ==> IsBase64UrlChar(token[i]) || token[i] == '.')
    && multiset(token)['.'] == 2
  }

  /** Every JWT the server issues survives the header round trip. */
  lemma JwtHeaderRoundTrip(token: string, verify: map<string, Claims>)
    requires IsCompactJws(token)
    ensures Authenticate(Some(BearerHeader(token)), verify)
            == if token in verify then Ok(verify[token]) else Err(BadToken)
  {
    assert forall i :: 0 <= i < |token| ==> token[i] != ' ';
    AuthenticateBearer(token, verify);
  }
}
