/**
 * ECMAScript's encodeURIComponent, which the home screen's search uses to put
 * the query into the URL, and the percent-decoding and UTF-8 decoding the
 * server applies to read it back.
 */
module Uri {
  import opened Common

  newtype byte = b: int | 0 <= b < 256

  /** The characters encodeURIComponent leaves alone: letters, digits and - _ . ! ~ * ' ( ). */
  predicate IsUnescaped(c: char) {
    || ('A' <= c <= 'Z') || ('a' <= c <= 'z') || ('0' <= c <= '9')
    || c == '-' || c == '_' || c == '.' || c == '!' || c == '~' || c == '*' || c == '\'' || c == '(' || c == ')'
  }

  predicate IsUpperHex(c: char) {
    ('0' <= c <= '9') || ('A' <= c <= 'F')
  }

  function HexDigit(n: int): (c: char)
    requires 0 <= n < 16
    ensures IsUpperHex(c)
  {
    if n < 10 then ('0' as int + n) as char else ('A' as int + n - 10) as char
  }

  /** The value of a hexadecimal digit of either case, or -1. */
  function HexValue(c: char): (v: int)
    ensures -1 <= v < 16
  {
    if '0' <= c <= '9' then c as int - '0' as int
    else if 'A' <= c <= 'F' then c as int - 'A' as int + 10
    else if 'a' <= c <= 'f' then c as int - 'a' as int + 10
    else -1
  }

  lemma HexRoundTrip(n: int)
    requires 0 <= n < 16
    ensures HexValue(HexDigit(n)) == n
  {
  }

  /** The UTF-8 encoding of one code point (section 3 of RFC 3629), six bits per continuation byte. */
  function Utf8(c: char): (bytes: seq<byte>)
    ensures 1 <= |bytes| <= 4
    ensures |bytes| == 1 <==> c as int < 0x80
  {
    var cp := c as int;
    if cp < 0x80 then [cp as byte]
    else if cp < 0x800 then [(0xC0 + cp / 64) as byte, (0x80 + cp % 64) as byte]
    else if cp < 0x10000 then
      [(0xE0 + cp / 64 / 64) as byte, (0x80 + cp / 64 % 64) as byte, (0x80 + cp % 64) as byte]
    else
      [(0xF0 + cp / 64 / 64 / 64) as byte, (0x80 + cp / 64 / 64 % 64) as byte, (0x80 + cp / 64 % 64) as byte,
       (0x80 + cp % 64) as byte]
  }

  /** The UTF-8 encoding of a string. */
  function Utf8Bytes(s: string): seq<byte> {
    if s == [] then [] else Utf8(s[0]) + Utf8Bytes(s[1..])
  }

  function Escape(b: byte): string {
    ['%', HexDigit(b as int / 16), HexDigit(b as int % 16)]
  }

  function EscapeAll(bytes: seq<byte>): string {
    if bytes == [] then [] else Escape(bytes[0]) + EscapeAll(bytes[1..])
  }

  function EncodeChar(c: char): string {
    if IsUnescaped(c) then [c] else EscapeAll(Utf8(c))
  }

  /** encodeURIComponent: unescaped characters as they are, every other one as %XX per UTF-8 byte. */
  function EncodeUriComponent(s: string): string {
    if s == [] then [] else EncodeChar(s[0]) + EncodeUriComponent(s[1..])
  }

  /** What an encoded component is made of: unescaped characters, % and upper-case hex digits. */
  predicate IsEncoded(s: string) {
    forall i :: 0 <= i < |s| ==> IsUnescaped(s[i]) || s[i] == '%' || IsUpperHex(s[i])
  }

  lemma {:induction false} EscapeAllEncoded(bytes: seq<byte>)
    ensures IsEncoded(EscapeAll(bytes))
    ensures |EscapeAll(bytes)| == 3 * |bytes|
  {
    if bytes != [] {
      EscapeAllEncoded(bytes[1..]);
    }
  }

  /**
   * The output is made only of unescaped characters, % and hex digits, so it
   * holds none of the characters that delimit or rewrite a query string
   * (& = # + and space).
   */
  lemma {:induction false} EncodedIsSafe(s: string)
    ensures IsEncoded(EncodeUriComponent(s))
    ensures forall i :: 0 <= i < |EncodeUriComponent(s)| ==> EncodeUriComponent(s)[i] !in "&=#+ "
  {
    if s != [] {
      EncodedIsSafe(s[1..]);
      if !IsUnescaped(s[0]) {
        EscapeAllEncoded(Utf8(s[0]));
      }
      var r := EncodeUriComponent(s);
      forall i | 0 <= i < |r|
        ensures IsUnescaped(r[i]) || r[i] == '%' || IsUpperHex(r[i])
      {
        if i >= |EncodeChar(s[0])| {
          assert r[i] == EncodeUriComponent(s[1..])[i - |EncodeChar(s[0])|];
        }
      }
    }
  }

  /** Each character encodes to one character when it is unescaped and to at least three otherwise. */
  lemma {:induction false} EncodeLength(s: string)
    ensures |EncodeUriComponent(s)| >= |s|
    ensures |EncodeUriComponent(s)| == |s| <==> forall i :: 0 <= i < |s| ==> IsUnescaped(s[i])
  {
    if s != [] {
      EncodeLength(s[1..]);
      if !IsUnescaped(s[0]) {
        EscapeAllEncoded(Utf8(s[0]));
      }
      if forall i :: 0 <= i < |s[1..]| ==> IsUnescaped(s[1..][i]) {
        if IsUnescaped(s[0]) {
          forall i | 0 <= i < |s| ensures IsUnescaped(s[i]) {
            if i > 0 {
              assert s[i] == s[1..][i - 1];
            }
          }
        }
      }
    }
  }

  /** The encoding changes a string exactly when it holds a character outside the unescaped set. */
  lemma {:induction false} EncodeFixedPoints(s: string)
    ensures EncodeUriComponent(s) == s <==> forall i :: 0 <= i < |s| ==> IsUnescaped(s[i])
  {
    EncodeLength(s);
    if forall i :: 0 <= i < |s| ==> IsUnescaped(s[i]) {
      UnescapedKept(s);
    }
  }

  lemma {:induction false} UnescapedKept(s: string)
    requires forall i :: 0 <= i < |s| ==> IsUnescaped(s[i])
    ensures EncodeUriComponent(s) == s
  {
    if s != [] {
      assert forall i :: 0 <= i < |s[1..]| ==> s[1..][i] == s[i + 1];
      UnescapedKept(s[1..]);
    }
  }

  /**
   * Percent-decoding of a query-string value to bytes, as the server's
   * query parser reads it: a % followed by two hex digits is that byte, a +
   * is a space, and any other character stands for its own UTF-8 bytes.
   */
  function PercentDecode(s: string): seq<byte>
    decreases |s|
  {
    if s == [] then []
    else if s[0] == '%' && |s| >= 3 && HexValue(s[1]) >= 0 && HexValue(s[2]) >= 0 then
      [(16 * HexValue(s[1]) + HexValue(s[2])) as byte] + PercentDecode(s[3..])
    else if s[0] == '+' then [0x20] + PercentDecode(s[1..])
    else Utf8(s[0]) + PercentDecode(s[1..])
  }

  predicate IsContinuation(b: byte) {
    0x80 <= b < 0xC0
  }

  /** The six bits a continuation byte carries. */
  function Low6(b: byte): int {
    b as int - 0x80
  }

  /** A code point that is a Dafny char: any Unicode scalar value. */
  predicate IsScalar(cp: int) {
    (0 <= cp < 0xD800) || (0xE000 <= cp < 0x110000)
  }

  /** How many bytes a sequence starting with this byte has; 0 for a byte no sequence starts with. */
  function LeadLength(lead: byte): int {
    if lead < 0x80 then 1
    else if 0xC0 <= lead < 0xE0 then 2
    else if 0xE0 <= lead < 0xF0 then 3
    else if 0xF0 <= lead < 0xF8 then 4
    else 0
  }

  /** The code point the first n bytes spell. */
  function Assemble(b: seq<byte>, n: int): int
    requires 1 <= n <= 4 && n <= |b|
  {
    if n == 1 then b[0] as int
    else if n == 2 then (b[0] as int - 0xC0) * 64 + Low6(b[1])
    else if n == 3 then ((b[0] as int - 0xE0) * 64 + Low6(b[1])) * 64 + Low6(b[2])
    else (((b[0] as int - 0xF0) * 64 + Low6(b[1])) * 64 + Low6(b[2])) * 64 + Low6(b[3])
  }

  /** The least code point an n-byte sequence may spell; anything below is an overlong form. */
  function MinCodePoint(n: int): int {
    if n == 1 then 0 else if n == 2 then 0x80 else if n == 3 then 0x800 else 0x10000
  }

  /**
   * The character the first sequence of bytes spells, or None when it is
   * malformed, overlong, a surrogate or beyond U+10FFFF.
   */
  function DecodeFirst(b: seq<byte>): (r: Option<char>)
    requires b != []
    ensures r.Some? ==> 1 <= LeadLength(b[0]) <= |b|
  {
    var n := LeadLength(b[0]);
    if n == 0 || |b| < n || exists k | 1 <= k < n :: !IsContinuation(b[k]) then None
    else
      var cp := Assemble(b, n);
      if cp < MinCodePoint(n) || !IsScalar(cp) then None else Some(cp as char)
  }

  /** Strict UTF-8 decoding of a byte string. */
  function Utf8Decode(b: seq<byte>): Option<string>
    decreases |b|
  {
    if b == [] then Some([])
    else
      var c := DecodeFirst(b);
      if c.None? then None
      else
        var rest := Utf8Decode(b[LeadLength(b[0])..]);
        if rest.None? then None else Some([c.value] + rest.value)
  }

  /** The bytes of one character, whatever follows them, decode to that character. */
  lemma DecodeFirstChar(c: char, rest: seq<byte>)
    ensures LeadLength((Utf8(c) + rest)[0]) == |Utf8(c)|
    ensures DecodeFirst(Utf8(c) + rest) == Some(c)
  {
    var b := Utf8(c) + rest;
    var cp := c as int;
    var q := cp / 64;
    assert cp == q * 64 + cp % 64;
    if 0x800 <= cp < 0x10000 {
      assert q == q / 64 * 64 + q % 64;
      assert Assemble(b, 3) == cp;
    } else if 0x10000 <= cp {
      var q2 := q / 64;
      assert q == q2 * 64 + q % 64;
      assert q2 == q2 / 64 * 64 + q2 % 64;
      assert Assemble(b, 4) == cp;
    }
  }

  /** Decoding the bytes of one character followed by more bytes yields that character first. */
  lemma Utf8DecodeChar(c: char, rest: seq<byte>)
    ensures Utf8Decode(Utf8(c) + rest)
            == if Utf8Decode(rest).Some? then Some([c] + Utf8Decode(rest).value) else None
  {
    DecodeFirstChar(c, rest);
    assert (Utf8(c) + rest)[|Utf8(c)|..] == rest;
  }

  lemma {:induction false} Utf8RoundTrip(s: string)
    ensures Utf8Decode(Utf8Bytes(s)) == Some(s)
  {
    if s != [] {
      Utf8RoundTrip(s[1..]);
      Utf8DecodeChar(s[0], Utf8Bytes(s[1..]));
      assert [s[0]] + s[1..] == s;
    }
  }

  lemma {:induction false} EscapeAllDecodes(bytes: seq<byte>, rest: string)
    ensures PercentDecode(EscapeAll(bytes) + rest) == bytes + PercentDecode(rest)
  {
    if bytes != [] {
      var b := bytes[0];
      var s := EscapeAll(bytes) + rest;
      HexRoundTrip(b as int / 16);
      HexRoundTrip(b as int % 16);
      assert s == Escape(b) + (EscapeAll(bytes[1..]) + rest);
      assert s[0] == '%' && s[1] == HexDigit(b as int / 16) && s[2] == HexDigit(b as int % 16);
      assert s[3..] == EscapeAll(bytes[1..]) + rest;
      assert 16 * (b as int / 16) + b as int % 16 == b as int;
      EscapeAllDecodes(bytes[1..], rest);
      assert PercentDecode(s) == [b] + PercentDecode(s[3..]);
      assert bytes == [b] + bytes[1..];
      assert [b] + (bytes[1..] + PercentDecode(rest)) == bytes + PercentDecode(rest);
    } else {
      assert EscapeAll(bytes) + rest == rest;
    }
  }

  lemma {:induction false} PercentDecodeEncoded(s: string)
    ensures PercentDecode(EncodeUriComponent(s)) == Utf8Bytes(s)
  {
    if s != [] {
      PercentDecodeEncoded(s[1..]);
      if IsUnescaped(s[0]) {
        assert (EncodeChar(s[0]) + EncodeUriComponent(s[1..]))[1..] == EncodeUriComponent(s[1..]);
      } else {
        EscapeAllDecodes(Utf8(s[0]), EncodeUriComponent(s[1..]));
      }
    }
  }

  /** The server reads back exactly the string the client encoded. */
  lemma ComponentRoundTrip(s: string)
    ensures Utf8Decode(PercentDecode(EncodeUriComponent(s))) == Some(s)
  {
    PercentDecodeEncoded(s);
    Utf8RoundTrip(s);
  }
}
