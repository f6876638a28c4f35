/**
 * String operations of the two runtimes involved: JavaScript on the phones
 * (String.prototype.trim, `.length`) and Python on the server (str.strip,
 * str.replace, str.split, str.join, str(int)).
 */
module Text {

  /** Whose whitespace rules a trim follows. */
  datatype Runtime = JavaScript | Python

  /** WhiteSpace and LineTerminator code points, removed by JavaScript's trim(). */
  predicate IsJsSpace(c: char) {
    c == '\t' || c == '\n' || c == '\U{B}' || c == '\U{C}' || c == '\r' || c == ' '
    || c == '\U{A0}' || c == '\U{1680}' || ('\U{2000}' <= c <= '\U{200A}')
    || c == '\U{2028}' || c == '\U{2029}' || c == '\U{202F}' || c == '\U{205F}'
    || c == '\U{3000}' || c == '\U{FEFF}'
  }

  /** Code points for which Python's str.isspace() holds, removed by strip(). */
  predicate IsPySpace(c: char) {
    ('\t' <= c <= '\r') || ('\U{1C}' <= c <= ' ') || c == '\U{85}' || c == '\U{A0}'
    || c == '\U{1680}' || ('\U{2000}' <= c <= '\U{200A}') || c == '\U{2028}'
    || c == '\U{2029}' || c == '\U{202F}' || c == '\U{205F}' || c == '\U{3000}'
  }

  predicate IsSpace(rt: Runtime, c: char) {
    match rt
    case JavaScript => IsJsSpace(c)
    case Python => IsPySpace(c)
  }

  predicate AllSpace(rt: Runtime, s: string) {
    forall i :: 0 <= i < |s| ==> IsSpace(rt, s[i])
  }

  lemma AllSpaceAppend(rt: Runtime, x: string, y: string)
    ensures AllSpace(rt, x + y) <==> AllSpace(rt, x) && AllSpace(rt, y)
  {
    assert forall i :: 0 <= i < |x| ==> (x + y)[i] == x[i];
    assert forall i :: 0 <= i < |y| ==> (x + y)[|x| + i] == y[i];
  }

  /** s without its leading whitespace. */
  function TrimStart(rt: Runtime, s: string): string {
    if s != [] && IsSpace(rt, s[0]) then TrimStart(rt, s[1..]) else s
  }

  /** s without its trailing whitespace. */
  function TrimEnd(rt: Runtime, s: string): string {
    if s != [] && IsSpace(rt, s[|s| - 1]) then TrimEnd(rt, s[..|s| - 1]) else s
  }

  /**
   * s without its leading and trailing whitespace: JavaScript's trim() for
   * rt == JavaScript, Python's strip() for rt == Python.
   */
  function Trim(rt: Runtime, s: string): string {
    TrimEnd(rt, TrimStart(rt, s))
  }

  /** Neither end of s is whitespace. */
  predicate Trimmed(rt: Runtime, s: string) {
    s == [] || (!IsSpace(rt, s[0]) && !IsSpace(rt, s[|s| - 1]))
  }

  /** TrimStart drops a run of whitespace from the front and stops at the first other character. */
  lemma {:induction false} TrimStartSpec(rt: Runtime, s: string)
    ensures |TrimStart(rt, s)| <= |s|
    ensures TrimStart(rt, s) == s[|s| - |TrimStart(rt, s)|..]
    ensures AllSpace(rt, s[..|s| - |TrimStart(rt, s)|])
    ensures TrimStart(rt, s) != [] ==> !IsSpace(rt, TrimStart(rt, s)[0])
  {
    if s != [] && IsSpace(rt, s[0]) {
      var t := s[1..];
      TrimStartSpec(rt, t);
      var k := |t| - |TrimStart(rt, t)|;
      assert s[..1 + k] == [s[0]] + t[..k];
      AllSpaceAppend(rt, [s[0]], t[..k]);
    } else {
      assert s[..0] == [];
    }
  }

  /** TrimEnd drops a run of whitespace from the back and stops at the last other character. */
  lemma {:induction false} TrimEndSpec(rt: Runtime, s: string)
    ensures |TrimEnd(rt, s)| <= |s|
    ensures TrimEnd(rt, s) == s[..|TrimEnd(rt, s)|]
    ensures AllSpace(rt, s[|TrimEnd(rt, s)|..])
    ensures TrimEnd(rt, s) != [] ==> !IsSpace(rt, TrimEnd(rt, s)[|TrimEnd(rt, s)| - 1])
  {
    if s != [] && IsSpace(rt, s[|s| - 1]) {
      var p := s[..|s| - 1];
      TrimEndSpec(rt, p);
      var k := |TrimEnd(rt, p)|;
      assert s[k..] == p[k..] + [s[|s| - 1]];
      AllSpaceAppend(rt, p[k..], [s[|s| - 1]]);
    } else {
      assert s[|s|..] == [];
    }
  }

  /**
   * A prefix r of a suffix t of s is the slice of s that starts where t
   * does, and what follows r in s is what follows it in t.
   */
  lemma SliceOfSuffix(rt: Runtime, s: string, t: string, r: string)
    requires |t| <= |s| && t == s[|s| - |t|..]
    requires |r| <= |t| && r == t[..|r|] && AllSpace(rt, t[|r|..])
    ensures r == s[|s| - |t|..|s| - |t| + |r|]
    ensures AllSpace(rt, s[|s| - |t| + |r|..])
  {
    assert t[|r|..] == s[|s| - |t| + |r|..];
  }

  /** The trimmed string is the slice of s between a leading and a trailing run of whitespace. */
  lemma TrimSlice(rt: Runtime, s: string)
    ensures |Trim(rt, s)| <= |TrimStart(rt, s)| <= |s|
    ensures Trim(rt, s) == s[|s| - |TrimStart(rt, s)|..|s| - |TrimStart(rt, s)| + |Trim(rt, s)|]
    ensures AllSpace(rt, s[..|s| - |TrimStart(rt, s)|])
    ensures AllSpace(rt, s[|s| - |TrimStart(rt, s)| + |Trim(rt, s)|..])
  {
    var t := TrimStart(rt, s);
    var r := TrimEnd(rt, t);
    TrimStartSpec(rt, s);
    TrimEndSpec(rt, t);
    SliceOfSuffix(rt, s, t, r);
  }

  /** A string is all whitespace exactly when a prefix and the rest are. */
  lemma AllSpaceSplit(rt: Runtime, s: string, a: nat)
    requires a <= |s|
    ensures AllSpace(rt, s) <==> AllSpace(rt, s[..a]) && AllSpace(rt, s[a..])
  {
    assert s == s[..a] + s[a..];
    AllSpaceAppend(rt, s[..a], s[a..]);
  }

  /** The trimmed string has whitespace at neither end, and is empty exactly when s is all whitespace. */
  lemma TrimEnds(rt: Runtime, s: string)
    ensures Trim(rt, s) == [] <==> AllSpace(rt, s)
    ensures Trimmed(rt, Trim(rt, s))
  {
    var t := TrimStart(rt, s);
    var r := TrimEnd(rt, t);
    TrimStartSpec(rt, s);
    TrimEndSpec(rt, t);
    AllSpaceSplit(rt, s, |s| - |t|);
    if r == [] {
      assert t[|r|..] == t;
    } else {
      assert r[0] == t[0];
    }
  }

  /**
   * The trimmed string is the slice of s between a leading and a trailing
   * run of whitespace; it has whitespace at neither end, and it is empty
   * exactly when s is all whitespace.
   */
  lemma TrimSpec(rt: Runtime, s: string)
    ensures |Trim(rt, s)| <= |TrimStart(rt, s)| <= |s|
    ensures Trim(rt, s) == s[|s| - |TrimStart(rt, s)|..|s| - |TrimStart(rt, s)| + |Trim(rt, s)|]
    ensures AllSpace(rt, s[..|s| - |TrimStart(rt, s)|])
    ensures AllSpace(rt, s[|s| - |TrimStart(rt, s)| + |Trim(rt, s)|..])
    ensures Trim(rt, s) == [] <==> AllSpace(rt, s)
    ensures Trimmed(rt, Trim(rt, s))
  {
    TrimSlice(rt, s);
    TrimEnds(rt, s);
  }

  /** Trim leaves s as it is exactly when neither end of s is whitespace. */
  lemma TrimmedFixed(rt: Runtime, s: string)
    ensures Trimmed(rt, s) <==> Trim(rt, s) == s
  {
    TrimSpec(rt, s);
    if Trimmed(rt, s) {
      assert TrimStart(rt, s) == s;
    }
  }

  /** Trimming twice is trimming once. */
  lemma TrimIdempotent(rt: Runtime, s: string)
    ensures Trim(rt, Trim(rt, s)) == Trim(rt, s)
  {
    TrimSpec(rt, s);
    TrimmedFixed(rt, Trim(rt, s));
  }

  /** Length of s in UTF-16 code units: what JavaScript's `.length` reports. */
  function Utf16Length(s: string): (n: nat)
    ensures |s| <= n <= 2 * |s|
  {
    if s == [] then 0 else (if s[0] as int > 0xFFFF then 2 else 1) + Utf16Length(s[1..])
  }

  lemma {:induction false} Utf16LengthAppend(a: string, b: string)
    ensures Utf16Length(a + b) == Utf16Length(a) + Utf16Length(b)
  {
    if a == [] {
      assert a + b == b;
    } else {
      assert (a + b)[1..] == a[1..] + b;
      Utf16LengthAppend(a[1..], b);
    }
  }

  lemma {:induction false} Utf16LengthPrefix(s: string, j: nat)
    requires j <= |s|
    ensures Utf16Length(s[..j]) <= Utf16Length(s)
  {
    if j > 0 {
      assert s[..j][1..] == s[1..][..j - 1];
      Utf16LengthPrefix(s[1..], j - 1);
    }
  }

  lemma {:induction false} Utf16LengthSuffix(s: string, i: nat)
    requires i <= |s|
    ensures Utf16Length(s[i..]) <= Utf16Length(s)
  {
    if i == 0 {
      assert s[0..] == s;
    } else {
      assert s[1..][i - 1..] == s[i..];
      Utf16LengthSuffix(s[1..], i - 1);
    }
  }

  /** A slice is never longer, in UTF-16 code units, than the string it is cut from. */
  lemma Utf16LengthSlice(s: string, i: nat, j: nat)
    requires i <= j <= |s|
    ensures Utf16Length(s[i..j]) <= Utf16Length(s)
  {
    Utf16LengthPrefix(s, j);
    assert s[..j][i..] == s[i..j];
    Utf16LengthSuffix(s[..j], i);
  }

  /** Trimming never makes a string longer, counted either way. */
  lemma TrimShortens(rt: Runtime, s: string)
    ensures |Trim(rt, s)| <= |s|
    ensures Utf16Length(Trim(rt, s)) <= Utf16Length(s)
  {
    TrimSpec(rt, s);
    var a := |s| - |TrimStart(rt, s)|;
    Utf16LengthSlice(s, a, a + |Trim(rt, s)|);
  }

  /** pat occurs in s starting at index i. */
  predicate OccursAt(s: string, pat: string, i: int) {
    0 <= i <= |s| - |pat| && s[i..i + |pat|] == pat
  }

  /** s has pat somewhere as a contiguous piece. */
  predicate Contains(s: string, pat: string) {
    exists i | 0 <= i <= |s| - |pat| :: OccursAt(s, pat, i)
  }

  lemma ContainsTail(s: string, pat: string)
    requires s != []
    ensures Contains(s[1..], pat) ==> Contains(s, pat)
  {
    if Contains(s[1..], pat) {
      var i :| 0 <= i <= |s[1..]| - |pat| && OccursAt(s[1..], pat, i);
      assert s[1..][i..i + |pat|] == s[i + 1..i + 1 + |pat|];
      assert OccursAt(s, pat, i + 1);
    }
  }

  lemma ContainsHead(s: string, pat: string)
    requires |pat| <= |s|
    ensures s[..|pat|] == pat ==> Contains(s, pat)
  {
    assert s[0..0 + |pat|] == s[..|pat|];
    assert s[..|pat|] == pat ==> OccursAt(s, pat, 0);
  }

  /** A one-character pattern occurs exactly when the character does. */
  lemma ContainsChar(s: string, c: char)
    ensures Contains(s, [c]) <==> c in s
  {
    if c in s {
      var i :| 0 <= i < |s| && s[i] == c;
      assert OccursAt(s, [c], i);
    }
    if Contains(s, [c]) {
      var i :| 0 <= i <= |s| - 1 && OccursAt(s, [c], i);
      assert s[i..i + 1][0] == s[i];
    }
  }

  /** A slice never holds a character or a piece that the whole string lacks. */
  lemma SliceKeepsOut(s: string, i: nat, j: nat, c: char, pat: string)
    requires i <= j <= |s|
    ensures c !in s ==> c !in s[i..j]
    ensures !Contains(s, pat) ==> !Contains(s[i..j], pat)
  {
    var r := s[i..j];
    if Contains(r, pat) {
      var k :| 0 <= k <= |r| - |pat| && OccursAt(r, pat, k);
      forall m | 0 <= m < |pat| ensures s[i + k + m] == pat[m] {
        assert r[k..k + |pat|][m] == r[k + m];
      }
      assert s[i + k..i + k + |pat|] == pat;
      assert OccursAt(s, pat, i + k);
    }
    if c in r {
      var k :| 0 <= k < |r| && r[k] == c;
      assert s[i + k] == c;
    }
  }

  /** Trimming removes characters and pieces but never brings one in. */
  lemma TrimKeepsOut(rt: Runtime, s: string, c: char, pat: string)
    ensures c !in s ==> c !in Trim(rt, s)
    ensures !Contains(s, pat) ==> !Contains(Trim(rt, s), pat)
  {
    TrimSlice(rt, s);
    var a := |s| - |TrimStart(rt, s)|;
    SliceKeepsOut(s, a, a + |Trim(rt, s)|, c, pat);
  }

  /**
   * Python's s.replace(pat, rep): the non-overlapping occurrences of pat,
   * found scanning left to right, each become rep.
   */
  function ReplaceAll(s: string, pat: string, rep: string): string
    requires pat != []
    decreases |s|
  {
    if s == [] then []
    else if |pat| <= |s| && s[..|pat|] == pat then rep + ReplaceAll(s[|pat|..], pat, rep)
    else [s[0]] + ReplaceAll(s[1..], pat, rep)
  }

  /** With no occurrence to replace, replace changes nothing. */
  lemma {:induction false} ReplaceAbsent(s: string, pat: string, rep: string)
    requires pat != []
    requires !Contains(s, pat)
    ensures ReplaceAll(s, pat, rep) == s
    decreases |s|
  {
    if s != [] {
      if |pat| <= |s| { ContainsHead(s, pat); }
      ContainsTail(s, pat);
      ReplaceAbsent(s[1..], pat, rep);
    }
  }

  /** Deleting occurrences of pat keeps every character that pat does not use. */
  lemma {:induction false} DeletionKeeps(s: string, pat: string, c: char)
    requires pat != [] && c !in pat
    ensures multiset(ReplaceAll(s, pat, []))[c] == multiset(s)[c]
    decreases |s|
  {
    if s != [] {
      if |pat| <= |s| && s[..|pat|] == pat {
        assert s == pat + s[|pat|..];
        DeletionKeeps(s[|pat|..], pat, c);
      } else {
        assert s == [s[0]] + s[1..];
        DeletionKeeps(s[1..], pat, c);
      }
    }
  }

  /** Deleting a one-character pattern leaves none of that character. */
  lemma {:induction false} DeletionRemovesChar(s: string, c: char)
    ensures c !in ReplaceAll(s, [c], [])
    decreases |s|
  {
    if s != [] {
      DeletionRemovesChar(s[1..], c);
    }
  }

  /** Replacing c by cc doubles the number of c's. */
  lemma {:induction false} DoublingCount(s: string, c: char)
    ensures multiset(ReplaceAll(s, [c], [c, c]))[c] == 2 * multiset(s)[c]
    decreases |s|
  {
    if s != [] {
      assert s == [s[0]] + s[1..];
      DoublingCount(s[1..], c);
    }
  }

  /**
   * Deleting the pair cc leaves no pair cc behind: a c that survives is one
   * whose successor was not a c, and that successor survives after it.
   */
  lemma {:induction false} DeletionRemovesPair(s: string, c: char)
    ensures !Contains(ReplaceAll(s, [c, c], []), [c, c])
    decreases |s|
  {
    var pat := [c, c];
    if s != [] {
      if |pat| <= |s| && s[..|pat|] == pat {
        assert ReplaceAll(s, pat, []) == ReplaceAll(s[2..], pat, []);
        DeletionRemovesPair(s[2..], c);
      } else {
        var rest := ReplaceAll(s[1..], pat, []);
        DeletionRemovesPair(s[1..], c);
        assert s[0] == c ==> rest == [] || rest[0] != c by {
          if s[0] == c && |s| > 1 {
            assert s[1] != c by { assert s[..2] == [s[0], s[1]]; }
            assert !(|pat| <= |s[1..]| && s[1..][..|pat|] == pat) by {
              if |pat| <= |s[1..]| { assert s[1..][..|pat|][0] == s[1]; }
            }
          }
        }
        var r := [s[0]] + rest;
        forall i ensures !OccursAt(r, pat, i) {
          if 0 < i <= |r| - 2 {
            assert r[i..i + 2] == rest[i - 1..i - 1 + |pat|];
            assert !OccursAt(rest, pat, i - 1);
          } else if i == 0 && |r| >= 2 {
            assert r[0..2][1] == rest[0];
          }
        }
      }
    }
  }

  /**
   * Python's s.split(sep) with an explicit one-character separator: every
   * occurrence separates two fields, and empty fields are kept.
   */
  function Split(s: string, sep: char): (parts: seq<string>)
    ensures |parts| >= 1
  {
    if s == [] then [[]]
    else
      var rest := Split(s[1..], sep);
      if s[0] == sep then [[]] + rest else [[s[0]] + rest[0]] + rest[1..]
  }

  /** Python's sep.join(parts). */
  function Join(parts: seq<string>, sep: string): string {
    if parts == [] then []
    else if |parts| == 1 then parts[0]
    else parts[0] + sep + Join(parts[1..], sep)
  }

  /** Joining the fields of a split with the separator gives back the string. */
  lemma {:induction false} JoinSplit(s: string, sep: char)
    ensures Join(Split(s, sep), [sep]) == s
  {
    if s != [] {
      var rest := Split(s[1..], sep);
      JoinSplit(s[1..], sep);
      if s[0] == sep {
        assert ([[]] + rest)[1..] == rest;
      } else if |rest| == 1 {
        assert s == [s[0]] + s[1..];
      } else {
        var parts := [[s[0]] + rest[0]] + rest[1..];
        assert parts[1..] == rest[1..];
        assert s == [s[0]] + s[1..];
      }
    }
  }

  /** A split has one more field than the string has separators. */
  lemma {:induction false} SplitFieldCount(s: string, sep: char)
    ensures |Split(s, sep)| == multiset(s)[sep] + 1
  {
    if s != [] {
      SplitFieldCount(s[1..], sep);
      assert s == [s[0]] + s[1..];
    }
  }

  /** A string without the separator is a single field. */
  lemma {:induction false} SplitNoSep(s: string, sep: char)
    requires sep !in s
    ensures Split(s, sep) == [s]
  {
    if s != [] {
      SplitNoSep(s[1..], sep);
      assert [s[0]] + s[1..] == s;
    }
  }

  /** The first separator of a + [sep] + b, when a has none, ends the first field. */
  lemma {:induction false} SplitAtFirst(a: string, sep: char, b: string)
    requires sep !in a
    ensures Split(a + [sep] + b, sep) == [a] + Split(b, sep)
  {
    var s := a + [sep] + b;
    if a == [] {
      assert s[1..] == b;
    } else {
      assert s[1..] == a[1..] + [sep] + b;
      SplitAtFirst(a[1..], sep, b);
      assert [a[0]] + a[1..] == a;
    }
  }

  predicate IsDigit(c: char) {
    '0' <= c <= '9'
  }

  predicate AllDigits(s: string) {
    forall i :: 0 <= i < |s| ==> IsDigit(s[i])
  }

  function DigitChar(d: nat): (c: char)
    requires d < 10
    ensures IsDigit(c) && c as int - '0' as int == d
  {
    (48 + d) as char
  }

  /** The decimal digits of n, most significant first: Python's str(n) and JavaScript's String(n). */
  function NatToString(n: nat): (s: string)
    ensures |s| >= 1 && AllDigits(s)
  {
    if n < 10 then [DigitChar(n)] else NatToString(n / 10) + [DigitChar(n % 10)]
  }

  /** The number a string of decimal digits denotes. */
  function DigitsValue(s: string): nat
    requires AllDigits(s)
  {
    if s == [] then 0 else 10 * DigitsValue(s[..|s| - 1]) + (s[|s| - 1] as int - '0' as int)
  }

  /** Reading back the decimal form of n gives n. */
  lemma {:induction false} NatToStringRoundTrip(n: nat)
    ensures DigitsValue(NatToString(n)) == n
  {
    if n >= 10 {
      var s := NatToString(n);
      assert s[..|s| - 1] == NatToString(n / 10);
      NatToStringRoundTrip(n / 10);
    }
  }

  /** Decimal form of an integer, with a leading '-' when it is negative. */
  function IntToString(i: int): (s: string)
    ensures i >= 0 ==> s == NatToString(i)
    ensures i < 0 ==> s == "-" + NatToString(-i)
  {
    if i < 0 then "-" + NatToString(-i) else NatToString(i)
  }
}
