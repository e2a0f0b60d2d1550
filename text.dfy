/**
 * String operations of JavaScript that the server and the client apply to user input:
 * `trim`, `toLowerCase` (ASCII part), `includes`, `startsWith`, `replace` of the first
 * occurrence, and `Array.prototype.join`. Strings are sequences of characters; within the
 * Basic Multilingual Plane one `char` is one UTF-16 code unit.
 */
module Text {

  /** WhiteSpace and LineTerminator characters, the set `String.prototype.trim` strips. */
  predicate IsSpace(c: char) {
    || c == '\t' || c == '\n' || c == '\U{000B}' || c == '\U{000C}' || c == '\r' || c == ' '
    || c == '\U{00A0}' || c == '\U{1680}' || ('\U{2000}' <= c <= '\U{200A}')
    || c == '\U{2028}' || c == '\U{2029}' || c == '\U{202F}' || c == '\U{205F}'
    || c == '\U{3000}' || c == '\U{FEFF}'
  }

  /** Every character is white space (so `s.trim()` is falsy). */
  predicate Blank(s: string) {
    forall i :: 0 <= i < |s| ==> IsSpace(s[i])
  }

  /** The index of the first non-space character at or after `i`, or `|s|` if there is none. */
  function SkipSpace(s: string, i: nat): (k: nat)
    requires i <= |s|
    ensures i <= k <= |s|
    ensures forall j :: i <= j < k ==> IsSpace(s[j])
    ensures k < |s| ==> !IsSpace(s[k])
    decreases |s| - i
  {
    if i == |s| || !IsSpace(s[i]) then i else SkipSpace(s, i + 1)
  }

  /** The end of the text before `j` once trailing white space is dropped. */
  function SkipSpaceBack(s: string, j: nat): (k: nat)
    requires j <= |s|
    ensures k <= j
    ensures forall m :: k <= m < j ==> IsSpace(s[m])
    ensures k > 0 ==> !IsSpace(s[k - 1])
  {
    if j == 0 || !IsSpace(s[j - 1]) then j else SkipSpaceBack(s, j - 1)
  }

  /**
   * `String.prototype.trim`: the infix of `s` left once leading and trailing white space is
   * stripped; it neither starts nor ends with white space, and it is empty exactly when `s`
   * is blank.
   */
  function Trim(s: string): (r: string)
    ensures |r| <= |s|
    ensures r == [] || (!IsSpace(r[0]) && !IsSpace(r[|r| - 1]))
    ensures r == [] <==> Blank(s)
    ensures exists lo :: 0 <= lo && lo + |r| <= |s| && s[lo..lo + |r|] == r && Blank(s[..lo]) && Blank(s[lo + |r|..])
  {
    var lo := SkipSpace(s, 0);
    var hi := SkipSpaceBack(s, |s|);
    if lo < hi then
      assert s[lo..lo + (hi - lo)] == s[lo..hi];
      assert Blank(s[..lo]) && Blank(s[hi..]);
      s[lo..hi]
    else
      assert s[0..0] == [] && Blank(s[..0]) && Blank(s[0..]);
      []
  }

  /** What `trim` returns is a contiguous piece of its input. */
  lemma TrimOccursInInput(s: string)
    ensures exists i :: OccursAt(s, Trim(s), i)
  {
    var lo := SkipSpace(s, 0);
    if lo < SkipSpaceBack(s, |s|) {
      assert OccursAt(s, Trim(s), lo);
    } else {
      assert OccursAt(s, Trim(s), 0);
    }
  }

  /** Trimming twice changes nothing more. */
  lemma TrimIdempotent(s: string)
    ensures Trim(Trim(s)) == Trim(s)
  {
    var r := Trim(s);
    if r != [] {
      assert SkipSpace(r, 0) == 0;
      assert SkipSpaceBack(r, |r|) == |r|;
      assert r[0..|r|] == r;
    }
  }

  /** ASCII upper-case letters map to lower case; every other character is kept. */
  function LowerChar(c: char): char {
    if 'A' <= c <= 'Z' then (c as int + 32) as char else c
  }

  function UpperChar(c: char): char {
    if 'a' <= c <= 'z' then (c as int - 32) as char else c
  }

  /** Case folding as SQLite's LOWER() does it (ASCII letters only). */
  function Lower(s: string): (r: string)
    ensures |r| == |s|
  {
    seq(|s|, i requires 0 <= i < |s| => LowerChar(s[i]))
  }

  function Upper(s: string): (r: string)
    ensures |r| == |s|
  {
    seq(|s|, i requires 0 <= i < |s| => UpperChar(s[i]))
  }

  /** `a.toLowerCase() === b.toLowerCase()`. */
  predicate EqualsIgnoreCase(a: string, b: string) {
    Lower(a) == Lower(b)
  }

  /** `sub` occurs in `s` starting at index `i`. */
  predicate OccursAt(s: string, sub: string, i: int) {
    0 <= i <= |s| - |sub| && s[i..i + |sub|] == sub
  }

  /** `s.includes(sub)`. */
  predicate Contains(s: string, sub: string) {
    exists i | 0 <= i <= |s| - |sub| :: OccursAt(s, sub, i)
  }

  /** An occurrence in `a` is still one in `a + b`, at the same index. */
  lemma OccursInLeft(a: string, b: string, sub: string, i: int)
    requires OccursAt(a, sub, i)
    ensures OccursAt(a + b, sub, i)
  {
    assert (a + b)[i..i + |sub|] == a[i..i + |sub|];
  }

  /** An occurrence in `b` is one in `a + b`, shifted by `|a|`. */
  lemma OccursInRight(a: string, b: string, sub: string, i: int)
    requires OccursAt(b, sub, i)
    ensures OccursAt(a + b, sub, |a| + i)
  {
    assert (a + b)[|a| + i..|a| + i + |sub|] == b[i..i + |sub|];
  }

  /** `s.startsWith(prefix)`. */
  predicate StartsWith(s: string, prefix: string) {
    |prefix| <= |s| && s[..|prefix|] == prefix
  }

  /** Index of the first occurrence of `sub` in `s` at or after `from`, if any. */
  function IndexOf(s: string, sub: string, from: nat): (r: int)
    requires from <= |s|
    ensures r == -1 || (from <= r && OccursAt(s, sub, r))
    ensures r == -1 ==> forall i :: from <= i ==> !OccursAt(s, sub, i)
    ensures r != -1 ==> forall i :: from <= i < r ==> !OccursAt(s, sub, i)
    decreases |s| - from
  {
    if from + |sub| > |s| then -1
    else if s[from..from + |sub|] == sub then from
    else if from == |s| then -1
    else IndexOf(s, sub, from + 1)
  }

  /** `s.replace(pattern, with)` for a string pattern: only the first occurrence is replaced. */
  function ReplaceFirst(s: string, pattern: string, with: string): string {
    var i := IndexOf(s, pattern, 0);
    if i == -1 then s else s[..i] + with + s[i + |pattern|..]
  }

  /** `parts.join(sep)`. */
  function Join(parts: seq<string>, sep: string): string {
    if parts == [] then ""
    else if |parts| == 1 then parts[0]
    else Join(parts[..|parts| - 1], sep) + sep + parts[|parts| - 1]
  }

  predicate IsAsciiLetter(c: char) {
    ('a' <= c <= 'z') || ('A' <= c <= 'Z')
  }

  /** The character class `[a-zA-Z0-9_-]`. */
  predicate IsUsernameChar(c: char) {
    IsAsciiLetter(c) || ('0' <= c <= '9') || c == '_' || c == '-'
  }

  /** `/^[a-zA-Z0-9_-]+$/.test(s)`. */
  predicate MatchesUsernamePattern(s: string) {
    |s| > 0 && forall i :: 0 <= i < |s| ==> IsUsernameChar(s[i])
  }
}
