/** Python's character classes and string primitives as the modelled code uses them.
    Unicode tables are approximated: see README, "Left out". */
module Text {

  /** `str.isspace()`, which is also what the `\s` class of `re` matches in a `str` pattern. */
  predicate IsSpace(c: char) {
    c == ' ' || ('\t' <= c <= '\r') || ('\U{1C}' <= c <= '\U{1F}') || c == '\U{85}' || c == '\U{A0}'
    || c == '\U{1680}' || ('\U{2000}' <= c <= '\U{200A}') || c == '\U{2028}' || c == '\U{2029}'
    || c == '\U{202F}' || c == '\U{205F}' || c == '\U{3000}'
  }

  /** ASCII upper-case letters: the `[A-Z]` class of a pattern without IGNORECASE. */
  predicate IsAsciiUpper(c: char) {
    'A' <= c <= 'Z'
  }

  /** ASCII lower-case letters: the `[a-z]` class. */
  predicate IsAsciiLower(c: char) {
    'a' <= c <= 'z'
  }

  /** The `\d` class, restricted to ASCII digits. */
  predicate IsDigit(c: char) {
    '0' <= c <= '9'
  }

  /** Cyrillic letters of the basic block (the corpus is Russian), including Ё and ё. */
  predicate IsCyrillic(c: char) {
    ('\U{410}' <= c <= '\U{44F}') || c == '\U{401}' || c == '\U{451}'
  }

  /** `str.isalnum()` of a single character. */
  predicate IsAlnum(c: char) {
    IsAsciiUpper(c) || IsAsciiLower(c) || IsDigit(c) || IsCyrillic(c)
  }

  /** The `\w` class: alphanumerics and the underscore. */
  predicate IsWord(c: char) {
    IsAlnum(c) || c == '_'
  }

  /** `str.islower()` of a single character. */
  predicate IsLower(c: char) {
    IsAsciiLower(c) || ('\U{430}' <= c <= '\U{44F}') || c == '\U{451}'
  }

  /** `str.lower()` of a single character, for the ASCII and basic Cyrillic letters. */
  function ToLower(c: char): (r: char)
    ensures IsSpace(r) <==> IsSpace(c)
    ensures IsDigit(r) <==> IsDigit(c)
  {
    if IsAsciiUpper(c) then (c as int + 32) as char
    else if '\U{410}' <= c <= '\U{42F}' then (c as int + 32) as char
    else if c == '\U{401}' then '\U{451}'
    else c
  }

  lemma LowerIsNotSpace(c: char)
    requires IsLower(c)
    ensures !IsSpace(c) && IsAlnum(c)
  {
  }

  /** `s.lstrip()`: drops the leading whitespace. */
  function LStrip(s: string): (r: string)
    ensures |r| <= |s|
    ensures r == [] || !IsSpace(r[0])
  {
    if s != [] && IsSpace(s[0]) then LStrip(s[1..]) else s
  }

  /** What `lstrip` keeps is a suffix, and what it drops is whitespace. */
  lemma {:induction false} LStripIsSuffix(s: string)
    ensures LStrip(s) == s[|s| - |LStrip(s)|..]
    ensures forall i :: 0 <= i < |s| - |LStrip(s)| ==> IsSpace(s[i])
  {
    if s != [] && IsSpace(s[0]) {
      LStripIsSuffix(s[1..]);
    }
  }

  /** `s.rstrip()`: drops the trailing whitespace. */
  function RStrip(s: string): (r: string)
    ensures |r| <= |s|
    ensures r == [] || !IsSpace(r[|r| - 1])
  {
    if s != [] && IsSpace(s[|s| - 1]) then RStrip(s[..|s| - 1]) else s
  }

  /** What `rstrip` keeps is a prefix, and what it drops is whitespace. */
  lemma {:induction false} RStripIsPrefix(s: string)
    ensures RStrip(s) == s[..|RStrip(s)|]
    ensures forall i :: |RStrip(s)| <= i < |s| ==> IsSpace(s[i])
  {
    if s != [] && IsSpace(s[|s| - 1]) {
      RStripIsPrefix(s[..|s| - 1]);
    }
  }

  /** No whitespace at either end. */
  predicate Trimmed(s: string) {
    s == [] || (!IsSpace(s[0]) && !IsSpace(s[|s| - 1]))
  }

  /** `s.strip()`: no whitespace is left at either end. */
  function Strip(s: string): (r: string)
    ensures Trimmed(r)
  {
    var l := LStrip(s);
    RStripIsPrefix(l);
    var r := RStrip(l);
    assert r != [] ==> r[0] == l[0];
    r
  }

  /** A stripped string is a contiguous piece of the original: what `lstrip` drops, then
      the stripped text, then what `rstrip` drops. */
  lemma StripIsSlice(s: string)
    ensures var i := |s| - |LStrip(s)|; i + |Strip(s)| <= |s| && Strip(s) == s[i..i + |Strip(s)|]
  {
    var l := LStrip(s);
    var r := RStrip(l);
    var i := |s| - |l|;
    assert l == s[i..] by { LStripIsSuffix(s); }
    assert r == l[..|r|] by { RStripIsPrefix(l); }
    assert s[i..][..|r|] == s[i..i + |r|];
  }

  /** `needle` occurs in `haystack` starting at index `i`. */
  predicate OccursAt(haystack: string, needle: string, i: int) {
    0 <= i <= |haystack| - |needle| && haystack[i..i + |needle|] == needle
  }

  /** `needle in haystack` for strings. */
  predicate Contains(haystack: string, needle: string) {
    exists i | 0 <= i <= |haystack| :: OccursAt(haystack, needle, i)
  }

  /** The index a Python slice bound `i` denotes in a sequence of length `n`:
      negative bounds count from the end, and both ends are clamped into `[0, n]`. */
  function SliceIndex(i: int, n: nat): (k: nat)
    ensures k <= n
    ensures 0 <= i <= n ==> k == i
  {
    if i < 0 then (if i + n < 0 then 0 else i + n) else if i > n then n else i
  }

  /** `s[:i]`. */
  function Before(s: string, i: int): string {
    s[..SliceIndex(i, |s|)]
  }

  /** `s[i:]`. */
  function After(s: string, i: int): string {
    s[SliceIndex(i, |s|)..]
  }

  /** `s[:i] + s[i:] == s` for every integer `i`, in range or not. */
  lemma BeforeAfter(s: string, i: int)
    ensures Before(s, i) + After(s, i) == s
  {
  }
}
