/** The parts of ECMAScript string and number behaviour that the application relies on:
    the whitespace class, `trim`, `substring`, the `||` fallback on strings, and
    `Number.prototype.toString(36)` on non-negative integers. */
module JsString {

  datatype Option<+T> = None | Some(value: T)

  /** The ECMAScript WhiteSpace and LineTerminator code points: what the regular-expression
      class `\s` matches and what `String.prototype.trim` removes. */
  predicate IsWhitespace(c: char) {
    || c == '\t' || c == '\n' || c == '\U{000B}' || c == '\U{000C}' || c == '\r' || c == ' '
    || c == '\U{00A0}' || c == '\U{1680}' || ('\U{2000}' <= c <= '\U{200A}')
    || c == '\U{2028}' || c == '\U{2029}' || c == '\U{202F}' || c == '\U{205F}'
    || c == '\U{3000}' || c == '\U{FEFF}'
  }

  /** Every character of `s` is whitespace (the empty string included). */
  predicate Blank(s: string) {
    forall i :: 0 <= i < |s| ==> IsWhitespace(s[i])
  }

  lemma BlankAppend(a: string, b: string)
    requires Blank(a) && Blank(b)
    ensures Blank(a + b)
  {
  }

  predicate HasNoWhitespace(s: string) {
    forall i :: 0 <= i < |s| ==> !IsWhitespace(s[i])
  }

  function TrimStart(s: string): (r: string)
    ensures |r| <= |s| && r == s[|s| - |r|..]
    ensures r == [] || !IsWhitespace(r[0])
    ensures Blank(s[..|s| - |r|])
  {
    if s != [] && IsWhitespace(s[0]) then
      var t := s[1..];
      var r := TrimStart(t);
      assert t[|t| - |r|..] == s[|s| - |r|..];
      assert s[..|s| - |r|] == [s[0]] + t[..|t| - |r|];
      BlankAppend([s[0]], t[..|t| - |r|]);
      r
    else s
  }

  function TrimEnd(s: string): (r: string)
    ensures |r| <= |s| && r == s[..|r|]
    ensures r == [] || !IsWhitespace(r[|r| - 1])
    ensures Blank(s[|r|..])
  {
    if s != [] && IsWhitespace(s[|s| - 1]) then
      var t := s[..|s| - 1];
      var r := TrimEnd(t);
      assert t[..|r|] == s[..|r|];
      assert s[|r|..] == t[|r|..] + [s[|s| - 1]];
      BlankAppend(t[|r|..], [s[|s| - 1]]);
      r
    else s
  }

  /** `String.prototype.trim`. */
  function Trim(s: string): string {
    TrimEnd(TrimStart(s))
  }

  /** `s.trim() !== ''` fails exactly on the strings made only of whitespace. */
  lemma TrimEmptyIffBlank(s: string)
    ensures Trim(s) == [] <==> Blank(s)
  {
  }

  /** `trim` leaves a string without whitespace unchanged. */
  lemma TrimNoWhitespace(s: string)
    requires HasNoWhitespace(s)
    ensures Trim(s) == s
  {
  }

  /** The JavaScript expression `s || fallback` for a string `s`: only the empty string is falsy. */
  function Or(s: string, fallback: string): string {
    if s == [] then fallback else s
  }

  function Clamp(x: int, len: nat): nat {
    if x < 0 then 0 else if x > len then len else x
  }

  /** `String.prototype.substring(start, end)` for integer arguments: both are clamped to
      `[0, |s|]` and swapped when `start > end`. */
  function Substring(s: string, start: int, end: int): (r: string)
    ensures |r| <= |s|
    ensures |r| <= if end >= start then end - start else start - end
    ensures start <= 0 <= end ==> r <= s && |r| == if end < |s| then end else |s|
  {
    var a, b := Clamp(start, |s|), Clamp(end, |s|);
    if a <= b then s[a..b] else s[b..a]
  }

  predicate IsBase36Digit(c: char) {
    ('0' <= c <= '9') || ('a' <= c <= 'z')
  }

  predicate AllBase36Digits(s: string) {
    forall i :: 0 <= i < |s| ==> IsBase36Digit(s[i])
  }

  function Base36Digit(d: nat): (c: char)
    requires d < 36
    ensures IsBase36Digit(c)
  {
    if d < 10 then ('0' as int + d) as char else ('a' as int + d - 10) as char
  }

  function DigitValue(c: char): (d: nat)
    requires IsBase36Digit(c)
    ensures d < 36 && Base36Digit(d) == c
  {
    if c <= '9' then c as int - '0' as int else c as int - 'a' as int + 10
  }

  /** `n.toString(36)` for a non-negative integer `n`: most significant digit first,
      lower-case letters, no leading zero. */
  function IntToBase36(n: nat): (r: string)
    ensures |r| > 0 && AllBase36Digits(r)
    ensures (r[0] == '0') == (n == 0)
    decreases n
  {
    if n < 36 then [Base36Digit(n)] else IntToBase36(n / 36) + [Base36Digit(n % 36)]
  }

  /** Reads a string of base-36 digits, most significant first (what `parseInt(s, 36)` does on them). */
  function Base36Value(s: string): nat
    requires AllBase36Digits(s)
  {
    if s == [] then 0 else Base36Value(s[..|s| - 1]) * 36 + DigitValue(s[|s| - 1])
  }

  /** Base-36 text is a faithful encoding: reading it back gives the number. */
  lemma {:induction false} Base36RoundTrip(n: nat)
    ensures Base36Value(IntToBase36(n)) == n
    decreases n
  {
    var r := IntToBase36(n);
    if n >= 36 {
      Base36RoundTrip(n / 36);
      assert r[..|r| - 1] == IntToBase36(n / 36);
      assert DigitValue(r[|r| - 1]) == n % 36;
    } else {
      assert DigitValue(r[0]) == n;
    }
  }

  /** Distinct numbers have distinct base-36 texts. */
  lemma Base36Injective(m: nat, n: nat)
    requires IntToBase36(m) == IntToBase36(n)
    ensures m == n
  {
    Base36RoundTrip(m);
    Base36RoundTrip(n);
  }
}
