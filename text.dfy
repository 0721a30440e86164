/**
 * String helpers shared by the server (Java) and the web client (TypeScript).
 * The two languages disagree on what "whitespace" is, so each trimming or
 * blank-ness test is parameterised by, or named after, its own character class.
 */
module Text {

  predicate StartsWith(s: string, prefix: string) {
    |prefix| <= |s| && s[..|prefix|] == prefix
  }

  predicate EndsWith(s: string, suffix: string) {
    |suffix| <= |s| && s[|s| - |suffix|..] == suffix
  }

  /** `needle` occurs somewhere inside `s`. */
  ghost predicate Contains(s: string, needle: string) {
    exists i :: 0 <= i && OccursAt(s, needle, i)
  }

  /** `needle` occurs in `s` starting at index `i`. */
  predicate OccursAt(s: string, needle: string, i: nat) {
    i + |needle| <= |s| && s[i..i + |needle|] == needle
  }

  /** Java's `Character.isWhitespace`: space, line and paragraph separators except the
      non-breaking ones (U+00A0, U+2007, U+202F), and the controls U+0009..U+000D, U+001C..U+001F. */
  predicate JavaWhitespace(c: char) {
    c == ' ' || ('\t' <= c <= '\r') || ('\U{001C}' <= c <= '\U{001F}')
    || c == '\U{1680}' || ('\U{2000}' <= c <= '\U{2006}') || ('\U{2008}' <= c <= '\U{200A}')
    || c == '\U{2028}' || c == '\U{2029}' || c == '\U{205F}' || c == '\U{3000}'
  }

  /** The characters Java's `String.trim` strips: every code point up to U+0020. */
  predicate JavaTrimmable(c: char) {
    c <= ' '
  }

  /** The characters JavaScript's `String.prototype.trim` strips: WhiteSpace and LineTerminator. */
  predicate JsWhitespace(c: char) {
    c == '\t' || c == '\n' || c == '\U{000B}' || c == '\U{000C}' || c == '\r' || c == ' '
    || c == '\U{00A0}' || c == '\U{1680}' || ('\U{2000}' <= c <= '\U{200A}')
    || c == '\U{2028}' || c == '\U{2029}' || c == '\U{202F}' || c == '\U{205F}'
    || c == '\U{3000}' || c == '\U{FEFF}'
  }

  /** Java's `String.isBlank`: empty, or only `Character.isWhitespace` code points. */
  predicate JavaBlank(s: string) {
    forall i :: 0 <= i < |s| ==> JavaWhitespace(s[i])
  }

  /** Drops the leading characters that satisfy `ws`. */
  function TrimStart(ws: char -> bool, s: string): (r: string)
    ensures |r| <= |s| && r == s[|s| - |r|..]
    ensures forall i :: 0 <= i < |s| - |r| ==> ws(s[i])
    ensures r == [] || !ws(r[0])
  {
    if s != [] && ws(s[0]) then
      var r := TrimStart(ws, s[1..]);
      assert s[1..][|s| - 1 - |r|..] == s[|s| - |r|..];
      r
    else s
  }

  /** Drops the trailing characters that satisfy `ws`. */
  function TrimEnd(ws: char -> bool, s: string): (r: string)
    ensures |r| <= |s| && r == s[..|r|]
    ensures forall i :: |r| <= i < |s| ==> ws(s[i])
    ensures r == [] || !ws(r[|r| - 1])
  {
    if s != [] && ws(s[|s| - 1]) then
      var r := TrimEnd(ws, s[..|s| - 1]);
      assert s[..|s| - 1][..|r|] == s[..|r|];
      r
    else s
  }

  /** Strips `ws` characters from both ends. */
  function Trim(ws: char -> bool, s: string): string {
    TrimEnd(ws, TrimStart(ws, s))
  }

  function JavaTrim(s: string): string {
    Trim(JavaTrimmable, s)
  }

  function JsTrim(s: string): string {
    Trim(JsWhitespace, s)
  }

  /** How many leading characters `TrimStart` removes. */
  function LeadingCount(ws: char -> bool, s: string): nat {
    |s| - |TrimStart(ws, s)|
  }

  /** The trimmed string is the middle slice of `s` after `LeadingCount` characters,
      everything cut off on either side satisfies `ws`, and what remains neither starts
      nor ends with a `ws` character. */
  lemma {:induction false} TrimIsMiddle(ws: char -> bool, s: string)
    ensures var r, n := Trim(ws, s), LeadingCount(ws, s);
      && n + |r| <= |s| && r == s[n..n + |r|]
      && (forall k :: 0 <= k < n ==> ws(s[k]))
      && (forall k :: n + |r| <= k < |s| ==> ws(s[k]))
      && (r == [] || (!ws(r[0]) && !ws(r[|r| - 1])))
  {
    TrimSlice(ws, s);
    TrimCutOff(ws, s);
    TrimEdges(ws, s);
  }

  lemma TrimSlice(ws: char -> bool, s: string)
    ensures var r, n := Trim(ws, s), LeadingCount(ws, s);
      n + |r| <= |s| && r == s[n..n + |r|]
  {
    var t := TrimStart(ws, s);
    var r := TrimEnd(ws, t);
    var n := |s| - |t|;
    assert t == s[n..] && r == t[..|r|];
    assert s[n..][..|r|] == s[n..n + |r|];
  }

  lemma TrimCutOff(ws: char -> bool, s: string)
    ensures var r, n := Trim(ws, s), LeadingCount(ws, s);
      && (forall k :: 0 <= k < n ==> ws(s[k]))
      && (forall k :: n + |r| <= k < |s| ==> ws(s[k]))
  {
    var t := TrimStart(ws, s);
    var r := TrimEnd(ws, t);
    var n := |s| - |t|;
    assert t == s[n..];
    forall k | n + |r| <= k < |s|
      ensures ws(s[k])
    {
      var j := k - n;
      assert |r| <= j < |t|;
      assert s[k] == t[j];
    }
  }

  lemma TrimEdges(ws: char -> bool, s: string)
    ensures var r := Trim(ws, s);
      r == [] || (!ws(r[0]) && !ws(r[|r| - 1]))
  {
    var t := TrimStart(ws, s);
    var r := TrimEnd(ws, t);
    if r != [] {
      assert r[0] == t[0];
    }
  }

  /** Trimming yields the empty string exactly when every character satisfies `ws`. */
  lemma {:induction false} TrimEmptyIffAll(ws: char -> bool, s: string)
    ensures Trim(ws, s) == [] <==> forall i :: 0 <= i < |s| ==> ws(s[i])
  {
    var t := TrimStart(ws, s);
    if t != [] {
      assert t[0] == s[|s| - |t|];
    }
  }

  /** Trimming twice is trimming once. */
  lemma {:induction false} TrimIdempotent(ws: char -> bool, s: string)
    ensures Trim(ws, Trim(ws, s)) == Trim(ws, s)
  {
    var r := Trim(ws, s);
    TrimIsMiddle(ws, s);
    assert TrimStart(ws, r) == r;
    if r != [] {
      assert TrimEnd(ws, r) == r;
    }
  }

  /** A Java-blank string trims to the empty string, since every `Character.isWhitespace`
      code point below U+0021 is trimmable; the converse fails (e.g. U+0000 is trimmed but
      not whitespace, U+3000 is whitespace but not trimmed). */
  lemma JavaTrimOfBlankCounterexamples()
    ensures JavaTrim("\U{0000}") == "" && !JavaBlank("\U{0000}")
    ensures JavaBlank("\U{3000}") && JavaTrim("\U{3000}") != ""
  {
    assert !JavaWhitespace("\U{0000}"[0]);
    assert JavaTrimmable("\U{0000}"[0]);
    assert !JavaTrimmable("\U{3000}"[0]);
  }

  function AsciiLower(c: char): char {
    if 'A' <= c <= 'Z' then (c as int + 32) as char else c
  }

  /** `toLowerCase`, restricted to ASCII letters. */
  function ToLowerAscii(s: string): (r: string)
    ensures |r| == |s|
    ensures forall i :: 0 <= i < |s| ==> r[i] == AsciiLower(s[i])
  {
    if s == [] then [] else [AsciiLower(s[0])] + ToLowerAscii(s[1..])
  }

  /** No upper-case ASCII letter survives lower-casing, and lower-casing is idempotent. */
  lemma {:induction false} ToLowerAsciiIsLower(s: string)
    ensures forall i :: 0 <= i < |s| ==> !('A' <= ToLowerAscii(s)[i] <= 'Z')
    ensures ToLowerAscii(ToLowerAscii(s)) == ToLowerAscii(s)
  {
  }
}
