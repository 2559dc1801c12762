/**
 * The .NET and Umbraco string helpers the management API composer relies on:
 * `string.IsNullOrWhiteSpace`, `ToLower`, `ToUpper`, `ToFirstUpper`,
 * `InvariantStartsWith`, `StartsWith` and `TrimStart`.
 *
 * Case mapping is modelled on ASCII letters only: every other character maps to itself.
 */
module Strings {
  import opened Wrappers

  /** `char.IsWhiteSpace`: the characters of the Unicode White_Space property. */
  predicate IsWhiteSpace(c: char) {
    || ('\U{9}' <= c <= '\U{D}')
    || c == ' '
    || c == '\U{85}'
    || c == '\U{A0}'
    || c == '\U{1680}'
    || ('\U{2000}' <= c <= '\U{200A}')
    || c == '\U{2028}'
    || c == '\U{2029}'
    || c == '\U{202F}'
    || c == '\U{205F}'
    || c == '\U{3000}'
  }

  /** `string.IsNullOrWhiteSpace`: null, empty, or made of white space only. */
  predicate IsNullOrWhiteSpace(s: Option<string>) {
    match s
    case None => true
    case Some(t) => forall i :: 0 <= i < |t| ==> IsWhiteSpace(t[i])
  }

  predicate IsUpper(c: char) { 'A' <= c <= 'Z' }

  predicate IsLower(c: char) { 'a' <= c <= 'z' }

  function ToUpperChar(c: char): (u: char)
    ensures !IsLower(u)
    ensures IsLower(c) <==> IsUpper(u) && u != c
  {
    if IsLower(c) then (c as int - 'a' as int + 'A' as int) as char else c
  }

  function ToLowerChar(c: char): (l: char)
    ensures !IsUpper(l)
    ensures IsUpper(c) <==> IsLower(l) && l != c
  {
    if IsUpper(c) then (c as int - 'A' as int + 'a' as int) as char else c
  }

  /** `string.ToLower`, character by character. */
  function ToLower(s: string): (r: string)
    ensures |r| == |s|
    ensures forall i :: 0 <= i < |s| ==> r[i] == ToLowerChar(s[i])
  {
    seq(|s|, i requires 0 <= i < |s| => ToLowerChar(s[i]))
  }

  /** `string.ToUpper`, character by character. */
  function ToUpper(s: string): (r: string)
    ensures |r| == |s|
    ensures forall i :: 0 <= i < |s| ==> r[i] == ToUpperChar(s[i])
  {
    seq(|s|, i requires 0 <= i < |s| => ToUpperChar(s[i]))
  }

  /** Umbraco's `ToFirstUpper`: the first character upper-cased, the rest unchanged. */
  function ToFirstUpper(s: string): string {
    if s == [] then s else [ToUpperChar(s[0])] + s[1..]
  }

  /** Ordinal `StartsWith`. */
  predicate StartsWith(s: string, prefix: string) {
    |prefix| <= |s| && s[..|prefix|] == prefix
  }

  predicate EndsWith(s: string, suffix: string) {
    |suffix| <= |s| && s[|s| - |suffix|..] == suffix
  }

  /** Umbraco's `InvariantStartsWith`: a prefix test that ignores letter case. */
  predicate StartsWithIgnoreCase(s: string, prefix: string) {
    |prefix| <= |s| && forall i :: 0 <= i < |prefix| ==> ToLowerChar(s[i]) == ToLowerChar(prefix[i])
  }

  predicate EqualsIgnoreCase(a: string, b: string) {
    |a| == |b| && StartsWithIgnoreCase(a, b)
  }

  /** `TrimStart(c)`: every leading occurrence of `c` removed. */
  function TrimStart(s: string, c: char): (r: string)
    ensures |r| <= |s| && r == s[|s| - |r|..]
    ensures forall i :: 0 <= i < |s| - |r| ==> s[i] == c
    ensures r == [] || r[0] != c
  {
    if s != [] && s[0] == c then TrimStart(s[1..], c) else s
  }

  /** Trimming leaves nothing exactly when the string holds no character other than `c`. */
  lemma TrimStartEmpty(s: string, c: char)
    ensures TrimStart(s, c) == [] <==> forall i :: 0 <= i < |s| ==> s[i] == c
  {
    var r := TrimStart(s, c);
    if r != [] {
      assert s[|s| - |r|] == r[0];
    }
  }

  /** A string that starts with its prefix case-insensitively keeps doing so when extended. */
  lemma StartsWithIgnoreCaseAppend(p: string, s: string)
    ensures StartsWithIgnoreCase(p + s, p)
  {
    assert forall i :: 0 <= i < |p| ==> (p + s)[i] == p[i];
  }

  /** An ordinal prefix is also a case-insensitive one. */
  lemma StartsWithIsIgnoreCase(s: string, p: string)
    requires StartsWith(s, p)
    ensures StartsWithIgnoreCase(s, p)
  {
    forall i | 0 <= i < |p|
      ensures ToLowerChar(s[i]) == ToLowerChar(p[i])
    {
      assert s[i] == s[..|p|][i];
    }
  }

  /** Splitting off the head of a non-empty sequence before a concatenation. */
  lemma ConsAppend<T>(xs: seq<T>, ys: seq<T>)
    requires xs != []
    ensures [xs[0]] + (xs[1..] + ys) == xs + ys
  {
    assert xs == [xs[0]] + xs[1..];
  }
}
