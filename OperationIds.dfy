/**
 * Swagger operation IDs for the management API: the `CustomOperationIds` rule.
 *
 * The ID is the normalised HTTP verb followed either by the route's explicit name,
 * or by a name built from the relative path: version prefix removed, each
 * `{placeholder}` turned into `By<Placeholder>`, and each `-` or `/` dropped with
 * the character after it upper-cased.
 *
 * The three regular expressions behind these rewrites are not part of this model;
 * the rewrites are modelled as the source's comments describe them:
 *  - the version prefix is the shortest leading part of the path that ends in
 *    "/v", one or more decimal digits and "/", removed once;
 *  - a placeholder is `{`, a name free of braces, `}`;
 *  - a separator is `-` or `/` followed by any one character.
 */
module OperationIds {
  import opened Wrappers
  import opened Strings
  import opened ApiExplorer

  // ---------------------------------------------------------------------------
  // The HTTP verb
  // ---------------------------------------------------------------------------

  /** The verb that starts every operation ID: the method lower-cased, first letter upper-cased; "Get" when null. */
  function NormalizeVerb(httpMethod: Option<string>): (verb: string)
    ensures httpMethod.None? ==> verb == "Get"
    ensures httpMethod.Some? ==> EqualsIgnoreCase(verb, httpMethod.value)
    ensures httpMethod.Some? && verb != [] ==>
      !IsLower(verb[0]) && forall i :: 1 <= i < |verb| ==> !IsUpper(verb[i])
  {
    match httpMethod
    case None => "Get"
    case Some(m) => ToFirstUpper(ToLower(m))
  }

  /** Methods that differ only in letter case get the same verb. */
  lemma NormalizeVerbIgnoresCase(m1: string, m2: string)
    requires EqualsIgnoreCase(m1, m2)
    ensures NormalizeVerb(Some(m1)) == NormalizeVerb(Some(m2))
  {
    assert ToLower(m1) == ToLower(m2);
  }

  /** Normalising a verb a second time changes nothing. */
  lemma NormalizeVerbIdempotent(httpMethod: Option<string>)
    ensures NormalizeVerb(Some(NormalizeVerb(httpMethod))) == NormalizeVerb(httpMethod)
  {
    match httpMethod
    case None =>
      assert NormalizeVerb(Some("Get")) == "Get";
    case Some(m) =>
      var verb := NormalizeVerb(httpMethod);
      assert EqualsIgnoreCase(verb, m);
      NormalizeVerbIgnoresCase(verb, m);
  }

  // ---------------------------------------------------------------------------
  // Explicit route names
  // ---------------------------------------------------------------------------

  /** An explicit route name as operation ID: kept as it is when it already starts with the verb, else prefixed with it. */
  function ExplicitOperationId(verb: string, name: string): (id: string)
    ensures StartsWithIgnoreCase(id, verb)
    ensures EndsWith(id, name)
    ensures id == name <==> StartsWithIgnoreCase(name, verb)
    ensures id != name ==> id == verb + name
  {
    if StartsWithIgnoreCase(name, verb) then name
    else
      StartsWithIgnoreCaseAppend(verb, name);
      verb + name
  }

  /** Feeding an explicit operation ID back in as the route name returns it unchanged. */
  lemma ExplicitOperationIdIdempotent(verb: string, name: string)
    ensures ExplicitOperationId(verb, ExplicitOperationId(verb, name)) == ExplicitOperationId(verb, name)
  {
    var id := ExplicitOperationId(verb, name);
    assert StartsWithIgnoreCase(id, verb);
  }

  // ---------------------------------------------------------------------------
  // The version prefix
  // ---------------------------------------------------------------------------

  predicate IsDigit(c: char) { '0' <= c <= '9' }

  /** "/v", one or more decimal digits, "/". */
  predicate IsVersionSegment(s: string) {
    && |s| >= 4
    && s[0] == '/' && s[1] == 'v' && s[|s| - 1] == '/'
    && forall k :: 2 <= k < |s| - 1 ==> IsDigit(s[k])
  }

  /** The string has a version segment as a suffix. */
  ghost predicate EndsWithVersionSegment(s: string) {
    exists i :: 0 <= i <= |s| && IsVersionSegment(s[i..])
  }

  /** Where the run of digits that ends just before `j` begins. */
  function DigitRunStart(s: string, j: nat): (k: nat)
    requires j <= |s|
    ensures k <= j
    ensures forall m :: k <= m < j ==> IsDigit(s[m])
    ensures k == 0 || !IsDigit(s[k - 1])
  {
    if j > 0 && IsDigit(s[j - 1]) then DigitRunStart(s, j - 1) else j
  }

  /** The suffix test, computed by reading the string backwards from its end. */
  predicate EndsInVersionSegment(s: string) {
    && |s| >= 4
    && s[|s| - 1] == '/'
    && var k := DigitRunStart(s, |s| - 1);
      2 <= k < |s| - 1 && s[k - 1] == 'v' && s[k - 2] == '/'
  }

  lemma EndsInVersionSegmentCorrect(s: string)
    ensures EndsInVersionSegment(s) <==> EndsWithVersionSegment(s)
  {
    if EndsInVersionSegment(s) {
      EndsInVersionSegmentSound(s);
    }
    if EndsWithVersionSegment(s) {
      var i :| 0 <= i <= |s| && IsVersionSegment(s[i..]);
      EndsInVersionSegmentComplete(s, i);
    }
  }

  lemma EndsInVersionSegmentSound(s: string)
    requires EndsInVersionSegment(s)
    ensures IsVersionSegment(s[DigitRunStart(s, |s| - 1) - 2..])
  {
  }

  lemma EndsInVersionSegmentComplete(s: string, i: nat)
    requires i <= |s| && IsVersionSegment(s[i..])
    ensures EndsInVersionSegment(s)
  {
    var k := DigitRunStart(s, |s| - 1);
    forall m | i + 2 <= m < |s| - 1
      ensures IsDigit(s[m])
    {
      assert s[m] == s[i..][m - i];
    }
    assert s[i + 1] == s[i..][1] == 'v';
    assert s[i] == s[i..][0] == '/';
    assert !IsDigit(s[i + 1]);
    assert k == i + 2;
  }

  /** The first end position, at or after `from`, of a prefix that ends in a version segment. */
  function VersionPrefixEnd(path: string, from: nat): (e: Option<nat>)
    requires from <= |path|
    ensures e.Some? ==> from <= e.value <= |path| && EndsInVersionSegment(path[..e.value])
    ensures e.Some? ==> forall j :: from <= j < e.value ==> !EndsInVersionSegment(path[..j])
    ensures e.None? ==> forall j :: from <= j <= |path| ==> !EndsInVersionSegment(path[..j])
    decreases |path| - from
  {
    if EndsInVersionSegment(path[..from]) then Some(from)
    else if from == |path| then None
    else VersionPrefixEnd(path, from + 1)
  }

  /** The path without its leading versioned base path. */
  function StripVersionPrefix(path: string): string {
    match VersionPrefixEnd(path, 0)
    case None => path
    case Some(e) => path[e..]
  }

  /**
   * What is stripped is the shortest prefix that ends in a version segment;
   * when there is none the path is kept whole.
   */
  lemma StripVersionPrefixSpec(path: string)
    ensures EndsWith(path, StripVersionPrefix(path))
    ensures var cut := |path| - |StripVersionPrefix(path)|;
      && (cut > 0 ==> EndsWithVersionSegment(path[..cut]))
      && forall j :: 0 <= j < cut ==> !EndsWithVersionSegment(path[..j])
    ensures StripVersionPrefix(path) == path <==>
      forall j :: 0 <= j <= |path| ==> !EndsWithVersionSegment(path[..j])
  {
    var r := StripVersionPrefix(path);
    forall j | 0 <= j <= |path|
      ensures EndsInVersionSegment(path[..j]) <==> EndsWithVersionSegment(path[..j])
    {
      EndsInVersionSegmentCorrect(path[..j]);
    }
    match VersionPrefixEnd(path, 0)
    case None =>
    case Some(e) =>
      assert path[..e] + r == path;
      assert |r| < |path|;
  }

  /** The search finds the first qualifying end position, whatever it is. */
  lemma {:induction false} VersionPrefixEndFinds(path: string, from: nat, e: nat)
    requires from <= e <= |path|
    requires EndsInVersionSegment(path[..e])
    requires forall j :: from <= j < e ==> !EndsInVersionSegment(path[..j])
    ensures VersionPrefixEnd(path, from) == Some(e)
    decreases e - from
  {
    if from < e {
      VersionPrefixEndFinds(path, from + 1, e);
    }
  }

  /**
   * A base path with no letter `v`, then a version segment: exactly that much is
   * stripped, e.g. "/umbraco/management/api" + "/v1/" + "tracked-reference/{id}".
   */
  lemma StripVersionPrefixOfBase(base: string, segment: string, rest: string)
    requires forall i :: 0 <= i < |base| ==> base[i] != 'v'
    requires IsVersionSegment(segment)
    ensures StripVersionPrefix(base + segment + rest) == rest
  {
    var path := base + segment + rest;
    var e := |base| + |segment|;
    assert path[..e] == base + segment;
    assert path[..e][|base|..] == segment;
    EndsInVersionSegmentCorrect(path[..e]);
    forall j | 0 <= j < e
      ensures !EndsInVersionSegment(path[..j])
    {
    }
    VersionPrefixEndFinds(path, 0, e);
    assert path[e..] == rest;
  }

  // ---------------------------------------------------------------------------
  // Template placeholders
  // ---------------------------------------------------------------------------

  predicate BraceFree(s: string) {
    forall i :: 0 <= i < |s| ==> s[i] != '{' && s[i] != '}'
  }

  /** The position of the `}` that closes a placeholder whose name starts at the head of `s`, if any. */
  function ClosingBrace(s: string): (n: Option<nat>)
    ensures n.Some? ==> n.value < |s| && s[n.value] == '}'
  {
    if s == [] then None
    else if s[0] == '}' then Some(0)
    else if s[0] == '{' then None
    else
      match ClosingBrace(s[1..])
      case None => None
      case Some(n) => Some(n + 1)
  }

  /**
   * The closing brace found is the first `}` and the name before it is brace-free;
   * when none is found, every `}` has a brace before it.
   */
  lemma {:induction false} ClosingBraceSpec(s: string)
    ensures ClosingBrace(s).Some? ==> BraceFree(s[..ClosingBrace(s).value])
    ensures ClosingBrace(s).None? ==> forall m :: 0 <= m < |s| && s[m] == '}' ==> !BraceFree(s[..m])
    decreases |s|
  {
    if s == [] || s[0] == '}' {
    } else if s[0] == '{' {
      assert forall m :: 0 < m < |s| ==> s[..m][0] == '{';
    } else {
      ClosingBraceSpec(s[1..]);
      match ClosingBrace(s[1..])
      case None =>
        assert forall m :: 0 < m < |s| ==> s[1..][m - 1] == s[m] && s[1..][..m - 1] == s[..m][1..];
      case Some(n) =>
        assert s[..n + 1] == [s[0]] + s[1..][..n];
    }
  }

  /** A piece of a route template: one character kept as it is, or a `{name}` placeholder. */
  datatype Piece = Text(c: char) | Placeholder(name: string)

  /** Splits a route template into pieces, recognising placeholders from left to right. */
  function Tokenize(s: string): seq<Piece>
    decreases |s|
  {
    if s == [] then []
    else if s[0] == '{' && ClosingBrace(s[1..]).Some? then
      var n := ClosingBrace(s[1..]).value;
      [Placeholder(s[1..n + 1])] + Tokenize(s[n + 2..])
    else [Text(s[0])] + Tokenize(s[1..])
  }

  /** The text a piece was read from. */
  function PieceSource(p: Piece): string {
    match p
    case Text(c) => [c]
    case Placeholder(name) => "{" + name + "}"
  }

  /** What a piece becomes: a placeholder turns into "By" and its name with the first letter upper-cased. */
  function PieceRewrite(p: Piece): string {
    match p
    case Text(c) => [c]
    case Placeholder(name) => "By" + ToFirstUpper(name)
  }

  function Source(ps: seq<Piece>): string {
    if ps == [] then [] else PieceSource(ps[0]) + Source(ps[1..])
  }

  function Rewrite(ps: seq<Piece>): string {
    if ps == [] then [] else PieceRewrite(ps[0]) + Rewrite(ps[1..])
  }

  /**
   * Pieces as the left-to-right scan produces them: placeholder names are free of
   * braces, and a `{` is kept as text only when no placeholder could start there.
   */
  predicate WellFormed(ps: seq<Piece>) {
    forall i :: 0 <= i < |ps| ==> PieceFits(ps[i], ps[i + 1..])
  }

  predicate PieceFits(p: Piece, after: seq<Piece>) {
    && (p.Placeholder? ==> BraceFree(p.name))
    && (p == Text('{') ==> ClosingBrace(Source(after)).None?)
  }

  /** Replaces each `{name}` placeholder of a path by `By` + `Name`. */
  function RewritePlaceholders(path: string): string {
    Rewrite(Tokenize(path))
  }

  lemma WellFormedCons(p: Piece, ps: seq<Piece>)
    ensures WellFormed([p] + ps) <==> PieceFits(p, ps) && WellFormed(ps)
  {
    var all := [p] + ps;
    assert all[0] == p && all[1..] == ps;
    if WellFormed(all) {
      assert PieceFits(all[0], all[1..]);
      forall i | 0 <= i < |ps|
        ensures PieceFits(ps[i], ps[i + 1..])
      {
        assert all[i + 1] == ps[i] && all[i + 2..] == ps[i + 1..];
        assert PieceFits(all[i + 1], all[i + 2..]);
      }
    }
    if PieceFits(p, ps) && WellFormed(ps) {
      forall i | 0 <= i < |all|
        ensures PieceFits(all[i], all[i + 1..])
      {
        if i > 0 {
          assert all[i] == ps[i - 1] && all[i + 1..] == ps[i..];
        }
      }
    }
  }

  /** The pieces cover the template exactly: nothing is lost, added or reordered, and the scan is well formed. */
  lemma {:induction false} TokenizeCovers(s: string)
    ensures Source(Tokenize(s)) == s
    ensures WellFormed(Tokenize(s))
    decreases |s|
  {
    if s != [] {
      var p, k := TokenizeStep(s);
      var rest := Tokenize(s[k..]);
      TokenizeCovers(s[k..]);
      SourceCons(p, rest);
      WellFormedCons(p, rest);
    }
  }

  lemma SourceCons(p: Piece, ps: seq<Piece>)
    ensures Source([p] + ps) == PieceSource(p) + Source(ps)
  {
    assert ([p] + ps)[0] == p && ([p] + ps)[1..] == ps;
  }

  /** One step of the scan: the first piece, the text it was read from, and where the scan resumes. */
  lemma TokenizeStep(s: string) returns (p: Piece, k: nat)
    requires s != []
    ensures 0 < k <= |s|
    ensures s == PieceSource(p) + s[k..]
    ensures Tokenize(s) == [p] + Tokenize(s[k..])
    ensures p.Placeholder? ==> BraceFree(p.name)
    ensures p == Text('{') ==> ClosingBrace(s[k..]).None?
  {
    if s[0] == '{' && ClosingBrace(s[1..]).Some? {
      var n := ClosingBrace(s[1..]).value;
      TokenizePlaceholderStep(s, n);
      p, k := Placeholder(s[1..n + 1]), n + 2;
      assert s == s[..k] + s[k..];
    } else {
      p, k := Text(s[0]), 1;
      assert s == [s[0]] + s[1..];
    }
  }

  lemma TokenizePlaceholderStep(s: string, n: nat)
    requires s != [] && s[0] == '{' && ClosingBrace(s[1..]) == Some(n)
    ensures n + 2 <= |s|
    ensures Tokenize(s) == [Placeholder(s[1..n + 1])] + Tokenize(s[n + 2..])
    ensures s[..n + 2] == "{" + s[1..n + 1] + "}"
    ensures BraceFree(s[1..n + 1])
  {
    PlaceholderText(s, n);
  }

  lemma PlaceholderText(s: string, n: nat)
    requires s != [] && s[0] == '{' && ClosingBrace(s[1..]) == Some(n)
    ensures n + 2 <= |s|
    ensures s[..n + 2] == "{" + s[1..n + 1] + "}"
    ensures BraceFree(s[1..n + 1])
  {
    ClosingBraceSpec(s[1..]);
    assert s[1..][..n] == s[1..n + 1];
    assert s[n + 1] == s[1..][n];
  }

  /** A brace-free name followed by `}` is closed right there. */
  lemma {:induction false} ClosingBraceAfterName(name: string, rest: string)
    requires BraceFree(name)
    ensures ClosingBrace(name + "}" + rest) == Some(|name|)
    decreases |name|
  {
    if name != [] {
      assert BraceFree(name[1..]);
      ClosingBraceAfterName(name[1..], rest);
      assert (name + "}" + rest)[1..] == name[1..] + "}" + rest;
    }
  }

  /** Well-formed pieces are the ones the scan finds: the decomposition is unique. */
  lemma {:induction false} TokenizeUnique(ps: seq<Piece>)
    requires WellFormed(ps)
    ensures Tokenize(Source(ps)) == ps
    decreases |ps|
  {
    if ps != [] {
      var rest := ps[1..];
      assert ps == [ps[0]] + rest;
      WellFormedCons(ps[0], rest);
      TokenizeUnique(rest);
      var s := Source(ps);
      match ps[0]
      case Text(c) =>
        assert s == [c] + Source(rest);
        assert s[1..] == Source(rest);
      case Placeholder(name) =>
        assert s == "{" + name + "}" + Source(rest);
        assert s[1..] == name + "}" + Source(rest);
        ClosingBraceAfterName(name, Source(rest));
        assert s[1..|name| + 1] == name;
        assert s[|name| + 2..] == Source(rest);
    }
  }

  lemma RewriteCons(p: Piece, ps: seq<Piece>)
    ensures Rewrite([p] + ps) == PieceRewrite(p) + Rewrite(ps)
  {
    assert ([p] + ps)[0] == p && ([p] + ps)[1..] == ps;
  }

  /** One step of the rewrite on a character that cannot open a placeholder. */
  lemma RewritePlaceholdersText(c: char, t: string)
    requires c != '{'
    ensures RewritePlaceholders([c] + t) == [c] + RewritePlaceholders(t)
  {
    var s := [c] + t;
    assert s[0] == c && s[1..] == t;
    RewriteCons(Text(c), Tokenize(t));
  }

  /** Text without a `{` passes through the rewrite unchanged. */
  lemma {:induction false} RewritePlaceholdersKeepsText(text: string, rest: string)
    requires forall i :: 0 <= i < |text| ==> text[i] != '{'
    ensures RewritePlaceholders(text + rest) == text + RewritePlaceholders(rest)
    decreases |text|
  {
    if text == [] {
      assert text + rest == rest;
    } else {
      RewritePlaceholdersKeepsText(text[1..], rest);
      RewritePlaceholdersKeepsChar(text, rest);
    }
  }

  /** The inductive step: the first character of the text is kept in front of the rest's rewrite. */
  lemma RewritePlaceholdersKeepsChar(text: string, rest: string)
    requires text != [] && text[0] != '{'
    requires RewritePlaceholders(text[1..] + rest) == text[1..] + RewritePlaceholders(rest)
    ensures RewritePlaceholders(text + rest) == text + RewritePlaceholders(rest)
  {
    ConsAppend(text, rest);
    RewritePlaceholdersText(text[0], text[1..] + rest);
    ConsAppend(text, RewritePlaceholders(rest));
  }

  /** A placeholder at the head of the text becomes "By" + its capitalised name. */
  lemma RewritePlaceholdersHead(name: string, rest: string)
    requires BraceFree(name)
    ensures RewritePlaceholders("{" + name + "}" + rest) == "By" + ToFirstUpper(name) + RewritePlaceholders(rest)
  {
    var s := "{" + name + "}" + rest;
    assert s[1..] == name + "}" + rest;
    ClosingBraceAfterName(name, rest);
    assert s[1..|name| + 1] == name;
    assert s[|name| + 2..] == rest;
    assert Tokenize(s) == [Placeholder(name)] + Tokenize(rest);
    assert ([Placeholder(name)] + Tokenize(rest))[1..] == Tokenize(rest);
  }

  // ---------------------------------------------------------------------------
  // Camel-casing
  // ---------------------------------------------------------------------------

  predicate IsSeparator(c: char) { c == '-' || c == '/' }

  predicate SeparatorFree(s: string) {
    forall i :: 0 <= i < |s| ==> !IsSeparator(s[i])
  }

  predicate NoAdjacentSeparators(s: string) {
    forall i :: 0 <= i < |s| - 1 ==> !IsSeparator(s[i]) || !IsSeparator(s[i + 1])
  }

  /** Drops each `-` or `/` that has a character after it and upper-cases that character. */
  function CamelCase(s: string): (r: string)
    ensures |r| <= |s|
  {
    if |s| >= 2 && IsSeparator(s[0]) then [ToUpperChar(s[1])] + CamelCase(s[2..])
    else if s == [] then []
    else [s[0]] + CamelCase(s[1..])
  }

  /** One step of camel-casing on a character that is not a separator. */
  lemma CamelCaseKeep(c: char, t: string)
    requires !IsSeparator(c)
    ensures CamelCase([c] + t) == [c] + CamelCase(t)
  {
    assert ([c] + t)[1..] == t;
  }

  /** One step of camel-casing on a separator and the character after it. */
  lemma CamelCaseDrop(sep: char, c: char, t: string)
    requires IsSeparator(sep)
    ensures CamelCase([sep, c] + t) == [ToUpperChar(c)] + CamelCase(t)
  {
    assert ([sep, c] + t)[2..] == t;
  }

  /** A separator-free stretch at the front passes through unchanged. */
  lemma {:induction false} CamelCaseKeepsWord(w: string, rest: string)
    requires SeparatorFree(w)
    ensures CamelCase(w + rest) == w + CamelCase(rest)
    decreases |w|
  {
    if w == [] {
      assert w + rest == rest;
    } else {
      ConsAppend(w, rest);
      CamelCaseKeep(w[0], w[1..] + rest);
      CamelCaseKeepsWord(w[1..], rest);
      ConsAppend(w, CamelCase(rest));
    }
  }

  /** A separator and a non-empty separator-free word: the separator goes, the word is capitalised. */
  lemma CamelCaseCapitalizesWord(sep: char, w: string, rest: string)
    requires IsSeparator(sep) && w != [] && SeparatorFree(w)
    ensures CamelCase([sep] + w + rest) == ToFirstUpper(w) + CamelCase(rest)
  {
    assert [sep] + w + rest == [sep, w[0]] + (w[1..] + rest);
    CamelCaseDrop(sep, w[0], w[1..] + rest);
    CamelCaseKeepsWord(w[1..], rest);
  }

  /** The path spelled from words, each after its separator. */
  function Spelled(words: seq<(char, string)>): string {
    if words == [] then [] else [words[0].0] + words[0].1 + Spelled(words[1..])
  }

  /** The camel-cased name: each word with its first letter upper-cased, separators gone. */
  function Capitalized(words: seq<(char, string)>): string {
    if words == [] then [] else ToFirstUpper(words[0].1) + Capitalized(words[1..])
  }

  predicate ProperWords(words: seq<(char, string)>) {
    forall i :: 0 <= i < |words| ==>
      IsSeparator(words[i].0) && words[i].1 != [] && SeparatorFree(words[i].1)
  }

  lemma {:induction false} CamelCaseOfSpelled(words: seq<(char, string)>)
    requires ProperWords(words)
    ensures CamelCase(Spelled(words)) == Capitalized(words)
    decreases |words|
  {
    if words != [] {
      var (sep, w) := words[0];
      assert ProperWords(words[1..]) by {
        forall i | 0 <= i < |words| - 1 ensures words[1..][i] == words[i + 1] { }
      }
      CamelCaseOfSpelled(words[1..]);
      CamelCaseCapitalizesWord(sep, w, Spelled(words[1..]));
    }
  }

  /**
   * Camel-casing, stated against words: a separator-free first word followed by
   * non-empty words each after one separator comes out as the first word and
   * the others capitalised, e.g. "tracked-reference/ById" -> "trackedReferenceById".
   */
  lemma CamelCaseOfWords(first: string, words: seq<(char, string)>)
    requires SeparatorFree(first) && ProperWords(words)
    ensures CamelCase(first + Spelled(words)) == first + Capitalized(words)
  {
    CamelCaseKeepsWord(first, Spelled(words));
    CamelCaseOfSpelled(words);
  }

  /**
   * When no two separators are adjacent, no separator survives except possibly
   * a trailing one, which has no character after it.
   */
  lemma {:induction false} CamelCaseLeavesNoInnerSeparator(s: string)
    requires NoAdjacentSeparators(s)
    ensures var r := CamelCase(s); forall i :: 0 <= i < |r| - 1 ==> !IsSeparator(r[i])
    decreases |s|
  {
    var r := CamelCase(s);
    if s != [] {
      var k := if |s| >= 2 && IsSeparator(s[0]) then 2 else 1;
      var t := s[k..];
      assert NoAdjacentSeparators(t) by {
        forall i | 0 <= i < |t| - 1
          ensures !IsSeparator(t[i]) || !IsSeparator(t[i + 1])
        {
          assert t[i] == s[i + k] && t[i + 1] == s[i + k + 1];
        }
      }
      CamelCaseLeavesNoInnerSeparator(t);
      assert r == [r[0]] + CamelCase(t);
      if k == 1 && IsSeparator(s[0]) {
        assert |s| == 1 && t == [] && |r| == 1;
      }
      forall i | 0 <= i < |r| - 1
        ensures !IsSeparator(r[i])
      {
        if i > 0 {
          assert r[i] == CamelCase(t)[i - 1];
        }
      }
    }
  }

  // ---------------------------------------------------------------------------
  // The operation ID
  // ---------------------------------------------------------------------------

  const NoRelativePathMessage := "There is no relative path for controller action "

  /** The name built from a relative path: version prefix gone, placeholders and separators rewritten. */
  function FormattedPath(relativePath: string): string {
    CamelCase(RewritePlaceholders(StripVersionPrefix(relativePath)))
  }

  /** The operation ID Swagger gets for an action, or the exception raised for it. */
  function OperationId(api: ApiDescription): (r: Result<string, Failure>)
    ensures r.Success? <==> !IsNullOrWhiteSpace(RouteName(api)) || !IsNullOrWhiteSpace(api.relativePath)
    ensures r.Success? ==> StartsWithIgnoreCase(r.value, NormalizeVerb(api.httpMethod))
    ensures !IsNullOrWhiteSpace(RouteName(api)) ==>
      r == Success(ExplicitOperationId(NormalizeVerb(api.httpMethod), RouteName(api).value))
    ensures IsNullOrWhiteSpace(RouteName(api)) && r.Success? ==>
      r.value == NormalizeVerb(api.httpMethod) + ToFirstUpper(FormattedPath(api.relativePath.value))
    ensures r.Failure? && "controller" in api.routeValues ==>
      r.error == NoRelativePath(NoRelativePathMessage + Interpolated(api.routeValues["controller"]))
    ensures r.Failure? && "controller" !in api.routeValues ==> r.error == KeyNotFound("controller")
  {
    var verb := NormalizeVerb(api.httpMethod);
    var name := RouteName(api);
    if !IsNullOrWhiteSpace(name) then
      Success(ExplicitOperationId(verb, name.value))
    else if IsNullOrWhiteSpace(api.relativePath) then
      match RouteValue(api, "controller")
      case Success(controller) =>
        Failure(NoRelativePath(NoRelativePathMessage + Interpolated(controller)))
      case Failure(e) => Failure(e)
    else
      StartsWithIgnoreCaseAppend(verb, ToFirstUpper(FormattedPath(api.relativePath.value)));
      Success(verb + ToFirstUpper(FormattedPath(api.relativePath.value)))
  }

  // ---------------------------------------------------------------------------
  // Worked examples
  // ---------------------------------------------------------------------------

  /** An action whose only route information is a relative path (no attribute route). */
  function PathOnly(httpMethod: Option<string>, relativePath: Option<string>): ApiDescription {
    ApiDescription(httpMethod, relativePath, Some("Tracked Reference"), None, map["controller" := Some("TrackedReference")])
  }

  /** An action with an explicit route name. */
  function Named(httpMethod: Option<string>, name: string, relativePath: Option<string>): ApiDescription {
    ApiDescription(httpMethod, relativePath, Some("Tracked Reference"),
      Some(AttributeRouteInfo(Some(name), Some("tracked-reference/{id}"))), map["controller" := Some("TrackedReference")])
  }

  /** The verb of three sample requests. */
  lemma NormalizeVerbExamples()
    ensures NormalizeVerb(Some("POST")) == "Post"
    ensures NormalizeVerb(Some("get")) == "Get"
    ensures NormalizeVerb(None) == "Get"
  {
    assert ToLower("POST") == "post";
    assert ToLower("get") == "get";
  }

  /**
   * The worked example, with the path written as base path, version segment and rest:
   * "/umbraco/management/api/v1/tracked-reference/{id}" becomes "tracked-reference/{id}".
   */
  lemma StripVersionPrefixExample(path: string)
    requires path == "/umbraco/management/api" + "/v1/" + "tracked-reference/{id}"
    ensures StripVersionPrefix(path) == "tracked-reference/{id}"
  {
    var base, segment, rest := "/umbraco/management/api", "/v1/", "tracked-reference/{id}";
    ExampleBaseHasNoV(base);
    ExampleSegment(segment);
    StripVersionPrefixOfBase(base, segment, rest);
  }

  /** The worked example: "tracked-reference/{id}" becomes "tracked-reference/ById". */
  lemma RewritePlaceholdersExample(template: string)
    requires template == "tracked-reference/{id}"
    ensures RewritePlaceholders(template) == "tracked-reference/ById"
  {
    var text, name := "tracked-reference/", "id";
    var placeholder := "{" + name + "}";
    assert template == text + placeholder;
    RewritePlaceholdersKeepsText(text, placeholder);
    assert placeholder == "{" + name + "}" + "";
    RewritePlaceholdersHead(name, "");
    assert RewritePlaceholders("") == "";
    assert text + ("By" + ToFirstUpper(name) + "") == "tracked-reference/ById";
  }

  /** The worked example: "tracked-reference/ById" camel-cases to "trackedReferenceById". */
  lemma CamelCaseExample(text: string)
    requires text == "tracked-reference/ById"
    ensures CamelCase(text) == "trackedReferenceById"
  {
    var w0, w1, w2 := ExampleWords(text);
    CamelCaseThreeWords(w0, '-', w1, '/', w2);
  }

  /** The three rewrites of the worked example, one after the other. */
  lemma FormattedPathExample(path: string)
    requires path == "/umbraco/management/api" + "/v1/" + "tracked-reference/{id}"
    ensures FormattedPath(path) == "trackedReferenceById"
  {
    StripVersionPrefixExample(path);
    var unprefixed := StripVersionPrefix(path);
    RewritePlaceholdersExample(unprefixed);
    CamelCaseExample(RewritePlaceholders(unprefixed));
  }

  /** The worked example: "/umbraco/management/api/v1/tracked-reference/{id}" gives "GetTrackedReferenceById". */
  lemma OperationIdFromPathExample(httpMethod: string, path: string)
    requires httpMethod == "GET" && path == "/umbraco/management/api" + "/v1/" + "tracked-reference/{id}"
    ensures OperationId(PathOnly(Some(httpMethod), Some(path))) == Success("GetTrackedReferenceById")
  {
    var api := PathOnly(Some(httpMethod), Some(path));
    assert !IsNullOrWhiteSpace(api.relativePath) by {
      assert path[0] == '/';
    }
    FormattedPathExample(path);
    GetVerb(httpMethod);
    AssemblyExample(FormattedPath(path));
  }

  /** An explicit name is prefixed with the verb. */
  lemma OperationIdExplicitExample(httpMethod: string, name: string)
    requires httpMethod == "GET" && name == "MyCustomRoute"
    ensures OperationId(Named(Some(httpMethod), name, None)) == Success("GetMyCustomRoute")
  {
    GetVerb(httpMethod);
    UnprefixedName(name);
    var api := Named(Some(httpMethod), name, None);
    assert RouteName(api) == Some(name);
  }

  /** A name that already starts with the verb, in any letter case, is kept as it is. */
  lemma OperationIdPrefixedNameExample(httpMethod: string, name: string)
    requires httpMethod == "GET" && name == "getMyCustomRoute"
    ensures OperationId(Named(Some(httpMethod), name, None)) == Success(name)
  {
    GetVerb(httpMethod);
    var api := Named(Some(httpMethod), name, None);
    assert RouteName(api) == Some(name);
    assert !IsWhiteSpace(name[0]);
    assert StartsWithIgnoreCase(name, "Get");
  }

  /** A blank name does not count as explicit; without a relative path the derivation throws. */
  lemma OperationIdBlankNameExample(name: string)
    requires name == " "
    ensures OperationId(Named(None, name, None)) ==
      Failure(NoRelativePath("There is no relative path for controller action TrackedReference"))
  {
    var api := Named(None, name, None);
    assert RouteName(api) == Some(name);
    assert IsNullOrWhiteSpace(RouteName(api));
    assert NoRelativePathMessage + "TrackedReference" == "There is no relative path for controller action TrackedReference";
  }

  // ---------------------------------------------------------------------------
  // Literal facts for the worked examples
  //
  // The members below model nothing of their own: each pins down one fact about
  // the example literals, so that the worked examples above stay small enough for
  // the solver.
  // ---------------------------------------------------------------------------

  lemma GetVerb(httpMethod: string)
    requires httpMethod == "GET"
    ensures NormalizeVerb(Some(httpMethod)) == "Get"
  {
    assert ToLower(httpMethod) == "get";
  }

  lemma ExampleBaseHasNoV(base: string)
    requires base == "/umbraco/management/api"
    ensures forall i :: 0 <= i < |base| ==> base[i] != 'v'
  {
  }

  lemma ExampleSegment(segment: string)
    requires segment == "/v1/"
    ensures IsVersionSegment(segment)
  {
  }

  /** The words of the worked example. */
  lemma ExampleWords(text: string) returns (w0: string, w1: string, w2: string)
    requires text == "tracked-reference/ById"
    ensures text == w0 + (['-'] + w1 + (['/'] + w2))
    ensures SeparatorFree(w0) && SeparatorFree(w1) && SeparatorFree(w2) && w1 != [] && w2 != []
    ensures w0 + (ToFirstUpper(w1) + ToFirstUpper(w2)) == "trackedReferenceById"
  {
    w0, w1, w2 := "tracked", "reference", "ById";
    assert ToFirstUpper(w1) == "Reference";
  }

  /** Three words joined by two separators: the separators go and the later words are capitalised. */
  lemma CamelCaseThreeWords(w0: string, sep1: char, w1: string, sep2: char, w2: string)
    requires SeparatorFree(w0) && SeparatorFree(w1) && SeparatorFree(w2)
    requires IsSeparator(sep1) && IsSeparator(sep2) && w1 != [] && w2 != []
    ensures CamelCase(w0 + ([sep1] + w1 + ([sep2] + w2))) == w0 + (ToFirstUpper(w1) + ToFirstUpper(w2))
  {
    var r2 := [sep2] + w2;
    assert r2 + [] == r2;
    CamelCaseCapitalizesWord(sep2, w2, []);
    CamelCaseCapitalizesWord(sep1, w1, r2);
    CamelCaseKeepsWord(w0, [sep1] + w1 + r2);
  }

  /** The last step of the worked example: the verb in front of the capitalised name. */
  lemma AssemblyExample(formatted: string)
    requires formatted == "trackedReferenceById"
    ensures "Get" + ToFirstUpper(formatted) == "GetTrackedReferenceById"
  {
    var head, tail := "t", "rackedReferenceById";
    assert formatted == head + tail;
    assert formatted[1..] == tail;
    ConcatExample(ToFirstUpper(formatted));
  }

  lemma ConcatExample(capitalized: string)
    requires capitalized == "TrackedReferenceById"
    ensures "Get" + capitalized == "GetTrackedReferenceById"
  {
  }

  /** The name of the explicit-name example: not blank and not starting with the verb. */
  lemma UnprefixedName(name: string)
    requires name == "MyCustomRoute"
    ensures !IsNullOrWhiteSpace(Some(name))
    ensures !StartsWithIgnoreCase(name, "Get")
    ensures "Get" + name == "GetMyCustomRoute"
  {
    assert !IsWhiteSpace(name[0]);
    assert ToLowerChar(name[0]) != ToLowerChar("Get"[0]);
  }
}
