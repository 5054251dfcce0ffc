/** The file-name sanitiser `clean_filename`: every maximal run of
    whitespace becomes one `_`, then every character outside a fixed
    allowed set is dropped. */
module Sanitizer {

  /** The upper-case letters the source lists: A-Z, then its accented capitals. */
  const AsciiCapitals: string := "ABCDEFGHIJKLMNOPQRSTUVWXYZ"
  const AccentedCapitals: string := "ÀÈÌÒÙÁÉÍÓÚÝÂÊÎÔÛÄËÏÖÜŸÃÑÕÅÆŒÇÐØ"
  const Extras: string := "1234567890-_.ß"

  /** Python's `str.lower` on the letters above: A-Z and the Latin-1
      capitals U+00C0..U+00DE move up by 0x20; Œ and Ÿ lie outside
      Latin-1 and have their own lower-case forms. */
  function ToLower(c: char): (r: char) {
    if 'A' <= c <= 'Z' || ('\U{C0}' <= c <= '\U{DE}' && c != '\U{D7}') then (c as int + 0x20) as char
    else if c == 'Œ' then 'œ'
    else if c == 'Ÿ' then 'ÿ'
    else c
  }

  function Lower(s: string): (r: string) {
    seq(|s|, i requires 0 <= i < |s| => ToLower(s[i]))
  }

  /** `good_character` as the source builds it: the capitals, their
      lower-case forms, then the digits, `-`, `_`, `.` and `ß`. */
  const GoodCharacters: string :=
    var upper := AsciiCapitals + AccentedCapitals;
    upper + Lower(upper) + Extras

  /** The allowed set, written out as code-point ranges: A-Z and a-z; the
      Latin-1 letters U+00C0..U+00FF except ×, ÷, Þ and þ (ß, U+00DF,
      is among them); Œ, œ and Ÿ; the digits, `-`, `_` and `.`. */
  predicate IsAllowed(c: char) {
    || 'A' <= c <= 'Z' || 'a' <= c <= 'z'
    || '\U{C0}' <= c <= '\U{D6}' || '\U{D8}' <= c <= '\U{DD}' || c == '\U{DF}'
    || '\U{E0}' <= c <= '\U{F6}' || '\U{F8}' <= c <= '\U{FD}' || c == '\U{FF}'
    || c == 'Œ' || c == 'œ' || c == 'Ÿ'
    || '0' <= c <= '9' || c == '-' || c == '_' || c == '.'
  }

  lemma AsciiCapitalsRange(c: char)
    ensures c in AsciiCapitals <==> 'A' <= c <= 'Z'
  {
  }

  lemma AccentedCapitalsRange(c: char)
    ensures c in AccentedCapitals <==>
      '\U{C0}' <= c <= '\U{D6}' || '\U{D8}' <= c <= '\U{DD}' || c == 'Œ' || c == 'Ÿ'
  {
  }

  const AsciiSmall: string := "abcdefghijklmnopqrstuvwxyz"
  const AccentedSmall: string := "àèìòùáéíóúýâêîôûäëïöüÿãñõåæœçðø"

  lemma LowerConcat(a: string, b: string)
    ensures Lower(a + b) == Lower(a) + Lower(b)
  {
  }

  lemma LowerAscii()
    ensures Lower(AsciiCapitals) == AsciiSmall
  {
    LowerConcat("ABCDEFGHIJKLM", "NOPQRSTUVWXYZ");
    LowerWord("ABCDEFGHIJKLM", "abcdefghijklm");
    LowerWord("NOPQRSTUVWXYZ", "nopqrstuvwxyz");
  }

  lemma LowerAccented()
    ensures Lower(AccentedCapitals) == AccentedSmall
  {
    LowerConcat("ÀÈÌÒÙÁÉÍÓÚÝÂÊÎÔÛ", "ÄËÏÖÜŸÃÑÕÅÆŒÇÐØ");
    LowerWord("ÀÈÌÒÙÁÉÍÓÚÝÂÊÎÔÛ", "àèìòùáéíóúýâêîôû");
    LowerWord("ÄËÏÖÜŸÃÑÕÅÆŒÇÐØ", "äëïöüÿãñõåæœçðø");
  }

  /** Lower-casing one word, position by position. */
  lemma LowerWord(upper: string, lower: string)
    requires |upper| == |lower|
    requires forall i :: 0 <= i < |upper| ==> ToLower(upper[i]) == lower[i]
    ensures Lower(upper) == lower
  {
  }

  lemma AsciiSmallRange(c: char)
    ensures c in Lower(AsciiCapitals) <==> 'a' <= c <= 'z'
  {
    LowerAscii();
  }

  lemma AccentedSmallRange(c: char)
    ensures c in Lower(AccentedCapitals) <==>
      '\U{E0}' <= c <= '\U{F6}' || '\U{F8}' <= c <= '\U{FD}' || c == 'œ' || c == '\U{FF}'
  {
    LowerAccented();
  }

  lemma ExtrasRange(c: char)
    ensures c in Extras <==> '0' <= c <= '9' || c == '-' || c == '_' || c == '.' || c == '\U{DF}'
  {
  }

  lemma InConcat(c: char, a: string, b: string, e: string)
    ensures c in a + b + e <==> c in a || c in b || c in e
  {
  }

  /** IsAllowed is exactly membership in the string the source builds. */
  lemma GoodCharactersAreAllowed(c: char)
    ensures c in GoodCharacters <==> IsAllowed(c)
  {
    LowerConcat(AsciiCapitals, AccentedCapitals);
    InConcat(c, AsciiCapitals + AccentedCapitals, Lower(AsciiCapitals) + Lower(AccentedCapitals), Extras);
    AsciiCapitalsRange(c);
    AccentedCapitalsRange(c);
    AsciiSmallRange(c);
    AccentedSmallRange(c);
    ExtrasRange(c);
  }

  /** The characters `\s` matches in a Python `str` pattern (those for
      which `str.isspace` holds). */
  predicate IsWhitespace(c: char) {
    || '\t' <= c <= '\r'
    || '\U{1C}' <= c <= ' '
    || c == '\U{85}' || c == '\U{A0}' || c == '\U{1680}'
    || '\U{2000}' <= c <= '\U{200A}'
    || c == '\U{2028}' || c == '\U{2029}' || c == '\U{202F}' || c == '\U{205F}' || c == '\U{3000}'
  }

  /** No allowed character is whitespace. */
  lemma AllowedCharacters(c: char)
    ensures IsAllowed(c) ==> !IsWhitespace(c)
  {
  }

  predicate AllAllowed(s: string) {
    forall i :: 0 <= i < |s| ==> IsAllowed(s[i])
  }

  predicate NoWhitespace(s: string) {
    forall i :: 0 <= i < |s| ==> !IsWhitespace(s[i])
  }

  /** `s` without its leading whitespace. */
  function SkipWhitespace(s: string): (r: string)
    ensures |r| <= |s| && r == s[|s| - |r|..]
    ensures r == [] || !IsWhitespace(r[0])
    ensures s != [] && IsWhitespace(s[0]) ==> |r| < |s|
    ensures forall i :: 0 <= i < |s| - |r| ==> IsWhitespace(s[i])
  {
    if s != [] && IsWhitespace(s[0]) then
      var r := SkipWhitespace(s[1..]);
      assert forall i :: 1 <= i < |s| - |r| ==> s[i] == s[1..][i - 1];
      r
    else s
  }

  /** `re.sub(r"\s+", '_', s)`: each maximal whitespace run, found left to
      right, is replaced by a single `_`. */
  function CollapseWhitespace(s: string): (r: string)
    ensures |r| <= |s|
    ensures NoWhitespace(r)
    decreases |s|
  {
    if s == [] then []
    else if IsWhitespace(s[0]) then
      var rest := CollapseWhitespace(SkipWhitespace(s));
      NoWhitespaceCons('_', rest);
      "_" + rest
    else
      var rest := CollapseWhitespace(s[1..]);
      NoWhitespaceCons(s[0], rest);
      [s[0]] + rest
  }

  lemma NoWhitespaceCons(c: char, r: string)
    requires !IsWhitespace(c) && NoWhitespace(r)
    ensures NoWhitespace([c] + r)
  {
    assert forall i :: 1 <= i < |r| + 1 ==> ([c] + r)[i] == r[i - 1];
  }

  /** The join over the generator: allowed characters kept in order, the
      rest dropped. */
  function KeepAllowed(s: string): (r: string)
    ensures |r| <= |s| && AllAllowed(r)
  {
    if s == [] then []
    else (if IsAllowed(s[0]) then [s[0]] else []) + KeepAllowed(s[1..])
  }

  /** `clean_filename`. */
  function CleanFilename(s: string): (r: string)
    ensures |r| <= |s|
    ensures AllAllowed(r) && NoWhitespace(r)
  {
    var r := KeepAllowed(CollapseWhitespace(s));
    forall i | 0 <= i < |r| ensures !IsWhitespace(r[i]) {
      AllowedCharacters(r[i]);
    }
    r
  }

  /** An independent, character-by-character reading of the sanitiser: a
      whitespace character yields `_` exactly when it does not follow
      another whitespace character, any other character is kept exactly
      when it is allowed. `afterSpace` says whether the preceding input
      character was whitespace. */
  function CleanByCharacter(s: string, afterSpace: bool): (r: string) {
    if s == [] then []
    else
      (if IsWhitespace(s[0]) then (if afterSpace then [] else "_")
       else if IsAllowed(s[0]) then [s[0]] else [])
      + CleanByCharacter(s[1..], IsWhitespace(s[0]))
  }

  lemma {:induction false} KeepAllowedConcat(a: string, b: string)
    ensures KeepAllowed(a + b) == KeepAllowed(a) + KeepAllowed(b)
  {
    if a != [] {
      assert (a + b)[0] == a[0] && (a + b)[1..] == a[1..] + b;
      KeepAllowedConcat(a[1..], b);
    } else {
      assert a + b == b;
    }
  }

  /** Inside a whitespace run the character reading emits nothing until the run ends. */
  lemma {:induction false} ByCharacterSkipsRun(s: string)
    ensures CleanByCharacter(s, true) == CleanByCharacter(SkipWhitespace(s), false)
  {
    if s != [] && IsWhitespace(s[0]) {
      ByCharacterSkipsRun(s[1..]);
    }
  }

  /** The sanitiser and its character-by-character reading agree on every input. */
  lemma {:induction false} CleanMatchesByCharacter(s: string)
    ensures CleanFilename(s) == CleanByCharacter(s, false)
    decreases |s|
  {
    if s != [] {
      if IsWhitespace(s[0]) {
        var t := SkipWhitespace(s);
        KeepAllowedConcat("_", CollapseWhitespace(t));
        CleanMatchesByCharacter(t);
        ByCharacterSkipsRun(s[1..]);
        assert SkipWhitespace(s[1..]) == t;
      } else {
        KeepAllowedConcat([s[0]], CollapseWhitespace(s[1..]));
        CleanMatchesByCharacter(s[1..]);
      }
    }
  }

  lemma {:induction false} ByCharacterConcat(a: string, b: string, afterSpace: bool)
    ensures CleanByCharacter(a + b, afterSpace)
         == CleanByCharacter(a, afterSpace) + CleanByCharacter(b, if a == [] then afterSpace else IsWhitespace(a[|a| - 1]))
  {
    if a != [] {
      assert (a + b)[0] == a[0] && (a + b)[1..] == a[1..] + b;
      ByCharacterConcat(a[1..], b, IsWhitespace(a[0]));
    } else {
      assert a + b == b;
    }
  }

  /** Cleaning distributes over a concatenation whose seam does not fall
      inside a whitespace run. */
  lemma CleanConcat(a: string, b: string)
    requires a == [] || b == [] || !IsWhitespace(a[|a| - 1]) || !IsWhitespace(b[0])
    ensures CleanFilename(a + b) == CleanFilename(a) + CleanFilename(b)
  {
    CleanMatchesByCharacter(a + b);
    CleanMatchesByCharacter(a);
    CleanMatchesByCharacter(b);
    ByCharacterConcat(a, b, false);
  }

  lemma {:induction false} CollapseWithoutWhitespace(s: string)
    requires NoWhitespace(s)
    ensures CollapseWhitespace(s) == s
  {
    if s != [] {
      CollapseWithoutWhitespace(s[1..]);
    }
  }

  lemma {:induction false} KeepAllAllowed(s: string)
    requires AllAllowed(s)
    ensures KeepAllowed(s) == s
  {
    if s != [] {
      KeepAllAllowed(s[1..]);
    }
  }

  /** A string made only of allowed characters is its own cleaned form. */
  lemma CleanAllowedIsIdentity(s: string)
    requires AllAllowed(s)
    ensures CleanFilename(s) == s
  {
    forall i | 0 <= i < |s| ensures !IsWhitespace(s[i]) {
      AllowedCharacters(s[i]);
    }
    CollapseWithoutWhitespace(s);
    KeepAllAllowed(s);
  }

  /** Text between two runs of allowed characters is cleaned on its own. */
  lemma CleanBetweenAllowed(p: string, t: string, e: string)
    requires AllAllowed(p) && AllAllowed(e)
    ensures CleanFilename(p + t + e) == p + CleanFilename(t) + e
  {
    assert p + t + e == p + (t + e);
    CleanAllowedPrefix(p, t + e);
    CleanAllowedSuffix(t, e);
  }

  lemma CleanAllowedPrefix(p: string, t: string)
    requires AllAllowed(p)
    ensures CleanFilename(p + t) == p + CleanFilename(t)
  {
    if p != [] {
      AllowedCharacters(p[|p| - 1]);
    }
    CleanConcat(p, t);
    CleanAllowedIsIdentity(p);
  }

  lemma CleanAllowedSuffix(t: string, e: string)
    requires AllAllowed(e)
    ensures CleanFilename(t + e) == CleanFilename(t) + e
  {
    if e != [] {
      AllowedCharacters(e[0]);
    }
    CleanConcat(t, e);
    CleanAllowedIsIdentity(e);
  }

  /** Cleaning twice is cleaning once. */
  lemma CleanIdempotent(s: string)
    ensures CleanFilename(CleanFilename(s)) == CleanFilename(s)
  {
    CleanAllowedIsIdentity(CleanFilename(s));
  }

  /** `a` is obtained from `b` by deleting characters. */
  predicate IsSubsequence(a: string, b: string)
    decreases |b|
  {
    if b == [] then a == []
    else (a != [] && a[0] == b[0] && IsSubsequence(a[1..], b[1..])) || IsSubsequence(a, b[1..])
  }

  lemma {:induction false} KeepAllowedIsSubsequence(s: string)
    ensures IsSubsequence(KeepAllowed(s), s)
  {
    if s != [] {
      KeepAllowedIsSubsequence(s[1..]);
      var k := KeepAllowed(s);
      if IsAllowed(s[0]) {
        assert k[0] == s[0] && k[1..] == KeepAllowed(s[1..]);
      } else {
        assert k == KeepAllowed(s[1..]);
      }
    }
  }

  /** On an input without whitespace the sanitiser only deletes: the
      allowed characters are kept in their original order. */
  lemma CleanWithoutWhitespaceDeletes(s: string)
    requires NoWhitespace(s)
    ensures CleanFilename(s) == KeepAllowed(s)
    ensures IsSubsequence(CleanFilename(s), s)
  {
    CollapseWithoutWhitespace(s);
    KeepAllowedIsSubsequence(s);
  }

  /** Two or more underscores can appear once the characters between
      whitespace runs are dropped. */
  lemma DoubleUnderscoreExample()
    ensures CleanFilename("a : b") == "a__b"
  {
    assert CleanByCharacter("a : b", false) == "a__b" by {
      assert CleanByCharacter(" b", false) == "_b";
      assert CleanByCharacter(": b", true) == "_b";
      assert CleanByCharacter(" : b", false) == "__b";
    }
    CleanMatchesByCharacter("a : b");
  }
}
