/**
 * The text normaliser `clean_text` of app.py (lines 26-31): four whole-string
 * rewrites applied in order,
 *
 *   1. `text.lower()`                      -- Lower
 *   2. `re.sub(r'<.*?>', ' ', text)`         -- StripTags
 *   3. `re.sub(r'[^a-zA-Z\s]', '', text)`    -- KeepLettersAndSpaces
 *   4. `re.sub(r'\s+', ' ', text).strip()`   -- Strip(CollapseSpaces(..))
 *
 * Strings are sequences of Unicode scalar values. A Python `str` may also hold
 * lone surrogates (U+D800-U+DFFF), which a Dafny `char` cannot; `lower()`
 * keeps them, `.` matches them and step 3 deletes them, so they never change
 * the result.
 */
module TextClean {

  // ---------------------------------------------------------------------
  // Character classes
  // ---------------------------------------------------------------------

  predicate IsAsciiUpper(c: char) { 'A' <= c <= 'Z' }

  predicate IsAsciiLower(c: char) { 'a' <= c <= 'z' }

  /** The class `a-zA-Z` of line 30: ASCII letters only (no IGNORECASE, no Unicode letters). */
  predicate IsAsciiLetter(c: char) { IsAsciiUpper(c) || IsAsciiLower(c) }

  /**
   * Python's `\s` on a `str` pattern, which is also the set `str.strip()` removes:
   * the characters for which `str.isspace()` holds.
   */
  predicate IsSpace(c: char)
  {
    || ('\t' <= c <= '\r')            // \t \n \v \f \r
    || ('\U{1C}' <= c <= ' ')         // the four information separators and ' '
    || c == '\U{85}' || c == '\U{A0}' || c == '\U{1680}'
    || ('\U{2000}' <= c <= '\U{200A}')
    || c == '\U{2028}' || c == '\U{2029}' || c == '\U{202F}' || c == '\U{205F}' || c == '\U{3000}'
  }

  /** The characters that steer the tag pattern `<.*?>`: its two brackets and the one character `.` refuses. */
  predicate IsTagSyntax(c: char) { c == '<' || c == '>' || c == '\n' }

  // ---------------------------------------------------------------------
  // Step 1: text.lower()
  // ---------------------------------------------------------------------

  const KelvinSign: char := '\U{212A}'
  const CapitalIWithDotAbove: char := '\U{0130}'

  /**
   * The lower-case form of one character. ASCII capitals map to ASCII small
   * letters; the only two non-ASCII characters whose lower-case form holds an
   * ASCII letter are the Kelvin sign (to "k") and capital I with dot above (to
   * "i" and a combining dot). Every other character is kept as it is. That is
   * exact for every character that is its own lower-case form, among them all
   * whitespace, '<', '>' and '\n'. The rest are non-ASCII cased characters:
   * neither they nor their lower-case forms hold an ASCII letter, whitespace,
   * '<', '>' or '\n', so step 3 deletes either one.
   */
  function LowerChar(c: char): (r: string)
    ensures forall d {:trigger d in r} :: d in r ==> !IsAsciiUpper(d)
    ensures IsAsciiUpper(c) ==> r == [(c as int - 'A' as int + 'a' as int) as char]
    ensures c == KelvinSign ==> r == "k"
    ensures c == CapitalIWithDotAbove ==> r == "i\U{0307}"
    ensures IsAsciiLower(c) || IsSpace(c) || IsTagSyntax(c) ==> r == [c]
    ensures forall d {:trigger d in r} :: d in r && (IsSpace(d) || IsTagSyntax(d)) ==> d == c
  {
    if IsAsciiUpper(c) then [(c as int - 'A' as int + 'a' as int) as char]
    else if c == KelvinSign then "k"
    else if c == CapitalIWithDotAbove then "i\U{0307}"
    else [c]
  }

  /** `text.lower()`, character by character. */
  function Lower(s: string): (r: string)
    ensures forall d {:trigger d in r} :: d in r ==> !IsAsciiUpper(d)
    ensures forall d {:trigger d in r} :: d in r && (IsSpace(d) || IsTagSyntax(d)) ==> d in s
  {
    if s == [] then [] else LowerChar(s[0]) + Lower(s[1..])
  }

  // ---------------------------------------------------------------------
  // Step 2: re.sub(r'<.*?>', ' ', text)
  // ---------------------------------------------------------------------

  /**
   * Where the lazy `.*?` that follows a `<` stops when it starts at index i:
   * at the first '>' (the tag closes there) or the first '\n' (`.` cannot
   * cross it, so there is no tag), or at the end of s.
   */
  function ScanTag(s: string, i: nat): (k: nat)
    requires i <= |s|
    ensures i <= k <= |s|
    ensures forall j :: i <= j < k ==> s[j] != '>' && s[j] != '\n'
    ensures k < |s| ==> s[k] == '>' || s[k] == '\n'
    decreases |s| - i
  {
    if i == |s| || s[i] == '>' || s[i] == '\n' then i else ScanTag(s, i + 1)
  }

  /** A match of `<.*?>` starts at index i of s. */
  predicate TagAt(s: string, i: nat)
    requires i < |s|
  {
    s[i] == '<' && ScanTag(s, i + 1) < |s| && s[ScanTag(s, i + 1)] == '>'
  }

  /** No match of `<.*?>` starts anywhere in s. */
  predicate NoTags(s: string)
  {
    forall i :: 0 <= i < |s| ==> !TagAt(s, i)
  }

  /**
   * `re.sub(r'<.*?>', ' ', s)`: scanning left to right, each shortest
   * `<...>` without a line break inside becomes one space; everything else is
   * copied, including a '<' that closes nowhere.
   */
  function StripTags(s: string): (r: string)
    ensures |r| <= |s|
    ensures forall c {:trigger c in r} :: c in r ==> c == ' ' || c in s
    decreases |s|
  {
    if s == [] then []
    else if TagAt(s, 0) then [' '] + StripTags(s[ScanTag(s, 1) + 1..])
    else [s[0]] + StripTags(s[1..])
  }

  // ---------------------------------------------------------------------
  // Step 3: re.sub(r'[^a-zA-Z\s]', '', text)
  // ---------------------------------------------------------------------

  /** Deletes every character that is neither an ASCII letter nor whitespace. */
  function KeepLettersAndSpaces(s: string): (r: string)
    ensures |r| <= |s|
    ensures forall c {:trigger c in r} :: c in r <==> c in s && (IsAsciiLetter(c) || IsSpace(c))
  {
    if s == [] then []
    else if IsAsciiLetter(s[0]) || IsSpace(s[0]) then [s[0]] + KeepLettersAndSpaces(s[1..])
    else KeepLettersAndSpaces(s[1..])
  }

  // ---------------------------------------------------------------------
  // Step 4: re.sub(r'\s+', ' ', text).strip()
  // ---------------------------------------------------------------------

  /**
   * s without its leading run of whitespace: no longer than s and not
   * starting with whitespace (TextCleanProofs.DropSpacesDropsSpaces shows
   * that it is the suffix of s left once only whitespace was dropped).
   */
  function DropSpaces(s: string): (r: string)
    ensures |r| <= |s|
    ensures forall c {:trigger c in r} :: c in r ==> c in s
    ensures r == [] || !IsSpace(r[0])
    ensures s != [] && IsSpace(s[0]) ==> |r| < |s|
  {
    if s == [] || !IsSpace(s[0]) then s else DropSpaces(s[1..])
  }

  /**
   * s without its trailing run of whitespace: no longer than s and not
   * ending with whitespace (TextCleanProofs.DropTrailingSpacesDropsSpaces
   * shows that it is the prefix of s left once only whitespace was dropped).
   */
  function DropTrailingSpaces(s: string): (r: string)
    ensures |r| <= |s|
    ensures r == [] || !IsSpace(r[|r| - 1])
  {
    if s == [] || !IsSpace(s[|s| - 1]) then s else DropTrailingSpaces(s[..|s| - 1])
  }

  /** No two neighbouring characters of s are both whitespace. */
  predicate NoDoubleSpace(s: string)
  {
    forall i, j :: 0 <= i && j == i + 1 < |s| ==> !(IsSpace(s[i]) && IsSpace(s[j]))
  }

  /**
   * `re.sub(r'\s+', ' ', s)`: every maximal run of whitespace becomes one ' '
   * (TextCleanProofs.CollapseNoDoubleSpace shows that no two whitespace
   * characters are left side by side).
   */
  function CollapseSpaces(s: string): (r: string)
    ensures forall c {:trigger c in r} :: c in r ==> c == ' ' || (c in s && !IsSpace(c))
    ensures s == [] <==> r == []
    decreases |s|
  {
    if s == [] then []
    else if IsSpace(s[0]) then [' '] + CollapseSpaces(DropSpaces(s))
    else [s[0]] + CollapseSpaces(s[1..])
  }

  /** `s.strip()`: drops whitespace at both ends. */
  function Strip(s: string): (r: string)
  {
    DropTrailingSpaces(DropSpaces(s))
  }

  // ---------------------------------------------------------------------
  // The pipeline
  // ---------------------------------------------------------------------

  /** `clean_text(text)`. */
  function CleanText(s: string): (r: string)
  {
    Strip(CollapseSpaces(KeepLettersAndSpaces(StripTags(Lower(s)))))
  }

  /** The ASCII letters of s, in order. */
  function Letters(s: string): (r: string)
    ensures forall c {:trigger c in r} :: c in r <==> c in s && IsAsciiLetter(c)
  {
    if s == [] then []
    else if IsAsciiLetter(s[0]) then [s[0]] + Letters(s[1..])
    else Letters(s[1..])
  }

  /**
   * The shape of every output of CleanText: lower-case ASCII letters and
   * single spaces, with no space at either end.
   */
  predicate IsCleaned(s: string)
  {
    && (forall c {:trigger c in s} :: c in s ==> IsAsciiLower(c) || c == ' ')
    && (s != [] ==> s[0] != ' ' && s[|s| - 1] != ' ')
    && NoDoubleSpace(s)
  }
}
