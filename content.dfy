/**
 * The HTML-to-text sanitizer of `getContent` (src/services/content.ts): once the
 * page body has been fetched, it is passed through six global regular-expression
 * replacements, in this order:
 *
 *   1. StyleAttribute: `style="` (any case) up to the next double quote -> removed
 *   2. StyleBlock: a `<style` tag up to its first `>`, then up to the nearest
 *      `</style>` (any case) -> removed
 *   3. EventHandler: any run of whitespace, then `on` and one or more word
 *      characters (any case), then `="` up to the next double quote -> removed
 *   4. ScriptBlock: a `<script` tag up to its first `>`, then up to the nearest
 *      `</script>` (any case), unless `application/ld+json` occurs in the tag
 *      before that first `>` -> removed
 *   5. AnyTag: `<` up to the next `>` (case does not matter) -> removed
 *   6. Whitespace: a maximal run of whitespace -> one space
 *
 * A global `replace` looks for the leftmost match at or after its current
 * position, replaces it, and resumes right after it. None of the six patterns
 * can match the empty string, so every match consumes at least one character.
 * Here each pattern is a hand-written matcher `MatchEnd(p, s, i)`, which gives
 * the end of the match that starts at position `i` of `s` (if any), and
 * `ReplaceFrom` is the scan. Positions are indices into the whole string, as
 * JavaScript's `lastIndex` is; no pattern looks behind its start.
 */
module ContentService {
  import opened Wrappers

  // ---------------------------------------------------------------------------
  // Character classes
  // ---------------------------------------------------------------------------

  /** JavaScript's `\s`: the WhiteSpace and LineTerminator code points. */
  predicate IsSpace(c: char) {
    c == '\t' || c == '\n' || c == '\U{000B}' || c == '\U{000C}' || c == '\r' || c == ' '
    || c == '\U{00A0}' || c == '\U{1680}' || ('\U{2000}' <= c <= '\U{200A}')
    || c == '\U{2028}' || c == '\U{2029}' || c == '\U{202F}' || c == '\U{205F}'
    || c == '\U{3000}' || c == '\U{FEFF}'
  }

  /** JavaScript's `\w` (no `u` flag): ASCII letters, digits and the underscore. */
  predicate IsWord(c: char) {
    ('a' <= c <= 'z') || ('A' <= c <= 'Z') || ('0' <= c <= '9') || c == '_'
  }

  /**
   * The case folding of the `i` flag, restricted to what the patterns need:
   * every letter in them is ASCII, and without the `u` flag JavaScript never
   * folds a non-ASCII character onto an ASCII one.
   */
  function Upper(c: char): char {
    if 'a' <= c <= 'z' then (c as int - 32) as char else c
  }

  /** Two characters match each other under the `i` flag. */
  predicate SameLetter(c: char, d: char) {
    Upper(c) == Upper(d)
  }

  predicate IsAsciiLetter(c: char) {
    ('a' <= c <= 'z') || ('A' <= c <= 'Z')
  }

  /**
   * Under the `i` flag two characters match when they are equal, or when they
   * are the two cases of one ASCII letter, which lie 32 code points apart.
   */
  lemma SameLetterMeans(c: char, d: char)
    ensures SameLetter(c, d) <==>
      c == d || (IsAsciiLetter(c) && IsAsciiLetter(d) && (c as int - d as int == 32 || d as int - c as int == 32))
  {
  }

  // ---------------------------------------------------------------------------
  // Scanning primitives
  // ---------------------------------------------------------------------------

  /** `lit[k..]` occurs at position `i + k` of `s`, compared as under the `i` flag. */
  predicate CiFrom(s: string, i: nat, lit: string, k: nat)
    decreases |lit| - k
  {
    k >= |lit| || (i + k < |s| && SameLetter(s[i + k], lit[k]) && CiFrom(s, i, lit, k + 1))
  }

  /** `lit` occurs at position `i` of `s`, compared as under the `i` flag. */
  predicate CiAt(s: string, i: nat, lit: string) {
    CiFrom(s, i, lit, 0)
  }

  lemma {:induction false} CiFromMeans(s: string, i: nat, lit: string, k: nat)
    requires k <= |lit|
    ensures CiFrom(s, i, lit, k) <==>
      (k == |lit| || i + |lit| <= |s|) && forall m :: k <= m < |lit| ==> SameLetter(s[i + m], lit[m])
    decreases |lit| - k
  {
    if k < |lit| {
      CiFromMeans(s, i, lit, k + 1);
    }
  }

  /** An occurrence of `lit` at `i` is the character-by-character agreement of the `i` flag. */
  lemma CiAtMeans(s: string, i: nat, lit: string)
    requires i <= |s|
    ensures CiAt(s, i, lit) <==>
      i + |lit| <= |s| && forall m :: 0 <= m < |lit| ==> SameLetter(s[i + m], lit[m])
  {
    CiFromMeans(s, i, lit, 0);
  }

  /**
   * The first position at or after `from` that holds `c`. A class that
   * excludes `c`, followed by `c`, must stop exactly there.
   */
  function IndexOf(s: string, c: char, from: nat): (r: Option<nat>)
    ensures r.Some? ==> from <= r.value < |s| && s[r.value] == c
    ensures r.Some? ==> forall j :: from <= j < r.value ==> s[j] != c
    ensures r.None? ==> forall j :: from <= j < |s| ==> s[j] != c
    decreases |s| - from
  {
    if from >= |s| then None
    else if s[from] == c then Some(from)
    else IndexOf(s, c, from + 1)
  }

  /**
   * The first position `j >= from` at which `lit` occurs and ends by `end`.
   * With `end == |s|` this is where a lazy "anything, then `lit`" stops.
   */
  function FindCi(s: string, lit: string, from: nat, end: nat): (r: Option<nat>)
    requires end <= |s|
    ensures r.Some? ==> from <= r.value && r.value + |lit| <= end && CiAt(s, r.value, lit)
    ensures r.Some? ==> forall j :: from <= j < r.value ==> !CiAt(s, j, lit)
    ensures r.None? ==> forall j :: from <= j && j + |lit| <= end ==> !CiAt(s, j, lit)
    decreases end - from
  {
    if from + |lit| > end then None
    else if CiAt(s, from, lit) then Some(from)
    else FindCi(s, lit, from + 1, end)
  }

  /** The end of the run of `\s` characters that starts at `i` (greedy). */
  function SpaceEnd(s: string, i: nat): (e: nat)
    requires i <= |s|
    ensures i <= e <= |s|
    ensures forall j :: i <= j < e ==> IsSpace(s[j])
    ensures e < |s| ==> !IsSpace(s[e])
    decreases |s| - i
  {
    if i < |s| && IsSpace(s[i]) then SpaceEnd(s, i + 1) else i
  }

  /** The end of the run of `\w` characters that starts at `i` (greedy). */
  function WordEnd(s: string, i: nat): (e: nat)
    requires i <= |s|
    ensures i <= e <= |s|
    ensures forall j :: i <= j < e ==> IsWord(s[j])
    ensures e < |s| ==> !IsWord(s[e])
    decreases |s| - i
  {
    if i < |s| && IsWord(s[i]) then WordEnd(s, i + 1) else i
  }

  /** "Anything but `c`, then `c`", started at `from`, ends just after the next `c`. */
  function ThroughChar(s: string, c: char, from: nat): (r: Option<nat>)
    ensures r.Some? ==> from < r.value <= |s| && s[r.value - 1] == c
    ensures r.Some? ==> forall j :: from <= j < r.value - 1 ==> s[j] != c
    ensures r.None? ==> forall j :: from <= j < |s| ==> s[j] != c
  {
    match IndexOf(s, c, from)
    case Some(q) => Some(q + 1)
    case None => None
  }

  /** "Anything, lazily, then `lit`", started at `from`, ends just after the nearest `lit`. */
  function ThroughLit(s: string, lit: string, from: nat): (r: Option<nat>)
    ensures r.Some? ==> from + |lit| <= r.value <= |s| && CiAt(s, r.value - |lit|, lit)
    ensures r.Some? ==> forall j :: from <= j < r.value - |lit| ==> !CiAt(s, j, lit)
    ensures r.None? ==> forall j :: from <= j && j + |lit| <= |s| ==> !CiAt(s, j, lit)
  {
    match FindCi(s, lit, from, |s|)
    case Some(q) => Some(q + |lit|)
    case None => None
  }

  // ---------------------------------------------------------------------------
  // The six patterns
  // ---------------------------------------------------------------------------

  datatype Pass = StyleAttribute | StyleBlock | EventHandler | ScriptBlock | AnyTag | Whitespace

  /** The content type that exempts a `<script>` block from removal. */
  const LdJson: string := "application/ld+json"

  /** The opening and closing tags of the two removed elements, matched in any case. */
  const StyleOpen: string := "<style"
  const StyleClose: string := "</style>"
  const ScriptOpen: string := "<script"
  const ScriptClose: string := "</script>"

  /** `style="[^"]*"`: `style="` in any case, then up to the next double quote. */
  function StyleAttributeEnd(s: string, i: nat): (r: Option<nat>)
    requires i <= |s|
    ensures r.Some? ==> i < r.value <= |s|
  {
    if CiAt(s, i, "style=\"") then ThroughChar(s, '"', i + 7) else None
  }

  /** `<style[^>]*>[\s\S]*?<\/style>`: the opening tag to its first `>`, then to the nearest `</style>`. */
  function StyleBlockEnd(s: string, i: nat): (r: Option<nat>)
    requires i <= |s|
    ensures r.Some? ==> i < r.value <= |s|
  {
    if CiAt(s, i, StyleOpen) then ElementRestEnd(s, i + 6, StyleClose) else None
  }

  /**
   * `[^>]*>[\s\S]*?` followed by the closing tag `close`: the rest of an
   * opening tag to its first `>` at or after `from`, then on to the end of
   * the nearest `close`.
   */
  function ElementRestEnd(s: string, from: nat, close: string): (r: Option<nat>)
    requires from <= |s|
    ensures r.Some? ==> from < r.value <= |s|
  {
    match IndexOf(s, '>', from)
    case Some(g) => ThroughLit(s, close, g + 1)
    case None => None
  }

  /**
   * `\s*on\w+="[^"]*"`. The leading whitespace is taken whole (`o` is not
   * whitespace), and so is the word after `on` (`=` is not a word character):
   * no backtracking can give another match.
   */
  function EventHandlerEnd(s: string, i: nat): (r: Option<nat>)
    requires i <= |s|
    ensures r.Some? ==> i < r.value <= |s|
  {
    var o := SpaceEnd(s, i);
    if o + 2 <= |s| && CiAt(s, o, "on") then
      var w := WordEnd(s, o + 2);
      if w > o + 2 && CiAt(s, w, "=\"") then ThroughChar(s, '"', w + 2) else None
    else None
  }

  /**
   * `<script(?![^>]*application\/ld\+json)[^>]*>[\s\S]*?<\/script>`: the
   * opening tag to its first `>`, then to the nearest `</script>`; the
   * lookahead fails exactly when the marker lies before that `>`.
   */
  function ScriptBlockEnd(s: string, i: nat): (r: Option<nat>)
    requires i <= |s|
    ensures r.Some? ==> i < r.value <= |s|
  {
    if CiAt(s, i, ScriptOpen) && !MarkedBeforeClose(s, i + 7) then ElementRestEnd(s, i + 7, ScriptClose)
    else None
  }

  /**
   * The lookahead `(?![^>]*application\/ld\+json)` fails at `from`: the
   * marker lies between `from` and the first `>` after it. Without any `>`
   * the element cannot match whatever the lookahead says.
   */
  predicate MarkedBeforeClose(s: string, from: nat)
    requires from <= |s|
  {
    match IndexOf(s, '>', from)
    case Some(g) => FindCi(s, LdJson, from, g).Some?
    case None => false
  }

  /**
   * The end of the match of pattern `p` that starts exactly at position `i`
   * of `s`, or None if the pattern does not match there. Matches are never
   * empty.
   */
  function MatchEnd(p: Pass, s: string, i: nat): (r: Option<nat>)
    requires i <= |s|
    ensures r.Some? ==> i < r.value <= |s|
  {
    match p
    case StyleAttribute => StyleAttributeEnd(s, i)
    case StyleBlock => StyleBlockEnd(s, i)
    case EventHandler => EventHandlerEnd(s, i)
    case ScriptBlock => ScriptBlockEnd(s, i)
    case AnyTag =>
      // `<[^>]*>`
      if i < |s| && s[i] == '<' then ThroughChar(s, '>', i + 1) else None
    case Whitespace =>
      // `\s+`
      var e := SpaceEnd(s, i);
      if e > i then Some(e) else None
  }

  /** What each pass puts in place of a match. */
  function Replacement(p: Pass): string {
    if p == Whitespace then " " else ""
  }

  /**
   * A table of matches for `s`: for every position, where the match that
   * starts there ends, if there is one. Matches are non-empty and stay
   * inside `s`.
   */
  predicate IsTable(s: string, ms: seq<Option<nat>>) {
    |ms| == |s| && forall k :: 0 <= k < |ms| && ms[k].Some? ==> k < ms[k].value <= |s|
  }

  /** The table of pattern `p` over `s`. */
  function Matches(p: Pass, s: string): (ms: seq<Option<nat>>)
    ensures IsTable(s, ms)
  {
    seq(|s|, k requires 0 <= k < |s| => MatchEnd(p, s, k))
  }

  /**
   * A global `replace`, resumed at position `i`, driven by the table `ms`:
   * a position where a match starts is skipped to the end of that match and
   * `rep` is written instead; any other position is copied. Output never
   * outgrows input, since every match is non-empty and `rep` has at most
   * one character.
   */
  function Scan(s: string, ms: seq<Option<nat>>, rep: string, i: nat): (r: string)
    requires IsTable(s, ms) && |rep| <= 1 && i <= |s|
    ensures |r| <= |s| - i
    decreases |s| - i
  {
    if i == |s| then []
    else
      match ms[i]
      case Some(e) => rep + Scan(s, ms, rep, e)
      case None => [s[i]] + Scan(s, ms, rep, i + 1)
  }

  /**
   * A global `replace` of pattern `p`, resumed at position `i`: the text from
   * `i` on with every leftmost, non-overlapping match replaced.
   */
  function ReplaceFrom(p: Pass, s: string, i: nat): (r: string)
    requires i <= |s|
    ensures |r| <= |s| - i
  {
    Scan(s, Matches(p, s), Replacement(p), i)
  }

  function ReplaceAll(p: Pass, s: string): string {
    ReplaceFrom(p, s, 0)
  }

  // ---------------------------------------------------------------------------
  // getContent after the fetch
  // ---------------------------------------------------------------------------

  /**
   * The text `getContent` returns for a fetched body: the empty body is
   * returned as it is, any other goes through the six passes in order.
   */
  function Sanitize(body: string): (text: string)
    ensures body == [] ==> text == []
    ensures |text| <= |body|
  {
    if body == [] then []
    else
      var noStyleAttributes := ReplaceAll(StyleAttribute, body);
      var noStyleBlocks := ReplaceAll(StyleBlock, noStyleAttributes);
      var noHandlers := ReplaceAll(EventHandler, noStyleBlocks);
      var noScripts := ReplaceAll(ScriptBlock, noHandlers);
      var noTags := ReplaceAll(AnyTag, noScripts);
      ReplaceAll(Whitespace, noTags)
  }
}
