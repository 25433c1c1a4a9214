/**
 * What the sanitizer of `getContent` guarantees about its output, proved from
 * the pass-by-pass model in ContentService.
 */
module SanitizerProperties {
  import opened Wrappers
  import opened ContentService

  // ---------------------------------------------------------------------------
  // The scan
  // ---------------------------------------------------------------------------

  /** The table holds, at each position, the match of the pattern there. */
  lemma MatchesAt(p: Pass, s: string, k: nat)
    requires k < |s|
    ensures Matches(p, s)[k] == MatchEnd(p, s, k)
  {
  }

  lemma ScanCopied(s: string, ms: seq<Option<nat>>, rep: string, i: nat)
    requires IsTable(s, ms) && |rep| <= 1 && i < |s| && ms[i].None?
    ensures Scan(s, ms, rep, i) == [s[i]] + Scan(s, ms, rep, i + 1)
  {
  }

  /** Positions without a match in the table are copied through unchanged. */
  lemma {:induction false} ScanKeep(s: string, ms: seq<Option<nat>>, rep: string, i: nat, j: nat)
    requires IsTable(s, ms) && |rep| <= 1 && i <= j <= |s|
    requires forall m :: i <= m < j ==> ms[m].None?
    ensures Scan(s, ms, rep, i) == s[i..j] + Scan(s, ms, rep, j)
    decreases j - i
  {
    if i < j {
      ScanCopied(s, ms, rep, i);
      ScanKeep(s, ms, rep, i + 1, j);
      Prepend(s[i], Scan(s, ms, rep, i + 1), s[i + 1..j], Scan(s, ms, rep, j));
      SliceHead(s, i, j);
    }
  }

  lemma Prepend(c: char, u: string, v: string, w: string)
    requires u == v + w
    ensures [c] + u == ([c] + v) + w
  {
  }

  lemma SliceHead(s: string, i: nat, j: nat)
    requires i < j <= |s|
    ensures s[i..j] == [s[i]] + s[i + 1..j]
  {
  }

  /** One step of the scan: a match is replaced, and the scan resumes after it. */
  lemma Replaced(p: Pass, s: string, i: nat, e: nat)
    requires i < |s| && MatchEnd(p, s, i) == Some(e)
    ensures ReplaceFrom(p, s, i) == Replacement(p) + ReplaceFrom(p, s, e)
  {
    MatchesAt(p, s, i);
  }

  /** Positions at which the pattern does not match are copied through unchanged. */
  lemma KeepUntil(p: Pass, s: string, i: nat, j: nat)
    requires i <= j <= |s|
    requires forall m :: i <= m < j ==> MatchEnd(p, s, m).None?
    ensures ReplaceFrom(p, s, i) == s[i..j] + ReplaceFrom(p, s, j)
  {
    forall m | i <= m < j
      ensures Matches(p, s)[m].None?
    {
      MatchesAt(p, s, m);
    }
    ScanKeep(s, Matches(p, s), Replacement(p), i, j);
  }

  /** A scan that finds no match anywhere leaves the text as it is. */
  lemma NoMatchNoChange(p: Pass, s: string)
    requires forall m :: 0 <= m < |s| ==> MatchEnd(p, s, m).None?
    ensures ReplaceAll(p, s) == s
  {
    KeepUntil(p, s, 0, |s|);
  }

  /** The scan introduces no character besides those of its input and of the replacement. */
  lemma CharsFrom(p: Pass, s: string, i: nat)
    requires i <= |s|
    ensures forall c :: c in ReplaceFrom(p, s, i) ==> c in s[i..] || c in Replacement(p)
  {
    ScanChars(s, Matches(p, s), Replacement(p), i);
  }

  lemma {:induction false} ScanChars(s: string, ms: seq<Option<nat>>, rep: string, i: nat)
    requires IsTable(s, ms) && |rep| <= 1 && i <= |s|
    ensures forall c :: c in Scan(s, ms, rep, i) ==> c in s[i..] || c in rep
    decreases |s| - i
  {
    if i < |s| {
      match ms[i]
      case Some(e) =>
        ScanChars(s, ms, rep, e);
        assert s[e..] == s[i..][e - i..];
      case None =>
        ScanChars(s, ms, rep, i + 1);
        assert s[i..] == [s[i]] + s[i + 1..];
    }
  }

  // ---------------------------------------------------------------------------
  // The tag pass and the whitespace pass
  // ---------------------------------------------------------------------------

  /** No `<` is followed, anywhere after it, by a `>`: no tag can be read in the text. */
  predicate NoTag(t: string) {
    forall a, b :: 0 <= a < b < |t| && t[a] == '<' ==> t[b] != '>'
  }

  /** After the tag pass, any `<` left in the text has no `>` anywhere after it. */
  lemma {:induction false} TagPassLeavesNoTag(s: string, i: nat)
    requires i <= |s|
    ensures NoTag(ReplaceFrom(AnyTag, s, i))
    decreases |s| - i
  {
    if i < |s| {
      match MatchEnd(AnyTag, s, i)
      case Some(e) =>
        TagPassLeavesNoTag(s, e);
      case None =>
        var rest := ReplaceFrom(AnyTag, s, i + 1);
        TagPassLeavesNoTag(s, i + 1);
        CharsFrom(AnyTag, s, i + 1);
        var r := [s[i]] + rest;
        forall a, b | 0 <= a < b < |r| && r[a] == '<' ensures r[b] != '>' {
          assert r[b] == rest[b - 1];
          if a == 0 {
            // an unmatched `<`: there is no `>` after it in the input
            assert rest[b - 1] in rest;
          } else {
            assert r[a] == rest[a - 1];
          }
        }
      }
  }

  /** Collapsing whitespace cannot make a tag appear. */
  lemma {:induction false} CollapseKeepsNoTag(s: string, i: nat)
    requires NoTag(s) && i <= |s|
    ensures NoTag(ReplaceFrom(Whitespace, s, i))
    decreases |s| - i
  {
    if i < |s| {
      var next := match MatchEnd(Whitespace, s, i) case Some(e) => e case None => i + 1;
      var rest := ReplaceFrom(Whitespace, s, next);
      CollapseKeepsNoTag(s, next);
      CharsFrom(Whitespace, s, next);
      var r := ReplaceFrom(Whitespace, s, i);
      assert r == (if MatchEnd(Whitespace, s, i).Some? then " " else [s[i]]) + rest;
      forall a, b | 0 <= a < b < |r| && r[a] == '<' ensures r[b] != '>' {
        assert r[b] == rest[b - 1];
        if a == 0 {
          // a `<` of the input: no `>` follows it there, so none follows it here
          assert rest[b - 1] in rest;
        } else {
          assert r[a] == rest[a - 1];
        }
      }
    }
  }

  /** The only whitespace is the plain space, and no two whitespace characters are adjacent. */
  predicate Collapsed(t: string) {
    (forall j :: 0 <= j < |t| && IsSpace(t[j]) ==> t[j] == ' ')
    && (forall j :: 0 <= j < |t| - 1 ==> !(IsSpace(t[j]) && IsSpace(t[j + 1])))
  }

  /**
   * The whitespace pass leaves only single plain spaces; its output starts
   * with a space exactly where the input had whitespace.
   */
  lemma {:induction false} CollapseFrom(s: string, i: nat)
    requires i <= |s|
    ensures Collapsed(ReplaceFrom(Whitespace, s, i))
    ensures i < |s| ==>
      (|ReplaceFrom(Whitespace, s, i)| > 0 &&
       ReplaceFrom(Whitespace, s, i)[0] == (if IsSpace(s[i]) then ' ' else s[i]))
    decreases |s| - i
  {
    if i < |s| {
      var r := ReplaceFrom(Whitespace, s, i);
      match MatchEnd(Whitespace, s, i)
      case Some(e) =>
        var rest := ReplaceFrom(Whitespace, s, e);
        CollapseFrom(s, e);
        assert r == " " + rest;
        assert rest != [] ==> !IsSpace(rest[0]);
        forall j | 0 <= j < |r| - 1 ensures !(IsSpace(r[j]) && IsSpace(r[j + 1])) {
          if j > 0 { assert r[j] == rest[j - 1] && r[j + 1] == rest[j]; }
        }
        forall j | 0 <= j < |r| && IsSpace(r[j]) ensures r[j] == ' ' {
          if j > 0 { assert r[j] == rest[j - 1]; }
        }
      case None =>
        var rest := ReplaceFrom(Whitespace, s, i + 1);
        CollapseFrom(s, i + 1);
        assert r == [s[i]] + rest;
        assert !IsSpace(s[i]);
        forall j | 0 <= j < |r| - 1 ensures !(IsSpace(r[j]) && IsSpace(r[j + 1])) {
          if j > 0 { assert r[j] == rest[j - 1] && r[j + 1] == rest[j]; }
        }
        forall j | 0 <= j < |r| && IsSpace(r[j]) ensures r[j] == ' ' {
          if j > 0 { assert r[j] == rest[j - 1]; }
        }
    }
  }

  /** A collapsed text is left exactly as it is by the whitespace pass. */
  lemma {:induction false} CollapsedUnchanged(t: string, i: nat)
    requires Collapsed(t) && i <= |t|
    ensures ReplaceFrom(Whitespace, t, i) == t[i..]
    decreases |t| - i
  {
    if i < |t| {
      if IsSpace(t[i]) {
        assert SpaceEnd(t, i) == i + 1 by {
          assert i + 1 < |t| ==> !IsSpace(t[i + 1]);
        }
        CollapsedUnchanged(t, i + 1);
        assert t[i..] == [t[i]] + t[i + 1..];
      } else {
        CollapsedUnchanged(t, i + 1);
        assert t[i..] == [t[i]] + t[i + 1..];
      }
    }
  }

  /** The whitespace pass is idempotent. */
  lemma CollapseIdempotent(s: string)
    ensures ReplaceAll(Whitespace, ReplaceAll(Whitespace, s)) == ReplaceAll(Whitespace, s)
  {
    var once := ReplaceAll(Whitespace, s);
    CollapseFrom(s, 0);
    CollapsedUnchanged(once, 0);
  }

  // ---------------------------------------------------------------------------
  // Script blocks, and what the tag pass keeps of a block
  // ---------------------------------------------------------------------------

  /** The occurrence at `i` agrees with `lit` character for character. */
  lemma ExactAt(s: string, i: nat, lit: string)
    requires i + |lit| <= |s| && s[i..i + |lit|] == lit
    ensures CiAt(s, i, lit)
  {
    CiAtMeans(s, i, lit);
    forall m | 0 <= m < |lit| ensures SameLetter(s[i + m], lit[m]) {
      assert s[i + m] == s[i..i + |lit|][m];
    }
  }

  /** One disagreeing character rules out an occurrence. */
  lemma Disagrees(s: string, i: nat, lit: string, k: nat)
    requires k < |lit| && i + k < |s| && !SameLetter(s[i + k], lit[k])
    ensures !CiAt(s, i, lit)
  {
    CiAtMeans(s, i, lit);
  }

  /** `s[i..j]` is a tag to the tag pass: a `<` up to the first `>` after it. */
  predicate IsTag(s: string, i: nat, j: nat) {
    i < j <= |s| && s[i] == '<' && s[j - 1] == '>' && forall m :: i < m < j - 1 ==> s[m] != '>'
  }

  /** A tag is deleted by the tag pass and the scan resumes right after it. */
  lemma TagDropped(s: string, i: nat, j: nat)
    requires IsTag(s, i, j)
    ensures ReplaceFrom(AnyTag, s, i) == ReplaceFrom(AnyTag, s, j)
  {
    assert IndexOf(s, '>', i + 1) == Some(j - 1);
    Replaced(AnyTag, s, i, j);
  }

  /** The passes that need a `<` to match copy a stretch without `<` as it is. */
  lemma PlainTextKept(p: Pass, s: string, i: nat, j: nat)
    requires p == StyleBlock || p == ScriptBlock || p == AnyTag
    requires i <= j <= |s|
    requires forall m :: i <= m < j ==> s[m] != '<'
    ensures ReplaceFrom(p, s, i) == s[i..j] + ReplaceFrom(p, s, j)
  {
    forall m | i <= m < j ensures MatchEnd(p, s, m).None? {
      Disagrees(s, m, "<style", 0);
      Disagrees(s, m, "<script", 0);
    }
    KeepUntil(p, s, i, j);
  }

  /**
   * A block that reaches the tag pass loses exactly its two tags: with an
   * opening tag `s[i..j]`, a body `s[j..k]` without `<` and a closing tag
   * `s[k..l]`, the body is all that is left of it.
   */
  lemma TagPassKeepsBody(s: string, i: nat, j: nat, k: nat, l: nat)
    requires IsTag(s, i, j) && IsTag(s, k, l) && j <= k
    requires forall m :: j <= m < k ==> s[m] != '<'
    ensures ReplaceFrom(AnyTag, s, i) == s[j..k] + ReplaceFrom(AnyTag, s, l)
  {
    TagDropped(s, i, j);
    PlainTextKept(AnyTag, s, j, k);
    TagDropped(s, k, l);
  }

  /** `s[i..q+1]` is a style attribute: `style="` in any case, up to the next `"`. */
  predicate IsStyleAttribute(s: string, i: nat, q: nat) {
    CiAt(s, i, "style=\"") && i + 7 <= q < |s| && s[q] == '"'
    && forall m :: i + 7 <= m < q ==> s[m] != '"'
  }

  /**
   * The style-attribute pattern matches at `i` exactly when a style attribute
   * starts there, and the match is that whole attribute, closing quote included.
   */
  lemma StyleAttributeMatch(s: string, i: nat, q: nat)
    requires i <= |s|
    ensures MatchEnd(StyleAttribute, s, i) == Some(q + 1) <==> IsStyleAttribute(s, i, q)
  {
    if IsStyleAttribute(s, i, q) {
      assert IndexOf(s, '"', i + 7) == Some(q);
    }
  }

  /** A style attribute is deleted and the scan resumes after its closing quote. */
  lemma StyleAttributeRemoved(s: string, i: nat, q: nat)
    requires IsStyleAttribute(s, i, q)
    ensures ReplaceFrom(StyleAttribute, s, i) == ReplaceFrom(StyleAttribute, s, q + 1)
  {
    StyleAttributeMatch(s, i, q);
    Replaced(StyleAttribute, s, i, q + 1);
  }

  /** `s[i..g+1]` opens a style block: `<style` in any case, up to the first `>` after it. */
  predicate OpensStyle(s: string, i: nat, g: nat) {
    CiAt(s, i, "<style") && i + 6 <= g < |s| && s[g] == '>'
    && forall m :: i + 6 <= m < g ==> s[m] != '>'
  }

  /**
   * A style block is matched from its opening tag to the nearest `</style>`
   * after that tag, and deleted whole.
   */
  lemma StyleBlockRemoved(s: string, i: nat, g: nat, c: nat)
    requires OpensStyle(s, i, g) && NearestClose(s, "</style>", g + 1, c)
    ensures MatchEnd(StyleBlock, s, i) == Some(c + 8)
    ensures ReplaceFrom(StyleBlock, s, i) == ReplaceFrom(StyleBlock, s, c + 8)
  {
    StyleBlockEnds(s, i, g, c);
    Replaced(StyleBlock, s, i, c + 8);
  }

  lemma StyleBlockEnds(s: string, i: nat, g: nat, c: nat)
    requires OpensStyle(s, i, g) && NearestClose(s, "</style>", g + 1, c)
    ensures StyleBlockEnd(s, i) == Some(c + 8)
  {
    FirstAt(s, '>', i + 6, g);
    NearestFound(s, "</style>", g + 1, c);
    StyleBlockEndIs(s, i, g, c);
  }

  /** The style-block matcher, read off the two searches it makes. */
  lemma StyleBlockEndIs(s: string, i: nat, g: nat, c: nat)
    requires i <= |s| && CiAt(s, i, StyleOpen) && IndexOf(s, '>', i + 6) == Some(g)
    requires FindCi(s, StyleClose, g + 1, |s|) == Some(c)
    ensures StyleBlockEnd(s, i) == Some(c + 8)
  {
    ElementRestIs(s, i + 6, StyleClose, g, c);
  }

  /** The rest of an element ends just after the nearest closing tag past the first `>`. */
  lemma ElementRestIs(s: string, from: nat, close: string, g: nat, c: nat)
    requires from <= |s| && IndexOf(s, '>', from) == Some(g)
    requires FindCi(s, close, g + 1, |s|) == Some(c)
    ensures ElementRestEnd(s, from, close) == Some(c + |close|)
  {
    ThroughFound(s, close, g + 1, c);
  }

  /** A style block with no closing tag anywhere after its opening tag is not matched. */
  lemma UnclosedStyleKept(s: string, i: nat, g: nat)
    requires OpensStyle(s, i, g)
    requires forall m :: g < m ==> !CiAt(s, m, "</style>")
    ensures MatchEnd(StyleBlock, s, i) == None
  {
    assert IndexOf(s, '>', i + 6) == Some(g);
  }

  /**
   * `s[i..q+1]` is an event-handler attribute with the whitespace before it:
   * whitespace up to `o`, then `on` in any case and at least one more word
   * character up to `w`, then `="` and the value up to the next `"`, at `q`.
   * The whitespace may be empty, so `o` may be inside a longer word.
   */
  predicate IsHandler(s: string, i: nat, o: nat, w: nat, q: nat) {
    i <= o && o + 2 < w && w + 2 <= q < |s|
    && (forall m :: i <= m < o ==> IsSpace(s[m]))
    && CiAt(s, o, "on") && (forall m :: o + 2 <= m < w ==> IsWord(s[m]))
    && CiAt(s, w, "=\"") && s[q] == '"' && forall m :: w + 2 <= m < q ==> s[m] != '"'
  }

  /** An event-handler attribute is deleted along with the whitespace before it. */
  lemma HandlerRemoved(s: string, i: nat, o: nat, w: nat, q: nat)
    requires IsHandler(s, i, o, w, q)
    ensures MatchEnd(EventHandler, s, i) == Some(q + 1)
    ensures ReplaceFrom(EventHandler, s, i) == ReplaceFrom(EventHandler, s, q + 1)
  {
    HandlerEnds(s, i, o, w, q);
    Replaced(EventHandler, s, i, q + 1);
  }

  lemma HandlerEnds(s: string, i: nat, o: nat, w: nat, q: nat)
    requires IsHandler(s, i, o, w, q)
    ensures EventHandlerEnd(s, i) == Some(q + 1)
  {
    HandlerSpaceEnd(s, i, o);
    HandlerWordEnd(s, o, w);
    assert IndexOf(s, '"', w + 2) == Some(q);
  }

  /** The whitespace before a handler ends at its `on`, which is no whitespace. */
  lemma HandlerSpaceEnd(s: string, i: nat, o: nat)
    requires i <= o < |s| && (forall m :: i <= m < o ==> IsSpace(s[m])) && CiAt(s, o, "on")
    ensures SpaceEnd(s, i) == o
  {
    CiAtMeans(s, o, "on");
    SameLetterMeans(s[o], 'o');
    SpaceEndAt(s, i, o);
  }

  /** The word after `on` ends at the `=`, which is no word character. */
  lemma HandlerWordEnd(s: string, o: nat, w: nat)
    requires o + 2 <= w < |s| && (forall m :: o + 2 <= m < w ==> IsWord(s[m])) && CiAt(s, w, "=\"")
    ensures WordEnd(s, o + 2) == w
  {
    CiAtMeans(s, w, "=\"");
    SameLetterMeans(s[w], '=');
    WordEndAt(s, o + 2, w);
  }

  /**
   * The event-handler pattern matches at `i` exactly when an event-handler
   * attribute, with the whitespace before it, starts there, and the match
   * ends at that attribute's closing quote.
   */
  lemma HandlerMatch(s: string, i: nat, q: nat)
    requires i <= |s|
    ensures MatchEnd(EventHandler, s, i) == Some(q + 1) <==> exists o, w :: IsHandler(s, i, o, w, q)
  {
    if MatchEnd(EventHandler, s, i) == Some(q + 1) {
      HandlerShape(s, i, q);
    } else if exists o, w :: IsHandler(s, i, o, w, q) {
      var o, w :| IsHandler(s, i, o, w, q);
      HandlerRemoved(s, i, o, w, q);
    }
  }

  /** A handler match is the whitespace run, `on` and the word after it, then the quoted value. */
  lemma HandlerShape(s: string, i: nat, q: nat)
    requires i <= |s| && MatchEnd(EventHandler, s, i) == Some(q + 1)
    ensures exists o, w :: IsHandler(s, i, o, w, q)
  {
    var o := SpaceEnd(s, i);
    var w := WordEnd(s, o + 2);
    assert IsHandler(s, i, o, w, q);
  }

  /** `s[i..g+1]` opens a script block: `<script` in any case, up to the first `>` after it. */
  predicate OpensScript(s: string, i: nat, g: nat) {
    CiAt(s, i, "<script") && i + 7 <= g < |s| && s[g] == '>'
    && forall m :: i + 7 <= m < g ==> s[m] != '>'
  }

  /** The opening tag `s[i..g+1]` mentions `application/ld+json`, in any case. */
  predicate MarkedLdJson(s: string, i: nat, g: nat) {
    exists m :: i + 7 <= m && m + |LdJson| <= g && CiAt(s, m, LdJson)
  }

  /** The nearest closing tag `close` (any case) at or after `from` starts at `c`. */
  predicate NearestClose(s: string, close: string, from: nat, c: nat) {
    from <= c && c + |close| <= |s| && CiAt(s, c, close)
    && forall m :: from <= m < c ==> !CiAt(s, m, close)
  }
  /** The first `c` at or after `from` is found where it is. */
  lemma FirstAt(s: string, c: char, from: nat, g: nat)
    requires from <= g < |s| && s[g] == c
    requires forall m :: from <= m < g ==> s[m] != c
    ensures IndexOf(s, c, from) == Some(g)
  {
  }

  /** The nearest occurrence of `close` is the one the lazy search stops at. */
  lemma NearestFound(s: string, close: string, from: nat, c: nat)
    requires NearestClose(s, close, from, c)
    ensures FindCi(s, close, from, |s|) == Some(c)
  {
  }

  /** An occurrence of `lit` ending by `end` makes the search succeed. */
  lemma Found(s: string, lit: string, from: nat, end: nat, m: nat)
    requires end <= |s| && from <= m && m + |lit| <= end && CiAt(s, m, lit)
    ensures FindCi(s, lit, from, end).Some?
  {
  }

  /** With no occurrence of `lit` ending by `end`, the search fails. */
  lemma NotFound(s: string, lit: string, from: nat, end: nat)
    requires end <= |s|
    requires forall m :: from <= m && m + |lit| <= end ==> !CiAt(s, m, lit)
    ensures FindCi(s, lit, from, end) == None
  {
  }


  /**
   * A script block whose opening tag is not marked as ld+json is matched up
   * to the nearest closing tag after that opening tag, and deleted whole.
   */
  lemma ScriptBlockRemoved(s: string, i: nat, g: nat, c: nat)
    requires OpensScript(s, i, g) && !MarkedLdJson(s, i, g) && NearestClose(s, "</script>", g + 1, c)
    ensures MatchEnd(ScriptBlock, s, i) == Some(c + 9)
    ensures ReplaceFrom(ScriptBlock, s, i) == ReplaceFrom(ScriptBlock, s, c + 9)
  {
    ScriptBlockEnds(s, i, g, c);
    Replaced(ScriptBlock, s, i, c + 9);
  }

  lemma ScriptBlockEnds(s: string, i: nat, g: nat, c: nat)
    requires OpensScript(s, i, g) && !MarkedLdJson(s, i, g) && NearestClose(s, "</script>", g + 1, c)
    ensures ScriptBlockEnd(s, i) == Some(c + 9)
  {
    FirstAt(s, '>', i + 7, g);
    NotFound(s, LdJson, i + 7, g);
    NearestFound(s, "</script>", g + 1, c);
    ScriptBlockEndIs(s, i, g, c);
  }

  /** The script-block matcher, read off the three searches it makes. */
  lemma ScriptBlockEndIs(s: string, i: nat, g: nat, c: nat)
    requires i <= |s| && CiAt(s, i, ScriptOpen) && IndexOf(s, '>', i + 7) == Some(g)
    requires FindCi(s, LdJson, i + 7, g) == None && FindCi(s, ScriptClose, g + 1, |s|) == Some(c)
    ensures ScriptBlockEnd(s, i) == Some(c + 9)
  {
    Unmarked(s, i + 7, g);
    ElementRestIs(s, i + 7, ScriptClose, g, c);
  }

  /** Without the marker before the first `>`, the lookahead lets the match go on. */
  lemma Unmarked(s: string, from: nat, g: nat)
    requires from <= |s| && IndexOf(s, '>', from) == Some(g) && FindCi(s, LdJson, from, g) == None
    ensures !MarkedBeforeClose(s, from)
  {
  }

  /** `ThroughLit` ends just after the nearest occurrence that `FindCi` reports. */
  lemma ThroughFound(s: string, lit: string, from: nat, c: nat)
    requires FindCi(s, lit, from, |s|) == Some(c)
    ensures ThroughLit(s, lit, from) == Some(c + |lit|)
  {
  }

  /** A script block with no closing tag anywhere after its opening tag is not matched. */
  lemma UnclosedScriptKept(s: string, i: nat, g: nat)
    requires OpensScript(s, i, g)
    requires forall m :: g < m ==> !CiAt(s, m, "</script>")
    ensures MatchEnd(ScriptBlock, s, i) == None
  {
    assert IndexOf(s, '>', i + 7) == Some(g);
  }

  /** A script block whose opening tag is marked as ld+json is not matched. */
  lemma LdJsonScriptNotMatched(s: string, i: nat, g: nat)
    requires OpensScript(s, i, g) && MarkedLdJson(s, i, g)
    ensures MatchEnd(ScriptBlock, s, i) == None
  {
    var m :| i + 7 <= m && m + |LdJson| <= g && CiAt(s, m, LdJson);
    ScriptBlockDeclines(s, i, g, m);
  }

  lemma ScriptBlockDeclines(s: string, i: nat, g: nat, m: nat)
    requires OpensScript(s, i, g) && i + 7 <= m && m + |LdJson| <= g && CiAt(s, m, LdJson)
    ensures ScriptBlockEnd(s, i) == None
  {
    FirstAt(s, '>', i + 7, g);
    Found(s, LdJson, i + 7, g, m);
  }

  /**
   * When the opening tag of an ld+json script block holds no other `<`, the
   * script pass copies that tag whole and carries on after it.
   */
  lemma LdJsonScriptKept(s: string, i: nat, g: nat)
    requires OpensScript(s, i, g) && MarkedLdJson(s, i, g)
    requires forall m :: i < m <= g ==> s[m] != '<'
    ensures ReplaceFrom(ScriptBlock, s, i) == s[i..g + 1] + ReplaceFrom(ScriptBlock, s, g + 1)
  {
    LdJsonScriptNotMatched(s, i, g);
    UnmatchedScriptTagKept(s, i, g);
  }

  /**
   * A position where no script block starts, followed by text without `<`,
   * is copied by the script pass along with that text.
   */
  lemma UnmatchedScriptTagKept(s: string, i: nat, g: nat)
    requires i <= g < |s| && MatchEnd(ScriptBlock, s, i).None?
    requires forall m :: i < m <= g ==> s[m] != '<'
    ensures ReplaceFrom(ScriptBlock, s, i) == s[i..g + 1] + ReplaceFrom(ScriptBlock, s, g + 1)
  {
    forall m | i <= m < g + 1 ensures MatchEnd(ScriptBlock, s, m).None? {
      if m > i {
        Disagrees(s, m, "<script", 0);
      }
    }
    KeepUntil(ScriptBlock, s, i, g + 1);
  }

  /**
   * The style-attribute and event-handler patterns both end at a double
   * quote, so text without one is left as it is by those two passes.
   */
  lemma QuotelessUntouched(p: Pass, s: string)
    requires p == StyleAttribute || p == EventHandler
    requires forall m :: 0 <= m < |s| ==> s[m] != '"'
    ensures ReplaceAll(p, s) == s
  {
    assert forall m :: 0 <= m < |s| ==> MatchEnd(p, s, m).None?;
    NoMatchNoChange(p, s);
  }

  /** The whitespace pass copies a stretch without whitespace as it is. */
  lemma SpaceFreeKept(s: string, i: nat, j: nat)
    requires i <= j <= |s|
    requires forall m :: i <= m < j ==> !IsSpace(s[m])
    ensures ReplaceFrom(Whitespace, s, i) == s[i..j] + ReplaceFrom(Whitespace, s, j)
  {
    KeepUntil(Whitespace, s, i, j);
  }

  /** A maximal run of whitespace `s[i..j]` becomes one space. */
  lemma SpaceRunCollapsed(s: string, i: nat, j: nat)
    requires i < j <= |s|
    requires forall m :: i <= m < j ==> IsSpace(s[m])
    requires j < |s| ==> !IsSpace(s[j])
    ensures ReplaceFrom(Whitespace, s, i) == " " + ReplaceFrom(Whitespace, s, j)
  {
    SpaceEndAt(s, i, j);
    Replaced(Whitespace, s, i, j);
  }

  lemma {:induction false} WordEndAt(s: string, i: nat, j: nat)
    requires i <= j <= |s|
    requires forall m :: i <= m < j ==> IsWord(s[m])
    requires j < |s| ==> !IsWord(s[j])
    ensures WordEnd(s, i) == j
    decreases j - i
  {
    if i < j {
      WordEndAt(s, i + 1, j);
    }
  }

  lemma {:induction false} SpaceEndAt(s: string, i: nat, j: nat)
    requires i <= j <= |s|
    requires forall m :: i <= m < j ==> IsSpace(s[m])
    requires j < |s| ==> !IsSpace(s[j])
    ensures SpaceEnd(s, i) == j
    decreases j - i
  {
    if i < j {
      SpaceEndAt(s, i + 1, j);
    }
  }

  // ---------------------------------------------------------------------------
  // The sanitized text
  // ---------------------------------------------------------------------------

  /** The sanitized text contains no `<` followed later by a `>`. */
  lemma SanitizedHasNoTag(body: string)
    ensures NoTag(Sanitize(body))
  {
    if body != [] {
      var noScripts := ReplaceAll(ScriptBlock, ReplaceAll(EventHandler,
        ReplaceAll(StyleBlock, ReplaceAll(StyleAttribute, body))));
      TagPassLeavesNoTag(noScripts, 0);
      CollapseKeepsNoTag(ReplaceAll(AnyTag, noScripts), 0);
    }
  }

  /** The sanitized text holds no whitespace but single plain spaces. */
  lemma SanitizedIsCollapsed(body: string)
    ensures Collapsed(Sanitize(body))
  {
    if body != [] {
      var noTags := ReplaceAll(AnyTag, ReplaceAll(ScriptBlock, ReplaceAll(EventHandler,
        ReplaceAll(StyleBlock, ReplaceAll(StyleAttribute, body)))));
      CollapseFrom(noTags, 0);
    }
  }

  /** Every pass but the last needs a non-whitespace character to match. */
  lemma MarkupPassesSkipWhitespace(p: Pass, s: string)
    requires p != Whitespace
    requires forall j :: 0 <= j < |s| ==> IsSpace(s[j])
    ensures ReplaceAll(p, s) == s
  {
    forall m | 0 <= m < |s| ensures MatchEnd(p, s, m).None? {
      assert !SameLetter(s[m], 's') && s[m] != '<';
      if p == EventHandler {
        assert SpaceEnd(s, m) == |s|;
      }
    }
    NoMatchNoChange(p, s);
  }

  /** A body of whitespace only is not empty to the guard, and comes out as one space. */
  lemma WhitespaceOnlyBody(body: string)
    requires body != []
    requires forall j :: 0 <= j < |body| ==> IsSpace(body[j])
    ensures Sanitize(body) == " "
  {
    MarkupPassesSkipWhitespace(StyleAttribute, body);
    MarkupPassesSkipWhitespace(StyleBlock, body);
    MarkupPassesSkipWhitespace(EventHandler, body);
    MarkupPassesSkipWhitespace(ScriptBlock, body);
    MarkupPassesSkipWhitespace(AnyTag, body);
    assert SpaceEnd(body, 0) == |body|;
  }
}
