/**
 * Worked pages for the sanitizer. Each page is written as a concatenation of
 * its tags and text, and each pass is stepped through with the general step
 * lemmas of SanitizerProperties. The step lemmas take the text they work on
 * as a parameter `s` equal to the page, so that the verifier reasons about
 * the scan step by step instead of evaluating it on the literal.
 */
module SanitizerExamples {
  import opened Wrappers
  import opened ContentService
  import opened SanitizerProperties

  // ---------------------------------------------------------------------------
  // A script between two words
  // ---------------------------------------------------------------------------

  /** The page of the Hello World example: a script sits between the two words. */
  function HelloPage(): (s: string)
    ensures |s| == 59
  {
    "<html>" + "<body>" + "Hello" + "<script>" + "bad()" + "</script>" + " World" + "</body>" + "</html>"
  }

  /** What is left of HelloPage once its script block is gone. */
  function HelloNoScript(): (s: string)
    ensures |s| == 37
  {
    "<html>" + "<body>" + "Hello" + " World" + "</body>" + "</html>"
  }

  /** The two words of the page, one space apart. */
  function HelloWorld(): (s: string)
    ensures |s| == 11
  {
    "Hello" + " " + "World"
  }

  /** The page has a `<` only where one of its six tags begins. */
  lemma HelloPageTagStarts(s: string)
    requires s == HelloPage()
    ensures forall m :: 0 <= m < |s| && s[m] == '<' ==> m == 0 || m == 6 || m == 17 || m == 30 || m == 45 || m == 52
  {
  }

  /** No `<style` opening is among the page's first two tags and first word... */
  lemma HelloHeadHasNoStyleBlock(s: string)
    requires s == HelloPage()
    ensures forall m :: 0 <= m < 17 ==> MatchEnd(StyleBlock, s, m).None?
  {
    HelloPageTagStarts(s);
    forall m | 0 <= m < 17 ensures MatchEnd(StyleBlock, s, m).None? {
      if m == 0 || m == 6 {
        Disagrees(s, m, "<style", 1);
      } else {
        Disagrees(s, m, "<style", 0);
      }
    }
  }

  /** ...nor at the script tag... */
  lemma HelloScriptTagIsNoStyleBlock(s: string)
    requires s == HelloPage()
    ensures forall m :: 17 <= m < 25 ==> MatchEnd(StyleBlock, s, m).None?
  {
    HelloPageTagStarts(s);
    forall m | 17 <= m < 25 ensures MatchEnd(StyleBlock, s, m).None? {
      if m == 17 {
        Disagrees(s, m, "<style", 2);
      } else {
        Disagrees(s, m, "<style", 0);
      }
    }
  }

  /** ...nor in the rest of it... */
  lemma HelloTailHasNoStyleBlock(s: string)
    requires s == HelloPage()
    ensures forall m :: 25 <= m < |s| ==> MatchEnd(StyleBlock, s, m).None?
  {
    HelloPageTagStarts(s);
    forall m | 25 <= m < |s| ensures MatchEnd(StyleBlock, s, m).None? {
      if m == 30 || m == 45 || m == 52 {
        Disagrees(s, m, "<style", 1);
      } else {
        Disagrees(s, m, "<style", 0);
      }
    }
  }

  /** ...so the style-block pass leaves the page as it is. */
  lemma HelloHasNoStyleBlock(s: string)
    requires s == HelloPage()
    ensures ReplaceAll(StyleBlock, s) == s
  {
    HelloHeadHasNoStyleBlock(s);
    HelloScriptTagIsNoStyleBlock(s);
    HelloTailHasNoStyleBlock(s);
    NoMatchNoChange(StyleBlock, s);
  }

  /** The script pass copies the page up to the script block... */
  lemma HelloBeforeScript(s: string)
    requires s == HelloPage()
    ensures ReplaceFrom(ScriptBlock, s, 0) == s[..17] + ReplaceFrom(ScriptBlock, s, 17)
  {
    HelloPageTagStarts(s);
    forall m | 0 <= m < 17 ensures MatchEnd(ScriptBlock, s, m).None? {
      if m == 0 || m == 6 {
        Disagrees(s, m, "<script", 1);
      } else {
        Disagrees(s, m, "<script", 0);
      }
    }
    KeepUntil(ScriptBlock, s, 0, 17);
  }

  /** ...deletes the block from its `<script>` through its `</script>`... */
  lemma HelloScriptBlock(s: string)
    requires s == HelloPage()
    ensures ReplaceFrom(ScriptBlock, s, 17) == ReplaceFrom(ScriptBlock, s, 39)
  {
    assert s[17..24] == "<script";
    ExactAt(s, 17, "<script");
    assert s[30..39] == "</script>";
    ExactAt(s, 30, "</script>");
    forall m | 25 <= m < 30 ensures !CiAt(s, m, "</script>") {
      Disagrees(s, m, "</script>", 0);
    }
    ScriptBlockRemoved(s, 17, 24, 30);
  }

  /** ...and copies the rest. */
  lemma HelloAfterScript(s: string)
    requires s == HelloPage()
    ensures ReplaceFrom(ScriptBlock, s, 39) == s[39..]
  {
    HelloPageTagStarts(s);
    forall m | 39 <= m < |s| ensures MatchEnd(ScriptBlock, s, m).None? {
      if m == 45 || m == 52 {
        Disagrees(s, m, "<script", 1);
      } else {
        Disagrees(s, m, "<script", 0);
      }
    }
    KeepUntil(ScriptBlock, s, 39, |s|);
  }

  lemma HelloAroundScript()
    ensures HelloPage()[..17] + HelloPage()[39..] == HelloNoScript()
  {
  }

  /** The script pass removes the one script block, tags and all. */
  lemma HelloScriptRemoved()
    ensures ReplaceAll(ScriptBlock, HelloPage()) == HelloNoScript()
  {
    HelloBeforeScript(HelloPage());
    HelloScriptBlock(HelloPage());
    HelloAfterScript(HelloPage());
    HelloAroundScript();
  }

  lemma HelloWorldBetweenTags()
    ensures HelloNoScript()[12..23] == HelloWorld()
  {
  }

  /** The tag pass drops the four remaining tags and keeps the text between them. */
  lemma HelloTagsRemoved(t: string)
    requires t == HelloNoScript()
    ensures ReplaceAll(AnyTag, t) == HelloWorld()
  {
    assert IsTag(t, 0, 6) && IsTag(t, 6, 12) && IsTag(t, 23, 30) && IsTag(t, 30, 37);
    assert forall m :: 12 <= m < 23 ==> t[m] != '<';
    calc {
      ReplaceAll(AnyTag, t);
      ReplaceFrom(AnyTag, t, 0);
      { TagDropped(t, 0, 6); }
      ReplaceFrom(AnyTag, t, 6);
      { TagPassKeepsBody(t, 6, 12, 23, 30); }
      t[12..23] + ReplaceFrom(AnyTag, t, 30);
      { TagDropped(t, 30, 37); }
      t[12..23];
      { HelloWorldBetweenTags(); }
      HelloWorld();
    }
  }

  lemma HelloWorldWords()
    ensures HelloWorld()[0..5] + (" " + HelloWorld()[6..11]) == HelloWorld()
  {
  }

  /** The one space between the two words is kept as it is. */
  lemma HelloWorldCollapsed(t: string)
    requires t == HelloWorld()
    ensures ReplaceAll(Whitespace, t) == t
  {
    calc {
      ReplaceAll(Whitespace, t);
      ReplaceFrom(Whitespace, t, 0);
      { SpaceFreeKept(t, 0, 5); }
      t[0..5] + ReplaceFrom(Whitespace, t, 5);
      { SpaceRunCollapsed(t, 5, 6); }
      t[0..5] + (" " + ReplaceFrom(Whitespace, t, 6));
      { SpaceFreeKept(t, 6, 11); }
      t[0..5] + (" " + t[6..11]);
      { HelloWorldWords(); }
      t;
    }
  }

  /**
   * A page with a script between two words comes out as the two words with
   * one space: the script's code is gone along with every tag.
   */
  lemma HelloWorldPage()
    ensures Sanitize(HelloPage()) == HelloWorld()
  {
    var s := HelloPage();
    assert forall m :: 0 <= m < |s| ==> s[m] != '"';
    QuotelessUntouched(StyleAttribute, s);
    HelloHasNoStyleBlock(s);
    QuotelessUntouched(EventHandler, s);
    HelloScriptRemoved();
    HelloTagsRemoved(HelloNoScript());
    HelloWorldCollapsed(HelloWorld());
  }

  // ---------------------------------------------------------------------------
  // A structured-data script
  // ---------------------------------------------------------------------------

  /** A page whose only content is a structured-data script: `{}` typed as ld+json. */
  function LdJsonPage(): (s: string)
    ensures |s| == 44
  {
    "<script type=" + LdJson + ">" + "{}" + "</script>"
  }

  /** The script data left once the two tags are gone. */
  function LdJsonData(): (s: string)
    ensures |s| == 2
  {
    "{" + "}"
  }

  /** The page's two tags are script tags, so the style-block pass leaves it as it is. */
  lemma LdJsonPageHasNoStyleBlock(s: string)
    requires s == LdJsonPage()
    ensures ReplaceAll(StyleBlock, s) == s
  {
    LdJsonPageTagStarts(s);
    forall m | 0 <= m < |s| ensures MatchEnd(StyleBlock, s, m).None? {
      if m == 0 {
        Disagrees(s, m, "<style", 2);
      } else if m == 35 {
        Disagrees(s, m, "<style", 1);
      } else {
        Disagrees(s, m, "<style", 0);
      }
    }
    NoMatchNoChange(StyleBlock, s);
  }

  /** The page has a `<` only where its two tags begin. */
  lemma LdJsonPageTagStarts(s: string)
    requires s == LdJsonPage()
    ensures forall m :: 0 <= m < |s| && m != 0 && m != 35 ==> s[m] != '<'
  {
  }

  /** The page opens with a script tag that ends at position 32... */
  lemma LdJsonPageOpensScript(s: string)
    requires s == LdJsonPage()
    ensures OpensScript(s, 0, 32)
  {
    assert s[0..7] == "<script";
    ExactAt(s, 0, "<script");
    assert forall m :: 7 <= m < 32 ==> s[m] != '>';
  }

  /** ...and that tag is typed as ld+json. */
  lemma LdJsonPageMarked(s: string)
    requires s == LdJsonPage()
    ensures MarkedLdJson(s, 0, 32)
  {
    assert s[13..32] == LdJson;
    ExactAt(s, 13, LdJson);
  }

  /** The script pass copies the ld+json opening tag... */
  lemma LdJsonOpeningKept(s: string)
    requires s == LdJsonPage()
    ensures ReplaceFrom(ScriptBlock, s, 0) == s[0..33] + ReplaceFrom(ScriptBlock, s, 33)
  {
    LdJsonPageDeclined(s);
    LdJsonPageTagStarts(s);
    UnmatchedScriptTagKept(s, 0, 32);
  }

  /** The marker stops a script block from starting at the page's first tag. */
  lemma LdJsonPageDeclined(s: string)
    requires s == LdJsonPage()
    ensures MatchEnd(ScriptBlock, s, 0).None?
  {
    LdJsonPageOpensScript(s);
    LdJsonPageMarked(s);
    LdJsonScriptNotMatched(s, 0, 32);
  }

  /** ...and everything after it, since no other script block starts there. */
  lemma LdJsonRestKept(s: string)
    requires s == LdJsonPage()
    ensures ReplaceFrom(ScriptBlock, s, 33) == s[33..]
  {
    LdJsonPageTagStarts(s);
    forall m | 33 <= m < |s| ensures MatchEnd(ScriptBlock, s, m).None? {
      if m == 35 {
        Disagrees(s, m, "<script", 1);
      } else {
        Disagrees(s, m, "<script", 0);
      }
    }
    KeepUntil(ScriptBlock, s, 33, |s|);
  }

  /** The script pass leaves the structured-data block alone, tags and all. */
  lemma LdJsonPageKeptByScriptPass(s: string)
    requires s == LdJsonPage()
    ensures ReplaceAll(ScriptBlock, s) == s
  {
    calc {
      ReplaceAll(ScriptBlock, s);
      ReplaceFrom(ScriptBlock, s, 0);
      { LdJsonOpeningKept(s); }
      s[0..33] + ReplaceFrom(ScriptBlock, s, 33);
      { LdJsonRestKept(s); }
      s[0..33] + s[33..];
      s;
    }
  }

  lemma LdJsonDataInPage()
    ensures LdJsonPage()[33..35] == LdJsonData()
  {
  }

  /** The tag pass strips the two tags around the data. */
  lemma LdJsonPageTagsRemoved(s: string)
    requires s == LdJsonPage()
    ensures ReplaceAll(AnyTag, s) == LdJsonData()
  {
    assert IsTag(s, 0, 33) && IsTag(s, 35, 44);
    assert forall m :: 33 <= m < 35 ==> s[m] != '<';
    calc {
      ReplaceAll(AnyTag, s);
      ReplaceFrom(AnyTag, s, 0);
      { TagPassKeepsBody(s, 0, 33, 35, 44); }
      s[33..35] + ReplaceFrom(AnyTag, s, 44);
      s[33..35];
      { LdJsonDataInPage(); }
      LdJsonData();
    }
  }

  /** The data holds no whitespace, so the whitespace pass leaves it as it is. */
  lemma LdJsonDataCollapsed(d: string)
    requires d == LdJsonData()
    ensures ReplaceAll(Whitespace, d) == d
  {
    assert forall m :: 0 <= m < |d| ==> !IsSpace(d[m]);
    SpaceFreeKept(d, 0, |d|);
  }

  /**
   * Structured data survives: a script block typed as ld+json keeps its
   * content, and only its tags are stripped.
   */
  lemma LdJsonPageKeepsData()
    ensures Sanitize(LdJsonPage()) == LdJsonData()
  {
    var s := LdJsonPage();
    assert forall m :: 0 <= m < |s| ==> s[m] != '"';
    QuotelessUntouched(StyleAttribute, s);
    LdJsonPageHasNoStyleBlock(s);
    QuotelessUntouched(EventHandler, s);
    LdJsonPageKeptByScriptPass(s);
    LdJsonPageTagsRemoved(s);
    LdJsonDataCollapsed(LdJsonData());
  }

  // ---------------------------------------------------------------------------
  // An attribute whose name merely contains `on`
  // ---------------------------------------------------------------------------

  /** A tag with a `bonus` attribute, which is no event handler. */
  function BonusTag(): (s: string)
    ensures |s| == 13
  {
    "<a b" + "onus=" + "\"x\"" + ">"
  }

  /** What the event-handler pass leaves of BonusTag. */
  function BonusCut(): (s: string)
    ensures |s| == 5
  {
    "<a b" + ">"
  }

  /** No handler starts before the `on` inside `bonus`, not even at the space before it... */
  lemma BonusBefore(s: string)
    requires s == BonusTag()
    ensures ReplaceFrom(EventHandler, s, 0) == s[..4] + ReplaceFrom(EventHandler, s, 4)
  {
    forall m | 0 <= m < 4 ensures MatchEnd(EventHandler, s, m).None? {
      if m == 2 {
        SpaceEndAt(s, 2, 3);
        Disagrees(s, 3, "on", 0);
      } else {
        SpaceEndAt(s, m, m);
        Disagrees(s, m, "on", 0);
      }
    }
    KeepUntil(EventHandler, s, 0, 4);
  }

  /** ...one starts at that `on`, with no whitespace before it, and ends at the closing quote... */
  lemma BonusHandler(s: string)
    requires s == BonusTag()
    ensures ReplaceFrom(EventHandler, s, 4) == ReplaceFrom(EventHandler, s, 12)
  {
    assert s[4..6] == "on";
    ExactAt(s, 4, "on");
    assert s[8..10] == "=\"";
    ExactAt(s, 8, "=\"");
    HandlerRemoved(s, 4, 4, 8, 11);
  }

  /** ...and the closing `>` is copied. */
  lemma BonusAfter(s: string)
    requires s == BonusTag()
    ensures ReplaceFrom(EventHandler, s, 12) == s[12..]
  {
    SpaceEndAt(s, 12, 12);
    Disagrees(s, 12, "on", 0);
    KeepUntil(EventHandler, s, 12, 13);
  }

  lemma BonusAroundHandler()
    ensures BonusTag()[..4] + BonusTag()[12..] == BonusCut()
  {
  }

  /**
   * The event-handler pattern asks for no whitespace before `on`, so it also
   * cuts an attribute whose name only contains `on`: `<a bonus="x">` becomes
   * `<a b>`.
   */
  lemma BonusAttributeCut()
    ensures ReplaceAll(EventHandler, BonusTag()) == BonusCut()
  {
    BonusBefore(BonusTag());
    BonusHandler(BonusTag());
    BonusAfter(BonusTag());
    BonusAroundHandler();
  }

  // ---------------------------------------------------------------------------
  // Why the order of the passes matters
  // ---------------------------------------------------------------------------

  /** A style attribute whose value holds the text of a style block's opening tag. */
  function QuotedStyle(): (s: string)
    ensures |s| == 24
  {
    "style=\"" + "<style>" + "\"x" + "</style>"
  }

  /** What is left of QuotedStyle once its style attribute is gone. */
  function AfterAttribute(): (s: string)
    ensures |s| == 9
  {
    "x" + "</style>"
  }

  /** The attribute pass, which runs first, removes `style="<style>"` whole... */
  lemma QuotedStyleAttribute(s: string)
    requires s == QuotedStyle()
    ensures ReplaceFrom(StyleAttribute, s, 0) == ReplaceFrom(StyleAttribute, s, 15)
  {
    assert s[0..7] == "style=\"";
    ExactAt(s, 0, "style=\"");
    assert forall m :: 7 <= m < 14 ==> s[m] != '"';
    StyleAttributeRemoved(s, 0, 14);
  }

  /** ...and, with no quote after it, copies the rest. */
  lemma QuotedStyleRest(s: string)
    requires s == QuotedStyle()
    ensures ReplaceFrom(StyleAttribute, s, 15) == AfterAttribute()
  {
    forall m | 15 <= m < 24 ensures MatchEnd(StyleAttribute, s, m).None? {
      assert forall j :: m + 7 <= j < 24 ==> s[j] != '"';
    }
    KeepUntil(StyleAttribute, s, 15, 24);
    assert s[15..24] == AfterAttribute();
  }

  /** The closing tag that is left is no block opening for the two block passes. */
  lemma AfterAttributeHasNoBlock(t: string)
    requires t == AfterAttribute()
    ensures ReplaceAll(StyleBlock, t) == t && ReplaceAll(ScriptBlock, t) == t
  {
    forall m | 0 <= m < 9 ensures MatchEnd(StyleBlock, t, m).None? && MatchEnd(ScriptBlock, t, m).None? {
      if m == 1 {
        Disagrees(t, 1, "<style", 1);
        Disagrees(t, 1, "<script", 1);
      } else {
        Disagrees(t, m, "<style", 0);
        Disagrees(t, m, "<script", 0);
      }
    }
    NoMatchNoChange(StyleBlock, t);
    NoMatchNoChange(ScriptBlock, t);
  }

  /** The tag pass drops the closing tag, and the whitespace pass keeps `x`. */
  lemma AfterAttributeText(t: string)
    requires t == AfterAttribute()
    ensures ReplaceAll(Whitespace, ReplaceAll(AnyTag, t)) == "x"
  {
    PlainTextKept(AnyTag, t, 0, 1);
    TagDropped(t, 1, 9);
    NoMatchNoChange(Whitespace, "x");
  }

  lemma AttributePassFirst(s: string)
    requires s == QuotedStyle()
    ensures ReplaceAll(StyleAttribute, s) == AfterAttribute()
  {
    QuotedStyleAttribute(s);
    QuotedStyleRest(s);
  }

  lemma LaterPasses(t: string)
    requires t == AfterAttribute()
    ensures ReplaceAll(Whitespace, ReplaceAll(AnyTag, ReplaceAll(ScriptBlock,
      ReplaceAll(EventHandler, ReplaceAll(StyleBlock, t))))) == "x"
  {
    AfterAttributeHasNoBlock(t);
    QuotelessUntouched(EventHandler, t);
    AfterAttributeText(t);
  }

  /**
   * In the order of the code, the attribute goes first and takes the
   * `<style>` inside its value with it, so only `x` is left.
   */
  lemma QuotedStyleSanitized()
    ensures Sanitize(QuotedStyle()) == "x"
  {
    AttributePassFirst(QuotedStyle());
    LaterPasses(AfterAttribute());
  }

  /** The `<style>` inside the attribute's value reads as a style block's opening tag... */
  lemma QuotedStyleOpens(s: string)
    requires s == QuotedStyle()
    ensures OpensStyle(s, 7, 13)
  {
    assert s[7..13] == "<style";
    ExactAt(s, 7, "<style");
  }

  /** ...closed by the `</style>` at the end. */
  lemma QuotedStyleCloses(s: string)
    requires s == QuotedStyle()
    ensures NearestClose(s, "</style>", 14, 16)
  {
    Disagrees(s, 14, "</style>", 0);
    Disagrees(s, 15, "</style>", 0);
    assert s[16..24] == "</style>";
    ExactAt(s, 16, "</style>");
  }

  /** The style-block pass would read a block from the `<style>` in the value to the `</style>`. */
  lemma QuotedStyleBlockFirst(s: string)
    requires s == QuotedStyle()
    ensures ReplaceAll(StyleBlock, s) == "style=\""
  {
    PlainTextKept(StyleBlock, s, 0, 7);
    QuotedStyleOpens(s);
    QuotedStyleCloses(s);
    StyleBlockRemoved(s, 7, 13, 16);
    assert ReplaceFrom(StyleBlock, s, 24) == [];
    assert s[0..7] == "style=\"";
  }

  /**
   * Run in the other order, the first two passes leave `style="` instead:
   * the attribute has lost its closing quote to the block and is kept.
   */
  lemma SwappedPassesDiffer()
    ensures ReplaceAll(StyleAttribute, ReplaceAll(StyleBlock, QuotedStyle())) == "style=\""
  {
    QuotedStyleBlockFirst(QuotedStyle());
    var t: string := "style=\"";
    forall m | 0 <= m < 7 ensures MatchEnd(StyleAttribute, t, m).None? {
      assert ThroughChar(t, '"', m + 7) == None;
    }
    NoMatchNoChange(StyleAttribute, t);
  }
}
