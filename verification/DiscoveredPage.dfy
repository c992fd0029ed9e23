/** What the discover stage hands on of a page, in terms of the page and its hrefs. */
module DiscoveredPages {
  import opened Wrappers
  import opened Text
  import opened FirstOccurrences
  import opened UrlNormalizers
  import opened NormalFormTexts
  import opened DiscoverStages

  // ---------------------------------------------------------------- hrefs passed over

  /** The text begins with `prefix`, in whatever case. */
  predicate BeginsWith(s: string, prefix: string) {
    |prefix| <= |s| && SameButCase(s[..|prefix|], prefix)
  }

  predicate IsLower(s: string) {
    forall i :: 0 <= i < |s| ==> !('A' <= s[i] <= 'Z')
  }

  lemma LowerPrefix(s: string, prefix: string)
    requires IsLower(prefix)
    ensures StartsWith(ToLower(s), prefix) <==> BeginsWith(s, prefix)
  {
    LowerChars(s);
    LowerChars(prefix);
    assert ToLower(prefix) == prefix;
    if |prefix| <= |s| {
      LowerChars(s[..|prefix|]);
      assert ToLower(s[..|prefix|]) == ToLower(s)[..|prefix|];
      LowerIff(s[..|prefix|], prefix);
    }
  }

  /** Characters beyond the basic plane count twice. */
  lemma {:induction false} UnitsIs(s: string, c: char)
    ensures Units("") == 0 && Units(s + [c]) == Units(s) + if c as int < 0x10000 then 1 else 2
  {
    if s == "" {
      assert [c][1..] == "" && Units([c]) == (if c as int < 0x10000 then 1 else 2) + Units("");
    } else {
      UnitsIs(s[1..], c);
      assert (s + [c])[1..] == s[1..] + [c];
    }
  }

  /** A text that is to be passed over. */
  predicate Skipped(text: string) {
    || text == "" || text == "#" || 2048 < Units(text)
    || (exists i :: 0 <= i < |text| && (text[i] as int <= 0x1F || text[i] as int == 0x7F))
    || BeginsWith(text, "javascript:") || BeginsWith(text, "data:") || BeginsWith(text, "mailto:")
    || BeginsWith(text, "tel:")
  }

  /** Which hrefs are passed over, white space around them apart. */
  lemma SkippedIff(before: string, text: string, after: string)
    requires AllWhite(before) && AllWhite(after)
    requires text != "" ==> !White(text[0] as int) && !White(text[|text| - 1] as int)
    ensures ShouldSkipHref(before + text + after) <==> Skipped(text)
  {
    TrimIs(before, text, after);
    LowerPrefix(text, "javascript:");
    LowerPrefix(text, "data:");
    LowerPrefix(text, "mailto:");
    LowerPrefix(text, "tel:");
    ControlIff(text);
  }

  lemma ControlIff(text: string)
    ensures HasControlChars(text) <==>
            exists i :: 0 <= i < |text| && (text[i] as int <= 0x1F || text[i] as int == 0x7F)
  {
    if HasControlChars(text) {
      var i :| 0 <= i < |text| && ControlChar(text[i]);
      assert text[i] as int <= 0x1F || text[i] as int == 0x7F;
    }
    if i :| 0 <= i < |text| && (text[i] as int <= 0x1F || text[i] as int == 0x7F) {
      assert ControlChar(text[i]);
    }
  }

  // ---------------------------------------------------------------- what is handed on

  /** The href, resolved against the base, is a URL with this normal form. */
  predicate Names(e: Urls, base: string, href: string, normalized: string) {
    && !ShouldSkipHref(href) && e.resolve(href, base).Some?
    && var parsed := ParseCrawlUrl(e.resolve(href, base).value, e.parse, e.locale);
       parsed.Ok? && parsed.value.normalized == normalized
  }

  predicate SomeNames(e: Urls, base: string, hrefs: seq<string>, normalized: string) {
    exists i :: 0 <= i < |hrefs| && Names(e, base, hrefs[i], normalized)
  }

  lemma NamesIs(e: Urls, base: string, href: string, normalized: string)
    ensures Names(e, base, href, normalized) <==>
            Candidate(e, base, href).Some? && Candidate(e, base, href).value.normalized == normalized
  {}

  lemma SomeNamesIff(e: Urls, base: string, hrefs: seq<string>, normalized: string)
    ensures HasKey(Firsts(Candidates(e, base, hrefs), NormalizedOf), NormalizedOf, normalized) <==>
            SomeNames(e, base, hrefs, normalized)
  {
    HandedOnIff(e, base, hrefs, normalized);
    if SomeNames(e, base, hrefs, normalized) {
      var i :| 0 <= i < |hrefs| && Names(e, base, hrefs[i], normalized);
      NamesIs(e, base, hrefs[i], normalized);
    }
    if i :| 0 <= i < |hrefs| && Candidate(e, base, hrefs[i]).Some?
            && Candidate(e, base, hrefs[i]).value.normalized == normalized {
      NamesIs(e, base, hrefs[i], normalized);
    }
  }

  /**
   The stage hands on a normal form exactly if the content type says HTML and some href, resolved against the URL
   the page came from, or else the one asked for, names it.
   */
  lemma HandedOnOfPage(p: Page, e: Urls, base: string, normalized: string)
    requires base == match p.finalUrl case Some(url) => url case None => p.requestedUrl
    ensures HasKey(Links(p, e), NormalizedOf, normalized) <==>
            && p.contentType.Some? && BeginsWith(p.contentType.value, "text/html")
            && SomeNames(e, base, p.hrefs(base).1, normalized)
  {
    if p.contentType.Some? { LowerPrefix(p.contentType.value, "text/html"); }
    SomeNamesIff(e, base, p.hrefs(base).1, normalized);
  }
}
