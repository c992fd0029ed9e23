/** The discover stage: which links of a page are handed on, and in what order. */
module DiscoverStages {
  import opened Wrappers
  import opened Text
  import opened FirstOccurrences
  import opened UrlNormalizers
  import CrawlPipelines

  /** `resolve` makes an href absolute against a base; `parse` is the URL parser. */
  datatype Urls = Urls(resolve: (string, string) -> Option<string>, parse: string -> Option<Components>, locale: Locale)

  /** Length in UTF-16 code units. */
  function Units(s: string): nat {
    if s == "" then 0 else (if s[0] as int < 0x10000 then 1 else 2) + Units(s[1..])
  }

  predicate StartsWith(s: string, prefix: string) {
    |prefix| <= |s| && s[..|prefix|] == prefix
  }

  predicate ShouldSkipHref(href: string) {
    var trimmed := Trim(href);
    var lower := ToLower(trimmed);
    || trimmed == "" || trimmed == "#" || HasControlChars(trimmed) || 2048 < Units(trimmed)
    || StartsWith(lower, "javascript:") || StartsWith(lower, "data:")
    || StartsWith(lower, "mailto:") || StartsWith(lower, "tel:")
  }

  /** What one href stands for, if it is not passed over. */
  function Candidate(e: Urls, base: string, href: string): Option<CrawlUrl> {
    if ShouldSkipHref(href) then None
    else
      match e.resolve(href, base)
      case None => None
      case Some(absolute) =>
        match ParseCrawlUrl(absolute, e.parse, e.locale)
        case Err(_) => None
        case Ok(u) => Some(u)
  }

  /** The values of `f` where it has one, in order. */
  function Somes<A, B>(xs: seq<A>, f: A -> Option<B>): seq<B> {
    if xs == [] then []
    else Somes(xs[..|xs| - 1], f) + (if f(xs[|xs| - 1]).Some? then [f(xs[|xs| - 1]).value] else [])
  }

  function Candidates(e: Urls, base: string, hrefs: seq<string>): seq<CrawlUrl> {
    Somes(hrefs, h => Candidate(e, base, h))
  }

  lemma CandidatesSnoc(e: Urls, base: string, hrefs: seq<string>, n: nat)
    requires n < |hrefs|
    ensures Candidates(e, base, hrefs[..n + 1]) ==
            Candidates(e, base, hrefs[..n])
                + (if Candidate(e, base, hrefs[n]).Some? then [Candidate(e, base, hrefs[n]).value] else [])
  {
    var f := h => Candidate(e, base, h);
    assert hrefs[..n + 1][..n] == hrefs[..n];
  }

  function NormalizedOf(u: CrawlUrl): string {
    u.normalized
  }

  ghost predicate SeenIs(seen: set<string>, results: seq<CrawlUrl>) {
    forall n :: n in seen <==> HasKey(results, NormalizedOf, n)
  }

  /** One more candidate is kept exactly when its normal form was not seen. */
  lemma FirstsSnoc(us: seq<CrawlUrl>, u: CrawlUrl, seen: set<string>)
    requires SeenIs(seen, Firsts(us, NormalizedOf))
    ensures Firsts(us + [u], NormalizedOf) ==
            if u.normalized in seen then Firsts(us, NormalizedOf) else Firsts(us, NormalizedOf) + [u]
    ensures u.normalized !in seen ==> SeenIs(seen + {u.normalized}, Firsts(us, NormalizedOf) + [u])
  {
    assert (us + [u])[..|us|] == us;
    FirstsSameKeys(us, NormalizedOf, u.normalized);
    var kept := Firsts(us, NormalizedOf);
    assert (kept + [u])[..|kept|] == kept;
    forall n ensures HasKey(kept + [u], NormalizedOf, n) <==> HasKey(kept, NormalizedOf, n) || n == u.normalized {
      HasKeySnoc(kept + [u], NormalizedOf, n);
    }
  }

  method ResolveAndDedup(hrefs: seq<string>, base: string, e: Urls) returns (results: seq<CrawlUrl>)
    ensures results == Firsts(Candidates(e, base, hrefs), NormalizedOf)
  {
    var seen: set<string> := {};
    results := [];
    for n := 0 to |hrefs|
      invariant results == Firsts(Candidates(e, base, hrefs[..n]), NormalizedOf)
      invariant SeenIs(seen, results)
    {
      ghost var us := Candidates(e, base, hrefs[..n]);
      CandidatesSnoc(e, base, hrefs, n);
      assert us + [] == us;
      if ShouldSkipHref(hrefs[n]) { continue; }
      var absolute := e.resolve(hrefs[n], base);
      if absolute.None? { continue; }
      var parsed := ParseCrawlUrl(absolute.value, e.parse, e.locale);
      if parsed.Err? { continue; }
      FirstsSnoc(us, parsed.value, seen);
      if parsed.value.normalized in seen { continue; }
      seen := seen + {parsed.value.normalized};
      results := results + [parsed.value];
    }
    assert hrefs[..|hrefs|] == hrefs;
  }

  // ---------------------------------------------------------------- the stage

  /** `complete` is false when extraction failed and only part of the links were found; both are used alike. */
  datatype Page = Page(contentType: Option<string>, requestedUrl: string, finalUrl: Option<string>,
      hrefs: string -> (bool, seq<string>))

  predicate IsHtml(p: Page) {
    p.contentType.Some? && StartsWith(ToLower(p.contentType.value), "text/html")
  }

  function Base(p: Page): string {
    if p.finalUrl.Some? then p.finalUrl.value else p.requestedUrl
  }

  function Links(p: Page, e: Urls): seq<CrawlUrl> {
    if IsHtml(p) then Firsts(Candidates(e, Base(p), p.hrefs(Base(p)).1), NormalizedOf) else []
  }

  method DiscoverLinks(p: Page, e: Urls) returns (results: seq<CrawlUrl>, warned: bool)
    ensures results == Links(p, e)
    ensures warned <==> IsHtml(p) && !p.hrefs(Base(p)).0
  {
    var ct := if p.contentType.Some? then p.contentType.value else "";
    if !StartsWith(ToLower(ct), "text/html") { return [], false; }
    var base := if p.finalUrl.Some? then p.finalUrl.value else p.requestedUrl;
    var extracted := p.hrefs(base);
    warned := !extracted.0;
    results := ResolveAndDedup(extracted.1, base, e);
  }

  predicate Yields<A, B(==)>(xs: seq<A>, f: A -> Option<B>, y: B) {
    exists i :: 0 <= i < |xs| && f(xs[i]) == Some(y)
  }

  lemma {:induction false} SomesIff<A, B>(xs: seq<A>, f: A -> Option<B>, y: B)
    ensures y in Somes(xs, f) <==> Yields(xs, f, y)
  {
    if xs != [] {
      var before := xs[..|xs| - 1];
      SomesIff(before, f, y);
      if Yields(before, f, y) {
        var i :| 0 <= i < |before| && f(before[i]) == Some(y);
        assert f(xs[i]) == Some(y);
      }
      if Yields(xs, f, y) {
        var i :| 0 <= i < |xs| && f(xs[i]) == Some(y);
        assert i < |before| ==> before[i] == xs[i];
      }
    }
  }

  /** A candidate comes from some href, and every href that stands for a URL gives one. */
  lemma CandidateIff(e: Urls, base: string, hrefs: seq<string>, u: CrawlUrl)
    ensures u in Candidates(e, base, hrefs) <==> exists i :: 0 <= i < |hrefs| && Candidate(e, base, hrefs[i]) == Some(u)
  {
    SomesIff(hrefs, h => Candidate(e, base, h), u);
  }

  /** A normal form is handed on exactly when some link that is not passed over has it. */
  lemma HandedOnIff(e: Urls, base: string, hrefs: seq<string>, normalized: string)
    ensures HasKey(Firsts(Candidates(e, base, hrefs), NormalizedOf), NormalizedOf, normalized) <==>
            exists i :: 0 <= i < |hrefs| && Candidate(e, base, hrefs[i]).Some?
                && Candidate(e, base, hrefs[i]).value.normalized == normalized
  {
    var us := Candidates(e, base, hrefs);
    FirstsSameKeys(us, NormalizedOf, normalized);
    if HasKey(us, NormalizedOf, normalized) {
      var k :| 0 <= k < |us| && NormalizedOf(us[k]) == normalized;
      CandidateIff(e, base, hrefs, us[k]);
    }
    if i :| 0 <= i < |hrefs| && var c := Candidate(e, base, hrefs[i]); c.Some? && c.value.normalized == normalized {
      CandidateIff(e, base, hrefs, Candidate(e, base, hrefs[i]).value);
      var k :| 0 <= k < |us| && us[k] == Candidate(e, base, hrefs[i]).value;
      assert NormalizedOf(us[k]) == normalized;
    }
  }

  predicate IsNormal(e: Urls, n: string) {
    && ParseCrawlUrl(n, e.parse, e.locale).Ok? && ParseCrawlUrl(n, e.parse, e.locale).value.normalized == n
    && !HasControlChars(n)
  }

  lemma CandidateIsNormal(e: Urls, base: string, href: string)
    requires LocaleOk(e.locale) && ParserOk(e.parse, e.locale) && Candidate(e, base, href).Some?
    ensures IsNormal(e, Candidate(e, base, href).value.normalized)
  {
    NormalizedUrlsAreFixed(e.resolve(href, base).value, e.parse, e.locale);
  }

  /** What is handed on is in normal form, and no normal form twice. */
  lemma HandedOnAreNormal(e: Urls, base: string, hrefs: seq<string>, i: nat)
    requires LocaleOk(e.locale) && ParserOk(e.parse, e.locale)
    requires i < |Firsts(Candidates(e, base, hrefs), NormalizedOf)|
    ensures var results := Firsts(Candidates(e, base, hrefs), NormalizedOf);
            && IsNormal(e, results[i].normalized)
            && forall j :: 0 <= j < |results| && j != i ==> results[j].normalized != results[i].normalized
  {
    var us := Candidates(e, base, hrefs);
    var results := Firsts(us, NormalizedOf);
    FirstsAreFirst(us, NormalizedOf, i);
    assert results[i] in us;
    CandidateIff(e, base, hrefs, results[i]);
    var k :| 0 <= k < |hrefs| && Candidate(e, base, hrefs[k]) == Some(results[i]);
    CandidateIsNormal(e, base, hrefs[k]);
    FirstsDistinct(us, NormalizedOf);
    forall j | 0 <= j < |results| && j != i ensures results[j].normalized != results[i].normalized {
      assert NormalizedOf(results[j]) != NormalizedOf(results[i]);
    }
  }

  // ---------------------------------------------------------------- as the pipeline sees it

  function Normals(us: seq<CrawlUrl>): seq<string> {
    if us == [] then [] else Normals(us[..|us| - 1]) + [us[|us| - 1].normalized]
  }

  lemma {:induction false} NormalsKeys(us: seq<CrawlUrl>, n: string)
    ensures HasKey(Normals(us), CrawlPipelines.Same, n) <==> HasKey(us, NormalizedOf, n)
  {
    if us != [] {
      var front := Normals(us[..|us| - 1]);
      NormalsKeys(us[..|us| - 1], n);
      HasKeySnoc(us, NormalizedOf, n);
      HasKeySnoc(Normals(us), CrawlPipelines.Same, n);
      assert Normals(us)[..|Normals(us)| - 1] == front;
    }
  }

  lemma {:induction false} NormalsOfFirsts(us: seq<CrawlUrl>)
    ensures Normals(Firsts(us, NormalizedOf)) == Firsts(Normals(us), CrawlPipelines.Same)
  {
    if us != [] {
      var n := |us| - 1;
      NormalsOfFirsts(us[..n]);
      NormalsKeys(us[..n], us[n].normalized);
      assert Normals(us)[..|Normals(us)| - 1] == Normals(us[..n]);
      var kept := Firsts(us[..n], NormalizedOf);
      assert (kept + [us[n]])[..|kept|] == kept;
    }
  }

  /** The site the pipeline works on: what is fetched, cut down to the normal forms of its links. */
  function SiteOf(domainOf: string -> string, fetch: string -> Option<Page>, e: Urls): CrawlPipelines.Site {
    CrawlPipelines.Site(domainOf, u => if fetch(u).None? then None else Some(PageLinks(fetch(u).value, e)))
  }

  function PageLinks(p: Page, e: Urls): seq<string> {
    if IsHtml(p) then Normals(Candidates(e, Base(p), p.hrefs(Base(p)).1)) else []
  }

  /** The links the pipeline hands on are the normal forms of the stage's results, in their order. */
  lemma PipelineDiscovers(domainOf: string -> string, fetch: string -> Option<Page>, e: Urls, u: string)
    requires fetch(u).Some?
    ensures CrawlPipelines.Discovered(SiteOf(domainOf, fetch, e), u) == Normals(Links(fetch(u).value, e))
  {
    var p := fetch(u).value;
    if IsHtml(p) {
      NormalsOfFirsts(Candidates(e, Base(p), p.hrefs(Base(p)).1));
    }
  }
}
