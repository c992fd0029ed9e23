/**
 One job through the crawl pipeline: validate, fetch, discover, enqueue, each failure
 ending the rest.  A site is what the fetcher and the link extractor together make of a
 URL: nothing (the fetch fails), or the links of the page in order, a page that is not
 HTML having none.  URLs are in normalised form.
 */
module CrawlPipelines {
  import opened Wrappers
  import opened Text
  import opened OrderedMaps
  import opened FirstOccurrences
  import opened Frontiers

  datatype Site = Site(domainOf: string -> string, fetch: string -> Option<seq<string>>)

  datatype Config = Config(maxDepth: int, allowedDomains: Option<seq<string>>)

  datatype CrawlError =
    | DepthExceeded(maxDepth: int, currentDepth: nat)
    | DomainNotAllowed(domain: string)
    | FetchError
    | QueueError(cause: string)

  datatype CrawlResult = CrawlResult(discovered: seq<string>, enqueued: nat)

  // ---------------------------------------------------------------- stages

  predicate DomainAllowed(cfg: Config, domain: string) {
    cfg.allowedDomains.Some? ==>
      exists i :: 0 <= i < |cfg.allowedDomains.value| && ToLower(cfg.allowedDomains.value[i]) == ToLower(domain)
  }

  /** A page worth fetching at all, whatever its depth. */
  predicate Allowed(cfg: Config, site: Site, url: string) {
    DomainAllowed(cfg, site.domainOf(url))
  }

  function Validate(cfg: Config, site: Site, url: string, depth: nat): Option<CrawlError> {
    if cfg.maxDepth < depth then Some(DepthExceeded(cfg.maxDepth, depth))
    else if !Allowed(cfg, site, url) then Some(DomainNotAllowed(site.domainOf(url)))
    else None
  }

  /** Some entry of the allow-list is the domain but for case, or there is no list. */
  ghost predicate Listed(cfg: Config, domain: string) {
    cfg.allowedDomains.None? ||
    exists i :: 0 <= i < |cfg.allowedDomains.value| && SameButCase(cfg.allowedDomains.value[i], domain)
  }

  lemma AllowedIff(cfg: Config, domain: string)
    ensures DomainAllowed(cfg, domain) <==> Listed(cfg, domain)
  {
    if cfg.allowedDomains.Some? {
      var list := cfg.allowedDomains.value;
      forall i | 0 <= i < |list| ensures ToLower(list[i]) == ToLower(domain) <==> SameButCase(list[i], domain) {
        LowerIff(list[i], domain);
      }
    }
  }

  /** What validation answers, in terms of the depth and the list alone. */
  lemma ValidateMeans(cfg: Config, site: Site, url: string, depth: nat)
    ensures Validate(cfg, site, url, depth) ==
            if cfg.maxDepth < depth then Some(DepthExceeded(cfg.maxDepth, depth))
            else if !Listed(cfg, site.domainOf(url)) then Some(DomainNotAllowed(site.domainOf(url)))
            else None
    ensures Allowed(cfg, site, url) <==> Listed(cfg, site.domainOf(url))
  {
    AllowedIff(cfg, site.domainOf(url));
  }

  function Same(url: string): string {
    url
  }

  /** The distinct links of a page, in order of first appearance. */
  function Discovered(site: Site, url: string): seq<string> {
    if site.fetch(url).Some? then Firsts(site.fetch(url).value, Same) else []
  }

  /** The URLs a job hands on to the next depth. */
  function Children(cfg: Config, site: Site, url: string, depth: nat): seq<string> {
    if Validate(cfg, site, url, depth).Some? then [] else Discovered(site, url)
  }

  /** The queue after one job went through the pipeline. */
  function JobsAfter(cfg: Config, site: Site, jobs: Jobs, u: string, d: nat, derive: string -> JobId,
      retention: Retention): Jobs {
    var links := Children(cfg, site, u, d);
    if links == [] then jobs else Inserted(jobs, Batch(EntriesAt(links, d + 1), derive, retention))
  }

  lemma DiscoveredLinks(site: Site, url: string, link: string)
    ensures link in Discovered(site, url) <==> site.fetch(url).Some? && link in site.fetch(url).value
  {
    if site.fetch(url).Some? {
      var links := site.fetch(url).value;
      FirstsSameKeys(links, Same, link);
      if link in links {
        var i :| 0 <= i < |links| && links[i] == link;
        assert Same(links[i]) == link;
        var j :| 0 <= j < |Firsts(links, Same)| && Same(Firsts(links, Same)[j]) == link;
      }
      if link in Firsts(links, Same) {
        var j :| 0 <= j < |Firsts(links, Same)| && Firsts(links, Same)[j] == link;
        assert Same(Firsts(links, Same)[j]) == link;
      }
    }
  }

  // ---------------------------------------------------------------- the pipeline

  /** Returns also whether the page was fetched. */
  method ExecutePipeline(cfg: Config, site: Site, frontier: FrontierAdapter, url: string, depth: nat)
    returns (r: Result<CrawlResult, CrawlError>, fetched: bool)
    modifies frontier`collisions, frontier.backend`jobs
    ensures fetched <==> depth <= cfg.maxDepth && Listed(cfg, site.domainOf(url))
    ensures cfg.maxDepth < depth ==> r == Err(DepthExceeded(cfg.maxDepth, depth))
    ensures depth <= cfg.maxDepth && !Listed(cfg, site.domainOf(url)) ==> r == Err(DomainNotAllowed(site.domainOf(url)))
    ensures fetched && site.fetch(url).None? ==> r == Err(FetchError)
    ensures frontier.backend.jobs ==
            if frontier.backend.available
            then JobsAfter(cfg, site, old(frontier.backend.jobs), url, depth, frontier.derive, frontier.retention)
            else old(frontier.backend.jobs)
    ensures fetched && site.fetch(url).Some? && Children(cfg, site, url, depth) != [] && !frontier.backend.available ==>
              r.Err? && r.error.QueueError?
    ensures r.Ok? <==>
            fetched && site.fetch(url).Some? && (Children(cfg, site, url, depth) == [] || frontier.backend.available)
    ensures r.Ok? ==> r.value.discovered == Children(cfg, site, url, depth) &&
                      r.value.enqueued == |frontier.backend.jobs| - |old(frontier.backend.jobs)|
  {
    ValidateMeans(cfg, site, url, depth);
    fetched := false;
    var invalid := Validate(cfg, site, url, depth);
    if invalid.Some? {
      r := Err(invalid.value);
      return;
    }
    fetched := true;
    var page := site.fetch(url);
    if page.None? {
      r := Err(FetchError);
      return;
    }
    var links := Firsts(page.value, Same);
    if |links| == 0 {
      r := Ok(CrawlResult([], 0));
      return;
    }
    var enqueued := frontier.Enqueue(EntriesAt(links, depth + 1));
    if enqueued.Err? {
      r := Err(QueueError(enqueued.error));
      return;
    }
    r := Ok(CrawlResult(links, enqueued.value));
  }
}
