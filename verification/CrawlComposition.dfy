/** The pipeline, the frontier and the queue together perform the steps of the crawl. */
module CrawlComposition {
  import opened Wrappers
  import opened OrderedMaps
  import opened FirstOccurrences
  import opened Frontiers
  import opened Sizes
  import opened CrawlPipelines
  import Crawls
  import CrawlTermination

  /** A site as the crawl sees it. */
  function WebOf(cfg: Config, site: Site): Crawls.Web {
    Crawls.Web(u => Allowed(cfg, site, u), u => if site.fetch(u).Some? then Some(Discovered(site, u)) else None)
  }

  function SetupOf(cfg: Config, site: Site, seeds: seq<string>, workers: nat): Crawls.Setup {
    Crawls.Setup(WebOf(cfg, site), cfg.maxDepth, seeds, workers)
  }

  lemma WorkLabels(w: Crawls.Setup, c: Crawls.Crawl, u: string)
    requires Crawls.Enabled(w, c, Crawls.Work(u))
    ensures Crawls.After(w, c, Crawls.Work(u)).known ==
            Enqueued(c.known, Crawls.Children(w, u, c.known[u]), c.known[u] + 1)
    ensures Crawls.After(w, c, Crawls.Work(u)).fetched ==
            if Crawls.Fetchable(w, u, c.known[u]) then c.fetched + [(u, c.known[u])] else c.fetched
  {}

  lemma QueueAfter(cfg: Config, site: Site, jobs: Jobs, known: map<string, nat>, u: string, d: nat,
                   derive: string -> JobId, retention: Retention)
    requires Holds(jobs, known, derive)
    requires InjectiveOn(derive, known.Keys + Elems(Children(cfg, site, u, d)))
    ensures Holds(JobsAfter(cfg, site, jobs, u, d, derive, retention),
            Enqueued(known, Children(cfg, site, u, d), d + 1), derive)
  {
    var links := Children(cfg, site, u, d);
    if links == [] {
      assert Enqueued(known, [], d + 1) == known;
    } else {
      EnqueueRefines(jobs, known, links, d + 1, derive, retention);
    }
  }

  /**
   Under injective job ids, running a job's pipeline against the queue is the Work step of
   the crawl, and a page is fetched exactly when that step logs a fetch.
   */
  lemma PipelineIsWork(cfg: Config, site: Site, seeds: seq<string>, workers: nat, c: Crawls.Crawl, u: string,
                       jobs: Jobs, derive: string -> JobId, retention: Retention)
    requires Crawls.Enabled(SetupOf(cfg, site, seeds, workers), c, Crawls.Work(u))
    requires Holds(jobs, c.known, derive)
    requires InjectiveOn(derive, c.known.Keys + Elems(Children(cfg, site, u, c.known[u])))
    ensures var c' := Crawls.After(SetupOf(cfg, site, seeds, workers), c, Crawls.Work(u));
            && Holds(JobsAfter(cfg, site, jobs, u, c.known[u], derive, retention), c'.known, derive)
            && c'.fetched == if Validate(cfg, site, u, c.known[u]).None? then c.fetched + [(u, c.known[u])]
                else c.fetched
  {
    WorkLabels(SetupOf(cfg, site, seeds, workers), c, u);
    QueueAfter(cfg, site, jobs, c.known, u, c.known[u], derive, retention);
  }

  /** Seeding an empty queue is the start of the crawl. */
  lemma SeedingIsInit(cfg: Config, site: Site, seeds: seq<string>, workers: nat, derive: string -> JobId,
      retention: Retention)
    requires InjectiveOn(derive, Elems(seeds))
    ensures Holds(Inserted(map[], Batch(EntriesAt(seeds, 0), derive, retention)),
                  Crawls.Init(SetupOf(cfg, site, seeds, workers)).known, derive)
  {
    var none: map<string, nat> := map[];
    assert none.Keys + Elems(seeds) == Elems(seeds);
    EnqueueRefines(map[], none, seeds, 0, derive, retention);
  }

  /** The best waiting job of the crawl is a best-priority job of the queue, and conversely. */
  lemma PriorityIsDepth(jobs: Jobs, c: Crawls.Crawl, derive: string -> JobId, u: string)
    requires Holds(jobs, c.known, derive) && c.waiting <= c.known.Keys && u in c.waiting
    ensures (forall v <- c.waiting :: v in c.known ==> c.known[u] <= c.known[v]) <==>
            (forall v <- c.waiting :: derive(v) in jobs && jobs[derive(u)].priority <= jobs[derive(v)].priority)
  {
    forall v | v in c.waiting ensures v in c.known && derive(v) in jobs && jobs[derive(v)].priority == c.known[v] {
      assert v in c.known.Keys;
    }
  }

  /** The live jobs a batch stands for, when deduplication drops none of them. */
  function LiveJobs(batch: seq<JobSpec>): seq<CrawlTermination.Job> {
    seq(|batch|, i requires 0 <= i < |batch| => CrawlTermination.Job(batch[i].depth, batch[i].retention.attempts))
  }

  /**
   What a job leaves behind satisfies the premises of termination: its children if it ran, itself with a try less
   if the queue was down.
   */
  lemma PipelineReplaces(cfg: Config, site: Site, u: string, d: nat, tries: nat, derive: string -> JobId,
      retention: Retention)
    requires 0 < tries && 0 < retention.attempts
    ensures var limits, job := CrawlTermination.Limits(cfg.maxDepth, retention.attempts),
            CrawlTermination.Job(d, tries);
            && CrawlTermination.Replaces(limits, job,
                LiveJobs(Batch(EntriesAt(Children(cfg, site, u, d), d + 1), derive, retention)), false)
            && (1 < tries ==> CrawlTermination.Replaces(limits, job, [job.(attempts := tries - 1)], true))
  {
    var links := Children(cfg, site, u, d);
    var batch := Batch(EntriesAt(links, d + 1), derive, retention);
    var live := LiveJobs(batch);
    assert live[0..] == live;
    forall c | c in live
      ensures c.depth == d + 1 && c.attempts == retention.attempts && d <= cfg.maxDepth
    {
      var i :| 0 <= i < |live| && live[i] == c;
      BatchMember(links, d + 1, derive, retention, batch[i]);
    }
  }
}
