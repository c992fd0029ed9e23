/** Whole runs of the queue and its workers, and the crawl they perform. */
module QueueCrawls {
  import opened Wrappers
  import opened OrderedMaps
  import opened Frontiers
  import opened Sizes
  import opened CrawlPipelines
  import opened CrawlComposition
  import Crawls
  import CrawlReach

  /** The queue's jobs, by id; which of them wait or run; and the pages fetched so far, in order. */
  datatype Queue = Queue(jobs: Jobs, waiting: set<JobId>, active: set<JobId>, fetched: seq<(string, nat)>)

  datatype Plant = Plant(cfg: Config, site: Site, seeds: seq<string>, workers: nat, derive: string -> JobId,
      retention: Retention)

  datatype Step = Take(id: JobId) | Complete(id: JobId)

  /** A worker takes a waiting job of least priority number; an active job is worked off. */
  predicate Enabled(p: Plant, q: Queue, s: Step) {
    match s
    case Take(id) =>
      && id in q.waiting && id in q.jobs && |q.active| < p.workers
      && forall o <- q.waiting :: o in q.jobs ==> q.jobs[id].priority <= q.jobs[o].priority
    case Complete(id) => id in q.active && id in q.jobs
  }

  /** A job is put through the pipeline; jobs that are new in the queue wait. */
  function After(p: Plant, q: Queue, s: Step): Queue
    requires Enabled(p, q, s)
  {
    match s
    case Take(id) => q.(waiting := q.waiting - {id}, active := q.active + {id})
    case Complete(id) =>
      var job := q.jobs[id];
      var jobs := JobsAfter(p.cfg, p.site, q.jobs, job.url, job.depth, p.derive, p.retention);
      Queue(jobs, q.waiting + (jobs.Keys - q.jobs.Keys), q.active - {id},
            if Validate(p.cfg, p.site, job.url, job.depth).None? then q.fetched + [(job.url, job.depth)] else q.fetched)
  }

  function Start(p: Plant): Queue {
    var jobs := Inserted(map[], Batch(EntriesAt(p.seeds, 0), p.derive, p.retention));
    Queue(jobs, jobs.Keys, {}, [])
  }

  predicate Runs(p: Plant, q: Queue, steps: seq<Step>)
    decreases |steps|
  {
    steps == [] || (Enabled(p, q, steps[0]) && Runs(p, After(p, q, steps[0]), steps[1..]))
  }

  function Final(p: Plant, q: Queue, steps: seq<Step>): Queue
    requires Runs(p, q, steps)
    decreases |steps|
  {
    if steps == [] then q else Final(p, After(p, q, steps[0]), steps[1..])
  }

  // ---------------------------------------------------------------- the crawl behind the queue

  /** The URLs within `maxDepth + 1` links of the seeds: finitely many, whatever the site. */
  function InPlay(p: Plant): set<string> {
    CrawlReach.Reach(SetupOfPlant(p))
  }

  /** Job ids differ on the URLs in play. */
  ghost predicate Proper(p: Plant) {
    InjectiveOn(p.derive, InPlay(p))
  }

  function SetupOfPlant(p: Plant): Crawls.Setup {
    SetupOf(p.cfg, p.site, p.seeds, p.workers)
  }

  function IdsOf(urls: set<string>, derive: string -> JobId): set<JobId> {
    set u | u in urls :: derive(u)
  }

  /** The queue holds the crawl's labelled URLs, waits and works on the same ones and has fetched the same pages. */
  ghost predicate Shows(p: Plant, q: Queue, c: Crawls.Crawl) {
    && Holds(q.jobs, c.known, p.derive)
    && Crawls.Shape(c) && CrawlReach.Placed(SetupOfPlant(p), c)
    && q.waiting == IdsOf(c.waiting, p.derive) && q.active == IdsOf(c.active, p.derive)
    && q.fetched == c.fetched
  }

  lemma IdsSize(urls: set<string>, derive: string -> JobId)
    requires InjectiveOn(derive, urls)
    ensures |IdsOf(urls, derive)| == |urls|
  {
    assert Image(urls, derive, IdsOf(urls, derive));
    ImageSize(urls, derive, IdsOf(urls, derive));
  }

  /** A job of the queue and the URL it stands for. */
  lemma JobOf(p: Plant, q: Queue, c: Crawls.Crawl, urls: set<string>, id: JobId) returns (u: string)
    requires Holds(q.jobs, c.known, p.derive) && urls <= c.known.Keys && id in IdsOf(urls, p.derive)
    ensures u in urls && p.derive(u) == id && id in q.jobs
    ensures q.jobs[id].url == u && q.jobs[id].depth == c.known[u] && q.jobs[id].priority == c.known[u]
  {
    u :| u in urls && p.derive(u) == id;
    assert u in c.known.Keys;
  }

  lemma TakeIsPick(p: Plant, q: Queue, c: Crawls.Crawl, id: JobId) returns (u: string)
    requires Proper(p) && Shows(p, q, c) && Enabled(p, q, Take(id))
    ensures Crawls.Enabled(SetupOfPlant(p), c, Crawls.Pick(u))
    ensures Shows(p, After(p, q, Take(id)), Crawls.After(SetupOfPlant(p), c, Crawls.Pick(u)))
  {
    u := JobOf(p, q, c, c.waiting, id);
    PickEnabled(p, q, c, id, u);
    ShownInPlay(p, q, c);
    MoveIds(c.waiting, c.active, u, p.derive, InPlay(p));
    TakeShows(p, q, c, id, u);
  }

  lemma ShownInPlay(p: Plant, q: Queue, c: Crawls.Crawl)
    requires Shows(p, q, c)
    ensures c.waiting <= InPlay(p) && c.active <= InPlay(p)
  {
    CrawlReach.PlacedInReach(SetupOfPlant(p), c);
  }

  lemma TakeShows(p: Plant, q: Queue, c: Crawls.Crawl, id: JobId, u: string)
    requires Shows(p, q, c) && Enabled(p, q, Take(id)) && Crawls.Enabled(SetupOfPlant(p), c, Crawls.Pick(u))
    requires IdsOf(c.waiting - {u}, p.derive) == q.waiting - {id} && IdsOf(c.active + {u}, p.derive) == q.active + {id}
    ensures Shows(p, After(p, q, Take(id)), Crawls.After(SetupOfPlant(p), c, Crawls.Pick(u)))
  {
    var c' := Crawls.After(SetupOfPlant(p), c, Crawls.Pick(u));
    Crawls.PickMoves(SetupOfPlant(p), c, u, c');
    ShowsAgain(p, q, c, After(p, q, Take(id)), c');
  }

  /** Moving jobs about, here and there alike, shows the same crawl. */
  lemma ShowsAgain(p: Plant, q: Queue, c: Crawls.Crawl, q': Queue, c': Crawls.Crawl)
    requires Shows(p, q, c) && q'.jobs == q.jobs && q'.fetched == q.fetched
    requires c'.known == c.known && c'.fetched == c.fetched && Crawls.Shape(c')
    requires q'.waiting == IdsOf(c'.waiting, p.derive) && q'.active == IdsOf(c'.active, p.derive)
    ensures Shows(p, q', c')
  {
    StillPlaced(SetupOfPlant(p), c, c');
  }

  lemma StillPlaced(w: Crawls.Setup, c: Crawls.Crawl, c': Crawls.Crawl)
    requires CrawlReach.Placed(w, c) && c'.known == c.known
    ensures CrawlReach.Placed(w, c')
  {}

  lemma PickEnabled(p: Plant, q: Queue, c: Crawls.Crawl, id: JobId, u: string)
    requires Proper(p) && Shows(p, q, c) && Enabled(p, q, Take(id))
    requires u in c.waiting && p.derive(u) == id && q.jobs[id].priority == c.known[u]
    ensures Crawls.Enabled(SetupOfPlant(p), c, Crawls.Pick(u))
  {
    assert u in c.known.Keys;
    ShownInPlay(p, q, c);
    IdsSize(c.active, p.derive);
    forall v | v in c.waiting ensures p.derive(v) in q.jobs && q.jobs[id].priority <= q.jobs[p.derive(v)].priority {
      assert v in c.known.Keys && p.derive(v) in q.waiting;
    }
    PriorityIsDepth(q.jobs, c, p.derive, u);
  }

  lemma MoveIds(waiting: set<string>, active: set<string>, u: string, derive: string -> JobId, urls: set<string>)
    requires InjectiveOn(derive, urls) && waiting <= urls && u in urls
    ensures IdsOf(waiting - {u}, derive) == IdsOf(waiting, derive) - {derive(u)}
    ensures IdsOf(active + {u}, derive) == IdsOf(active, derive) + {derive(u)}
  {}

  lemma KeysAreIds(jobs: Jobs, known: map<string, nat>, derive: string -> JobId)
    requires Holds(jobs, known, derive)
    ensures jobs.Keys == IdsOf(known.Keys, derive)
  {
    forall id | id in jobs.Keys ensures id in IdsOf(known.Keys, derive) {
      assert jobs[id].url in known.Keys && derive(jobs[id].url) == id;
    }
  }

  lemma NewIds(jobs: Jobs, jobs': Jobs, known: map<string, nat>, known': map<string, nat>, added: set<string>,
      derive: string -> JobId)
    requires InjectiveOn(derive, known'.Keys) && Holds(jobs, known, derive) && Holds(jobs', known', derive)
    requires known'.Keys == known.Keys + added && known.Keys !! added
    ensures jobs'.Keys - jobs.Keys == IdsOf(added, derive)
  {
    KeysAreIds(jobs, known, derive);
    KeysAreIds(jobs', known', derive);
  }

  lemma CompleteIsWork(p: Plant, q: Queue, c: Crawls.Crawl, id: JobId) returns (u: string)
    requires Proper(p) && Shows(p, q, c) && Enabled(p, q, Complete(id))
    ensures Crawls.Enabled(SetupOfPlant(p), c, Crawls.Work(u))
    ensures Shows(p, After(p, q, Complete(id)), Crawls.After(SetupOfPlant(p), c, Crawls.Work(u)))
  {
    u := JobOf(p, q, c, c.active, id);
    var w, d := SetupOfPlant(p), c.known[u];
    var c' := Crawls.After(w, c, Crawls.Work(u));
    assert u in c.known.Keys;
    CrawlReach.PlacedInReach(w, c);
    CrawlReach.WorkPlaced(w, c, u);
    CrawlReach.PlacedInReach(w, c');
    ChildrenInPlay(p, u, d);
    PipelineIsWork(p.cfg, p.site, p.seeds, p.workers, c, u, q.jobs, p.derive, p.retention);
    var added := Crawls.New(c, Crawls.Children(w, u, d));
    var jobs := JobsAfter(p.cfg, p.site, q.jobs, u, d, p.derive, p.retention);
    NewIds(q.jobs, jobs, c.known, c'.known, added, p.derive);
    MoveIds(c.active, {}, u, p.derive, InPlay(p));
    WorkKeepsShape(w, c, u);
    assert IdsOf(c.waiting + added, p.derive) == IdsOf(c.waiting, p.derive) + IdsOf(added, p.derive);
  }

  lemma ChildrenInPlay(p: Plant, u: string, d: nat)
    requires u in CrawlReach.Level(SetupOfPlant(p), d)
    ensures Crawls.Children(SetupOfPlant(p), u, d) == Children(p.cfg, p.site, u, d)
    ensures Elems(Children(p.cfg, p.site, u, d)) <= InPlay(p)
  {
    forall v | v in Elems(Children(p.cfg, p.site, u, d)) ensures v in InPlay(p) {
      CrawlReach.ChildPlaced(SetupOfPlant(p), u, d, v);
    }
  }

  lemma WorkKeepsShape(w: Crawls.Setup, c: Crawls.Crawl, u: string)
    requires Crawls.Shape(c) && Crawls.Enabled(w, c, Crawls.Work(u))
    ensures Crawls.Shape(Crawls.After(w, c, Crawls.Work(u)))
  {}

  lemma InitHolds(w: Crawls.Setup)
    ensures var c := Crawls.Init(w);
            c.waiting == c.known.Keys == Elems(w.seeds) && c.active == {} && c.fetched == []
  {}

  lemma StartShows(p: Plant)
    requires Proper(p)
    ensures Shows(p, Start(p), Crawls.Init(SetupOfPlant(p)))
  {
    var c := Crawls.Init(SetupOfPlant(p));
    InitHolds(SetupOfPlant(p));
    CrawlReach.InitPlaced(SetupOfPlant(p));
    CrawlReach.PlacedInReach(SetupOfPlant(p), c);
    SeedingIsInit(p.cfg, p.site, p.seeds, p.workers, p.derive, p.retention);
    KeysAreIds(Start(p).jobs, c.known, p.derive);
    assert IdsOf({}, p.derive) == {};
  }

  lemma QueueStepIsCrawlStep(p: Plant, q: Queue, c: Crawls.Crawl, step: Step) returns (s: Crawls.Step)
    requires Proper(p) && Shows(p, q, c) && Enabled(p, q, step)
    ensures Crawls.Enabled(SetupOfPlant(p), c, s)
    ensures Shows(p, After(p, q, step), Crawls.After(SetupOfPlant(p), c, s))
  {
    match step
    case Take(id) =>
      var u := TakeIsPick(p, q, c, id);
      s := Crawls.Pick(u);
    case Complete(id) =>
      var u := CompleteIsWork(p, q, c, id);
      s := Crawls.Work(u);
  }

  lemma StepFirst(w: Crawls.Setup, c: Crawls.Crawl, s: Crawls.Step, rest: seq<Crawls.Step>)
    requires Crawls.Enabled(w, c, s) && Crawls.Runs(w, Crawls.After(w, c, s), rest)
    ensures Crawls.Runs(w, c, [s] + rest)
            && Crawls.Final(w, c, [s] + rest) == Crawls.Final(w, Crawls.After(w, c, s), rest)
  {
    assert ([s] + rest)[1..] == rest;
  }

  /** Under injective job ids, every run of the queue is a run of the crawl. */
  lemma {:induction false} QueueRunIsCrawlRun(p: Plant, q: Queue, c: Crawls.Crawl, steps: seq<Step>)
    returns (run: seq<Crawls.Step>)
    requires Proper(p) && Shows(p, q, c) && Runs(p, q, steps)
    ensures Crawls.Runs(SetupOfPlant(p), c, run)
    ensures Shows(p, Final(p, q, steps), Crawls.Final(SetupOfPlant(p), c, run))
    decreases |steps|
  {
    run := [];
    if steps != [] {
      var s := QueueStepIsCrawlStep(p, q, c, steps[0]);
      var c' := Crawls.After(SetupOfPlant(p), c, s);
      var rest := QueueRunIsCrawlRun(p, After(p, q, steps[0]), c', steps[1..]);
      StepFirst(SetupOfPlant(p), c, s, rest);
      run := [s] + rest;
    }
  }

  predicate Fetched(q: Queue, u: string) {
    exists i :: 0 <= i < |q.fetched| && q.fetched[i].0 == u
  }

  /**
   `u` was fetched exactly if it is allowed and within `maxDepth` links of a seed, and then at its shortest distance;
   nothing was fetched twice.
   */
  ghost predicate IsBreadthFirst(p: Plant, q: Queue, u: string) {
    var w := SetupOfPlant(p);
    && (Fetched(q, u) <==> w.web.allowed(u) && Crawls.Within(w, u, w.maxDepth))
    && (forall i :: 0 <= i < |q.fetched| && q.fetched[i].0 == u ==> Crawls.Distance(w, u, q.fetched[i].1))
    && (forall i, j :: 0 <= i < j < |q.fetched| ==> q.fetched[i].0 != q.fetched[j].0)
  }

  /**
   The code's own breadth-first promise: one worker that takes jobs by priority number and puts them through the
   pipeline has, once the queue is dry, fetched exactly the allowed pages within `maxDepth` links, each once and at
   its shortest distance.
   */
  lemma QueueCrawlIsBreadthFirst(p: Plant, steps: seq<Step>, u: string)
    requires Proper(p) && p.workers == 1 && Runs(p, Start(p), steps)
    requires Final(p, Start(p), steps).waiting == {} && Final(p, Start(p), steps).active == {}
    ensures IsBreadthFirst(p, Final(p, Start(p), steps), u)
  {
    StartShows(p);
    var run := QueueRunIsCrawlRun(p, Start(p), Crawls.Init(SetupOfPlant(p)), steps);
    var c := Crawls.Final(SetupOfPlant(p), Crawls.Init(SetupOfPlant(p)), run);
    NoIdsNoUrls(c.waiting, p.derive);
    NoIdsNoUrls(c.active, p.derive);
    Crawls.CrawlIsBreadthFirst(SetupOfPlant(p), run, u);
  }

  lemma NoIdsNoUrls(urls: set<string>, derive: string -> JobId)
    requires IdsOf(urls, derive) == {}
    ensures urls == {}
  {
    assert forall u :: u in urls ==> derive(u) in IdsOf(urls, derive);
  }
}
