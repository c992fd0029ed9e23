/** Runs of the queue get somewhere: they never stop before the queue is dry, and they do stop. */
module QueueProgress {
  import opened Wrappers
  import opened FirstOccurrences
  import opened Frontiers
  import opened Sizes
  import opened CrawlPipelines
  import opened CrawlComposition
  import opened QueueCrawls
  import Crawls
  import CrawlReach

  predicate Dry(q: Queue) {
    q.waiting == {} && q.active == {}
  }

  /** What waits or runs is queued, and nothing does both. */
  predicate Orderly(q: Queue) {
    q.waiting <= q.jobs.Keys && q.active <= q.jobs.Keys && q.waiting !! q.active
  }

  /** How often a job was taken or completed. */
  function Moves(q: Queue): int {
    2 * |q.jobs| - 2 * |q.waiting| - |q.active|
  }

  lemma JobsOnlyGrow(p: Plant, jobs: Jobs, url: string, depth: nat, id: JobId)
    ensures id in jobs ==> id in JobsAfter(p.cfg, p.site, jobs, url, depth, p.derive, p.retention)
  {
    InsertedContents(jobs, Batch(EntriesAt(Children(p.cfg, p.site, url, depth), depth + 1), p.derive, p.retention), id);
  }

  lemma AddedSize(jobs: Jobs, jobs': Jobs, waiting: set<JobId>)
    requires jobs.Keys <= jobs'.Keys && waiting <= jobs.Keys
    ensures |jobs'| - |waiting + (jobs'.Keys - jobs.Keys)| == |jobs| - |waiting|
  {
    var added := jobs'.Keys - jobs.Keys;
    assert jobs'.Keys == jobs.Keys + added && waiting !! added;
    assert |jobs| == |jobs.Keys| && |jobs'| == |jobs'.Keys|;
  }

  lemma OneOut(ids: set<JobId>, id: JobId)
    requires id in ids
    ensures |ids - {id}| == |ids| - 1
  {}

  lemma TakeMoves(p: Plant, q: Queue, id: JobId)
    requires Orderly(q) && Enabled(p, q, Take(id))
    ensures Orderly(After(p, q, Take(id))) && Moves(After(p, q, Take(id))) == Moves(q) + 1
  {
    OneOut(q.waiting, id);
    OneOut(q.active + {id}, id);
    assert q.active + {id} - {id} == q.active;
  }

  lemma CompleteMoves(p: Plant, q: Queue, id: JobId)
    requires Orderly(q) && Enabled(p, q, Complete(id))
    ensures Orderly(After(p, q, Complete(id))) && Moves(After(p, q, Complete(id))) == Moves(q) + 1
  {
    var url, depth := q.jobs[id].url, q.jobs[id].depth;
    var jobs := JobsAfter(p.cfg, p.site, q.jobs, url, depth, p.derive, p.retention);
    assert q.jobs.Keys <= jobs.Keys by {
      forall o | o in q.jobs.Keys ensures o in jobs.Keys { JobsOnlyGrow(p, q.jobs, url, depth, o); }
    }
    AddedSize(q.jobs, jobs, q.waiting);
    OneOut(q.active, id);
  }

  /** Each step is one move. */
  lemma StepMoves(p: Plant, q: Queue, s: Step)
    requires Orderly(q) && Enabled(p, q, s)
    ensures Orderly(After(p, q, s)) && Moves(After(p, q, s)) == Moves(q) + 1
  {
    match s
    case Take(id) => TakeMoves(p, q, id);
    case Complete(id) => CompleteMoves(p, q, id);
  }

  lemma {:induction false} RunMoves(p: Plant, q: Queue, steps: seq<Step>)
    requires Orderly(q) && Runs(p, q, steps)
    ensures Orderly(Final(p, q, steps)) && Moves(Final(p, q, steps)) == Moves(q) + |steps|
    decreases |steps|
  {
    if steps != [] {
      StepMoves(p, q, steps[0]);
      RunMoves(p, After(p, q, steps[0]), steps[1..]);
    }
  }

  lemma JobsInPlay(p: Plant, q: Queue, c: Crawls.Crawl)
    requires Proper(p) && Shows(p, q, c)
    ensures |q.jobs| <= |InPlay(p)|
  {
    KeysAreIds(q.jobs, c.known, p.derive);
    CrawlReach.PlacedInReach(SetupOfPlant(p), c);
    IdsSize(c.known.Keys, p.derive);
    SubsetSize(c.known.Keys, InPlay(p));
    assert |q.jobs| == |q.jobs.Keys|;
  }

  /**
   After any run from the start every queued job has been taken and completed once, as far as it neither waits nor
   runs: the length of the run is known, is at most twice the number of URLs in play, and says whether it is dry.
   */
  lemma RunLength(p: Plant, steps: seq<Step>)
    requires Proper(p) && Runs(p, Start(p), steps)
    ensures var q := Final(p, Start(p), steps);
            && |steps| + 2 * |q.waiting| + |q.active| == 2 * |q.jobs|
            && |q.jobs| <= |InPlay(p)|
            && (Dry(q) <==> |steps| == 2 * |q.jobs|)
  {
    RunMoves(p, Start(p), steps);
    StartShows(p);
    var run := QueueRunIsCrawlRun(p, Start(p), Crawls.Init(SetupOfPlant(p)), steps);
    JobsInPlay(p, Final(p, Start(p), steps), Crawls.Final(SetupOfPlant(p), Crawls.Init(SetupOfPlant(p)), run));
  }

  /** Of some queued jobs, one has the least priority number. */
  lemma {:induction false} BestJob(jobs: Jobs, ids: set<JobId>) returns (best: JobId)
    requires ids != {} && ids <= jobs.Keys
    ensures best in ids && forall o <- ids :: o in jobs ==> jobs[best].priority <= jobs[o].priority
    decreases |ids|
  {
    best :| best in ids;
    var others := ids - {best};
    if others != {} {
      var b := BestJob(jobs, others);
      if jobs[b].priority < jobs[best].priority { best := b; }
    }
  }

  /** With a worker, a queue can go on exactly as long as it is not dry. */
  lemma StopsOnlyDry(p: Plant, q: Queue)
    requires 1 <= p.workers && Orderly(q)
    ensures Dry(q) <==> forall s :: !Enabled(p, q, s)
  {
    if q.active != {} {
      var id :| id in q.active;
      assert Enabled(p, q, Complete(id));
    } else if q.waiting != {} {
      var id := BestJob(q.jobs, q.waiting);
      assert Enabled(p, q, Take(id));
    }
  }

  lemma StepFirst(p: Plant, q: Queue, s: Step, rest: seq<Step>)
    requires Enabled(p, q, s) && Runs(p, After(p, q, s), rest)
    ensures Runs(p, q, [s] + rest) && Final(p, q, [s] + rest) == Final(p, After(p, q, s), rest)
  {
    assert ([s] + rest)[1..] == rest;
  }

  lemma {:induction false} Joined(p: Plant, q: Queue, a: seq<Step>, b: seq<Step>)
    requires Runs(p, q, a) && Runs(p, Final(p, q, a), b)
    ensures Runs(p, q, a + b) && Final(p, q, a + b) == Final(p, Final(p, q, a), b)
    decreases |a|
  {
    if a == [] {
      assert a + b == b;
    } else {
      Joined(p, After(p, q, a[0]), a[1..], b);
      JoinedFirst(p, q, After(p, q, a[0]), a, b);
    }
  }

  lemma JoinedFirst(p: Plant, q: Queue, next: Queue, a: seq<Step>, b: seq<Step>)
    requires a != [] && Enabled(p, q, a[0]) && next == After(p, q, a[0]) && Runs(p, next, a[1..] + b)
    ensures Runs(p, q, a + b) && Final(p, q, a + b) == Final(p, next, a[1..] + b)
  {
    assert (a + b)[0] == a[0] && (a + b)[1..] == a[1..] + b;
    Unfolds(p, q, next, a + b);
  }

  lemma Unfolds(p: Plant, q: Queue, next: Queue, steps: seq<Step>)
    requires steps != [] && Enabled(p, q, steps[0]) && next == After(p, q, steps[0]) && Runs(p, next, steps[1..])
    ensures Runs(p, q, steps) && Final(p, q, steps) == Final(p, next, steps[1..])
  {}

  lemma MovesLeft(p: Plant, q: Queue, c: Crawls.Crawl)
    requires Proper(p) && Shows(p, q, c)
    ensures Moves(q) <= 2 * |InPlay(p)|
  {
    JobsInPlay(p, q, c);
  }

  lemma {:induction false} GoesDry(p: Plant, q: Queue, c: Crawls.Crawl) returns (more: seq<Step>)
    requires Proper(p) && 1 <= p.workers && Shows(p, q, c) && Orderly(q)
    ensures Runs(p, q, more) && Dry(Final(p, q, more))
    decreases 2 * |InPlay(p)| - Moves(q)
  {
    more := [];
    if !Dry(q) {
      StopsOnlyDry(p, q);
      var s :| Enabled(p, q, s);
      var t := QueueStepIsCrawlStep(p, q, c, s);
      StepMoves(p, q, s);
      MovesLeft(p, After(p, q, s), Crawls.After(SetupOfPlant(p), c, t));
      var rest := GoesDry(p, After(p, q, s), Crawls.After(SetupOfPlant(p), c, t));
      StepFirst(p, q, s, rest);
      more := [s] + rest;
    }
  }

  /** Every run can be continued until the queue is dry. */
  lemma RunsDry(p: Plant, steps: seq<Step>) returns (more: seq<Step>)
    requires Proper(p) && 1 <= p.workers && Runs(p, Start(p), steps)
    ensures Runs(p, Start(p), steps + more) && Dry(Final(p, Start(p), steps + more))
  {
    StartShows(p);
    var run := QueueRunIsCrawlRun(p, Start(p), Crawls.Init(SetupOfPlant(p)), steps);
    RunMoves(p, Start(p), steps);
    more := GoesDry(p, Final(p, Start(p), steps), Crawls.Final(SetupOfPlant(p), Crawls.Init(SetupOfPlant(p)), run));
    Joined(p, Start(p), steps, more);
  }

  /** So the breadth-first promise needs no condition but that the one worker goes on as long as it can. */
  lemma LongestRunIsBreadthFirst(p: Plant, steps: seq<Step>, u: string)
    requires Proper(p) && p.workers == 1 && Runs(p, Start(p), steps)
    requires forall s :: !Enabled(p, Final(p, Start(p), steps), s)
    ensures |steps| <= 2 * |InPlay(p)|
    ensures IsBreadthFirst(p, Final(p, Start(p), steps), u)
  {
    RunLength(p, steps);
    RunMoves(p, Start(p), steps);
    StopsOnlyDry(p, Final(p, Start(p), steps));
    QueueCrawlIsBreadthFirst(p, steps, u);
  }
}
