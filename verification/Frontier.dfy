/**
 The URL frontier: entries become jobs under an id derived from their URL, one batch per
 call, submitted to a queue backend that keeps the first job it is given under each id.
 */
module Frontiers {
  import opened Wrappers
  import opened OrderedMaps
  import opened FirstOccurrences
  import opened Sizes

  type JobId = string

  datatype Entry = Entry(url: string, depth: nat)

  datatype Retention = Retention(attempts: nat, backoffDelay: nat, completedLimit: nat, failedLimit: nat)

  datatype JobSpec = JobSpec(jobId: JobId, url: string, depth: nat, priority: nat, retention: Retention)

  type Jobs = map<JobId, JobSpec>

  // ---------------------------------------------------------------- specification

  function DepthToPriority(depth: nat): nat {
    depth
  }

  function IdOf(j: JobSpec): JobId {
    j.jobId
  }

  function ToJob(e: Entry, derive: string -> JobId, retention: Retention): JobSpec {
    JobSpec(derive(e.url), e.url, e.depth, DepthToPriority(e.depth), retention)
  }

  function ToJobs(es: seq<Entry>, derive: string -> JobId, retention: Retention): (js: seq<JobSpec>)
    ensures |js| == |es| && forall i :: 0 <= i < |es| ==> js[i] == ToJob(es[i], derive, retention)
  {
    seq(|es|, i requires 0 <= i < |es| => ToJob(es[i], derive, retention))
  }

  /** The batch a call submits: first occurrence wins. */
  function Batch(es: seq<Entry>, derive: string -> JobId, retention: Retention): seq<JobSpec> {
    Firsts(ToJobs(es, derive, retention), IdOf)
  }

  /** The queue after a bulk add: ids already present are left as they are. */
  function Inserted(jobs: Jobs, batch: seq<JobSpec>): Jobs {
    if batch == [] then jobs
    else
      var rest := Inserted(jobs, batch[..|batch| - 1]);
      var j := batch[|batch| - 1];
      if j.jobId in rest then rest else rest[j.jobId := j]
  }

  /** The increment of the collision metric. */
  function Collisions(submitted: int, added: int, uniqueUrls: int): nat {
    var discarded := submitted - added;
    if discarded <= 0 then 0
    else
      var unexpected := discarded - (submitted - uniqueUrls);
      if 0 < unexpected then unexpected else 0
  }

  // ---------------------------------------------------------------- what a batch does to the queue

  lemma {:induction false} InsertedContents(jobs: Jobs, batch: seq<JobSpec>, id: JobId)
    ensures id in jobs ==> id in Inserted(jobs, batch) && Inserted(jobs, batch)[id] == jobs[id]
    ensures id in Inserted(jobs, batch) <==> id in jobs || HasKey(batch, IdOf, id)
    ensures id in Inserted(jobs, batch) && id !in jobs ==>
            Inserted(jobs, batch)[id] in batch && Inserted(jobs, batch)[id].jobId == id
  {
    if batch != [] {
      InsertedContents(jobs, batch[..|batch| - 1], id);
      HasKeySnoc(batch, IdOf, id);
    }
  }

  function Ids(batch: seq<JobSpec>): set<JobId> {
    if batch == [] then {} else Ids(batch[..|batch| - 1]) + {batch[|batch| - 1].jobId}
  }

  lemma {:induction false} InsertedKeys(jobs: Jobs, batch: seq<JobSpec>)
    ensures Inserted(jobs, batch).Keys == jobs.Keys + Ids(batch)
  {
    if batch != [] { InsertedKeys(jobs, batch[..|batch| - 1]); }
  }

  /** The queue grows by the batch ids that were not there before. */
  lemma InsertedGrowth(jobs: Jobs, batch: seq<JobSpec>)
    ensures |Inserted(jobs, batch)| == |jobs| + |Ids(batch) - jobs.Keys|
  {
    InsertedKeys(jobs, batch);
    var news := Ids(batch) - jobs.Keys;
    assert jobs.Keys + Ids(batch) == jobs.Keys + news;
    assert |jobs.Keys + news| == |jobs.Keys| + |news|;
    assert |Inserted(jobs, batch)| == |Inserted(jobs, batch).Keys|;
    assert |jobs| == |jobs.Keys|;
  }

  lemma {:induction false} IdsAreKeys(batch: seq<JobSpec>, id: JobId)
    ensures id in Ids(batch) <==> HasKey(batch, IdOf, id)
  {
    if batch != [] {
      IdsAreKeys(batch[..|batch| - 1], id);
      HasKeySnoc(batch, IdOf, id);
    }
  }

  /** Dropping later occurrences keeps the ids, and then there is one job per id. */
  lemma {:induction false} FirstsIds(js: seq<JobSpec>)
    ensures Ids(Firsts(js, IdOf)) == Ids(js) && |Firsts(js, IdOf)| == |Ids(js)|
  {
    if js != [] {
      var n := |js| - 1;
      FirstsIds(js[..n]);
      IdsAreKeys(js[..n], js[n].jobId);
      var kept := Firsts(js[..n], IdOf);
      if !HasKey(js[..n], IdOf, IdOf(js[n])) {
        assert (kept + [js[n]])[..|kept|] == kept;
      }
    }
  }

  /**
   What a batch puts into the queue: under each id that was not there a job for the first entry with that id, its
   priority number the depth; jobs that were there stay as they are, and nothing else is added.
   */
  lemma QueuedJobs(jobs: Jobs, es: seq<Entry>, derive: string -> JobId, retention: Retention, id: JobId)
    ensures var queue := Inserted(jobs, Batch(es, derive, retention));
            && (id in queue <==> id in jobs || exists i :: 0 <= i < |es| && derive(es[i].url) == id)
            && (id in jobs ==> queue[id] == jobs[id])
            && (id in queue && id !in jobs ==>
                  exists i :: 0 <= i < |es| && queue[id] == JobSpec(id, es[i].url, es[i].depth, es[i].depth, retention)
                              && derive(es[i].url) == id && forall j :: 0 <= j < i ==> derive(es[j].url) != id)
  {
    var js, batch := ToJobs(es, derive, retention), Batch(es, derive, retention);
    InsertedContents(jobs, batch, id);
    FirstsSameKeys(js, IdOf, id);
    SameIds(es, derive, retention, id);
    if HasKey(js, IdOf, id) && id !in jobs {
      FirstJob(es, derive, retention, Inserted(jobs, batch)[id]);
    }
  }

  lemma SameIds(es: seq<Entry>, derive: string -> JobId, retention: Retention, id: JobId)
    ensures HasKey(ToJobs(es, derive, retention), IdOf, id) <==> exists i :: 0 <= i < |es| && derive(es[i].url) == id
  {
    var js := ToJobs(es, derive, retention);
    if i :| 0 <= i < |js| && IdOf(js[i]) == id { assert derive(es[i].url) == id; }
    if i :| 0 <= i < |es| && derive(es[i].url) == id { assert IdOf(js[i]) == id; }
  }

  /** A job of the batch is made of the first entry with its id. */
  lemma FirstJob(es: seq<Entry>, derive: string -> JobId, retention: Retention, job: JobSpec)
    requires job in Batch(es, derive, retention)
    ensures exists i :: 0 <= i < |es| && job == JobSpec(job.jobId, es[i].url, es[i].depth, es[i].depth, retention)
                        && derive(es[i].url) == job.jobId && forall j :: 0 <= j < i ==> derive(es[j].url) != job.jobId
  {
    var js := ToJobs(es, derive, retention);
    var k :| 0 <= k < |Batch(es, derive, retention)| && Batch(es, derive, retention)[k] == job;
    FirstsAreFirst(js, IdOf, k);
    var at :| 0 <= at < |js| && js[at] == job && !HasKey(js[..at], IdOf, IdOf(job));
    forall j | 0 <= j < at ensures derive(es[j].url) != job.jobId {
      assert IdOf(js[..at][j]) == derive(es[j].url);
    }
  }

  // --------------------------- with injective ids, the queue is a set of labelled URLs

  /** The queue holds exactly the URLs of `known`, each under its id, with its depth as priority. */
  ghost predicate Holds(jobs: Jobs, known: map<string, nat>, derive: string -> JobId) {
    && (forall u <- known.Keys :: derive(u) in jobs && jobs[derive(u)].url == u &&
                                  jobs[derive(u)].depth == known[u] && jobs[derive(u)].priority == known[u])
    && (forall id <- jobs.Keys :: jobs[id].url in known && derive(jobs[id].url) == id)
  }

  /** What enqueueing URLs at one depth does to the labelled set: new ones get the depth, old ones keep theirs. */
  function Enqueued(known: map<string, nat>, urls: seq<string>, depth: nat): map<string, nat> {
    known + (map u | u in urls && u !in known :: depth)
  }

  function EntriesAt(urls: seq<string>, depth: nat): (es: seq<Entry>)
    ensures |es| == |urls| && forall i :: 0 <= i < |urls| ==> es[i] == Entry(urls[i], depth)
  {
    seq(|urls|, i requires 0 <= i < |urls| => Entry(urls[i], depth))
  }

  lemma BatchMember(urls: seq<string>, depth: nat, derive: string -> JobId, retention: Retention, j: JobSpec)
    requires j in Batch(EntriesAt(urls, depth), derive, retention)
    ensures j.url in urls && j == ToJob(Entry(j.url, depth), derive, retention)
  {
    var js := ToJobs(EntriesAt(urls, depth), derive, retention);
    var i :| 0 <= i < |Firsts(js, IdOf)| && Firsts(js, IdOf)[i] == j;
    FirstsAreFirst(js, IdOf, i);
    var at :| 0 <= at < |js| && js[at] == j && !HasKey(js[..at], IdOf, IdOf(j));
    assert EntriesAt(urls, depth)[at] == Entry(urls[at], depth);
  }

  lemma BatchHasUrl(urls: seq<string>, depth: nat, derive: string -> JobId, retention: Retention, u: string)
    requires u in urls
    ensures HasKey(Batch(EntriesAt(urls, depth), derive, retention), IdOf, derive(u))
  {
    var js := ToJobs(EntriesAt(urls, depth), derive, retention);
    var i :| 0 <= i < |urls| && urls[i] == u;
    assert IdOf(js[i]) == derive(u);
    FirstsSameKeys(js, IdOf, derive(u));
  }

  /** Under injective ids, submitting a page's links is exactly adding the unknown URLs at that depth. */
  lemma EnqueueRefines(jobs: Jobs, known: map<string, nat>, urls: seq<string>, depth: nat,
                       derive: string -> JobId, retention: Retention)
    requires Holds(jobs, known, derive)
    requires InjectiveOn(derive, known.Keys + Elems(urls))
    ensures Holds(Inserted(jobs, Batch(EntriesAt(urls, depth), derive, retention)), Enqueued(known, urls, depth),
            derive)
  {
    var batch := Batch(EntriesAt(urls, depth), derive, retention);
    var jobs', known' := Inserted(jobs, batch), Enqueued(known, urls, depth);
    forall u | u in known'
      ensures derive(u) in jobs' && jobs'[derive(u)].url == u &&
              jobs'[derive(u)].depth == known'[u] && jobs'[derive(u)].priority == known'[u]
    {
      InsertedContents(jobs, batch, derive(u));
      if u in known {
        assert u in known.Keys;
      } else {
        assert u in Elems(urls);
        BatchHasUrl(urls, depth, derive, retention, u);
        assert derive(u) !in jobs;
        var j := jobs'[derive(u)];
        BatchMember(urls, depth, derive, retention, j);
        assert j.url in Elems(urls);
      }
    }
    forall id | id in jobs' ensures jobs'[id].url in known' && derive(jobs'[id].url) == id {
      InsertedContents(jobs, batch, id);
      if id in jobs {
        assert id in jobs.Keys;
      } else {
        BatchMember(urls, depth, derive, retention, jobs'[id]);
      }
    }
  }

  // ---------------------------------------------------------------- the submitted URLs

  function Urls(es: seq<Entry>): set<string> {
    if es == [] then {} else Urls(es[..|es| - 1]) + {es[|es| - 1].url}
  }

  // ---------------------------------------------------------------- the classes

  datatype BulkAddResult = BulkAddResult(added: nat, submitted: nat)

  /** The queue, as its port documents it: `added` excludes duplicates. */
  class QueueBackend {
    var jobs: Jobs
    var available: bool

    constructor ()
      ensures jobs == map[] && available
    {
      jobs, available := map[], true;
    }

    method AddBulk(batch: seq<JobSpec>) returns (r: Result<BulkAddResult, string>)
      modifies this`jobs
      ensures r.Err? <==> !available
      ensures r.Err? ==> jobs == old(jobs)
      ensures r.Ok? ==> jobs == Inserted(old(jobs), batch)
      ensures r.Ok? ==> r.value.added == |jobs| - |old(jobs)| && r.value.submitted == |batch|
    {
      if !available {
        return Err("addBulk");
      }
      var added := 0;
      for i := 0 to |batch|
        invariant jobs == Inserted(old(jobs), batch[..i])
        invariant |jobs| == |old(jobs)| + added
      {
        assert batch[..i + 1][..i] == batch[..i];
        if batch[i].jobId !in jobs {
          jobs := jobs[batch[i].jobId := batch[i]];
          added := added + 1;
        }
      }
      assert batch[..|batch|] == batch;
      return Ok(BulkAddResult(added, |batch|));
    }
  }

  class FrontierAdapter {
    const backend: QueueBackend
    const derive: string -> JobId
    const retention: Retention
    var collisions: nat

    constructor (backend: QueueBackend, derive: string -> JobId, retention: Retention)
      ensures this.backend == backend && this.derive == derive && this.retention == retention && collisions == 0
    {
      this.backend, this.derive, this.retention := backend, derive, retention;
      collisions := 0;
    }

    /** The loop over the entries: a map from id to job that only ever takes new ids. */
    method BuildBatch(es: seq<Entry>) returns (jobs: seq<JobSpec>)
      ensures jobs == Batch(es, derive, retention)
    {
      var jobMap: OrderedMap<JobId, JobSpec> := Empty();
      ghost var js := ToJobs(es, derive, retention);
      for n := 0 to |es|
        invariant Lists(jobMap, Firsts(js[..n], IdOf))
      {
        var jobId := derive(es[n].url);
        assert js[..n + 1][..n] == js[..n];
        ListsKeys(jobMap, js[..n], jobId);
        if jobId !in jobMap.vals {
          var spec := JobSpec(jobId, es[n].url, es[n].depth, DepthToPriority(es[n].depth), retention);
          ListsPut(jobMap, Firsts(js[..n], IdOf), spec);
          jobMap := jobMap.Put(jobId, spec);
        }
      }
      assert js[..|es|] == js;
      jobs := seq(|jobMap.keys|,
        i requires 0 <= i < |jobMap.keys| && jobMap.keys[i] in jobMap.vals => jobMap.vals[jobMap.keys[i]]);
      ghost var batch := Batch(es, derive, retention);
      assert forall i :: 0 <= i < |batch| ==> jobs[i] == batch[i];
    }

    /** An empty call succeeds without touching the queue, even one that is down. */
    method Enqueue(es: seq<Entry>) returns (r: Result<nat, string>)
      modifies this`collisions, backend`jobs
      ensures es == [] ==> r == Ok(0) && backend.jobs == old(backend.jobs) && collisions == old(collisions)
      ensures r.Err? <==> es != [] && !backend.available
      ensures r.Err? ==> backend.jobs == old(backend.jobs) && collisions == old(collisions)
      ensures r.Ok? && es != [] ==>
                var batch := Batch(es, derive, retention);
                && backend.jobs == Inserted(old(backend.jobs), batch)
                && r.value == |backend.jobs| - |old(backend.jobs)|
                && collisions == old(collisions) + Collisions(|batch|, r.value, |Urls(es)|)
    {
      if |es| == 0 {
        return Ok(0);
      }
      var jobs := BuildBatch(es);
      var result := backend.AddBulk(jobs);
      if result.Err? {
        return Err(result.error);
      }
      var uniqueUrls := |Urls(es)|;
      collisions := collisions + Collisions(|jobs|, result.value.added, uniqueUrls);
      return Ok(result.value.added);
    }
  }

  /** The map under construction lists the given jobs in order. */
  ghost predicate Lists(m: OrderedMap<JobId, JobSpec>, js: seq<JobSpec>) {
    && m.Valid() && |m.keys| == |js|
    && forall i :: 0 <= i < |js| ==> m.keys[i] == js[i].jobId && m.keys[i] in m.vals && m.vals[m.keys[i]] == js[i]
  }

  lemma ListsKeys(m: OrderedMap<JobId, JobSpec>, seen: seq<JobSpec>, id: JobId)
    requires Lists(m, Firsts(seen, IdOf))
    ensures id in m.vals <==> HasKey(seen, IdOf, id)
  {
    var js := Firsts(seen, IdOf);
    FirstsSameKeys(seen, IdOf, id);
    assert id in m.vals.Keys <==> id in Elems(m.keys);
    if id in m.vals {
      var i :| 0 <= i < |m.keys| && m.keys[i] == id;
      assert IdOf(js[i]) == id;
    }
    if HasKey(js, IdOf, id) {
      var i :| 0 <= i < |js| && IdOf(js[i]) == id;
      assert m.keys[i] == id;
    }
  }

  lemma ListsPut(m: OrderedMap<JobId, JobSpec>, js: seq<JobSpec>, j: JobSpec)
    requires Lists(m, js) && j.jobId !in m.vals
    ensures Lists(m.Put(j.jobId, j), js + [j])
  {
    PutNewValid(m, j.jobId, j);
  }
}
