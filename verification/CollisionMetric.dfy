/** What the collision metric counts, and when that is the URLs it is meant to count. */
module CollisionMetrics {
  import opened Sizes
  import opened FirstOccurrences
  import opened Frontiers

  // ---------------------------------------------------------------- ids are the image of the URLs

  lemma JobsSnoc(es: seq<Entry>, derive: string -> JobId, retention: Retention)
    requires es != []
    ensures var js := ToJobs(es, derive, retention);
            js != [] && js[..|js| - 1] == ToJobs(es[..|es| - 1], derive, retention)
                && js[|js| - 1].jobId == derive(es[|es| - 1].url)
  {}

  lemma ImageSnoc(urls: set<string>, derive: string -> JobId, ids: set<JobId>, u: string)
    requires Image(urls, derive, ids)
    ensures Image(urls + {u}, derive, ids + {derive(u)})
  {
    forall id | id in ids + {derive(u)} ensures exists v <- urls + {u} :: derive(v) == id {
      if id in ids {
        var v :| v in urls && derive(v) == id;
        assert v in urls + {u};
      } else {
        assert u in urls + {u};
      }
    }
  }

  lemma {:induction false} IdsAreImage(es: seq<Entry>, derive: string -> JobId, retention: Retention)
    ensures Image(Urls(es), derive, Ids(ToJobs(es, derive, retention)))
  {
    if es != [] {
      var before := es[..|es| - 1];
      IdsAreImage(before, derive, retention);
      JobsSnoc(es, derive, retention);
      ImageSnoc(Urls(before), derive, Ids(ToJobs(before, derive, retention)), es[|es| - 1].url);
    }
  }

  /** One job per id, and an id for every submitted URL. */
  lemma BatchIds(es: seq<Entry>, derive: string -> JobId, retention: Retention, batch: seq<JobSpec>)
    requires batch == Batch(es, derive, retention)
    ensures |Ids(batch)| == |batch| && Image(Urls(es), derive, Ids(batch))
  {
    FirstsIds(ToJobs(es, derive, retention));
    IdsAreImage(es, derive, retention);
  }

  lemma {:induction false} UrlOf(es: seq<Entry>, i: nat)
    requires i < |es|
    ensures es[i].url in Urls(es)
  {
    if i < |es| - 1 {
      UrlOf(es[..|es| - 1], i);
      assert es[..|es| - 1][i] == es[i];
    }
  }

  /** Each job of the batch is for a submitted URL. */
  lemma BatchEntry(es: seq<Entry>, derive: string -> JobId, retention: Retention, j: JobSpec)
    requires j in Batch(es, derive, retention)
    ensures j.url in Urls(es) && j.jobId == derive(j.url)
  {
    var js := ToJobs(es, derive, retention);
    var i :| 0 <= i < |Firsts(js, IdOf)| && Firsts(js, IdOf)[i] == j;
    FirstsAreFirst(js, IdOf, i);
    var at :| 0 <= at < |js| && js[at] == j;
    UrlOf(es, at);
  }

  // ---------------------------------------------------------------- the metric

  /** The batch's ids that were queued before. */
  function Again(jobs: Jobs, batch: seq<JobSpec>): set<JobId> {
    Ids(batch) * jobs.Keys
  }

  /** What one submission adds to the metric. */
  function Increment(jobs: Jobs, es: seq<Entry>, batch: seq<JobSpec>): nat {
    Collisions(|batch|, |Inserted(jobs, batch)| - |jobs|, |Urls(es)|)
  }

  lemma SplitSize(ids: set<JobId>, known: set<JobId>)
    ensures |ids| == |ids - known| + |ids * known|
  {
    assert ids == (ids - known) + (ids * known);
  }

  /** Of the submitted jobs, the queue discards those whose id was there before. */
  lemma Discarded(jobs: Jobs, es: seq<Entry>, derive: string -> JobId, retention: Retention, batch: seq<JobSpec>)
    requires batch == Batch(es, derive, retention)
    ensures |batch| - (|Inserted(jobs, batch)| - |jobs|) == |Again(jobs, batch)|
    ensures |Ids(batch)| == |batch| <= |Urls(es)|
  {
    BatchIds(es, derive, retention, batch);
    ImageSize(Urls(es), derive, Ids(batch));
    InsertedGrowth(jobs, batch);
    SplitSize(Ids(batch), jobs.Keys);
  }

  /**
   The metric stays still if no submitted id was queued before, however many URLs share one.  Otherwise it rises by
   the number of ids that were, ordinary duplicates included, and by the number of URLs that share an id with another.
   */
  lemma MetricCounts(jobs: Jobs, es: seq<Entry>, derive: string -> JobId, retention: Retention, batch: seq<JobSpec>)
    requires batch == Batch(es, derive, retention)
    ensures Increment(jobs, es, batch) ==
            if Again(jobs, batch) == {} then 0 else |Again(jobs, batch)| + (|Urls(es)| - |Ids(batch)|)
    ensures InjectiveOn(derive, Urls(es)) ==> Increment(jobs, es, batch) == |Again(jobs, batch)|
  {
    Discarded(jobs, es, derive, retention, batch);
    BatchIds(es, derive, retention, batch);
    ImageSize(Urls(es), derive, Ids(batch));
  }

  // ---------------------------------------------------------------- what it is meant to count

  /** The submitted URLs whose id went to another URL, in this batch or before. */
  function LostUrls(jobs: Jobs, es: seq<Entry>, batch: seq<JobSpec>, derive: string -> JobId): set<string> {
    var queued := Inserted(jobs, batch);
    set u | u in Urls(es) && derive(u) in queued && queued[derive(u)].url != u
  }

  function KeptUrls(jobs: Jobs, es: seq<Entry>, batch: seq<JobSpec>, derive: string -> JobId): set<string> {
    var queued := Inserted(jobs, batch);
    set u | u in Urls(es) && derive(u) in queued && queued[derive(u)].url == u
  }

  /** The ids that were queued before for the very URL that is submitted. */
  function OwnAgain(jobs: Jobs, es: seq<Entry>, batch: seq<JobSpec>, derive: string -> JobId): set<JobId> {
    set id | id in Again(jobs, batch) && jobs[id].url in Urls(es) && derive(jobs[id].url) == id
  }

  /** No submitted URL is queued under its own id. */
  ghost predicate NoneQueued(jobs: Jobs, urls: set<string>, derive: string -> JobId) {
    forall u <- urls :: derive(u) in jobs ==> jobs[derive(u)].url != u
  }

  /** Whose URL an id of the batch names afterwards. */
  lemma Holder(jobs: Jobs, es: seq<Entry>, derive: string -> JobId, retention: Retention, batch: seq<JobSpec>,
      id: JobId)
    requires batch == Batch(es, derive, retention) && id in Ids(batch)
    ensures id in Inserted(jobs, batch)
    ensures id in jobs ==> Inserted(jobs, batch)[id] == jobs[id]
    ensures id !in jobs ==> Inserted(jobs, batch)[id].url in Urls(es) && derive(Inserted(jobs, batch)[id].url) == id
  {
    InsertedContents(jobs, batch, id);
    IdsAreKeys(batch, id);
    if id !in jobs { BatchEntry(es, derive, retention, Inserted(jobs, batch)[id]); }
  }

  /** The ids held by a submitted URL are the new ones and those that it held before. */
  lemma KeptImage(jobs: Jobs, es: seq<Entry>, derive: string -> JobId, retention: Retention, batch: seq<JobSpec>)
    requires batch == Batch(es, derive, retention)
    ensures Image(KeptUrls(jobs, es, batch, derive), derive,
                  (Ids(batch) - jobs.Keys) + OwnAgain(jobs, es, batch, derive))
    ensures InjectiveOn(derive, KeptUrls(jobs, es, batch, derive))
  {
    BatchIds(es, derive, retention, batch);
    var kept, won := KeptUrls(jobs, es, batch, derive), (Ids(batch) - jobs.Keys) + OwnAgain(jobs, es, batch, derive);
    forall u | u in kept ensures derive(u) in won {
      assert derive(u) in Ids(batch);
      Holder(jobs, es, derive, retention, batch, derive(u));
    }
    forall id | id in won ensures exists u <- kept :: derive(u) == id {
      Holder(jobs, es, derive, retention, batch, id);
      assert Inserted(jobs, batch)[id].url in kept;
    }
  }

  lemma UrlsSplit(jobs: Jobs, es: seq<Entry>, derive: string -> JobId, retention: Retention, batch: seq<JobSpec>)
    requires batch == Batch(es, derive, retention)
    ensures |Urls(es)| == |KeptUrls(jobs, es, batch, derive)| + |LostUrls(jobs, es, batch, derive)|
  {
    BatchIds(es, derive, retention, batch);
    var kept, lost := KeptUrls(jobs, es, batch, derive), LostUrls(jobs, es, batch, derive);
    forall u | u in Urls(es) ensures u in kept + lost {
      assert derive(u) in Ids(batch);
      Holder(jobs, es, derive, retention, batch, derive(u));
    }
    assert Urls(es) == kept + lost && kept !! lost;
  }

  /** How many URLs lost their id. */
  lemma LostCount(jobs: Jobs, es: seq<Entry>, derive: string -> JobId, retention: Retention, batch: seq<JobSpec>)
    requires batch == Batch(es, derive, retention)
    ensures |LostUrls(jobs, es, batch, derive)| ==
            |Urls(es)| - |Ids(batch)| + |Again(jobs, batch)| - |OwnAgain(jobs, es, batch, derive)|
  {
    UrlsSplit(jobs, es, derive, retention, batch);
    KeptImage(jobs, es, derive, retention, batch);
    var recent, own := Ids(batch) - jobs.Keys, OwnAgain(jobs, es, batch, derive);
    ImageSize(KeptUrls(jobs, es, batch, derive), derive, recent + own);
    assert |recent + own| == |recent| + |own| by { assert recent !! own; }
    SplitSize(Ids(batch), jobs.Keys);
  }

  lemma OwnAgainIsQueued(jobs: Jobs, es: seq<Entry>, derive: string -> JobId, retention: Retention, batch: seq<JobSpec>)
    requires batch == Batch(es, derive, retention)
    ensures OwnAgain(jobs, es, batch, derive) == {} <==> NoneQueued(jobs, Urls(es), derive)
  {
    BatchIds(es, derive, retention, batch);
    if OwnAgain(jobs, es, batch, derive) == {} {
      forall u | u in Urls(es) && derive(u) in jobs ensures jobs[derive(u)].url != u {
        assert derive(u) in Ids(batch);
        assert derive(u) !in OwnAgain(jobs, es, batch, derive);
      }
    } else {
      var id :| id in OwnAgain(jobs, es, batch, derive);
      assert jobs[id].url in Urls(es);
    }
  }

  lemma NoneLostIff(jobs: Jobs, es: seq<Entry>, derive: string -> JobId, retention: Retention, batch: seq<JobSpec>)
    requires batch == Batch(es, derive, retention) && Again(jobs, batch) == {}
    ensures LostUrls(jobs, es, batch, derive) == {} <==> InjectiveOn(derive, Urls(es))
  {
    BatchIds(es, derive, retention, batch);
    forall u | u in Urls(es)
      ensures derive(u) in Inserted(jobs, batch)
      ensures Inserted(jobs, batch)[derive(u)].url in Urls(es)
              && derive(Inserted(jobs, batch)[derive(u)].url) == derive(u)
    {
      assert derive(u) in Ids(batch) && derive(u) !in Again(jobs, batch);
      Holder(jobs, es, derive, retention, batch, derive(u));
    }
    if LostUrls(jobs, es, batch, derive) == {} {
      forall u, v | u in Urls(es) && v in Urls(es) && derive(u) == derive(v) ensures u == v {
        assert u !in LostUrls(jobs, es, batch, derive) && v !in LostUrls(jobs, es, batch, derive);
      }
    }
  }

  /**
   The metric counts exactly the URLs that lost their id to another URL if and only if no submitted URL is itself
   already queued or, where no submitted id was queued before, no two submitted URLs share one.
   */
  lemma MetricCountsLostUrlsIff(jobs: Jobs, es: seq<Entry>, derive: string -> JobId, retention: Retention,
      batch: seq<JobSpec>)
    requires batch == Batch(es, derive, retention)
    ensures Increment(jobs, es, batch) == |LostUrls(jobs, es, batch, derive)| <==>
            if Again(jobs, batch) == {} then InjectiveOn(derive, Urls(es)) else NoneQueued(jobs, Urls(es), derive)
  {
    MetricCounts(jobs, es, derive, retention, batch);
    LostCount(jobs, es, derive, retention, batch);
    if Again(jobs, batch) == {} {
      NoneLostIff(jobs, es, derive, retention, batch);
    } else {
      OwnAgainIsQueued(jobs, es, derive, retention, batch);
    }
  }
}
