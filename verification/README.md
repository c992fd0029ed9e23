# Crawler verification

Dafny model and proofs of the stateful and arithmetic core of a distributed web crawler. `dafny verify dfyconfig.toml` checks everything.

What is modelled, by component:

- **The crawl.** `Frontier`, `CrawlPipeline`, `DiscoverStage` and `Normalizer` follow the code of one job, from href to queued job (`DiscoveredPage`: what is handed on of a page). `Crawl` is the state machine the jobs perform together; `CrawlComposition` and `QueueCrawl` prove that the job code on the queue performs its runs, and `QueueProgress` that those get to their end. `CollisionMetric` says what the frontier's metric counts. On it rest breadth-first labelling and coverage (`Crawl`), what a crawl can reach (`CrawlReach`), where coverage ends (`CrawlLimits`, and with tries that fail `CrawlRetries`), termination (`CrawlTermination`) and stable completion (`ControlPlane`).
- **Completion.** `Backoff` and `Completion`: the polling loop as a function of its answers, and the exact abort time.
- **Leader election.** `LeaderElection`: any number of coordinators over one key with a time to live, split at every await; `LeaderFlag` ties flags and operations under way to what happened in a run; `LeaderExact` says exactly which states and steps keep exclusion, and `ElectionLimits` has concrete runs that lose it.
- **Rate limits and LRU.** `SlidingWindow` (a protocol of several clients) with `SlidingLimits`, where its bounds are met, `TokenBucket` (over reals), `LruMap`, `BreakerRegistry` and `BreakerTies`, `Politeness` and `PolitenessTouch`.
- **Addresses and URLs.** `IpRange`, `Ipv6`, `IpCheck` and `IpValues`; `PrintedAddress` and `Ipv6Text` say what is checked in terms of the text. `Normalizer`, with `NormalFormText` on the text it makes. `Redirects` and `HardenedFetch`, with `FetchEndings` and `HardenedEndings` on how fetches end. `StoreConnection`.

Classes and methods with loops follow the code that updates state in place; each is proved equal to a specification function, and the lemmas are about those functions.

## Where code and documentation differ

The model follows the code.

- Mutual exclusion of leaders needs more than an unexpired lease. It is lost by exactly two kinds of step: time passing the expiry while a coordinator leads, is about to, or is between the get and the del of a release; and a release asked for by a coordinator that is not leading, or is releasing already, unless the key is alive and matters to nobody (`StepIsHarmlessIff`; `ElectionLimits` has runs that end in two leaders). SET XX compares no owners, so a stale timer can take the key over (`KeyKeepsNameIff`).
- The breadth-first promise of REQ-DIST-002 holds, if every try succeeds, for one worker and for no other number: with two or more, a page can be labelled too deep and then be cut off by `maxDepth` (`CoverageNeedsOneWorker`). The retries of REQ-DIST-003 break it for one worker too, since others overtake a job that waits for its next try (`CoverageNeedsNoRetries`); taking a job is harmless if and only if no shallower one is delayed or it lies beyond `maxDepth` (`TakeIsHarmlessIff`).
- REQ-DIST-012 counts prioritized jobs as pending; the six counts of the control plane do not, so `completed` can be reported while one waits (`CompletedIsDry` and `CompletedIsQuietIffCounted` are the exact conditions). Every child job of the frontier has a priority above 0.
- The collision metric of REQ-DIST-009 counts ordinary duplicates, and misses collisions within a batch of new ids (`MetricCounts`); `MetricCountsLostUrlsIff` says when it counts what it is meant to.
- "Two consecutive empty polls" of REQ-DIST-013 ignores failed polls in between (`VerdictMeans`).
- The registry's recency rule needs a clock without harmful ties: within a millisecond insertion order decides (`AgreeForEverIff`, `TieIsHarmlessIff`).
- Pruning a domain whose queue is ahead of the clock, or evicting it as the oldest when the map is full, lets its next request overtake it (`DropIsHarmlessIff`, with `EarlyDropIff` for what can be checked before the event).
- A denied request counts against the window until its removal has taken effect (`OutstandingRemovalDenies`). A reset forgets the requests it admitted, so the limit holds between resets (`ResetsAddToTheLimit`, `ResetsReachTheLimit`). A client stamps its request before it is sent, so with landings up to `late` behind the latest the limit holds in windows up to `windowMs - late` and in no longer ones (`WidthIsSafeIff`).
- A redirect with an empty Location ends the hardened fetch and is followed by the fetcher, as a redirect to the same URL; a repeated Location is read as its first value by the fetcher and as all values joined by the hardened fetch (`SameRequestsIff`, `GoDifferentlyIff`).
- A failed cancel is never retried: its error is every later caller's answer (`CancelOnce`).
- A printed connection URL loses a username given without a password and turns empty credentials into none (`RoundTripIff`).
- An IPv4-mapped address is checked against the IPv4 ranges only in the one spelling `::ffff:a.b.c.d`; in hexadecimal groups, or with the zeros before `ffff` spelt differently, it is always allowed (`MappedSpellingsAgreeIff`), and in brackets in every spelling (`BracketedMappedIsAllowed`). Dotted text behind `::` is read as one hexadecimal group (`CompatibleVerdict`).

## Model

| member | source | states |
|---|---|---|
| `Crawls.CrawlIsBreadthFirst` | packages/crawl-pipeline/src/crawl-pipeline.ts:33-68 | With one worker, when the crawl has run dry: a URL was fetched if and only if it is allowed and some chain of at most `maxDepth` links leads to it from a seed; its depth is its shortest distance; no URL is fetched twice and the log is in order of depth. |
| `Crawls.FetchesAreSound` | packages/crawl-pipeline/src/validate-stage.ts:18-49 | With any number of workers, nothing is fetched twice, and everything fetched is allowed, reachable, and labelled with the length of a real path, at most `maxDepth`. |
| `Crawls.RunSound` | packages/url-frontier/src/frontier-adapter.ts:63-82 | Every run keeps the invariant of the labelled queue: labels are lengths of paths, the log holds each finished valid job once, the children of finished pages are known. |
| `Crawls.NewLabelIsShortest` | packages/crawl-pipeline/src/enqueue-stage.ts:26-32 | What the shallowest unfinished job discovers lies no nearer than the label `depth + 1` it gets, for every path to an unknown URL. |
| `Crawls.StepInOrder` | packages/url-frontier/src/priority.ts:9-11 | One worker taking the smallest priority number first never finishes a deeper job before a shallower one. |
| `Crawls.AllKnown` | packages/crawl-pipeline/src/enqueue-stage.ts:26-34 | When nothing is left to do, the end of every path of at most `maxDepth + 1` links is known. |
| `Crawls.CompletedIsDry` | packages/completion-detection/src/control-plane-adapter.ts:25-36 | On every run and with any set of waiting child jobs left out of the six counts: `completed` is reported if and only if nothing that is counted waits or runs and there were seeds; and a `completed` crawl has run dry if and only if no waiting job is left out. |
| `Crawls.CompletedMeansCovered` | packages/completion-detection/src/control-plane-adapter.ts:25-36 | So with one worker, and if no waiting job is left out of the counts, a crawl reported `completed` has fetched exactly the allowed pages within `maxDepth` links. |
| `CrawlReach.KnownIsBounded` | packages/crawl-pipeline/src/validate-stage.ts:22-31 | However large the web, every run knows only URLs of a finite set, those within `maxDepth + 1` links of the seeds. |
| `CrawlReach.LevelIs` | packages/crawl-pipeline/src/enqueue-stage.ts:26-32 | The k-th level of that set, built link by link from the seeds, is exactly what some path of at most k links leads to. |
| `CrawlLimits.CoverageNeedsOneWorker` | packages/url-frontier/src/frontier-adapter.ts:63-82 | For every number of workers n >= 1: each web is covered whenever its crawl has run dry, if and only if n is 1. |
| `CrawlLimits.MoreWorkersMissAPage` | packages/url-frontier/src/frontier-adapter.ts:63-82 | For every n >= 2 a four-page web and a run in which an allowed page one link from a seed is never fetched, because a longer path labelled it first. |
| `CrawlLimits.HiddenJobLooksCompleted` | packages/completion-detection/src/control-plane-adapter.ts:25-36 | A run after which the crawl is `completed` although its one child job, which is not counted, still waits. |
| `CrawlRetries.InTurnIsBreadthFirst` | packages/url-frontier/src/frontier-config.ts:7-20 | With failing tries, delays and any number of retries, one worker keeps every label the shortest distance, and covers what has run dry, on every run in which no job within `maxDepth` is taken while a shallower one is delayed. |
| `CrawlRetries.TakeIsHarmlessIff` | packages/url-frontier/src/frontier-config.ts:7-20 | After any such run: taking a job and working it off leaves all labels shortest distances, in every web that agrees on the finished pages, if and only if no shallower job is delayed or the job lies beyond `maxDepth`. |
| `CrawlRetries.CoverageNeedsNoRetries` | packages/url-frontier/src/frontier-config.ts:7-20 | For every number of workers n >= 1 and every number of retries: each web is covered whenever its crawl has run dry, if and only if n is 1 and failed jobs are not tried again. |
| `CrawlRetries.RetryMisses` | packages/url-frontier/src/frontier-config.ts:14-20 | On a four-page web one worker and one failed try miss an allowed page one link from a seed. |
| `QueueCrawls.QueueCrawlIsBreadthFirst` | packages/crawl-pipeline/src/crawl-pipeline.ts:33-68 | The breadth-first theorem for the queue itself, on every site, one with endlessly many URLs included: one worker that takes jobs by priority number and puts them through the pipeline has, once the queue is dry, fetched exactly the allowed pages within `maxDepth` links, each once and at its shortest distance. Job ids need only differ on the URLs within `maxDepth + 1` links of the seeds, which are finitely many. |
| `QueueProgress.LongestRunIsBreadthFirst` | packages/crawl-pipeline/src/crawl-pipeline.ts:33-68 | The same without assuming the queue dry: one worker that goes on as long as any step is possible stops within twice as many steps as there are URLs within `maxDepth + 1` links, and has then fetched exactly those pages, each once and at its shortest distance. |
| `QueueProgress.RunLength` | packages/url-frontier/src/frontier-adapter.ts:52-93 | For any number of workers the length of every run plus two steps for each waiting job and one for each active job is twice the number of queued jobs, which is at most the number of URLs within `maxDepth + 1` links; so it is dry exactly after two steps per job. |
| `QueueProgress.StopsOnlyDry` | packages/url-frontier/src/priority.ts:9-11 | With at least one worker, a queue has no possible step if and only if it is dry. |
| `QueueProgress.RunsDry` | packages/crawl-pipeline/src/crawl-pipeline.ts:33-68 | Every run of at least one worker can be continued until the queue is dry. |
| `QueueCrawls.QueueRunIsCrawlRun` | packages/url-frontier/src/frontier-adapter.ts:52-93 | For any number of workers and on every site, every run of the queue, with its waiting and active jobs, is a run of the crawl that waits, works and fetches alike. |
| `QueueCrawls.TakeIsPick` | packages/url-frontier/src/priority.ts:9-11 | Taking a waiting job of least priority number is picking a URL of least depth. |
| `CrawlComposition.PipelineIsWork` | packages/crawl-pipeline/src/crawl-pipeline.ts:33-68 | Under injective job ids, one job through validate, fetch, discover, enqueue and the queue is exactly the crawl step Work, and it logs a fetch exactly when the job passes validation. |
| `CrawlComposition.SeedingIsInit` | packages/url-frontier/src/frontier-adapter.ts:52-93 | Enqueueing the seeds at depth 0 into an empty queue is the start state of the crawl. |
| `CrawlComposition.PriorityIsDepth` | packages/url-frontier/src/priority.ts:9-11 | A waiting URL has the smallest depth among the waiting ones if and only if its job has the smallest priority number. |
| `CrawlComposition.PipelineReplaces` | packages/crawl-pipeline/src/enqueue-stage.ts:26-34 | What a finished or retried job leaves behind satisfies the premises of the termination theorem. |
| `CrawlTermination.NoInfiniteRun` | packages/crawl-pipeline/src/crawl-pipeline.ts:33-67 | There is no infinite run of tries, for any workers, pages and retries, even if deduplication forgets everything: tries per job and children per page are finite, children are one deeper, and jobs past `maxDepth` have none. |
| `CrawlTermination.StepWeight` | packages/crawl-pipeline/src/validate-stage.ts:22-31 | One try lowers the number of tries left at its own depth and leaves shallower depths alone. |
| `CrawlTermination.LevelFallsQuiet` | packages/crawl-pipeline/src/enqueue-stage.ts:26-32 | Once the shallower depths are quiet, a depth is worked on only finitely often: it falls quiet too. |
| `CrawlPipelines.ExecutePipeline` | packages/crawl-pipeline/src/crawl-pipeline.ts:33-68 | A job fetches exactly when its depth is within `maxDepth` and no allow-list is given or an entry of it is the domain but for the case of letters; otherwise it ends with the depth or the domain error. Each stage failure ends the rest with its error, and the queue afterwards is the old one with the batch of children at `depth + 1` added, or unchanged if the queue is down. |
| `CrawlPipelines.ValidateMeans` | packages/crawl-pipeline/src/validate-stage.ts:22-48 | Validation refuses with the depth error if and only if the depth exceeds `maxDepth`, and with the domain error if and only if it does not, a list is given and every entry differs from the domain in more than the case of ASCII letters. |
| `CrawlPipelines.DiscoveredLinks` | packages/crawl-pipeline/src/discover-stage.ts:45-71 | A link is handed on if and only if the page could be fetched and has it. |
| `DiscoverStages.ResolveAndDedup` | packages/crawl-pipeline/src/discover-stage.ts:74-106 | The loop with its `seen` set computes the first occurrence, by normal form, of every link that is not passed over. |
| `DiscoverStages.DiscoverLinks` | packages/crawl-pipeline/src/discover-stage.ts:45-71 | Only HTML pages yield links, resolved against the final URL if there is one; a failed extraction warns and its partial links are used alike. |
| `DiscoverStages.HandedOnIff` | packages/crawl-pipeline/src/discover-stage.ts:74-122 | A normal form is handed on if and only if some href that is neither skipped, unresolvable nor refused has it. |
| `DiscoveredPages.HandedOnOfPage` | packages/crawl-pipeline/src/discover-stage.ts:51-105 | The stage hands on a normal form if and only if the content type begins with text/html in any case, and some href, resolved against the final URL, or else the requested one, is accepted with that normal form. |
| `DiscoveredPages.SkippedIff` | packages/crawl-pipeline/src/discover-stage.ts:109-122 | White space around it apart, an href is passed over if and only if it is empty, "#", longer than 2048 UTF-16 units, holds a control character, or begins with one of the four schemes in any case. |
| `DiscoverStages.HandedOnAreNormal` | packages/crawl-pipeline/src/discover-stage.ts:74-106 | What is handed on is its own normal form, has no control characters, and appears once. |
| `DiscoverStages.PipelineDiscovers` | packages/crawl-pipeline/src/discover-stage.ts:99-102 | The links the pipeline hands on are the normal forms of the stage's results, in order. |
| `FirstOccurrences.FirstsAreFirst` | packages/crawl-pipeline/src/discover-stage.ts:99-102 | Each element kept by the deduplication is the first of its key. |
| `FirstOccurrences.FirstsSameKeys` | packages/url-frontier/src/frontier-adapter.ts:63-79 | Deduplication keeps exactly the keys there were. |
| `FirstOccurrences.FirstsDistinct` | packages/url-frontier/src/frontier-adapter.ts:63-79 | No key is kept twice. |
| `FirstOccurrences.FirstsOfPrefix` | packages/crawl-pipeline/src/discover-stage.ts:99-102 | Reading on only appends, so the order of arrival is kept. |
| `Frontiers.FrontierAdapter.BuildBatch` | packages/url-frontier/src/frontier-adapter.ts:62-81 | The loop over the entries, taking only new job ids into its map, lists the first entry of each id in order. |
| `Frontiers.FrontierAdapter.Enqueue` | packages/url-frontier/src/frontier-adapter.ts:52-93 | An empty call succeeds without touching the queue; otherwise the queue afterwards is the old one with the batch inserted, the result is its growth, the collision metric rises as the detector says, and an error leaves everything as it was. |
| `Frontiers.QueueBackend.AddBulk` | packages/url-frontier/src/queue-backend.ts:25-42 | Jobs whose id is present are left alone; `added` is the growth of the queue. |
| `Frontiers.QueuedJobs` | packages/url-frontier/src/frontier-adapter.ts:52-93 | After a batch, each id that was not there stands for the first entry with that id: its URL and depth, the depth as priority number, and the configured retention; earlier jobs are unchanged and no other id is added. |
| `Frontiers.InsertedContents` | packages/url-frontier/src/queue-backend.ts:25-39 | Insertion keeps every old job as it was, adds exactly the ids of the batch, and a new id gets a job of the batch. |
| `Frontiers.InsertedGrowth` | packages/url-frontier/src/queue-backend.ts:25-31 | `added` is the number of distinct ids of the batch that were not queued. |
| `Frontiers.EnqueueRefines` | packages/url-frontier/src/frontier-adapter.ts:62-82 | Under injective ids, submitting a page's links is adding the unknown URLs with that depth as depth and priority, known URLs keeping theirs. |
| `CollisionMetrics.MetricCounts` | packages/url-frontier/src/collision-detector.ts:28-48 | For any derivation of ids: the metric stays still if no submitted id was queued before, however many URLs share one; otherwise it rises by the number of ids that were queued before plus the number of submitted URLs over the number of their ids. Without collisions it counts ordinary duplicates. |
| `CollisionMetrics.MetricCountsLostUrlsIff` | packages/url-frontier/src/collision-detector.ts:18-48 | It rises by exactly the number of submitted URLs that lost their id to another URL, in the batch or before, if and only if no submitted URL is itself queued already or, where no submitted id was queued before, no two submitted URLs share one. |
| `CollisionMetrics.LostCount` | packages/url-frontier/src/frontier-adapter.ts:63-90 | The number of submitted URLs that lost their id: those over the number of ids, plus the ids queued before, less the ids queued before for the submitted URL itself. |
| `ControlPlanes.CompletedMeans` | packages/completion-detection/src/control-plane-adapter.ts:25-36 | `completed` holds if and only if some job finished and every job is finished or outside the six counts. |
| `ControlPlanes.StateMeans` | packages/completion-detection/src/control-plane-adapter.ts:25-36 | By job status: paused if and only if some job is held; running if and only if none is and one waits, runs or is delayed; idle if and only if no job is in any of the six counts; cancelled whatever the counts. |
| `ControlPlanes.StatusIsLast` | packages/url-frontier/src/frontier-config.ts:7-31 | After every run of the queue a job is where the last event about it left it: taken, finished, delayed for its next try, held, put back in line, or dropped by retention. |
| `ControlPlanes.CompletionIsStable` | packages/completion-detection/src/control-plane-adapter.ts:25-36 | If every job is in one of the six counts and new jobs come only from active ones, then after `completed` no run ever has a waiting, active, delayed or paused job again; the state stays `completed`, or `idle` once finished jobs were dropped. |
| `ControlPlanes.CompletedIsQuietIffCounted` | packages/completion-detection/src/control-plane-adapter.ts:25-36 | A `completed` state has no live job if and only if no job waits outside the six counts. |
| `ControlPlanes.UncountedJobHidesWork` | packages/completion-detection/src/control-plane-adapter.ts:11-13 | A prioritized job, which the six counts leave out, is overlooked by `completed` and can run at the next step. |
| `ControlPlanes.ProgressAgrees` | packages/completion-detection/src/control-plane-adapter.ts:50-60 | While nothing is paused, `total` is the number of jobs, and nothing is pending with some total if and only if the state is `completed`. |
| `ControlPlanes.ProgressMeans` | packages/completion-detection/src/control-plane-adapter.ts:53-59 | Progress counts the finished, the failed, and the waiting, running and delayed jobs, and its total is their sum. |
| `ControlPlanes.CancelOnce` | packages/completion-detection/src/control-plane-adapter.ts:74-95 | However many callers, obliterate is sent at most once, exactly when cancel was called; the flag is never lowered and the first result is every caller's. |
| `ControlPlanes.CancelledIsPermanent` | packages/completion-detection/src/control-plane-adapter.ts:25-36 | A state once derived as `cancelled` is `cancelled` for ever, whatever the counts. |
| `ControlPlanes.ControlPlaneAdapter.StartCancel` | packages/completion-detection/src/control-plane-adapter.ts:77-87 | The synchronous part of a cancel call takes the cancel state to its successor; a second call changes nothing. |
| `CompletionDetection.OutcomeFromPolls` | packages/completion-detection/src/completion-detector.ts:68-117 | For every sequence of answers the outcome is the verdict of the first non-skipped poll that settles anything, none if none does, and the restart metric is 1 if and only if the first successful poll shows finished jobs. |
| `CompletionDetection.VerdictMeans` | packages/completion-detection/src/completion-detector.ts:79-117 | A poll settles Aborted iff it ends the configured number of consecutive errors, Completed iff it shows no pending and some done, EmptyComplete iff it is empty and the previous successful poll was empty, errors in between not counting. |
| `CompletionDetection.AbortCount` | packages/completion-detection/src/completion-detector.ts:81-87 | An abort reports exactly the threshold. |
| `CompletionDetection.OutageAbortsAt` | packages/completion-detection/src/backoff-controller.ts:33-66 | Under a total outage the loop aborts at exactly the tick given by threshold plus the capped powers of two, and not before. |
| `CompletionDetection.DefaultOutage` | packages/completion-detection/src/backoff-controller.ts:11-14 | With the defaults (25 failures, at most 32 skipped ticks) that is tick 664. |
| `CompletionDetection.SkipsAreBounded` | packages/completion-detection/src/backoff-controller.ts:46-66 | At most `maxSkipTicks` ticks remain to be skipped in every reachable state. |
| `CompletionDetection.CompletionIsSeen` | packages/completion-detection/src/completion-detector.ts:74-103 | Whatever happened before, a lasting completed answer is reported within `maxSkipTicks + 1` ticks. |
| `CompletionDetection.CompletionDetector.DoTick` | packages/completion-detection/src/completion-detector.ts:68-117 | One tick takes counters, flags, metric and backoff to the specified successor with the specified outcome. |
| `CompletionDetection.CompletionDetector.WaitForCompletion` | packages/completion-detection/src/completion-detector.ts:44-67 | Refused without effect from the second call on; the first resolves as the specified run over the answers does. |
| `Backoff.SameVerdict` | packages/application-lifecycle/src/abort-handler.ts:31-51 | Backoff controller and abort handler agree on every history of errors and successes; the handler calls back once if and only if they abort. |
| `Backoff.AbortsOnConsecutiveErrors` | packages/completion-detection/src/backoff-controller.ts:33-58 | Both abort if and only if the history contains the configured number of errors in a row. |
| `Backoff.CountsTrailing` | packages/completion-detection/src/backoff-controller.ts:52-58 | Until then the failure count is the number of errors since the last success. |
| `Backoff.SkipsOwed` | packages/completion-detection/src/backoff-controller.ts:33-58 | Until an abort, the ticks owed after k errors in a row are 2 to the power k - 1, or the cap if that is less; after a success none. |
| `LeaderElections.AtMostOneLeader` | packages/completion-detection/src/leader-election.ts:48-96 | For any number of coordinators and every interleaving of command effects, replies and errors: if releases are asked for only by a leader that is not releasing yet, and the lease does not run out while it matters to anyone, at most one coordinator outside release leads, and its lease is alive. `StepIsHarmlessIff` has the exact condition. |
| `LeaderElections.StepSafe` | packages/completion-detection/src/leader-election.ts:48-96 | Every step keeps the invariant behind it: whoever leads, is about to, or may still delete the key is alone in that and has a live lease. |
| `LeaderExclusion.ExclusiveIffSafe` | packages/completion-detection/src/leader-election.ts:48-96 | With two or more coordinators, every run from a state that keeps those assumptions ends with at most one leader if and only if the state satisfies the invariant. |
| `LeaderExclusion.StepIsHarmlessIff` | packages/completion-detection/src/leader-election.ts:48-96 | From such a state, a step keeps exclusion if and only if it is harmless: time does not pass the expiry while the lease matters to anyone, and a release is asked for by a leader that is not releasing, or under a live key while the lease matters to nobody. |
| `LeaderExclusion.HarmlessRunsAreExclusive` | packages/completion-detection/src/leader-election.ts:48-96 | On whole runs of two or more coordinators: after harmless steps at most one coordinator leads, and one more step keeps exclusion if and only if it is harmless too. |
| `LeaderExclusion.KeyKeepsNameIff` | packages/completion-detection/src/leader-election.ts:65-96 | While the key names the coordinator to whom the lease matters, a harmless step keeps that if and only if it is neither a renewal by another one nor a release by one that neither leads nor owns the key; of polite steps, only such a renewal loses it. |
| `LeaderExclusion.KeyNamesLeader` | packages/completion-detection/src/leader-election.ts:65-96 | So on every harmless run without those steps the key names the leader. |
| `LeaderElections.TimelyRenewalsGiveOneLeader` | packages/completion-detection/src/leader-election.ts:99-106 | If starting slack plus latency is below the time to live minus the renewal interval and time does not pass a due renewal, the no-lapse assumption follows, and with it mutual exclusion. |
| `LeaderElections.TimersGiveOneLeader` | packages/completion-detection/src/leader-election.ts:99-106 | Every polite run in which each winning acquisition starts a timer, or goes on with one from an earlier term that still runs, and time does not pass a scheduled landing of a coordinator to whom the lease matters, is on schedule and has one leader. |
| `LeaderElections.TimersKeepSchedule` | packages/completion-detection/src/leader-election.ts:99-106 | Driven by such timers, a run never passes a deadline of the protocol. |
| `LeaderElections.TimelyConfigIff` | packages/completion-detection/src/leader-election.ts:99-106 | One leader in all polite runs on schedule, and in all polite runs driven by such timers, if and only if starting slack plus latency is below the time to live minus the renewal interval. |
| `LeaderElections.ScheduleKeepsLease` | packages/completion-detection/src/leader-election.ts:99-106 | No run on schedule ever lets the lease lapse while it matters. |
| `LeaderElections.TimerHoldsLease` | packages/completion-detection/src/leader-election.ts:99-106 | A timer started within the slack, or earlier, whose renewals land within the latency keeps the key alive at every instant, each renewal counting only if it finds the key alive. |
| `LeaderElections.TimerMeetsDeadlines` | packages/completion-detection/src/leader-election.ts:99-106 | Each landing of such a timer meets the deadline that the protocol computes from the one before, the first that of the acquisition. |
| `LeaderElections.LateTimerLosesLease` | packages/completion-detection/src/leader-election.ts:99-106 | With any more slack or latency there is a run of the protocol, polite, on schedule and driven by timers, that ends with two leaders. |
| `LeaderElections.StandbyTakesOver` | packages/completion-detection/src/failover-controller.ts:35-59 | Some landing of a standby that was polling falls less than one poll period plus the latency after the expiry, and its SET NX wins the key if it is still dead then. |
| `LeaderTakeovers.StandbyTakesOverInRuns` | packages/completion-detection/src/failover-controller.ts:35-59 | On every run of the protocol in which a lease is neither renewed nor deleted any more, and one coordinator polls, whatever others do: somebody gets a new lease on the dead key less than one poll period plus the latency after the expiry. |
| `LeaderElections.TakeoverWithinTtlIff` | packages/completion-detection/src/failover-controller.ts:35-59 | A takeover within one time to live of the expiry is guaranteed for every schedule of polls if and only if poll period plus latency is at most the time to live, as with the defaults of 5 and 30 seconds. |
| `LeaderElections.LateTakeover` | packages/completion-detection/src/failover-controller.ts:52-59 | With a longer period or latency some schedule of polls misses that time. |
| `LeaderElections.LeaderElection.TryAcquire` | packages/completion-detection/src/leader-election.ts:48-62 | The flag is raised exactly when the key was dead and the call did not fail; a failed call leaves the flag even if the key was written. |
| `LeaderElections.LeaderElection.Renew` | packages/completion-detection/src/leader-election.ts:65-78 | The flag survives only a successful renewal and is never raised by one. |
| `LeaderElections.LeaderElection.Release` | packages/completion-detection/src/leader-election.ts:82-96 | The key is deleted exactly when it is owned and neither command fails; the flag is dropped in any case. |
| `LeaderFlags.FlaggedIff` | packages/completion-detection/src/leader-election.ts:48-96 | After every run of the protocol a coordinator is flagged if and only if, of the replies to it that settle the flag (to an acquisition, to a renewal refused or failed, the end of a release), the last was an acquisition won. |
| `LeaderFlags.AcquisitionsConserved` | packages/completion-detection/src/leader-election.ts:48-62 | In every run the acquisitions that found no live key are those won, failed on their way back, or still under way; those that found one are likewise the ones lost. |
| `LeaderFlags.RenewalsConserved` | packages/completion-detection/src/leader-election.ts:65-78 | In every run the renewals that found a live key, whoever wrote it, are those that succeeded, failed on their way back, or are under way; the others are those refused or under way. |
| `LeaderFlags.ReleasesConserved` | packages/completion-detection/src/leader-election.ts:82-96 | In every run the releases called are those that looked at the key, failed before, or are still to look; those that found it live and in their own name deleted it, failed, or are about to. |
| `LeaderElections.FailoverController.AttemptAcquire` | packages/completion-detection/src/failover-controller.ts:35-50 | A poll takes over, with the renewal timer running, exactly when this coordinator does not lead and the key is dead; otherwise flag and timer stay. |
| `LeaderElectionLimits.LapseGivesTwoLeaders` | packages/completion-detection/src/leader-election.ts:64-78 | A run with polite releases in which a lapsed lease leaves two coordinators leading: the no-lapse assumption is needed. |
| `LeaderElectionLimits.OverlappingReleasesGiveTwoLeaders` | packages/completion-detection/src/leader-election.ts:82-96 | With no time passing at all, two overlapping releases of one flagged coordinator leave two others leading: the get and the del are not atomic. |
| `LeaderElectionLimits.LapseBetweenGetAndDel` | packages/completion-detection/src/leader-election.ts:82-96 | Guarding the lease only while some flag is set is too little: a failed renewal can drop the flag between the get and the del. |
| `LeaderElectionLimits.UnflaggedReleaseGivesTwoLeaders` | packages/completion-detection/src/leader-election.ts:82-96 | A release by a coordinator without the flag deletes a key its stale timer overwrote, and two others lead. |
| `LeaderElectionLimits.RenewalStealsTheKey` | packages/completion-detection/src/leader-election.ts:65-78 | SET XX compares no owners: a run that meets all assumptions after which the key names a coordinator that does not lead. `KeyKeepsNameIff` has the exact condition. |
| `SlidingWindows.NoWindowExceeds` | packages/resilience/src/sliding-window-rate-limiter.ts:59-108 | In every interleaving of clients, with removals of denied members as separate later steps, lost replies, resets, and stamps up to `late` behind the latest time the store has seen: no half-open window of `windowMs - late` contains more than `maxRequests` requests admitted between two resets. With landings in the order of their stamps that is every window of `windowMs`. |
| `SlidingWindows.ResetsAddToTheLimit` | packages/resilience/src/sliding-window-rate-limiter.ts:141-149 | Resets included, such a window contains at most `maxRequests` admitted requests for each reset in it, or up to `late` after it, and once more. |
| `SlidingWindowLimits.ResetsReachTheLimit` | packages/resilience/src/sliding-window-rate-limiter.ts:141-149 | That bound is met, for every configuration, every lateness below `windowMs` and every number k of resets: a run shows k resets and `(k + 1) * maxRequests` admitted requests in one window. |
| `SlidingWindowLimits.WidthIsSafeIff` | packages/resilience/src/sliding-window-rate-limiter.ts:59-80 | For every width of at least 1: no run admits more than `maxRequests` between two resets in any window of that width if and only if width plus lateness is at most `windowMs`. |
| `SlidingWindows.DecisionIsExact` | packages/resilience/src/sliding-window-rate-limiter.ts:82-103 | The decision compares with the limit exactly the requests since the last reset that are young for its stamp and that no clean-up since they landed removed: the admitted ones plus the denied and lost ones not taken back. For a stamp no older than what the store has seen those are the ones of the window; with none denied or lost it is the exact count. |
| `SlidingWindows.CleanedIsCounted` | packages/resilience/src/sliding-window-rate-limiter.ts:68-70 | The set after clean-up holds exactly those requests. |
| `SlidingWindowLimits.OutstandingRemovalDenies` | packages/resilience/src/sliding-window-rate-limiter.ts:89-97 | An outstanding removal can deny a request whose window holds no admitted one; after the removal it is allowed. |
| `SlidingWindows.StepKeeps` | packages/resilience/src/sliding-window-rate-limiter.ts:59-108 | Every step keeps the invariant tying set, record of fates and limit. |
| `SlidingWindows.SlidingWindowRateLimiter.Pipeline` | packages/resilience/src/sliding-window-rate-limiter.ts:59-103 | The four commands leave the cleaned set with the new member and deadline, and the verdict and remaining count come from the count before the addition. |
| `LruMaps.InclusionRun` | packages/http-fetching/src/lru-map.ts:15-56 | LRU inclusion: after any common history of get, set, delete and clear, the smaller map's keys are a part of the larger's, in the same relative order and with equal values. |
| `LruMaps.HitsAreLatest` | packages/http-fetching/src/lru-map.ts:15-40 | Whatever the map holds is what an unbounded dictionary would hold, so every hit is the last value set. |
| `LruMaps.ResidencyRun` | packages/http-fetching/src/lru-map.ts:15-40 | A key just set, or read with a hit, stays as long as fewer than `maxSize` other keys are used and nobody deletes it. |
| `LruMaps.RunGood` | packages/http-fetching/src/lru-map.ts:31-39 | The capacity is never exceeded and keys are distinct. |
| `LruMaps.LruMap.Create` | packages/http-fetching/src/lru-map.ts:8-13 | A map is refused exactly when its size is below 1. |
| `LruMaps.LruMap.Get` | packages/http-fetching/src/lru-map.ts:15-23 | A stored defined value is returned and moved to the young end; a stored `undefined` is not moved. |
| `LruMaps.LruMap.Set` | packages/http-fetching/src/lru-map.ts:25-40 | Delete, evict while full, insert: the loop reaches the specified store. |
| `CircuitBreakerRegistries.RegistryIsLru` | packages/resilience/src/circuit-breaker-registry.ts:77-89 | With a strictly increasing clock the scanning registry and an `LruMap` of that capacity, driven by get-else-set, hold the same domains with the same breakers and have created as many. |
| `CircuitBreakerRegistries.RegistryIsLruDespiteTies` | packages/resilience/src/circuit-breaker-registry.ts:77-89 | The same with a clock that may stand still, as long as no held domain is used again in the millisecond of another held domain's use that was inserted after it. |
| `BreakerTies.AgreeForEverIff` | packages/resilience/src/circuit-breaker-registry.ts:45-57 | From any state in which registry and `LruMap` hold the same, they agree on every later history under a strict clock if and only if the `LruMap`'s order is the order by last use and, within a millisecond, by insertion. |
| `BreakerTies.TieIsHarmlessIff` | packages/resilience/src/circuit-breaker-registry.ts:77-82 | A use of a held domain keeps the agreement for ever if and only if no other held domain that was inserted later was used in the same millisecond. |
| `BreakerTies.HistoryAgreesIff` | packages/resilience/src/circuit-breaker-registry.ts:77-89 | On histories: after harmless ties, one more use keeps the agreement for ever if and only if it is harmless too. |
| `CircuitBreakerRegistries.RegistryKeepsRecent` | packages/resilience/src/circuit-breaker-registry.ts:45-57 | The registry holds exactly the `maxDomains` most recently used domains, at least one. |
| `CircuitBreakerRegistries.ScanFindsOldest` | packages/resilience/src/circuit-breaker-registry.ts:45-57 | The scan picks a domain that is older than every other one held, by last use and then by insertion. |
| `CircuitBreakerRegistries.TiedClockDiffers` | packages/resilience/src/circuit-breaker-registry.ts:45-57 | A burst within one millisecond after which the two hold different domains: insertion order decides instead of recency. |
| `CircuitBreakerRegistries.CircuitBreakerRegistry.EvictLru` | packages/resilience/src/circuit-breaker-registry.ts:45-57 | The scan loop removes the first entry with the smallest time, and nothing if there is none. |
| `CircuitBreakerRegistries.CircuitBreakerRegistry.Get` | packages/resilience/src/circuit-breaker-registry.ts:77-89 | Reaches the specified state; a domain held keeps its breaker. |
| `Politeness.GrantsAreSerialised` | packages/http-fetching/src/politeness-controller.ts:50-70 | While a domain stays tracked, its grants are those of a first-come-first-served server, whatever other domains, releases and pruning do. |
| `Politeness.SerialisedClosedForm` | packages/http-fetching/src/politeness-controller.ts:62-69 | Max-plus closed form: the n-th grant, n > 0, is the greatest over 0 < k <= n of arrival k plus (n - k + 1) delays. |
| `Politeness.SerialisedSpacing` | packages/http-fetching/src/politeness-controller.ts:62-69 | Grants i < j lie at least j - i delays apart, and each but the first at least one delay after its arrival. |
| `Politeness.StaysResident` | packages/http-fetching/src/politeness-controller.ts:50-70 | Without pruning, a domain stays tracked as long as fewer than `maxDomains` other domains are touched since it was last touched, by an acquisition or by a release that found it tracked. |
| `Politeness.SpacingHolds` | packages/http-fetching/src/politeness-controller.ts:45-70 | With at most `maxDomains` domains and no pruning, two requests to one domain are never granted closer together than the delay, in arrival order. |
| `Politeness.SpacingSurvivesDrops` | packages/http-fetching/src/politeness-controller.ts:50-100 | Whatever is evicted or pruned, grants of a domain keep their distance on every history with a monotone clock in which each drop of the domain comes no earlier than its next grant would be due. |
| `Politeness.DropIsHarmlessIff` | packages/http-fetching/src/politeness-controller.ts:50-100 | After any such history, an event keeps every later request at its distance if and only if it is no earlier drop than that. |
| `Politeness.EarlyDropIff` | packages/http-fetching/src/politeness-controller.ts:50-100 | Whether an event drops a tracked domain too early can be told before it: an acquisition for another domain, unless that one is tracked, the map has room, another domain is older, or the next grant is due; a prune, unless the domain was accessed within the threshold or the next grant is due; a release never. |
| `Politeness.EvictsIff` | packages/http-fetching/src/lru-map.ts:25-40 | An acquisition for another domain evicts a tracked one if and only if that other is not tracked, the map is full and the tracked one is the oldest. |
| `Politeness.SpacingHoldsUnderPruning` | packages/http-fetching/src/politeness-controller.ts:87-100 | With at most `maxDomains` domains the spacing holds under pruning too, if every prune is harmless. |
| `Politeness.PruneIsHarmlessIff` | packages/http-fetching/src/politeness-controller.ts:88-97 | A prune is harmless to a tracked domain if and only if the domain was accessed within the threshold or its next grant would be due. |
| `PolitenessTouches.RemembersLastTouch` | packages/http-fetching/src/politeness-controller.ts:50-85 | On every history a tracked domain remembers the instant of the last acquisition or release of it. |
| `PolitenessTouches.PrunedIff` | packages/http-fetching/src/politeness-controller.ts:88-97 | So pruning keeps exactly the tracked domains acquired or released within the threshold, unchanged. |
| `Politeness.ShortQueueIsPrunedHarmlessly` | packages/http-fetching/src/politeness-controller.ts:88-97 | A queue whose next grant is due within the threshold of the last access is never pruned too early. |
| `Politeness.PrunedDomainJumpsItsQueue` | packages/http-fetching/src/politeness-controller.ts:87-100 | Pruning looks at accesses, not at the chain: under every configuration with a delay some run from an empty controller, on one domain, lets two requests through too close together. |
| `Politeness.PolitenessController.Acquire` | packages/http-fetching/src/politeness-controller.ts:50-70 | Returns the specified instant and reaches the specified map, the first request at once, later ones one delay behind the chain. |
| `Politeness.PolitenessController.PruneStale` | packages/http-fetching/src/politeness-controller.ts:88-100 | Deleting while iterating removes exactly the entries older than the cutoff, in one pass, and counts them. |
| `TokenBuckets.RateBound` | packages/resilience/src/token-bucket.ts:55-72 | After any history, one domain is granted in [s, t] without reset at most `maxTokens + refillRate * (t - s) / 1000`, times in milliseconds. |
| `TokenBuckets.GreedyIsOptimal` | packages/resilience/src/token-bucket.ts:64-72 | At every prefix, no policy that keeps that bound on all spans has granted more than the bucket. |
| `TokenBuckets.GreedyConforms` | packages/resilience/src/token-bucket.ts:55-72 | The bucket itself keeps the bound on all spans, so it is the greatest such policy. |
| `TokenBuckets.RequestsAloneDecide` | packages/resilience/src/token-bucket.ts:74-79 | Neither interleaved `getTokens` calls nor other domains change what a domain's requests are told. |
| `TokenBuckets.RefillTwice` | packages/resilience/src/token-bucket.ts:55-61 | Refilling in two steps or one gives the same bucket. |
| `TokenBuckets.RequestMeans` | packages/resilience/src/token-bucket.ts:47-72 | A request is granted if and only if `maxTokens` and the tokens held plus `refillRate * elapsed / 1000` are both at least one; the bucket then holds that sum, at most `maxTokens`, less one if granted; no other bucket changes, and a missing one starts full. |
| `TokenBuckets.ReadMeans` | packages/resilience/src/token-bucket.ts:74-79 | A read leaves that sum, at most `maxTokens`, in the bucket, and makes none. |
| `TokenBuckets.TokenBucketLimiter.TryAcquire` | packages/resilience/src/token-bucket.ts:64-72 | Decides by the refilled bucket and spends one token exactly when allowed. |
| `TokenBuckets.TokenBucketLimiter.GetTokens` | packages/resilience/src/token-bucket.ts:74-79 | An unknown domain has a full bucket and is not created; a known one is refilled and read. |
| `IpRanges.Ipv4IsIntervalMembership` | packages/ssrf-guard/src/ip-range-checker.ts:93-101 | An address word is blocked if and only if it lies in one of the nine intervals, with that interval's reason. |
| `IpRanges.RangesDisjoint` | packages/ssrf-guard/src/ip-range-checker.ts:42-52 | No address lies in two of the ranges, so the list order does not matter. |
| `IpRanges.MatchIsInterval` | packages/ssrf-guard/src/ip-range-checker.ts:33-52 | Matching the masked word, from the CIDR notation on, is lying between first and last address. |
| `IpRanges.Ipv4ByOctets` | packages/ssrf-guard/src/ip-range-checker.ts:15-23 | On octets up to 255 the verdict is blocked exactly on the nine familiar prefixes, with the listed reason. |
| `IpRanges.CheckIpv4` | packages/ssrf-guard/src/ip-range-checker.ts:93-101 | The loop returns the first matching range's reason. |
| `Ipv6.Ipv6MatchesPrefix` | packages/ssrf-guard/src/ip-range-checker.ts:156-180 | The byte loop answers true if and only if the top `prefixLen` bits agree, bit by bit, missing bytes counting as zero. |
| `Ipv6.Ipv6ToBytes` | packages/ssrf-guard/src/ip-range-checker.ts:182-191 | Two bytes per group, high first. |
| `IpChecks.CheckIp` | packages/ssrf-guard/src/ip-range-checker.ts:76-84 | The scans reach the specified verdict: mapped and dotted text by IPv4 ranges, all else by IPv6 prefixes in list order. |
| `IpValues.SpellingsAgree` | packages/ssrf-guard/src/ip-range-checker.ts:119-154 | Any two spellings that are read as the same eight values, in any case, padding or compression, get the same verdict (section 2.2 of RFC 4291), unless one is the text `::ffff:a.b.c.d`. |
| `IpValues.HexSpellingsAgree` | packages/ssrf-guard/src/ip-range-checker.ts:119-154 | Spellings of hexadecimal groups alone (forms 1 and 2) agree without exception. |
| `IpValues.SpellingMeans` | packages/ssrf-guard/src/ip-range-checker.ts:62-67 | The verdict on any spelling but the text `::ffff:a.b.c.d`, mixed ones included, by the eight values it is read as (dotted text as one group, whose value is its leading hexadecimal digits, and missing groups at the end as zero): loopback for ::1, unspecified for ::, private for a first group with top seven bits 1111110, link-local for top ten bits 1111111010, allowed otherwise. |
| `IpValues.MappedSpellingsAgreeIff` | packages/ssrf-guard/src/ip-range-checker.ts:105-113 | An IPv4-mapped address in hexadecimal groups, or in a mixed spelling other than `::ffff:a.b.c.d`, is always allowed, so it gets the verdict of that text if and only if the address is in none of the nine ranges. |
| `IpValues.BracketedMeans` | packages/ssrf-guard/src/ip-range-checker.ts:132-154 | In brackets every spelling, `::ffff:a.b.c.d` included, gets the verdict of the eight values it is read as. |
| `IpValues.BracketedMappedIsAllowed` | packages/ssrf-guard/src/ip-range-checker.ts:105-154 | So an IPv4-mapped address in brackets is always allowed, in whatever spelling. |
| `IpValues.BracketedTextIsAllowed` | packages/ssrf-guard/src/ip-range-checker.ts:105-136 | Among them `[::ffff:a.b.c.d]`, whatever the address. |
| `IpValues.CompatibleVerdict` | packages/ssrf-guard/src/ip-range-checker.ts:138-154 | `::` followed by dotted text is loopback if its first number reads 1 in hexadecimal, unspecified if it reads 0, and allowed otherwise. |
| `IpChecks.SpellingBytes` | packages/ssrf-guard/src/ip-range-checker.ts:132-154 | Lower-casing, expansion and conversion find the bytes of the values of the groups, high byte first, in whatever case they are written. |
| `IpChecks.DottedVerdict` | packages/ssrf-guard/src/ip-range-checker.ts:103-113 | Dotted text gets the verdict of its octets, with or without the IPv4-mapped prefix in front. |
| `PrintedAddresses.PrintedVerdict` | packages/ssrf-guard/src/ip-range-checker.ts:8-23 | For all numbers a, b, c, d up to 255, the text `a.b.c.d` in decimal, and `::ffff:` in front of it, is blocked exactly on the nine prefixes of a, b, c, d, with the listed reason. |
| `PrintedAddresses.DottedTextVerdict` | packages/ssrf-guard/src/ip-range-checker.ts:76-113 | The same for every dotted text, with leading zeros too, by the numbers its parts show. |
| `PrintedAddresses.DottedIff` | packages/ssrf-guard/src/ip-range-checker.ts:8-13 | A text is dotted if and only if it is four parts of one to three digits between dots. |
| `Ipv6Texts.MappedInAnyCase` | packages/ssrf-guard/src/ip-range-checker.ts:105-113 | The prefix `::ffff:` is dropped from before dotted text in whatever case. |
| `Ipv6Texts.GroupReads` | packages/ssrf-guard/src/ip-range-checker.ts:182-191 | A group of up to four hexadecimal digits has the value of the number they show, in either case. |
| `Ipv6Texts.TailUnread` | packages/ssrf-guard/src/ip-range-checker.ts:186-186 | What stands in a group behind its digits is not read. |
| `Ipv6Texts.BehindSecondDouble` | packages/ssrf-guard/src/ip-range-checker.ts:138-142 | What stands behind a second `::` is dropped. |
| `Ipv6Texts.BracketsDropped` | packages/ssrf-guard/src/ip-range-checker.ts:133-136 | Brackets are dropped with what follows them; without a closing one the last character is dropped. |
| `UrlNormalizers.SameNormalForm` | packages/crawl-pipeline/src/url-normalizer.ts:13-37 | Two URLs have one normal form if and only if they agree on protocol, ASCII host, port (none counting as the standard port, 443 of https and 80 of http), path up to slashes at its end and, for every key, the parameters comparing equal to it in their order: nothing else is forgotten. |
| `UrlNormalizers.NormalFormRead` | packages/crawl-pipeline/src/url-normalizer.ts:13-37 | Parsing a normal form gives back exactly what normalisation leaves of the components, parameters decoded. |
| `UrlNormalizers.NormalisationIsIdempotent` | packages/crawl-pipeline/src/url-normalizer.ts:13-37 | Normalising the parsed normal form gives the normal form again. |
| `NormalFormTexts.NormalFormIs` | packages/crawl-pipeline/src/url-normalizer.ts:13-45 | The text of a normal form: protocol, the ASCII host or else the host, ":" and the port unless it is empty, 443 under https or 80 under http, the path without the slashes at its end, and the parameters by ascending key with equal keys in their order. |
| `NormalFormTexts.EncodeIs` | packages/crawl-pipeline/src/url-normalizer.ts:56-60 | Encoding goes octet by octet: letters, digits and nine marks stay, every other octet becomes "%" and two capital hexadecimal digits. |
| `NormalFormTexts.EncodeNonAsciiIs` | packages/crawl-pipeline/src/url-normalizer.ts:65-73 | In a path, printable ASCII stays and the UTF-8 octets of any other character are escaped. |
| `NormalFormTexts.CharBytesIs` | packages/crawl-pipeline/src/url-normalizer.ts:68-68 | Those octets are the UTF-8 form of the character; each half of a pair of surrogates gives the replacement character. |
| `NormalFormTexts.FactoryMeans` | packages/crawl-pipeline/src/crawl-url-factory.ts:20-47 | White space around it apart: no text, no URL and another scheme than http and https are refused with their errors; all else is accepted with its normal form and its host in lower case. |
| `UrlNormalizers.SwapKeepsNormalForm` | packages/crawl-pipeline/src/url-normalizer.ts:55-55 | Exchanging neighbouring parameters with keys that compare unequal changes nothing. |
| `UrlNormalizers.BareIsPathWithoutSlashes` | packages/crawl-pipeline/src/url-normalizer.ts:23-29 | The stripped path differs from the path by slashes at the end only, and has none. |
| `UrlNormalizers.NormalFormIsClean` | packages/crawl-pipeline/src/url-normalizer.ts:75-78 | A normal form is printable ASCII without spaces and has no fragment. |
| `UrlNormalizers.Normalize` | packages/crawl-pipeline/src/url-normalizer.ts:13-37 | The trailing-slash loop and the assembly reach the specified normal form. |
| `UrlNormalizers.SortQueryParams` | packages/crawl-pipeline/src/url-normalizer.ts:48-62 | The list filled entry by entry, sorted stably by key and encoded, is the specified query; none for no parameters. |
| `UrlNormalizers.NormalizedUrlsAreFixed` | packages/crawl-pipeline/src/crawl-url-factory.ts:20-47 | What the factory accepts is accepted again in normalised form, with itself as normal form. |
| `StableSorts.SortIsStable` | packages/crawl-pipeline/src/url-normalizer.ts:55-55 | The sorted list is in order and each class of equal keys keeps its order. |
| `StableSorts.SameSorted` | packages/crawl-pipeline/src/url-normalizer.ts:55-55 | Two lists sort alike if and only if all their classes are the same. |
| `PercentEncoding.DecodeEncode` | packages/completion-detection/src/state-store-connection.ts:45-56 | Percent-decoding undoes percent-encoding, for every sequence of bytes. |
| `PercentEncoding.DecodeQueryEncode` | packages/crawl-pipeline/src/url-normalizer.ts:56-60 | So does the decoding of query parameters. |
| `PercentEncoding.DecodeForm` | packages/crawl-pipeline/src/url-normalizer.ts:48-52 | And it undoes form encoding, in which a space is a plus. |
| `Text.SplitJoin` | packages/crawl-pipeline/src/url-normalizer.ts:61-61 | Splitting undoes joining for parts without the separator. |
| `Redirects.FetchIsSound` | packages/http-fetching/src/http-fetcher.ts:85-143 | Every fetch sends at most `maxRedirects + 1` requests, each right after a validation of its URL that let it pass and to the address that validation gave; it records one redirect per redirect reply and, however it ends, one result and one duration. |
| `Redirects.FetchSucceedsIff` | packages/http-fetching/src/http-fetcher.ts:85-193 | A fetch succeeds with a result if and only if a trail of redirects within the limit, every URL passing validation in turn, leads from its URL to a complete 2xx answer within the size limit, and the result is that answer. |
| `FetchEndings.FetchEndsIff` | packages/http-fetching/src/http-fetcher.ts:85-192 | A fetch ends with a result, whichever it is, if and only if a chain of redirects (301, 302, 303, 307, 308) leads from its URL to one where the table of endings says so: each error is tied to its cause. |
| `FetchEndings.SizeRecorded` | packages/http-fetching/src/http-fetcher.ts:179-205 | The last thing recorded is the size of the body for a success, and the duration otherwise. |
| `Redirects.HttpFetch` | packages/http-fetching/src/http-fetcher.ts:71-144 | The loop yields the specified log and result. |
| `HardenedFetches.HardenedIsSound` | packages/ssrf-guard/src/hardened-fetch.ts:91-189 | At most `maxRedirects + 1` requests, each right after a validation of its URL that allowed it. |
| `HardenedFetches.ExecuteHardenedFetch` | packages/ssrf-guard/src/hardened-fetch.ts:91-189 | The loop over the tracker yields the specified log and result. |
| `HardenedEndings.HardenedSucceedsIff` | packages/ssrf-guard/src/hardened-fetch.ts:108-189 | The hardened fetch succeeds with an answer, address, host and count if and only if a chain of that many redirects within the limit, every URL passing validation and no timeout, leads to that answer, it is no redirect and no larger than allowed by its Content-Length, and address and host are those of the last verdict. |
| `HardenedEndings.HardenedEndsIff` | packages/ssrf-guard/src/hardened-fetch.ts:108-189 | It ends with a result, whichever it is, if and only if such a chain leads to a URL where the table of endings says so: each error is tied to its cause. |
| `HardenedEndings.CommaJoinedIs` | packages/ssrf-guard/src/hardened-fetch.ts:162-165 | A header sent more than once is read as all values, in order, with a comma and a space between. |
| `HardenedFetches.SameRequestsIff` | packages/ssrf-guard/src/hardened-fetch.ts:163-169 | For any server, the same verdicts and no timeout or client error, the two loops send the same requests to the same URLs if and only if the fetcher is nowhere led to an answer after which the two go on to different requests. |
| `HardenedFetches.GoDifferentlyIff` | packages/ssrf-guard/src/hardened-fetch.ts:163-169 | An answer that sends Location at most once parts the loops if and only if it is empty and the URL the fetcher goes on to passes validation. |
| `HardenedFetches.HardSentIsPrefix` | packages/ssrf-guard/src/hardened-fetch.ts:163-169 | From a server that never repeats the header, the hardened fetch sends a prefix of what the fetcher sends. |
| `HardenedFetches.RepeatedLocationDiffers` | packages/http-fetching/src/http-fetcher.ts:215-223 | A Location sent twice, with any two values of which the first is not empty, is read as its first value by the fetcher and as both, joined, by the hardened fetch. |
| `HardenedFetches.EmptyLocationDiffers` | packages/http-fetching/src/http-fetcher.ts:122-129 | A server sending an empty Location gets one request from the hardened fetch and two from the fetcher. |
| `Redirects.TrailSucceeds` | packages/http-fetching/src/http-fetcher.ts:112-139 | Such a trail makes the fetch succeed from any point of it. |
| `StateStoreConnections.ParseBuild` | packages/completion-detection/src/state-store-connection.ts:19-47 | For every valid configuration whose host is printable ASCII without delimiters: the printed URL is refused if the host has a character forbidden in hosts, and otherwise parsing gives back the configuration except for empty credentials and a username without a password. |
| `StateStoreConnections.RoundTripIff` | packages/completion-detection/src/state-store-connection.ts:19-60 | For those configurations the round trip is exact if and only if the host has no forbidden character, given credentials are not empty and a username comes with a password. |
| `StateStoreConnections.ParseMeans` | packages/completion-detection/src/state-store-connection.ts:27-48 | What a URL of any scheme, credentials, host, port and database is read as: refused as no URL, for its protocol, for malformed credentials or by the limits of the schema, in this order; otherwise these values, with port 6379 and database 0 unless given, and TLS under rediss. |
| `StateStoreConnections.AuthorityParts` | packages/completion-detection/src/state-store-connection.ts:51-60 | Printed credentials, host and port are taken apart into what they were put together from. |

## Left out

Assumptions, stated in the contracts where they are used:

- Job ids are injective on the URLs within `maxDepth + 1` links of the seeds, except in what is said of the collision metric; SHA-256 is not part of this model.
- Clocks are monotone and shared; times are integers, tokens and their times reals. Fractional or NaN numbers, and rounding, are not modelled.
- The queue follows its port: `added` excludes duplicates. The production adapter (which counts the submitted jobs) and the library below it are not part of this model.
- Dropping finished jobs during a crawl is in the control-plane and termination models, not in the breadth-first one; failed tries are in `CrawlRetries` only, where the outcome of the last try is what the web says of the page; the queue is not down.
- The renewals of one timer take effect in the order they are sent.
- Store commands take effect at one instant, at most once, and not after their error was reported; sliding-window members are unique, the pipeline is atomic, and its stamp is at most `late` behind what the store has seen.
- Timers: an interval of less than a millisecond is taken as one millisecond, as timers do.
- Text is a sequence of Unicode characters; the lower-casing used on hosts, schemes and content types is that of ASCII letters.
- The URL parser and IDNA are parameters. `UrlNormalizers.Read` describes the parser on text of the shape scheme, authority, path, query, fragment; on parsed http and https URLs a host is its ASCII form or bracketed, the path is printable ASCII.
- Key comparison of query parameters is any total preorder.

What the members of the table leave unmodelled:

- LeaderElections.LeaderElection.TryAcquire: the class methods run without others stepping in; the interleavings are in the state machine of the same module, whose steps are the awaits.
- LeaderElections.FailoverController.AttemptAcquire: the callback that re-derives state is only counted.
- SlidingWindows.SlidingWindowRateLimiter.Pipeline: connection and script errors of the reply are one event of the protocol model (a lost reply); the random part of a member is a parameter.
- Politeness.PolitenessController.Acquire: the promise chain is the instant it settles, with exact timers; the reduction of host names to registrable domains is done by the caller.
- Politeness.PolitenessController.PruneStale: deletion during iteration is an index walk over the keys as they were.
- CircuitBreakerRegistries.CircuitBreakerRegistry.Get: breakers are numbered in order of creation; their behaviour and subscriptions are not modelled.
- CompletionDetection.CompletionDetector.WaitForCompletion: the answers of all ticks are given as a sequence, and ticks do not overlap.
- ControlPlanes.ControlPlaneAdapter.StartCancel: pausing, resuming and closing only forward a call and have no member.
- CrawlPipelines.ExecutePipeline: the fetcher and the extractor are one function of the URL; the reason of a failed fetch is not kept.
- CrawlTermination.NoInfiniteRun: fairness, that some enabled job is eventually tried, is not modelled; the theorem is that tries run out.
- DiscoverStages.DiscoverLinks: the log texts are not modelled.
- Ipv6.Ipv6ToBytes: a group's number is kept to its low 16 bits, which is all the code uses of groups of up to 13 hexadecimal digits; signs, white space and a leading `0x` are not read as parts of a number.
- IpChecks.CheckIp: the theorems on spellings are for groups of up to four hexadecimal digits, alone or before a dot; other text is expanded as the code expands it.
- IpRanges.CheckIpv4: octets from 256 to 999 are shifted into the word as the code does; the theorems by octets and by printed numbers are for octets up to 255.
- UrlNormalizers.SortQueryParams: the library's stable sort is a function, proved stable in its own module.
- Redirects.HttpFetch: the sizes at which a too large body was cut off, header flattening, body text and durations are not kept; a timeout is a client error.
- HardenedFetches.ExecuteHardenedFetch: white space at the ends of a header value is taken as removed by the server; the metrics of validation, the result of cancelling an unread body and the body limiter stream are not modelled; the timeout is a predicate of the two places it is looked at.
- StateStoreConnections.ParseBuild: the parser is described on printable ASCII of the shape scheme, authority and path; bracketed hosts and hosts of other characters, which it rewrites, are not covered; a port is plain decimal, and a database text that is not is taken as unreadable and so as 0, though the code also reads fractions, exponents and other bases there.

Not modelled at all, because it is plumbing, library behaviour or flat data:

- retry, timeout and bulkhead policies, breaker internals, database and store wrappers;
- HTTP servers, metrics, tracing, logging, probes, signals and process lifecycle other than the abort handler;
- configuration schemas, error and event constructors;
- DNS resolution and TLS: validation verdicts are an input of the redirect loops;
- the stubbed worker entry point: the components are composed through their ports.
