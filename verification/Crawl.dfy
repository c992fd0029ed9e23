/**
 The crawl as a whole: a queue of labelled URLs worked off by a number of workers, each
 job a run of the pipeline.  Steps are picking a job of best priority and finishing one.
 */
module Crawls {
  import opened Wrappers
  import ControlPlanes

  type Url = string

  /** What the crawler finds behind a URL: whether its domain is allowed, and the page's links, if it can be fetched. */
  datatype Web = Web(allowed: Url -> bool, links: Url -> Option<seq<Url>>)

  /**
   `known`: every URL ever queued, with its depth; `waiting` and `active` are the unfinished
   ones; `fetched` logs the pages fetched, in order, with their depth.
   */
  datatype Crawl = Crawl(known: map<Url, nat>, waiting: set<Url>, active: set<Url>, fetched: seq<(Url, nat)>)

  datatype Setup = Setup(web: Web, maxDepth: int, seeds: seq<Url>, workers: nat)

  predicate Fetchable(w: Setup, u: Url, d: nat) {
    d <= w.maxDepth && w.web.allowed(u)
  }

  function Children(w: Setup, u: Url, d: nat): seq<Url> {
    if Fetchable(w, u, d) && w.web.links(u).Some? then w.web.links(u).value else []
  }

  function New(c: Crawl, urls: seq<Url>): set<Url> {
    set u | u in urls && u !in c.known
  }

  /** Enqueueing: URLs not known yet get the depth and wait; known ones keep the depth they have. */
  function Add(c: Crawl, urls: seq<Url>, depth: nat): Crawl {
    c.(known := c.known + (map u | u in New(c, urls) :: depth), waiting := c.waiting + New(c, urls))
  }

  function Init(w: Setup): Crawl {
    Add(Crawl(map[], {}, {}, []), w.seeds, 0)
  }

  datatype Step = Pick(url: Url) | Work(url: Url)

  /** Best priority first: no waiting job has a lower priority number. */
  predicate Enabled(w: Setup, c: Crawl, s: Step) {
    match s
    case Pick(u) =>
      && u in c.waiting && u in c.known && |c.active| < w.workers
      && forall v <- c.waiting :: v in c.known ==> c.known[u] <= c.known[v]
    case Work(u) => u in c.active && u in c.known
  }

  function After(w: Setup, c: Crawl, s: Step): Crawl
    requires Enabled(w, c, s)
  {
    match s
    case Pick(u) => c.(waiting := c.waiting - {u}, active := c.active + {u})
    case Work(u) =>
      var d := c.known[u];
      var done := c.(active := c.active - {u},
                     fetched := if Fetchable(w, u, d) then c.fetched + [(u, d)] else c.fetched);
      Add(done, Children(w, u, d), d + 1)
  }

  predicate Runs(w: Setup, c: Crawl, steps: seq<Step>)
    decreases |steps|
  {
    steps == [] || (Enabled(w, c, steps[0]) && Runs(w, After(w, c, steps[0]), steps[1..]))
  }

  function Final(w: Setup, c: Crawl, steps: seq<Step>): Crawl
    requires Runs(w, c, steps)
    decreases |steps|
  {
    if steps == [] then c else Final(w, After(w, c, steps[0]), steps[1..])
  }

  // ---------------------------------------------------------------- reachability

  /** A page whose links can be followed. */
  predicate Expands(w: Setup, u: Url) {
    w.web.allowed(u) && w.web.links(u).Some?
  }

  predicate Links(w: Setup, u: Url, v: Url) {
    Expands(w, u) && v in w.web.links(u).value
  }

  /** A chain of links from a seed, through pages that are allowed and fetchable. */
  predicate IsPath(w: Setup, p: seq<Url>) {
    if |p| <= 1 then p != [] && p[0] in w.seeds
    else IsPath(w, p[..|p| - 1]) && Links(w, p[|p| - 2], p[|p| - 1])
  }

  predicate PathTo(w: Setup, p: seq<Url>, u: Url) {
    IsPath(w, p) && p[|p| - 1] == u
  }

  /** Some path leads there in as many links. */
  ghost predicate HasPath(w: Setup, u: Url, links: nat) {
    exists p :: PathTo(w, p, u) && |p| == links + 1
  }

  /** Some path leads there in no more links than that. */
  ghost predicate Within(w: Setup, u: Url, links: int) {
    exists p :: PathTo(w, p, u) && |p| - 1 <= links
  }

  /** Shortest distance from the seeds, in links. */
  ghost predicate Distance(w: Setup, u: Url, d: nat) {
    HasPath(w, u, d) && forall p :: PathTo(w, p, u) ==> d + 1 <= |p|
  }

  // ---------------------------------------------------------------- what holds for any number of workers

  predicate Finished(c: Crawl, u: Url) {
    u in c.known && u !in c.waiting && u !in c.active
  }

  predicate WasFetched(c: Crawl, u: Url) {
    exists i :: 0 <= i < |c.fetched| && c.fetched[i].0 == u
  }

  ghost predicate Shape(c: Crawl) {
    c.waiting <= c.known.Keys && c.active <= c.known.Keys && c.waiting !! c.active
  }

  ghost predicate LabelsArePaths(w: Setup, c: Crawl) {
    forall u <- c.known.Keys :: HasPath(w, u, c.known[u])
  }

  /** The log holds each finished valid job once, and nothing else. */
  ghost predicate LogIsRight(w: Setup, c: Crawl) {
    && (forall i :: 0 <= i < |c.fetched| ==>
          Finished(c, c.fetched[i].0) && c.fetched[i].1 == c.known[c.fetched[i].0] &&
          Fetchable(w, c.fetched[i].0, c.fetched[i].1))
    && (forall i, j :: 0 <= i < j < |c.fetched| ==> c.fetched[i].0 != c.fetched[j].0)
    && (forall u <- c.known.Keys :: Finished(c, u) && Fetchable(w, u, c.known[u]) ==> WasFetched(c, u))
  }

  ghost predicate SeedsKnown(w: Setup, c: Crawl) {
    forall u <- w.seeds :: u in c.known && c.known[u] == 0
  }

  ghost predicate ChildrenKnown(w: Setup, c: Crawl) {
    forall u <- c.known.Keys :: Finished(c, u) && Fetchable(w, u, c.known[u]) ==>
      w.web.links(u).Some? ==> forall v <- w.web.links(u).value :: v in c.known
  }

  ghost predicate Sound(w: Setup, c: Crawl) {
    Shape(c) && LabelsArePaths(w, c) && LogIsRight(w, c) && SeedsKnown(w, c) && ChildrenKnown(w, c)
  }

  lemma ExtendPath(w: Setup, p: seq<Url>, u: Url, v: Url)
    requires PathTo(w, p, u) && Links(w, u, v)
    ensures PathTo(w, p + [v], v)
  {
    assert (p + [v])[..|p|] == p;
  }

  lemma ChildrenAreLinks(w: Setup, u: Url, d: nat, v: Url)
    requires v in Children(w, u, d)
    ensures Links(w, u, v)
  {}

  lemma InitSound(w: Setup)
    ensures Sound(w, Init(w))
  {
    var c := Init(w);
    assert c.known.Keys == c.waiting;
    assert forall u <- c.known.Keys :: !Finished(c, u);
    forall u | u in c.known.Keys ensures HasPath(w, u, c.known[u]) {
      assert PathTo(w, [u], u);
    }
  }

  lemma WorkLabels(w: Setup, c: Crawl, u: Url)
    requires Sound(w, c) && Enabled(w, c, Work(u))
    ensures LabelsArePaths(w, After(w, c, Work(u)))
  {
    var c', d := After(w, c, Work(u)), c.known[u];
    assert u in c.known.Keys;
    forall v | v in c'.known.Keys ensures HasPath(w, v, c'.known[v]) {
      if v in c.known.Keys {
        assert c'.known[v] == c.known[v];
      } else {
        ChildrenAreLinks(w, u, d, v);
        OneLinkMore(w, u, d, v);
      }
    }
  }

  lemma OneLinkMore(w: Setup, u: Url, d: nat, v: Url)
    requires HasPath(w, u, d) && Links(w, u, v)
    ensures HasPath(w, v, d + 1)
  {
    var p :| PathTo(w, p, u) && |p| == d + 1;
    ExtendPath(w, p, u, v);
  }

  lemma WorkFetches(w: Setup, c: Crawl, u: Url, v: Url)
    requires Sound(w, c) && Enabled(w, c, Work(u))
    requires var c' := After(w, c, Work(u)); Finished(c', v) && Fetchable(w, v, c'.known[v])
    ensures WasFetched(After(w, c, Work(u)), v)
  {
    var c' := After(w, c, Work(u));
    if v == u {
      assert c'.fetched[|c.fetched|].0 == u;
    } else {
      assert v in c.known.Keys && Finished(c, v);
      var i :| 0 <= i < |c.fetched| && c.fetched[i].0 == v;
      assert c'.fetched[i].0 == v;
    }
  }

  lemma WorkLog(w: Setup, c: Crawl, u: Url)
    requires Sound(w, c) && Enabled(w, c, Work(u))
    ensures LogIsRight(w, After(w, c, Work(u)))
  {
    var c' := After(w, c, Work(u));
    forall v | v in c'.known.Keys && Finished(c', v) && Fetchable(w, v, c'.known[v]) ensures WasFetched(c', v) {
      WorkFetches(w, c, u, v);
    }
    forall i | 0 <= i < |c'.fetched|
      ensures Finished(c', c'.fetched[i].0) && c'.fetched[i].1 == c'.known[c'.fetched[i].0] &&
              Fetchable(w, c'.fetched[i].0, c'.fetched[i].1)
    {
      if i < |c.fetched| { assert c'.fetched[i] == c.fetched[i]; }
    }
  }

  lemma WorkChildren(w: Setup, c: Crawl, u: Url)
    requires Sound(w, c) && Enabled(w, c, Work(u))
    ensures ChildrenKnown(w, After(w, c, Work(u)))
  {
    var c' := After(w, c, Work(u));
    forall x, v | x in c'.known.Keys && Finished(c', x) && Fetchable(w, x, c'.known[x]) && w.web.links(x).Some?
        && v in w.web.links(x).value
      ensures v in c'.known
    {
      if x != u { assert x in c.known.Keys && Finished(c, x); }
    }
  }

  lemma {:induction false} StepSound(w: Setup, c: Crawl, s: Step)
    requires Sound(w, c) && Enabled(w, c, s)
    ensures Sound(w, After(w, c, s))
  {
    match s
    case Work(u) => WorkSound(w, c, u);
    case Pick(u) => PickSound(w, c, u);
  }

  lemma WorkSound(w: Setup, c: Crawl, u: Url)
    requires Sound(w, c) && Enabled(w, c, Work(u))
    ensures Sound(w, After(w, c, Work(u)))
  {
    WorkShape(w, c, u);
    WorkLabels(w, c, u);
    WorkLog(w, c, u);
    WorkChildren(w, c, u);
    Together(w, After(w, c, Work(u)));
  }

  lemma PickSound(w: Setup, c: Crawl, u: Url)
    requires Sound(w, c) && Enabled(w, c, Pick(u))
    ensures Sound(w, After(w, c, Pick(u)))
  {
    PickMoves(w, c, u, After(w, c, Pick(u)));
    SameJobsSound(w, c, After(w, c, Pick(u)));
  }

  lemma PickMoves(w: Setup, c: Crawl, u: Url, c': Crawl)
    requires Shape(c) && Enabled(w, c, Pick(u)) && c' == After(w, c, Pick(u))
    ensures Shape(c') && c'.known == c.known && c'.fetched == c.fetched
    ensures c'.waiting + c'.active == c.waiting + c.active
  {}

  lemma WorkShape(w: Setup, c: Crawl, u: Url)
    requires Shape(c) && SeedsKnown(w, c) && Enabled(w, c, Work(u))
    ensures Shape(After(w, c, Work(u))) && SeedsKnown(w, After(w, c, Work(u)))
  {}

  lemma Together(w: Setup, c: Crawl)
    requires Shape(c) && LabelsArePaths(w, c) && LogIsRight(w, c) && SeedsKnown(w, c) && ChildrenKnown(w, c)
    ensures Sound(w, c)
  {}

  /** Nothing finished, and nothing new known: the log and the labels stay right. */
  lemma SameJobsSound(w: Setup, c: Crawl, c': Crawl)
    requires Sound(w, c) && Shape(c') && c'.known == c.known && c'.fetched == c.fetched
    requires c'.waiting + c'.active == c.waiting + c.active
    ensures Sound(w, c')
  {
    assert forall v :: v in c'.waiting + c'.active <==> v in c.waiting + c.active;
    SameLog(w, c, c');
  }

  lemma SameLog(w: Setup, c: Crawl, c': Crawl)
    requires LogIsRight(w, c) && c'.known == c.known && c'.fetched == c.fetched
    requires forall v :: v in c'.waiting + c'.active <==> v in c.waiting + c.active
    ensures LogIsRight(w, c')
  {
    forall v ensures Finished(c', v) <==> Finished(c, v) {
      assert v in c'.waiting + c'.active <==> v in c.waiting + c.active;
    }
    forall v ensures WasFetched(c', v) <==> WasFetched(c, v) {}
  }

  lemma {:induction false} RunSound(w: Setup, c: Crawl, steps: seq<Step>)
    requires Sound(w, c) && Runs(w, c, steps)
    ensures Sound(w, Final(w, c, steps))
    decreases |steps|
  {
    if steps != [] {
      StepSound(w, c, steps[0]);
      RunSound(w, After(w, c, steps[0]), steps[1..]);
    }
  }

  /**
   With any number of workers: no URL is fetched twice, everything fetched is allowed and
   reachable, and its depth is the length of a real path, at most `maxDepth`.
   */
  lemma FetchesAreSound(w: Setup, steps: seq<Step>, i: nat)
    requires Runs(w, Init(w), steps) && i < |Final(w, Init(w), steps).fetched|
    ensures var log := Final(w, Init(w), steps).fetched;
            && (forall j :: 0 <= j < |log| && j != i ==> log[j].0 != log[i].0)
            && w.web.allowed(log[i].0)
            && log[i].1 <= w.maxDepth
            && exists p :: PathTo(w, p, log[i].0) && |p| == log[i].1 + 1
  {
    InitSound(w);
    RunSound(w, Init(w), steps);
    var c := Final(w, Init(w), steps);
    assert c.fetched[i].0 in c.known.Keys;
  }

  // ---------------------------------------------------------------- one worker: breadth first

  /** No path reaches a known URL in fewer links than its label says. */
  ghost predicate LabelsAreShortest(w: Setup, c: Crawl) {
    forall p :: IsPath(w, p) && p[|p| - 1] in c.known ==> c.known[p[|p| - 1]] + 1 <= |p|
  }

  /** At most one job is active, and no waiting job is shallower. */
  ghost predicate OneAtATime(c: Crawl) {
    && |c.active| <= 1
    && forall u, v :: u in c.active && v in c.waiting && u in c.known && v in c.known ==> c.known[u] <= c.known[v]
  }

  /** A path to an unknown URL leaves the known ones somewhere. */
  lemma {:induction false} Boundary(w: Setup, c: Crawl, p: seq<Url>) returns (q: seq<Url>, v: Url)
    requires IsPath(w, p) && SeedsKnown(w, c) && p[|p| - 1] !in c.known
    ensures IsPath(w, q) && |q| < |p| && q[|q| - 1] in c.known && v !in c.known && Links(w, q[|q| - 1], v)
    decreases |p|
  {
    var n := |p| - 1;
    if n == 0 {
      assert false;
    }
    if p[n - 1] in c.known {
      q, v := p[..n], p[n];
    } else {
      q, v := Boundary(w, c, p[..n]);
    }
  }

  /** A URL discovered by the shallowest unfinished job is at no smaller distance than the label it gets. */
  lemma NewLabelIsShortest(w: Setup, c: Crawl, u: Url, p: seq<Url>)
    requires Sound(w, c) && LabelsAreShortest(w, c) && OneAtATime(c)
    requires Enabled(w, c, Work(u)) && Fetchable(w, u, c.known[u])
    requires IsPath(w, p) && p[|p| - 1] !in c.known
    ensures c.known[u] + 2 <= |p|
  {
    var q, v := Boundary(w, c, p);
    var x := q[|q| - 1];
    assert x in c.known.Keys && c.known[x] + 1 <= |q|;
    if x in c.waiting {
      assert c.known[u] <= c.known[x];
    } else if x in c.active {
      SameElement(c.active, u, x);
    } else {
      assert Finished(c, x) && !Fetchable(w, x, c.known[x]);
    }
  }

  lemma SameElement(s: set<Url>, a: Url, b: Url)
    requires |s| <= 1 && a in s && b in s
    ensures a == b
  {
    assert s == {a} + (s - {a});
    assert |s| == 1 + |s - {a}|;
    assert s - {a} == {};
  }

  lemma WorkShortest(w: Setup, c: Crawl, u: Url)
    requires Sound(w, c) && LabelsAreShortest(w, c) && OneAtATime(c) && Enabled(w, c, Work(u))
    ensures LabelsAreShortest(w, After(w, c, Work(u)))
  {
    var c' := After(w, c, Work(u));
    forall p | IsPath(w, p) && p[|p| - 1] in c'.known ensures c'.known[p[|p| - 1]] + 1 <= |p| {
      if p[|p| - 1] !in c.known { NewLabelIsShortest(w, c, u, p); }
    }
  }

  lemma {:induction false} StepShortest(w: Setup, c: Crawl, s: Step)
    requires w.workers == 1 && Sound(w, c) && LabelsAreShortest(w, c) && OneAtATime(c) && Enabled(w, c, s)
    ensures LabelsAreShortest(w, After(w, c, s)) && OneAtATime(After(w, c, s))
  {
    match s
    case Pick(u) =>
      assert c.active == {};
      assert After(w, c, s).active == {u};
    case Work(u) =>
      WorkShortest(w, c, u);
      forall x | x in c.active ensures x == u { SameElement(c.active, x, u); }
      assert After(w, c, s).active == {};
  }

  /** Finished jobs are no deeper than unfinished ones, and the log is in order of depth. */
  ghost predicate InOrder(c: Crawl) {
    && (forall u, v :: Finished(c, u) && v in c.known && !Finished(c, v) ==> c.known[u] <= c.known[v])
    && (forall i, j :: 0 <= i < j < |c.fetched| ==> c.fetched[i].1 <= c.fetched[j].1)
  }

  lemma {:induction false} StepInOrder(w: Setup, c: Crawl, s: Step)
    requires w.workers == 1 && Sound(w, c) && OneAtATime(c) && InOrder(c) && Enabled(w, c, s)
    ensures InOrder(After(w, c, s))
  {
    if s.Work? {
      WorkInOrder(w, c, s.url);
    } else {
      forall v ensures Finished(After(w, c, s), v) <==> Finished(c, v) {}
    }
  }

  lemma WorkInOrder(w: Setup, c: Crawl, u: Url)
    requires w.workers == 1 && Sound(w, c) && OneAtATime(c) && InOrder(c) && Enabled(w, c, Work(u))
    ensures InOrder(After(w, c, Work(u)))
  {
    var c' := After(w, c, Work(u));
    forall x | x in c.active ensures x == u { SameElement(c.active, x, u); }
    forall i, j | 0 <= i < j < |c'.fetched| ensures c'.fetched[i].1 <= c'.fetched[j].1 {
      if j == |c.fetched| { assert Finished(c, c.fetched[i].0) && !Finished(c, u); }
    }
    forall x, y | Finished(c', x) && y in c'.known && !Finished(c', y) ensures c'.known[x] <= c'.known[y] {
      assert x == u || Finished(c, x);
      assert y in c.waiting || y in New(c, Children(w, u, c.known[u]));
      if x != u { assert c.known[x] <= c.known[u] by { assert !Finished(c, u); } }
    }
  }

  lemma InitShortest(w: Setup)
    ensures LabelsAreShortest(w, Init(w)) && OneAtATime(Init(w)) && InOrder(Init(w))
  {}

  lemma {:induction false} RunShortest(w: Setup, c: Crawl, steps: seq<Step>)
    requires w.workers == 1 && Sound(w, c) && LabelsAreShortest(w, c) && OneAtATime(c) && InOrder(c)
             && Runs(w, c, steps)
    ensures LabelsAreShortest(w, Final(w, c, steps)) && InOrder(Final(w, c, steps))
    decreases |steps|
  {
    if steps != [] {
      StepSound(w, c, steps[0]);
      StepShortest(w, c, steps[0]);
      StepInOrder(w, c, steps[0]);
      RunShortest(w, After(w, c, steps[0]), steps[1..]);
    }
  }

  lemma LinksKnown(w: Setup, c: Crawl, p: seq<Url>, u: Url, v: Url)
    requires Sound(w, c) && LabelsAreShortest(w, c) && c.waiting == {} && c.active == {}
    requires PathTo(w, p, u) && u in c.known && |p| - 1 <= w.maxDepth && Links(w, u, v)
    ensures v in c.known
  {
    assert u in c.known.Keys && Finished(c, u) && c.known[u] + 1 <= |p|;
  }

  /** Where a path of at most `maxDepth` links ends at a known URL, the links of that URL are known. */
  ghost predicate LinksClosed(w: Setup, c: Crawl) {
    forall p, u, v :: PathTo(w, p, u) && u in c.known && |p| - 1 <= w.maxDepth && Links(w, u, v) ==> v in c.known
  }

  lemma {:induction false} PathsKnown(w: Setup, c: Crawl, p: seq<Url>)
    requires SeedsKnown(w, c) && LinksClosed(w, c)
    requires IsPath(w, p) && |p| - 1 <= w.maxDepth + 1
    ensures p[|p| - 1] in c.known
    decreases |p|
  {
    var n := |p| - 1;
    if n == 0 {
      assert p[0] in w.seeds;
    } else {
      PathsKnown(w, c, p[..n]);
      assert PathTo(w, p[..n], p[n - 1]) && Links(w, p[n - 1], p[n]);
    }
  }

  /** When nothing is left to do, every page within `maxDepth` links is known. */
  lemma AllKnown(w: Setup, c: Crawl, p: seq<Url>)
    requires Sound(w, c) && LabelsAreShortest(w, c) && c.waiting == {} && c.active == {}
    requires IsPath(w, p) && |p| - 1 <= w.maxDepth + 1
    ensures p[|p| - 1] in c.known
  {
    assert LinksClosed(w, c) by {
      forall q, u, v | PathTo(w, q, u) && u in c.known && |q| - 1 <= w.maxDepth && Links(w, u, v) ensures v in c.known {
        LinksKnown(w, c, q, u, v);
      }
    }
    PathsKnown(w, c, p);
  }

  /**
   One worker crawls breadth first: when it has run dry, the pages fetched are exactly the
   allowed ones within `maxDepth` links of the seeds, each with its shortest distance.
   */
  lemma CrawlIsBreadthFirst(w: Setup, steps: seq<Step>, u: Url)
    requires w.workers == 1 && Runs(w, Init(w), steps)
    requires Final(w, Init(w), steps).waiting == {} && Final(w, Init(w), steps).active == {}
    ensures var c := Final(w, Init(w), steps);
            && (WasFetched(c, u) <==> w.web.allowed(u) && Within(w, u, w.maxDepth))
            && (forall i :: 0 <= i < |c.fetched| && c.fetched[i].0 == u ==> Distance(w, u, c.fetched[i].1))
            && (forall i, j :: 0 <= i < j < |c.fetched| ==>
                c.fetched[i].0 != c.fetched[j].0 && c.fetched[i].1 <= c.fetched[j].1)
  {
    InitSound(w);
    InitShortest(w);
    RunSound(w, Init(w), steps);
    RunShortest(w, Init(w), steps);
    DryRun(w, Final(w, Init(w), steps), u);
  }

  lemma DryRun(w: Setup, c: Crawl, u: Url)
    requires Sound(w, c) && LabelsAreShortest(w, c) && InOrder(c) && c.waiting == {} && c.active == {}
    ensures WasFetched(c, u) <==> w.web.allowed(u) && Within(w, u, w.maxDepth)
    ensures forall i :: 0 <= i < |c.fetched| && c.fetched[i].0 == u ==> Distance(w, u, c.fetched[i].1)
    ensures forall i, j :: 0 <= i < j < |c.fetched| ==>
            c.fetched[i].0 != c.fetched[j].0 && c.fetched[i].1 <= c.fetched[j].1
  {
    DryIsCovered(w, c, u);
    forall i | 0 <= i < |c.fetched| && c.fetched[i].0 == u ensures Distance(w, u, c.fetched[i].1) {
      LabelIsDistance(w, c, u);
    }
  }

  lemma LabelIsDistance(w: Setup, c: Crawl, u: Url)
    requires Sound(w, c) && LabelsAreShortest(w, c) && u in c.known.Keys
    ensures Distance(w, u, c.known[u])
  {}

  lemma DryIsCovered(w: Setup, c: Crawl, u: Url)
    requires Sound(w, c) && LabelsAreShortest(w, c) && c.waiting == {} && c.active == {}
    ensures WasFetched(c, u) <==> w.web.allowed(u) && Within(w, u, w.maxDepth)
  {
    if WasFetched(c, u) {
      var i :| 0 <= i < |c.fetched| && c.fetched[i].0 == u;
      assert u in c.known.Keys && Fetchable(w, u, c.known[u]);
    }
    if w.web.allowed(u) && Within(w, u, w.maxDepth) {
      var p :| PathTo(w, p, u) && |p| - 1 <= w.maxDepth;
      AllKnown(w, c, p);
      assert u in c.known.Keys && Finished(c, u);
    }
  }

  // ---------------------------------------------------------------- completion

  /** Waiting child jobs that the six counts leave out, as a store with a separate list for prioritised jobs does. */
  predicate Uncounted(c: Crawl, hidden: set<Url>) {
    hidden <= c.waiting && forall u <- hidden :: u in c.known && 0 < c.known[u]
  }

  /**
   The job counts a control plane sees; `failed` of the finished jobs ended in an error, and `hidden` are
   uncounted.
   */
  function CountsOf(c: Crawl, failed: nat, hidden: set<Url>): ControlPlanes.Counts
    requires failed + |c.waiting| + |c.active| <= |c.known|
  {
    ControlPlanes.Counts(|c.waiting - hidden|, |c.active|, |c.known| - |c.waiting| - |c.active| - failed, failed, 0, 0)
  }

  function StateOf(c: Crawl, failed: nat, hidden: set<Url>): ControlPlanes.CrawlState
    requires failed + |c.waiting| + |c.active| <= |c.known|
  {
    ControlPlanes.DeriveState(CountsOf(c, failed, hidden), false)
  }

  /** The jobs that neither wait nor run are the finished ones. */
  lemma DoneIsFinished(c: Crawl)
    requires Shape(c)
    ensures |c.waiting| + |c.active| <= |c.known|
    ensures |c.known| - |c.waiting| - |c.active| > 0 <==> exists u <- c.known.Keys :: Finished(c, u)
  {
    var done := c.known.Keys - c.waiting - c.active;
    assert c.known.Keys == c.waiting + c.active + done;
    assert |c.known| == |c.known.Keys| == |c.waiting| + |c.active| + |done|;
    if u :| u in c.known.Keys && Finished(c, u) { assert u in done; }
    if u :| u in done { assert Finished(c, u); }
  }

  /**
   `completed` is reported exactly when nothing that is counted waits or runs and there were seeds. It means run
   dry, the state under which the crawl is known to have covered everything, exactly when nothing is uncounted.
   */
  lemma CompletedIsDry(w: Setup, steps: seq<Step>, failed: nat, hidden: set<Url>)
    requires Runs(w, Init(w), steps) && Uncounted(Final(w, Init(w), steps), hidden)
    requires var c := Final(w, Init(w), steps); failed + |c.waiting| + |c.active| <= |c.known|
    ensures var c := Final(w, Init(w), steps);
            && (StateOf(c, failed, hidden) == ControlPlanes.Completed <==>
                c.waiting == hidden && c.active == {} && w.seeds != [])
            && (StateOf(c, failed, hidden) == ControlPlanes.Completed ==>
                (c.waiting == {} && c.active == {} <==> hidden == {}))
  {
    InitSound(w);
    RunSound(w, Init(w), steps);
    StateIsIdleOrDone(w, Final(w, Init(w), steps), failed, hidden);
  }

  lemma StateIsIdleOrDone(w: Setup, c: Crawl, failed: nat, hidden: set<Url>)
    requires Sound(w, c) && Uncounted(c, hidden) && failed + |c.waiting| + |c.active| <= |c.known|
    ensures StateOf(c, failed, hidden) == ControlPlanes.Completed <==>
            c.waiting == hidden && c.active == {} && w.seeds != []
  {
    DoneIsFinished(c);
    assert |c.waiting - hidden| == 0 <==> c.waiting == hidden;
    if c.waiting == hidden && c.active == {} && w.seeds != [] {
      SeedIsFinished(w, c, hidden, w.seeds[0]);
    }
    if w.seeds == [] {
      forall u | u in c.known.Keys ensures false { NoSeedsNoPaths(w, c, u); }
      assert c.known == map[];
    }
  }

  /** A seed is at depth 0, so it cannot be uncounted. */
  lemma SeedIsFinished(w: Setup, c: Crawl, hidden: set<Url>, u: Url)
    requires Sound(w, c) && Uncounted(c, hidden) && c.waiting == hidden && c.active == {} && u in w.seeds
    ensures Finished(c, u)
  {}

  lemma NoSeedsNoPaths(w: Setup, c: Crawl, u: Url)
    requires w.seeds == [] && LabelsArePaths(w, c)
    ensures u !in c.known
  {
    if u in c.known.Keys {
      var p :| PathTo(w, p, u) && |p| == c.known[u] + 1;
      StartsAtSeed(w, p);
    }
  }

  lemma {:induction false} StartsAtSeed(w: Setup, p: seq<Url>)
    requires IsPath(w, p)
    ensures p[0] in w.seeds
  {
    if |p| > 1 { StartsAtSeed(w, p[..|p| - 1]); }
  }

  /**
   So with one worker, and if no waiting job is outside the six counts, a completed crawl has fetched exactly
   what lies within `maxDepth` links.
   */
  lemma CompletedMeansCovered(w: Setup, steps: seq<Step>, failed: nat, hidden: set<Url>, u: Url)
    requires w.workers == 1 && Runs(w, Init(w), steps)
    requires hidden == {}
    requires var c := Final(w, Init(w), steps); failed + |c.waiting| + |c.active| <= |c.known|
    requires StateOf(Final(w, Init(w), steps), failed, hidden) == ControlPlanes.Completed
    ensures WasFetched(Final(w, Init(w), steps), u) <==>
            w.web.allowed(u) && Within(w, u, w.maxDepth)
  {
    CompletedIsDry(w, steps, failed, hidden);
    CrawlIsBreadthFirst(w, steps, u);
  }
}
