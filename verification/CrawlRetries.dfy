/**
 The crawl with tries that may fail: a failed job is delayed, waits again after its backoff, and is tried at most
 `retries` more times.  The outcome of the last try is what the web says of the page.
 */
module CrawlRetries {
  import opened Wrappers
  import opened Crawls
  import opened CrawlLimits

  /** `delayed`: those of the waiting jobs whose backoff has not ended; `failures`: how many tries failed so far. */
  datatype Retried = Retried(crawl: Crawl, delayed: set<Url>, failures: map<Url, nat>)

  datatype Try = Take(url: Url) | Finish(url: Url) | Fail(url: Url) | Wake(url: Url)

  function Failures(s: Retried, u: Url): nat {
    if u in s.failures then s.failures[u] else 0
  }

  /** A worker takes the best job that is not delayed. */
  predicate Able(w: Setup, retries: nat, s: Retried, t: Try) {
    var c := s.crawl;
    match t
    case Take(u) =>
      && u in c.waiting && u !in s.delayed && u in c.known && |c.active| < w.workers
      && forall v <- c.waiting :: v !in s.delayed && v in c.known ==> c.known[u] <= c.known[v]
    case Finish(u) => u in c.active && u in c.known
    case Fail(u) => u in c.active && u in c.known && Failures(s, u) < retries
    case Wake(u) => u in s.delayed
  }

  function Then(w: Setup, retries: nat, s: Retried, t: Try): Retried
    requires Able(w, retries, s, t)
  {
    var c := s.crawl;
    match t
    case Take(u) => s.(crawl := c.(waiting := c.waiting - {u}, active := c.active + {u}))
    case Finish(u) => s.(crawl := After(w, c, Work(u)))
    case Fail(u) =>
      Retried(c.(waiting := c.waiting + {u}, active := c.active - {u}), s.delayed + {u},
              s.failures[u := Failures(s, u) + 1])
    case Wake(u) => s.(delayed := s.delayed - {u})
  }

  function Start(w: Setup): Retried {
    Retried(Init(w), {}, map[])
  }

  predicate Tries(w: Setup, retries: nat, s: Retried, ts: seq<Try>)
    decreases |ts|
  {
    ts == [] || (Able(w, retries, s, ts[0]) && Tries(w, retries, Then(w, retries, s, ts[0]), ts[1..]))
  }

  function End(w: Setup, retries: nat, s: Retried, ts: seq<Try>): Retried
    requires Tries(w, retries, s, ts)
    decreases |ts|
  {
    if ts == [] then s else End(w, retries, Then(w, retries, s, ts[0]), ts[1..])
  }

  // ---------------------------------------------------------------- jobs taken in their turn

  /** No job whose links would be followed is taken while a shallower one is delayed. */
  predicate InTurn(w: Setup, s: Retried, t: Try) {
    var known := s.crawl.known;
    t.Take? && t.url in known && known[t.url] <= w.maxDepth ==>
      forall v <- s.delayed :: v in known ==> known[t.url] <= known[v]
  }

  predicate TakesInTurn(w: Setup, retries: nat, s: Retried, ts: seq<Try>)
    requires Tries(w, retries, s, ts)
    decreases |ts|
  {
    ts == [] || (InTurn(w, s, ts[0]) && TakesInTurn(w, retries, Then(w, retries, s, ts[0]), ts[1..]))
  }

  /** At most one job is active, and if its links would be followed no unfinished job is shallower. */
  ghost predicate Turn(w: Setup, c: Crawl) {
    && |c.active| <= 1
    && forall u, v :: u in c.active && v in c.waiting && u in c.known && v in c.known && c.known[u] <= w.maxDepth ==>
         c.known[u] <= c.known[v]
  }

  ghost predicate Right(w: Setup, s: Retried) {
    Sound(w, s.crawl) && LabelsAreShortest(w, s.crawl) && s.delayed <= s.crawl.waiting && Turn(w, s.crawl)
  }

  lemma SameLabels(w: Setup, c: Crawl, c': Crawl)
    requires LabelsAreShortest(w, c) && c'.known == c.known
    ensures LabelsAreShortest(w, c')
  {}

  lemma TakeRight(w: Setup, retries: nat, s: Retried, u: Url)
    requires w.workers == 1 && Right(w, s) && Able(w, retries, s, Take(u)) && InTurn(w, s, Take(u))
    ensures Right(w, Then(w, retries, s, Take(u)))
  {
    var c' := Then(w, retries, s, Take(u)).crawl;
    TakeMoves(w, retries, s, u, c');
    Moved(w, s.crawl, c');
  }

  lemma TakeMoves(w: Setup, retries: nat, s: Retried, u: Url, c': Crawl)
    requires w.workers == 1 && Shape(s.crawl) && s.delayed <= s.crawl.waiting
    requires Able(w, retries, s, Take(u)) && InTurn(w, s, Take(u)) && c' == Then(w, retries, s, Take(u)).crawl
    ensures Shape(c') && c'.waiting + c'.active == s.crawl.waiting + s.crawl.active && Turn(w, c')
    ensures s.delayed <= c'.waiting
  {
    assert s.crawl.active == {};
    assert c'.active == {u};
  }

  lemma FailRight(w: Setup, retries: nat, s: Retried, u: Url)
    requires w.workers == 1 && Right(w, s) && Able(w, retries, s, Fail(u))
    ensures Right(w, Then(w, retries, s, Fail(u)))
  {
    var c, c' := s.crawl, Then(w, retries, s, Fail(u)).crawl;
    Alone(c.active, u);
    Moved(w, c, c');
  }

  lemma Alone(active: set<Url>, u: Url)
    requires |active| <= 1 && u in active
    ensures active == {u}
  {
    forall x | x in active ensures x == u { SameElement(active, x, u); }
  }

  /** Moving unfinished jobs about changes nothing that was found. */
  lemma Moved(w: Setup, c: Crawl, c': Crawl)
    requires Sound(w, c) && LabelsAreShortest(w, c) && c'.known == c.known && c'.fetched == c.fetched && Shape(c')
    requires c'.waiting + c'.active == c.waiting + c.active
    ensures Sound(w, c') && LabelsAreShortest(w, c')
  {
    SameJobsSound(w, c, c');
    SameLabels(w, c, c');
  }

  lemma FinishRight(w: Setup, retries: nat, s: Retried, u: Url)
    requires w.workers == 1 && Right(w, s) && Able(w, retries, s, Finish(u))
    ensures Right(w, Then(w, retries, s, Finish(u)))
  {
    var c := s.crawl;
    Alone(c.active, u);
    WorkSound(w, c, u);
    FinishLabels(w, c, u);
    assert After(w, c, Work(u)).active == {};
  }

  lemma FinishLabels(w: Setup, c: Crawl, u: Url)
    requires Sound(w, c) && LabelsAreShortest(w, c) && Turn(w, c) && c.active == {u} && Enabled(w, c, Work(u))
    ensures LabelsAreShortest(w, After(w, c, Work(u)))
  {
    if c.known[u] <= w.maxDepth {
      assert OneAtATime(c);
      WorkShortest(w, c, u);
    } else {
      BeyondDepth(w, c, u);
      SameLabels(w, c, After(w, c, Work(u)));
    }
  }

  lemma BeyondDepth(w: Setup, c: Crawl, u: Url)
    requires Enabled(w, c, Work(u)) && w.maxDepth < c.known[u]
    ensures After(w, c, Work(u)).known == c.known
  {
    assert New(c, []) == {};
  }

  lemma {:induction false} TryRight(w: Setup, retries: nat, s: Retried, t: Try)
    requires w.workers == 1 && Right(w, s) && Able(w, retries, s, t) && InTurn(w, s, t)
    ensures Right(w, Then(w, retries, s, t))
  {
    match t
    case Take(u) => TakeRight(w, retries, s, u);
    case Finish(u) => FinishRight(w, retries, s, u);
    case Fail(u) => FailRight(w, retries, s, u);
    case Wake(u) =>
  }

  lemma {:induction false} TriesRight(w: Setup, retries: nat, s: Retried, ts: seq<Try>)
    requires w.workers == 1 && Right(w, s) && Tries(w, retries, s, ts) && TakesInTurn(w, retries, s, ts)
    ensures Right(w, End(w, retries, s, ts))
    decreases |ts|
  {
    if ts != [] {
      TryRight(w, retries, s, ts[0]);
      TriesRight(w, retries, Then(w, retries, s, ts[0]), ts[1..]);
    }
  }

  lemma StartRight(w: Setup)
    ensures Right(w, Start(w))
  {
    InitSound(w);
    InitShortest(w);
  }

  ghost predicate LabelsAreDistances(w: Setup, c: Crawl) {
    forall u <- c.known.Keys :: Distance(w, u, c.known[u])
  }

  lemma RightLabels(w: Setup, s: Retried)
    requires Right(w, s)
    ensures LabelsAreDistances(w, s.crawl)
  {
    forall u | u in s.crawl.known.Keys ensures Distance(w, u, s.crawl.known[u]) { LabelIsDistance(w, s.crawl, u); }
  }

  /**
   With one worker and failing tries, the breadth-first promise holds on every run in which jobs are taken in their
   turn: labels are distances throughout, and what has run dry is covered.
   */
  lemma InTurnIsBreadthFirst(w: Setup, retries: nat, ts: seq<Try>, u: Url)
    requires w.workers == 1 && Tries(w, retries, Start(w), ts) && TakesInTurn(w, retries, Start(w), ts)
    ensures LabelsAreDistances(w, End(w, retries, Start(w), ts).crawl)
    ensures Dry(End(w, retries, Start(w), ts).crawl) ==> Covered(w, End(w, retries, Start(w), ts).crawl, u)
  {
    StartRight(w);
    TriesRight(w, retries, Start(w), ts);
    var s := End(w, retries, Start(w), ts);
    RightLabels(w, s);
    if Dry(s.crawl) { DryIsCovered(w, s.crawl, u); }
  }

  // ---------------------------------------------------------------- webs that look alike so far

  /** Nothing that a finished job has shown tells the two webs apart. */
  ghost predicate Alike(w: Setup, w2: Setup, c: Crawl) {
    && w2.seeds == w.seeds && w2.maxDepth == w.maxDepth && w2.workers == w.workers
    && forall u :: Finished(c, u) ==> w2.web.allowed(u) == w.web.allowed(u) && w2.web.links(u) == w.web.links(u)
  }

  lemma {:induction false} StaysFinished(w: Setup, retries: nat, s: Retried, ts: seq<Try>, u: Url)
    requires Tries(w, retries, s, ts) && Finished(s.crawl, u)
    ensures Finished(End(w, retries, s, ts).crawl, u)
    decreases |ts|
  {
    if ts != [] {
      StaysFinishedOnce(w, retries, s, ts[0], u);
      StaysFinished(w, retries, Then(w, retries, s, ts[0]), ts[1..], u);
    }
  }

  lemma StaysFinishedOnce(w: Setup, retries: nat, s: Retried, t: Try, u: Url)
    requires Able(w, retries, s, t) && Finished(s.crawl, u)
    ensures Finished(Then(w, retries, s, t).crawl, u)
  {}

  lemma ShapeKept(w: Setup, retries: nat, s: Retried, t: Try)
    requires Shape(s.crawl) && Able(w, retries, s, t)
    ensures Shape(Then(w, retries, s, t).crawl)
    ensures t.Finish? ==> Finished(Then(w, retries, s, t).crawl, t.url)
  {}

  lemma SameTry(w: Setup, w2: Setup, retries: nat, s: Retried, t: Try)
    requires w2.maxDepth == w.maxDepth && w2.workers == w.workers && Able(w, retries, s, t)
    requires t.Finish? ==> w2.web.allowed(t.url) == w.web.allowed(t.url) && w2.web.links(t.url) == w.web.links(t.url)
    ensures Able(w2, retries, s, t) && Then(w2, retries, s, t) == Then(w, retries, s, t)
    ensures InTurn(w2, s, t) <==> InTurn(w, s, t)
  {
    if t.Finish? {
      var u, d := t.url, s.crawl.known[t.url];
      assert Children(w2, u, d) == Children(w, u, d) && (Fetchable(w2, u, d) <==> Fetchable(w, u, d));
    }
  }

  /** A run is the same in a web that looks alike to it. */
  lemma {:induction false} Replay(w: Setup, w2: Setup, retries: nat, s: Retried, ts: seq<Try>)
    requires Shape(s.crawl) && Tries(w, retries, s, ts) && Alike(w, w2, End(w, retries, s, ts).crawl)
    ensures Tries(w2, retries, s, ts) && End(w2, retries, s, ts) == End(w, retries, s, ts)
    ensures TakesInTurn(w2, retries, s, ts) <==> TakesInTurn(w, retries, s, ts)
    decreases |ts|
  {
    if ts != [] {
      var next := Then(w, retries, s, ts[0]);
      ShapeKept(w, retries, s, ts[0]);
      if ts[0].Finish? { StaysFinished(w, retries, next, ts[1..], ts[0].url); }
      SameTry(w, w2, retries, s, ts[0]);
      Replay(w, w2, retries, next, ts[1..]);
    }
  }

  lemma ReplayFromStart(w: Setup, w2: Setup, retries: nat, ts: seq<Try>)
    requires Tries(w, retries, Start(w), ts) && Alike(w, w2, End(w, retries, Start(w), ts).crawl)
    ensures Start(w2) == Start(w) && Tries(w2, retries, Start(w2), ts)
    ensures End(w2, retries, Start(w2), ts) == End(w, retries, Start(w), ts)
    ensures TakesInTurn(w2, retries, Start(w2), ts) <==> TakesInTurn(w, retries, Start(w), ts)
  {
    InitSound(w);
    Replay(w, w2, retries, Start(w), ts);
  }

  // ---------------------------------------------------------------- the exact condition

  /** The state once the job has been taken and worked off. */
  function Worked(w: Setup, retries: nat, s: Retried, u: Url): Retried
    requires Able(w, retries, s, Take(u))
  {
    Then(w, retries, Then(w, retries, s, Take(u)), Finish(u))
  }

  /** In every web that looks alike so far, taking the job and working it off leaves all labels distances. */
  ghost predicate TakeIsHarmless(w: Setup, retries: nat, s: Retried, u: Url)
    requires Able(w, retries, s, Take(u))
  {
    forall w2 :: Alike(w, w2, s.crawl) && Able(w2, retries, s, Take(u)) ==>
      LabelsAreDistances(w2, Worked(w2, retries, s, u).crawl)
  }

  lemma InTurnIsHarmless(w: Setup, w2: Setup, retries: nat, ts: seq<Try>, u: Url)
    requires w.workers == 1 && Tries(w, retries, Start(w), ts) && TakesInTurn(w, retries, Start(w), ts)
    requires var s := End(w, retries, Start(w), ts);
             Able(w2, retries, s, Take(u)) && InTurn(w, s, Take(u)) && Alike(w, w2, s.crawl)
    ensures LabelsAreDistances(w2, Worked(w2, retries, End(w, retries, Start(w), ts), u).crawl)
  {
    var s := End(w, retries, Start(w), ts);
    ReplayFromStart(w, w2, retries, ts);
    StartRight(w2);
    TriesRight(w2, retries, Start(w2), ts);
    TryRight(w2, retries, s, Take(u));
    TryRight(w2, retries, Then(w2, retries, s, Take(u)), Finish(u));
    RightLabels(w2, Worked(w2, retries, s, u));
  }

  lemma {:induction false} LengthBound(urls: set<Url>) returns (k: nat)
    ensures forall u <- urls :: |u| < k
  {
    k := 0;
    if urls != {} {
      var u :| u in urls;
      k := LengthBound(urls - {u});
      if k <= |u| { k := |u| + 1; }
    }
  }

  lemma FreshUrl(urls: set<Url>) returns (n: Url)
    ensures n !in urls
  {
    var k := LengthBound(urls);
    n := seq(k, _ => 'x');
  }

  /** The web, but that u and v link to n and to nothing else. */
  function Rewired(w: Setup, u: Url, v: Url, n: Url): Setup {
    w.(web := Web(x => x == u || x == v || w.web.allowed(x), x => if x == u || x == v then Some([n])
        else w.web.links(x)))
  }

  lemma {:induction false} PrefixIsPath(w: Setup, p: seq<Url>, k: nat)
    requires IsPath(w, p) && 1 <= k <= |p|
    ensures IsPath(w, p[..k])
    decreases |p|
  {
    if k == |p| {
      assert p[..k] == p;
    } else {
      PrefixIsPath(w, p[..|p| - 1], k);
      assert p[..|p| - 1][..k] == p[..k];
    }
  }

  lemma {:induction false} PathKept(w: Setup, u: Url, v: Url, n: Url, p: seq<Url>)
    requires IsPath(w, p) && forall i :: 0 <= i < |p| - 1 ==> p[i] != u && p[i] != v
    ensures IsPath(Rewired(w, u, v, n), p)
    decreases |p|
  {
    if |p| > 1 { PathKept(w, u, v, n, p[..|p| - 1]); }
  }

  /** A shortest path to v passes neither v before nor any u that is further away. */
  lemma Avoids(w: Setup, c: Crawl, u: Url, v: Url, p: seq<Url>, i: nat)
    requires LabelsAreShortest(w, c) && u in c.known && v in c.known && c.known[v] < c.known[u]
    requires PathTo(w, p, v) && |p| == c.known[v] + 1 && i < |p| - 1
    ensures p[i] != u && p[i] != v
  {
    PrefixIsPath(w, p, i + 1);
    var q := p[..i + 1];
    assert q[|q| - 1] == p[i];
  }

  lemma ShortCut(w: Setup, c: Crawl, u: Url, v: Url, n: Url)
    requires Sound(w, c) && LabelsAreShortest(w, c) && u in c.known && v in c.known && c.known[v] < c.known[u]
    ensures !Distance(Rewired(w, u, v, n), n, c.known[u] + 1)
  {
    assert v in c.known.Keys;
    var p :| PathTo(w, p, v) && |p| == c.known[v] + 1;
    forall i | 0 <= i < |p| - 1 ensures p[i] != u && p[i] != v { Avoids(w, c, u, v, p, i); }
    PathKept(w, u, v, n, p);
    ExtendPath(Rewired(w, u, v, n), p, v, n);
    assert PathTo(Rewired(w, u, v, n), p + [n], n);
  }

  lemma NewLabel(w: Setup, retries: nat, s: Retried, u: Url, v: Url, n: Url)
    requires Able(w, retries, s, Take(u)) && s.crawl.known[u] <= w.maxDepth && n !in s.crawl.known
    ensures Able(Rewired(w, u, v, n), retries, s, Take(u))
    ensures var c' := Worked(Rewired(w, u, v, n), retries, s, u).crawl;
            n in c'.known.Keys && c'.known[n] == s.crawl.known[u] + 1
  {
    var w2 := Rewired(w, u, v, n);
    var c := Then(w2, retries, s, Take(u)).crawl;
    assert Children(w2, u, c.known[u]) == [n];
    assert n in New(c, [n]);
  }

  lemma OutOfTurnIsHarmful(w: Setup, retries: nat, s: Retried, u: Url, v: Url)
    requires Right(w, s) && Able(w, retries, s, Take(u)) && v in s.delayed && v in s.crawl.known
    requires s.crawl.known[v] < s.crawl.known[u] <= w.maxDepth
    ensures !TakeIsHarmless(w, retries, s, u)
  {
    var n := FreshUrl(s.crawl.known.Keys);
    NewLabel(w, retries, s, u, v, n);
    RewiredIsAlike(w, s.crawl, u, v, n);
    WrongLabel(w, s.crawl, u, v, n, Worked(Rewired(w, u, v, n), retries, s, u).crawl);
  }

  lemma RewiredIsAlike(w: Setup, c: Crawl, u: Url, v: Url, n: Url)
    requires u in c.waiting && v in c.waiting
    ensures Alike(w, Rewired(w, u, v, n), c)
  {}

  lemma WrongLabel(w: Setup, c: Crawl, u: Url, v: Url, n: Url, c': Crawl)
    requires Sound(w, c) && LabelsAreShortest(w, c) && u in c.known && v in c.known && c.known[v] < c.known[u]
    requires n in c'.known.Keys && c'.known[n] == c.known[u] + 1
    ensures !LabelsAreDistances(Rewired(w, u, v, n), c')
  {
    ShortCut(w, c, u, v, n);
  }

  /**
   After any such run, taking a job leaves the labels right in every web that looks alike so far if and only if it is
   its turn: no shallower job is delayed, or the job lies beyond `maxDepth`.
   */
  lemma TakeIsHarmlessIff(w: Setup, retries: nat, ts: seq<Try>, u: Url)
    requires w.workers == 1 && Tries(w, retries, Start(w), ts) && TakesInTurn(w, retries, Start(w), ts)
    requires Able(w, retries, End(w, retries, Start(w), ts), Take(u))
    ensures TakeIsHarmless(w, retries, End(w, retries, Start(w), ts), u) <==>
            InTurn(w, End(w, retries, Start(w), ts), Take(u))
  {
    var s := End(w, retries, Start(w), ts);
    if InTurn(w, s, Take(u)) {
      forall w2 | Alike(w, w2, s.crawl) && Able(w2, retries, s, Take(u))
        ensures LabelsAreDistances(w2, Worked(w2, retries, s, u).crawl)
      {
        InTurnIsHarmless(w, w2, retries, ts, u);
      }
    } else {
      StartRight(w);
      TriesRight(w, retries, Start(w), ts);
      var v :| v in s.delayed && v in s.crawl.known && s.crawl.known[v] < s.crawl.known[u];
      OutOfTurnIsHarmful(w, retries, s, u, v);
    }
  }

  // ---------------------------------------------------------------- which settings cover every web

  ghost predicate CoversDespiteFailures(w: Setup, retries: nat) {
    forall ts, u :: Tries(w, retries, Start(w), ts) && Dry(End(w, retries, Start(w), ts).crawl) ==>
      Covered(w, End(w, retries, Start(w), ts).crawl, u)
  }

  lemma {:induction false} NoRetriesNoDelay(w: Setup, s: Retried, ts: seq<Try>)
    requires s.delayed == {} && Tries(w, 0, s, ts)
    ensures TakesInTurn(w, 0, s, ts)
    decreases |ts|
  {
    if ts != [] { NoRetriesNoDelay(w, Then(w, 0, s, ts[0]), ts[1..]); }
  }

  function TryOf(s: Step): Try {
    match s
    case Pick(u) => Take(u)
    case Work(u) => Finish(u)
  }

  /** A run without failures. */
  lemma {:induction false} PlainRun(w: Setup, retries: nat, s: Retried, steps: seq<Step>) returns (ts: seq<Try>)
    requires s.delayed == {} && Runs(w, s.crawl, steps)
    ensures Tries(w, retries, s, ts) && End(w, retries, s, ts).crawl == Final(w, s.crawl, steps)
    decreases |steps|
  {
    ts := [];
    if steps != [] {
      var t := TryOf(steps[0]);
      var rest := PlainRun(w, retries, Then(w, retries, s, t), steps[1..]);
      TryFirst(w, retries, s, t, rest);
      ts := [t] + rest;
    }
  }

  lemma TryFirst(w: Setup, retries: nat, s: Retried, t: Try, rest: seq<Try>)
    requires Able(w, retries, s, t) && Tries(w, retries, Then(w, retries, s, t), rest)
    ensures Tries(w, retries, s, [t] + rest)
    ensures End(w, retries, s, [t] + rest) == End(w, retries, Then(w, retries, s, t), rest)
  {
    assert ([t] + rest)[1..] == rest;
  }

  lemma WorkersMiss(n: nat, retries: nat, a: Url, b: Url, c: Url, d: Url)
    requires Different(a, b, c, d) && 2 <= n
    ensures !CoversDespiteFailures(Diamond(a, b, c, d, n), retries)
  {
    var w := Diamond(a, b, c, d, n);
    MoreWorkersMissAPage(n, a, b, c, d);
    var steps :| MissesPage(w, steps, c);
    var ts := PlainRun(w, retries, Start(w), steps);
    assert !Covered(w, End(w, retries, Start(w), ts).crawl, c);
  }

  /** Goes from one state to another. */
  ghost predicate Leads(w: Setup, retries: nat, s: Retried, ts: seq<Try>, t: Retried) {
    Tries(w, retries, s, ts) && End(w, retries, s, ts) == t
  }

  lemma Before(w: Setup, retries: nat, s: Retried, t: Try, next: Retried, ts: seq<Try>, end: Retried)
    requires Able(w, retries, s, t) && Then(w, retries, s, t) == next && Leads(w, retries, next, ts, end)
    ensures Leads(w, retries, s, [t] + ts, end)
  {
    TryFirst(w, retries, s, t, ts);
  }

  /** a is being retried, or waits for that, while the crawl has come as far as `crawl`. */
  function Delayed(crawl: Crawl, a: Url): Retried {
    Retried(crawl, {a}, map[a := 1])
  }

  function BFinished(a: Url, b: Url, d: Url): Crawl {
    Crawl(map[a := 0, b := 0, d := 1], {a, d}, {}, [(b, 0)])
  }

  /** d was worked off before a: c is labelled 2. */
  function Overtaken(a: Url, b: Url, c: Url, d: Url): Crawl {
    Crawl(Midway(a, b, c, d).known, {a, c}, {}, [(b, 0), (d, 1)])
  }

  lemma AFails(retries: nat, a: Url, b: Url, c: Url, d: Url, ts: seq<Try>, end: Retried) returns (all: seq<Try>)
    requires Different(a, b, c, d) && 1 <= retries
             && Leads(Diamond(a, b, c, d, 1), retries, Delayed(Seeded(a, b), a), ts, end)
    ensures Leads(Diamond(a, b, c, d, 1), retries, Retried(Seeded(a, b), {}, map[]), all, end)
  {
    var w, s := Diamond(a, b, c, d, 1), Retried(Seeded(a, b), {}, map[]);
    var s1 := s.(crawl := Seeded(a, b).(waiting := {b}, active := {a}));
    assert {a, b} - {a} == {b};
    FirstTryFails(w, retries, a, b, s1);
    Before(w, retries, s1, Fail(a), Delayed(Seeded(a, b), a), ts, end);
    Before(w, retries, s, Take(a), s1, [Fail(a)] + ts, end);
    all := [Take(a)] + ([Fail(a)] + ts);
  }

  lemma FirstTryFails(w: Setup, retries: nat, a: Url, b: Url, s: Retried)
    requires a != b && 1 <= retries && s == Retried(Seeded(a, b).(waiting := {b}, active := {a}), {}, map[])
    ensures Able(w, retries, s, Fail(a)) && Then(w, retries, s, Fail(a)) == Delayed(Seeded(a, b), a)
  {
    assert {b} + {a} == {a, b} && {a} - {a} == {};
  }

  lemma BFinishes(w: Setup, a: Url, b: Url, c: Url, d: Url, crawl: Crawl)
    requires Different(a, b, c, d) && w == Diamond(a, b, c, d, 1)
             && crawl == Seeded(a, b).(waiting := {a}, active := {b})
    ensures Enabled(w, crawl, Work(b)) && After(w, crawl, Work(b)) == BFinished(a, b, d)
  {
    assert New(crawl, [d]) == {d} && Children(w, b, 0) == [d];
    assert {a} + {d} == {a, d} && {b} - {b} == {};
    assert After(w, crawl, Work(b)).known == BFinished(a, b, d).known;
  }

  lemma BOvertakes(retries: nat, a: Url, b: Url, c: Url, d: Url, ts: seq<Try>, end: Retried) returns (all: seq<Try>)
    requires Different(a, b, c, d) && Leads(Diamond(a, b, c, d, 1), retries, Delayed(BFinished(a, b, d), a), ts, end)
    ensures Leads(Diamond(a, b, c, d, 1), retries, Delayed(Seeded(a, b), a), all, end)
  {
    var w, s := Diamond(a, b, c, d, 1), Delayed(Seeded(a, b), a);
    var s1 := s.(crawl := Seeded(a, b).(waiting := {a}, active := {b}));
    assert {a, b} - {b} == {a};
    BFinishes(w, a, b, c, d, s1.crawl);
    Before(w, retries, s1, Finish(b), Delayed(BFinished(a, b, d), a), ts, end);
    Before(w, retries, s, Take(b), s1, [Finish(b)] + ts, end);
    all := [Take(b)] + ([Finish(b)] + ts);
  }

  lemma DFinishes(w: Setup, a: Url, b: Url, c: Url, d: Url, crawl: Crawl)
    requires Different(a, b, c, d) && w == Diamond(a, b, c, d, 1)
    requires crawl == BFinished(a, b, d).(waiting := {a}, active := {d})
    ensures Enabled(w, crawl, Work(d)) && After(w, crawl, Work(d)) == Overtaken(a, b, c, d)
  {
    assert New(crawl, [c]) == {c} && Children(w, d, 1) == [c];
    assert {a} + {c} == {a, c} && {d} - {d} == {} && [(b, 0)] + [(d, 1)] == [(b, 0), (d, 1)];
    assert After(w, crawl, Work(d)).known == Overtaken(a, b, c, d).known;
  }

  lemma DOvertakes(retries: nat, a: Url, b: Url, c: Url, d: Url, ts: seq<Try>, end: Retried) returns (all: seq<Try>)
    requires Different(a, b, c, d) && Leads(Diamond(a, b, c, d, 1), retries, Delayed(Overtaken(a, b, c, d), a), ts, end)
    ensures Leads(Diamond(a, b, c, d, 1), retries, Delayed(BFinished(a, b, d), a), all, end)
  {
    var w, s := Diamond(a, b, c, d, 1), Delayed(BFinished(a, b, d), a);
    var s1 := s.(crawl := BFinished(a, b, d).(waiting := {a}, active := {d}));
    assert {a, d} - {d} == {a};
    DFinishes(w, a, b, c, d, s1.crawl);
    Before(w, retries, s1, Finish(d), Delayed(Overtaken(a, b, c, d), a), ts, end);
    Before(w, retries, s, Take(d), s1, [Finish(d)] + ts, end);
    all := [Take(d)] + ([Finish(d)] + ts);
  }

  lemma AFinishes(w: Setup, a: Url, b: Url, c: Url, d: Url, crawl: Crawl)
    requires Different(a, b, c, d) && w == Diamond(a, b, c, d, 1)
    requires crawl == Overtaken(a, b, c, d).(waiting := {c}, active := {a})
    ensures Enabled(w, crawl, Work(a)) && After(w, crawl, Work(a)) == Late(a, b, c, d)
  {
    assert New(crawl, [c]) == {} && Children(w, a, 0) == [c];
    assert {a} - {a} == {} && [(b, 0), (d, 1)] + [(a, 0)] == [(b, 0), (d, 1), (a, 0)];
  }

  lemma ARetries(retries: nat, a: Url, b: Url, c: Url, d: Url, ts: seq<Try>, end: Retried) returns (all: seq<Try>)
    requires Different(a, b, c, d)
    requires Leads(Diamond(a, b, c, d, 1), retries, Retried(Late(a, b, c, d), {}, map[a := 1]), ts, end)
    ensures Leads(Diamond(a, b, c, d, 1), retries, Delayed(Overtaken(a, b, c, d), a), all, end)
  {
    var w, s := Diamond(a, b, c, d, 1), Delayed(Overtaken(a, b, c, d), a);
    var s1 := s.(delayed := {});
    var s2 := s1.(crawl := Overtaken(a, b, c, d).(waiting := {c}, active := {a}));
    assert {a, c} - {a} == {c} && {a} - {a} == {};
    AFinishes(w, a, b, c, d, s2.crawl);
    Before(w, retries, s2, Finish(a), Retried(Late(a, b, c, d), {}, map[a := 1]), ts, end);
    Before(w, retries, s1, Take(a), s2, [Finish(a)] + ts, end);
    Before(w, retries, s, Wake(a), s1, [Take(a)] + ([Finish(a)] + ts), end);
    all := [Wake(a)] + ([Take(a)] + ([Finish(a)] + ts));
  }

  lemma NeverFetched(retries: nat, a: Url, b: Url, c: Url, d: Url, s: Retried, end: Retried) returns (all: seq<Try>)
    requires Different(a, b, c, d)
    requires s == Retried(Late(a, b, c, d), {}, map[a := 1]) && end == s.(crawl := Late(a, b, c, d).(waiting := {}))
    ensures Leads(Diamond(a, b, c, d, 1), retries, s, all, end)
  {
    var w := Diamond(a, b, c, d, 1);
    var s1 := s.(crawl := Late(a, b, c, d).(waiting := {}, active := {c}));
    assert New(s1.crawl, []) == {} && Children(w, c, 2) == [];
    assert {c} - {c} == {};
    assert Then(w, retries, s1, Finish(c)) == end;
    Before(w, retries, s1, Finish(c), end, [], end);
    Before(w, retries, s, Take(c), s1, [Finish(c)] + [], end);
    all := [Take(c)] + ([Finish(c)] + []);
  }

  /** One worker, one failed try: a is overtaken by b and d, so c is labelled too deep and never fetched. */
  lemma RetryMisses(retries: nat, a: Url, b: Url, c: Url, d: Url)
    requires Different(a, b, c, d) && 1 <= retries
    ensures !CoversDespiteFailures(Diamond(a, b, c, d, 1), retries)
  {
    var w, late := Diamond(a, b, c, d, 1), Retried(Late(a, b, c, d), {}, map[a := 1]);
    var end := late.(crawl := Late(a, b, c, d).(waiting := {}));
    var ts := NeverFetched(retries, a, b, c, d, late, end);
    ts := ARetries(retries, a, b, c, d, ts, end);
    ts := DOvertakes(retries, a, b, c, d, ts, end);
    ts := BOvertakes(retries, a, b, c, d, ts, end);
    ts := AFails(retries, a, b, c, d, ts, end);
    InitIs(1, a, b, c, d);
    RunMisses(w, retries, ts, end, a, b, c, d);
  }

  lemma RunMisses(w: Setup, retries: nat, ts: seq<Try>, end: Retried, a: Url, b: Url, c: Url, d: Url)
    requires Different(a, b, c, d) && w == Diamond(a, b, c, d, 1) && Leads(w, retries, Start(w), ts, end)
    requires end.crawl == Late(a, b, c, d).(waiting := {})
    ensures !CoversDespiteFailures(w, retries)
  {
    Uncovered(a, b, c, d, end.crawl);
  }

  lemma Uncovered(a: Url, b: Url, c: Url, d: Url, crawl: Crawl)
    requires Different(a, b, c, d) && crawl.fetched == [(b, 0), (d, 1), (a, 0)]
    ensures !Covered(Diamond(a, b, c, d, 1), crawl, c)
  {
    NotInLog(crawl, a, b, c, d);
    ShortPath(1, a, b, c, d);
  }

  /**
   Every web is covered whenever it has run dry if and only if there is one worker and no failed job is tried
   again.
   */
  lemma CoverageNeedsNoRetries(n: nat, retries: nat)
    requires 1 <= n
    ensures (forall w: Setup :: w.workers == n ==> CoversDespiteFailures(w, retries)) <==> n == 1 && retries == 0
  {
    if n == 1 && retries == 0 {
      forall w: Setup | w.workers == n ensures CoversDespiteFailures(w, retries) { NoRetriesCover(w); }
    } else if n == 1 {
      RetryMisses(retries, "a", "b", "c", "d");
    } else {
      WorkersMiss(n, retries, "a", "b", "c", "d");
    }
  }

  lemma NoRetriesCover(w: Setup)
    requires w.workers == 1
    ensures CoversDespiteFailures(w, 0)
  {
    forall ts, u | Tries(w, 0, Start(w), ts) && Dry(End(w, 0, Start(w), ts).crawl)
      ensures Covered(w, End(w, 0, Start(w), ts).crawl, u)
    {
      NoRetriesNoDelay(w, Start(w), ts);
      InTurnIsBreadthFirst(w, 0, ts, u);
    }
  }
}
