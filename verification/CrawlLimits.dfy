/** Runs that show where coverage ends: it needs a single worker, and a completed state that counts every job. */
module CrawlLimits {
  import opened Wrappers
  import opened Crawls
  import ControlPlanes

  function Next(w: Setup, c: Crawl, s: Step): Option<Crawl> {
    if Enabled(w, c, s) then Some(After(w, c, s)) else None
  }

  /** Where the steps lead, if each of them can be taken. */
  function Walk(w: Setup, c: Crawl, steps: seq<Step>): Option<Crawl>
    decreases |steps|
  {
    if steps == [] then Some(c)
    else if Enabled(w, c, steps[0]) then Walk(w, After(w, c, steps[0]), steps[1..])
    else None
  }

  lemma {:induction false} WalkIsRun(w: Setup, c: Crawl, steps: seq<Step>, t: Crawl)
    requires Walk(w, c, steps) == Some(t)
    ensures Runs(w, c, steps) && Final(w, c, steps) == t
    decreases |steps|
  {
    if steps != [] { WalkIsRun(w, After(w, c, steps[0]), steps[1..], t); }
  }

  lemma Before(w: Setup, c: Crawl, s: Step, next: Crawl, steps: seq<Step>)
    requires Next(w, c, s) == Some(next)
    ensures Walk(w, c, [s] + steps) == Walk(w, next, steps)
  {
    assert ([s] + steps)[1..] == steps;
  }

  /** Seeds a and b; a links to c, b to d, and d to c as well. */
  function Diamond(a: Url, b: Url, c: Url, d: Url, n: nat): Setup {
    Setup(Web(_ => true, u => Some(if u == a || u == d then [c] else if u == b then [d] else [])), 1, [a, b], n)
  }

  predicate Different(a: Url, b: Url, c: Url, d: Url) {
    a != b && a != c && a != d && b != c && b != d && c != d
  }

  // ---------------------------------------------------------------- the states of the run

  function Seeded(a: Url, b: Url): Crawl {
    Crawl(map[a := 0, b := 0], {a, b}, {}, [])
  }

  /** Both seeds are picked, and b is finished. */
  function Early(a: Url, b: Url, d: Url): Crawl {
    Crawl(map[a := 0, b := 0, d := 1], {d}, {a}, [(b, 0)])
  }

  /** a is still being worked on while b and then d are finished: c is labelled 2. */
  function Midway(a: Url, b: Url, c: Url, d: Url): Crawl {
    Crawl(map[a := 0, b := 0, d := 1, c := 2], {c}, {a}, [(b, 0), (d, 1)])
  }

  /** Everything but c is finished. */
  function Late(a: Url, b: Url, c: Url, d: Url): Crawl {
    Crawl(Midway(a, b, c, d).known, {c}, {}, [(b, 0), (d, 1), (a, 0)])
  }

  lemma InitIs(n: nat, a: Url, b: Url, c: Url, d: Url)
    requires a != b
    ensures Init(Diamond(a, b, c, d, n)) == Seeded(a, b)
  {
    assert New(Crawl(map[], {}, {}, []), [a, b]) == {a, b};
  }

  lemma PickA(n: nat, a: Url, b: Url, c: Url, d: Url)
    requires Different(a, b, c, d) && 2 <= n
    ensures Next(Diamond(a, b, c, d, n), Seeded(a, b), Pick(a)) == Some(Seeded(a, b).(waiting := {b}, active := {a}))
  {
    assert {a, b} - {a} == {b};
  }

  lemma PickB(n: nat, a: Url, b: Url, c: Url, d: Url)
    requires Different(a, b, c, d) && 2 <= n
    ensures Next(Diamond(a, b, c, d, n), Seeded(a, b).(waiting := {b}, active := {a}), Pick(b)) ==
            Some(Seeded(a, b).(waiting := {}, active := {a, b}))
  {
    assert {b} - {b} == {} && {a} + {b} == {a, b};
  }

  lemma WorkB(n: nat, a: Url, b: Url, c: Url, d: Url)
    requires Different(a, b, c, d) && 2 <= n
    ensures Next(Diamond(a, b, c, d, n), Seeded(a, b).(waiting := {}, active := {a, b}), Work(b)) ==
            Some(Early(a, b, d))
  {
    var c2 := Seeded(a, b).(waiting := {}, active := {a, b});
    assert New(c2, [d]) == {d};
    assert Children(Diamond(a, b, c, d, n), b, 0) == [d];
    assert {a, b} - {b} == {a};
    assert After(Diamond(a, b, c, d, n), c2, Work(b)).known == map[a := 0, b := 0, d := 1];
    assert After(Diamond(a, b, c, d, n), c2, Work(b)) == Early(a, b, d);
  }

  lemma PickD(n: nat, a: Url, b: Url, c: Url, d: Url)
    requires Different(a, b, c, d) && 2 <= n
    ensures Next(Diamond(a, b, c, d, n), Early(a, b, d), Pick(d)) ==
            Some(Early(a, b, d).(waiting := {}, active := {a, d}))
  {
    assert {d} - {d} == {} && {a} + {d} == {a, d};
  }

  lemma WorkD(n: nat, a: Url, b: Url, c: Url, d: Url)
    requires Different(a, b, c, d) && 2 <= n
    ensures Next(Diamond(a, b, c, d, n), Early(a, b, d).(waiting := {}, active := {a, d}), Work(d)) ==
            Some(Midway(a, b, c, d))
  {
    var e1 := Early(a, b, d).(waiting := {}, active := {a, d});
    assert New(e1, [c]) == {c};
    assert Children(Diamond(a, b, c, d, n), d, 1) == [c];
    assert {a, d} - {d} == {a};
    assert After(Diamond(a, b, c, d, n), e1, Work(d)).known == map[a := 0, b := 0, d := 1, c := 2];
    assert [(b, 0)] + [(d, 1)] == [(b, 0), (d, 1)];
  }

  lemma WorkA(n: nat, a: Url, b: Url, c: Url, d: Url)
    requires Different(a, b, c, d) && 2 <= n
    ensures Next(Diamond(a, b, c, d, n), Midway(a, b, c, d), Work(a)) == Some(Late(a, b, c, d))
  {
    assert New(Midway(a, b, c, d), [c]) == {};
    assert After(Diamond(a, b, c, d, n), Midway(a, b, c, d), Work(a)) == Late(a, b, c, d);
  }

  lemma PickC(n: nat, a: Url, b: Url, c: Url, d: Url)
    requires Different(a, b, c, d) && 2 <= n
    ensures Next(Diamond(a, b, c, d, n), Late(a, b, c, d), Pick(c)) ==
            Some(Late(a, b, c, d).(waiting := {}, active := {c}))
  {}

  lemma WorkC(n: nat, a: Url, b: Url, c: Url, d: Url)
    requires Different(a, b, c, d) && 2 <= n
    ensures Next(Diamond(a, b, c, d, n), Late(a, b, c, d).(waiting := {}, active := {c}), Work(c)) ==
            Some(Late(a, b, c, d).(waiting := {}))
  {
    var m := Late(a, b, c, d).(waiting := {}, active := {c});
    assert New(m, []) == {};
    assert After(Diamond(a, b, c, d, n), m, Work(c)) == Late(a, b, c, d).(waiting := {});
  }

  lemma FirstHalf(n: nat, a: Url, b: Url, c: Url, d: Url, rest: seq<Step>)
    requires Different(a, b, c, d) && 2 <= n
    ensures Walk(Diamond(a, b, c, d, n), Seeded(a, b), [Pick(a)] + ([Pick(b)] + ([Work(b)] + rest))) ==
            Walk(Diamond(a, b, c, d, n), Early(a, b, d), rest)
  {
    var w, c0 := Diamond(a, b, c, d, n), Seeded(a, b);
    PickA(n, a, b, c, d);
    PickB(n, a, b, c, d);
    WorkB(n, a, b, c, d);
    Before(w, c0.(waiting := {}, active := {a, b}), Work(b), Early(a, b, d), rest);
    Before(w, c0.(waiting := {b}, active := {a}), Pick(b), c0.(waiting := {}, active := {a, b}), [Work(b)] + rest);
    Before(w, c0, Pick(a), c0.(waiting := {b}, active := {a}), [Pick(b)] + ([Work(b)] + rest));
  }

  lemma Middle(n: nat, a: Url, b: Url, c: Url, d: Url, rest: seq<Step>)
    requires Different(a, b, c, d) && 2 <= n
    ensures Walk(Diamond(a, b, c, d, n), Early(a, b, d), [Pick(d)] + ([Work(d)] + ([Work(a)] + rest))) ==
            Walk(Diamond(a, b, c, d, n), Late(a, b, c, d), rest)
  {
    var w, e := Diamond(a, b, c, d, n), Early(a, b, d);
    PickD(n, a, b, c, d);
    WorkD(n, a, b, c, d);
    WorkA(n, a, b, c, d);
    Before(w, Midway(a, b, c, d), Work(a), Late(a, b, c, d), rest);
    Before(w, e.(waiting := {}, active := {a, d}), Work(d), Midway(a, b, c, d), [Work(a)] + rest);
    Before(w, e, Pick(d), e.(waiting := {}, active := {a, d}), [Work(d)] + ([Work(a)] + rest));
  }

  lemma LastHalf(n: nat, a: Url, b: Url, c: Url, d: Url)
    requires Different(a, b, c, d) && 2 <= n
    ensures Walk(Diamond(a, b, c, d, n), Late(a, b, c, d), [Pick(c)] + ([Work(c)] + [])) ==
            Some(Late(a, b, c, d).(waiting := {}))
  {
    var w, l := Diamond(a, b, c, d, n), Late(a, b, c, d);
    PickC(n, a, b, c, d);
    WorkC(n, a, b, c, d);
    Before(w, l.(waiting := {}, active := {c}), Work(c), l.(waiting := {}), []);
    Before(w, l, Pick(c), l.(waiting := {}, active := {c}), [Work(c)] + []);
  }

  lemma ShortPath(n: nat, a: Url, b: Url, c: Url, d: Url)
    requires Different(a, b, c, d)
    ensures PathTo(Diamond(a, b, c, d, n), [a] + [c], c)
  {
    assert ([a] + [c])[..1] == [a];
  }

  function WholeRun(a: Url, b: Url, c: Url, d: Url): seq<Step> {
    [Pick(a)] + ([Pick(b)] + ([Work(b)] + ([Pick(d)] + ([Work(d)] + ([Work(a)] + ([Pick(c)] + ([Work(c)] + [])))))))
  }

  lemma WholeRunEnds(n: nat, a: Url, b: Url, c: Url, d: Url)
    requires Different(a, b, c, d) && 2 <= n
    ensures Walk(Diamond(a, b, c, d, n), Init(Diamond(a, b, c, d, n)), WholeRun(a, b, c, d)) ==
            Some(Late(a, b, c, d).(waiting := {}))
  {
    var last := [Pick(c)] + ([Work(c)] + []);
    InitIs(n, a, b, c, d);
    FirstHalf(n, a, b, c, d, [Pick(d)] + ([Work(d)] + ([Work(a)] + last)));
    Middle(n, a, b, c, d, last);
    LastHalf(n, a, b, c, d);
  }

  /**
   With two or more workers the crawl can run dry without fetching c, which is allowed and one link from a seed,
   so within `maxDepth`.
   */
  lemma MoreWorkersMissAPage(n: nat, a: Url, b: Url, c: Url, d: Url)
    requires Different(a, b, c, d) && 2 <= n
    ensures Diamond(a, b, c, d, n).web.allowed(c) && Diamond(a, b, c, d, n).maxDepth == 1
    ensures exists p :: PathTo(Diamond(a, b, c, d, n), p, c) && |p| - 1 == 1
    ensures exists steps :: MissesPage(Diamond(a, b, c, d, n), steps, c)
  {
    ShortPath(n, a, b, c, d);
    var steps := WholeRun(a, b, c, d);
    WholeRunEnds(n, a, b, c, d);
    WalkIsRun(Diamond(a, b, c, d, n), Init(Diamond(a, b, c, d, n)), steps, Late(a, b, c, d).(waiting := {}));
    NotInLog(Late(a, b, c, d).(waiting := {}), a, b, c, d);
    assert MissesPage(Diamond(a, b, c, d, n), steps, c);
  }

  lemma NotInLog(crawl: Crawl, a: Url, b: Url, c: Url, d: Url)
    requires Different(a, b, c, d) && crawl.fetched == [(b, 0), (d, 1), (a, 0)]
    ensures !WasFetched(crawl, c)
  {}

  /** The run is over and the page was not fetched. */
  ghost predicate MissesPage(w: Setup, steps: seq<Step>, u: Url) {
    Runs(w, Init(w), steps) &&
    var f := Final(w, Init(w), steps);
    f.waiting == {} && f.active == {} && !WasFetched(f, u)
  }

  predicate Dry(c: Crawl) {
    c.waiting == {} && c.active == {}
  }

  /** The page was fetched exactly if it is allowed and within `maxDepth` links. */
  ghost predicate Covered(w: Setup, c: Crawl, u: Url) {
    WasFetched(c, u) <==> w.web.allowed(u) && Within(w, u, w.maxDepth)
  }

  /** Whenever the crawl has run dry, every page is covered. */
  ghost predicate Covers(w: Setup) {
    forall steps, u :: Runs(w, Init(w), steps) && Dry(Final(w, Init(w), steps)) ==>
        Covered(w, Final(w, Init(w), steps), u)
  }

  lemma OneWorkerCovers(w: Setup)
    requires w.workers == 1
    ensures Covers(w)
  {
    forall steps, u | Runs(w, Init(w), steps) && Dry(Final(w, Init(w), steps))
      ensures Covered(w, Final(w, Init(w), steps), u) {
      CrawlIsBreadthFirst(w, steps, u);
    }
  }

  lemma DiamondIsNotCovered(n: nat, a: Url, b: Url, c: Url, d: Url)
    requires Different(a, b, c, d) && 2 <= n
    ensures !Covers(Diamond(a, b, c, d, n))
  {
    MoreWorkersMissAPage(n, a, b, c, d);
    var steps :| MissesPage(Diamond(a, b, c, d, n), steps, c);
    assert !Covered(Diamond(a, b, c, d, n), Final(Diamond(a, b, c, d, n), Init(Diamond(a, b, c, d, n)), steps), c);
  }

  /** Coverage of every web is what one worker gives, and no other number of workers does. */
  lemma CoverageNeedsOneWorker(n: nat)
    requires 1 <= n
    ensures (forall w: Setup :: w.workers == n ==> Covers(w)) <==> n == 1
  {
    if n == 1 {
      forall w: Setup | w.workers == n ensures Covers(w) { OneWorkerCovers(w); }
    } else {
      DiamondIsNotCovered(n, "a", "b", "c", "d");
    }
  }

  // ---------------------------------------------------------------- jobs outside the counts

  /** One seed that links to one page. */
  function Line(a: Url, b: Url): Setup {
    Setup(Web(_ => true, u => Some(if u == a then [b] else [])), 1, [a], 1)
  }

  /** A crawl whose one child job is not counted is reported completed before that job has run. */
  lemma HiddenJobLooksCompleted(a: Url, b: Url)
    requires a != b
    ensures var w, steps := Line(a, b), [Pick(a)] + ([Work(a)] + []);
            && Runs(w, Init(w), steps)
            && var c := Final(w, Init(w), steps);
               && c.waiting == {b} && !WasFetched(c, b) && Uncounted(c, {b})
               && |c.waiting| + |c.active| <= |c.known| && StateOf(c, 0, {b}) == ControlPlanes.Completed
  {
    var w := Line(a, b);
    var c0 := Crawl(map[a := 0], {a}, {}, []);
    var c1 := c0.(waiting := {}, active := {a});
    var c2 := Crawl(map[a := 0, b := 1], {b}, {}, [(a, 0)]);
    assert New(Crawl(map[], {}, {}, []), [a]) == {a};
    assert Init(w) == c0;
    assert New(c1, [b]) == {b};
    assert After(w, c1, Work(a)).known == c2.known;
    assert Next(w, c0, Pick(a)) == Some(c1);
    assert After(w, c1, Work(a)) == c2;
    Before(w, c1, Work(a), c2, []);
    Before(w, c0, Pick(a), c1, [Work(a)] + []);
    WalkIsRun(w, c0, [Pick(a)] + ([Work(a)] + []), c2);
    assert {b} - {b} == {};
  }
}
