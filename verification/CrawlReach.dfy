/** The URLs a crawl can ever come to know: finitely many, however many the web has. */
module CrawlReach {
  import opened Wrappers
  import opened Crawls

  /** The URLs that some chain of at most so many links leads to from a seed. */
  function Level(w: Setup, links: nat): set<Url> {
    if links == 0 then set u | u in w.seeds
    else
      var nearer := Level(w, links - 1);
      nearer + (set u, v | u in nearer && Expands(w, u) && v in w.web.links(u).value :: v)
  }

  /** Jobs within `maxDepth` hand on links, so labels end one deeper. */
  function Horizon(w: Setup): nat {
    if 0 <= w.maxDepth then w.maxDepth + 1 else 0
  }

  function Reach(w: Setup): set<Url> {
    Level(w, Horizon(w))
  }

  lemma {:induction false} LevelHasPath(w: Setup, links: nat, u: Url) returns (p: seq<Url>)
    requires u in Level(w, links)
    ensures PathTo(w, p, u) && |p| - 1 <= links
  {
    if links == 0 {
      p := [u];
    } else if u in Level(w, links - 1) {
      p := LevelHasPath(w, links - 1, u);
    } else {
      var x :| x in Level(w, links - 1) && Expands(w, x) && u in w.web.links(x).value;
      p := LevelHasPath(w, links - 1, x);
      ExtendPath(w, p, x, u);
      p := p + [u];
    }
  }

  lemma {:induction false} PathInLevel(w: Setup, links: nat, p: seq<Url>)
    requires IsPath(w, p) && |p| - 1 <= links
    ensures p[|p| - 1] in Level(w, links)
  {
    if |p| <= 1 {
      LevelGrows(w, 0, links, p[0]);
    } else {
      PathInLevel(w, links - 1, p[..|p| - 1]);
      LinkInLevel(w, links, p[|p| - 2], p[|p| - 1]);
    }
  }

  lemma LinkInLevel(w: Setup, links: nat, u: Url, v: Url)
    requires 1 <= links && u in Level(w, links - 1) && Links(w, u, v)
    ensures v in Level(w, links)
  {}

  lemma {:induction false} LevelGrows(w: Setup, few: nat, many: nat, u: Url)
    requires few <= many && u in Level(w, few)
    ensures u in Level(w, many)
    decreases many
  {
    if few < many { LevelGrows(w, few, many - 1, u); }
  }

  /** The levels are what they are meant to be. */
  lemma LevelIs(w: Setup, links: nat, u: Url)
    ensures u in Level(w, links) <==> Within(w, u, links)
  {
    if u in Level(w, links) { var p := LevelHasPath(w, links, u); }
    if p :| PathTo(w, p, u) && |p| - 1 <= links { PathInLevel(w, links, p); }
  }

  /** Every label is that of a level within the horizon. */
  ghost predicate Placed(w: Setup, c: Crawl) {
    forall u <- c.known.Keys :: c.known[u] <= Horizon(w) && u in Level(w, c.known[u])
  }

  lemma PlacedInReach(w: Setup, c: Crawl)
    requires Placed(w, c)
    ensures c.known.Keys <= Reach(w)
  {
    forall u | u in c.known.Keys ensures u in Reach(w) { LevelGrows(w, c.known[u], Horizon(w), u); }
  }

  lemma InitPlaced(w: Setup)
    ensures Placed(w, Init(w))
  {}

  /** What a job hands on lies in the next level, and that is within the horizon. */
  lemma ChildPlaced(w: Setup, u: Url, d: nat, v: Url)
    requires u in Level(w, d) && v in Children(w, u, d)
    ensures d + 1 <= Horizon(w) && v in Level(w, d + 1) && v in Reach(w)
  {
    ChildrenAreLinks(w, u, d, v);
    LinkInLevel(w, d + 1, u, v);
    LevelGrows(w, d + 1, Horizon(w), v);
  }

  lemma WorkPlaced(w: Setup, c: Crawl, u: Url)
    requires Placed(w, c) && Enabled(w, c, Work(u))
    ensures Placed(w, After(w, c, Work(u)))
  {
    var c' := After(w, c, Work(u));
    assert u in c.known.Keys;
    forall v | v in c'.known.Keys ensures c'.known[v] <= Horizon(w) && v in Level(w, c'.known[v]) {
      if v in c.known.Keys {
        assert c'.known[v] == c.known[v];
      } else {
        ChildPlaced(w, u, c.known[u], v);
      }
    }
  }

  lemma {:induction false} RunPlaced(w: Setup, c: Crawl, steps: seq<Step>)
    requires Placed(w, c) && Runs(w, c, steps)
    ensures Placed(w, Final(w, c, steps))
    decreases |steps|
  {
    if steps != [] {
      if steps[0].Work? { WorkPlaced(w, c, steps[0].url); }
      RunPlaced(w, After(w, c, steps[0]), steps[1..]);
    }
  }

  /** However large the web, a crawl only ever knows URLs within `maxDepth + 1` links, which are finitely many. */
  lemma KnownIsBounded(w: Setup, steps: seq<Step>)
    requires Runs(w, Init(w), steps)
    ensures Final(w, Init(w), steps).known.Keys <= Reach(w)
  {
    InitPlaced(w);
    RunPlaced(w, Init(w), steps);
    PlacedInReach(w, Final(w, Init(w), steps));
  }
}
