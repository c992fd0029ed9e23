/**
 Per-domain politeness: each domain owns a chain of delays inside a bounded LRU map.
 A chain (a promise in the original) is represented by the instant at which it resolves,
 timers being exact; hostnames are taken already reduced to their registrable domain.
 */
module Politeness {
  import opened Wrappers
  import opened Sizes
  import opened OrderedMaps
  import opened LruMaps

  datatype Config = Config(delayMs: nat, maxDomains: int, staleThresholdMs: int)

  /** `chain`: when the last promise of the chain resolves; `lastAccess`: for pruning only. */
  datatype DomainEntry = DomainEntry(chain: int, lastAccess: int)

  type Domains = Store<string, DomainEntry>

  function Max(a: int, b: int): int {
    if a < b then b else a
  }

  // ---------------------------------------------------------------- specification

  datatype Event = Acquire(domain: string, now: int) | Release(domain: string, now: int) | Prune(now: int)

  /** When the caller of `acquire` may proceed. */
  function Grant(cfg: Config, m: Domains, d: string, now: int): int {
    match Lookup(m.vals, d)
    case None => now
    case Some(e) => Max(now, e.chain) + cfg.delayMs
  }

  function Acquired(cfg: Config, m: Domains, d: string, now: int): Domains {
    var looked := Step(cfg.maxDomains, m, Get(d));
    Step(cfg.maxDomains, looked, Set(d, Some(DomainEntry(Grant(cfg, m, d, now), now))))
  }

  function Released(cfg: Config, m: Domains, d: string, now: int): Domains {
    var looked := Step(cfg.maxDomains, m, Get(d));
    match Lookup(m.vals, d)
    case None => looked
    case Some(e) => looked.Put(d, Some(e.(lastAccess := now)))
  }

  function Fresh(m: Domains, cutoff: int): set<string> {
    set d | d in m.vals && (m.vals[d].Some? ==> cutoff <= m.vals[d].value.lastAccess)
  }

  function Pruned(m: Domains, cutoff: int): Domains {
    OrderedMap(Restrict(m.keys, Fresh(m, cutoff)), map d | d in Fresh(m, cutoff) :: m.vals[d])
  }

  function After(cfg: Config, m: Domains, e: Event): Domains {
    match e
    case Acquire(d, now) => Acquired(cfg, m, d, now)
    case Release(d, now) => Released(cfg, m, d, now)
    case Prune(now) => Pruned(m, now - cfg.staleThresholdMs)
  }

  function Run(cfg: Config, m: Domains, es: seq<Event>): Domains {
    if es == [] then m else After(cfg, Run(cfg, m, es[..|es| - 1]), es[|es| - 1])
  }

  lemma PrunedGood(cfg: Config, m: Domains, cutoff: int)
    requires Good(cfg.maxDomains, m)
    ensures Good(cfg.maxDomains, Pruned(m, cutoff))
  {
    RestrictDistinct(m.keys, Fresh(m, cutoff));
    assert Fresh(m, cutoff) <= m.vals.Keys;
  }

  lemma ReleasedGood(cfg: Config, m: Domains, d: string, now: int)
    requires Good(cfg.maxDomains, m)
    ensures Good(cfg.maxDomains, Released(cfg, m, d, now))
    ensures Released(cfg, m, d, now).keys == Step(cfg.maxDomains, m, Op<string, DomainEntry>.Get(d)).keys
  {
    StepGood(cfg.maxDomains, m, Op<string, DomainEntry>.Get(d));
    if Lookup(m.vals, d).Some? { RefreshGood(m, d, m.vals[d]); }
  }

  lemma AcquiredGood(cfg: Config, m: Domains, d: string, now: int)
    requires Good(cfg.maxDomains, m)
    ensures Good(cfg.maxDomains, Acquired(cfg, m, d, now))
    ensures d in Acquired(cfg, m, d, now).vals
    ensures Acquired(cfg, m, d, now).vals[d] == Some(DomainEntry(Grant(cfg, m, d, now), now))
    ensures Newer(Acquired(cfg, m, d, now).keys, d) == {}
  {
    StepGood(cfg.maxDomains, m, Op<string, DomainEntry>.Get(d));
    var looked := Step(cfg.maxDomains, m, Op<string, DomainEntry>.Get(d));
    var op := Op<string, DomainEntry>.Set(d, Some(DomainEntry(Grant(cfg, m, d, now), now)));
    StepGood(cfg.maxDomains, looked, op);
    DeleteValid(looked, d);
    MakeRoomGood(cfg.maxDomains, looked.Delete(d));
    var room := MakeRoom(cfg.maxDomains, looked.Delete(d));
    PutNewValid(room, d, op.value);
    assert d !in Elems(room.keys);
    NewerNone(room.keys, d);
  }

  lemma AfterGood(cfg: Config, m: Domains, e: Event)
    requires Good(cfg.maxDomains, m)
    ensures Good(cfg.maxDomains, After(cfg, m, e))
  {
    match e
    case Acquire(d, now) => AcquiredGood(cfg, m, d, now);
    case Release(d, now) => ReleasedGood(cfg, m, d, now);
    case Prune(now) => PrunedGood(cfg, m, now - cfg.staleThresholdMs);
  }

  lemma {:induction false} RunGood(cfg: Config, m: Domains, es: seq<Event>)
    requires Good(cfg.maxDomains, m)
    ensures Good(cfg.maxDomains, Run(cfg, m, es))
  {
    if es != [] {
      RunGood(cfg, m, es[..|es| - 1]);
      AfterGood(cfg, Run(cfg, m, es[..|es| - 1]), es[|es| - 1]);
    }
  }

  // ---------------------------------------------------------------- residency

  function Touched(es: seq<Event>): set<string> {
    if es == [] then {}
    else Touched(es[..|es| - 1]) + (if es[|es| - 1].Prune? then {} else {es[|es| - 1].domain})
  }

  lemma ResidentThroughGet(cfg: Config, m: Domains, k: string, others: set<string>, d: string)
    requires Good(cfg.maxDomains, m) && Resident(m, k, others) && |(others + {d}) - {k}| < cfg.maxDomains
    ensures Resident(Step(cfg.maxDomains, m, Op<string, DomainEntry>.Get(d)), k, others + {d})
  {
    ResidentStep(cfg.maxDomains, m, k, others, Op<string, DomainEntry>.Get(d));
  }

  lemma ResidentAfter(cfg: Config, m: Domains, k: string, others: set<string>, e: Event)
    requires Good(cfg.maxDomains, m) && Resident(m, k, others) && !e.Prune?
    requires |(others + {e.domain}) - {k}| < cfg.maxDomains
    ensures Resident(After(cfg, m, e), k, others + {e.domain})
  {
    var d := e.domain;
    ResidentThroughGet(cfg, m, k, others, d);
    var looked := Step(cfg.maxDomains, m, Op<string, DomainEntry>.Get(d));
    StepGood(cfg.maxDomains, m, Op<string, DomainEntry>.Get(d));
    match e
    case Acquire(_, now) =>
      var op := Op<string, DomainEntry>.Set(d, Some(DomainEntry(Grant(cfg, m, d, now), now)));
      assert others + {d} + Used(op) == others + {d};
      ResidentStep(cfg.maxDomains, looked, k, others + {d}, op);
    case Release(_, now) =>
      ReleasedGood(cfg, m, d, now);
  }

  /** What moves a domain to the young end: acquiring it, or releasing it while it is tracked. */
  predicate Touches(m: Domains, e: Event) {
    e.Acquire? || (e.Release? && Lookup(m.vals, e.domain).Some?)
  }

  lemma TouchedIsResident(cfg: Config, m: Domains, e: Event)
    requires Good(cfg.maxDomains, m) && Touches(m, e)
    ensures Resident(After(cfg, m, e), e.domain, {})
  {
    var d := e.domain;
    if e.Acquire? {
      AcquiredGood(cfg, m, d, e.now);
    } else {
      var v := m.vals[d];
      RefreshGood(m, d, v);
      ReleasedGood(cfg, m, d, e.now);
      assert d !in Elems(Restrict(m.keys, m.vals.Keys - {d}));
      NewerNone(Restrict(m.keys, m.vals.Keys - {d}), d);
    }
  }

  /**
   Without pruning, a domain stays tracked as long as fewer than `maxDomains` other
   distinct domains are touched since it was last touched itself.
   */
  lemma {:induction false} StaysResident(cfg: Config, m: Domains, touch: Event, post: seq<Event>)
    requires Good(cfg.maxDomains, m) && Touches(m, touch)
    requires forall e <- post :: !e.Prune?
    requires |Touched(post) - {touch.domain}| < cfg.maxDomains
    ensures Good(cfg.maxDomains, Run(cfg, After(cfg, m, touch), post))
    ensures Resident(Run(cfg, After(cfg, m, touch), post), touch.domain, Touched(post))
    decreases |post|
  {
    if post == [] {
      AfterGood(cfg, m, touch);
      TouchedIsResident(cfg, m, touch);
    } else {
      var pre, e := post[..|post| - 1], post[|post| - 1];
      SubsetSize(Touched(pre) - {touch.domain}, Touched(post) - {touch.domain});
      StaysResident(cfg, m, touch, pre);
      var s := Run(cfg, After(cfg, m, touch), pre);
      ResidentAfter(cfg, s, touch.domain, Touched(pre), e);
      AfterGood(cfg, s, e);
    }
  }

  // ---------------------------------------------------------------- spacing

  function Arrivals(es: seq<Event>, d: string): seq<int> {
    if es == [] then []
    else
      var e := es[|es| - 1];
      Arrivals(es[..|es| - 1], d) + (if e.Acquire? && e.domain == d then [e.now] else [])
  }

  function Grants(cfg: Config, m: Domains, es: seq<Event>, d: string): seq<int> {
    if es == [] then []
    else
      var pre, e := es[..|es| - 1], es[|es| - 1];
      Grants(cfg, m, pre, d) +
      (if e.Acquire? && e.domain == d then [Grant(cfg, Run(cfg, m, pre), d, e.now)] else [])
  }

  /** A single server with a fixed pause before every request but the first. */
  function Serialised(arrivals: seq<int>, delay: nat): (g: seq<int>)
    ensures |g| == |arrivals|
  {
    if arrivals == [] then []
    else
      var g := Serialised(arrivals[..|arrivals| - 1], delay);
      g + [NextGrant(g, arrivals[|arrivals| - 1], delay)]
  }

  /** Once acquired, the domain is never evicted or pruned before its next acquisition. */
  ghost predicate NeverDropped(cfg: Config, m: Domains, es: seq<Event>, d: string) {
    forall n | 0 <= n <= |es| :: Arrivals(es[..n], d) != [] ==> d in Run(cfg, m, es[..n]).vals
  }

  ghost predicate ChainIs(m: Domains, d: string, t: int) {
    d in m.vals && m.vals[d].Some? && m.vals[d].value.chain == t
  }

  /** Events of other domains, releases and pruning never touch the chain of a domain that stays. */
  lemma ChainKept(cfg: Config, m: Domains, d: string, t: int, e: Event)
    requires Good(cfg.maxDomains, m) && ChainIs(m, d, t)
    requires !(e.Acquire? && e.domain == d) && d in After(cfg, m, e).vals
    ensures ChainIs(After(cfg, m, e), d, t)
  {
    match e
    case Acquire(j, now) =>
      var get := Op<string, DomainEntry>.Get(j);
      var looked := Step(cfg.maxDomains, m, get);
      StepGood(cfg.maxDomains, m, get);
      if Lookup(m.vals, j).Some? { RefreshGood(m, j, m.vals[j]); }
      DeleteValid(looked, j);
      MakeRoomGood(cfg.maxDomains, looked.Delete(j));
    case Release(j, now) =>
      if Lookup(m.vals, j).Some? { RefreshGood(m, j, m.vals[j]); }
    case Prune(_) =>
  }

  /** The chain left behind by the grants made so far. */
  ghost predicate Follows(m: Domains, d: string, g: seq<int>) {
    if g == [] then d !in m.vals else ChainIs(m, d, g[|g| - 1])
  }

  function NextGrant(g: seq<int>, a: int, delay: nat): int {
    if g == [] then a else Max(a, g[|g| - 1]) + delay
  }

  lemma FollowsAfter(cfg: Config, s: Domains, d: string, g: seq<int>, e: Event)
    requires Good(cfg.maxDomains, s) && Follows(s, d, g)
    requires g != [] ==> d in After(cfg, s, e).vals
    ensures e.Acquire? && e.domain == d ==>
              Grant(cfg, s, d, e.now) == NextGrant(g, e.now, cfg.delayMs)
                  && ChainIs(After(cfg, s, e), d, Grant(cfg, s, d, e.now))
    ensures !(e.Acquire? && e.domain == d) ==> Follows(After(cfg, s, e), d, g)
  {
    if e.Acquire? && e.domain == d {
      AcquiredGood(cfg, s, d, e.now);
    } else if g == [] {
      NotAdded(cfg, s, d, e);
    } else {
      ChainKept(cfg, s, d, g[|g| - 1], e);
    }
  }

  lemma OneMore(cfg: Config, m: Domains, pre: seq<Event>, e: Event, d: string)
    ensures Run(cfg, m, pre + [e]) == After(cfg, Run(cfg, m, pre), e)
    ensures Arrivals(pre + [e], d) == Arrivals(pre, d) + (if e.Acquire? && e.domain == d then [e.now] else [])
    ensures Grants(cfg, m, pre + [e], d) ==
            Grants(cfg, m, pre, d) + (if e.Acquire? && e.domain == d then [Grant(cfg, Run(cfg, m, pre), d, e.now)]
                else [])
  {
    assert (pre + [e])[..|pre|] == pre;
  }

  lemma OneMoreArrival(arrivals: seq<int>, a: int, delay: nat)
    ensures var g := Serialised(arrivals, delay);
            Serialised(arrivals + [a], delay) == g + [NextGrant(g, a, delay)]
  {
    assert (arrivals + [a])[..|arrivals|] == arrivals;
  }

  /** While a domain stays tracked, its grants are those of a single server: first come, first served. */
  lemma {:induction false} GrantsAreSerialised(cfg: Config, m: Domains, es: seq<Event>, d: string)
    requires Good(cfg.maxDomains, m) && d !in m.vals
    requires NeverDropped(cfg, m, es, d)
    ensures Grants(cfg, m, es, d) == Serialised(Arrivals(es, d), cfg.delayMs)
    ensures Follows(Run(cfg, m, es), d, Grants(cfg, m, es, d))
    decreases |es|
  {
    if es != [] {
      var pre, e := es[..|es| - 1], es[|es| - 1];
      assert es[..|es|] == es == pre + [e];
      NeverDroppedPrefix(cfg, m, es, d);
      GrantsAreSerialised(cfg, m, pre, d);
      RunGood(cfg, m, pre);
      OneMore(cfg, m, pre, e, d);
      FollowsAfter(cfg, Run(cfg, m, pre), d, Grants(cfg, m, pre, d), e);
      OneMoreArrival(Arrivals(pre, d), e.now, cfg.delayMs);
      if !(e.Acquire? && e.domain == d) {
        assert Arrivals(es, d) == Arrivals(pre, d) && Grants(cfg, m, es, d) == Grants(cfg, m, pre, d);
      }
    }
  }

  lemma NeverDroppedPrefix(cfg: Config, m: Domains, es: seq<Event>, d: string)
    requires es != [] && NeverDropped(cfg, m, es, d)
    ensures NeverDropped(cfg, m, es[..|es| - 1], d)
    ensures Arrivals(es, d) != [] ==> d in Run(cfg, m, es).vals
  {
    var pre := es[..|es| - 1];
    forall n | 0 <= n <= |pre| && Arrivals(pre[..n], d) != [] ensures d in Run(cfg, m, pre[..n]).vals {
      assert pre[..n] == es[..n];
    }
    assert es[..|es|] == es;
  }

  lemma NotAdded(cfg: Config, m: Domains, d: string, e: Event)
    requires Good(cfg.maxDomains, m) && d !in m.vals && !(e.Acquire? && e.domain == d)
    ensures d !in After(cfg, m, e).vals
  {
    match e
    case Acquire(j, now) =>
      var get := Op<string, DomainEntry>.Get(j);
      StepGood(cfg.maxDomains, m, get);
      if Lookup(m.vals, j).Some? { RefreshGood(m, j, m.vals[j]); }
      DeleteValid(Step(cfg.maxDomains, m, get), j);
      MakeRoomGood(cfg.maxDomains, Step(cfg.maxDomains, m, get).Delete(j));
    case Release(j, now) =>
      if Lookup(m.vals, j).Some? { RefreshGood(m, j, m.vals[j]); }
    case Prune(_) =>
  }

  lemma OnePause(k: nat, delay: nat)
    ensures (k + 1) * delay == k * delay + delay
  {}

  /** Successive grants are at least `delay` apart, and none comes before its arrival. */
  lemma {:induction false} SerialisedSpacing(arrivals: seq<int>, delay: nat, i: nat, j: nat)
    requires i < j < |arrivals|
    ensures Serialised(arrivals, delay)[j] >= Serialised(arrivals, delay)[i] + (j - i) * delay
    ensures Serialised(arrivals, delay)[j] >= arrivals[j] + delay
    decreases |arrivals|
  {
    var n := |arrivals| - 1;
    var g := Serialised(arrivals[..n], delay);
    if j < n {
      SerialisedSpacing(arrivals[..n], delay, i, j);
    } else if i < n - 1 {
      SerialisedSpacing(arrivals[..n], delay, i, n - 1);
      OnePause(n - 1 - i, delay);
    } else {
      OnePause(0, delay);
    }
  }

  /** The max-plus closed form: the latest of every earlier arrival plus the pauses still owed after it. */
  function Owed(arrivals: seq<int>, delay: nat, n: nat, k: nat): int
    requires k <= n < |arrivals|
  {
    arrivals[k] + (n - k + 1) * delay
  }

  ghost predicate IsGreatestOwed(arrivals: seq<int>, delay: nat, n: nat, g: int)
    requires n < |arrivals|
  {
    && (exists k :: 1 <= k <= n && g == Owed(arrivals, delay, n, k))
    && (forall k :: 1 <= k <= n ==> Owed(arrivals, delay, n, k) <= g)
  }

  ghost predicate Monotone(arrivals: seq<int>) {
    forall i, j :: 0 <= i < j < |arrivals| ==> arrivals[i] <= arrivals[j]
  }

  /** The n-th grant (n > 0) is the greatest, over earlier arrivals k > 0, of a_k + (n - k + 1) * delay. */
  lemma {:induction false} SerialisedClosedForm(arrivals: seq<int>, delay: nat, n: nat)
    requires Monotone(arrivals) && 1 <= n < |arrivals|
    ensures IsGreatestOwed(arrivals, delay, n, Serialised(arrivals, delay)[n])
    decreases |arrivals|
  {
    var last := |arrivals| - 1;
    var before := arrivals[..last];
    if n < last {
      SerialisedClosedForm(before, delay, n);
      var g := Serialised(before, delay)[n];
      var k :| 1 <= k <= n && g == Owed(before, delay, n, k);
      assert g == Owed(arrivals, delay, n, k);
      forall k | 1 <= k <= n ensures Owed(arrivals, delay, n, k) <= g {
        assert Owed(before, delay, n, k) <= g;
      }
    } else if n == 1 {
      assert Serialised(before, delay)[0] == arrivals[0];
      assert Serialised(arrivals, delay)[1] == arrivals[1] + delay == Owed(arrivals, delay, 1, 1);
    } else {
      SerialisedClosedForm(before, delay, n - 1);
      var g := Serialised(before, delay)[n - 1];
      var k :| 1 <= k <= n - 1 && g == Owed(before, delay, n - 1, k);
      OneMorePause(arrivals, delay, n);
      assert Serialised(arrivals, delay)[n] == Max(arrivals[n], g) + delay;
      assert Owed(arrivals, delay, n, n) == arrivals[n] + delay;
      assert Owed(arrivals, delay, n, if g < arrivals[n] then n else k) == Serialised(arrivals, delay)[n];
      forall k | 1 <= k <= n ensures Owed(arrivals, delay, n, k) <= Serialised(arrivals, delay)[n] {
        if k < n { assert Owed(before, delay, n - 1, k) <= g; }
      }
    }
  }

  lemma OneMorePause(arrivals: seq<int>, delay: nat, n: nat)
    requires 1 <= n < |arrivals|
    ensures forall k :: 1 <= k < n ==> Owed(arrivals, delay, n, k) == Owed(arrivals[..n], delay, n - 1, k) + delay
  {
    forall k | 1 <= k < n ensures Owed(arrivals, delay, n, k) == Owed(arrivals[..n], delay, n - 1, k) + delay {
      assert (n - k + 1) * delay == (n - 1 - k + 1) * delay + delay;
    }
  }

  /** With few domains and no pruning, every acquisition of every domain is serialised. */
  lemma FewDomainsAlwaysSerialised(cfg: Config, es: seq<Event>, d: string)
    requires 1 <= cfg.maxDomains && |Touched(es)| <= cfg.maxDomains
    requires forall e <- es :: !e.Prune?
    ensures Grants(cfg, Empty(), es, d) == Serialised(Arrivals(es, d), cfg.delayMs)
  {
    forall n | 0 <= n <= |es| && Arrivals(es[..n], d) != [] ensures d in Run(cfg, Empty(), es[..n]).vals {
      TouchedPrefix(es, n);
      SubsetSize(Touched(es[..n]), Touched(es));
      AllTracked(cfg, es[..n], d);
    }
    GrantsAreSerialised(cfg, Empty(), es, d);
  }

  /** So two requests to one domain are never let through closer together than the delay, in arrival order. */
  lemma SpacingHolds(cfg: Config, es: seq<Event>, d: string, i: nat, j: nat)
    requires 1 <= cfg.maxDomains && |Touched(es)| <= cfg.maxDomains
    requires forall e <- es :: !e.Prune?
    requires i < j < |Arrivals(es, d)|
    ensures var g := Grants(cfg, Empty(), es, d);
            |g| == |Arrivals(es, d)| && g[i] + (j - i) * cfg.delayMs <= g[j] && Arrivals(es, d)[j] + cfg.delayMs <= g[j]
  {
    FewDomainsAlwaysSerialised(cfg, es, d);
    SerialisedSpacing(Arrivals(es, d), cfg.delayMs, i, j);
  }

  lemma {:induction false} TouchedPrefix(es: seq<Event>, n: nat)
    requires n <= |es|
    ensures Touched(es[..n]) <= Touched(es)
    decreases |es| - n
  {
    if n < |es| {
      assert es[..n + 1][..n] == es[..n];
      TouchedPrefix(es, n + 1);
    } else {
      assert es[..n] == es;
    }
  }

  lemma {:induction false} AllTracked(cfg: Config, es: seq<Event>, d: string)
    requires 1 <= cfg.maxDomains && |Touched(es)| <= cfg.maxDomains
    requires forall e <- es :: !e.Prune?
    requires Arrivals(es, d) != []
    ensures Resident(Run(cfg, Empty(), es), d, Touched(es)) && d in Touched(es)
    ensures Good(cfg.maxDomains, Run(cfg, Empty(), es))
  {
    var pre, e := es[..|es| - 1], es[|es| - 1];
    RunGood(cfg, Empty(), pre);
    var s := Run(cfg, Empty(), pre);
    AfterGood(cfg, s, e);
    if e.Acquire? && e.domain == d {
      AcquiredGood(cfg, s, d, e.now);
    } else {
      SubsetSize(Touched(pre), Touched(es));
      AllTracked(cfg, pre, d);
      SmallerWithout(Touched(es), d);
      ResidentAfter(cfg, s, d, Touched(pre), e);
    }
  }

  lemma SmallerWithout(s: set<string>, d: string)
    requires d in s
    ensures |s - {d}| < |s|
  {
    assert s == (s - {d}) + {d};
  }

  // ---------------------------------------------------------------- spacing when domains are dropped

  /** Times never decrease. */
  ghost predicate Clocked(es: seq<Event>) {
    forall i, j :: 0 <= i < j < |es| ==> es[i].now <= es[j].now
  }

  ghost predicate Spaced(g: seq<int>, delay: nat) {
    forall i, j :: 0 <= i < j < |g| ==> g[i] + (j - i) * delay <= g[j]
  }

  /** If the event drops the domain, the next grant of its queue would have been due by then. */
  ghost predicate HarmlessDrop(cfg: Config, m: Domains, d: string, e: Event) {
    Lookup(m.vals, d).Some? && d !in After(cfg, m, e).vals ==> m.vals[d].value.chain + cfg.delayMs <= e.now
  }

  ghost predicate DropsAreHarmless(cfg: Config, es: seq<Event>, d: string) {
    es == [] ||
    var pre, e := es[..|es| - 1], es[|es| - 1];
    DropsAreHarmless(cfg, pre, d) && HarmlessDrop(cfg, Run(cfg, Empty(), pre), d, e)
  }

  /** The grants so far, and where the next one may come from: the chain, or a clock that has passed it. */
  ghost predicate Paced(m: Domains, d: string, g: seq<int>, delay: nat, clock: int) {
    && Spaced(g, delay)
    && (g == [] ==> d !in m.vals)
    && (g != [] ==> if d in m.vals then ChainIs(m, d, g[|g| - 1]) else g[|g| - 1] + delay <= clock)
  }

  lemma SpacedSnoc(g: seq<int>, delay: nat, x: int)
    requires Spaced(g, delay) && (g != [] ==> g[|g| - 1] + delay <= x)
    ensures Spaced(g + [x], delay)
  {
    forall i | 0 <= i < |g| ensures g[i] + (|g| - i) * delay <= x {
      assert (|g| - i) * delay == (|g| - 1 - i) * delay + delay;
    }
  }

  lemma PacedAfter(cfg: Config, m: Domains, d: string, g: seq<int>, clock: int, e: Event)
    requires Good(cfg.maxDomains, m) && Paced(m, d, g, cfg.delayMs, clock) && clock <= e.now
             && HarmlessDrop(cfg, m, d, e)
    ensures var g' := g + (if e.Acquire? && e.domain == d then [Grant(cfg, m, d, e.now)] else []);
            Paced(After(cfg, m, e), d, g', cfg.delayMs, e.now)
  {
    if e.Acquire? && e.domain == d {
      AcquiredGood(cfg, m, d, e.now);
      SpacedSnoc(g, cfg.delayMs, Grant(cfg, m, d, e.now));
    } else {
      assert g + [] == g;
      if d in m.vals {
        if d in After(cfg, m, e).vals { ChainKept(cfg, m, d, g[|g| - 1], e); }
      } else {
        NotAdded(cfg, m, d, e);
      }
    }
  }

  lemma ClockedSnoc(es: seq<Event>, e: Event)
    requires Clocked(es) && (es != [] ==> es[|es| - 1].now <= e.now)
    ensures Clocked(es + [e])
  {
    forall i | 0 <= i < |es| ensures es[i].now <= e.now {
      assert i == |es| - 1 || es[i].now <= es[|es| - 1].now;
    }
  }

  lemma ClockedFront(es: seq<Event>, e: Event)
    requires Clocked(es + [e])
    ensures Clocked(es) && forall x <- es :: x.now <= e.now
  {
    var all := es + [e];
    forall i | 0 <= i < |es| ensures es[i].now <= e.now { assert all[i] == es[i] && all[|es|] == e; }
    forall i, j | 0 <= i < j < |es| ensures es[i].now <= es[j].now { assert all[i] == es[i] && all[j] == es[j]; }
  }

  lemma DropsFront(cfg: Config, pre: seq<Event>, d: string, e: Event)
    requires DropsAreHarmless(cfg, pre + [e], d)
    ensures DropsAreHarmless(cfg, pre, d) && HarmlessDrop(cfg, Run(cfg, Empty(), pre), d, e)
  {
    assert (pre + [e])[..|pre|] == pre;
  }

  lemma {:induction false} PacedRun(cfg: Config, es: seq<Event>, d: string, clock: int)
    requires 1 <= cfg.maxDomains && Clocked(es) && DropsAreHarmless(cfg, es, d)
    requires forall e <- es :: e.now <= clock
    ensures Good(cfg.maxDomains, Run(cfg, Empty(), es))
    ensures Paced(Run(cfg, Empty(), es), d, Grants(cfg, Empty(), es, d), cfg.delayMs, clock)
  {
    if es != [] {
      var pre, e := es[..|es| - 1], es[|es| - 1];
      assert es == pre + [e];
      DropsFront(cfg, pre, d, e);
      ClockedFront(pre, e);
      PacedRun(cfg, pre, d, e.now);
      PacedOneMore(cfg, pre, d, e);
      PacedLater(Run(cfg, Empty(), es), d, Grants(cfg, Empty(), es, d), cfg.delayMs, e.now, clock);
    }
  }

  lemma PacedOneMore(cfg: Config, pre: seq<Event>, d: string, e: Event)
    requires Good(cfg.maxDomains, Run(cfg, Empty(), pre)) && HarmlessDrop(cfg, Run(cfg, Empty(), pre), d, e)
    requires Paced(Run(cfg, Empty(), pre), d, Grants(cfg, Empty(), pre, d), cfg.delayMs, e.now)
    ensures Good(cfg.maxDomains, Run(cfg, Empty(), pre + [e]))
    ensures Paced(Run(cfg, Empty(), pre + [e]), d, Grants(cfg, Empty(), pre + [e], d), cfg.delayMs, e.now)
  {
    OneMore(cfg, Empty(), pre, e, d);
    PacedAfter(cfg, Run(cfg, Empty(), pre), d, Grants(cfg, Empty(), pre, d), e.now, e);
    AfterGood(cfg, Run(cfg, Empty(), pre), e);
  }

  lemma PacedLater(m: Domains, d: string, g: seq<int>, delay: nat, clock: int, later: int)
    requires Paced(m, d, g, delay, clock) && clock <= later
    ensures Paced(m, d, g, delay, later)
  {}

  /** Whatever is evicted or pruned, grants keep their distance if every drop is harmless. */
  lemma SpacingSurvivesDrops(cfg: Config, es: seq<Event>, d: string)
    requires 1 <= cfg.maxDomains && Clocked(es) && DropsAreHarmless(cfg, es, d)
    ensures Spaced(Grants(cfg, Empty(), es, d), cfg.delayMs)
  {
    PacedRun(cfg, es, d, if es == [] then 0 else es[|es| - 1].now);
  }

  lemma DropsSnoc(cfg: Config, es: seq<Event>, d: string, e: Event)
    requires DropsAreHarmless(cfg, es, d) && HarmlessDrop(cfg, Run(cfg, Empty(), es), d, e)
    ensures DropsAreHarmless(cfg, es + [e], d)
  {
    assert (es + [e])[..|es|] == es;
  }

  /** The two next events: something that may drop the domain, and a request for it. */
  function ThenAcquire(es: seq<Event>, e: Event, d: string, now: int): seq<Event> {
    es + [e] + [Event.Acquire(d, now)]
  }

  /**
   And only then: after any run whose drops were harmless, an event keeps every later request at its distance if and
   only if it does not drop the domain while its queue is ahead of the clock.
   */
  lemma DropIsHarmlessIff(cfg: Config, es: seq<Event>, d: string, e: Event)
    requires 1 <= cfg.maxDomains && Clocked(es + [e]) && DropsAreHarmless(cfg, es, d) && !(e.Acquire? && e.domain == d)
    ensures HarmlessDrop(cfg, Run(cfg, Empty(), es), d, e) <==>
            forall now :: e.now <= now ==> Spaced(Grants(cfg, Empty(), ThenAcquire(es, e, d, now), d), cfg.delayMs)
  {
    var m := Run(cfg, Empty(), es);
    ClockedFront(es, e);
    PacedRun(cfg, es, d, e.now);
    if HarmlessDrop(cfg, m, d, e) {
      forall now | e.now <= now ensures Spaced(Grants(cfg, Empty(), ThenAcquire(es, e, d, now), d), cfg.delayMs) {
        HarmlessThenSpaced(cfg, es, d, e, now);
      }
    } else {
      HarmfulDrop(cfg, es, d, e);
    }
  }

  lemma AcquireDropsNothing(cfg: Config, m: Domains, d: string, now: int)
    requires Good(cfg.maxDomains, m)
    ensures HarmlessDrop(cfg, m, d, Event.Acquire(d, now))
  {
    AcquiredGood(cfg, m, d, now);
  }

  lemma AcquireKeepsSpacing(cfg: Config, es: seq<Event>, d: string, now: int)
    requires 1 <= cfg.maxDomains && Clocked(es) && (es != [] ==> es[|es| - 1].now <= now)
    requires DropsAreHarmless(cfg, es, d)
    ensures Spaced(Grants(cfg, Empty(), es + [Event.Acquire(d, now)], d), cfg.delayMs)
  {
    var a := Event.Acquire(d, now);
    ClockedSnoc(es, a);
    RunGood(cfg, Empty(), es);
    AcquireDropsNothing(cfg, Run(cfg, Empty(), es), d, now);
    DropsSnoc(cfg, es, d, a);
    SpacingSurvivesDrops(cfg, es + [a], d);
  }

  lemma HarmlessThenSpaced(cfg: Config, es: seq<Event>, d: string, e: Event, now: int)
    requires 1 <= cfg.maxDomains && Clocked(es + [e]) && e.now <= now
    requires DropsAreHarmless(cfg, es, d) && HarmlessDrop(cfg, Run(cfg, Empty(), es), d, e)
    ensures Spaced(Grants(cfg, Empty(), ThenAcquire(es, e, d, now), d), cfg.delayMs)
  {
    DropsSnoc(cfg, es, d, e);
    AcquireKeepsSpacing(cfg, es + [e], d, now);
  }

  /** After a harmful drop, a request that comes at once is let through too early. */
  lemma HarmfulDrop(cfg: Config, es: seq<Event>, d: string, e: Event)
    requires !(e.Acquire? && e.domain == d) && !HarmlessDrop(cfg, Run(cfg, Empty(), es), d, e)
    requires Paced(Run(cfg, Empty(), es), d, Grants(cfg, Empty(), es, d), cfg.delayMs, e.now)
    ensures !Spaced(Grants(cfg, Empty(), ThenAcquire(es, e, d, e.now), d), cfg.delayMs)
  {
    var g := Grants(cfg, Empty(), es, d);
    OneMore(cfg, Empty(), es, e, d);
    OneMore(cfg, Empty(), es + [e], Event.Acquire(d, e.now), d);
    assert g + [] == g;
    var g' := Grants(cfg, Empty(), ThenAcquire(es, e, d, e.now), d);
    assert g' == g + [e.now];
    assert g'[|g| - 1] + 1 * cfg.delayMs > g'[|g|];
  }

  /** A prune drops a domain harmlessly if and only if it was accessed lately or its queue is no longer ahead. */
  lemma PruneIsHarmlessIff(cfg: Config, m: Domains, d: string, now: int)
    requires Lookup(m.vals, d).Some?
    ensures HarmlessDrop(cfg, m, d, Prune(now)) <==>
            var e := m.vals[d].value; now - cfg.staleThresholdMs <= e.lastAccess || e.chain + cfg.delayMs <= now
  {}

  /**
   An acquisition evicts a tracked domain exactly if it is for an untracked one, the map is full, and d is the
   oldest.
   */
  lemma EvictsIff(cfg: Config, m: Domains, d: string, j: string, now: int)
    requires Good(cfg.maxDomains, m) && d in m.vals && j != d
    ensures m.keys != []
    ensures d !in After(cfg, m, Event.Acquire(j, now)).vals <==>
            j !in m.vals && cfg.maxDomains <= m.Size() && m.keys[0] == d
  {
    assert d in Elems(m.keys);
    var get := Op<string, DomainEntry>.Get(j);
    var looked := Step(cfg.maxDomains, m, get);
    StepGood(cfg.maxDomains, m, get);
    if Lookup(m.vals, j).Some? { RefreshGood(m, j, m.vals[j]); }
    DeleteValid(looked, j);
    if j !in m.vals {
      NothingDeleted(m, j);
      DeleteValid(m, m.keys[0]);
    }
  }

  lemma NothingDeleted(m: Domains, j: string)
    requires m.Valid() && j !in m.vals
    ensures m.Delete(j) == m
  {
    DeleteValid(m, j);
    RestrictAll(m.keys, m.vals.Keys - {j});
    assert m.vals - {j} == m.vals;
  }

  /** Before an event: it will not drop the domain, or the next grant of its queue is due. */
  predicate NoEarlyDrop(cfg: Config, m: Domains, d: string, e: Event)
    requires Lookup(m.vals, d).Some?
  {
    var entry := m.vals[d].value;
    match e
    case Acquire(j, now) =>
      j == d || j in m.vals || m.Size() < cfg.maxDomains || m.keys == [] || m.keys[0] != d
          || entry.chain + cfg.delayMs <= now
    case Release(_, _) => true
    case Prune(now) => now - cfg.staleThresholdMs <= entry.lastAccess || entry.chain + cfg.delayMs <= now
  }

  /** Whether an event drops a tracked domain too early can be told before it, for evictions and prunes alike. */
  lemma EarlyDropIff(cfg: Config, m: Domains, d: string, e: Event)
    requires Good(cfg.maxDomains, m) && Lookup(m.vals, d).Some?
    ensures HarmlessDrop(cfg, m, d, e) <==> NoEarlyDrop(cfg, m, d, e)
  {
    match e
    case Acquire(j, now) =>
      if j == d { AcquireDropsNothing(cfg, m, d, now); } else { EvictsIff(cfg, m, d, j, now); }
    case Release(j, now) =>
      if Lookup(m.vals, j).Some? { RefreshGood(m, j, m.vals[j]); }
    case Prune(now) => PruneIsHarmlessIff(cfg, m, d, now);
  }

  /** A queue that is at most the threshold ahead of its last access, next pause included, is never pruned too early. */
  lemma ShortQueueIsPrunedHarmlessly(cfg: Config, m: Domains, d: string, now: int)
    requires Lookup(m.vals, d).Some?
    requires m.vals[d].value.chain + cfg.delayMs <= m.vals[d].value.lastAccess + cfg.staleThresholdMs
    ensures HarmlessDrop(cfg, m, d, Prune(now))
  {}

  ghost predicate PrunesAreHarmless(cfg: Config, es: seq<Event>, d: string) {
    es == [] ||
    var pre, e := es[..|es| - 1], es[|es| - 1];
    PrunesAreHarmless(cfg, pre, d) && (e.Prune? ==> HarmlessDrop(cfg, Run(cfg, Empty(), pre), d, e))
  }

  lemma {:induction false} TrackedAreTouched(cfg: Config, es: seq<Event>)
    requires 1 <= cfg.maxDomains
    ensures Run(cfg, Empty(), es).vals.Keys <= Touched(es)
  {
    if es != [] {
      var pre, e := es[..|es| - 1], es[|es| - 1];
      TrackedAreTouched(cfg, pre);
      RunGood(cfg, Empty(), pre);
      forall d | d in Run(cfg, Empty(), es).vals.Keys ensures d in Touched(es) {
        if !(e.Acquire? && e.domain == d) && d !in Run(cfg, Empty(), pre).vals {
          NotAdded(cfg, Run(cfg, Empty(), pre), d, e);
        }
      }
    }
  }

  /** With room for one domain more, nothing but a prune drops one. */
  lemma OnlyPrunesDrop(cfg: Config, m: Domains, d: string, e: Event)
    requires Good(cfg.maxDomains, m) && d in m.vals && !e.Prune?
    requires e.domain in m.vals || m.Size() < cfg.maxDomains
    ensures d in After(cfg, m, e).vals
  {
    var j := e.domain;
    var get := Op<string, DomainEntry>.Get(j);
    var looked := Step(cfg.maxDomains, m, get);
    StepGood(cfg.maxDomains, m, get);
    if Lookup(m.vals, j).Some? { RefreshGood(m, j, m.vals[j]); }
    DeleteValid(looked, j);
    MakeRoomGood(cfg.maxDomains, looked.Delete(j));
  }

  lemma {:induction false} OnlyPrunesMatter(cfg: Config, es: seq<Event>, d: string)
    requires 1 <= cfg.maxDomains && |Touched(es)| <= cfg.maxDomains && PrunesAreHarmless(cfg, es, d)
    ensures DropsAreHarmless(cfg, es, d)
  {
    if es != [] {
      var pre, e := es[..|es| - 1], es[|es| - 1];
      SubsetSize(Touched(pre), Touched(es));
      OnlyPrunesMatter(cfg, pre, d);
      var m := Run(cfg, Empty(), pre);
      if !e.Prune? && d in m.vals {
        RoomForTouched(cfg, pre, e.domain, Touched(es));
        OnlyPrunesDrop(cfg, m, d, e);
      }
    }
  }

  lemma RoomForTouched(cfg: Config, pre: seq<Event>, j: string, touched: set<string>)
    requires 1 <= cfg.maxDomains && Touched(pre) <= touched && j in touched && |touched| <= cfg.maxDomains
    ensures var m := Run(cfg, Empty(), pre);
            Good(cfg.maxDomains, m) && (j in m.vals || m.Size() < cfg.maxDomains)
  {
    var m := Run(cfg, Empty(), pre);
    RunGood(cfg, Empty(), pre);
    TrackedAreTouched(cfg, pre);
    if j !in m.vals {
      SizeIsCardinality(m);
      SmallerWithout(touched, j);
      SubsetSize(m.vals.Keys, touched - {j});
      assert |m.vals| == |m.vals.Keys|;
    }
  }

  /** So with few domains grants keep their distance under pruning too, if every prune is harmless. */
  lemma SpacingHoldsUnderPruning(cfg: Config, es: seq<Event>, d: string)
    requires 1 <= cfg.maxDomains && |Touched(es)| <= cfg.maxDomains
    requires Clocked(es) && PrunesAreHarmless(cfg, es, d)
    ensures Spaced(Grants(cfg, Empty(), es, d), cfg.delayMs)
  {
    OnlyPrunesMatter(cfg, es, d);
    SpacingSurvivesDrops(cfg, es, d);
  }

  /** `n` requests for one domain at time 0. */
  function Rush(d: string, n: nat): seq<Event> {
    if n == 0 then [] else Rush(d, n - 1) + [Event.Acquire(d, 0)]
  }

  lemma {:induction false} RushIs(d: string, n: nat)
    ensures |Rush(d, n)| == n && forall e <- Rush(d, n) :: e == Event.Acquire(d, 0)
    ensures Touched(Rush(d, n)) == if n == 0 then {} else {d}
  {
    if n > 0 {
      RushIs(d, n - 1);
      TouchedSnoc(Rush(d, n - 1), Event.Acquire(d, 0));
    }
  }

  lemma TouchedSnoc(es: seq<Event>, e: Event)
    ensures Touched(es + [e]) == Touched(es) + (if e.Prune? then {} else {e.domain})
  {
    assert (es + [e])[..|es|] == es;
  }

  /** When the last of `n` requests that arrive at time 0 is let through. */
  function Queued(delay: nat, n: nat): nat {
    if n <= 1 then 0 else Queued(delay, n - 1) + delay
  }

  lemma {:induction false} QueuedGrows(delay: nat, n: nat)
    requires 1 <= delay && 1 <= n
    ensures n - 1 <= Queued(delay, n)
  {
    if n > 1 { QueuedGrows(delay, n - 1); }
  }

  lemma QueuesOneMore(cfg: Config, m: Domains, d: string, queued: int)
    requires Good(cfg.maxDomains, m)
    requires if d in m.vals then m.vals[d] == Some(DomainEntry(queued - cfg.delayMs, 0)) && cfg.delayMs <= queued
             else queued == 0
    ensures var m' := After(cfg, m, Event.Acquire(d, 0));
            Good(cfg.maxDomains, m') && d in m'.vals && m'.vals[d] == Some(DomainEntry(queued, 0))
  {
    AcquiredGood(cfg, m, d, 0);
  }

  lemma {:induction false} RushQueues(cfg: Config, d: string, n: nat)
    requires 1 <= cfg.maxDomains && 1 <= n
    ensures var m := Run(cfg, Empty(), Rush(d, n));
            Good(cfg.maxDomains, m) && d in m.vals && m.vals[d] == Some(DomainEntry(Queued(cfg.delayMs, n), 0))
  {
    if n > 1 { RushQueues(cfg, d, n - 1); }
    RushStep(cfg, d, n, Run(cfg, Empty(), Rush(d, n - 1)));
  }

  lemma RushStep(cfg: Config, d: string, n: nat, before: Domains)
    requires 1 <= cfg.maxDomains && 1 <= n && before == Run(cfg, Empty(), Rush(d, n - 1))
    requires 1 < n ==> Good(cfg.maxDomains, before) && d in before.vals
    requires 1 < n ==> before.vals[d] == Some(DomainEntry(Queued(cfg.delayMs, n - 1), 0))
    ensures var m := Run(cfg, Empty(), Rush(d, n));
            Good(cfg.maxDomains, m) && d in m.vals && m.vals[d] == Some(DomainEntry(Queued(cfg.delayMs, n), 0))
  {
    OneMore(cfg, Empty(), Rush(d, n - 1), Event.Acquire(d, 0), d);
    QueuesOneMore(cfg, before, d, Queued(cfg.delayMs, n));
  }

  lemma {:induction false} RushDropsNothing(cfg: Config, d: string, n: nat)
    requires 1 <= cfg.maxDomains
    ensures DropsAreHarmless(cfg, Rush(d, n), d)
  {
    if n > 0 {
      RushDropsNothing(cfg, d, n - 1);
      AcquireIsHarmless(cfg, Rush(d, n - 1), d);
    }
  }

  lemma AcquireIsHarmless(cfg: Config, es: seq<Event>, d: string)
    requires 1 <= cfg.maxDomains && DropsAreHarmless(cfg, es, d)
    ensures DropsAreHarmless(cfg, es + [Event.Acquire(d, 0)], d)
  {
    RunGood(cfg, Empty(), es);
    AcquireDropsNothing(cfg, Run(cfg, Empty(), es), d, 0);
    DropsSnoc(cfg, es, d, Event.Acquire(d, 0));
  }

  /** Pruned while its queue is ahead of the clock. */
  lemma RushIsPrunedEarly(cfg: Config, d: string, n: nat, p: int)
    requires 1 <= cfg.maxDomains && 1 <= n && cfg.staleThresholdMs < p < Queued(cfg.delayMs, n) + cfg.delayMs
    ensures !HarmlessDrop(cfg, Run(cfg, Empty(), Rush(d, n)), d, Prune(p))
  {
    RushQueues(cfg, d, n);
    PruneIsHarmlessIff(cfg, Run(cfg, Empty(), Rush(d, n)), d, p);
  }

  lemma RushThenPrune(d: string, n: nat, p: nat)
    requires 1 <= n
    ensures Clocked(Rush(d, n)) && (forall e <- Rush(d, n) :: e.now <= p)
    ensures Clocked(ThenAcquire(Rush(d, n), Prune(p), d, p)) && Touched(ThenAcquire(Rush(d, n), Prune(p), d, p)) == {d}
  {
    RushIs(d, n);
    var rush := Rush(d, n);
    forall i | 0 <= i < |rush| ensures rush[i].now == 0 { assert rush[i] in rush; }
    ClockedSnoc(rush, Prune(p));
    ClockedSnoc(rush + [Prune(p)], Event.Acquire(d, p));
    TouchedSnoc(rush, Prune(p));
    TouchedSnoc(rush + [Prune(p)], Event.Acquire(d, p));
  }

  /**
   Pruning can break the distance under every configuration with a delay: enough requests queue up, and stale is
   pruned.
   */
  lemma PrunedDomainJumpsItsQueue(cfg: Config, d: string)
    requires 1 <= cfg.maxDomains && 0 < cfg.delayMs && 0 <= cfg.staleThresholdMs
    ensures exists es :: Clocked(es) && Touched(es) == {d} && !Spaced(Grants(cfg, Empty(), es, d), cfg.delayMs)
  {
    var n, p := cfg.staleThresholdMs + 2, cfg.staleThresholdMs + 1;
    QueuedGrows(cfg.delayMs, n);
    RushThenPrune(d, n, p);
    RushDropsNothing(cfg, d, n);
    RushIsPrunedEarly(cfg, d, n, p);
    PacedRun(cfg, Rush(d, n), d, p);
    HarmfulDrop(cfg, Rush(d, n), d, Prune(p));
  }

  // ---------------------------------------------------------------- pruning, entry by entry

  /** What is left after the first `i` entries were visited. */
  ghost function Survivors(m: Domains, cutoff: int, i: nat): set<string>
    requires i <= |m.keys|
  {
    m.vals.Keys - (set d | d in m.keys[..i] && d in m.vals && d !in Fresh(m, cutoff))
  }

  ghost function PrunedPart(m: Domains, cutoff: int, i: nat): Domains
    requires i <= |m.keys|
  {
    OrderedMap(Restrict(m.keys, Survivors(m, cutoff, i)), map d | d in Survivors(m, cutoff, i) :: m.vals[d])
  }

  lemma PruneNone(m: Domains, cutoff: int)
    requires m.Valid()
    ensures PrunedPart(m, cutoff, 0) == m
  {
    assert Survivors(m, cutoff, 0) == m.vals.Keys;
    RestrictAll(m.keys, m.vals.Keys);
  }

  lemma PruneOne(m: Domains, cutoff: int, i: nat)
    requires m.Valid() && i < |m.keys|
    ensures m.keys[i] in m.vals && m.keys[i] in PrunedPart(m, cutoff, i).vals
    ensures PrunedPart(m, cutoff, i).vals[m.keys[i]] == m.vals[m.keys[i]]
    ensures PrunedPart(m, cutoff, i + 1) ==
            if m.keys[i] in Fresh(m, cutoff) then PrunedPart(m, cutoff, i)
                else PrunedPart(m, cutoff, i).Delete(m.keys[i])
  {
    var k := m.keys[i];
    assert k in Elems(m.keys);
    assert k !in m.keys[..i];
    assert m.keys[..i + 1] == m.keys[..i] + [k];
    var before, after := Survivors(m, cutoff, i), Survivors(m, cutoff, i + 1);
    if k in Fresh(m, cutoff) {
      assert after == before;
    } else {
      assert after == before - {k};
      assert PrunedPart(m, cutoff, i).vals.Keys == before;
      assert PrunedPart(m, cutoff, i + 1).vals == PrunedPart(m, cutoff, i).vals - {k};
      RestrictTwice(m.keys, before, before - {k});
      assert before * (before - {k}) == before - {k};
    }
  }

  lemma PruneOneSize(m: Domains, cutoff: int, i: nat)
    requires m.Valid() && i < |m.keys| && PrunedPart(m, cutoff, i).Valid()
    ensures m.keys[i] in PrunedPart(m, cutoff, i).vals && PrunedPart(m, cutoff, i + 1).Valid()
    ensures |PrunedPart(m, cutoff, i + 1).keys| ==
            |PrunedPart(m, cutoff, i).keys| - (if m.keys[i] in Fresh(m, cutoff) then 0 else 1)
  {
    PruneOne(m, cutoff, i);
    DeleteValid(PrunedPart(m, cutoff, i), m.keys[i]);
  }

  lemma PruneAll(m: Domains, cutoff: int)
    requires m.Valid()
    ensures PrunedPart(m, cutoff, |m.keys|) == Pruned(m, cutoff)
  {
    assert m.keys[..|m.keys|] == m.keys;
    forall d | d in m.vals ensures d in m.keys { assert d in Elems(m.keys); }
    assert Survivors(m, cutoff, |m.keys|) == Fresh(m, cutoff);
  }

  // ---------------------------------------------------------------- the class

  class PolitenessController {
    const domains: LruMap<string, DomainEntry>
    const config: Config

    ghost predicate Valid()
      reads this, domains
    {
      domains.Valid() && domains.maxSize == config.maxDomains
    }

    /** As for the LRU map it owns, a controller that could track nothing is refused. */
    constructor (config: Config)
      requires 1 <= config.maxDomains
      ensures Valid() && fresh(domains) && domains.store == Empty() && this.config == config
    {
      this.config := config;
      domains := new LruMap<string, DomainEntry>(config.maxDomains);
    }

    /** Returns the instant at which the caller may proceed. */
    method Acquire(domain: string, now: int) returns (grantedAt: int)
      requires Valid()
      modifies domains
      ensures Valid() && domains.store == After(config, old(domains.store), Event.Acquire(domain, now))
      ensures grantedAt == Grant(config, old(domains.store), domain, now)
    {
      AfterGood(config, domains.store, Event.Acquire(domain, now));
      var existing := domains.Get(domain);
      if existing.None? {
        domains.Set(domain, Some(DomainEntry(now, now)));
        return now;
      }
      var prev := existing.value.chain;
      var next := (if prev < now then now else prev) + config.delayMs;
      domains.Set(domain, Some(DomainEntry(next, now)));
      return next;
    }

    method Release(domain: string, now: int)
      requires Valid()
      modifies domains
      ensures Valid() && domains.store == After(config, old(domains.store), Event.Release(domain, now))
    {
      AfterGood(config, domains.store, Event.Release(domain, now));
      var entry := domains.Get(domain);
      if entry.Some? {
        // the entry object is updated where it sits in the map
        domains.store := domains.store.Put(domain, Some(entry.value.(lastAccess := now)));
      }
    }

    method PruneStale(now: int) returns (pruned: nat)
      requires Valid()
      modifies domains
      ensures Valid() && domains.store == After(config, old(domains.store), Event.Prune(now))
      ensures pruned == |old(domains.store).keys| - |domains.store.keys|
    {
      var cutoff := now - config.staleThresholdMs;
      pruned := 0;
      ghost var m := domains.store;
      var visited := domains.store.keys;
      PruneNone(m, cutoff);
      for i := 0 to |visited|
        invariant domains.Valid() && domains.store == PrunedPart(m, cutoff, i)
        invariant pruned == |m.keys| - |domains.store.keys|
      {
        PruneOne(m, cutoff, i);
        PruneOneSize(m, cutoff, i);
        var entry := domains.store.vals[visited[i]];
        if entry.Some? && entry.value.lastAccess < cutoff {
          var _ := domains.Delete(visited[i]);
          pruned := pruned + 1;
        }
      }
      PruneAll(m, cutoff);
    }
  }
}
