/** When a domain was last touched, and so when pruning drops it. */
module PolitenessTouches {
  import opened Wrappers
  import opened OrderedMaps
  import opened LruMaps
  import opened Politeness

  predicate IsTouch(e: Politeness.Event, d: string) {
    !e.Prune? && e.domain == d
  }

  /** The instant of the last acquisition or release of `d`. */
  function LastTouch(es: seq<Politeness.Event>, d: string): Option<int> {
    if es == [] then None
    else if IsTouch(es[|es| - 1], d) then Some(es[|es| - 1].now)
    else LastTouch(es[..|es| - 1], d)
  }

  ghost predicate Stamped(m: Domains, d: string, touch: Option<int>) {
    d in m.vals ==> m.vals[d].Some? && touch == Some(m.vals[d].value.lastAccess)
  }

  lemma AcquiredStamps(cfg: Politeness.Config, m: Domains, d: string, j: string, now: int)
    requires Good(cfg.maxDomains, m) && j != d && d in Acquired(cfg, m, j, now).vals
    ensures d in m.vals && Acquired(cfg, m, j, now).vals[d] == m.vals[d]
  {
    var get := Op<string, DomainEntry>.Get(j);
    var looked := LruMaps.Step(cfg.maxDomains, m, get);
    StepGood(cfg.maxDomains, m, get);
    if Lookup(m.vals, j).Some? { RefreshGood(m, j, m.vals[j]); }
    DeleteValid(looked, j);
    MakeRoomGood(cfg.maxDomains, looked.Delete(j));
  }

  lemma ReleasedStamps(cfg: Politeness.Config, m: Domains, d: string, j: string, now: int)
    requires Good(cfg.maxDomains, m) && d in Released(cfg, m, j, now).vals
    ensures d in m.vals
    ensures Released(cfg, m, j, now).vals[d] ==
            if j == d && m.vals[d].Some? then Some(m.vals[d].value.(lastAccess := now)) else m.vals[d]
  {
    if Lookup(m.vals, j).Some? { RefreshGood(m, j, m.vals[j]); }
  }

  lemma StampedAfter(cfg: Politeness.Config, m: Domains, d: string, touch: Option<int>, e: Politeness.Event)
    requires Good(cfg.maxDomains, m) && Stamped(m, d, touch)
    ensures Stamped(Politeness.After(cfg, m, e), d, if IsTouch(e, d) then Some(e.now) else touch)
  {
    if d in Politeness.After(cfg, m, e).vals {
      match e
      case Acquire(j, now) => if j == d { AcquiredGood(cfg, m, d, now); } else { AcquiredStamps(cfg, m, d, j, now); }
      case Release(j, now) => ReleasedStamps(cfg, m, d, j, now);
      case Prune(_) =>
    }
  }

  /** A tracked domain remembers the last of its acquisitions and releases, whatever else happened. */
  lemma {:induction false} RemembersLastTouch(cfg: Politeness.Config, es: seq<Politeness.Event>, d: string)
    requires 1 <= cfg.maxDomains
    ensures Good(cfg.maxDomains, Politeness.Run(cfg, Empty(), es))
    ensures Stamped(Politeness.Run(cfg, Empty(), es), d, LastTouch(es, d))
  {
    Politeness.RunGood(cfg, Empty(), es);
    if es != [] {
      var pre := es[..|es| - 1];
      RemembersLastTouch(cfg, pre, d);
      StampedAfter(cfg, Politeness.Run(cfg, Empty(), pre), d, LastTouch(pre, d), es[|es| - 1]);
    }
  }

  /** So pruning keeps exactly the tracked domains acquired or released within the threshold, each as it was. */
  lemma PrunedIff(cfg: Politeness.Config, es: seq<Politeness.Event>, d: string, now: int)
    requires 1 <= cfg.maxDomains
    ensures var m := Politeness.Run(cfg, Empty(), es);
            var after := Politeness.Run(cfg, Empty(), es + [Politeness.Event.Prune(now)]);
            && (d in after.vals <==>
                  d in m.vals && LastTouch(es, d).Some? && now - LastTouch(es, d).value <= cfg.staleThresholdMs)
            && (d in after.vals ==> after.vals[d] == m.vals[d])
  {
    RemembersLastTouch(cfg, es, d);
    assert (es + [Politeness.Event.Prune(now)])[..|es|] == es;
  }
}
