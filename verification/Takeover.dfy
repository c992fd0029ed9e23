/**
 The standby's takeover on runs of the protocol, with any other coordinators polling, releasing and failing
 beside it.
 */
module LeaderTakeovers {
  import opened Wrappers
  import opened LeaderElections

  /** Nothing is left of the holder that could prolong or remove the lease. */
  predicate Untouched(s: State, step: Step) {
    !step.Renew? && !step.ReleaseDel?
  }

  /** A SET NX of the coordinator takes effect at time `t`. */
  predicate PolledAt(cfg: Config, s: State, steps: seq<Step>, id: Id, t: int)
    requires Runs(cfg, s, steps)
    decreases |steps|
  {
    steps != [] &&
    ((steps[0] == Acquire(id) && s.now == t) || PolledAt(cfg, After(cfg, s, steps[0]), steps[1..], id, t))
  }

  /** Somebody's SET NX, from one time on and before the other, finds the key dead and gets a lease of its own. */
  predicate NewLease(cfg: Config, s: State, steps: seq<Step>, from: int, until: int)
    requires Runs(cfg, s, steps)
    decreases |steps|
  {
    steps != [] &&
    var next := After(cfg, s, steps[0]);
    ((steps[0].Acquire? && from <= s.now < until && !Alive(s.cell, s.now) && Owns(next.cell, next.now, steps[0].id))
     || NewLease(cfg, next, steps[1..], from, until))
  }

  lemma {:induction false} NotBefore(cfg: Config, s: State, steps: seq<Step>, id: Id, t: int)
    requires Runs(cfg, s, steps) && PolledAt(cfg, s, steps, id, t)
    ensures s.now <= t
    decreases |steps|
  {
    if !(steps[0] == Acquire(id) && s.now == t) { NotBefore(cfg, After(cfg, s, steps[0]), steps[1..], id, t); }
  }

  lemma OtherSteps(cfg: Config, s: State, step: Step)
    requires Enabled(s, step) && Untouched(s, step) && !(step.Acquire? && !Alive(s.cell, s.now))
    ensures After(cfg, s, step).cell == s.cell
  {}

  /** A poll that lands after the expiry finds the key dead, unless somebody has taken it since. */
  lemma {:induction false} PollTakesOver(cfg: Config, s: State, steps: seq<Step>, lease: Lease, id: Id, t: int,
      until: int)
    requires 0 < cfg.ttl && Runs(cfg, s, steps) && Always(cfg, s, steps, Untouched) && s.cell == Some(lease)
    requires PolledAt(cfg, s, steps, id, t) && lease.expiresAt <= t < until
    ensures NewLease(cfg, s, steps, lease.expiresAt, until)
    decreases |steps|
  {
    NotBefore(cfg, s, steps, id, t);
    if !(steps[0].Acquire? && !Alive(s.cell, s.now)) {
      OtherSteps(cfg, s, steps[0]);
      PollTakesOver(cfg, After(cfg, s, steps[0]), steps[1..], lease, id, t, until);
    }
  }

  /** Every poll that falls into the run is a step of it. */
  ghost predicate Polled(cfg: Config, s: State, steps: seq<Step>, id: Id, lands: nat -> int)
    requires Runs(cfg, s, steps)
  {
    forall k: nat :: 1 <= k && s.now <= lands(k) < Final(cfg, s, steps).now ==> PolledAt(cfg, s, steps, id, lands(k))
  }

  /**
   Once a lease is neither renewed nor deleted, and as long as some coordinator polls, somebody holds a new lease
   less than one poll and one latency after the expiry.
   */
  lemma StandbyTakesOverInRuns(cfg: Config, s: State, steps: seq<Step>, lease: Lease, id: Id, poll: int, latency: int,
      startedAt: int, lands: nat -> int)
    requires 0 < cfg.ttl && Runs(cfg, s, steps) && Always(cfg, s, steps, Untouched)
    requires s.cell == Some(lease) && s.now <= lease.expiresAt
    requires 0 < poll && 0 <= latency && Polls(poll, latency, startedAt, lands) && startedAt + poll < lease.expiresAt
    requires Polled(cfg, s, steps, id, lands) && lease.expiresAt + poll + latency <= Final(cfg, s, steps).now
    ensures NewLease(cfg, s, steps, lease.expiresAt, lease.expiresAt + poll + latency)
  {
    var k := StandbyTakesOver(cfg.ttl, poll, latency, startedAt, lands, lease, id);
    PollTakesOver(cfg, s, steps, lease, id, lands(k), lease.expiresAt + poll + latency);
  }
}
