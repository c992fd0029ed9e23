/** Exactly when leader election is safe: the states, the steps, and the steps that keep the key's owner right. */
module LeaderExclusion {
  import opened Wrappers
  import opened LeaderElections

  /** A run with polite releases in which the lease never lapses while it matters. */
  predicate WellBehaved(cfg: Config, s: State, steps: seq<Step>) {
    Runs(cfg, s, steps) && Always(cfg, s, steps, Polite) && Always(cfg, s, steps, NoLapse)
  }

  ghost predicate StaysExclusive(cfg: Config, s: State) {
    forall steps :: WellBehaved(cfg, s, steps) ==> OneLeader(Final(cfg, s, steps))
  }

  // ---------------------------------------------------------------- reaching states

  ghost predicate Reaches(cfg: Config, s: State, t: State) {
    exists steps :: WellBehaved(cfg, s, steps) && Final(cfg, s, steps) == t
  }

  lemma {:induction false} Joined(cfg: Config, s: State, a: seq<Step>, b: seq<Step>)
    requires WellBehaved(cfg, s, a) && WellBehaved(cfg, Final(cfg, s, a), b)
    ensures WellBehaved(cfg, s, a + b) && Final(cfg, s, a + b) == Final(cfg, Final(cfg, s, a), b)
    decreases |a|
  {
    if a == [] {
      assert a + b == b;
    } else {
      assert (a + b)[1..] == a[1..] + b;
      Joined(cfg, After(cfg, s, a[0]), a[1..], b);
    }
  }

  lemma Onward(cfg: Config, s: State, t: State, u: State)
    requires Reaches(cfg, s, t) && Reaches(cfg, t, u)
    ensures Reaches(cfg, s, u)
  {
    var a :| WellBehaved(cfg, s, a) && Final(cfg, s, a) == t;
    var b :| WellBehaved(cfg, t, b) && Final(cfg, t, b) == u;
    Joined(cfg, s, a, b);
  }

  lemma Stay(cfg: Config, s: State)
    ensures Reaches(cfg, s, s)
  {
    assert WellBehaved(cfg, s, []) && Final(cfg, s, []) == s;
  }

  /** One polite step, no time passing. */
  lemma Take(cfg: Config, s: State, step: Step) returns (t: State)
    requires !step.Advance? && Enabled(s, step) && Polite(s, step)
    ensures t == After(cfg, s, step) && Reaches(cfg, s, t)
  {
    t := After(cfg, s, step);
    var steps := [step];
    assert steps[0] == step && steps[1..] == [];
    assert Runs(cfg, t, []) && Final(cfg, t, []) == t && Always(cfg, t, [], Polite) && Always(cfg, t, [], NoLapse);
    assert Runs(cfg, s, steps) && Final(cfg, s, steps) == t;
    assert Always(cfg, s, steps, Polite) && Always(cfg, s, steps, NoLapse);
    assert WellBehaved(cfg, s, steps);
  }

  lemma TakeFrom(cfg: Config, s: State, t: State, step: Step) returns (u: State)
    requires Reaches(cfg, s, t)
    requires !step.Advance? && Enabled(t, step) && Polite(t, step)
    ensures u == After(cfg, t, step) && Reaches(cfg, s, u)
  {
    u := Take(cfg, t, step);
    Onward(cfg, s, t, u);
  }

  /** What only one coordinator did. */
  predicate OnlyMoved(s: State, t: State, i: nat) {
    |s.cs| == |t.cs| && forall k :: 0 <= k < |s.cs| && k != i ==> t.cs[k] == s.cs[k]
  }

  /** A release under way can bring the key down, its coordinator renewing first where it does not own the key. */
  lemma BringKeyDown(cfg: Config, s: State, i: nat) returns (t: State)
    requires 0 < cfg.ttl && i < |s.cs| && 0 < s.cs[i].checking + s.cs[i].mine
    ensures Reaches(cfg, s, t) && OnlyMoved(s, t, i) && !Alive(t.cell, t.now)
    ensures t.cs[i].acquired == s.cs[i].acquired
    ensures t.cs[i].checking + t.cs[i].mine == s.cs[i].checking + s.cs[i].mine - 1
  {
    Stay(cfg, s);
    t := s;
    if t.cs[i].mine == 0 {
      t := TakeFrom(cfg, s, t, Renew(i));
      t := TakeFrom(cfg, s, t, ReleaseGet(i));
    }
    if 0 < t.cs[i].mine {
      t := TakeFrom(cfg, s, t, ReleaseDel(i));
    }
  }

  /** Releases under way can be run to their end. */
  lemma {:induction false} RunDown(cfg: Config, s: State, i: nat) returns (t: State)
    requires i < |s.cs|
    ensures Reaches(cfg, s, t) && OnlyMoved(s, t, i) && !t.cs[i].InRelease() && t.cs[i].acquired == s.cs[i].acquired
    decreases 3 * s.cs[i].checking + 2 * s.cs[i].mine + s.cs[i].finishing
  {
    var c := s.cs[i];
    if c.InRelease() {
      var step := if 0 < c.checking then ReleaseGet(i) else if 0 < c.mine then ReleaseDel(i) else ReleaseReply(i);
      var next := Take(cfg, s, step);
      t := RunDown(cfg, next, i);
      Onward(cfg, s, next, t);
    } else {
      Stay(cfg, s);
      t := s;
    }
  }

  /** A coordinator with an acquisition under way can come to lead. */
  lemma BringToLead(cfg: Config, s: State, i: nat) returns (t: State)
    requires i < |s.cs| && 0 < s.cs[i].acquired
    ensures Reaches(cfg, s, t) && OnlyMoved(s, t, i) && t.cs[i].Leads() && t.cs[i].acquired == s.cs[i].acquired - 1
  {
    t := RunDown(cfg, s, i);
    t := TakeFrom(cfg, s, t, AcquireReply(i, true));
  }

  // ---------------------------------------------------------------- what dooms a state

  /** Some well-behaved run ends with two leaders. */
  ghost predicate Doomed(cfg: Config, s: State) {
    exists t :: Reaches(cfg, s, t) && !OneLeader(t)
  }

  lemma DoomedBefore(cfg: Config, s: State, t: State)
    requires Reaches(cfg, s, t) && Doomed(cfg, t)
    ensures Doomed(cfg, s)
  {
    var u :| Reaches(cfg, t, u) && !OneLeader(u);
    Onward(cfg, s, t, u);
  }

  lemma BothLead(cfg: Config, s: State, i: nat, j: nat)
    requires i < |s.cs| && j < |s.cs| && i != j && s.cs[i].Leads() && s.cs[j].Leads()
    ensures Doomed(cfg, s)
  {
    Stay(cfg, s);
    var a, b := if i < j then i else j, if i < j then j else i;
    assert s.cs[a].Leads() && s.cs[b].Leads();
  }

  lemma LeaderAndAcquiring(cfg: Config, s: State, i: nat, j: nat)
    requires i < |s.cs| && j < |s.cs| && i != j && s.cs[i].Leads() && 0 < s.cs[j].acquired
    ensures Doomed(cfg, s)
  {
    var t := BringToLead(cfg, s, j);
    BothLead(cfg, t, i, j);
    DoomedBefore(cfg, s, t);
  }

  lemma LeaderOverDeadKey(cfg: Config, s: State, i: nat, j: nat)
    requires i < |s.cs| && j < |s.cs| && i != j && s.cs[i].Leads() && !Alive(s.cell, s.now)
    ensures Doomed(cfg, s)
  {
    var t := Take(cfg, s, Acquire(j));
    LeaderAndAcquiring(cfg, t, i, j);
    DoomedBefore(cfg, s, t);
  }

  lemma LeaderAndExposed(cfg: Config, s: State, i: nat, j: nat)
    requires 0 < cfg.ttl && i < |s.cs| && j < |s.cs| && i != j && s.cs[i].Leads() && s.cs[j].Exposed()
    ensures Doomed(cfg, s)
  {
    if s.cs[j].Leads() {
      BothLead(cfg, s, i, j);
    } else if 0 < s.cs[j].acquired {
      LeaderAndAcquiring(cfg, s, i, j);
    } else {
      var t := BringKeyDown(cfg, s, j);
      LeaderOverDeadKey(cfg, t, i, j);
      DoomedBefore(cfg, s, t);
    }
  }

  lemma AcquiringAndExposed(cfg: Config, s: State, i: nat, j: nat)
    requires 0 < cfg.ttl && i < |s.cs| && j < |s.cs| && i != j && 0 < s.cs[i].acquired && s.cs[j].Exposed()
    ensures Doomed(cfg, s)
  {
    var t := BringToLead(cfg, s, i);
    LeaderAndExposed(cfg, t, i, j);
    DoomedBefore(cfg, s, t);
  }

  lemma TwoExposed(cfg: Config, s: State, i: nat, j: nat)
    requires 0 < cfg.ttl && i < |s.cs| && j < |s.cs| && i != j && s.cs[i].Exposed() && s.cs[j].Exposed()
    ensures Doomed(cfg, s)
  {
    if s.cs[i].Leads() {
      LeaderAndExposed(cfg, s, i, j);
    } else if 0 < s.cs[i].acquired {
      AcquiringAndExposed(cfg, s, i, j);
    } else {
      var t := BringKeyDown(cfg, s, i);
      t := TakeFrom(cfg, s, t, Acquire(i));
      AcquiringAndExposed(cfg, t, i, j);
      DoomedBefore(cfg, s, t);
    }
  }

  /** The lease matters to somebody, and the key is dead: anybody else can take it. */
  lemma ExposedOverDeadKey(cfg: Config, s: State, i: nat)
    requires 0 < cfg.ttl && i < |s.cs| && 2 <= |s.cs| && s.cs[i].Exposed() && !Alive(s.cell, s.now)
    ensures Doomed(cfg, s)
  {
    var j := if i == 0 then 1 else 0;
    var t := Take(cfg, s, Acquire(j));
    AcquiringAndExposed(cfg, t, j, i);
    DoomedBefore(cfg, s, t);
  }

  /** A release and anything else to which the lease matters: the release brings the key down beneath it. */
  lemma ReleaseBeside(cfg: Config, s: State, i: nat)
    requires 0 < cfg.ttl && i < |s.cs| && 2 <= |s.cs|
    requires 0 < s.cs[i].checking + s.cs[i].mine && 1 < s.cs[i].checking + s.cs[i].mine + s.cs[i].acquired
    ensures Doomed(cfg, s)
  {
    var t := BringKeyDown(cfg, s, i);
    ExposedOverDeadKey(cfg, t, i);
    DoomedBefore(cfg, s, t);
  }

  lemma LeadsAndAcquiring(cfg: Config, s: State, i: nat)
    requires 0 < cfg.ttl && i < |s.cs| && 2 <= |s.cs| && s.cs[i].Leads() && 0 < s.cs[i].acquired
    ensures Doomed(cfg, s)
  {
    var t := Take(cfg, s, ReleaseCall(i));
    ReleaseBeside(cfg, t, i);
    DoomedBefore(cfg, s, t);
  }

  lemma Untidy(cfg: Config, s: State, i: nat)
    requires 0 < cfg.ttl && i < |s.cs| && 2 <= |s.cs| && !Tidy(s.cs[i])
    ensures Doomed(cfg, s)
  {
    var c := s.cs[i];
    if 0 < c.checking + c.mine {
      ReleaseBeside(cfg, s, i);
    } else if c.Leads() {
      LeadsAndAcquiring(cfg, s, i);
    } else {
      var t := BringToLead(cfg, s, i);
      LeadsAndAcquiring(cfg, t, i);
      DoomedBefore(cfg, s, t);
    }
  }

  lemma UnsafeIsDoomed(cfg: Config, s: State)
    requires 0 < cfg.ttl && 2 <= |s.cs| && !Safe(s)
    ensures Doomed(cfg, s)
  {
    if c :| c in s.cs && !Tidy(c) {
      var i :| 0 <= i < |s.cs| && s.cs[i] == c;
      Untidy(cfg, s, i);
    } else if i :| 0 <= i < |s.cs| && s.cs[i].Exposed() && !Alive(s.cell, s.now) {
      ExposedOverDeadKey(cfg, s, i);
    } else {
      var i, j :| 0 <= i < j < |s.cs| && s.cs[i].Exposed() && s.cs[j].Exposed();
      TwoExposed(cfg, s, i, j);
    }
  }

  // ---------------------------------------------------------------- the exact conditions

  /** From a state, every well-behaved run ends with at most one leader if and only if the state is safe. */
  lemma ExclusiveIffSafe(cfg: Config, s: State)
    requires 0 < cfg.ttl && 2 <= |s.cs|
    ensures StaysExclusive(cfg, s) <==> Safe(s)
  {
    if Safe(s) {
      forall steps | WellBehaved(cfg, s, steps) ensures OneLeader(Final(cfg, s, steps)) { RunSafe(cfg, s, steps); }
    } else {
      UnsafeIsDoomed(cfg, s);
      var t :| Reaches(cfg, s, t) && !OneLeader(t);
      var steps :| WellBehaved(cfg, s, steps) && Final(cfg, s, steps) == t;
    }
  }

  predicate SomeoneExposed(s: State) {
    exists c <- s.cs :: c.Exposed()
  }

  /**
   Time does not pass the expiry while the lease matters to anyone, and a release is asked for by a leader that is
   not releasing, or under a live key while the lease matters to nobody.
   */
  predicate Harmless(s: State, step: Step) {
    match step
    case Advance(_) => NoLapse(s, step)
    case ReleaseCall(i) => i < |s.cs| && (s.cs[i].Leads() || (Alive(s.cell, s.now) && !SomeoneExposed(s)))
    case _ => true
  }

  lemma HarmlessKeepsSafe(cfg: Config, s: State, step: Step)
    requires 0 < cfg.ttl && Safe(s) && Enabled(s, step) && Harmless(s, step)
    ensures Safe(After(cfg, s, step))
  {
    if step.ReleaseCall? && !s.cs[step.id].Leads() {
      var s' := After(cfg, s, step);
      forall j | 0 <= j < |s.cs|
        ensures Tidy(s'.cs[j]) && (s'.cs[j].Exposed() ==> j == step.id)
      {
        assert s.cs[j] in s.cs;
      }
    } else {
      StepSafe(cfg, s, step);
    }
  }

  lemma HarmfulStep(cfg: Config, s: State, step: Step)
    requires 0 < cfg.ttl && Safe(s) && Enabled(s, step) && !Harmless(s, step)
    ensures !Safe(After(cfg, s, step))
  {
    var s' := After(cfg, s, step);
    if step.Advance? {
      var c :| c in s.cs && c.Exposed();
      var i :| 0 <= i < |s.cs| && s.cs[i] == c;
      assert s'.cs[i].Exposed();
    } else {
      var i := step.id;
      assert s'.cs[i].Exposed();
      if Alive(s.cell, s.now) {
        var c :| c in s.cs && c.Exposed();
        var j :| 0 <= j < |s.cs| && s.cs[j] == c;
        if j == i {
          assert s'.cs[i] in s'.cs && !Tidy(s'.cs[i]);
        } else {
          assert s'.cs[j].Exposed();
        }
      }
    }
  }

  /** From a safe state a step keeps exclusion in every well-behaved continuation if and only if it is harmless. */
  lemma StepIsHarmlessIff(cfg: Config, s: State, step: Step)
    requires 0 < cfg.ttl && 2 <= |s.cs| && StaysExclusive(cfg, s) && Enabled(s, step)
    ensures StaysExclusive(cfg, After(cfg, s, step)) <==> Harmless(s, step)
  {
    ExclusiveIffSafe(cfg, s);
    ExclusiveIffSafe(cfg, After(cfg, s, step));
    if Harmless(s, step) { HarmlessKeepsSafe(cfg, s, step); } else { HarmfulStep(cfg, s, step); }
  }

  lemma {:induction false} HarmlessRunSafe(cfg: Config, s: State, steps: seq<Step>)
    requires 0 < cfg.ttl && Safe(s) && Runs(cfg, s, steps) && Always(cfg, s, steps, Harmless)
    ensures Safe(Final(cfg, s, steps))
    decreases |steps|
  {
    if steps != [] {
      HarmlessKeepsSafe(cfg, s, steps[0]);
      HarmlessRunSafe(cfg, After(cfg, s, steps[0]), steps[1..]);
    }
  }

  /**
   On whole runs: after harmless steps there is one leader at most, and one more step keeps it so if and only if
   it is harmless.
   */
  lemma HarmlessRunsAreExclusive(cfg: Config, n: nat, steps: seq<Step>, step: Step)
    requires 0 < cfg.ttl && 2 <= n && Runs(cfg, Init(n), steps) && Always(cfg, Init(n), steps, Harmless)
    requires Enabled(Final(cfg, Init(n), steps), step)
    ensures var s := Final(cfg, Init(n), steps);
            OneLeader(s) && (StaysExclusive(cfg, After(cfg, s, step)) <==> Harmless(s, step))
  {
    HarmlessRunSafe(cfg, Init(n), steps);
    var s := Final(cfg, Init(n), steps);
    FinalSize(cfg, Init(n), steps);
    ExclusiveIffSafe(cfg, s);
    StepIsHarmlessIff(cfg, s, step);
  }

  lemma {:induction false} FinalSize(cfg: Config, s: State, steps: seq<Step>)
    requires Runs(cfg, s, steps)
    ensures |Final(cfg, s, steps).cs| == |s.cs|
    decreases |steps|
  {
    if steps != [] { FinalSize(cfg, After(cfg, s, steps[0]), steps[1..]); }
  }

  // ---------------------------------------------------------------- whom the key names

  /** The key names the coordinator to whom the lease matters. */
  ghost predicate KeyNamesExposed(s: State) {
    forall i :: 0 <= i < |s.cs| && s.cs[i].Exposed() ==> Owns(s.cell, s.now, i)
  }

  /** No renewal by another while the lease matters to somebody, and no release of what others own. */
  predicate KeepsName(s: State, step: Step) {
    match step
    case Renew(i) => i < |s.cs| && (SomeoneExposed(s) ==> s.cs[i].Exposed())
    case ReleaseCall(i) => i < |s.cs| && (s.cs[i].Leads() || Owns(s.cell, s.now, i))
    case _ => true
  }

  lemma KeepingName(cfg: Config, s: State, step: Step)
    requires 0 < cfg.ttl && Safe(s) && KeyNamesExposed(s) && Enabled(s, step) && Harmless(s, step) && KeepsName(s, step)
    ensures KeyNamesExposed(After(cfg, s, step))
  {
    var s' := After(cfg, s, step);
    forall j | 0 <= j < |s'.cs| && s'.cs[j].Exposed() ensures Owns(s'.cell, s'.now, j) {
      assert s.cs[j] in s.cs;
      if !step.Advance? { assert s.cs[step.id] in s.cs; }
    }
  }

  lemma LosingName(cfg: Config, s: State, step: Step)
    requires 0 < cfg.ttl && Safe(s) && KeyNamesExposed(s) && Enabled(s, step) && Harmless(s, step)
             && !KeepsName(s, step)
    ensures !KeyNamesExposed(After(cfg, s, step))
  {
    var s' := After(cfg, s, step);
    if step.Renew? {
      var c :| c in s.cs && c.Exposed();
      var j :| 0 <= j < |s.cs| && s.cs[j] == c;
      assert s'.cs[j].Exposed() && !Owns(s'.cell, s'.now, j);
    } else {
      assert s'.cs[step.id].Exposed() && !Owns(s'.cell, s'.now, step.id);
    }
  }

  /** A harmless step keeps the key's owner right if and only if it is no such renewal or release. */
  lemma KeyKeepsNameIff(cfg: Config, s: State, step: Step)
    requires 0 < cfg.ttl && Safe(s) && KeyNamesExposed(s) && Enabled(s, step) && Harmless(s, step)
    ensures KeyNamesExposed(After(cfg, s, step)) <==> KeepsName(s, step)
    ensures Polite(s, step) ==>
              (KeyNamesExposed(After(cfg, s, step)) <==> (step.Renew? && SomeoneExposed(s) ==> s.cs[step.id].Exposed()))
  {
    if KeepsName(s, step) { KeepingName(cfg, s, step); } else { LosingName(cfg, s, step); }
  }

  /** So the key names the leader on every harmless run without them. */
  lemma {:induction false} KeyNamesLeader(cfg: Config, s: State, steps: seq<Step>)
    requires 0 < cfg.ttl && Safe(s) && KeyNamesExposed(s) && Runs(cfg, s, steps)
    requires Always(cfg, s, steps, Harmless) && Always(cfg, s, steps, KeepsName)
    ensures Safe(Final(cfg, s, steps)) && KeyNamesExposed(Final(cfg, s, steps))
    decreases |steps|
  {
    if steps != [] {
      HarmlessKeepsSafe(cfg, s, steps[0]);
      KeepingName(cfg, s, steps[0]);
      KeyNamesLeader(cfg, After(cfg, s, steps[0]), steps[1..]);
    }
  }
}
