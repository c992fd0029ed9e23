/** Concrete runs that end with two leaders where an assumption of the mutual-exclusion theorem is weakened. */
module LeaderElectionLimits {
  import opened Wrappers
  import opened LeaderElections

  /** Weaker than `Polite`: whoever asks for a release has the flag, but may already be releasing. */
  predicate FlaggedRelease(s: State, step: Step) {
    step.ReleaseCall? && step.id < |s.cs| ==> s.cs[step.id].leader
  }

  /** Weaker than `NoLapse`: the lease does not run out while anybody's flag is set. */
  predicate FlagNoLapse(s: State, step: Step) {
    step.Advance? ==> (exists c <- s.cs :: c.leader) ==> Alive(s.cell, s.now + step.ms)
  }

  predicate NoTimePasses(s: State, step: Step) {
    !step.Advance?
  }

  predicate FlaggedAndTimeless(s: State, step: Step) {
    FlaggedRelease(s, step) && NoTimePasses(s, step)
  }

  predicate PoliteAndFlagged(s: State, step: Step) {
    Polite(s, step) && FlagNoLapse(s, step)
  }

  predicate PoliteAndAlive(s: State, step: Step) {
    Polite(s, step) && NoLapse(s, step)
  }

  /** A lease of 30, acted on at once. */
  const SETTING := Config(30, 0, 0)

  /** Where the steps lead, if each of them can be taken and is as `ok` demands. */
  function Walk(s: State, steps: seq<Step>, ok: (State, Step) -> bool): Option<State>
    decreases |steps|
  {
    if steps == [] then Some(s)
    else if Enabled(s, steps[0]) && ok(s, steps[0]) then Walk(After(SETTING, s, steps[0]), steps[1..], ok)
    else None
  }

  lemma {:induction false} WalkIsRun(s: State, steps: seq<Step>, ok: (State, Step) -> bool, t: State)
    requires Walk(s, steps, ok) == Some(t)
    ensures Runs(SETTING, s, steps) && Final(SETTING, s, steps) == t && Always(SETTING, s, steps, ok)
    decreases |steps|
  {
    if steps != [] { WalkIsRun(After(SETTING, s, steps[0]), steps[1..], ok, t); }
  }

  /** A walk laid out state by state. */
  lemma {:induction false} Chain(ss: seq<State>, steps: seq<Step>, ok: (State, Step) -> bool)
    requires |ss| == |steps| + 1
    requires forall i :: 0 <= i < |steps| ==>
             Enabled(ss[i], steps[i]) && After(SETTING, ss[i], steps[i]) == ss[i + 1] && ok(ss[i], steps[i])
    ensures Walk(ss[0], steps, ok) == Some(ss[|steps|])
    decreases |steps|
  {
    if steps != [] {
      forall i | 0 <= i < |steps[1..]|
        ensures Enabled(ss[1..][i], steps[1..][i]) && After(SETTING, ss[1..][i], steps[1..][i]) == ss[1..][i + 1]
                && ok(ss[1..][i], steps[1..][i])
      {
        assert ss[1..][i] == ss[i + 1] && steps[1..][i] == steps[i + 1] && ss[1..][i + 1] == ss[i + 2];
      }
      Chain(ss[1..], steps[1..], ok);
    }
  }

  /** Walks can be put one after the other. */
  lemma {:induction false} Append(s: State, a: seq<Step>, t: State, b: seq<Step>, ok: (State, Step) -> bool)
    requires Walk(s, a, ok) == Some(t)
    ensures Walk(s, a + b, ok) == Walk(t, b, ok)
    decreases |a|
  {
    if a == [] {
      assert a + b == b;
    } else {
      assert (a + b)[1..] == a[1..] + b;
      Append(After(SETTING, s, a[0]), a[1..], t, b, ok);
    }
  }

  /** `i` leads while the key names `j`, which does not. */
  predicate Stolen(s: State, i: nat, j: nat) {
    i < |s.cs| && j < |s.cs| && s.cs[i].Leads() && !s.cs[j].leader && Owns(s.cell, s.now, j)
  }

  predicate TwoLead(s: State, i: nat, j: nat) {
    i < j < |s.cs| && s.cs[i].Leads() && s.cs[j].Leads()
  }

  lemma InitIs(n: nat, s: State)
    requires s.now == 0 && s.cell == None && |s.cs| == n && forall c <- s.cs :: c == IDLE
    ensures s == Init(n)
  {
    assert |Init(n).cs| == n && forall i :: 0 <= i < n ==> Init(n).cs[i] == IDLE;
    forall i | 0 <= i < n ensures s.cs[i] == IDLE { assert s.cs[i] in s.cs; }
    assert s.cs == Init(n).cs;
  }

  /** A lease that lapses leaves its old holder leading beside the new one. */
  lemma LapseGivesTwoLeaders()
    ensures exists steps ::
            Runs(SETTING, Init(2), steps) && Always(SETTING, Init(2), steps, Polite)
            && TwoLead(Final(SETTING, Init(2), steps), 0, 1)
  {
    var steps := [Acquire(0), AcquireReply(0, true), Advance(30), Acquire(1), AcquireReply(1, true)];
    var ss := [
      State(0, None, [IDLE, IDLE]),
      State(0, Some(Lease(0, 30)), [IDLE.(acquired := 1, due := 10), IDLE]),
      State(0, Some(Lease(0, 30)), [IDLE.(leader := true, due := 10), IDLE]),
      State(30, Some(Lease(0, 30)), [IDLE.(leader := true, due := 10), IDLE]),
      State(30, Some(Lease(1, 60)), [IDLE.(leader := true, due := 10), IDLE.(acquired := 1, due := 40)]),
      State(30, Some(Lease(1, 60)), [IDLE.(leader := true, due := 10), IDLE.(leader := true, due := 40)])];
    InitIs(2, ss[0]);
    Chain(ss, steps, Polite);
    WalkIsRun(ss[0], steps, Polite, ss[5]);
  }

  const OVERLAP_1 := State(0, Some(Lease(0, 30)), [IDLE.(leader := true, checking := 2, due := 10), IDLE, IDLE])
  const OVERLAP_2 := State(0, Some(Lease(1, 30)),
      [IDLE.(leader := true, mine := 1, finishing := 1, due := 10), IDLE.(acquired := 1, due := 10), IDLE])
  const OVERLAP_3 := State(0, Some(Lease(2, 30)),
      [IDLE.(leader := true, finishing := 2, due := 10), IDLE.(leader := true, due := 10),
      IDLE.(leader := true, due := 10)])

  const OVERLAP_STEPS_1 := [Acquire(0), AcquireReply(0, true), ReleaseCall(0), ReleaseCall(0)]

  lemma OverlapPart1()
    ensures Walk(Init(3), OVERLAP_STEPS_1, FlaggedAndTimeless) == Some(OVERLAP_1)
  {
    var ss := [
      State(0, None, [IDLE, IDLE, IDLE]),
      State(0, Some(Lease(0, 30)), [IDLE.(acquired := 1, due := 10), IDLE, IDLE]),
      State(0, Some(Lease(0, 30)), [IDLE.(leader := true, due := 10), IDLE, IDLE]),
      State(0, Some(Lease(0, 30)), [IDLE.(leader := true, checking := 1, due := 10), IDLE, IDLE]),
      State(0, Some(Lease(0, 30)), [IDLE.(leader := true, checking := 2, due := 10), IDLE, IDLE])];
    InitIs(3, ss[0]);
    Chain(ss, OVERLAP_STEPS_1, FlaggedAndTimeless);
  }

  const OVERLAP_STEPS_2 := [ReleaseGet(0), ReleaseGet(0), ReleaseDel(0), Acquire(1)]

  lemma OverlapPart2()
    ensures Walk(OVERLAP_1, OVERLAP_STEPS_2, FlaggedAndTimeless) == Some(OVERLAP_2)
  {
    var ss := [
      State(0, Some(Lease(0, 30)), [IDLE.(leader := true, checking := 2, due := 10), IDLE, IDLE]),
      State(0, Some(Lease(0, 30)), [IDLE.(leader := true, checking := 1, mine := 1, due := 10), IDLE, IDLE]),
      State(0, Some(Lease(0, 30)), [IDLE.(leader := true, mine := 2, due := 10), IDLE, IDLE]),
      State(0, None, [IDLE.(leader := true, mine := 1, finishing := 1, due := 10), IDLE, IDLE]),
      State(0, Some(Lease(1, 30)), [IDLE.(leader := true, mine := 1, finishing := 1, due := 10),
          IDLE.(acquired := 1, due := 10), IDLE])];
    Chain(ss, OVERLAP_STEPS_2, FlaggedAndTimeless);
  }

  const OVERLAP_STEPS_3 := [AcquireReply(1, true), ReleaseDel(0), Acquire(2), AcquireReply(2, true)]

  lemma OverlapPart3()
    ensures Walk(OVERLAP_2, OVERLAP_STEPS_3, FlaggedAndTimeless) == Some(OVERLAP_3)
  {
    var ss := [
      State(0, Some(Lease(1, 30)), [IDLE.(leader := true, mine := 1, finishing := 1, due := 10),
          IDLE.(acquired := 1, due := 10), IDLE]),
      State(0, Some(Lease(1, 30)), [IDLE.(leader := true, mine := 1, finishing := 1, due := 10),
          IDLE.(leader := true, due := 10), IDLE]),
      State(0, None, [IDLE.(leader := true, finishing := 2, due := 10), IDLE.(leader := true, due := 10), IDLE]),
      State(0, Some(Lease(2, 30)), [IDLE.(leader := true, finishing := 2, due := 10), IDLE.(leader := true, due := 10),
          IDLE.(acquired := 1, due := 10)]),
      State(0, Some(Lease(2, 30)), [IDLE.(leader := true, finishing := 2, due := 10), IDLE.(leader := true, due := 10),
          IDLE.(leader := true, due := 10)])];
    Chain(ss, OVERLAP_STEPS_3, FlaggedAndTimeless);
  }

  /**
   Two overlapping releases of one coordinator: the second deletes its successor's lease, with no time passing at
   all.
   */
  lemma OverlappingReleasesGiveTwoLeaders()
    ensures exists steps ::
            Runs(SETTING, Init(3), steps) && Always(SETTING, Init(3), steps, FlaggedAndTimeless)
            && TwoLead(Final(SETTING, Init(3), steps), 1, 2)
  {
    var steps := OVERLAP_STEPS_1;
    OverlapPart1();
    OverlapPart2();
    Append(Init(3), steps, OVERLAP_1, OVERLAP_STEPS_2, FlaggedAndTimeless);
    steps := steps + OVERLAP_STEPS_2;
    OverlapPart3();
    Append(Init(3), steps, OVERLAP_2, OVERLAP_STEPS_3, FlaggedAndTimeless);
    steps := steps + OVERLAP_STEPS_3;
    WalkIsRun(Init(3), steps, FlaggedAndTimeless, OVERLAP_3);
  }

  const BETWEEN_1 := State(0, Some(Lease(0, 30)), [IDLE.(leader := true, mine := 1, due := 10), IDLE, IDLE])
  const BETWEEN_2 := State(30, Some(Lease(1, 60)),
      [IDLE.(mine := 1, due := 10), IDLE.(leader := true, due := 40), IDLE])
  const BETWEEN_3 := State(30, Some(Lease(2, 60)),
      [IDLE.(finishing := 1, due := 10), IDLE.(leader := true, due := 40), IDLE.(leader := true, due := 40)])

  const BETWEEN_STEPS_1 := [Acquire(0), AcquireReply(0, true), ReleaseCall(0), ReleaseGet(0)]

  lemma BetweenPart1()
    ensures Walk(Init(3), BETWEEN_STEPS_1, PoliteAndFlagged) == Some(BETWEEN_1)
  {
    var ss := [
      State(0, None, [IDLE, IDLE, IDLE]),
      State(0, Some(Lease(0, 30)), [IDLE.(acquired := 1, due := 10), IDLE, IDLE]),
      State(0, Some(Lease(0, 30)), [IDLE.(leader := true, due := 10), IDLE, IDLE]),
      State(0, Some(Lease(0, 30)), [IDLE.(leader := true, checking := 1, due := 10), IDLE, IDLE]),
      State(0, Some(Lease(0, 30)), [IDLE.(leader := true, mine := 1, due := 10), IDLE, IDLE])];
    InitIs(3, ss[0]);
    Chain(ss, BETWEEN_STEPS_1, PoliteAndFlagged);
  }

  const BETWEEN_STEPS_2 := [RenewError(0, false), Advance(30), Acquire(1), AcquireReply(1, true)]

  lemma BetweenPart2()
    ensures Walk(BETWEEN_1, BETWEEN_STEPS_2, PoliteAndFlagged) == Some(BETWEEN_2)
  {
    var ss := [
      State(0, Some(Lease(0, 30)), [IDLE.(leader := true, mine := 1, due := 10), IDLE, IDLE]),
      State(0, Some(Lease(0, 30)), [IDLE.(mine := 1, due := 10), IDLE, IDLE]),
      State(30, Some(Lease(0, 30)), [IDLE.(mine := 1, due := 10), IDLE, IDLE]),
      State(30, Some(Lease(1, 60)), [IDLE.(mine := 1, due := 10), IDLE.(acquired := 1, due := 40), IDLE]),
      State(30, Some(Lease(1, 60)), [IDLE.(mine := 1, due := 10), IDLE.(leader := true, due := 40), IDLE])];
    Chain(ss, BETWEEN_STEPS_2, PoliteAndFlagged);
  }

  const BETWEEN_STEPS_3 := [ReleaseDel(0), Acquire(2), AcquireReply(2, true)]

  lemma BetweenPart3()
    ensures Walk(BETWEEN_2, BETWEEN_STEPS_3, PoliteAndFlagged) == Some(BETWEEN_3)
  {
    var ss := [
      State(30, Some(Lease(1, 60)), [IDLE.(mine := 1, due := 10), IDLE.(leader := true, due := 40), IDLE]),
      State(30, None, [IDLE.(finishing := 1, due := 10), IDLE.(leader := true, due := 40), IDLE]),
      State(30, Some(Lease(2, 60)), [IDLE.(finishing := 1, due := 10), IDLE.(leader := true, due := 40),
          IDLE.(acquired := 1, due := 40)]),
      State(30, Some(Lease(2, 60)), [IDLE.(finishing := 1, due := 10), IDLE.(leader := true, due := 40),
          IDLE.(leader := true, due := 40)])];
    Chain(ss, BETWEEN_STEPS_3, PoliteAndFlagged);
  }

  /**
   A failed renewal drops the flag between the get and the del of a release: guarding flagged holders only is not
   enough.
   */
  lemma LapseBetweenGetAndDel()
    ensures exists steps ::
            Runs(SETTING, Init(3), steps) && Always(SETTING, Init(3), steps, PoliteAndFlagged)
            && TwoLead(Final(SETTING, Init(3), steps), 1, 2)
  {
    var steps := BETWEEN_STEPS_1;
    BetweenPart1();
    BetweenPart2();
    Append(Init(3), steps, BETWEEN_1, BETWEEN_STEPS_2, PoliteAndFlagged);
    steps := steps + BETWEEN_STEPS_2;
    BetweenPart3();
    Append(Init(3), steps, BETWEEN_2, BETWEEN_STEPS_3, PoliteAndFlagged);
    steps := steps + BETWEEN_STEPS_3;
    WalkIsRun(Init(3), steps, PoliteAndFlagged, BETWEEN_3);
  }

  const UNFLAGGED_1 := State(30, Some(Lease(0, 30)), [IDLE.(due := 10), IDLE, IDLE])
  const UNFLAGGED_2 := State(30, Some(Lease(0, 60)),
      [IDLE.(renewed := 1, checking := 1, due := 40), IDLE.(leader := true, due := 40), IDLE])
  const UNFLAGGED_3 := State(30, Some(Lease(2, 60)),
      [IDLE.(renewed := 1, finishing := 1, due := 40), IDLE.(leader := true, due := 40),
      IDLE.(leader := true, due := 40)])

  const UNFLAGGED_STEPS_1 := [Acquire(0), AcquireReply(0, true), RenewError(0, false), Advance(30)]

  lemma UnflaggedPart1()
    ensures Walk(Init(3), UNFLAGGED_STEPS_1, NoLapse) == Some(UNFLAGGED_1)
  {
    var ss := [
      State(0, None, [IDLE, IDLE, IDLE]),
      State(0, Some(Lease(0, 30)), [IDLE.(acquired := 1, due := 10), IDLE, IDLE]),
      State(0, Some(Lease(0, 30)), [IDLE.(leader := true, due := 10), IDLE, IDLE]),
      State(0, Some(Lease(0, 30)), [IDLE.(due := 10), IDLE, IDLE]),
      State(30, Some(Lease(0, 30)), [IDLE.(due := 10), IDLE, IDLE])];
    InitIs(3, ss[0]);
    Chain(ss, UNFLAGGED_STEPS_1, NoLapse);
  }

  const UNFLAGGED_STEPS_2 := [Acquire(1), AcquireReply(1, true), Renew(0), ReleaseCall(0)]

  lemma UnflaggedPart2()
    ensures Walk(UNFLAGGED_1, UNFLAGGED_STEPS_2, NoLapse) == Some(UNFLAGGED_2)
  {
    var ss := [
      State(30, Some(Lease(0, 30)), [IDLE.(due := 10), IDLE, IDLE]),
      State(30, Some(Lease(1, 60)), [IDLE.(due := 10), IDLE.(acquired := 1, due := 40), IDLE]),
      State(30, Some(Lease(1, 60)), [IDLE.(due := 10), IDLE.(leader := true, due := 40), IDLE]),
      State(30, Some(Lease(0, 60)), [IDLE.(renewed := 1, due := 40), IDLE.(leader := true, due := 40), IDLE]),
      State(30, Some(Lease(0, 60)), [IDLE.(renewed := 1, checking := 1, due := 40), IDLE.(leader := true, due := 40),
          IDLE])];
    Chain(ss, UNFLAGGED_STEPS_2, NoLapse);
  }

  const UNFLAGGED_STEPS_3 := [ReleaseGet(0), ReleaseDel(0), Acquire(2), AcquireReply(2, true)]

  lemma UnflaggedPart3()
    ensures Walk(UNFLAGGED_2, UNFLAGGED_STEPS_3, NoLapse) == Some(UNFLAGGED_3)
  {
    var ss := [
      State(30, Some(Lease(0, 60)), [IDLE.(renewed := 1, checking := 1, due := 40), IDLE.(leader := true, due := 40),
          IDLE]),
      State(30, Some(Lease(0, 60)), [IDLE.(renewed := 1, mine := 1, due := 40), IDLE.(leader := true, due := 40),
          IDLE]),
      State(30, None, [IDLE.(renewed := 1, finishing := 1, due := 40), IDLE.(leader := true, due := 40), IDLE]),
      State(30, Some(Lease(2, 60)), [IDLE.(renewed := 1, finishing := 1, due := 40), IDLE.(leader := true, due := 40),
          IDLE.(acquired := 1, due := 40)]),
      State(30, Some(Lease(2, 60)), [IDLE.(renewed := 1, finishing := 1, due := 40), IDLE.(leader := true, due := 40),
          IDLE.(leader := true, due := 40)])];
    Chain(ss, UNFLAGGED_STEPS_3, NoLapse);
  }

  /** A release by a coordinator without the flag deletes a lease that its stale timer had overwritten. */
  lemma UnflaggedReleaseGivesTwoLeaders()
    ensures exists steps ::
            Runs(SETTING, Init(3), steps) && Always(SETTING, Init(3), steps, NoLapse)
            && TwoLead(Final(SETTING, Init(3), steps), 1, 2)
  {
    var steps := UNFLAGGED_STEPS_1;
    UnflaggedPart1();
    UnflaggedPart2();
    Append(Init(3), steps, UNFLAGGED_1, UNFLAGGED_STEPS_2, NoLapse);
    steps := steps + UNFLAGGED_STEPS_2;
    UnflaggedPart3();
    Append(Init(3), steps, UNFLAGGED_2, UNFLAGGED_STEPS_3, NoLapse);
    steps := steps + UNFLAGGED_STEPS_3;
    WalkIsRun(Init(3), steps, NoLapse, UNFLAGGED_3);
  }

  const STEAL_1 := State(30, Some(Lease(0, 30)), [IDLE.(due := 10), IDLE])
  const STEAL_2 := State(30, Some(Lease(0, 60)), [IDLE.(due := 40), IDLE.(leader := true, due := 40)])

  const STEAL_STEPS_1 := [Acquire(0), AcquireReply(0, true), RenewError(0, false), Advance(30)]

  lemma StealPart1()
    ensures Walk(Init(2), STEAL_STEPS_1, PoliteAndAlive) == Some(STEAL_1)
  {
    var ss := [
      State(0, None, [IDLE, IDLE]),
      State(0, Some(Lease(0, 30)), [IDLE.(acquired := 1, due := 10), IDLE]),
      State(0, Some(Lease(0, 30)), [IDLE.(leader := true, due := 10), IDLE]),
      State(0, Some(Lease(0, 30)), [IDLE.(due := 10), IDLE]),
      State(30, Some(Lease(0, 30)), [IDLE.(due := 10), IDLE])];
    InitIs(2, ss[0]);
    Chain(ss, STEAL_STEPS_1, PoliteAndAlive);
  }

  const STEAL_STEPS_2 := [Acquire(1), AcquireReply(1, true), Renew(0), RenewReply(0, true)]

  lemma StealPart2()
    ensures Walk(STEAL_1, STEAL_STEPS_2, PoliteAndAlive) == Some(STEAL_2)
  {
    var ss := [
      State(30, Some(Lease(0, 30)), [IDLE.(due := 10), IDLE]),
      State(30, Some(Lease(1, 60)), [IDLE.(due := 10), IDLE.(acquired := 1, due := 40)]),
      State(30, Some(Lease(1, 60)), [IDLE.(due := 10), IDLE.(leader := true, due := 40)]),
      State(30, Some(Lease(0, 60)), [IDLE.(renewed := 1, due := 40), IDLE.(leader := true, due := 40)]),
      State(30, Some(Lease(0, 60)), [IDLE.(due := 40), IDLE.(leader := true, due := 40)])];
    Chain(ss, STEAL_STEPS_2, PoliteAndAlive);
  }

  /** SET XX compares no owners: even in a well-behaved run the key can name a coordinator that does not lead. */
  lemma RenewalStealsTheKey()
    ensures exists steps ::
            Runs(SETTING, Init(2), steps) && Always(SETTING, Init(2), steps, PoliteAndAlive)
            && Stolen(Final(SETTING, Init(2), steps), 1, 0)
  {
    var steps := STEAL_STEPS_1;
    StealPart1();
    StealPart2();
    Append(Init(2), steps, STEAL_1, STEAL_STEPS_2, PoliteAndAlive);
    steps := steps + STEAL_STEPS_2;
    WalkIsRun(Init(2), steps, PoliteAndAlive, STEAL_2);
  }
}
