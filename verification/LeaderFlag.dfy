/** What a run of the protocol has done to one coordinator: whence its flag, and where its operations are. */
module LeaderFlags {
  import opened Wrappers
  import opened LeaderElections

  // ---------------------------------------------------------------- the flag

  /** The replies that settle the flag of `i`. */
  predicate Decides(step: Step, i: Id) {
    || step == AcquireReply(i, true) || step == AcquireReply(i, false) || step == RenewReply(i, false)
    || (step.RenewError? && step.id == i) || step == ReleaseReply(i) || step == ReleaseError(i)
  }

  /** The last of them was an acquisition won. */
  ghost predicate LastWon(steps: seq<Step>, i: Id) {
    exists k :: 0 <= k < |steps| && steps[k] == AcquireReply(i, true) && Undecided(steps, k + 1, i)
  }

  ghost predicate Undecided(steps: seq<Step>, from: nat, i: Id) {
    forall j :: from <= j < |steps| ==> !Decides(steps[j], i)
  }

  lemma {:induction false} FlagFrom(cfg: Config, s: State, steps: seq<Step>, i: Id)
    requires Runs(cfg, s, steps) && i < |s.cs|
    ensures |Final(cfg, s, steps).cs| == |s.cs|
    ensures Final(cfg, s, steps).cs[i].leader <==>
            LastWon(steps, i) || (s.cs[i].leader && Undecided(steps, 0, i))
    decreases |steps|
  {
    if steps != [] {
      var next := After(cfg, s, steps[0]);
      FlagFrom(cfg, next, steps[1..], i);
      FlagStep(cfg, s, steps[0], i);
      UndecidedFirst(steps, i);
      LastWonFirst(steps, i);
    }
  }

  lemma FlagStep(cfg: Config, s: State, step: Step, i: Id)
    requires Enabled(s, step) && i < |s.cs|
    ensures After(cfg, s, step).cs[i].leader <==>
            step == AcquireReply(i, true) || (s.cs[i].leader && !Decides(step, i))
  {}

  lemma UndecidedFirst(steps: seq<Step>, i: Id)
    requires steps != []
    ensures Undecided(steps, 0, i) <==> !Decides(steps[0], i) && Undecided(steps[1..], 0, i)
  {
    UndecidedTail(steps, 0, i);
  }

  lemma UndecidedTail(steps: seq<Step>, k: nat, i: Id)
    requires steps != []
    ensures Undecided(steps[1..], k, i) <==> Undecided(steps, k + 1, i)
  {
    if Undecided(steps[1..], k, i) {
      forall j | k + 1 <= j < |steps| ensures !Decides(steps[j], i) { assert steps[j] == steps[1..][j - 1]; }
    }
  }

  lemma LastWonFirst(steps: seq<Step>, i: Id)
    requires steps != []
    ensures LastWon(steps, i) <==>
            LastWon(steps[1..], i) || (steps[0] == AcquireReply(i, true) && Undecided(steps[1..], 0, i))
  {
    var rest := steps[1..];
    UndecidedTail(steps, 0, i);
    if LastWon(steps, i) {
      var k :| 0 <= k < |steps| && steps[k] == AcquireReply(i, true) && Undecided(steps, k + 1, i);
      if k > 0 {
        UndecidedTail(steps, k, i);
        assert rest[k - 1] == steps[k];
      }
    }
    if LastWon(rest, i) {
      var k :| 0 <= k < |rest| && rest[k] == AcquireReply(i, true) && Undecided(rest, k + 1, i);
      UndecidedTail(steps, k + 1, i);
      assert steps[k + 1] == rest[k];
    }
  }

  /**
   After every run a coordinator is flagged exactly if the last reply to it that settles the flag, a reply to an
   acquisition, a renewal refused or failed, or the end of a release, was an acquisition won.
   */
  lemma FlaggedIff(cfg: Config, n: nat, steps: seq<Step>, i: Id)
    requires Runs(cfg, Init(n), steps) && i < n
    ensures i < |Final(cfg, Init(n), steps).cs|
    ensures Final(cfg, Init(n), steps).cs[i].leader <==> LastWon(steps, i)
  {
    FlagFrom(cfg, Init(n), steps, i);
  }

  // ---------------------------------------------------------------- operations under way

  /** How many steps of a run, with the state each is taken in, are of a kind. */
  function Tally(cfg: Config, s: State, steps: seq<Step>, kind: (State, Step) -> bool): nat
    requires Runs(cfg, s, steps)
    decreases |steps|
  {
    if steps == [] then 0 else One(kind(s, steps[0])) + Tally(cfg, After(cfg, s, steps[0]), steps[1..], kind)
  }

  function One(b: bool): nat {
    if b then 1 else 0
  }

  /** A count that every step of one kind raises and every step of another lowers. */
  ghost predicate Counts(cfg: Config, i: Id, count: Coordinator -> nat, up: (State, Step) -> bool,
      down: (State, Step) -> bool)
  {
    forall s, step | Enabled(s, step) && i < |s.cs| ::
      count(After(cfg, s, step).cs[i]) + One(down(s, step)) == count(s.cs[i]) + One(up(s, step))
  }

  lemma {:induction false} Conserved(cfg: Config, s: State, steps: seq<Step>, i: Id, count: Coordinator -> nat,
      up: (State, Step) -> bool, down: (State, Step) -> bool)
    requires Runs(cfg, s, steps) && i < |s.cs| && Counts(cfg, i, count, up, down)
    ensures |Final(cfg, s, steps).cs| == |s.cs|
    ensures count(Final(cfg, s, steps).cs[i]) + Tally(cfg, s, steps, down) ==
            count(s.cs[i]) + Tally(cfg, s, steps, up)
    decreases |steps|
  {
    if steps != [] {
      Conserved(cfg, After(cfg, s, steps[0]), steps[1..], i, count, up, down);
    }
  }

  predicate Live(s: State) {
    s.cell.Some? && s.now < s.cell.value.expiresAt
  }

  /** A step of `i` that finds a live key, or finds none. */
  function Meets(step: Step, live: bool): (State, Step) -> bool {
    (s: State, x: Step) => x == step && Live(s) == live
  }

  function Either(a: Step, b: Step): (State, Step) -> bool {
    (s: State, x: Step) => x == a || x == b
  }

  /** A release finds the key live and in the name of `i`, or it does not. */
  function Finds(i: Id, own: bool): (State, Step) -> bool {
    (s: State, x: Step) => x == ReleaseGet(i) && (Live(s) && s.cell.value.owner == i) == own
  }

  function Fails(i: Id, afterGet: bool): (State, Step) -> bool {
    (s: State, x: Step) => x == ReleaseError(i) && i < |s.cs| && (0 < s.cs[i].mine) == afterGet
  }

  function AnyOf(a: (State, Step) -> bool, b: (State, Step) -> bool): (State, Step) -> bool {
    (s: State, x: Step) => a(s, x) || b(s, x)
  }

  function Is(step: Step): (State, Step) -> bool {
    (s: State, x: Step) => x == step
  }

  lemma CountsAcquired(cfg: Config, i: Id)
    ensures Counts(cfg, i, (c: Coordinator) => c.acquired,
                   Meets(Acquire(i), false), Either(AcquireReply(i, true), AcquireError(i, true)))
  {}

  lemma CountsRefused(cfg: Config, i: Id)
    ensures Counts(cfg, i, (c: Coordinator) => c.refused,
                   Meets(Acquire(i), true), Either(AcquireReply(i, false), AcquireError(i, false)))
  {}

  lemma CountsRenewed(cfg: Config, i: Id)
    ensures Counts(cfg, i, (c: Coordinator) => c.renewed,
                   Meets(LeaderElections.Renew(i), true), Either(RenewReply(i, true), RenewError(i, true)))
  {}

  lemma CountsNotRenewed(cfg: Config, i: Id)
    ensures Counts(cfg, i, (c: Coordinator) => c.notRenewed,
                   Meets(LeaderElections.Renew(i), false), Is(RenewReply(i, false)))
  {}

  lemma CountsChecking(cfg: Config, i: Id)
    ensures Counts(cfg, i, (c: Coordinator) => c.checking,
                   Is(ReleaseCall(i)), AnyOf(Is(ReleaseGet(i)), Fails(i, false)))
  {}

  lemma CountsMine(cfg: Config, i: Id)
    ensures Counts(cfg, i, (c: Coordinator) => c.mine, Finds(i, true), AnyOf(Is(ReleaseDel(i)), Fails(i, true)))
  {}

  lemma CountsFinishing(cfg: Config, i: Id)
    ensures Counts(cfg, i, (c: Coordinator) => c.finishing,
                   AnyOf(Is(ReleaseDel(i)), Finds(i, false)), Is(ReleaseReply(i)))
  {}

  /** What a run from the start has made of `i`. */
  ghost predicate Ended(cfg: Config, n: nat, steps: seq<Step>, i: Id, c: Coordinator) {
    && Runs(cfg, Init(n), steps) && i < n
    && i < |Final(cfg, Init(n), steps).cs| && c == Final(cfg, Init(n), steps).cs[i]
  }

  /** An acquisition is won if it found no live key; it is under way until its reply, or a fault, arrives. */
  lemma AcquisitionsConserved(cfg: Config, n: nat, steps: seq<Step>, i: Id, c: Coordinator)
    requires Ended(cfg, n, steps, i, c)
    ensures c.acquired + Tally(cfg, Init(n), steps, Either(AcquireReply(i, true), AcquireError(i, true)))
            == Tally(cfg, Init(n), steps, Meets(Acquire(i), false))
    ensures c.refused + Tally(cfg, Init(n), steps, Either(AcquireReply(i, false), AcquireError(i, false)))
            == Tally(cfg, Init(n), steps, Meets(Acquire(i), true))
  {
    CountsAcquired(cfg, i);
    Conserved(cfg, Init(n), steps, i, (d: Coordinator) => d.acquired,
              Meets(Acquire(i), false), Either(AcquireReply(i, true), AcquireError(i, true)));
    CountsRefused(cfg, i);
    Conserved(cfg, Init(n), steps, i, (d: Coordinator) => d.refused,
              Meets(Acquire(i), true), Either(AcquireReply(i, false), AcquireError(i, false)));
  }

  /** A renewal succeeds if it found a live key, whoever wrote it. */
  lemma RenewalsConserved(cfg: Config, n: nat, steps: seq<Step>, i: Id, c: Coordinator)
    requires Ended(cfg, n, steps, i, c)
    ensures c.renewed + Tally(cfg, Init(n), steps, Either(RenewReply(i, true), RenewError(i, true)))
            == Tally(cfg, Init(n), steps, Meets(LeaderElections.Renew(i), true))
    ensures c.notRenewed + Tally(cfg, Init(n), steps, Is(RenewReply(i, false)))
            == Tally(cfg, Init(n), steps, Meets(LeaderElections.Renew(i), false))
  {
    CountsRenewed(cfg, i);
    Conserved(cfg, Init(n), steps, i, (d: Coordinator) => d.renewed,
              Meets(LeaderElections.Renew(i), true), Either(RenewReply(i, true), RenewError(i, true)));
    CountsNotRenewed(cfg, i);
    Conserved(cfg, Init(n), steps, i, (d: Coordinator) => d.notRenewed,
              Meets(LeaderElections.Renew(i), false), Is(RenewReply(i, false)));
  }

  /** A release looks at the key once, and goes on to delete it only if that is live and in its own name. */
  lemma ReleasesConserved(cfg: Config, n: nat, steps: seq<Step>, i: Id, c: Coordinator)
    requires Ended(cfg, n, steps, i, c)
    ensures c.checking + Tally(cfg, Init(n), steps, AnyOf(Is(ReleaseGet(i)), Fails(i, false)))
            == Tally(cfg, Init(n), steps, Is(ReleaseCall(i)))
    ensures c.mine + Tally(cfg, Init(n), steps, AnyOf(Is(ReleaseDel(i)), Fails(i, true)))
            == Tally(cfg, Init(n), steps, Finds(i, true))
  {
    CountsChecking(cfg, i);
    Conserved(cfg, Init(n), steps, i, (d: Coordinator) => d.checking,
              Is(ReleaseCall(i)), AnyOf(Is(ReleaseGet(i)), Fails(i, false)));
    CountsMine(cfg, i);
    Conserved(cfg, Init(n), steps, i, (d: Coordinator) => d.mine,
              Finds(i, true), AnyOf(Is(ReleaseDel(i)), Fails(i, true)));
  }

  /** The others end without. */
  lemma ReleasesEnd(cfg: Config, n: nat, steps: seq<Step>, i: Id, c: Coordinator)
    requires Ended(cfg, n, steps, i, c)
    ensures c.finishing + Tally(cfg, Init(n), steps, Is(ReleaseReply(i)))
            == Tally(cfg, Init(n), steps, AnyOf(Is(ReleaseDel(i)), Finds(i, false)))
  {
    CountsFinishing(cfg, i);
    Conserved(cfg, Init(n), steps, i, (d: Coordinator) => d.finishing,
              AnyOf(Is(ReleaseDel(i)), Finds(i, false)), Is(ReleaseReply(i)));
  }
}
