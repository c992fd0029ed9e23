/**
 Leader election over one store cell with a time to live.  Every operation is split at
 its awaits: the command takes effect in the store at one step, and its reply reaches the
 coordinator at a later one.  Any number of operations of any number of coordinators may
 be under way at once, renewal timers that nobody stopped included.
 */
module LeaderElections {
  import opened Wrappers

  type Id = nat

  datatype Lease = Lease(owner: Id, expiresAt: int)

  // ---------------------------------------------------------------- the store's commands

  predicate Alive(cell: Option<Lease>, now: int) {
    cell.Some? && now < cell.value.expiresAt
  }

  /** SET NX: only if the key is not there. */
  function SetNX(cell: Option<Lease>, now: int, id: Id, ttl: int): Option<Lease> {
    if Alive(cell, now) then cell else Some(Lease(id, now + ttl))
  }

  /** SET XX: only if the key is there, whoever wrote it. */
  function SetXX(cell: Option<Lease>, now: int, id: Id, ttl: int): Option<Lease> {
    if Alive(cell, now) then Some(Lease(id, now + ttl)) else cell
  }

  predicate Owns(cell: Option<Lease>, now: int, id: Id) {
    Alive(cell, now) && cell.value.owner == id
  }

  // ---------------------------------------------------------------- the protocol

  /**
   One coordinator: its leader flag, and how many of its operations are at each await.
   `acquired`/`refused` and `renewed`/`notRenewed` are replies on their way back;
   `checking`, `mine` and `finishing` are releases before the get, between a get that
   answered "mine" and the del, and before their last step.  `due` is when its next
   renewal is to land at the latest (used for timing only).
   */
  datatype Coordinator = Coordinator(
    leader: bool,
    acquired: nat, refused: nat,
    renewed: nat, notRenewed: nat,
    checking: nat, mine: nat, finishing: nat,
    due: int)
  {
    predicate InRelease() {
      0 < checking + mine + finishing
    }

    /** A leader that has not begun to step down. */
    predicate Leads() {
      leader && !InRelease()
    }

    /** The lease matters to this coordinator: it leads, is about to, or is still to decide what to delete. */
    predicate Exposed() {
      Leads() || 0 < acquired || 0 < checking || 0 < mine
    }
  }

  const IDLE := Coordinator(false, 0, 0, 0, 0, 0, 0, 0, 0)

  datatype Config = Config(ttl: int, startSlack: int, latency: int) {
    /** A third of the lease; timers cannot fire more often than once a millisecond. */
    function Interval(): int {
      if ttl / 3 < 1 then 1 else ttl / 3
    }
  }

  datatype State = State(now: int, cell: Option<Lease>, cs: seq<Coordinator>)

  datatype Step =
    | Acquire(id: Id)            // SET NX takes effect
    | AcquireReply(id: Id, yes: bool)
    | AcquireError(id: Id, yes: bool)
    | Renew(id: Id)              // SET XX takes effect
    | RenewReply(id: Id, yes: bool)
    | RenewError(id: Id, sent: bool)
    | ReleaseCall(id: Id)
    | ReleaseGet(id: Id)
    | ReleaseDel(id: Id)
    | ReleaseReply(id: Id)
    | ReleaseError(id: Id)       // before the del takes effect
    | Advance(ms: nat)

  predicate Enabled(s: State, step: Step) {
    if step.Advance? then true
    else
      step.id < |s.cs| &&
      var c := s.cs[step.id];
      match step
      case AcquireReply(_, yes) => if yes then 0 < c.acquired else 0 < c.refused
      case AcquireError(_, yes) => if yes then 0 < c.acquired else 0 < c.refused
      case RenewReply(_, yes) => if yes then 0 < c.renewed else 0 < c.notRenewed
      case RenewError(_, sent) => sent ==> 0 < c.renewed
      case ReleaseGet(_) => 0 < c.checking
      case ReleaseDel(_) => 0 < c.mine
      case ReleaseReply(_) => 0 < c.finishing
      case ReleaseError(_) => 0 < c.checking + c.mine
      case _ => true
  }

  function Later(a: int, b: int): int {
    if a < b then b else a
  }

  /** The coordinator after its own step, given what the store held. */
  function Local(cfg: Config, s: State, c: Coordinator, step: Step): Coordinator
    requires !step.Advance? && Enabled(s, step) && c == s.cs[step.id]
  {
    match step
    case Acquire(_) =>
      if Alive(s.cell, s.now) then c.(refused := c.refused + 1)
      else c.(acquired := c.acquired + 1, due := s.now + cfg.startSlack + cfg.Interval() + cfg.latency)
    case AcquireReply(_, yes) =>
      if yes then c.(leader := true, acquired := c.acquired - 1) else c.(leader := false, refused := c.refused - 1)
    case AcquireError(_, yes) => if yes then c.(acquired := c.acquired - 1) else c.(refused := c.refused - 1)
    case Renew(_) =>
      if Alive(s.cell, s.now) then
        c.(renewed := c.renewed + 1, due := Later(c.due, s.now + cfg.Interval() + cfg.latency))
      else c.(notRenewed := c.notRenewed + 1)
    case RenewReply(_, yes) =>
      if yes then c.(renewed := c.renewed - 1) else c.(leader := false, notRenewed := c.notRenewed - 1)
    case RenewError(_, sent) => c.(leader := false, renewed := if sent then c.renewed - 1 else c.renewed)
    case ReleaseCall(_) => c.(checking := c.checking + 1)
    case ReleaseGet(id) =>
      if Owns(s.cell, s.now, id) then c.(checking := c.checking - 1, mine := c.mine + 1)
      else c.(checking := c.checking - 1, finishing := c.finishing + 1)
    case ReleaseDel(_) => c.(mine := c.mine - 1, finishing := c.finishing + 1)
    case ReleaseReply(_) => c.(leader := false, finishing := c.finishing - 1)
    case ReleaseError(_) =>
      if 0 < c.mine then c.(leader := false, mine := c.mine - 1) else c.(leader := false, checking := c.checking - 1)
  }

  function CellAfter(cfg: Config, s: State, step: Step): Option<Lease> {
    match step
    case Acquire(id) => SetNX(s.cell, s.now, id, cfg.ttl)
    case Renew(id) => SetXX(s.cell, s.now, id, cfg.ttl)
    case ReleaseDel(_) => None
    case _ => s.cell
  }

  function After(cfg: Config, s: State, step: Step): State
    requires Enabled(s, step)
  {
    if step.Advance? then s.(now := s.now + step.ms)
    else State(s.now, CellAfter(cfg, s, step), s.cs[step.id := Local(cfg, s, s.cs[step.id], step)])
  }

  // ---------------------------------------------------------------- runs and assumptions

  /** Releases are asked for only by a flagged coordinator, one at a time. */
  predicate Polite(s: State, step: Step) {
    step.ReleaseCall? && step.id < |s.cs| ==> s.cs[step.id].Leads()
  }

  /** The lease does not run out while it matters to anyone. */
  predicate NoLapse(s: State, step: Step) {
    step.Advance? ==> (exists c <- s.cs :: c.Exposed()) ==> Alive(s.cell, s.now + step.ms)
  }

  predicate Runs(cfg: Config, s: State, steps: seq<Step>)
    decreases |steps|
  {
    steps == [] || (Enabled(s, steps[0]) && Runs(cfg, After(cfg, s, steps[0]), steps[1..]))
  }

  predicate Always(cfg: Config, s: State, steps: seq<Step>, ok: (State, Step) -> bool)
    requires Runs(cfg, s, steps)
    decreases |steps|
  {
    steps == [] || (ok(s, steps[0]) && Always(cfg, After(cfg, s, steps[0]), steps[1..], ok))
  }

  function Final(cfg: Config, s: State, steps: seq<Step>): State
    requires Runs(cfg, s, steps)
    decreases |steps|
  {
    if steps == [] then s else Final(cfg, After(cfg, s, steps[0]), steps[1..])
  }

  function Init(n: nat): State {
    State(0, None, seq(n, _ => IDLE))
  }

  ghost predicate OneLeader(s: State) {
    forall i, j :: 0 <= i < j < |s.cs| ==> !(s.cs[i].Leads() && s.cs[j].Leads())
  }

  // ---------------------------------------------------------------- mutual exclusion

  ghost predicate Tidy(c: Coordinator) {
    && c.checking + c.mine <= 1
    && c.acquired <= 1
    && (0 < c.acquired ==> c.checking == 0 && c.mine == 0 && !c.Leads())
  }

  ghost predicate Safe(s: State) {
    && (forall c <- s.cs :: Tidy(c))
    && (forall i :: 0 <= i < |s.cs| && s.cs[i].Exposed() ==> Alive(s.cell, s.now))
    && (forall i, j :: 0 <= i < j < |s.cs| ==> !(s.cs[i].Exposed() && s.cs[j].Exposed()))
  }

  lemma {:induction false} StepSafe(cfg: Config, s: State, step: Step)
    requires 0 < cfg.ttl && Safe(s) && Enabled(s, step) && Polite(s, step) && NoLapse(s, step)
    ensures Safe(After(cfg, s, step))
  {
    if !step.Advance? {
      var i := step.id;
      assert s.cs[i] in s.cs;
      var s' := After(cfg, s, step);
      assert Tidy(s'.cs[i]);
      forall j | 0 <= j < |s'.cs| ensures Tidy(s'.cs[j]) { if j != i { assert s.cs[j] in s.cs; } }
    } else {
      forall j | 0 <= j < |s.cs| && s.cs[j].Exposed() ensures Alive(s.cell, s.now + step.ms) {
        assert s.cs[j] in s.cs;
      }
    }
  }

  lemma {:induction false} RunSafe(cfg: Config, s: State, steps: seq<Step>)
    requires 0 < cfg.ttl && Safe(s) && Runs(cfg, s, steps)
    requires Always(cfg, s, steps, Polite) && Always(cfg, s, steps, NoLapse)
    ensures Safe(Final(cfg, s, steps))
    decreases |steps|
  {
    if steps != [] {
      StepSafe(cfg, s, steps[0]);
      RunSafe(cfg, After(cfg, s, steps[0]), steps[1..]);
    }
  }

  /**
   In every interleaving in which releases are polite and the lease does not run out
   while it matters, at most one coordinator leads, and a leader's lease is alive.
   */
  lemma AtMostOneLeader(cfg: Config, n: nat, steps: seq<Step>)
    requires 0 < cfg.ttl && Runs(cfg, Init(n), steps)
    requires Always(cfg, Init(n), steps, Polite) && Always(cfg, Init(n), steps, NoLapse)
    ensures OneLeader(Final(cfg, Init(n), steps))
    ensures var s := Final(cfg, Init(n), steps); forall c <- s.cs :: c.Leads() ==> Alive(s.cell, s.now)
  {
    RunSafe(cfg, Init(n), steps);
    var s := Final(cfg, Init(n), steps);
    forall c | c in s.cs && c.Leads() ensures Alive(s.cell, s.now) {
      var i :| 0 <= i < |s.cs| && s.cs[i] == c;
    }
  }

  // ---------------------------------------------------------------- the assumption follows from the timer

  /** Time does not pass the latest moment at which an exposed coordinator's next renewal lands. */
  predicate OnSchedule(s: State, step: Step) {
    step.Advance? ==> forall c <- s.cs :: c.Exposed() ==> s.now + step.ms <= c.due
  }

  ghost predicate Covered(cfg: Config, s: State) {
    forall c <- s.cs :: c.Exposed() ==>
      Alive(s.cell, s.now) && c.due < s.cell.value.expiresAt
          && c.due <= s.now + cfg.startSlack + cfg.Interval() + cfg.latency
  }

  ghost predicate TimelyConfig(cfg: Config) {
    0 < cfg.ttl && 0 <= cfg.startSlack && 0 <= cfg.latency && cfg.startSlack + cfg.latency < cfg.ttl - cfg.Interval()
  }

  lemma {:induction false} StepCovered(cfg: Config, s: State, step: Step)
    requires TimelyConfig(cfg) && Safe(s) && Covered(cfg, s) && Enabled(s, step)
    requires Polite(s, step) && OnSchedule(s, step)
    ensures NoLapse(s, step)
    ensures Covered(cfg, After(cfg, s, step))
  {
    if step.Advance? {
      if exists c <- s.cs :: c.Exposed() {
        var c :| c in s.cs && c.Exposed();
        assert s.now + step.ms <= c.due;
      }
    } else {
      var i, s' := step.id, After(cfg, s, step);
      assert s.cs[i] in s.cs;
      forall c | c in s'.cs && c.Exposed()
        ensures Alive(s'.cell, s'.now) && c.due < s'.cell.value.expiresAt
        ensures c.due <= s'.now + cfg.startSlack + cfg.Interval() + cfg.latency
      {
        var j :| 0 <= j < |s'.cs| && s'.cs[j] == c;
        if j != i { assert s.cs[j] in s.cs && s.cs[j] == c; }
      }
    }
  }

  lemma {:induction false} ScheduleKeepsLease(cfg: Config, s: State, steps: seq<Step>)
    requires TimelyConfig(cfg) && Safe(s) && Covered(cfg, s) && Runs(cfg, s, steps)
    requires Always(cfg, s, steps, Polite) && Always(cfg, s, steps, OnSchedule)
    ensures Always(cfg, s, steps, NoLapse)
    decreases |steps|
  {
    if steps != [] {
      StepCovered(cfg, s, steps[0]);
      StepSafe(cfg, s, steps[0]);
      ScheduleKeepsLease(cfg, After(cfg, s, steps[0]), steps[1..]);
    }
  }

  /** With timely renewals, mutual exclusion needs no further assumption about the lease. */
  lemma TimelyRenewalsGiveOneLeader(cfg: Config, n: nat, steps: seq<Step>)
    requires TimelyConfig(cfg) && Runs(cfg, Init(n), steps)
    requires Always(cfg, Init(n), steps, Polite) && Always(cfg, Init(n), steps, OnSchedule)
    ensures Always(cfg, Init(n), steps, NoLapse) && OneLeader(Final(cfg, Init(n), steps))
  {
    ScheduleKeepsLease(cfg, Init(n), steps);
    AtMostOneLeader(cfg, n, steps);
  }

  // ---------------------------------------------------------------- what the timer guarantees

  /**
   The timer's schedule after an acquisition at `acquiredAt`: it ticks every interval from
   `startedAt` on, and the k-th renewal takes effect at `lands(k)`.  `startedAt` is when the
   timer was started or, if one from an earlier term still runs, when that last ticked.
   */
  ghost predicate Schedule(cfg: Config, acquiredAt: int, startedAt: int, lands: nat -> int) {
    && acquiredAt - cfg.Interval() <= startedAt <= acquiredAt + cfg.startSlack
    && forall k: nat :: 1 <= k ==>
        startedAt + k * cfg.Interval() <= lands(k) <= startedAt + k * cfg.Interval() + cfg.latency
  }

  /** At time `t`, the acquisition, or a renewal that found the key alive, keeps it alive. */
  ghost predicate HeldAt(cfg: Config, acquiredAt: int, lands: nat -> int, t: int)
    decreases if acquiredAt <= t then t - acquiredAt else 0
  {
    || acquiredAt <= t < acquiredAt + cfg.ttl
    || exists k: nat ::
        1 <= k && acquiredAt <= lands(k) < t < lands(k) + cfg.ttl && HeldAt(cfg, acquiredAt, lands, lands(k))
  }

  lemma LastTickBefore(interval: int, startedAt: int, t: int) returns (k: nat)
    requires 0 < interval && startedAt + interval < t
    ensures 1 <= k && startedAt + k * interval < t <= startedAt + (k + 1) * interval
  {
    k := (t - startedAt - 1) / interval;
    var x := t - startedAt - 1;
    assert x == interval * (x / interval) + x % interval;
    assert k * interval == interval * k && (k + 1) * interval == k * interval + interval;
    assert interval <= x;
  }

  /** Timely renewals never let the lease lapse: each finds the key alive, kept so by those before it. */
  lemma {:induction false} TimerHoldsLease(cfg: Config, acquiredAt: int, startedAt: int, lands: nat -> int, t: int)
    requires TimelyConfig(cfg) && Schedule(cfg, acquiredAt, startedAt, lands) && acquiredAt <= t
    ensures HeldAt(cfg, acquiredAt, lands, t)
    decreases t - acquiredAt
  {
    if acquiredAt + cfg.ttl <= t {
      var k := LastTickBefore(cfg.Interval(), startedAt + cfg.latency, t);
      assert (k + 1) * cfg.Interval() == k * cfg.Interval() + cfg.Interval();
      TimesAtLeastOnce(k, cfg.Interval());
      assert acquiredAt <= lands(k) < t < lands(k) + cfg.ttl;
      TimerHoldsLease(cfg, acquiredAt, startedAt, lands, lands(k));
    }
  }

  /** A deadline computed from the latest landing is met by the next one, as `due` assumes. */
  lemma TimerMeetsDeadlines(cfg: Config, acquiredAt: int, startedAt: int, lands: nat -> int, k: nat)
    requires Schedule(cfg, acquiredAt, startedAt, lands)
    ensures lands(1) <= acquiredAt + cfg.startSlack + cfg.Interval() + cfg.latency
    ensures 1 <= k ==> lands(k + 1) <= lands(k) + cfg.Interval() + cfg.latency
  {
    assert 1 * cfg.Interval() == cfg.Interval();
    assert (k + 1) * cfg.Interval() == k * cfg.Interval() + cfg.Interval();
  }

  lemma TimesAtLeastOnce(k: nat, interval: int)
    requires 1 <= k && 0 < interval
    ensures interval <= k * interval
  {
    assert k * interval == interval + (k - 1) * interval;
  }

  // ---------------------------------------------------------------- runs driven by timers

  /** The timer of a coordinator's latest acquisition, and how many of its renewals have taken effect. */
  datatype Timer = Timer(acquiredAt: int, startedAt: int, lands: nat -> int, fired: nat)

  ghost predicate Ticking(cfg: Config, t: Timer) {
    Schedule(cfg, t.acquiredAt, t.startedAt, t.lands)
  }

  /**
   What a step does to the timers: an acquisition that wins starts one, or goes on with one
   that still runs; a renewal is the next of its timer, at its
   time, or one that an older timer still had under way; and time does not pass the next landing of a coordinator
   to whom the lease matters.
   */
  ghost predicate TimerStep(cfg: Config, s: State, ts: seq<Timer>, step: Step, ts': seq<Timer>)
    requires |ts| == |s.cs| && Enabled(s, step)
  {
    match step
    case Advance(ms) =>
      ts' == ts && forall i :: 0 <= i < |ts| && s.cs[i].Exposed() ==> s.now + ms <= ts[i].lands(ts[i].fired + 1)
    case Acquire(i) =>
      if Alive(s.cell, s.now) then ts' == ts
      else
        && |ts'| == |ts| && ts' == ts[i := ts'[i]]
        && ts'[i].acquiredAt == s.now && ts'[i].fired == 0 && Ticking(cfg, ts'[i])
    case Renew(i) =>
      || ts' == ts
      || (ts[i].lands(ts[i].fired + 1) == s.now && ts' == ts[i := ts[i].(fired := ts[i].fired + 1)])
    case _ => ts' == ts
  }

  ghost predicate Timed(cfg: Config, s: State, ts: seq<Timer>, steps: seq<Step>)
    requires Runs(cfg, s, steps) && |ts| == |s.cs|
    decreases |steps|
  {
    steps == [] ||
    exists ts' :: |ts'| == |ts| && TimerStep(cfg, s, ts, steps[0], ts')
        && Timed(cfg, After(cfg, s, steps[0]), ts', steps[1..])
  }

  /** Where the lease matters, a real timer is running, and its next renewal is no later than `due`. */
  ghost predicate Driven(cfg: Config, s: State, ts: seq<Timer>) {
    && |ts| == |s.cs|
    && forall i :: 0 <= i < |ts| && s.cs[i].Exposed() ==>
         Ticking(cfg, ts[i]) && ts[i].lands(ts[i].fired + 1) <= s.cs[i].due
  }

  lemma StepDriven(cfg: Config, s: State, ts: seq<Timer>, step: Step, ts': seq<Timer>)
    requires Driven(cfg, s, ts) && Enabled(s, step) && |ts'| == |ts| && TimerStep(cfg, s, ts, step, ts')
    requires Safe(s) && Polite(s, step)
    ensures OnSchedule(s, step)
    ensures Driven(cfg, After(cfg, s, step), ts')
  {
    if step.Advance? {
      forall c | c in s.cs && c.Exposed() ensures s.now + step.ms <= c.due {
        var i :| 0 <= i < |s.cs| && s.cs[i] == c;
      }
    } else {
      var i, s' := step.id, After(cfg, s, step);
      assert s.cs[i] in s.cs;
      if s'.cs[i].Exposed() {
        if step.Acquire? && !Alive(s.cell, s.now) {
          TimerMeetsDeadlines(cfg, s.now, ts'[i].startedAt, ts'[i].lands, 0);
        } else {
          assert s.cs[i].Exposed();
          TimerMeetsDeadlines(cfg, ts[i].acquiredAt, ts[i].startedAt, ts[i].lands, ts[i].fired + 1);
        }
      }
    }
  }

  /** A run driven by timers is on schedule. */
  lemma {:induction false} TimersKeepSchedule(cfg: Config, s: State, ts: seq<Timer>, steps: seq<Step>)
    requires TimelyConfig(cfg) && Safe(s) && Covered(cfg, s) && Driven(cfg, s, ts)
    requires Runs(cfg, s, steps) && Always(cfg, s, steps, Polite) && Timed(cfg, s, ts, steps)
    ensures Always(cfg, s, steps, OnSchedule)
    decreases |steps|
  {
    if steps != [] {
      var ts' :| |ts'| == |ts| && TimerStep(cfg, s, ts, steps[0], ts')
          && Timed(cfg, After(cfg, s, steps[0]), ts', steps[1..]);
      StepDriven(cfg, s, ts, steps[0], ts');
      StepCovered(cfg, s, steps[0]);
      StepSafe(cfg, s, steps[0]);
      TimersKeepSchedule(cfg, After(cfg, s, steps[0]), ts', steps[1..]);
    }
  }

  /** Timers that renew in time are all that mutual exclusion needs beside polite releases. */
  lemma TimersGiveOneLeader(cfg: Config, n: nat, ts: seq<Timer>, steps: seq<Step>)
    requires TimelyConfig(cfg) && |ts| == n && Runs(cfg, Init(n), steps)
    requires Always(cfg, Init(n), steps, Polite) && Timed(cfg, Init(n), ts, steps)
    ensures Always(cfg, Init(n), steps, OnSchedule) && OneLeader(Final(cfg, Init(n), steps))
  {
    TimersKeepSchedule(cfg, Init(n), ts, steps);
    TimelyRenewalsGiveOneLeader(cfg, n, steps);
  }

  // ---------------------------------------------------------------- and the bound is exact

  ghost predicate ScheduleIsSafe(cfg: Config) {
    forall n: nat, steps ::
      Runs(cfg, Init(n), steps) && Always(cfg, Init(n), steps, Polite) && Always(cfg, Init(n), steps, OnSchedule) ==>
        OneLeader(Final(cfg, Init(n), steps))
  }

  ghost predicate TimersAreSafe(cfg: Config) {
    forall n: nat, ts: seq<Timer>, steps ::
      |ts| == n && Runs(cfg, Init(n), steps) && Always(cfg, Init(n), steps, Polite)
          && Timed(cfg, Init(n), ts, steps) ==>
        OneLeader(Final(cfg, Init(n), steps))
  }

  /** The first coordinator's latest possible renewal comes too late: the second acquires the lapsed key. */
  function LateRun(cfg: Config): seq<Step>
    requires 0 < cfg.ttl
  {
    [Acquire(0)] + ([AcquireReply(0, true)] + ([Advance(cfg.ttl)] + LateEnd()))
  }

  function LateEnd(): seq<Step> {
    [Acquire(1)] + ([AcquireReply(1, true)] + [])
  }

  function LateTimer(cfg: Config): Timer {
    Timer(0, cfg.startSlack, k => cfg.startSlack + k * cfg.Interval() + cfg.latency, 0)
  }

  function LateTimers(cfg: Config): seq<Timer> {
    [LateTimer(cfg), LateTimer(cfg)]
  }

  /** The first coordinator leads, at time `now`. */
  function LateState(cfg: Config, now: int): State {
    State(now, Some(Lease(0, cfg.ttl)), [IDLE.(leader := true, due := cfg.startSlack + cfg.Interval() + cfg.latency),
        IDLE])
  }

  predicate TwoLeaders(s: State) {
    |s.cs| == 2 && s.cs[0].Leads() && s.cs[1].Leads()
  }

  /** A run as the timers drive it. */
  ghost predicate Proper(cfg: Config, s: State, ts: seq<Timer>, steps: seq<Step>) {
    && |ts| == |s.cs| && Runs(cfg, s, steps)
    && Always(cfg, s, steps, Polite) && Always(cfg, s, steps, OnSchedule) && Timed(cfg, s, ts, steps)
  }

  /** One more step in front of a run. */
  lemma StepBefore(cfg: Config, s: State, ts: seq<Timer>, step: Step, t: State, ts': seq<Timer>, steps: seq<Step>)
    requires |ts| == |s.cs| == |ts'| && Enabled(s, step) && After(cfg, s, step) == t && TimerStep(cfg, s, ts, step, ts')
    requires Polite(s, step) && OnSchedule(s, step)
    requires Proper(cfg, t, ts', steps)
    ensures Proper(cfg, s, ts, [step] + steps) && Final(cfg, s, [step] + steps) == Final(cfg, t, steps)
  {
    assert ([step] + steps)[1..] == steps;
  }

  lemma LateTimerTicks(cfg: Config)
    requires 0 < cfg.ttl && 0 <= cfg.startSlack && 0 <= cfg.latency
    ensures Ticking(cfg, LateTimer(cfg)) && LateTimer(cfg).lands(1) == cfg.startSlack + cfg.Interval() + cfg.latency
  {}

  lemma SecondTakesLapsedKey(cfg: Config)
    requires 0 < cfg.ttl && 0 <= cfg.startSlack && 0 <= cfg.latency
    ensures Proper(cfg, LateState(cfg, cfg.ttl), LateTimers(cfg), LateEnd())
    ensures TwoLeaders(Final(cfg, LateState(cfg, cfg.ttl), LateEnd()))
  {
    var due := cfg.startSlack + cfg.Interval() + cfg.latency;
    var ts := LateTimers(cfg);
    var timer := Timer(cfg.ttl, cfg.ttl, k => cfg.ttl + k * cfg.Interval(), 0);
    var ts1 := ts[1 := timer];
    var s3 := LateState(cfg, cfg.ttl);
    var s4 := State(cfg.ttl, Some(Lease(1, cfg.ttl + cfg.ttl)), [s3.cs[0], IDLE.(acquired := 1, due := cfg.ttl + due)]);
    var s5 := s4.(cs := [s3.cs[0], IDLE.(leader := true, due := cfg.ttl + due)]);
    assert Ticking(cfg, timer);
    assert After(cfg, s4, AcquireReply(1, true)) == s5;
    assert After(cfg, s3, Acquire(1)) == s4;
    StepBefore(cfg, s4, ts1, AcquireReply(1, true), s5, ts1, []);
    StepBefore(cfg, s3, ts, Acquire(1), s4, ts1, [AcquireReply(1, true)] + []);
  }

  /** With any more slack or latency, a polite run on schedule, driven by timers, ends with two leaders. */
  lemma LateTimerLosesLease(cfg: Config)
    requires 0 < cfg.ttl && 0 <= cfg.startSlack && 0 <= cfg.latency
    requires cfg.ttl - cfg.Interval() <= cfg.startSlack + cfg.latency
    ensures Proper(cfg, Init(2), LateTimers(cfg), LateRun(cfg)) && !OneLeader(Final(cfg, Init(2), LateRun(cfg)))
  {
    var ts, due := LateTimers(cfg), cfg.startSlack + cfg.Interval() + cfg.latency;
    var s0 := State(0, None, [IDLE, IDLE]);
    var s1 := State(0, Some(Lease(0, cfg.ttl)), [IDLE.(acquired := 1, due := due), IDLE]);
    LateTimerTicks(cfg);
    FirstLapses(cfg);
    assert Init(2) == s0;
    assert ts[0 := ts[0]] == ts;
    assert After(cfg, s1, AcquireReply(0, true)) == LateState(cfg, 0);
    assert After(cfg, s0, Acquire(0)) == s1;
    StepBefore(cfg, s1, ts, AcquireReply(0, true), LateState(cfg, 0), ts, [Advance(cfg.ttl)] + LateEnd());
    StepBefore(cfg, s0, ts, Acquire(0), s1, ts, [AcquireReply(0, true)] + ([Advance(cfg.ttl)] + LateEnd()));
  }

  lemma FirstLapses(cfg: Config)
    requires 0 < cfg.ttl && 0 <= cfg.startSlack && 0 <= cfg.latency
    requires cfg.ttl - cfg.Interval() <= cfg.startSlack + cfg.latency
    ensures Proper(cfg, LateState(cfg, 0), LateTimers(cfg), [Advance(cfg.ttl)] + LateEnd())
    ensures TwoLeaders(Final(cfg, LateState(cfg, 0), [Advance(cfg.ttl)] + LateEnd()))
  {
    LateTimerTicks(cfg);
    SecondTakesLapsedKey(cfg);
    StepBefore(cfg, LateState(cfg, 0), LateTimers(cfg), Advance(cfg.ttl), LateState(cfg, cfg.ttl), LateTimers(cfg),
        LateEnd());
  }

  /**
   One leader in every polite run on schedule, or driven by timers, is exactly what the timely configurations
   give.
   */
  lemma TimelyConfigIff(cfg: Config)
    requires 0 < cfg.ttl && 0 <= cfg.startSlack && 0 <= cfg.latency
    ensures ScheduleIsSafe(cfg) <==> cfg.startSlack + cfg.latency < cfg.ttl - cfg.Interval()
    ensures TimersAreSafe(cfg) <==> cfg.startSlack + cfg.latency < cfg.ttl - cfg.Interval()
  {
    if cfg.startSlack + cfg.latency < cfg.ttl - cfg.Interval() {
      forall n: nat, steps | Runs(cfg, Init(n), steps) && Always(cfg, Init(n), steps, Polite)
          && Always(cfg, Init(n), steps, OnSchedule)
        ensures OneLeader(Final(cfg, Init(n), steps))
      {
        TimelyRenewalsGiveOneLeader(cfg, n, steps);
      }
      forall n: nat, ts: seq<Timer>, steps | |ts| == n && Runs(cfg, Init(n), steps)
          && Always(cfg, Init(n), steps, Polite) && Timed(cfg, Init(n), ts, steps)
        ensures OneLeader(Final(cfg, Init(n), steps))
      {
        TimersGiveOneLeader(cfg, n, ts, steps);
      }
    } else {
      LateTimerLosesLease(cfg);
    }
  }

  // ---------------------------------------------------------------- the standby

  /** A standby's polls: one every `poll` milliseconds from `startedAt`, each landing within `latency`. */
  ghost predicate Polls(poll: int, latency: int, startedAt: int, lands: nat -> int) {
    forall k: nat :: 1 <= k ==> startedAt + k * poll <= lands(k) <= startedAt + k * poll + latency
  }

  /**
   Once the holder has stopped renewing, a standby that was already polling gets its SET NX in on the dead key
   within one poll and one latency of the expiry, and wins.
   */
  lemma StandbyTakesOver(ttl: int, poll: int, latency: int, startedAt: int, lands: nat -> int, lease: Lease,
      standby: Id)
    returns (k: nat)
    requires 0 < poll && 0 <= latency && 0 < ttl && Polls(poll, latency, startedAt, lands)
    requires startedAt + poll < lease.expiresAt
    ensures 1 <= k && lease.expiresAt <= lands(k) < lease.expiresAt + poll + latency
    ensures Owns(SetNX(Some(lease), lands(k), standby, ttl), lands(k), standby)
  {
    var before := LastTickBefore(poll, startedAt, lease.expiresAt);
    k := before + 1;
    assert k * poll == before * poll + poll;
  }

  /** Some poll takes the dead key before a further time to live has passed. */
  ghost predicate TakenOver(ttl: int, lands: nat -> int, lease: Lease, standby: Id) {
    exists k: nat :: 1 <= k && lease.expiresAt <= lands(k) < lease.expiresAt + ttl
                     && Owns(SetNX(Some(lease), lands(k), standby, ttl), lands(k), standby)
  }

  ghost predicate AlwaysTakenOver(ttl: int, poll: int, latency: int) {
    forall startedAt: int, lands: nat -> int, lease: Lease, standby: Id ::
      Polls(poll, latency, startedAt, lands) && startedAt + poll < lease.expiresAt ==>
          TakenOver(ttl, lands, lease, standby)
  }

  /** Takeover within one time to live of the expiry is guaranteed if and only if a poll and a latency fit into it. */
  lemma TakeoverWithinTtlIff(ttl: int, poll: int, latency: int)
    requires 0 < poll && 0 <= latency && 0 < ttl
    ensures AlwaysTakenOver(ttl, poll, latency) <==> poll + latency <= ttl
  {
    if poll + latency <= ttl {
      forall startedAt: int, lands: nat -> int, lease: Lease, standby: Id
        | Polls(poll, latency, startedAt, lands) && startedAt + poll < lease.expiresAt
        ensures TakenOver(ttl, lands, lease, standby)
      {
        var k := StandbyTakesOver(ttl, poll, latency, startedAt, lands, lease, standby);
      }
    } else {
      LateTakeover(ttl, poll, latency, Lease(0, 0), 1);
    }
  }

  /** A poll just before the expiry, the next one as late as it may be. */
  lemma LateTakeover(ttl: int, poll: int, latency: int, lease: Lease, standby: Id)
    requires 0 < poll && 0 <= latency && 0 < ttl < poll + latency
    ensures exists startedAt: int, lands: nat -> int ::
              Polls(poll, latency, startedAt, lands) && startedAt + poll < lease.expiresAt
                  && !TakenOver(ttl, lands, lease, standby)
  {
    var last := lease.expiresAt - 1;
    var lands: nat -> int := k => if k <= 1 then last else last + (k - 1) * poll + latency;
    forall k: nat | 1 <= k ensures last - poll + k * poll <= lands(k) <= last - poll + k * poll + latency {
      assert k * poll == (k - 1) * poll + poll;
    }
    assert Polls(poll, latency, last - poll, lands);
    forall k: nat | 2 <= k ensures lease.expiresAt + ttl <= lands(k) {
      TimesAtLeastOnce(k - 1, poll);
    }
    assert lands(1) < lease.expiresAt;
    assert !TakenOver(ttl, lands, lease, standby);
  }

  // ---------------------------------------------------------------- the classes

  /** The shared key, with the clock that ages it. */
  class LeaseStore {
    var cell: Option<Lease>
    var now: int

    constructor ()
      ensures cell == None && now == 0
    {
      cell, now := None, 0;
    }

    method SetIfAbsent(id: Id, ttl: int) returns (ok: bool)
      modifies this`cell
      ensures cell == SetNX(old(cell), now, id, ttl)
      ensures ok <==> !Alive(old(cell), now)
    {
      ok := !Alive(cell, now);
      if ok { cell := Some(Lease(id, now + ttl)); }
    }

    method SetIfPresent(id: Id, ttl: int) returns (ok: bool)
      modifies this`cell
      ensures cell == SetXX(old(cell), now, id, ttl)
      ensures ok <==> Alive(old(cell), now)
    {
      ok := Alive(cell, now);
      if ok { cell := Some(Lease(id, now + ttl)); }
    }

    method Get() returns (owner: Option<Id>)
      ensures owner == if Alive(cell, now) then Some(cell.value.owner) else None
    {
      owner := if Alive(cell, now) then Some(cell.value.owner) else None;
    }

    method Del()
      modifies this`cell
      ensures cell == None
    {
      cell := None;
    }
  }

  /** Whether a store call fails, and if so whether its command had taken effect. */
  datatype Fault = NoFault | BeforeEffect | AfterEffect

  /** One coordinator's election object; each method runs without anyone stepping in between. */
  class LeaderElection {
    const id: Id
    const leaseTtlMs: int
    const store: LeaseStore
    var leader: bool
    var renewalTimer: Option<int>

    constructor (id: Id, leaseTtlMs: int, store: LeaseStore)
      ensures this.id == id && this.leaseTtlMs == leaseTtlMs && this.store == store
      ensures !leader && renewalTimer == None
    {
      this.id, this.leaseTtlMs, this.store := id, leaseTtlMs, store;
      leader, renewalTimer := false, None;
    }

    /** A failed call leaves the flag alone, even when the key was in fact written. */
    method TryAcquire(fault: Fault) returns (r: Result<bool, string>)
      modifies this`leader, store`cell
      ensures store.cell == if fault == BeforeEffect then old(store.cell)
              else SetNX(old(store.cell), store.now, id, leaseTtlMs)
      ensures fault == NoFault ==> r == Ok(leader) && (leader <==> !Alive(old(store.cell), store.now))
      ensures fault == NoFault && leader && 0 < leaseTtlMs ==> Owns(store.cell, store.now, id)
      ensures fault != NoFault ==> r.Err? && leader == old(leader)
    {
      if fault == BeforeEffect {
        return Err("leader.tryAcquire");
      }
      var acquired := store.SetIfAbsent(id, leaseTtlMs);
      if fault == AfterEffect {
        return Err("leader.tryAcquire");
      }
      leader := acquired;
      return Ok(acquired);
    }

    /** A failed or refused renewal drops the flag; a successful one does not raise it. */
    method Renew(fault: Fault) returns (r: Result<bool, string>)
      modifies this`leader, store`cell
      ensures store.cell == if fault == BeforeEffect then old(store.cell)
              else SetXX(old(store.cell), store.now, id, leaseTtlMs)
      ensures fault == NoFault ==> r == Ok(Alive(old(store.cell), store.now))
      ensures fault != NoFault ==> r.Err?
      ensures leader <==> old(leader) && r == Ok(true)
    {
      if fault == BeforeEffect {
        leader := false;
        return Err("leader.renew");
      }
      var renewed := store.SetIfPresent(id, leaseTtlMs);
      if fault == AfterEffect {
        leader := false;
        return Err("leader.renew");
      }
      if !renewed {
        leader := false;
      }
      return Ok(renewed);
    }

    /** Deletes the key if this coordinator owns it; the flag is dropped in any case. */
    method Release(getFails: bool, delFails: bool) returns (r: Result<(), string>)
      modifies this`leader, store`cell
      ensures !leader
      ensures var mine := Owns(old(store.cell), store.now, id);
              && store.cell == (if !getFails && mine && !delFails then None else old(store.cell))
              && (r.Err? <==> getFails || (mine && delFails))
    {
      if getFails {
        leader := false;
        return Err("leader.release");
      }
      var current := store.Get();
      if current == Some(id) {
        if delFails {
          leader := false;
          return Err("leader.release");
        }
        store.Del();
      }
      leader := false;
      return Ok(());
    }

    method StartRenewal()
      modifies this`renewalTimer
      ensures renewalTimer == if old(renewalTimer).Some? then old(renewalTimer) else Some(leaseTtlMs / 3)
    {
      if renewalTimer.Some? { return; }
      renewalTimer := Some(leaseTtlMs / 3);
    }

    method StopRenewal()
      modifies this`renewalTimer
      ensures renewalTimer == None
    {
      renewalTimer := None;
    }
  }

  /** The standby: polls for the lease and starts renewing when it gets it. */
  class FailoverController {
    const election: LeaderElection
    const pollIntervalMs: int
    var timer: Option<int>
    var active: bool
    var takeovers: nat

    constructor (election: LeaderElection, pollIntervalMs: int)
      ensures this.election == election && this.pollIntervalMs == pollIntervalMs
      ensures timer == None && !active && takeovers == 0
    {
      this.election, this.pollIntervalMs := election, pollIntervalMs;
      timer, active, takeovers := None, false, 0;
    }

    /** One poll: takes over exactly when it does not lead yet and the key is dead. */
    method AttemptAcquire(fault: Fault)
      modifies this`takeovers, election`leader, election`renewalTimer, election.store`cell
      ensures var wins := !old(election.leader) && fault == NoFault
              && !Alive(old(election.store.cell), election.store.now);
              && takeovers == old(takeovers) + (if wins then 1 else 0)
              && (wins ==> election.leader && election.renewalTimer.Some?)
              && (!wins ==> (election.leader, election.renewalTimer) == old((election.leader, election.renewalTimer)))
      ensures old(election.leader) ==> election.store.cell == old(election.store.cell)
    {
      if election.leader { return; }
      var result := election.TryAcquire(fault);
      if result.Err? { return; }
      if result.value {
        election.StartRenewal();
        takeovers := takeovers + 1;
      }
    }

    method Start()
      modifies this`timer, this`active
      ensures active && timer == if old(active) then old(timer) else Some(pollIntervalMs)
    {
      if active { return; }
      active := true;
      timer := Some(pollIntervalMs);
    }

    method Stop()
      modifies this`timer, this`active
      ensures !active && timer == None
    {
      timer, active := None, false;
    }
  }
}
