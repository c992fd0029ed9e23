/**
 The sliding-window limiter over a shared sorted set.  A check is two store operations
 that other clients may come between: one atomic pipeline (clean up, count, add, set the
 time to live) and, if the request is denied, a later removal of what was added.  A client
 reads the clock before it sends, so pipelines may land out of the order of their stamps.
 Members are the unique tags the clients attach; all clients share one monotone clock.
 */
module SlidingWindows {
  import opened Wrappers
  import opened Sizes

  type Member = nat
  type Scores = map<Member, int>

  datatype Config = Config(maxRequests: nat, windowMs: int) {
    ghost predicate Sensible() {
      0 < windowMs
    }
  }

  // ---------------------------------------------------------------- the sorted set

  function WithoutScores(z: Scores, min: int, max: int): Scores {
    map m | m in z && !(min <= z[m] <= max) :: z[m]
  }

  /** What the store holds after the pipeline's clean-up, whose size is the count it reports. */
  function Cleaned(cfg: Config, z: Scores, now: int): Scores {
    WithoutScores(z, 0, now - cfg.windowMs)
  }

  // ---------------------------------------------------------------- the protocol

  /**
   What became of a request whose pipeline ran: admitted; denied, and not taken back yet;
   unknown to its client, whose reply was lost; or denied and taken back.
   */
  datatype Fate = Admitted | Owing | Lost | Gone

  /** `epoch`: how many resets came before; `sweep`: how many clean-ups, its own included. */
  datatype Record = Record(at: int, fate: Fate, epoch: nat, sweep: nat)

  type Log = map<Member, Record>

  /**
   `members` is the stored set with the earliest end of its time to live; `log`, `resets` and `sweeps` (the stamps
   of the clean-ups) are the history, kept for the proof; `clock` is the latest time seen by the store.
   */
  datatype State = State(members: Scores, expireAt: int, log: Log, resets: seq<int>, sweeps: seq<int>, clock: int)

  const START := State(map[], 0, map[], [], [], 0)

  datatype Event =
    | Check(member: Member, now: int)       // the pipeline lands, stamped `now`, and the client learns the count
    | CheckLost(member: Member, now: int)   // the pipeline lands but the client only sees an error
    | Remove(member: Member)                // a denied client takes its member back
    | Peek(now: int)
    | Reset(now: int)                       // at the store's time, as is the next
    | Expire(now: int)                      // the key's time to live runs out

  /** A stamp may be behind what the store has seen by as much as `late`. */
  predicate Stamp(late: nat, s: State, now: int) {
    0 <= now && s.clock - late <= now
  }

  predicate Enabled(late: nat, s: State, e: Event) {
    match e
    case Check(m, now) => m !in s.log && Stamp(late, s, now)
    case CheckLost(m, now) => m !in s.log && Stamp(late, s, now)
    case Remove(m) => m in s.log && s.log[m].fate == Owing
    case Peek(now) => Stamp(late, s, now)
    case Reset(now) => s.clock <= now
    case Expire(now) => s.clock <= now && s.expireAt <= now
  }

  predicate Allows(cfg: Config, s: State, now: int) {
    |Cleaned(cfg, s.members, now)| < cfg.maxRequests
  }

  function Later(a: int, b: int): int {
    if a < b then b else a
  }

  function Piped(cfg: Config, s: State, m: Member, now: int, fate: Fate): State {
    var clock := Later(s.clock, now);
    State(Cleaned(cfg, s.members, now)[m := now], clock + cfg.windowMs,
          s.log[m := Record(now, fate, |s.resets|, |s.sweeps| + 1)], s.resets, s.sweeps + [now], clock)
  }

  function Step(cfg: Config, s: State, e: Event): State {
    match e
    case Check(m, now) => Piped(cfg, s, m, now, if Allows(cfg, s, now) then Admitted else Owing)
    case CheckLost(m, now) => Piped(cfg, s, m, now, Lost)
    case Remove(m) => s.(members := s.members - {m}, log := if m in s.log then s.log[m := s.log[m].(fate := Gone)]
        else s.log)
    case Peek(now) => s.(members := Cleaned(cfg, s.members, now), sweeps := s.sweeps
        + [now], clock := Later(s.clock, now))
    case Reset(now) => s.(members := map[], resets := s.resets + [now], clock := now)
    case Expire(now) => s.(members := map[], sweeps := s.sweeps + [now], clock := now)
  }

  function Run(cfg: Config, s: State, es: seq<Event>): State
    decreases |es|
  {
    if es == [] then s else Run(cfg, Step(cfg, s, es[0]), es[1..])
  }

  predicate Runnable(cfg: Config, late: nat, s: State, es: seq<Event>)
    decreases |es|
  {
    es == [] || (Enabled(late, s, es[0]) && Runnable(cfg, late, Step(cfg, s, es[0]), es[1..]))
  }

  // ---------------------------------------------------------------- windows

  predicate InWindow(width: int, at: int, t: int) {
    t - width < at <= t
  }

  /** The requests of one fate and epoch in the half-open window of that width that ends at `t`. */
  function Window(log: Log, fate: Fate, epoch: nat, width: int, t: int): set<Member> {
    set m | m in log && log[m].fate == fate && log[m].epoch == epoch && InWindow(width, log[m].at, t)
  }

  /** No clean-up since the request landed was old enough to remove it. */
  predicate Unswept(cfg: Config, sweeps: seq<int>, r: Record) {
    forall k :: r.sweep <= k < |sweeps| ==> sweeps[k] - cfg.windowMs < r.at
  }

  predicate Kept(cfg: Config, s: State, r: Record) {
    r.fate != Gone && r.epoch == |s.resets| && Unswept(cfg, s.sweeps, r)
  }

  /** The stored set is what the history says: requests since the last reset, not taken back and not swept away. */
  ghost predicate Tracks(cfg: Config, s: State) {
    && (forall m <- s.members.Keys :: m in s.log && Kept(cfg, s, s.log[m]) && s.log[m].at == s.members[m])
    && (forall m <- s.log.Keys :: Kept(cfg, s, s.log[m]) ==> m in s.members)
  }

  /** Everything recorded lies in the past and expires no later than the key does. */
  ghost predicate Ages(cfg: Config, s: State) {
    && (forall m <- s.log.Keys :: Aged(cfg, s, s.log[m]))
    && (forall k :: 0 <= k < |s.sweeps| ==> s.sweeps[k] <= s.clock)
  }

  predicate Aged(cfg: Config, s: State, r: Record) {
    0 <= r.at <= s.clock && r.at + cfg.windowMs <= s.expireAt && r.sweep <= |s.sweeps|
  }

  /**
   Resets are in order, and each request lies between the resets that bound its epoch, or is stamped a little
   before them.
   */
  ghost predicate Epochs(late: nat, s: State) {
    && (forall i, j :: 0 <= i < j < |s.resets| ==> s.resets[i] <= s.resets[j])
    && (forall r <- s.resets :: r <= s.clock)
    && (forall m <- s.log.Keys :: InEpoch(late, s.resets, s.log[m]))
  }

  predicate InEpoch(late: nat, resets: seq<int>, r: Record) {
    && r.epoch <= |resets|
    && (0 < r.epoch ==> resets[r.epoch - 1] - late <= r.at)
    && (r.epoch < |resets| ==> r.at <= resets[r.epoch])
  }

  /** No window of that width holds more than `limit` requests admitted in one epoch. */
  ghost predicate WithinLimit(limit: nat, width: int, log: Log) {
    forall epoch: nat, t :: |Window(log, Admitted, epoch, width, t)| <= limit
  }

  ghost predicate Invariant(cfg: Config, late: nat, s: State) {
    0 <= s.clock && Tracks(cfg, s) && Ages(cfg, s) && Epochs(late, s)
        && WithinLimit(cfg.maxRequests, cfg.windowMs - late, s.log)
  }

  // ---------------------------------------------------------------- what the decision counts

  /** The requests of one fate that a pipeline stamped `now` would count. */
  function Counted(cfg: Config, s: State, fate: Fate, now: int): set<Member> {
    set m | m in s.log && s.log[m].fate == fate && Kept(cfg, s, s.log[m]) && now - cfg.windowMs < s.log[m].at
  }

  /** A stored member survives the clean-up exactly when it is young for it. */
  lemma CleanedMember(cfg: Config, s: State, now: int, m: Member)
    requires Tracks(cfg, s) && Ages(cfg, s)
    ensures m in Cleaned(cfg, s.members, now) <==>
            m in s.log && Kept(cfg, s, s.log[m]) && now - cfg.windowMs < s.log[m].at
  {
    if m in s.members { assert m in s.members.Keys && m in s.log.Keys; }
    if m in s.log { assert m in s.log.Keys && Aged(cfg, s, s.log[m]); }
  }

  lemma CleanedKeys(cfg: Config, s: State, now: int)
    requires Tracks(cfg, s) && Ages(cfg, s)
    ensures Cleaned(cfg, s.members, now).Keys ==
            Counted(cfg, s, Admitted, now) + Counted(cfg, s, Owing, now) + Counted(cfg, s, Lost, now)
  {
    forall m ensures m in Cleaned(cfg, s.members, now).Keys <==>
                     m in Counted(cfg, s, Admitted, now) + Counted(cfg, s, Owing, now) + Counted(cfg, s, Lost, now)
    {
      CleanedMember(cfg, s, now, m);
    }
  }

  lemma CountedDisjoint(cfg: Config, s: State, f: Fate, g: Fate, now: int)
    requires f != g
    ensures Counted(cfg, s, f, now) !! Counted(cfg, s, g, now)
  {}

  lemma ThreeParts(a: set<Member>, o: set<Member>, l: set<Member>)
    requires a !! o && a !! l && o !! l
    ensures |a + o + l| == |a| + |o| + |l|
  {
    assert (a + o) !! l;
  }

  /** The cleaned set is exactly those requests, admitted, owing or lost. */
  lemma CleanedIsCounted(cfg: Config, s: State, now: int)
    requires Tracks(cfg, s) && Ages(cfg, s)
    ensures |Cleaned(cfg, s.members, now)| ==
            |Counted(cfg, s, Admitted, now)| + |Counted(cfg, s, Owing, now)| + |Counted(cfg, s, Lost, now)|
  {
    CleanedKeys(cfg, s, now);
    CountedDisjoint(cfg, s, Admitted, Owing, now);
    CountedDisjoint(cfg, s, Admitted, Lost, now);
    CountedDisjoint(cfg, s, Owing, Lost, now);
    ThreeParts(Counted(cfg, s, Admitted, now), Counted(cfg, s, Owing, now), Counted(cfg, s, Lost, now));
    var z := Cleaned(cfg, s.members, now);
    assert |z| == |z.Keys|;
  }

  /** What is young for the latest clean-up there was is still stored. */
  lemma YoungIsKept(cfg: Config, s: State, m: Member)
    requires Ages(cfg, s) && m in s.log && s.log[m].fate != Gone && s.log[m].epoch == |s.resets|
    requires s.clock - cfg.windowMs < s.log[m].at
    ensures Kept(cfg, s, s.log[m])
  {}

  /** For a stamp no older than anything the store has seen, the requests counted are those of the window. */
  lemma CountedIsWindow(cfg: Config, s: State, fate: Fate, now: int)
    requires Ages(cfg, s) && s.clock <= now && fate != Gone
    ensures Counted(cfg, s, fate, now) == Window(s.log, fate, |s.resets|, cfg.windowMs, now)
  {
    forall m | m in s.log && s.log[m].fate == fate && s.log[m].epoch == |s.resets|
      ensures m in Counted(cfg, s, fate, now) <==> InWindow(cfg.windowMs, s.log[m].at, now)
    {
      assert m in s.log.Keys && Aged(cfg, s, s.log[m]);
      if now - cfg.windowMs < s.log[m].at { YoungIsKept(cfg, s, m); }
    }
  }

  /** For a late stamp, any window around it that is shorter by `late` is counted in full. */
  lemma CountedCoversWindow(cfg: Config, late: nat, s: State, fate: Fate, now: int, t: int)
    requires Ages(cfg, s) && s.clock - late <= now <= t && fate != Gone
    ensures Window(s.log, fate, |s.resets|, cfg.windowMs - late, t) <= Counted(cfg, s, fate, now)
  {
    forall m | m in Window(s.log, fate, |s.resets|, cfg.windowMs - late, t) ensures m in Counted(cfg, s, fate, now) {
      YoungIsKept(cfg, s, m);
    }
  }

  // ---------------------------------------------------------------- the invariant

  lemma AdmitKeepsLimit(cfg: Config, late: nat, s: State, m: Member, now: int)
    requires Invariant(cfg, late, s) && Stamp(late, s, now) && m !in s.log && Allows(cfg, s, now)
    ensures WithinLimit(cfg.maxRequests, cfg.windowMs - late,
            s.log[m := Record(now, Admitted, |s.resets|, |s.sweeps| + 1)])
  {
    var here, width := |s.resets|, cfg.windowMs - late;
    CleanedIsCounted(cfg, s, now);
    forall t | now <= t ensures |Window(s.log, Admitted, here, width, t)| < cfg.maxRequests {
      CountedCoversWindow(cfg, late, s, Admitted, now, t);
      SubsetSize(Window(s.log, Admitted, here, width, t), Counted(cfg, s, Admitted, now));
    }
    AdmitOne(cfg.maxRequests, width, s.log, m, Record(now, Admitted, here, |s.sweeps| + 1));
  }

  lemma AdmitOne(limit: nat, width: int, log: Log, m: Member, r: Record)
    requires WithinLimit(limit, width, log) && m !in log
    requires forall t :: r.at <= t ==> |Window(log, Admitted, r.epoch, width, t)| < limit
    ensures WithinLimit(limit, width, log[m := r])
  {
    var log' := log[m := r];
    forall e: nat, t ensures |Window(log', Admitted, e, width, t)| <= limit {
      var before := Window(log, Admitted, e, width, t);
      if r.at <= t && e == r.epoch {
        SubsetSize(Window(log', Admitted, e, width, t), before + {m});
      } else {
        assert Window(log', Admitted, e, width, t) == before;
      }
    }
  }

  /** Recording anything but an admission cannot break the limit. */
  lemma FewerAdmitted(limit: nat, width: int, before: Log, after: Log)
    requires WithinLimit(limit, width, before)
    requires forall m <- after.Keys :: after[m].fate == Admitted ==> m in before && before[m] == after[m]
    ensures WithinLimit(limit, width, after)
  {
    forall epoch: nat, t ensures |Window(after, Admitted, epoch, width, t)| <= limit {
      SubsetSize(Window(after, Admitted, epoch, width, t), Window(before, Admitted, epoch, width, t));
    }
  }

  lemma StepKeepsLimit(cfg: Config, late: nat, s: State, e: Event)
    requires Invariant(cfg, late, s) && Enabled(late, s, e)
    ensures WithinLimit(cfg.maxRequests, cfg.windowMs - late, Step(cfg, s, e).log)
  {
    if e.Check? && Allows(cfg, s, e.now) {
      AdmitKeepsLimit(cfg, late, s, e.member, e.now);
    } else {
      FewerAdmitted(cfg.maxRequests, cfg.windowMs - late, s.log, Step(cfg, s, e).log);
    }
  }

  lemma StepKeepsEpochs(cfg: Config, late: nat, s: State, e: Event)
    requires Ages(cfg, s) && Epochs(late, s) && Enabled(late, s, e)
    ensures Epochs(late, Step(cfg, s, e))
  {
    var s' := Step(cfg, s, e);
    forall i | 0 <= i < |s.resets| ensures s.resets[i] <= s.clock { assert s.resets[i] in s.resets; }
    forall m | m in s'.log.Keys ensures InEpoch(late, s'.resets, s'.log[m]) {
      if m in s.log { assert m in s.log.Keys && Aged(cfg, s, s.log[m]); }
    }
  }

  lemma StepKeepsAges(cfg: Config, late: nat, s: State, e: Event)
    requires Ages(cfg, s) && Enabled(late, s, e)
    ensures Ages(cfg, Step(cfg, s, e))
  {
    var s' := Step(cfg, s, e);
    forall m | m in s'.log.Keys ensures Aged(cfg, s', s'.log[m]) {
      if m in s.log { assert m in s.log.Keys && Aged(cfg, s, s.log[m]); }
    }
  }

  /** One more clean-up keeps what is young for it. */
  lemma SweepOnce(cfg: Config, sweeps: seq<int>, now: int, r: Record)
    requires r.sweep <= |sweeps|
    ensures Unswept(cfg, sweeps + [now], r) <==> Unswept(cfg, sweeps, r) && now - cfg.windowMs < r.at
  {
    if Unswept(cfg, sweeps + [now], r) {
      assert (sweeps + [now])[|sweeps|] == now;
      forall k | r.sweep <= k < |sweeps| ensures sweeps[k] - cfg.windowMs < r.at { assert (sweeps + [now])[k] ==
          sweeps[k]; }
    }
  }

  /** A clean-up stamped `now`, and one more request recorded or none, leave set and history in step. */
  lemma SweepKeepsTrack(cfg: Config, s: State, now: int, s': State)
    requires Tracks(cfg, s) && Ages(cfg, s)
    requires s'.log == s.log && s'.members == Cleaned(cfg, s.members, now) && s'.sweeps == s.sweeps + [now]
             && s'.resets == s.resets
    ensures Tracks(cfg, s')
  {
    forall m | m in s.log ensures m in s'.members <==> Kept(cfg, s', s.log[m]) {
      assert m in s.log.Keys && Aged(cfg, s, s.log[m]);
      SweepOnce(cfg, s.sweeps, now, s.log[m]);
      CleanedMember(cfg, s, now, m);
    }
  }

  lemma StepKeepsTrack(cfg: Config, late: nat, s: State, e: Event)
    requires Tracks(cfg, s) && Ages(cfg, s) && Epochs(late, s) && Enabled(late, s, e)
    ensures Tracks(cfg, Step(cfg, s, e))
  {
    var s' := Step(cfg, s, e);
    match e
    case Check(m, now) => PipeKeepsTrack(cfg, s, m, now, if Allows(cfg, s, now) then Admitted else Owing);
    case CheckLost(m, now) => PipeKeepsTrack(cfg, s, m, now, Lost);
    case Peek(now) => SweepKeepsTrack(cfg, s, now, s');
    case Expire(now) =>
      assert Cleaned(cfg, s.members, now) == map[] by {
        forall m | m in s.members.Keys ensures 0 <= s.members[m] <= now - cfg.windowMs { assert Aged(cfg, s,
            s.log[m]); }
      }
      SweepKeepsTrack(cfg, s, now, s');
    case Reset(_) =>
      forall m | m in s.log.Keys ensures s.log[m].epoch <= |s.resets| { assert InEpoch(late, s.resets, s.log[m]); }
    case Remove(_) =>
  }

  lemma PipeKeepsTrack(cfg: Config, s: State, m: Member, now: int, fate: Fate)
    requires Tracks(cfg, s) && Ages(cfg, s) && m !in s.log && fate != Gone
    ensures Tracks(cfg, Piped(cfg, s, m, now, fate))
  {
    var swept := s.(members := Cleaned(cfg, s.members, now), sweeps := s.sweeps + [now]);
    SweepKeepsTrack(cfg, s, now, swept);
  }

  /** Every step keeps set, history and limit in step with each other. */
  lemma {:induction false} StepKeeps(cfg: Config, late: nat, s: State, e: Event)
    requires Invariant(cfg, late, s) && Enabled(late, s, e)
    ensures Invariant(cfg, late, Step(cfg, s, e))
  {
    StepKeepsEpochs(cfg, late, s, e);
    StepKeepsAges(cfg, late, s, e);
    StepKeepsTrack(cfg, late, s, e);
    StepKeepsLimit(cfg, late, s, e);
  }

  lemma StartOk(cfg: Config, late: nat)
    ensures Invariant(cfg, late, START)
  {
    var width := cfg.windowMs - late;
    forall epoch: nat, t ensures |Window(START.log, Admitted, epoch, width, t)| <= cfg.maxRequests {
      assert Window(START.log, Admitted, epoch, width, t) == {};
    }
  }

  lemma {:induction false} RunKeeps(cfg: Config, late: nat, s: State, es: seq<Event>)
    requires Invariant(cfg, late, s) && Runnable(cfg, late, s, es)
    ensures Invariant(cfg, late, Run(cfg, s, es))
    decreases |es|
  {
    if es != [] {
      StepKeeps(cfg, late, s, es[0]);
      RunKeeps(cfg, late, Step(cfg, s, es[0]), es[1..]);
    }
  }

  lemma Reached(cfg: Config, late: nat, es: seq<Event>)
    requires Runnable(cfg, late, START, es)
    ensures Invariant(cfg, late, Run(cfg, START, es))
  {
    StartOk(cfg, late);
    RunKeeps(cfg, late, START, es);
  }

  // ---------------------------------------------------------------- the limit

  /** All admitted requests of the window, of whatever epoch. */
  function AllAdmitted(log: Log, width: int, t: int): set<Member> {
    set m | m in log && log[m].fate == Admitted && InWindow(width, log[m].at, t)
  }

  /** The resets that fall into the window, or so soon after it that a request of the window may have landed later. */
  function ResetsIn(late: nat, resets: seq<int>, width: int, t: int): set<nat> {
    set i: nat | i < |resets| && t - width < resets[i] <= t + late
  }

  function AdmittedBefore(log: Log, epoch: nat, width: int, t: int): set<Member> {
    set m | m in AllAdmitted(log, width, t) && log[m].epoch < epoch
  }

  /** The resets of the window that ended the epochs up to the one before `epoch`. */
  function ResetsBefore(late: nat, resets: seq<int>, epoch: nat, width: int, t: int): set<nat> {
    set i | i in ResetsIn(late, resets, width, t) && i + 1 < epoch
  }

  /** Two epochs with requests in the window have the reset before the later one in it as well. */
  lemma ResetBetween(late: nat, s: State, a: Member, b: Member, width: int, t: int)
    requires Epochs(late, s) && a in s.log && b in s.log && s.log[a].epoch < s.log[b].epoch
    requires InWindow(width, s.log[a].at, t) && InWindow(width, s.log[b].at, t)
    ensures s.log[b].epoch - 1 in ResetsIn(late, s.resets, width, t)
  {
    assert a in s.log.Keys && b in s.log.Keys;
    assert InEpoch(late, s.resets, s.log[a]) && InEpoch(late, s.resets, s.log[b]);
    var i, j := s.log[a].epoch, s.log[b].epoch - 1;
    assert s.resets[i] <= s.resets[j];
  }

  /** `limit`, and once more for each of `k` resets. */
  function Budget(k: nat, limit: nat): nat {
    if k == 0 then limit else Budget(k - 1, limit) + limit
  }

  lemma {:induction false} BudgetIs(k: nat, limit: nat)
    ensures Budget(k, limit) == (k + 1) * limit
  {
    if k > 0 {
      BudgetIs(k - 1, limit);
      assert (k + 1) * limit == k * limit + limit;
    }
  }

  lemma {:induction false} BudgetGrows(k: nat, n: nat, limit: nat)
    requires k <= n
    ensures limit <= Budget(k, limit) <= Budget(n, limit)
    ensures k < n ==> Budget(k, limit) + limit <= Budget(n, limit)
  {
    if n > 0 { BudgetGrows(if k < n then k else k - 1, n - 1, limit); }
  }

  lemma OneEpochLess(log: Log, epoch: nat, width: int, t: int)
    requires 0 < epoch
    ensures AdmittedBefore(log, epoch, width, t) ==
            AdmittedBefore(log, epoch - 1, width, t) + Window(log, Admitted, epoch - 1, width, t)
  {}

  lemma OneMoreReset(late: nat, resets: seq<int>, epoch: nat, width: int, t: int)
    requires 0 < epoch
    ensures var few, many := ResetsBefore(late, resets, epoch - 1, width, t),
            ResetsBefore(late, resets, epoch, width, t);
            |few| <= |many| && (2 <= epoch && epoch - 2 in ResetsIn(late, resets, width, t) ==> |few| < |many|)
  {
    var few, many := ResetsBefore(late, resets, epoch - 1, width, t), ResetsBefore(late, resets, epoch, width, t);
    SubsetSize(few, many);
    if 2 <= epoch && epoch - 2 in ResetsIn(late, resets, width, t) {
      SubsetSize(few + {epoch - 2}, many);
    }
  }

  lemma AddUp(few: nat, many: nat, limit: nat, before: nat, here: nat)
    requires few <= many && here <= limit && before <= Budget(few, limit)
    requires 0 < before && 0 < here ==> few < many
    ensures before + here <= Budget(many, limit)
  {
    BudgetGrows(few, many, limit);
  }

  lemma BothEpochs(late: nat, s: State, epoch: nat, width: int, t: int)
    requires Epochs(late, s) && 0 < epoch
    requires AdmittedBefore(s.log, epoch - 1, width, t) != {} && Window(s.log, Admitted, epoch - 1, width, t) != {}
    ensures 2 <= epoch && epoch - 2 in ResetsIn(late, s.resets, width, t)
  {
    var a :| a in AdmittedBefore(s.log, epoch - 1, width, t);
    var b :| b in Window(s.log, Admitted, epoch - 1, width, t);
    ResetBetween(late, s, a, b, width, t);
  }

  lemma {:induction false} EpochsAddUp(limit: nat, late: nat, s: State, epoch: nat, width: int, t: int)
    requires Epochs(late, s) && WithinLimit(limit, width, s.log)
    ensures |AdmittedBefore(s.log, epoch, width, t)| <= Budget(|ResetsBefore(late, s.resets, epoch, width, t)|, limit)
  {
    if epoch == 0 {
      assert AdmittedBefore(s.log, 0, width, t) == {};
    } else {
      var before, here := AdmittedBefore(s.log, epoch - 1, width, t), Window(s.log, Admitted, epoch - 1, width, t);
      var few := |ResetsBefore(late, s.resets, epoch - 1, width, t)|;
      var many := |ResetsBefore(late, s.resets, epoch, width, t)|;
      assert |before| <= Budget(few, limit) by { EpochsAddUp(limit, late, s, epoch - 1, width, t); }
      assert |here| <= limit;
      assert few <= many && (before != {} && here != {} ==> few < many) by {
        OneMoreReset(late, s.resets, epoch, width, t);
        if before != {} && here != {} { BothEpochs(late, s, epoch, width, t); }
      }
      AddUp(few, many, limit, |before|, |here|);
      OneEpochLess(s.log, epoch, width, t);
      UnionSize(before, here);
    }
  }

  lemma UnionSize(a: set<Member>, b: set<Member>)
    ensures |a + b| <= |a| + |b|
  {
    assert a + b == a + (b - a);
    SubsetSize(b - a, b);
  }

  /**
   In every interleaving, no window of `windowMs - late` contains more than `maxRequests` requests admitted between
   two resets: with pipelines that land in the order of their stamps, no window of `windowMs`.
   */
  lemma NoWindowExceeds(cfg: Config, late: nat, es: seq<Event>, epoch: nat, t: int)
    requires Runnable(cfg, late, START, es)
    ensures |Window(Run(cfg, START, es).log, Admitted, epoch, cfg.windowMs - late, t)| <= cfg.maxRequests
  {
    Reached(cfg, late, es);
    OneWindow(cfg, late, Run(cfg, START, es), epoch, t);
  }

  lemma OneWindow(cfg: Config, late: nat, s: State, epoch: nat, t: int)
    requires Invariant(cfg, late, s)
    ensures |Window(s.log, Admitted, epoch, cfg.windowMs - late, t)| <= cfg.maxRequests
  {}

  lemma AllEpochs(cfg: Config, late: nat, s: State, t: int)
    requires Invariant(cfg, late, s)
    ensures |AllAdmitted(s.log, cfg.windowMs - late, t)|
            <= (|ResetsIn(late, s.resets, cfg.windowMs - late, t)| + 1) * cfg.maxRequests
  {
    var width, limit := cfg.windowMs - late, cfg.maxRequests;
    var last := |s.resets| + 1;
    EpochsAddUp(limit, late, s, last, width, t);
    forall m | m in AllAdmitted(s.log, width, t) ensures m in AdmittedBefore(s.log, last, width, t) {
      assert m in s.log.Keys && InEpoch(late, s.resets, s.log[m]);
    }
    assert AdmittedBefore(s.log, last, width, t) == AllAdmitted(s.log, width, t);
    assert ResetsBefore(late, s.resets, last, width, t) == ResetsIn(late, s.resets, width, t);
    BudgetIs(|ResetsIn(late, s.resets, width, t)|, limit);
  }

  /**
   And resets included, no more than `maxRequests` for each reset in the window, or up to `late` after it, and
   once more.
   */
  lemma ResetsAddToTheLimit(cfg: Config, late: nat, es: seq<Event>, t: int)
    requires Runnable(cfg, late, START, es)
    ensures |AllAdmitted(Run(cfg, START, es).log, cfg.windowMs - late, t)|
            <= (|ResetsIn(late, Run(cfg, START, es).resets, cfg.windowMs - late, t)| + 1) * cfg.maxRequests
  {
    Reached(cfg, late, es);
    AllEpochs(cfg, late, Run(cfg, START, es), t);
  }

  /**
   The decision, exactly: it counts the requests since the last reset that are young for its stamp and that no
   clean-up since they landed was late enough to remove: the admitted ones, and the denied and the lost ones that
   have not been taken back.  For a stamp no older than what the store has seen those are the ones of the window.
   */
  lemma DecisionIsExact(cfg: Config, late: nat, es: seq<Event>, now: int)
    requires Runnable(cfg, late, START, es)
    ensures var s := Run(cfg, START, es);
            var admitted, owing, lost := Counted(cfg, s, Admitted, now), Counted(cfg, s, Owing, now),
                Counted(cfg, s, Lost, now);
            && (Allows(cfg, s, now) <==> |admitted| + |owing| + |lost| < cfg.maxRequests)
            && (owing == {} && lost == {} ==> (Allows(cfg, s, now) <==> |admitted| < cfg.maxRequests))
            && (s.clock <= now ==> forall fate :: fate != Gone ==>
                 Counted(cfg, s, fate, now) == Window(s.log, fate, |s.resets|, cfg.windowMs, now))
  {
    Reached(cfg, late, es);
    var s := Run(cfg, START, es);
    CleanedIsCounted(cfg, s, now);
    if s.clock <= now {
      forall fate | fate != Gone ensures Counted(cfg, s, fate, now) ==
          Window(s.log, fate, |s.resets|, cfg.windowMs, now) {
        CountedIsWindow(cfg, s, fate, now);
      }
    }
  }

  // ---------------------------------------------------------------- the classes

  /** One sorted-set key of the shared store, with the store's own clock. */
  class SortedSet {
    var members: Scores
    var expireAt: int
    var clock: int

    constructor ()
      ensures members == map[] && expireAt == 0 && clock == 0
    {
      members, expireAt, clock := map[], 0, 0;
    }

    method ZRemRangeByScore(min: int, max: int)
      modifies this`members
      ensures members == WithoutScores(old(members), min, max)
    {
      members := WithoutScores(members, min, max);
    }

    method ZCard() returns (n: nat)
      ensures n == |members|
    {
      n := |members|;
    }

    method ZAdd(score: int, member: Member)
      modifies this`members
      ensures members == old(members)[member := score]
    {
      members := members[member := score];
    }

    method ZRem(member: Member)
      modifies this`members
      ensures members == old(members) - {member}
    {
      members := members - {member};
    }

    method PExpire(ms: int)
      modifies this`expireAt
      ensures expireAt == clock + ms
    {
      expireAt := clock + ms;
    }

    method Del()
      modifies this`members
      ensures members == map[]
    {
      members := map[];
    }
  }

  datatype RateLimitResult = RateLimitResult(allowed: bool, remaining: int, resetMs: int)

  class SlidingWindowRateLimiter {
    const store: SortedSet
    const config: Config

    constructor (store: SortedSet, config: Config)
      ensures this.store == store && this.config == config
    {
      this.store := store;
      this.config := config;
    }

    /** The atomic half of `check`: the pipeline, and the verdict drawn from its count. */
    method Pipeline(now: int, member: Member) returns (r: RateLimitResult)
      modifies store
      ensures store.members == Cleaned(config, old(store.members), now)[member := now]
      ensures store.expireAt == store.clock + config.windowMs && store.clock == old(store.clock)
      ensures r.allowed <==> |Cleaned(config, old(store.members), now)| < config.maxRequests
      ensures r.resetMs == config.windowMs
      ensures r.remaining == if r.allowed then config.maxRequests - |Cleaned(config, old(store.members), now)| - 1
              else 0
      ensures 0 <= r.remaining
    {
      store.ZRemRangeByScore(0, now - config.windowMs);
      var count := store.ZCard();
      store.ZAdd(now, member);
      store.PExpire(config.windowMs);
      if config.maxRequests <= count {
        return RateLimitResult(false, 0, config.windowMs);
      }
      return RateLimitResult(true, config.maxRequests - count - 1, config.windowMs);
    }

    /** The later half, for a denied request only. */
    method TakeBack(member: Member)
      modifies store
      ensures store.members == old(store.members) - {member} && store.expireAt == old(store.expireAt)
    {
      store.ZRem(member);
    }

    method Count(now: int) returns (n: nat)
      modifies store
      ensures store.members == Cleaned(config, old(store.members), now) && store.expireAt == old(store.expireAt)
      ensures n == |store.members|
    {
      store.ZRemRangeByScore(0, now - config.windowMs);
      n := store.ZCard();
    }

    method Reset()
      modifies store
      ensures store.members == map[]
    {
      store.Del();
    }
  }
}
