/**
 The control plane: the crawl's state derived from live job counts, progress, and an
 idempotent cancel; beside it, the life of the jobs those counts are about.
 */
module ControlPlanes {
  import opened Wrappers

  // ---------------------------------------------------------------- state derivation

  datatype Counts = Counts(waiting: nat, active: nat, completed: nat, failed: nat, delayed: nat, paused: nat)

  datatype CrawlState = Idle | Running | Paused | Cancelled | Completed

  function DeriveState(c: Counts, cancelled: bool): CrawlState {
    var pending := c.waiting + c.active + c.delayed;
    var done := c.completed + c.failed;
    if cancelled then Cancelled
    else if 0 < c.paused then Paused
    else if pending == 0 && 0 < done then Completed
    else if pending == 0 && done == 0 then Idle
    else Running
  }

  datatype Progress = Progress(completed: nat, failed: nat, pending: nat, total: nat)

  function ProgressOf(c: Counts): Progress {
    Progress(c.completed, c.failed, c.waiting + c.active + c.delayed,
             c.waiting + c.active + c.delayed + c.completed + c.failed)
  }

  // ---------------------------------------------------------------- the life of a job

  type JobId = nat

  /** `Prioritized` is a place where some queues keep waiting jobs that have a priority; no count covers it. */
  datatype Status = Waiting | Active | Done | Failed | Delayed | Held | Prioritized

  type Queue = map<JobId, Status>

  function With(q: Queue, s: Status): set<JobId> {
    set j | j in q && q[j] == s
  }

  function CountsOf(q: Queue): Counts {
    Counts(|With(q, Waiting)|, |With(q, Active)|, |With(q, Done)|, |With(q, Failed)|, |With(q, Delayed)|,
        |With(q, Held)|)
  }

  datatype Event =
    | Take(job: JobId)                        // waiting or prioritized -> active
    | Finish(job: JobId, ok: bool)            // active -> done or failed
    | Retry(job: JobId)                       // active -> delayed
    | Stall(job: JobId, to: Status)           // active -> back in line
    | Promote(job: JobId, to: Status)         // delayed -> in line
    | Spawn(parent: JobId, job: JobId, to: Status) // an active job enqueues a new one
    | Hold(job: JobId)                        // pausing the queue moves waiting jobs aside
    | Resume(job: JobId, to: Status)
    | Retire(job: JobId)                      // retention drops a finished job
    | Obliterate

  predicate InLine(s: Status) {
    s == Waiting || s == Held || s == Prioritized
  }

  predicate Enabled(q: Queue, e: Event) {
    match e
    case Take(j) => j in q && (q[j] == Waiting || q[j] == Prioritized)
    case Finish(j, _) => j in q && q[j] == Active
    case Retry(j) => j in q && q[j] == Active
    case Stall(j, to) => j in q && q[j] == Active && InLine(to)
    case Promote(j, to) => j in q && q[j] == Delayed && InLine(to)
    case Spawn(p, j, to) => p in q && q[p] == Active && j !in q && InLine(to)
    case Hold(j) => j in q && (q[j] == Waiting || q[j] == Prioritized)
    case Resume(j, to) => j in q && q[j] == Held && InLine(to)
    case Retire(j) => j in q && (q[j] == Done || q[j] == Failed)
    case Obliterate => true
  }

  function After(q: Queue, e: Event): Queue
    requires Enabled(q, e)
  {
    match e
    case Take(j) => q[j := Active]
    case Finish(j, ok) => q[j := if ok then Done else Failed]
    case Retry(j) => q[j := Delayed]
    case Stall(j, to) => q[j := to]
    case Promote(j, to) => q[j := to]
    case Spawn(_, j, to) => q[j := to]
    case Hold(j) => q[j := Held]
    case Resume(j, to) => q[j := to]
    case Retire(j) => q - {j}
    case Obliterate => map[]
  }

  predicate Runs(q: Queue, es: seq<Event>)
    decreases |es|
  {
    es == [] || (Enabled(q, es[0]) && Runs(After(q, es[0]), es[1..]))
  }

  function Final(q: Queue, es: seq<Event>): Queue
    requires Runs(q, es)
    decreases |es|
  {
    if es == [] then q else Final(After(q, es[0]), es[1..])
  }

  /** Nothing left that could run or be resumed. */
  predicate Quiet(q: Queue) {
    forall j <- q.Keys :: q[j] == Done || q[j] == Failed
  }

  /** Every job is in one of the six counted places. */
  predicate Counted(q: Queue) {
    forall j <- q.Keys :: q[j] != Prioritized
  }

  function StatusOf(q: Queue, j: JobId): Option<Status> {
    if j in q then Some(q[j]) else None
  }

  /** Where an event leaves a job it is about; dropped jobs are nowhere. */
  predicate Leaves(e: Event, j: JobId, status: Option<Status>) {
    || (e == Take(j) && status == Some(Active))
    || (e == Finish(j, true) && status == Some(Done))
    || (e == Finish(j, false) && status == Some(Failed))
    || (e == Retry(j) && status == Some(Delayed))
    || (e == Hold(j) && status == Some(Held))
    || (e == Retire(j) && status == None)
    || (e == Obliterate && status == None)
    || (status.Some? && (e == Stall(j, status.value) || e == Promote(j, status.value) || e == Resume(j, status.value)))
    || (status.Some? && e.Spawn? && e.job == j && e.to == status.value)
  }

  ghost predicate Concerns(e: Event, j: JobId) {
    exists status :: Leaves(e, j, status)
  }

  lemma EventLeaves(q: Queue, e: Event, j: JobId)
    requires Enabled(q, e)
    ensures var status := StatusOf(After(q, e), j);
            if Concerns(e, j) then Leaves(e, j, status) else status == StatusOf(q, j)
  {
    if !Concerns(e, j) {
      assert !Leaves(e, j, Some(Active)) && !Leaves(e, j, Some(Done)) && !Leaves(e, j, Some(Failed));
      assert !Leaves(e, j, Some(Delayed)) && !Leaves(e, j, Some(Held)) && !Leaves(e, j, None);
      assert !Leaves(e, j, Some(Waiting)) && !Leaves(e, j, Some(Prioritized));
    }
  }

  /** After every run a job is where the last event about it left it, or where it was if there was none. */
  lemma {:induction false} StatusIsLast(q: Queue, es: seq<Event>, j: JobId)
    requires Runs(q, es)
    ensures var status := StatusOf(Final(q, es), j);
            || (exists k :: 0 <= k < |es| && Leaves(es[k], j, status)
                            && forall i :: k < i < |es| ==> !Concerns(es[i], j))
            || (status == StatusOf(q, j) && forall i :: 0 <= i < |es| ==> !Concerns(es[i], j))
    decreases |es|
  {
    if es != [] {
      var rest := es[1..];
      EventLeaves(q, es[0], j);
      StatusIsLast(After(q, es[0]), rest, j);
      var status := StatusOf(Final(q, es), j);
      if k :| 0 <= k < |rest| && Leaves(rest[k], j, status) && forall i :: k < i < |rest| ==> !Concerns(rest[i], j) {
        assert Leaves(es[k + 1], j, status);
        forall i | k + 1 < i < |es| ensures !Concerns(es[i], j) { assert es[i] == rest[i - 1]; }
      } else {
        forall i | 0 < i < |es| ensures !Concerns(es[i], j) { assert es[i] == rest[i - 1]; }
        if Concerns(es[0], j) { assert Leaves(es[0], j, status); }
      }
    }
  }

  // ---------------------------------------------------------------- completion is stable

  /** `completed` (and not cancelled) means: some job, none paused, and all counted ones finished. */
  lemma CompletedMeans(q: Queue)
    ensures DeriveState(CountsOf(q), false) == Completed <==>
            With(q, Done) + With(q, Failed) != {} && forall j <- q.Keys ::
                q[j] == Done || q[j] == Failed || q[j] == Prioritized
  {
    var c := CountsOf(q);
    if c.waiting + c.active + c.delayed + c.paused == 0 {
      assert With(q, Waiting) == {} && With(q, Active) == {} && With(q, Delayed) == {} && With(q, Held) == {};
      forall j | j in q.Keys ensures q[j] == Done || q[j] == Failed || q[j] == Prioritized {
        assert j !in With(q, Waiting) && j !in With(q, Active) && j !in With(q, Delayed) && j !in With(q, Held);
      }
    }
    if forall j <- q.Keys :: q[j] == Done || q[j] == Failed || q[j] == Prioritized {
      assert With(q, Waiting) == {} && With(q, Active) == {} && With(q, Delayed) == {} && With(q, Held) == {};
    }
  }

  predicate Any(q: Queue, s: Status) {
    exists j <- q.Keys :: q[j] == s
  }

  /** The other states by the jobs' statuses; a queue of prioritised jobs only is idle. */
  lemma StateMeans(q: Queue)
    ensures DeriveState(CountsOf(q), false) == Paused <==> Any(q, Held)
    ensures DeriveState(CountsOf(q), false) == Running <==>
            !Any(q, Held) && (Any(q, Waiting) || Any(q, Active) || Any(q, Delayed))
    ensures DeriveState(CountsOf(q), false) == Idle <==>
            !Any(q, Held) && !Any(q, Waiting) && !Any(q, Active) && !Any(q, Delayed)
            && !Any(q, Done) && !Any(q, Failed)
    ensures DeriveState(CountsOf(q), true) == Cancelled
  {
    AnyCounted(q, Held);
    AnyCounted(q, Waiting);
    AnyCounted(q, Active);
    AnyCounted(q, Delayed);
    AnyCounted(q, Done);
    AnyCounted(q, Failed);
  }

  lemma AnyCounted(q: Queue, s: Status)
    ensures 0 < |With(q, s)| <==> Any(q, s)
  {
    if 0 < |With(q, s)| {
      var j :| j in With(q, s);
      assert j in q.Keys && q[j] == s;
    }
    if Any(q, s) {
      var j :| j in q.Keys && q[j] == s;
      assert j in With(q, s);
    }
  }

  lemma {:induction false} QuietStays(q: Queue, es: seq<Event>)
    requires Quiet(q) && Runs(q, es)
    ensures Quiet(Final(q, es))
    decreases |es|
  {
    if es != [] {
      QuietStays(After(q, es[0]), es[1..]);
    }
  }

  /**
   Once the state reads `completed` it is final: after any further events nothing is
   waiting, active, delayed or paused, and the state reads `completed` or, when the
   finished jobs have been dropped, `idle`.
   */
  lemma CompletionIsStable(q: Queue, es: seq<Event>)
    requires Counted(q) && DeriveState(CountsOf(q), false) == Completed && Runs(q, es)
    ensures var c := CountsOf(Final(q, es)); c.waiting == c.active == c.delayed == c.paused == 0
    ensures DeriveState(CountsOf(Final(q, es)), false) == if Final(q, es) == map[] then Idle else Completed
  {
    CompletedMeans(q);
    QuietStays(q, es);
    var f := Final(q, es);
    assert With(f, Waiting) == {} && With(f, Active) == {} && With(f, Delayed) == {} && With(f, Held) == {};
    if f == map[] {
      assert With(f, Done) == {} && With(f, Failed) == {};
    } else {
      var j :| j in f.Keys;
      assert j in With(f, Done) + With(f, Failed);
      CompletedMeans(f);
    }
  }

  /** The verdict can be trusted exactly when no job waits outside the six counts. */
  lemma CompletedIsQuietIffCounted(q: Queue)
    requires DeriveState(CountsOf(q), false) == Completed
    ensures Quiet(q) <==> Counted(q)
  {
    CompletedMeans(q);
  }

  /** A job waiting outside the six counts goes unnoticed, and can be running at the next step. */
  lemma UncountedJobHidesWork(a: JobId, b: JobId)
    requires a != b
    ensures var q := map[a := Done, b := Prioritized];
            && DeriveState(CountsOf(q), false) == Completed
            && Enabled(q, Take(b)) && DeriveState(CountsOf(After(q, Take(b))), false) == Running
  {
    var q := map[a := Done, b := Prioritized];
    DoneBesideUncounted(q, a, b);
    OneActiveRuns(After(q, Take(b)), b);
  }

  lemma DoneBesideUncounted(q: Queue, a: JobId, b: JobId)
    requires q.Keys == {a, b} && q[a] == Done && q[b] == Prioritized
    ensures DeriveState(CountsOf(q), false) == Completed
  {
    assert a in With(q, Done);
    CompletedMeans(q);
  }

  lemma OneActiveRuns(q: Queue, b: JobId)
    requires b in q && q[b] == Active && forall j <- q.Keys :: q[j] != Held
    ensures DeriveState(CountsOf(q), false) == Running
  {
    assert b in With(q, Active);
    assert With(q, Held) == {};
  }

  lemma EveryJobHasAPlace(q: Queue)
    requires Counted(q) && With(q, Held) == {}
    ensures q.Keys == With(q, Waiting) + With(q, Active) + With(q, Done) + With(q, Failed) + With(q, Delayed)
  {
    forall j | j in q.Keys
      ensures j in With(q, Waiting) + With(q, Active) + With(q, Done) + With(q, Failed) + With(q, Delayed)
    {
      assert j !in With(q, Held);
    }
  }

  lemma Disjoint(q: Queue)
    ensures With(q, Waiting) !! With(q, Active) !! With(q, Done) !! With(q, Failed) !! With(q, Delayed)
  {}

  lemma FiveParts(a: set<JobId>, b: set<JobId>, c: set<JobId>, d: set<JobId>, e: set<JobId>)
    requires a !! b !! c !! d !! e
    ensures |a + b + c + d + e| == |a| + |b| + |c| + |d| + |e|
  {}

  lemma TotalIsSize(q: Queue)
    requires Counted(q) && With(q, Held) == {}
    ensures |q| == |With(q, Waiting)| + |With(q, Active)| + |With(q, Done)| + |With(q, Failed)| + |With(q, Delayed)|
  {
    EveryJobHasAPlace(q);
    Disjoint(q);
    FiveParts(With(q, Waiting), With(q, Active), With(q, Done), With(q, Failed), With(q, Delayed));
    assert |q| == |q.Keys|;
  }

  lemma CompletedByCounts(c: Counts)
    requires c.paused == 0
    ensures DeriveState(c, false) == Completed <==> ProgressOf(c).pending == 0 && 0 < ProgressOf(c).total
  {}

  /** Progress is counted by status; jobs held back, or prioritised, are in none of its numbers. */
  lemma ProgressMeans(q: Queue)
    ensures var p := ProgressOf(CountsOf(q));
            && p.completed == |set j | j in q && q[j] == Done| && p.failed == |set j | j in q && q[j] == Failed|
            && p.pending == |set j | j in q && (q[j] == Waiting || q[j] == Active || q[j] == Delayed)|
            && p.total == p.completed + p.failed + p.pending
  {
    assert With(q, Done) == (set j | j in q && q[j] == Done);
    assert With(q, Failed) == (set j | j in q && q[j] == Failed);
    assert With(q, Waiting) + With(q, Active) + With(q, Delayed) ==
           (set j | j in q && (q[j] == Waiting || q[j] == Active || q[j] == Delayed));
  }

  /**
   While nothing is paused, progress accounts for every job, and nothing is pending exactly once the state is
   completed.
   */
  lemma ProgressAgrees(q: Queue)
    requires Counted(q) && With(q, Held) == {}
    ensures ProgressOf(CountsOf(q)).total == |q|
    ensures DeriveState(CountsOf(q), false) == Completed <==>
            ProgressOf(CountsOf(q)).pending == 0 && 0 < ProgressOf(CountsOf(q)).total
  {
    TotalIsSize(q);
    CompletedByCounts(CountsOf(q));
  }

  // ---------------------------------------------------------------- cancel

  /** One adapter's cancel: the first call starts the only obliterate, later ones wait for it. */
  datatype Cancel = Cancel(cancelled: bool, started: bool, settled: Option<Result<(), string>>, obliterates: nat)

  datatype CancelEvent = Call | Settle(result: Result<(), string>)

  const FRESH := Cancel(false, false, None, 0)

  function CancelAfter(c: Cancel, e: CancelEvent): Cancel {
    match e
    case Call => if c.started then c else Cancel(true, true, c.settled, c.obliterates + 1)
    case Settle(r) => if c.started && c.settled.None? then c.(settled := Some(r)) else c
  }

  function CancelRun(es: seq<CancelEvent>): Cancel {
    if es == [] then FRESH else CancelAfter(CancelRun(es[..|es| - 1]), es[|es| - 1])
  }

  /** However many callers, obliterate runs once; the first call cancels, and for good; all callers get one answer. */
  lemma {:induction false} CancelOnce(es: seq<CancelEvent>, n: nat)
    requires n <= |es|
    ensures CancelRun(es).obliterates == if CancelEvent.Call in es then 1 else 0
    ensures CancelRun(es).cancelled <==> CancelEvent.Call in es
    ensures CancelRun(es).started <==> CancelEvent.Call in es
    ensures CancelRun(es[..n]).cancelled ==> CancelRun(es).cancelled
    ensures CancelRun(es[..n]).settled.Some? ==> CancelRun(es).settled == CancelRun(es[..n]).settled
    decreases |es|
  {
    if es != [] {
      var m := |es| - 1;
      CancelOnce(es[..m], if n < m then n else m);
      assert es == es[..m] + [es[m]];
      if n == |es| { assert es[..n] == es; } else { assert es[..m][..n] == es[..n]; }
    }
  }

  lemma CancelledIsPermanent(es: seq<CancelEvent>, n: nat, c: Counts)
    requires n <= |es| && DeriveState(c, CancelRun(es[..n]).cancelled) == Cancelled
    ensures forall later: Counts :: DeriveState(later, CancelRun(es).cancelled) == Cancelled
  {
    CancelOnce(es, n);
  }

  // ---------------------------------------------------------------- the class

  class ControlPlaneAdapter {
    var cancelled: bool
    var cancelStarted: bool
    var cancelResult: Option<Result<(), string>>
    var obliterates: nat

    ghost function Contents(): Cancel
      reads this
    {
      Cancel(cancelled, cancelStarted, cancelResult, obliterates)
    }

    constructor ()
      ensures Contents() == FRESH
    {
      cancelled, cancelStarted, cancelResult, obliterates := false, false, None, 0;
    }

    method GetState(counts: Result<Counts, string>) returns (r: Result<CrawlState, string>)
      ensures counts.Err? ==> r == Err(counts.error)
      ensures counts.Ok? ==> r == Ok(DeriveState(counts.value, cancelled))
    {
      if counts.Err? { return Err(counts.error); }
      return Ok(DeriveState(counts.value, cancelled));
    }

    method GetProgress(counts: Result<Counts, string>) returns (r: Result<Progress, string>)
      ensures counts.Err? ==> r == Err(counts.error)
      ensures counts.Ok? ==> r.Ok? && r.value.total == r.value.pending + r.value.completed + r.value.failed
      ensures counts.Ok? ==> r == Ok(ProgressOf(counts.value))
    {
      if counts.Err? { return Err(counts.error); }
      var c := counts.value;
      return Ok(Progress(c.completed, c.failed, c.waiting + c.active + c.delayed,
                         c.waiting + c.active + c.delayed + c.completed + c.failed));
    }

    /** Up to the first await: the first call sets the flag and sends obliterate; later calls share its promise. */
    method StartCancel()
      modifies this
      ensures Contents() == CancelAfter(old(Contents()), Call)
    {
      if !cancelStarted {
        cancelled, cancelStarted := true, true;
        obliterates := obliterates + 1;
      }
    }

    /** The store's reply to obliterate. */
    method ObliterateReplied(result: Result<(), string>)
      requires cancelStarted && cancelResult.None?
      modifies this
      ensures Contents() == CancelAfter(old(Contents()), Settle(result))
    {
      cancelResult := Some(result);
    }

    /** What a caller of cancel is told once the promise has settled. */
    method CancelOutcome() returns (r: Result<(), string>)
      ensures r == if cancelResult.Some? then cancelResult.value else Ok(())
    {
      r := if cancelResult.Some? then cancelResult.value else Ok(());
    }
  }
}
