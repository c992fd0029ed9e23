/**
 The completion detector's poll loop.  At every tick the loop may skip (backoff), or ask
 the store; the store's answers are an input, one per tick, of which the skipped ones
 are never looked at.
 */
module CompletionDetection {
  import opened Wrappers
  import opened Backoff

  datatype Poll = Failed | Counts(pending: nat, done: nat)

  datatype Outcome = Completed(done: nat) | EmptyComplete | Aborted(failures: nat)

  // ---------------------------------------------------------------- specification

  datatype State = State(backoff: Counter, emptyPolls: nat, firstPoll: bool, restarts: nat)

  const START := State(IDLE, 0, true, 0)

  predicate Skips(s: State) {
    0 < s.backoff.skipRemaining
  }

  /** What one poll does, once the tick is not skipped. */
  function Polled(cfg: Config, s: State, p: Poll): (State, Option<Outcome>) {
    match p
    case Failed =>
      var b := OnError(cfg, s.backoff);
      (s.(backoff := b), if b.aborted then Some(Aborted(b.failures)) else None)
    case Counts(pending, done) =>
      var empty := pending == 0 && done == 0;
      var s' := State(OnSuccess(s.backoff),
                      if empty then s.emptyPolls + 1 else if pending == 0 then s.emptyPolls else 0,
                      false, s.restarts + (if s.firstPoll && 0 < done then 1 else 0));
      (s', if pending == 0 && 0 < done then Some(Completed(done))
           else if empty && 2 <= s'.emptyPolls then Some(EmptyComplete)
           else None)
  }

  function Tick(cfg: Config, s: State, p: Poll): (State, Option<Outcome>) {
    if s.backoff.aborted then (s, Some(Aborted(s.backoff.failures)))
    else if Skips(s) then (s.(backoff := AfterTick(s.backoff)), None)
    else Polled(cfg, s, p)
  }

  /** How a run over the given answers ends, and after how many ticks. */
  datatype Run = Run(state: State, outcome: Option<Outcome>, ticks: nat)

  function Wait(cfg: Config, s: State, answers: seq<Poll>): Run
    decreases |answers|
  {
    if answers == [] then Run(s, None, 0)
    else
      var (s', o) := Tick(cfg, s, answers[0]);
      if o.Some? then Run(s', o, 1)
      else
        var r := Wait(cfg, s', answers[1..]);
        r.(ticks := r.ticks + 1)
  }

  /** The answers the loop actually looks at. */
  function Seen(cfg: Config, s: State, answers: seq<Poll>): seq<Poll>
    decreases |answers|
  {
    if answers == [] then []
    else
      var (s', o) := Tick(cfg, s, answers[0]);
      (if Skips(s) then [] else [answers[0]]) + (if o.Some? then [] else Seen(cfg, s', answers[1..]))
  }

  // ---------------------------------------------------------------- the outcome, from the polls alone

  /** The failed polls at the end. */
  function TrailingFailures(ps: seq<Poll>): nat {
    if ps == [] || !ps[|ps| - 1].Failed? then 0 else 1 + TrailingFailures(ps[..|ps| - 1])
  }

  /** The latest successful poll. */
  function LastAnswer(ps: seq<Poll>): Option<Poll> {
    if ps == [] then None
    else if ps[|ps| - 1].Failed? then LastAnswer(ps[..|ps| - 1])
    else Some(ps[|ps| - 1])
  }

  function FirstAnswer(ps: seq<Poll>): (p: Option<Poll>)
    ensures p.Some? ==> p.value.Counts? && p.value in ps
  {
    if ps == [] then None else if ps[0].Failed? then FirstAnswer(ps[1..]) else Some(ps[0])
  }

  /** One restart if the first successful poll already shows finished jobs. */
  function RestartsOf(ps: seq<Poll>): nat {
    if FirstAnswer(ps).Some? && 0 < FirstAnswer(ps).value.done then 1 else 0
  }

  const EMPTY := Counts(0, 0)

  /** What the last of a series of polls settles. */
  function Verdict(cfg: Config, ps: seq<Poll>): Option<Outcome>
    requires ps != []
  {
    var last, before := ps[|ps| - 1], ps[..|ps| - 1];
    if last.Failed? then
      if cfg.Threshold() <= TrailingFailures(ps) then Some(Aborted(TrailingFailures(ps))) else None
    else if last.pending == 0 && 0 < last.done then Some(Completed(last.done))
    else if last == EMPTY && LastAnswer(before) == Some(EMPTY) then Some(EmptyComplete)
    else None
  }

  /** The first poll that settles anything is the last of the series, and it settles `o`. */
  ghost predicate FirstSettledBy(cfg: Config, ps: seq<Poll>, o: Option<Outcome>) {
    && (forall n :: 0 < n < |ps| ==> Verdict(cfg, ps[..n]) == None)
    && (ps != [] ==> Verdict(cfg, ps) == o)
    && (ps == [] ==> o == None)
  }

  /** The loop's variables are determined by the polls seen so far. */
  ghost predicate Explains(cfg: Config, ps: seq<Poll>, s: State) {
    && !s.backoff.aborted
    && s.backoff.failures == TrailingFailures(ps) < cfg.Threshold()
    && s.emptyPolls == (if LastAnswer(ps) == Some(EMPTY) then 1 else 0)
    && s.firstPoll == FirstAnswer(ps).None?
    && s.restarts == RestartsOf(ps)
  }

  lemma {:induction false} FirstAnswerAppend(ps: seq<Poll>, p: Poll)
    ensures FirstAnswer(ps + [p]) ==
            if FirstAnswer(ps).Some? then FirstAnswer(ps) else if p.Failed? then None else Some(p)
  {
    if ps != [] {
      assert (ps + [p])[1..] == ps[1..] + [p];
      FirstAnswerAppend(ps[1..], p);
    } else {
      assert (ps + [p])[1..] == [];
    }
  }

  lemma PollExplained(cfg: Config, ps: seq<Poll>, s: State, p: Poll)
    requires Explains(cfg, ps, s) && !Skips(s)
    ensures var (s', o) := Tick(cfg, s, p);
            && o == Verdict(cfg, ps + [p])
            && (o.None? ==> Explains(cfg, ps + [p], s'))
            && s'.restarts == RestartsOf(ps + [p])
  {
    var all := ps + [p];
    assert all[..|all| - 1] == ps;
    FirstAnswerAppend(ps, p);
  }

  /** How a run's end is accounted for by all the polls seen. */
  ghost predicate Accounts(cfg: Config, ps: seq<Poll>, r: Run) {
    && FirstSettledBy(cfg, ps, r.outcome)
    && (r.outcome.None? ==> Explains(cfg, ps, r.state))
    && r.state.restarts == RestartsOf(ps)
  }

  lemma {:induction false} WaitExplained(cfg: Config, ps: seq<Poll>, s: State, answers: seq<Poll>)
    requires Explains(cfg, ps, s) && FirstSettledBy(cfg, ps, None)
    ensures Accounts(cfg, ps + Seen(cfg, s, answers), Wait(cfg, s, answers))
    decreases |answers|
  {
    if answers == [] {
      assert ps + [] == ps;
    } else {
      var p, rest := answers[0], answers[1..];
      var (s', o) := Tick(cfg, s, p);
      var now := if Skips(s) then [] else [p];
      TickExplained(cfg, ps, s, p);
      if o.None? {
        WaitExplained(cfg, ps + now, s', rest);
        WaitStep(cfg, s, answers, s');
        SameAccount(cfg, ps, now, Seen(cfg, s', rest), Seen(cfg, s, answers), Wait(cfg, s', rest),
            Wait(cfg, s, answers));
      } else {
        assert Seen(cfg, s, answers) == now + [] == now;
        assert Wait(cfg, s, answers) == Run(s', o, 1);
      }
    }
  }

  lemma TickExplained(cfg: Config, ps: seq<Poll>, s: State, p: Poll)
    requires Explains(cfg, ps, s) && FirstSettledBy(cfg, ps, None)
    ensures var (s', o) := Tick(cfg, s, p);
            var all := ps + (if Skips(s) then [] else [p]);
            && FirstSettledBy(cfg, all, o) && (o.None? ==> Explains(cfg, all, s')) && s'.restarts == RestartsOf(all)
  {
    if Skips(s) {
      SkipExplained(cfg, ps, s, p);
      assert ps + [] == ps;
    } else {
      PollExplained(cfg, ps, s, p);
      Settles(cfg, ps, p);
    }
  }

  lemma SkipExplained(cfg: Config, ps: seq<Poll>, s: State, p: Poll)
    requires Explains(cfg, ps, s) && Skips(s)
    ensures var (s', o) := Tick(cfg, s, p); o == None && Explains(cfg, ps, s')
  {}

  /** A tick that settles nothing leaves the rest of the run to account for. */
  lemma WaitStep(cfg: Config, s: State, answers: seq<Poll>, s': State)
    requires answers != [] && Tick(cfg, s, answers[0]) == (s', None)
    ensures Seen(cfg, s, answers) == (if Skips(s) then [] else [answers[0]]) + Seen(cfg, s', answers[1..])
    ensures Wait(cfg, s, answers).outcome == Wait(cfg, s', answers[1..]).outcome
    ensures Wait(cfg, s, answers).state == Wait(cfg, s', answers[1..]).state
  {}

  lemma SameAccount(cfg: Config, ps: seq<Poll>, now: seq<Poll>, rest: seq<Poll>, seen: seq<Poll>, r: Run, w: Run)
    requires Accounts(cfg, (ps + now) + rest, r) && seen == now + rest && w.outcome == r.outcome && w.state == r.state
    ensures Accounts(cfg, ps + seen, w)
  {
    assert (ps + now) + rest == ps + seen;
  }

  lemma Settles(cfg: Config, ps: seq<Poll>, p: Poll)
    requires FirstSettledBy(cfg, ps, None)
    ensures FirstSettledBy(cfg, ps + [p], Verdict(cfg, ps + [p]))
  {
    forall n | 0 < n < |ps + [p]| ensures Verdict(cfg, (ps + [p])[..n]) == None {
      if n == |ps| { assert (ps + [p])[..n] == ps; } else { assert (ps + [p])[..n] == ps[..n]; }
    }
  }

  /**
   The outcome is a function of the polls that were not skipped: it is the verdict of
   the first poll that settles anything, and there is none while none does.  The restart
   metric rises at most once, exactly when the first successful poll shows finished jobs.
   */
  lemma OutcomeFromPolls(cfg: Config, answers: seq<Poll>)
    ensures var r, ps := Wait(cfg, START, answers), Seen(cfg, START, answers);
            && FirstSettledBy(cfg, ps, r.outcome)
            && r.state.restarts == RestartsOf(ps)
  {
    assert [] + Seen(cfg, START, answers) == Seen(cfg, START, answers);
    WaitExplained(cfg, [], START, answers);
  }

  // ---------------------------------------------------------------- the verdict, spelled out

  lemma {:induction false} TrailingFailuresAre(ps: seq<Poll>, k: nat)
    ensures TrailingFailures(ps) <= |ps|
    ensures k <= TrailingFailures(ps) <==> k <= |ps| && forall i :: |ps| - k <= i < |ps| ==> ps[i].Failed?
  {
    if ps != [] {
      var n := |ps| - 1;
      TrailingFailuresAre(ps[..n], if k == 0 then 0 else k - 1);
      if 0 < k <= |ps| && ps[n].Failed? {
        assert (forall i :: |ps| - k <= i < |ps| ==> ps[i].Failed?) <==>
               (forall i :: n - (k - 1) <= i < n ==> ps[..n][i].Failed?);
      }
    }
  }

  /** Poll `m` is the last one before `n` that succeeded. */
  ghost predicate PreviousAnswer(ps: seq<Poll>, m: nat, n: nat)
    requires n <= |ps|
  {
    m < n && !ps[m].Failed? && forall i :: m < i < n ==> ps[i].Failed?
  }

  lemma {:induction false} LastAnswerIs(ps: seq<Poll>, p: Poll)
    ensures LastAnswer(ps) == Some(p) <==> exists m :: 0 <= m < |ps| && PreviousAnswer(ps, m, |ps|) && ps[m] == p
  {
    if ps != [] {
      var n := |ps| - 1;
      LastAnswerIs(ps[..n], p);
      if ps[n].Failed? {
        if m :| 0 <= m < n && PreviousAnswer(ps[..n], m, n) && ps[..n][m] == p {
          assert PreviousAnswer(ps, m, |ps|) && ps[m] == p;
        }
        if m :| 0 <= m < |ps| && PreviousAnswer(ps, m, |ps|) && ps[m] == p {
          assert PreviousAnswer(ps[..n], m, n) && ps[..n][m] == p;
        }
      } else if ps[n] == p {
        assert PreviousAnswer(ps, n, |ps|);
      }
    }
  }

  /** The three ways to resolve, in terms of the polls alone. */
  lemma VerdictMeans(cfg: Config, ps: seq<Poll>)
    requires ps != []
    ensures Verdict(cfg, ps).Some? && Verdict(cfg, ps).value.Aborted? <==>
            cfg.Threshold() <= |ps| && forall i :: |ps| - cfg.Threshold() <= i < |ps| ==> ps[i].Failed?
    ensures Verdict(cfg, ps).Some? && Verdict(cfg, ps).value.Completed? <==>
            var p := ps[|ps| - 1]; p.Counts? && p.pending == 0 && 0 < p.done
    ensures Verdict(cfg, ps) == Some(EmptyComplete) <==>
            ps[|ps| - 1] == EMPTY && exists m :: 0 <= m < |ps| - 1 && PreviousAnswer(ps, m, |ps| - 1) && ps[m] == EMPTY
  {
    TrailingFailuresAre(ps, cfg.Threshold());
    var n := |ps| - 1;
    LastAnswerIs(ps[..n], EMPTY);
    if m :| 0 <= m < n && PreviousAnswer(ps[..n], m, n) && ps[..n][m] == EMPTY {
      assert PreviousAnswer(ps, m, n) && ps[m] == EMPTY;
    }
    if m :| 0 <= m < n && PreviousAnswer(ps, m, n) && ps[m] == EMPTY {
      assert PreviousAnswer(ps[..n], m, n) && ps[..n][m] == EMPTY;
    }
  }

  /** The abort carries the configured number of failures, never more. */
  lemma AbortCount(cfg: Config, answers: seq<Poll>)
    ensures var r := Wait(cfg, START, answers);
            r.outcome.Some? && r.outcome.value.Aborted? ==> r.outcome.value.failures == cfg.Threshold()
  {
    OutcomeFromPolls(cfg, answers);
    var ps := Seen(cfg, START, answers);
    if ps != [] {
      var before := ps[..|ps| - 1];
      if before != [] {
        assert Verdict(cfg, ps[..|ps| - 1]) == None;
        assert TrailingFailures(before) < cfg.Threshold();
      }
      assert TrailingFailures(ps) <= TrailingFailures(before) + 1;
    }
  }

  // ---------------------------------------------------------------- time

  /** Ticks skipped after the k-th failure in a row. */
  function SkipsAfter(cfg: Config, k: nat): nat
    requires 1 <= k
  {
    var n := Min(Pow2(k - 1), cfg.maxSkipTicks);
    if n < 0 then 0 else n
  }

  /** Ticks skipped between the k-th failure and the one that aborts. */
  function SkipsFrom(cfg: Config, k: nat): nat
    requires 1 <= k
    decreases cfg.Threshold() - k
  {
    if cfg.Threshold() <= k then 0 else SkipsAfter(cfg, k) + SkipsFrom(cfg, k + 1)
  }

  function OutageTicks(cfg: Config): nat {
    cfg.Threshold() + SkipsFrom(cfg, 1)
  }

  function Owed(c: Counter): nat {
    if c.skipRemaining < 0 then 0 else c.skipRemaining
  }

  lemma {:induction false} OutageFrom(cfg: Config, s: State, answers: seq<Poll>)
    requires !s.backoff.aborted && s.backoff.failures < cfg.Threshold()
    requires forall p <- answers :: p.Failed?
    ensures var left := Owed(s.backoff) + (cfg.Threshold() - s.backoff.failures)
            + SkipsFrom(cfg, s.backoff.failures + 1);
            var r := Wait(cfg, s, answers);
            if |answers| < left then r.outcome == None
            else r.outcome == Some(Aborted(cfg.Threshold())) && r.ticks == left
    decreases |answers|
  {
    if answers != [] {
      assert answers[0] in answers;
      var (s', o) := Tick(cfg, s, answers[0]);
      if o.None? { OutageFrom(cfg, s', answers[1..]); }
    }
  }

  /** Under a total outage the loop aborts at exactly this tick, and not before. */
  lemma OutageAbortsAt(cfg: Config, answers: seq<Poll>)
    requires forall p <- answers :: p.Failed?
    ensures var r := Wait(cfg, START, answers);
            if |answers| < OutageTicks(cfg) then r.outcome == None
            else r.outcome == Some(Aborted(cfg.Threshold())) && r.ticks == OutageTicks(cfg)
  {
    OutageFrom(cfg, START, answers);
  }

  lemma {:induction false} Pow2Grows(n: nat)
    requires 5 <= n
    ensures 32 <= Pow2(n)
  {
    if n == 5 {
      assert Pow2(1) == 2 && Pow2(2) == 4 && Pow2(3) == 8 && Pow2(4) == 16;
    } else {
      Pow2Grows(n - 1);
    }
  }

  lemma {:induction false} CappedSkips(cfg: Config, k: nat)
    requires cfg == Config(25, 32) && 6 <= k <= 25
    ensures SkipsFrom(cfg, k) == 32 * (25 - k)
    decreases 25 - k
  {
    if k < 25 {
      Pow2Grows(k - 1);
      CappedSkips(cfg, k + 1);
    }
  }

  /** With the defaults (25 failures, 32 ticks) that is tick 664. */
  lemma DefaultOutage()
    ensures OutageTicks(Config(25, 32)) == 664
  {
    var cfg := Config(25, 32);
    CappedSkips(cfg, 6);
    assert Pow2(0) == 1 && Pow2(1) == 2 && Pow2(2) == 4 && Pow2(3) == 8 && Pow2(4) == 16;
    assert SkipsFrom(cfg, 5) == 16 + SkipsFrom(cfg, 6);
    assert SkipsFrom(cfg, 4) == 8 + SkipsFrom(cfg, 5);
    assert SkipsFrom(cfg, 3) == 4 + SkipsFrom(cfg, 4);
    assert SkipsFrom(cfg, 2) == 2 + SkipsFrom(cfg, 3);
    assert SkipsFrom(cfg, 1) == 1 + SkipsFrom(cfg, 2);
  }

  function SkipCap(cfg: Config): nat {
    if cfg.maxSkipTicks < 0 then 0 else cfg.maxSkipTicks
  }

  /** In every reachable state at most `maxSkipTicks` ticks remain to be skipped. */
  lemma {:induction false} SkipsAreBounded(cfg: Config, s: State, answers: seq<Poll>)
    requires Owed(s.backoff) <= SkipCap(cfg)
    ensures Owed(Wait(cfg, s, answers).state.backoff) <= SkipCap(cfg)
    decreases |answers|
  {
    if answers != [] {
      var (s', o) := Tick(cfg, s, answers[0]);
      SkipsAreBounded(cfg, s', answers[1..]);
    }
  }

  lemma {:induction false} SeenAfterSkips(cfg: Config, s: State, answers: seq<Poll>)
    requires !s.backoff.aborted && Owed(s.backoff) < |answers|
    requires forall p <- answers :: p.Counts? && p.pending == 0 && 0 < p.done
    ensures var r := Wait(cfg, s, answers);
            && r.outcome == Some(Completed(answers[Owed(s.backoff)].done))
            && r.ticks == Owed(s.backoff) + 1
    decreases |answers|
  {
    assert answers[0] in answers;
    if Skips(s) {
      SeenAfterSkips(cfg, Tick(cfg, s, answers[0]).0, answers[1..]);
    }
  }

  lemma {:induction false} WaitSplit(cfg: Config, s: State, a: seq<Poll>, b: seq<Poll>)
    requires Wait(cfg, s, a).outcome.None?
    ensures var r := Wait(cfg, Wait(cfg, s, a).state, b);
            Wait(cfg, s, a + b) == r.(ticks := |a| + r.ticks)
    decreases |a|
  {
    if a == [] {
      assert a + b == b;
    } else {
      assert (a + b)[1..] == a[1..] + b;
      WaitSplit(cfg, Tick(cfg, s, a[0]).0, a[1..], b);
    }
  }

  /** Whatever happened before, a lasting completed answer is reported within `maxSkipTicks` + 1 ticks. */
  lemma CompletionIsSeen(cfg: Config, before: seq<Poll>, lasting: seq<Poll>)
    requires Wait(cfg, START, before).outcome.None?
    requires SkipCap(cfg) < |lasting|
    requires forall p <- lasting :: p.Counts? && p.pending == 0 && 0 < p.done
    ensures var r := Wait(cfg, START, before + lasting);
            r.outcome.Some? && r.outcome.value.Completed? && r.ticks <= |before| + SkipCap(cfg) + 1
  {
    WaitSplit(cfg, START, before, lasting);
    SkipsAreBounded(cfg, START, before);
    assert [] + Seen(cfg, START, before) == Seen(cfg, START, before);
    WaitExplained(cfg, [], START, before);
    SeenAfterSkips(cfg, Wait(cfg, START, before).state, lasting);
  }

  // ---------------------------------------------------------------- the class

  /** How a call of `waitForCompletion` ends; `Pending` when the given answers run out first. */
  datatype WaitResult = AlreadyCalled | Pending | Resolved(outcome: Outcome, ticks: nat)

  class CompletionDetector {
    const backoff: BackoffController
    var called: bool
    var emptyPollCount: nat
    var isFirstPoll: bool
    var restarts: nat

    ghost function Contents(): State
      reads this, backoff
    {
      State(backoff.Contents(), emptyPollCount, isFirstPoll, restarts)
    }

    constructor (backoff: BackoffController)
      ensures this.backoff == backoff && !called && Contents() == State(backoff.Contents(), 0, true, 0)
    {
      this.backoff := backoff;
      called, emptyPollCount, isFirstPoll, restarts := false, 0, true, 0;
    }

    method DoTick(answer: Poll) returns (outcome: Option<Outcome>)
      modifies this, backoff
      ensures called == old(called)
      ensures (Contents(), outcome) == Tick(backoff.config, old(Contents()), answer)
      ensures old(backoff.aborted) ==> outcome == Some(Aborted(old(backoff.failures)))
    {
      if backoff.aborted {
        return Some(Aborted(backoff.failures));
      }
      var skip := backoff.ShouldSkipTick();
      if skip {
        return None;
      }
      if answer.Failed? {
        backoff.OnStoreError();
        if backoff.aborted {
          return Some(Aborted(backoff.failures));
        }
        return None;
      }
      backoff.OnStoreSuccess();
      if isFirstPoll && 0 < answer.done {
        restarts := restarts + 1;
      }
      isFirstPoll := false;
      if answer.pending == 0 && 0 < answer.done {
        return Some(Completed(answer.done));
      }
      if answer.pending == 0 && answer.done == 0 {
        emptyPollCount := emptyPollCount + 1;
        if 2 <= emptyPollCount {
          return Some(EmptyComplete);
        }
      } else {
        emptyPollCount := 0;
      }
      return None;
    }

    /** Refused, and without effect, from the second call on. */
    method WaitForCompletion(answers: seq<Poll>) returns (result: WaitResult)
      modifies this, backoff
      ensures old(called) ==> result == AlreadyCalled && called && Contents() == old(Contents())
      ensures !old(called) ==>
                var r := Wait(backoff.config, State(old(backoff.Contents()), 0, true, old(restarts)), answers);
                && called && Contents() == r.state
                && result == if r.outcome.None? then Pending else Resolved(r.outcome.value, r.ticks)
    {
      if called {
        return AlreadyCalled;
      }
      called, emptyPollCount, isFirstPoll := true, 0, true;
      ghost var goal := Wait(backoff.config, Contents(), answers);
      for n := 0 to |answers|
        invariant called
        invariant var r := Wait(backoff.config, Contents(), answers[n..]); goal == r.(ticks := n + r.ticks)
      {
        var outcome := DoTick(answers[n]);
        assert answers[n..][1..] == answers[n + 1..];
        if outcome.Some? {
          return Resolved(outcome.value, n + 1);
        }
      }
      assert answers[|answers|..] == [];
      return Pending;
    }
  }
}
