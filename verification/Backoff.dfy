/**
 The two counters of consecutive state-store failures: the poll loop's backoff
 controller, which also skips ticks, and the process-wide abort handler.
 */
module Backoff {

  datatype Config = Config(maxConsecutiveFailures: int, maxSkipTicks: int) {
    /** The number of consecutive failures that aborts: the first one already, if the limit is below one. */
    function Threshold(): nat {
      if maxConsecutiveFailures < 1 then 1 else maxConsecutiveFailures
    }
  }

  function Pow2(n: nat): nat {
    if n == 0 then 1 else 2 * Pow2(n - 1)
  }

  function Min(a: int, b: int): int {
    if a <= b then a else b
  }

  // ---------------------------------------------------------------- specification

  datatype Counter = Counter(failures: nat, skipRemaining: int, aborted: bool)

  const IDLE := Counter(0, 0, false)

  function OnError(cfg: Config, c: Counter): Counter {
    if c.aborted then c
    else if cfg.maxConsecutiveFailures <= c.failures + 1 then Counter(c.failures + 1, c.skipRemaining, true)
    else Counter(c.failures + 1, Min(Pow2(c.failures), cfg.maxSkipTicks), false)
  }

  function OnSuccess(c: Counter): Counter {
    Counter(0, 0, c.aborted)
  }

  function AfterTick(c: Counter): Counter {
    if 0 < c.skipRemaining then c.(skipRemaining := c.skipRemaining - 1) else c
  }

  /** A history of store calls: true for an error. */
  function AfterCalls(cfg: Config, calls: seq<bool>): Counter {
    if calls == [] then IDLE
    else
      var c := AfterCalls(cfg, calls[..|calls| - 1]);
      if calls[|calls| - 1] then OnError(cfg, c) else OnSuccess(c)
  }

  /** The abort handler, with the number of times it has called back. */
  datatype Handler = Handler(failures: nat, aborted: bool, callbacks: nat)

  function Recorded(maxConsecutiveFailures: int, h: Handler, error: bool): Handler {
    if !error then h.(failures := 0)
    else if h.aborted then h
    else if maxConsecutiveFailures <= h.failures + 1 then Handler(h.failures + 1, true, h.callbacks + 1)
    else h.(failures := h.failures + 1)
  }

  function AfterRecords(maxConsecutiveFailures: int, calls: seq<bool>): Handler {
    if calls == [] then Handler(0, false, 0)
    else Recorded(maxConsecutiveFailures, AfterRecords(maxConsecutiveFailures, calls[..|calls| - 1]),
        calls[|calls| - 1])
  }

  // ---------------------------------------------------------------- the two agree

  /** Both counters abort on the same histories, and the handler calls back exactly once when it does. */
  lemma {:induction false} SameVerdict(cfg: Config, calls: seq<bool>)
    ensures AfterCalls(cfg, calls).aborted == AfterRecords(cfg.maxConsecutiveFailures, calls).aborted
    ensures AfterCalls(cfg, calls).failures == AfterRecords(cfg.maxConsecutiveFailures, calls).failures
    ensures AfterRecords(cfg.maxConsecutiveFailures, calls).callbacks == if AfterCalls(cfg, calls).aborted then 1 else 0
  {
    if calls != [] { SameVerdict(cfg, calls[..|calls| - 1]); }
  }

  /** The errors at the very end of a history. */
  function Trailing(calls: seq<bool>): nat {
    if calls == [] || !calls[|calls| - 1] then 0 else 1 + Trailing(calls[..|calls| - 1])
  }

  lemma {:induction false} TrailingAre(calls: seq<bool>, k: nat)
    requires k <= |calls|
    ensures k <= Trailing(calls) <==> forall i :: |calls| - k <= i < |calls| ==> calls[i]
  {
    if k > 0 {
      var n := |calls| - 1;
      TrailingAre(calls[..n], k - 1);
      if calls[n] {
        assert (forall i :: |calls| - k <= i < |calls| ==> calls[i]) <==>
               (forall i :: n - (k - 1) <= i < n ==> calls[..n][i]);
      }
    }
  }

  lemma {:induction false} TrailingBound(calls: seq<bool>)
    ensures Trailing(calls) <= |calls|
  {
    if calls != [] { TrailingBound(calls[..|calls| - 1]); }
  }

  /** `n` errors in a row, ending with the call before position `end`. */
  ghost predicate ErrorsBefore(calls: seq<bool>, n: nat, end: nat)
    requires end <= |calls|
  {
    n <= end && forall i :: end - n <= i < end ==> calls[i]
  }

  lemma {:induction false} CountsTrailing(cfg: Config, calls: seq<bool>)
    ensures !AfterCalls(cfg, calls).aborted ==>
              AfterCalls(cfg, calls).failures == Trailing(calls) && Trailing(calls) < cfg.Threshold()
    ensures AfterCalls(cfg, calls).aborted <==> exists end ::
            0 <= end <= |calls| && ErrorsBefore(calls, cfg.Threshold(), end)
  {
    if calls != [] {
      var n := |calls| - 1;
      var before := calls[..n];
      CountsTrailing(cfg, before);
      TrailingBound(calls);
      if AfterCalls(cfg, before).aborted {
        var end :| 0 <= end <= n && ErrorsBefore(before, cfg.Threshold(), end);
        assert ErrorsBefore(calls, cfg.Threshold(), end);
      } else {
        if cfg.Threshold() <= |calls| { TrailingAre(calls, cfg.Threshold()); }
        if AfterCalls(cfg, calls).aborted {
          assert ErrorsBefore(calls, cfg.Threshold(), |calls|);
        } else {
          forall end | 0 <= end <= |calls| ensures !ErrorsBefore(calls, cfg.Threshold(), end) {
            if end <= n {
              assert !ErrorsBefore(before, cfg.Threshold(), end);
            }
          }
        }
      }
    }
  }

  /** Both abort exactly when the history contains the configured number of errors in a row. */
  lemma AbortsOnConsecutiveErrors(cfg: Config, calls: seq<bool>)
    ensures AfterCalls(cfg, calls).aborted <==> exists end ::
            0 <= end <= |calls| && ErrorsBefore(calls, cfg.Threshold(), end)
    ensures AfterRecords(cfg.maxConsecutiveFailures, calls).aborted <==>
            exists end :: 0 <= end <= |calls| && ErrorsBefore(calls, cfg.Threshold(), end)
  {
    CountsTrailing(cfg, calls);
    SameVerdict(cfg, calls);
  }

  /** Between errors in a row the ticks to skip double up to the cap; a success leaves none. */
  lemma {:induction false} SkipsOwed(cfg: Config, calls: seq<bool>)
    requires !AfterCalls(cfg, calls).aborted
    ensures AfterCalls(cfg, calls).skipRemaining ==
            if Trailing(calls) == 0 then 0
            else if Pow2(Trailing(calls) - 1) <= cfg.maxSkipTicks then Pow2(Trailing(calls) - 1) else cfg.maxSkipTicks
  {
    if calls != [] { CountsTrailing(cfg, calls[..|calls| - 1]); }
  }

  // ---------------------------------------------------------------- the classes

  class BackoffController {
    var failures: nat
    var skipRemaining: int
    var aborted: bool
    const config: Config

    ghost function Contents(): Counter
      reads this
    {
      Counter(failures, skipRemaining, aborted)
    }

    constructor (config: Config)
      ensures Contents() == IDLE && this.config == config
    {
      this.config := config;
      failures, skipRemaining, aborted := 0, 0, false;
    }

    method OnStoreError()
      modifies this
      ensures Contents() == OnError(config, old(Contents()))
    {
      if aborted { return; }
      failures := failures + 1;
      if config.maxConsecutiveFailures <= failures {
        aborted := true;
        return;
      }
      var raw := Pow2(failures - 1);
      skipRemaining := Min(raw, config.maxSkipTicks);
    }

    method OnStoreSuccess()
      modifies this
      ensures Contents() == OnSuccess(old(Contents()))
    {
      failures, skipRemaining := 0, 0;
    }

    method ShouldSkipTick() returns (skip: bool)
      modifies this
      ensures skip <==> 0 < old(skipRemaining)
      ensures skipRemaining == old(skipRemaining) - (if skip then 1 else 0)
      ensures Contents() == AfterTick(old(Contents()))
    {
      if 0 < skipRemaining {
        skipRemaining := skipRemaining - 1;
        return true;
      }
      return false;
    }
  }

  class AbortHandler {
    var failures: nat
    var aborted: bool
    var callbacks: nat
    const maxConsecutiveFailures: int

    ghost function Contents(): Handler
      reads this
    {
      Handler(failures, aborted, callbacks)
    }

    constructor (maxConsecutiveFailures: int)
      ensures Contents() == Handler(0, false, 0) && this.maxConsecutiveFailures == maxConsecutiveFailures
    {
      this.maxConsecutiveFailures := maxConsecutiveFailures;
      failures, aborted, callbacks := 0, false, 0;
    }

    method RecordFailure()
      modifies this
      ensures Contents() == Recorded(maxConsecutiveFailures, old(Contents()), true)
    {
      if aborted { return; }
      failures := failures + 1;
      if maxConsecutiveFailures <= failures {
        aborted := true;
        callbacks := callbacks + 1;
      }
    }

    method RecordSuccess()
      modifies this
      ensures Contents() == Recorded(maxConsecutiveFailures, old(Contents()), false)
    {
      failures := 0;
    }
  }
}
