/** The bounds of the sliding-window limiter are exact: runs that reach them, and runs that show where they end. */
module SlidingWindowLimits {
  import opened Sizes
  import opened SlidingWindows

  // ---------------------------------------------------------------- runs step by step

  ghost predicate Goes(cfg: Config, late: nat, s: State, es: seq<Event>, t: State) {
    Runnable(cfg, late, s, es) && Run(cfg, s, es) == t
  }

  lemma {:induction false} Joined(cfg: Config, late: nat, s: State, a: seq<Event>, t: State, b: seq<Event>, u: State)
    requires Goes(cfg, late, s, a, t) && Goes(cfg, late, t, b, u)
    ensures Goes(cfg, late, s, a + b, u)
    decreases |a|
  {
    if a == [] {
      assert a + b == b;
    } else {
      assert (a + b)[1..] == a[1..] + b;
      Joined(cfg, late, Step(cfg, s, a[0]), a[1..], t, b, u);
    }
  }

  lemma EventBefore(cfg: Config, late: nat, s: State, e: Event, t: State, es: seq<Event>, u: State)
    requires Enabled(late, s, e) && Step(cfg, s, e) == t && Goes(cfg, late, t, es, u)
    ensures Goes(cfg, late, s, [e] + es, u)
  {
    assert ([e] + es)[1..] == es;
  }

  // ---------------------------------------------------------------- bursts at time 0

  /** Nothing but admissions and resets, at time 0, by members below `next`. */
  ghost predicate Calm(s: State, next: Member) {
    && s.clock == 0
    && (forall m <- s.members.Keys :: m < next && s.members[m] == 0)
    && (forall m <- s.log.Keys ::
        m < next && s.log[m].at == 0 && s.log[m].fate == Admitted && s.log[m].epoch <= |s.resets|)
    && (forall i :: 0 <= i < |s.resets| ==> s.resets[i] == 0)
  }

  lemma OneAdmission(cfg: Config, late: nat, s: State, m: Member) returns (t: State)
    requires cfg.Sensible() && Calm(s, m) && |s.members| < cfg.maxRequests
    ensures Enabled(late, s, Check(m, 0)) && t == Step(cfg, s, Check(m, 0))
    ensures Calm(t, m + 1) && t.resets == s.resets && |t.members| == |s.members| + 1 && |t.log| == |s.log| + 1
  {
    t := Step(cfg, s, Check(m, 0));
    assert Cleaned(cfg, s.members, 0) == s.members;
    assert m !in s.members.Keys && m !in s.log.Keys;
    OneMore(s.members, m, 0);
    OneMore(s.log, m, Record(0, Admitted, |s.resets|, |s.sweeps| + 1));
  }

  lemma OneMore<V>(z: map<Member, V>, m: Member, v: V)
    requires m !in z
    ensures |z[m := v]| == |z| + 1
  {
    assert z[m := v].Keys == z.Keys + {m};
    assert |z[m := v]| == |z[m := v].Keys| && |z| == |z.Keys|;
  }

  /** A burst that fits is admitted. */
  lemma {:induction false} BurstIsAdmitted(cfg: Config, late: nat, s: State, from: Member, k: nat)
    returns (es: seq<Event>, t: State)
    requires cfg.Sensible() && Calm(s, from) && |s.members| + k <= cfg.maxRequests
    ensures Goes(cfg, late, s, es, t)
    ensures Calm(t, from + k) && t.resets == s.resets && |t.log| == |s.log| + k
    decreases k
  {
    if k > 0 {
      var next := OneAdmission(cfg, late, s, from);
      var rest;
      rest, t := BurstIsAdmitted(cfg, late, next, from + 1, k - 1);
      EventBefore(cfg, late, s, Check(from, 0), next, rest, t);
      es := [Check(from, 0)] + rest;
    } else {
      es, t := [], s;
    }
  }

  lemma CalmLog(s: State, next: Member, width: int)
    requires Calm(s, next) && 0 < width
    ensures |AllAdmitted(s.log, width, 0)| == |s.log|
  {
    forall m | m in s.log ensures m in AllAdmitted(s.log, width, 0) { assert m in s.log.Keys; }
    assert AllAdmitted(s.log, width, 0) == s.log.Keys;
    assert |s.log| == |s.log.Keys|;
  }

  // ---------------------------------------------------------------- resets

  lemma OneReset(cfg: Config, late: nat, s: State, next: Member) returns (es: seq<Event>, t: State)
    requires Calm(s, next)
    ensures Goes(cfg, late, s, es, t)
    ensures Calm(t, next) && t.members == map[] && t.log == s.log && |t.resets| == |s.resets| + 1
  {
    t := Step(cfg, s, Reset(0));
    EventBefore(cfg, late, s, Reset(0), t, [], t);
    es := [Reset(0)] + [];
  }

  lemma ResetAndBurst(cfg: Config, late: nat, s: State, next: Member) returns (es: seq<Event>, t: State)
    requires cfg.Sensible() && Calm(s, next)
    ensures Goes(cfg, late, s, es, t) && Calm(t, next + cfg.maxRequests)
    ensures |t.log| == |s.log| + cfg.maxRequests && |t.resets| == |s.resets| + 1
  {
    var reset, wiped := OneReset(cfg, late, s, next);
    var burst;
    burst, t := BurstIsAdmitted(cfg, late, wiped, next, cfg.maxRequests);
    es := Continued(cfg, late, s, reset, wiped, burst, t);
  }

  /** As many resets, with a full burst before the first and after each. */
  lemma {:induction false} RoundsAreAdmitted(cfg: Config, late: nat, k: nat)
    returns (es: seq<Event>, t: State, next: Member)
    requires cfg.Sensible()
    ensures Goes(cfg, late, START, es, t) && Calm(t, next)
    ensures |t.resets| == k && |t.log| == Budget(k, cfg.maxRequests)
  {
    if k == 0 {
      es, t := BurstIsAdmitted(cfg, late, START, 0, cfg.maxRequests);
      next := cfg.maxRequests;
    } else {
      var before, s, m := RoundsAreAdmitted(cfg, late, k - 1);
      var round;
      round, t := ResetAndBurst(cfg, late, s, m);
      es := Continued(cfg, late, START, before, s, round, t);
      next := m + cfg.maxRequests;
    }
  }

  lemma Continued(cfg: Config, late: nat, s: State, a: seq<Event>, t: State, b: seq<Event>, u: State)
    returns (es: seq<Event>)
    requires Goes(cfg, late, s, a, t) && Goes(cfg, late, t, b, u)
    ensures Goes(cfg, late, s, es, u)
  {
    Joined(cfg, late, s, a, t, b, u);
    es := a + b;
  }

  lemma {:induction false} ResetsAtZero(late: nat, resets: seq<int>, width: int)
    requires 0 < width && forall i :: 0 <= i < |resets| ==> resets[i] == 0
    ensures |ResetsIn(late, resets, width, 0)| == |resets|
    decreases |resets|
  {
    if resets != [] {
      var n := |resets| - 1;
      ResetsAtZero(late, resets[..n], width);
      assert ResetsIn(late, resets, width, 0) == ResetsIn(late, resets[..n], width, 0) + {n};
    } else {
      assert ResetsIn(late, resets, width, 0) == {};
    }
  }

  /** What a run shows in the window of width `width` that ends at time 0. */
  ghost predicate Shows(cfg: Config, late: nat, es: seq<Event>, width: int, resets: nat, admitted: nat) {
    && Runnable(cfg, late, START, es)
    && |ResetsIn(late, Run(cfg, START, es).resets, width, 0)| == resets
    && |AllAdmitted(Run(cfg, START, es).log, width, 0)| == admitted
  }

  ghost predicate CanShow(cfg: Config, late: nat, width: int, resets: nat, admitted: nat) {
    exists es :: Shows(cfg, late, es, width, resets, admitted)
  }

  /**
   The limit with resets is reached: any number of resets in a window let so many times the limit through, and
   once more.
   */
  lemma ResetsReachTheLimit(cfg: Config, late: nat, k: nat)
    requires late < cfg.windowMs
    ensures CanShow(cfg, late, cfg.windowMs - late, k, (k + 1) * cfg.maxRequests)
  {
    var limit, width := cfg.maxRequests, cfg.windowMs - late;
    var es, s, next := RoundsAreAdmitted(cfg, late, k);
    ResetsAtZero(late, s.resets, width);
    CalmLog(s, next, width);
    BudgetIs(k, limit);
    assert Shows(cfg, late, es, width, k, Budget(k, limit));
  }

  // ---------------------------------------------------------------- late landings

  /** No run admits more than the limit in any window of that width between two resets. */
  ghost predicate WidthIsSafe(cfg: Config, late: nat, width: int) {
    forall es, epoch: nat, t :: Runnable(cfg, late, START, es) ==>
      |Window(Run(cfg, START, es).log, Admitted, epoch, width, t)| <= cfg.maxRequests
  }

  /** When the late request is stamped. */
  function LateStamp(cfg: Config, late: nat): nat {
    if late < cfg.windowMs then cfg.windowMs - late else 0
  }

  lemma SweptAndLate(cfg: Config, late: nat, s: State) returns (es: seq<Event>, t: State, sweep: nat)
    requires cfg.Sensible() && 1 <= cfg.maxRequests && Calm(s, cfg.maxRequests)
    ensures Goes(cfg, late, s, es, t)
    ensures t.log == s.log[cfg.maxRequests := Record(LateStamp(cfg, late), Admitted, |s.resets|, sweep)]
  {
    var m, stamp := cfg.maxRequests, LateStamp(cfg, late);
    var swept := Step(cfg, s, Peek(cfg.windowMs));
    assert Cleaned(cfg, s.members, cfg.windowMs) == map[];
    assert swept.members == map[] && Cleaned(cfg, swept.members, stamp) == map[];
    assert m !in s.log.Keys;
    t, sweep := Step(cfg, swept, Check(m, stamp)), |swept.sweeps| + 1;
    EventBefore(cfg, late, swept, Check(m, stamp), t, [], t);
    EventBefore(cfg, late, s, Peek(cfg.windowMs), swept, [Check(m, stamp)] + [], t);
    es := [Peek(cfg.windowMs)] + ([Check(m, stamp)] + []);
  }

  lemma OneTooMany(s: State, m: Member, r: Record, width: int)
    requires Calm(s, m) && s.resets == [] && r.fate == Admitted && r.epoch == 0 && 0 <= r.at < width
    ensures |Window(s.log[m := r], Admitted, 0, width, r.at)| == |s.log| + 1
  {
    var log' := s.log[m := r];
    assert m !in s.log.Keys;
    OneMore(s.log, m, r);
    forall x | x in log' ensures x in Window(log', Admitted, 0, width, r.at) {
      if x != m { assert x in s.log.Keys; }
    }
    assert Window(log', Admitted, 0, width, r.at) == log'.Keys;
    assert |log'| == |log'.Keys|;
  }

  /**
   A full burst, swept away at the first moment it can be, and one request stamped as late as it may be: a window
   wider than `windowMs - late` holds one too many.
   */
  lemma LateRequestExceeds(cfg: Config, late: nat, width: int)
    requires cfg.Sensible() && 1 <= cfg.maxRequests && 1 <= width && cfg.windowMs - late < width
    ensures exists es :: Runnable(cfg, late, START, es)
              && |Window(Run(cfg, START, es).log, Admitted, 0, width, LateStamp(cfg, late))| == cfg.maxRequests + 1
  {
    var m := cfg.maxRequests;
    var burst, full := BurstIsAdmitted(cfg, late, START, 0, m);
    var rest, t, sweep := SweptAndLate(cfg, late, full);
    Joined(cfg, late, START, burst, full, rest, t);
    OneTooMany(full, m, Record(LateStamp(cfg, late), Admitted, 0, sweep), width);
    assert Goes(cfg, late, START, burst + rest, t);
  }

  /** The limit holds in every window of a width if and only if that width and the lateness fit into `windowMs`. */
  lemma WidthIsSafeIff(cfg: Config, late: nat, width: int)
    requires cfg.Sensible() && 1 <= cfg.maxRequests && 1 <= width
    ensures WidthIsSafe(cfg, late, width) <==> width + late <= cfg.windowMs
  {
    if width + late <= cfg.windowMs {
      forall es, epoch: nat, t | Runnable(cfg, late, START, es)
        ensures |Window(Run(cfg, START, es).log, Admitted, epoch, width, t)| <= cfg.maxRequests
      {
        NoWindowExceeds(cfg, late, es, epoch, t);
        var log := Run(cfg, START, es).log;
        SubsetSize(Window(log, Admitted, epoch, width, t), Window(log, Admitted, epoch, cfg.windowMs - late, t));
      }
    } else {
      LateRequestExceeds(cfg, late, width);
    }
  }

  // ---------------------------------------------------------------- removals

  /** One request admitted at 0 where one is allowed, and another denied at 9. */
  function Denied(a: Member, b: Member): State {
    State(map[a := 0, b := 9], 19, map[a := Record(0, Admitted, 0, 1)][b := Record(9, Owing, 0, 2)], [], [0, 9], 9)
  }

  lemma DeniedState(a: Member, b: Member)
    requires a != b
    ensures Goes(Config(1, 10), 0, START, [Check(a, 0)] + ([Check(b, 9)] + []), Denied(a, b))
  {
    var cfg := Config(1, 10);
    var first := State(map[a := 0], 10, map[a := Record(0, Admitted, 0, 1)], [], [0], 0);
    assert Cleaned(cfg, map[], 0) == map[] && Cleaned(cfg, first.members, 9) == first.members;
    assert Step(cfg, START, Check(a, 0)) == first && Step(cfg, first, Check(b, 9)) == Denied(a, b);
    EventBefore(cfg, 0, first, Check(b, 9), Denied(a, b), [], Denied(a, b));
    EventBefore(cfg, 0, START, Check(a, 0), first, [Check(b, 9)] + [], Denied(a, b));
  }

  /** A removal that is still outstanding can deny a request although no request of its window was admitted. */
  lemma OutstandingRemovalDenies(a: Member, b: Member)
    requires a != b
    ensures Goes(Config(1, 10), 0, START, [Check(a, 0)] + ([Check(b, 9)] + []), Denied(a, b))
    ensures Window(Denied(a, b).log, Admitted, 0, 10, 10) == {} && !Allows(Config(1, 10), Denied(a, b), 10)
    ensures Enabled(0, Denied(a, b), Remove(b))
            && Allows(Config(1, 10), Step(Config(1, 10), Denied(a, b), Remove(b)), 10)
  {
    DeniedState(a, b);
    var cfg, denied := Config(1, 10), Denied(a, b);
    assert Cleaned(cfg, denied.members, 10) == map[b := 9];
    assert Step(cfg, denied, Remove(b)).members == map[a := 0];
    assert Cleaned(cfg, map[a := 0], 10) == map[];
  }
}
