/**
 Per-domain token buckets, refilled lazily.  Tokens are reals; the clock is in
 milliseconds, the refill rate in tokens per second.  `tryAcquire` reads the clock once
 to create a missing bucket and once more to refill, so a request carries two readings.
 */
module TokenBuckets {
  import opened Wrappers

  datatype Config = Config(maxTokens: real, refillRate: real) {
    ghost predicate Sensible() {
      0.0 <= maxTokens && 0.0 <= refillRate
    }
  }

  datatype Bucket = Bucket(tokens: real, lastRefill: real)

  type Buckets = map<string, Bucket>

  // ---------------------------------------------------------------- specification

  function Min(a: real, b: real): real {
    if a <= b then a else b
  }

  /** Tokens earned over a span of the clock. */
  function Earned(cfg: Config, from: real, to: real): real {
    (to - from) / 1000.0 * cfg.refillRate
  }

  function Refilled(cfg: Config, b: Bucket, now: real): Bucket {
    Bucket(Min(cfg.maxTokens, b.tokens + Earned(cfg, b.lastRefill, now)), now)
  }

  datatype Event =
    | TryAcquire(domain: string, created: real, now: real)
    | GetTokens(domain: string, now: real)
    | Reset(domain: string)
    | Clear

  /** The bucket a request finds: the existing one, or a full one made just now. */
  function Found(cfg: Config, b: Option<Bucket>, created: real): Bucket {
    if b.Some? then b.value else Bucket(cfg.maxTokens, created)
  }

  function Allowed(cfg: Config, b: Option<Bucket>, created: real, now: real): bool {
    1.0 <= Refilled(cfg, Found(cfg, b, created), now).tokens
  }

  /** Spend one token, or none, after refilling. */
  function Spent(cfg: Config, b: Option<Bucket>, created: real, now: real, spend: bool): Bucket {
    var r := Refilled(cfg, Found(cfg, b, created), now);
    if spend then r.(tokens := r.tokens - 1.0) else r
  }

  function Get(m: Buckets, d: string): Option<Bucket> {
    if d in m then Some(m[d]) else None
  }

  function Step(cfg: Config, m: Buckets, e: Event): Buckets {
    match e
    case TryAcquire(d, created, now) =>
      m[d := Spent(cfg, Get(m, d), created, now, Allowed(cfg, Get(m, d), created, now))]
    case GetTokens(d, now) => if d in m then m[d := Refilled(cfg, m[d], now)] else m
    case Reset(d) => m - {d}
    case Clear => map[]
  }

  function Run(cfg: Config, m: Buckets, es: seq<Event>): Buckets
    decreases |es|
  {
    if es == [] then m else Run(cfg, Step(cfg, m, es[0]), es[1..])
  }

  predicate IsRequest(e: Event, d: string) {
    e.TryAcquire? && e.domain == d
  }

  /** What the limiter answers to each request of domain `d`, in order. */
  function Decisions(cfg: Config, m: Buckets, es: seq<Event>, d: string): seq<bool>
    decreases |es|
  {
    if es == [] then []
    else
      (if IsRequest(es[0], d) then [Allowed(cfg, Get(m, d), es[0].created, es[0].now)] else [])
      + Decisions(cfg, Step(cfg, m, es[0]), es[1..], d)
  }

  function CountTrue(ds: seq<bool>): nat {
    if ds == [] then 0 else (if ds[0] then 1 else 0) + CountTrue(ds[1..])
  }

  /** As often as `true` occurs. */
  lemma {:induction false} CountTrueIs(ds: seq<bool>)
    ensures CountTrue(ds) == multiset(ds)[true]
  {
    if ds != [] {
      CountTrueIs(ds[1..]);
      assert ds == [ds[0]] + ds[1..];
    }
  }

  // ---------------------------------------------------------------- the clock

  /** The readings of a history never run backwards, starting from `from`. */
  ghost predicate Clocked(es: seq<Event>, from: real) {
    es != [] ==>
      match es[0]
      case TryAcquire(_, created, now) => from <= created <= now && Clocked(es[1..], now)
      case GetTokens(_, now) => from <= now && Clocked(es[1..], now)
      case _ => Clocked(es[1..], from)
  }

  ghost predicate EndsBy(es: seq<Event>, t: real) {
    forall e <- es :: e.TryAcquire? ==> e.now <= t
  }

  /** Times are in milliseconds, the rate is per second. */
  lemma EarnedIs(cfg: Config, from: real, to: real)
    ensures Earned(cfg, from, to) == cfg.refillRate * (to - from) / 1000.0
  {}

  /** What a bucket holds after some time: what it held and what was earned, but no more than its size. */
  lemma RefilledIs(cfg: Config, b: Bucket, now: real)
    ensures var earned := b.tokens + cfg.refillRate * (now - b.lastRefill) / 1000.0;
            Refilled(cfg, b, now) == Bucket(if earned <= cfg.maxTokens then earned else cfg.maxTokens, now)
    ensures 1.0 <= Refilled(cfg, b, now).tokens <==>
            1.0 <= cfg.maxTokens && 1.0 <= b.tokens + cfg.refillRate * (now - b.lastRefill) / 1000.0
  {
    EarnedIs(cfg, b.lastRefill, now);
  }

  /**
   What a request is told: it is granted if a bucket of that size can hold a token and what was held plus what was
   earned is one.  It costs a token, and no other bucket changes; a missing bucket is made full.
   */
  lemma RequestMeans(cfg: Config, m: Buckets, d: string, created: real, now: real, held: Bucket, total: real)
    requires held == if d in m then m[d] else Bucket(cfg.maxTokens, created)
    requires total == held.tokens + cfg.refillRate * (now - held.lastRefill) / 1000.0
    ensures Allowed(cfg, Get(m, d), created, now) <==> 1.0 <= cfg.maxTokens && 1.0 <= total
    ensures var tokens := if total <= cfg.maxTokens then total else cfg.maxTokens;
            Step(cfg, m, TryAcquire(d, created, now)) ==
            m[d := Bucket(if 1.0 <= tokens then tokens - 1.0 else tokens, now)]
  {
    RefilledIs(cfg, held, now);
  }

  /** What a read answers: the same without a cost; it makes no bucket. */
  lemma ReadMeans(cfg: Config, m: Buckets, d: string, now: real, held: Bucket, total: real)
    requires d in m ==> held == m[d]
    requires total == held.tokens + cfg.refillRate * (now - held.lastRefill) / 1000.0
    ensures var tokens := if total <= cfg.maxTokens then total else cfg.maxTokens;
            Step(cfg, m, GetTokens(d, now)) == if d in m then m[d := Bucket(tokens, now)] else m
  {
    RefilledIs(cfg, held, now);
  }

  lemma EarnedAdds(cfg: Config, a: real, b: real, c: real)
    ensures Earned(cfg, a, b) + Earned(cfg, b, c) == Earned(cfg, a, c)
  {
    var x, y, r := (b - a) / 1000.0, (c - b) / 1000.0, cfg.refillRate;
    assert (c - a) / 1000.0 == x + y;
    assert (x + y) * r == x * r + y * r;
  }

  lemma EarnedPositive(cfg: Config, a: real, b: real)
    requires cfg.Sensible() && a <= b
    ensures 0.0 <= Earned(cfg, a, b)
  {
    var x := (b - a) / 1000.0;
    assert 0.0 <= x;
    assert 0.0 <= x * cfg.refillRate;
  }

  ghost predicate BucketOk(cfg: Config, b: Bucket, now: real) {
    0.0 <= b.tokens <= cfg.maxTokens && b.lastRefill <= now
  }

  ghost predicate AllOk(cfg: Config, m: Buckets, now: real) {
    forall d <- m.Keys :: BucketOk(cfg, m[d], now)
  }

  lemma RefilledOk(cfg: Config, b: Bucket, now: real)
    requires cfg.Sensible() && BucketOk(cfg, b, now)
    ensures BucketOk(cfg, Refilled(cfg, b, now), now)
  {
    EarnedPositive(cfg, b.lastRefill, now);
  }

  /** Refilling in two steps or in one gives the same bucket: that is what makes laziness harmless. */
  lemma RefillTwice(cfg: Config, b: Bucket, mid: real, now: real)
    requires cfg.Sensible() && b.lastRefill <= mid <= now
    ensures Refilled(cfg, Refilled(cfg, b, mid), now) == Refilled(cfg, b, now)
  {
    EarnedAdds(cfg, b.lastRefill, mid, now);
    EarnedPositive(cfg, b.lastRefill, mid);
    EarnedPositive(cfg, mid, now);
  }

  lemma StepOk(cfg: Config, m: Buckets, e: Event, from: real)
    requires cfg.Sensible() && AllOk(cfg, m, from) && Clocked([e], from)
    ensures AllOk(cfg, Step(cfg, m, e), Reading(e, from)) && from <= Reading(e, from)
  {
    match e
    case TryAcquire(d, created, now) =>
      RefilledOk(cfg, Found(cfg, Get(m, d), created), now);
    case GetTokens(d, now) => if d in m { RefilledOk(cfg, m[d], now); }
    case _ =>
  }

  /** The clock after an event. */
  function Reading(e: Event, from: real): real {
    if e.TryAcquire? || e.GetTokens? then e.now else from
  }

  lemma {:induction false} RunOk(cfg: Config, m: Buckets, es: seq<Event>, from: real, to: real)
    requires cfg.Sensible() && AllOk(cfg, m, from) && Clocked(es, from) && from <= to
    requires forall e <- es :: Reading(e, from) <= to
    ensures AllOk(cfg, Run(cfg, m, es), to)
    decreases |es|
  {
    if es != [] {
      StepOk(cfg, m, es[0], from);
      assert es[0] in es;
      RunOk(cfg, Step(cfg, m, es[0]), es[1..], Reading(es[0], from), to);
    }
  }

  // ---------------------------------------------------------------- requests alone decide

  datatype Request = Request(created: real, now: real)

  function Requests(es: seq<Event>, d: string): seq<Request> {
    if es == [] then []
    else (if IsRequest(es[0], d) then [Request(es[0].created, es[0].now)] else []) + Requests(es[1..], d)
  }

  /** A lone bucket that sees nothing but the requests of its own domain. */
  function Lone(cfg: Config, b: Option<Bucket>, rs: seq<Request>): (ds: seq<bool>)
    ensures |ds| == |rs|
    decreases |rs|
  {
    if rs == [] then []
    else
      var ok := Allowed(cfg, b, rs[0].created, rs[0].now);
      [ok] + Lone(cfg, Some(Spent(cfg, b, rs[0].created, rs[0].now, ok)), rs[1..])
  }

  /** `b` is `a`, possibly read (and so refilled) since. */
  ghost predicate CaughtUp(cfg: Config, a: Option<Bucket>, b: Option<Bucket>) {
    a.Some? == b.Some? &&
    (a.Some? ==> a.value.lastRefill <= b.value.lastRefill && b.value == Refilled(cfg, a.value, b.value.lastRefill))
  }

  lemma CaughtUpDecides(cfg: Config, a: Option<Bucket>, b: Option<Bucket>, created: real, now: real)
    requires cfg.Sensible() && CaughtUp(cfg, a, b) && created <= now
    requires b.Some? ==> b.value.lastRefill <= now
    ensures Allowed(cfg, a, created, now) == Allowed(cfg, b, created, now)
    ensures forall s: bool :: Spent(cfg, a, created, now, s) == Spent(cfg, b, created, now, s)
  {
    if a.Some? {
      RefillTwice(cfg, a.value, b.value.lastRefill, now);
    }
  }

  ghost predicate NoReset(es: seq<Event>, d: string) {
    forall e <- es :: !e.Clear? && e != Reset(d)
  }

  /** Neither other domains nor any number of interleaved reads change what a domain's requests are told. */
  lemma {:induction false} RequestsAloneDecide(cfg: Config, m: Buckets, es: seq<Event>, d: string, b: Option<Bucket>,
      from: real)
    requires cfg.Sensible() && AllOk(cfg, m, from) && Clocked(es, from) && NoReset(es, d)
    requires CaughtUp(cfg, b, Get(m, d)) && (b.Some? ==> BucketOk(cfg, b.value, from))
    ensures Decisions(cfg, m, es, d) == Lone(cfg, b, Requests(es, d))
    decreases |es|
  {
    if es != [] {
      var e := es[0];
      assert e in es;
      StepOk(cfg, m, e, from);
      StaysCaughtUp(cfg, m, e, d, b, from);
      RequestsAloneDecide(cfg, Step(cfg, m, e), es[1..], d, Next(cfg, b, e, d), Reading(e, from));
      var rest := Requests(es[1..], d);
      if IsRequest(e, d) {
        assert ([Request(e.created, e.now)] + rest)[1..] == rest;
      } else {
        assert [] + rest == rest && [] + Decisions(cfg, Step(cfg, m, e), es[1..], d) == Lone(cfg, b, rest);
      }
    }
  }

  /** The bucket that only the domain's own requests change. */
  function Next(cfg: Config, b: Option<Bucket>, e: Event, d: string): Option<Bucket> {
    if IsRequest(e, d) then Some(Spent(cfg, b, e.created, e.now, Allowed(cfg, b, e.created, e.now))) else b
  }

  lemma StaysCaughtUp(cfg: Config, m: Buckets, e: Event, d: string, b: Option<Bucket>, from: real)
    requires cfg.Sensible() && AllOk(cfg, m, from) && Clocked([e], from) && !e.Clear? && e != Reset(d)
    requires CaughtUp(cfg, b, Get(m, d)) && (b.Some? ==> BucketOk(cfg, b.value, from))
    ensures CaughtUp(cfg, Next(cfg, b, e, d), Get(Step(cfg, m, e), d))
    ensures Next(cfg, b, e, d).Some? ==> BucketOk(cfg, Next(cfg, b, e, d).value, Reading(e, from))
    ensures IsRequest(e, d) ==> Allowed(cfg, Get(m, d), e.created, e.now) == Allowed(cfg, b, e.created, e.now)
  {
    match e
    case TryAcquire(_, created, now) =>
      if e.domain == d { RequestStaysCaughtUp(cfg, b, Get(m, d), created, now, from); }
    case GetTokens(_, now) => if e.domain == d && d in m { ReadStaysCaughtUp(cfg, b, m[d], now); }
    case _ =>
  }

  lemma RequestStaysCaughtUp(cfg: Config, a: Option<Bucket>, b: Option<Bucket>, created: real, now: real, from: real)
    requires cfg.Sensible() && CaughtUp(cfg, a, b) && from <= created <= now
    requires b.Some? ==> b.value.lastRefill <= from
    requires a.Some? ==> BucketOk(cfg, a.value, from)
    ensures Allowed(cfg, a, created, now) == Allowed(cfg, b, created, now)
    ensures forall s: bool :: Spent(cfg, a, created, now, s) == Spent(cfg, b, created, now, s)
    ensures var next := Spent(cfg, a, created, now, Allowed(cfg, a, created, now));
            BucketOk(cfg, next, now) && next.lastRefill <= now && CaughtUp(cfg, Some(next), Some(next))
  {
    CaughtUpDecides(cfg, a, b, created, now);
    RefilledOk(cfg, Found(cfg, a, created), now);
    SpentIsCaughtUp(cfg, Spent(cfg, a, created, now, Allowed(cfg, a, created, now)));
  }

  /** Refilling a bucket at once changes nothing. */
  lemma SpentIsCaughtUp(cfg: Config, b: Bucket)
    requires b.tokens <= cfg.maxTokens
    ensures CaughtUp(cfg, Some(b), Some(b))
  {
    EarnedIs(cfg, b.lastRefill, b.lastRefill);
  }

  lemma ReadStaysCaughtUp(cfg: Config, a: Option<Bucket>, b: Bucket, now: real)
    requires cfg.Sensible() && CaughtUp(cfg, a, Some(b)) && b.lastRefill <= now
    ensures CaughtUp(cfg, a, Some(Refilled(cfg, b, now)))
  {
    RefillTwice(cfg, a.value, b.lastRefill, now);
  }

  // ---------------------------------------------------------------- the rate bound

  ghost predicate ClockedRequests(rs: seq<Request>, from: real) {
    rs != [] ==> from <= rs[0].created <= rs[0].now && ClockedRequests(rs[1..], rs[0].now)
  }

  lemma {:induction false} RequestsClocked(es: seq<Event>, d: string, from: real)
    requires Clocked(es, from)
    ensures ClockedRequests(Requests(es, d), from)
    ensures forall r <- Requests(es, d) :: from <= r.now
  {
    if es != [] {
      RequestsClocked(es[1..], d, Reading(es[0], from));
      if Requests(es, d) != [] && !IsRequest(es[0], d) {
        var rs := Requests(es, d);
        assert rs == Requests(es[1..], d);
      }
    }
  }

  /** From a bucket holding `b.tokens`, at most that much plus what is earned can be granted. */
  lemma {:induction false} LoneBudget(cfg: Config, b: Bucket, rs: seq<Request>, to: real)
    requires cfg.Sensible() && BucketOk(cfg, b, b.lastRefill) && ClockedRequests(rs, b.lastRefill)
    requires b.lastRefill <= to && forall r <- rs :: r.now <= to
    ensures CountTrue(Lone(cfg, Some(b), rs)) as real <= b.tokens + Earned(cfg, b.lastRefill, to)
    decreases |rs|
  {
    if rs == [] {
      EarnedPositive(cfg, b.lastRefill, to);
    } else {
      var r := rs[0];
      assert r in rs;
      var ok := Allowed(cfg, Some(b), r.created, r.now);
      var next := Spent(cfg, Some(b), r.created, r.now, ok);
      RefilledOk(cfg, b, r.now);
      LoneBudget(cfg, next, rs[1..], to);
      EarnedAdds(cfg, b.lastRefill, r.now, to);
      var rest := Lone(cfg, Some(next), rs[1..]);
      assert ([ok] + rest)[1..] == rest;
    }
  }

  lemma LoneWindow(cfg: Config, b: Option<Bucket>, rs: seq<Request>, from: real, to: real)
    requires cfg.Sensible() && (b.Some? ==> BucketOk(cfg, b.value, from)) && ClockedRequests(rs, from)
    requires from <= to && forall r <- rs :: from <= r.now <= to
    ensures CountTrue(Lone(cfg, b, rs)) as real <= cfg.maxTokens + Earned(cfg, from, to)
  {
    EarnedPositive(cfg, from, to);
    if rs != [] {
      var r := rs[0];
      assert r in rs;
      var ok := Allowed(cfg, b, r.created, r.now);
      var next := Spent(cfg, b, r.created, r.now, ok);
      RefilledOk(cfg, Found(cfg, b, r.created), r.now);
      LoneBudget(cfg, next, rs[1..], to);
      EarnedAdds(cfg, from, r.now, to);
      EarnedPositive(cfg, from, r.now);
      var rest := Lone(cfg, Some(next), rs[1..]);
      assert ([ok] + rest)[1..] == rest;
    }
  }

  lemma {:induction false} RequestsEndBy(es: seq<Event>, d: string, t: real)
    requires EndsBy(es, t)
    ensures forall r <- Requests(es, d) :: r.now <= t
  {
    if es != [] {
      assert es[0] in es;
      assert EndsBy(es[1..], t);
      RequestsEndBy(es[1..], d, t);
    }
  }

  /**
   The rate limit: after any history `pre`, whatever happens during [from, to] short of a
   reset, one domain is granted at most the burst plus what the span earns.
   */
  lemma RateBound(cfg: Config, pre: seq<Event>, es: seq<Event>, d: string, start: real, from: real, to: real)
    requires cfg.Sensible()
    requires Clocked(pre, start) && start <= from && forall e <- pre :: Reading(e, start) <= from
    requires Clocked(es, from) && from <= to && EndsBy(es, to) && NoReset(es, d)
    ensures CountTrue(Decisions(cfg, Run(cfg, map[], pre), es, d)) as real
            <= cfg.maxTokens + cfg.refillRate * (to - from) / 1000.0
  {
    EarnedIs(cfg, from, to);
    var m := Run(cfg, map[], pre);
    RunOk(cfg, map[], pre, start, from);
    assert CaughtUp(cfg, Get(m, d), Get(m, d)) by {
      if d in m { assert BucketOk(cfg, m[d], from); }
    }
    RequestsAloneDecide(cfg, m, es, d, Get(m, d), from);
    RequestsClocked(es, d, from);
    RequestsEndBy(es, d, to);
    LoneWindow(cfg, Get(m, d), Requests(es, d), from, to);
  }

  // ---------------------------------------------------------------- the greedy bucket is best

  /**
   No span of requests is granted more than the burst and what the span earns, which for times in milliseconds and a
   rate per second is a thousandth of the rate for each millisecond.
   */
  ghost predicate Conforming(cfg: Config, rs: seq<Request>, ds: seq<bool>)
    requires |ds| == |rs|
  {
    forall i, k :: 0 <= i <= k < |rs| ==>
      CountTrue(ds[i..k + 1]) as real <= cfg.maxTokens + cfg.refillRate * (rs[k].now - rs[i].now) / 1000.0
  }

  lemma ConformingIsPaced(cfg: Config, rs: seq<Request>, ds: seq<bool>)
    requires |ds| == |rs|
    ensures Conforming(cfg, rs, ds) <==> Paced(cfg, rs, ds)
  {
    forall i, k | 0 <= i <= k < |rs|
      ensures Earned(cfg, rs[i].now, rs[k].now) == cfg.refillRate * (rs[k].now - rs[i].now) / 1000.0
    {
      EarnedIs(cfg, rs[i].now, rs[k].now);
    }
  }

  /** The same in terms of what a bucket earns. */
  ghost predicate Paced(cfg: Config, rs: seq<Request>, ds: seq<bool>)
    requires |ds| == |rs|
  {
    forall i, k :: 0 <= i <= k < |rs| ==>
      CountTrue(ds[i..k + 1]) as real <= cfg.maxTokens + Earned(cfg, rs[i].now, rs[k].now)
  }

  /** A policy that can be paid for, request by request, out of a bucket. */
  ghost predicate Affordable(cfg: Config, b: Option<Bucket>, rs: seq<Request>, ds: seq<bool>)
    requires |ds| == |rs|
    decreases |rs|
  {
    rs != [] ==>
      && (ds[0] ==> Allowed(cfg, b, rs[0].created, rs[0].now))
      && Affordable(cfg, Some(Spent(cfg, b, rs[0].created, rs[0].now, ds[0])), rs[1..], ds[1..])
  }

  lemma PacedTail(cfg: Config, rs: seq<Request>, ds: seq<bool>)
    requires |ds| == |rs| && rs != [] && Paced(cfg, rs, ds)
    ensures Paced(cfg, rs[1..], ds[1..])
  {
    forall i, k | 0 <= i <= k < |rs[1..]|
      ensures CountTrue(ds[1..][i..k + 1]) as real <= cfg.maxTokens + Earned(cfg, rs[1..][i].now, rs[1..][k].now)
    {
      assert ds[1..][i..k + 1] == ds[i + 1..k + 2];
      assert rs[1..][i] == rs[i + 1] && rs[1..][k] == rs[k + 1];
    }
  }

  /** Every prefix of a policy stays within the tokens in hand plus those earned. */
  ghost predicate WithinBudget(cfg: Config, b: Bucket, rs: seq<Request>, ds: seq<bool>)
    requires |ds| == |rs|
  {
    forall k :: 0 <= k < |rs| ==> CountTrue(ds[..k + 1]) as real <= b.tokens + Earned(cfg, b.lastRefill, rs[k].now)
  }

  lemma BudgetAfterRefill(cfg: Config, b: Bucket, rs: seq<Request>, ds: seq<bool>)
    requires |ds| == |rs| && rs != [] && Paced(cfg, rs, ds) && WithinBudget(cfg, b, rs, ds)
    ensures WithinBudget(cfg, Refilled(cfg, b, rs[0].now), rs, ds)
  {
    forall k | 0 <= k < |rs|
      ensures CountTrue(ds[..k + 1]) as real <= Refilled(cfg, b, rs[0].now).tokens + Earned(cfg, rs[0].now, rs[k].now)
    {
      assert ds[0..k + 1] == ds[..k + 1];
      EarnedAdds(cfg, b.lastRefill, rs[0].now, rs[k].now);
    }
  }

  lemma BudgetTail(cfg: Config, b: Bucket, rs: seq<Request>, ds: seq<bool>)
    requires |ds| == |rs| && rs != [] && WithinBudget(cfg, b, rs, ds)
    ensures WithinBudget(cfg, b.(tokens := b.tokens - (if ds[0] then 1.0 else 0.0)), rs[1..], ds[1..])
  {
    forall k | 0 <= k < |rs[1..]|
      ensures CountTrue(ds[1..][..k + 1]) as real <=
              b.tokens - (if ds[0] then 1.0 else 0.0) + Earned(cfg, b.lastRefill, rs[1..][k].now)
    {
      assert ds[..k + 2][1..] == ds[1..][..k + 1];
      assert rs[1..][k] == rs[k + 1];
    }
  }

  lemma {:induction false} PacedIsAffordable(cfg: Config, b: Bucket, rs: seq<Request>, ds: seq<bool>)
    requires |ds| == |rs| && Paced(cfg, rs, ds) && WithinBudget(cfg, b, rs, ds)
    ensures Affordable(cfg, Some(b), rs, ds)
    decreases |rs|
  {
    if rs != [] {
      var r := Refilled(cfg, b, rs[0].now);
      BudgetAfterRefill(cfg, b, rs, ds);
      assert ds[0] ==> 1.0 <= r.tokens by {
        assert ds[..1] == [ds[0]];
        assert CountTrue(ds[..1]) as real <= r.tokens + Earned(cfg, r.lastRefill, rs[0].now);
      }
      BudgetTail(cfg, r, rs, ds);
      PacedTail(cfg, rs, ds);
      PacedIsAffordable(cfg, Spent(cfg, Some(b), rs[0].created, rs[0].now, ds[0]), rs[1..], ds[1..]);
    }
  }

  /** If the greedy bucket is `lead` grants ahead and at most that much poorer, it stays ahead. */
  lemma {:induction false} GreedyStaysAhead(cfg: Config, g: Bucket, a: Bucket, lead: nat, rs: seq<Request>,
      ds: seq<bool>, n: nat)
    requires |ds| == |rs| && n <= |rs| && Affordable(cfg, Some(a), rs, ds)
    requires g.lastRefill == a.lastRefill && a.tokens <= g.tokens + lead as real
    ensures CountTrue(ds[..n]) <= lead + CountTrue(Lone(cfg, Some(g), rs)[..n])
    decreases |rs|
  {
    if n > 0 {
      var r := rs[0];
      var ok := Allowed(cfg, Some(g), r.created, r.now);
      var g', a' := Spent(cfg, Some(g), r.created, r.now, ok), Spent(cfg, Some(a), r.created, r.now, ds[0]);
      var lead' := lead + (if ok then 1 else 0) - (if ds[0] then 1 else 0);
      RefilledAhead(cfg, g, a, lead as real, r.now);
      GreedyStaysAhead(cfg, g', a', lead', rs[1..], ds[1..], n - 1);
      CountFront(Lone(cfg, Some(g), rs), n);
      CountFront(ds, n);
      assert Lone(cfg, Some(g), rs)[1..] == Lone(cfg, Some(g'), rs[1..]);
    }
  }

  lemma RefilledAhead(cfg: Config, g: Bucket, a: Bucket, lead: real, now: real)
    requires g.lastRefill == a.lastRefill && a.tokens <= g.tokens + lead && 0.0 <= lead
    ensures Refilled(cfg, a, now).tokens <= Refilled(cfg, g, now).tokens + lead
  {}

  lemma CountFront(ds: seq<bool>, n: nat)
    requires 0 < n <= |ds|
    ensures CountTrue(ds[..n]) == (if ds[0] then 1 else 0) + CountTrue(ds[1..][..n - 1])
  {
    assert ds[..n][1..] == ds[1..][..n - 1];
  }

  /** At every prefix, no conforming policy has granted more than the bucket. */
  lemma GreedyIsOptimal(cfg: Config, rs: seq<Request>, from: real, ds: seq<bool>, n: nat)
    requires cfg.Sensible() && ClockedRequests(rs, from)
    requires |ds| == |rs| && n <= |rs| && Conforming(cfg, rs, ds)
    ensures CountTrue(ds[..n]) <= CountTrue(Lone(cfg, None, rs)[..n])
  {
    ConformingIsPaced(cfg, rs, ds);
    if rs != [] {
      // a bucket made now and one made full at the first request decide alike
      var full := Bucket(cfg.maxTokens, rs[0].now);
      EarnedPositive(cfg, rs[0].created, rs[0].now);
      assert Lone(cfg, None, rs) == Lone(cfg, Some(full), rs);
      forall k | 0 <= k < |rs| ensures CountTrue(ds[..k + 1]) as real <= full.tokens
          + Earned(cfg, full.lastRefill, rs[k].now) {
        assert ds[0..k + 1] == ds[..k + 1];
      }
      PacedIsAffordable(cfg, full, rs, ds);
      GreedyStaysAhead(cfg, full, full, 0, rs, ds, n);
    }
  }

  /** Decisions on the first `n` requests, and the bucket they leave. */
  function LoneBucket(cfg: Config, b: Option<Bucket>, rs: seq<Request>): Option<Bucket>
    decreases |rs|
  {
    if rs == [] then b
    else
      var ok := Allowed(cfg, b, rs[0].created, rs[0].now);
      LoneBucket(cfg, Some(Spent(cfg, b, rs[0].created, rs[0].now, ok)), rs[1..])
  }

  lemma {:induction false} LoneSplit(cfg: Config, b: Option<Bucket>, rs: seq<Request>, from: real, i: nat)
    requires cfg.Sensible() && i < |rs| && ClockedRequests(rs, from) && (b.Some? ==> BucketOk(cfg, b.value, from))
    ensures Lone(cfg, b, rs)[i..] == Lone(cfg, LoneBucket(cfg, b, rs[..i]), rs[i..])
    ensures ClockedRequests(rs[i..], rs[i].created)
    ensures var c := LoneBucket(cfg, b, rs[..i]); c.Some? ==> BucketOk(cfg, c.value, rs[i].created)
    decreases |rs|
  {
    if i > 0 {
      var ok := Allowed(cfg, b, rs[0].created, rs[0].now);
      var next := Some(Spent(cfg, b, rs[0].created, rs[0].now, ok));
      RefilledOk(cfg, Found(cfg, b, rs[0].created), rs[0].now);
      LoneSplit(cfg, next, rs[1..], rs[0].now, i - 1);
      var rest := Lone(cfg, next, rs[1..]);
      assert ([ok] + rest)[i..] == rest[i - 1..];
      assert rs[..i][1..] == rs[1..][..i - 1] && rs[1..][i - 1..] == rs[i..];
    } else {
      assert rs[0..] == rs && rs[..0] == [];
      assert Lone(cfg, b, rs)[0..] == Lone(cfg, b, rs);
    }
  }

  lemma {:induction false} LonePrefix(cfg: Config, b: Option<Bucket>, rs: seq<Request>, n: nat)
    requires n <= |rs|
    ensures Lone(cfg, b, rs[..n]) == Lone(cfg, b, rs)[..n]
    decreases |rs|
  {
    if n > 0 {
      var ok := Allowed(cfg, b, rs[0].created, rs[0].now);
      var next := Some(Spent(cfg, b, rs[0].created, rs[0].now, ok));
      LonePrefix(cfg, next, rs[1..], n - 1);
      assert rs[..n][1..] == rs[1..][..n - 1];
      assert ([ok] + Lone(cfg, next, rs[1..]))[..n] == [ok] + Lone(cfg, next, rs[1..])[..n - 1];
    }
  }

  lemma {:induction false} ClockedAfter(rs: seq<Request>, from: real, k: nat)
    requires ClockedRequests(rs, from) && k < |rs|
    ensures from <= rs[k].created <= rs[k].now
    ensures forall j :: 0 <= j <= k ==> rs[j].now <= rs[k].now
    ensures ClockedRequests(rs[..k + 1], from)
  {
    if k > 0 {
      ClockedAfter(rs[1..], rs[0].now, k - 1);
      assert rs[1..][k - 1] == rs[k];
      assert rs[..k + 1][1..] == rs[1..][..k];
      forall j | 0 <= j <= k ensures rs[j].now <= rs[k].now {
        if j > 0 { assert rs[1..][j - 1] == rs[j]; }
      }
    } else {
      assert rs[..1][1..] == [];
    }
  }

  /** A refilled bucket is full enough that the span may be counted from the refill. */
  lemma LoneSpan(cfg: Config, b: Option<Bucket>, rs: seq<Request>, from: real, to: real)
    requires cfg.Sensible() && rs != [] && ClockedRequests(rs, from) && (b.Some? ==> BucketOk(cfg, b.value, from))
    requires forall r <- rs :: r.now <= to
    ensures CountTrue(Lone(cfg, b, rs)) as real <= cfg.maxTokens + Earned(cfg, rs[0].now, to)
  {
    var r := rs[0];
    assert r in rs;
    var ok := Allowed(cfg, b, r.created, r.now);
    var next := Spent(cfg, b, r.created, r.now, ok);
    RefilledOk(cfg, Found(cfg, b, r.created), r.now);
    LoneBudget(cfg, next, rs[1..], to);
    var rest := Lone(cfg, Some(next), rs[1..]);
    assert ([ok] + rest)[1..] == rest;
  }

  /** The bucket is itself conforming, so it is the greatest conforming policy. */
  lemma GreedyConforms(cfg: Config, rs: seq<Request>, from: real)
    requires cfg.Sensible() && ClockedRequests(rs, from)
    ensures Conforming(cfg, rs, Lone(cfg, None, rs))
  {
    var ds := Lone(cfg, None, rs);
    ConformingIsPaced(cfg, rs, ds);
    forall i, k | 0 <= i <= k < |rs|
      ensures CountTrue(ds[i..k + 1]) as real <= cfg.maxTokens + Earned(cfg, rs[i].now, rs[k].now)
    {
      GreedySpan(cfg, rs, from, i, k);
    }
  }

  lemma GreedySpan(cfg: Config, rs: seq<Request>, from: real, i: nat, k: nat)
    requires cfg.Sensible() && ClockedRequests(rs, from) && i <= k < |rs|
    ensures CountTrue(Lone(cfg, None, rs)[i..k + 1]) as real <= cfg.maxTokens + Earned(cfg, rs[i].now, rs[k].now)
  {
    var ds, span := Lone(cfg, None, rs), rs[..k + 1];
    ClockedAfter(rs, from, k);
    LonePrefix(cfg, None, rs, k + 1);
    LoneSplit(cfg, None, span, from, i);
    assert ds[..k + 1][i..] == ds[i..k + 1];
    forall r | r in span[i..] ensures r.now <= rs[k].now {}
    LoneSpan(cfg, LoneBucket(cfg, None, span[..i]), span[i..], span[i].created, rs[k].now);
  }

  // ---------------------------------------------------------------- the class

  class TokenBucketLimiter {
    var buckets: Buckets
    const config: Config

    constructor (config: Config)
      ensures buckets == map[] && this.config == config
    {
      this.config := config;
      buckets := map[];
    }

    method GetOrCreate(domain: string, created: real)
      modifies this
      ensures buckets == old(buckets)[domain := Found(config, Get(old(buckets), domain), created)]
    {
      if domain !in buckets {
        buckets := buckets[domain := Bucket(config.maxTokens, created)];
      }
    }

    method Refill(domain: string, now: real)
      requires domain in buckets
      modifies this
      ensures buckets == old(buckets)[domain := Refilled(config, old(buckets)[domain], now)]
    {
      var entry := buckets[domain];
      var elapsed := (now - entry.lastRefill) / 1000.0;
      var newTokens := elapsed * config.refillRate;
      var tokens := Min(config.maxTokens, entry.tokens + newTokens);
      buckets := buckets[domain := Bucket(tokens, now)];
    }

    method TryAcquire(domain: string, created: real, now: real) returns (allowed: bool)
      modifies this
      ensures buckets == Step(config, old(buckets), Event.TryAcquire(domain, created, now))
      ensures allowed == Allowed(config, Get(old(buckets), domain), created, now)
    {
      GetOrCreate(domain, created);
      Refill(domain, now);
      var entry := buckets[domain];
      if 1.0 <= entry.tokens {
        buckets := buckets[domain := entry.(tokens := entry.tokens - 1.0)];
        return true;
      }
      return false;
    }

    method GetTokens(domain: string, now: real) returns (tokens: real)
      modifies this
      ensures buckets == Step(config, old(buckets), Event.GetTokens(domain, now))
      ensures domain !in old(buckets) ==> tokens == config.maxTokens && buckets == old(buckets)
      ensures domain in old(buckets) ==> tokens == buckets[domain].tokens
    {
      if domain !in buckets {
        return config.maxTokens;
      }
      Refill(domain, now);
      return buckets[domain].tokens;
    }

    method Reset(domain: string)
      modifies this
      ensures buckets == Step(config, old(buckets), Event.Reset(domain)) == old(buckets) - {domain}
    {
      buckets := buckets - {domain};
    }

    method Clear()
      modifies this
      ensures buckets == Step(config, old(buckets), Event.Clear) == map[]
    {
      buckets := map[];
    }
  }
}
