/** The hardened fetch's redirect loop, and where it parts from the HTTP fetcher's. */
module HardenedFetches {
  import opened Wrappers
  import opened Redirects

  /** How many redirects were followed so far. */
  datatype Tracker = Tracker(count: nat, limit: int) {
    function Follow(): Result<Tracker, HardError> {
      if count + 1 > limit then Err(TooMany(count + 1, limit)) else Ok(Tracker(count + 1, limit))
    }
  }

  datatype HardError =
    | TooMany(count: nat, limit: int) | TooLarge(bytes: int) | TimedOut | Refused(reason: string, url: string)
    | FetchError | NoLocation | Threw

  datatype Response = Response(reply: Reply, ip: string, host: string, redirects: nat)

  datatype HardRun = HardRun(log: seq<Event>, result: Result<Response, HardError>)

  /** Of a header sent more than once the hardened fetch reads all values as one text. */
  function Joined(values: seq<string>): Option<string> {
    if values == [] then None else Some(CommaJoined(values))
  }

  function CommaJoined(values: seq<string>): string
    requires values != []
  {
    if |values| == 1 then values[0] else values[0] + ", " + CommaJoined(values[1..])
  }

  type Checker = (nat, string) -> Verdict

  /** Whether the timeout has passed when the n-th request is due (false), or the n-th validation is done (true). */
  type Expiry = (nat, bool) -> bool

  function Then(log: seq<Event>, r: HardRun): HardRun {
    HardRun(log + r.log, r.result)
  }

  function Stop(e: HardError): HardRun {
    HardRun([], Err(e))
  }

  /** What is left of a fetch that is about to send its n-th request. */
  function HardFrom(w: World, check: Checker, expired: Expiry, n: nat, href: string, ip: string, host: string): HardRun
    decreases if n <= w.maxRedirects then w.maxRedirects - n else 0, 1
  {
    if expired(n, false) then Stop(TimedOut)
    else if w.parse(href).None? then Stop(FetchError)
    else
      var request := Request(w.pin(w.parse(href).value, ip), Some(host));
      var reply := w.serve(n, request);
      Then([Requested(href, request)], Replied(w, check, expired, n, href, ip, host, reply))
  }

  /** What is left of a fetch whose n-th request got an answer. */
  function Replied(w: World, check: Checker, expired: Expiry, n: nat, href: string, ip: string, host: string,
      reply: Reply): HardRun
    decreases if n <= w.maxRedirects then w.maxRedirects - n else 0, 0
  {
    if reply.Thrown? then Stop(if reply.abort then TimedOut else FetchError)
    else if !IsRedirect(reply.status) then
      if reply.contentLength.Some? && reply.contentLength.value > w.maxBytes
      then Stop(TooLarge(reply.contentLength.value))
      else HardRun([], Ok(Response(reply, ip, host, n)))
    else if n + 1 > w.maxRedirects then Stop(TooMany(n + 1, w.maxRedirects))
    else if Joined(reply.location).None? || Joined(reply.location).value == "" then Stop(NoLocation)
    else
      match w.resolve(Joined(reply.location).value, href)
      case None => Stop(Threw)
      case Some(next) => Checked(w, check, expired, n + 1, next)
  }

  /** The n-th validation and what follows it. */
  function Checked(w: World, check: Checker, expired: Expiry, n: nat, next: string): HardRun
    requires 0 < n <= w.maxRedirects
    decreases w.maxRedirects - n, 2
  {
    var v := check(n, next);
    Then([Validated(next, Some(v))],
         if v.Failed? then Stop(FetchError)
         else if v.Blocked? then Stop(Refused(v.reason, next))
         else if expired(n, true) then Stop(TimedOut)
         else HardFrom(w, check, expired, n, next, v.ip, v.host))
  }

  function HardenedRun(w: World, check: Checker, expired: Expiry, initial: string): HardRun {
    var v := check(0, initial);
    Then([Validated(initial, Some(v))],
         if v.Failed? then Stop(FetchError)
         else if v.Blocked? then Stop(Refused(v.reason, initial))
         else HardFrom(w, check, expired, 0, initial, v.ip, v.host))
  }

  lemma ThenTwice(a: seq<Event>, b: seq<Event>, r: HardRun)
    ensures Then(a, Then(b, r)) == Then(a + b, r)
  {
    assert a + (b + r.log) == a + b + r.log;
  }

  method ExecuteHardenedFetch(initial: string, w: World, check: Checker, expired: Expiry) returns (run: HardRun)
    ensures run == HardenedRun(w, check, expired, initial)
  {
    var tracker := Tracker(0, w.maxRedirects);
    var current := initial;
    var first := check(0, current);
    var log := [Validated(current, Some(first))];
    if first.Failed? { return Then(log, Stop(FetchError)); }
    if first.Blocked? { return Then(log, Stop(Refused(first.reason, current))); }
    var ip, host := first.ip, first.host;
    ghost var whole := HardenedRun(w, check, expired, initial);
    while true
      invariant tracker.limit == w.maxRedirects
      invariant tracker.count == 0 || tracker.count <= w.maxRedirects
      invariant Then(log, HardFrom(w, check, expired, tracker.count, current, ip, host)) == whole
      decreases if tracker.count <= w.maxRedirects then w.maxRedirects - tracker.count else 0
    {
      var n := tracker.count;
      if expired(n, false) { return Then(log, Stop(TimedOut)); }
      if w.parse(current).None? { return Then(log, Stop(FetchError)); }
      var request := Request(w.pin(w.parse(current).value, ip), Some(host));
      var reply := w.serve(n, request);
      SentLog(w, check, expired, n, current, ip, host, log);
      log := log + [Requested(current, request)];
      if reply.Thrown? { return Then(log, Stop(if reply.abort then TimedOut else FetchError)); }
      if !IsRedirect(reply.status) {
        if reply.contentLength.Some? && reply.contentLength.value > w.maxBytes {
          return Then(log, Stop(TooLarge(reply.contentLength.value)));
        }
        return Then(log, HardRun([], Ok(Response(reply, ip, host, n))));
      }
      var followed := tracker.Follow();
      if followed.Err? { return Then(log, Stop(followed.error)); }
      tracker := followed.value;
      if Joined(reply.location).None? || Joined(reply.location).value == "" { return Then(log, Stop(NoLocation)); }
      var next := w.resolve(Joined(reply.location).value, current);
      if next.None? { return Then(log, Stop(Threw)); }
      current := next.value;
      var v := check(n + 1, current);
      CheckedLog(w, check, expired, n + 1, current, log);
      log := log + [Validated(current, Some(v))];
      if v.Failed? { return Then(log, Stop(FetchError)); }
      if v.Blocked? { return Then(log, Stop(Refused(v.reason, current))); }
      if expired(n + 1, true) { return Then(log, Stop(TimedOut)); }
      ip, host := v.ip, v.host;
    }
  }

  /** The log with a request that was sent, and what is left of the fetch. */
  lemma SentLog(w: World, check: Checker, expired: Expiry, n: nat, href: string, ip: string, host: string,
      log: seq<Event>)
    requires !expired(n, false) && w.parse(href).Some?
    ensures var request := Request(w.pin(w.parse(href).value, ip), Some(host));
            Then(log, HardFrom(w, check, expired, n, href, ip, host)) ==
            Then(log + [Requested(href, request)],
                 Replied(w, check, expired, n, href, ip, host, w.serve(n, request)))
  {
    var request := Request(w.pin(w.parse(href).value, ip), Some(host));
    ThenTwice(log, [Requested(href, request)],
              Replied(w, check, expired, n, href, ip, host, w.serve(n, request)));
  }

  /** What is left of a fetch after its n-th validation. */
  function Judged(w: World, check: Checker, expired: Expiry, n: nat, next: string): HardRun
    requires 0 < n <= w.maxRedirects
  {
    var v := check(n, next);
    if v.Failed? then Stop(FetchError)
    else if v.Blocked? then Stop(Refused(v.reason, next))
    else if expired(n, true) then Stop(TimedOut)
    else HardFrom(w, check, expired, n, next, v.ip, v.host)
  }

  lemma CheckedLog(w: World, check: Checker, expired: Expiry, n: nat, next: string, log: seq<Event>)
    requires 0 < n <= w.maxRedirects
    ensures Then(log, Checked(w, check, expired, n, next)) ==
            Then(log + [Validated(next, Some(check(n, next)))], Judged(w, check, expired, n, next))
  {
    ThenTwice(log, [Validated(next, Some(check(n, next)))], Judged(w, check, expired, n, next));
  }

  // ---------------------------------------------------------------- what a hardened fetch does

  /** A resolved URL is a parsed one: parsing it again changes nothing. */
  ghost predicate UrlsOk(w: World) {
    forall location, base :: w.resolve(location, base).Some? ==>
      w.parse(w.resolve(location, base).value) == w.resolve(location, base)
  }

  /** At most one request more than the redirects allowed, each right after its URL passed validation. */
  lemma HardenedIsSound(w: World, check: Checker, expired: Expiry, initial: string)
    requires UrlsOk(w) && w.parse(initial) == Some(initial)
    ensures Guarded(w, HardenedRun(w, check, expired, initial).log)
    ensures |Requests(HardenedRun(w, check, expired, initial).log)| <= Budget(w, 0)
  {
    var v := check(0, initial);
    if v.Allowed? {
      HardIsSound(w, check, expired, 0, initial, v);
      FirstEvent(Validated(initial, Some(v)), HardFrom(w, check, expired, 0, initial, v.ip, v.host).log);
    }
  }

  /** The answer both loops get to the n-th request. */
  function AnswerTo(w: World, n: nat, href: string, v: Verdict): Reply
    requires v.Allowed?
  {
    w.serve(n, Pinned(w, href, v))
  }

  /** A redirect within the limit whose Location, as one of the loops reads it, leads to a URL. */
  predicate Leads(w: World, n: nat, href: string, reply: Reply, location: Option<string>) {
    && reply.Reply? && IsRedirect(reply.status) && n + 1 <= w.maxRedirects
    && location.Some? && w.resolve(location.value, href).Some?
  }

  /** The URL the fetcher goes on to. */
  function FetchNext(w: World, n: nat, href: string, reply: Reply): Option<string> {
    if reply.Reply? && Leads(w, n, href, reply, First(reply.location))
        then w.resolve(First(reply.location).value, href) else None
  }

  /** The URL the hardened fetch goes on to: an empty Location counts as none. */
  function HardNext(w: World, n: nat, href: string, reply: Reply): Option<string> {
    if reply.Reply? && Leads(w, n, href, reply, Joined(reply.location)) && Joined(reply.location) != Some("")
    then w.resolve(Joined(reply.location).value, href) else None
  }

  /** What follows the n-th request. */
  function HardRest(w: World, check: Checker, expired: Expiry, n: nat, href: string, v: Verdict): seq<Event>
    requires v.Allowed?
  {
    var next := HardNext(w, n, href, AnswerTo(w, n, href, v));
    if next.Some? then Checked(w, check, expired, n + 1, next.value).log else []
  }

  lemma HardLog(w: World, check: Checker, expired: Expiry, n: nat, href: string, v: Verdict)
    requires w.parse(href) == Some(href) && v.Allowed?
    ensures HardFrom(w, check, expired, n, href, v.ip, v.host).log ==
            if expired(n, false) then []
                else [Requested(href, Pinned(w, href, v))] + HardRest(w, check, expired, n, href, v)
  {}

  lemma {:induction false} HardIsSound(w: World, check: Checker, expired: Expiry, n: nat, href: string, v: Verdict)
    requires UrlsOk(w) && w.parse(href) == Some(href) && v.Allowed? && (n == 0 || n <= w.maxRedirects)
    ensures Guarded(w, [Validated(href, Some(v))] + HardFrom(w, check, expired, n, href, v.ip, v.host).log)
    ensures |Requests(HardFrom(w, check, expired, n, href, v.ip, v.host).log)| <= Budget(w, n)
    decreases if n <= w.maxRedirects then w.maxRedirects - n else 0, 1
  {
    HardLog(w, check, expired, n, href, v);
    if expired(n, false) {
      assert [Validated(href, Some(v))] + [] == [Validated(href, Some(v))];
    } else {
      var rest := HardRest(w, check, expired, n, href, v);
      RestIsSound(w, check, expired, n, href, v);
      FirstEvent(Requested(href, Pinned(w, href, v)), rest);
      GuardedStep(w, href, v, rest);
    }
  }

  lemma {:induction false} RestIsSound(w: World, check: Checker, expired: Expiry, n: nat, href: string, v: Verdict)
    requires UrlsOk(w) && v.Allowed? && (n == 0 || n <= w.maxRedirects)
    ensures Guarded(w, HardRest(w, check, expired, n, href, v))
    ensures |Requests(HardRest(w, check, expired, n, href, v))| + 1 <= Budget(w, n)
    decreases if n <= w.maxRedirects then w.maxRedirects - n else 0, 0
  {
    var next := HardNext(w, n, href, AnswerTo(w, n, href, v));
    if next.Some? {
      NextIsParsed(w, n, href, AnswerTo(w, n, href, v));
      CheckedIsSound(w, check, expired, n + 1, next.value);
    }
  }

  lemma NextIsParsed(w: World, n: nat, href: string, reply: Reply)
    requires UrlsOk(w) && HardNext(w, n, href, reply).Some?
    ensures var next := HardNext(w, n, href, reply).value; w.parse(next) == Some(next)
    ensures n + 1 <= w.maxRedirects && Budget(w, n + 1) + 1 == Budget(w, n)
  {}

  lemma GuardedStep(w: World, href: string, v: Verdict, rest: seq<Event>)
    requires v.Allowed? && Guarded(w, rest)
    ensures Guarded(w, [Validated(href, Some(v))] + ([Requested(href, Pinned(w, href, v))] + rest))
  {
    var head := [Validated(href, Some(v)), Requested(href, Pinned(w, href, v))];
    assert [Validated(href, Some(v))] + ([Requested(href, Pinned(w, href, v))] + rest) == head + rest;
    GuardedConcat(w, head, rest);
  }

  lemma {:induction false} CheckedIsSound(w: World, check: Checker, expired: Expiry, n: nat, next: string)
    requires UrlsOk(w) && w.parse(next) == Some(next) && 0 < n <= w.maxRedirects
    ensures Guarded(w, Checked(w, check, expired, n, next).log)
    ensures |Requests(Checked(w, check, expired, n, next).log)| <= Budget(w, n)
    decreases w.maxRedirects - n, 2
  {
    var v := check(n, next);
    if v.Allowed? && !expired(n, true) {
      HardIsSound(w, check, expired, n, next, v);
      FirstEvent(Validated(next, Some(v)), HardFrom(w, check, expired, n, next, v.ip, v.host).log);
    } else {
      FirstEvent(Validated(next, Some(v)), []);
    }
  }

  // ---------------------------------------------------------------- the two loops side by side

  /** The fetcher's validator that gives the same verdicts. */
  function Lifted(check: Checker): Validator {
    (n: nat, url: string) => Some(check(n, url))
  }

  /** No timeout and no client error. */
  ghost predicate Calm(w: World, expired: Expiry) {
    && (forall n, late :: !expired(n, late))
    && (forall n, request :: w.serve(n, request).Reply?)
  }

  /** What was sent, and to which URL. */
  function Sends(log: seq<Event>): seq<(string, Request)> {
    if log == [] then []
    else (if log[0].Requested? then [(log[0].url, log[0].request)] else []) + Sends(log[1..])
  }

  lemma FirstSend(e: Event, rest: seq<Event>)
    ensures Sends([e] + rest) == (if e.Requested? then [(e.url, e.request)] else []) + Sends(rest)
  {
    assert ([e] + rest)[1..] == rest;
  }

  function Seconds(sends: seq<(string, Request)>): seq<Request> {
    if sends == [] then [] else [sends[0].1] + Seconds(sends[1..])
  }

  lemma {:induction false} SendsAreRequests(log: seq<Event>)
    ensures Requests(log) == Seconds(Sends(log))
  {
    if log != [] {
      SendsAreRequests(log[1..]);
      if log[0].Requested? {
        assert Sends(log)[1..] == Sends(log[1..]);
      } else {
        assert Sends(log) == Sends(log[1..]) && Requests(log) == Requests(log[1..]);
      }
    }
  }

  lemma NothingSent(log: seq<Event>)
    requires Requests(log) == []
    ensures Sends(log) == []
  {
    SendsAreRequests(log);
  }

  function FetchSent(w: World, check: Checker, n: nat, href: string): seq<(string, Request)> {
    Sends(FetchFrom(w, Lifted(check), n, href).log)
  }

  function HardSent(w: World, check: Checker, expired: Expiry, n: nat, href: string): seq<(string, Request)> {
    var v := check(n, href);
    if v.Allowed? then Sends(HardFrom(w, check, expired, n, href, v.ip, v.host).log) else []
  }

  lemma AnsweredSends(w: World, check: Checker, n: nat, href: string, reply: Reply)
    ensures Sends(Answered(w, Lifted(check), n, href, reply).log) ==
            var next := FetchNext(w, n, href, reply);
            if next.Some? then FetchSent(w, check, n + 1, next.value) else []
  {
    var answered := Answered(w, Lifted(check), n, href, reply);
    var next := FetchNext(w, n, href, reply);
    if next.Some? {
      FirstSend(RedirectRecorded, FetchFrom(w, Lifted(check), n + 1, next.value).log);
    } else if reply.Reply? && IsRedirect(reply.status) {
      FailCloses(w, answered.result.error);
      NothingSent(Fail(answered.result.error).log);
      FirstSend(RedirectRecorded, Fail(answered.result.error).log);
    } else {
      LastAnswerCloses(w, Lifted(check), n, href, reply);
      NothingSent(answered.log);
    }
  }

  lemma FetchSends(w: World, check: Checker, n: nat, href: string)
    requires w.parse(href) == Some(href)
    ensures var v := check(n, href);
            FetchSent(w, check, n, href) ==
            if !v.Allowed? then []
            else
              var next := FetchNext(w, n, href, AnswerTo(w, n, href, v));
              [(href, Pinned(w, href, v))] + (if next.Some? then FetchSent(w, check, n + 1, next.value) else [])
  {
    var v := check(n, href);
    var checked := Validated(href, Some(v));
    if !v.Allowed? {
      var f := Fail(if v.Failed? then Raised else SsrfBlocked(v.reason));
      FailCloses(w, f.result.error);
      NothingSent(f.log);
      FirstSend(checked, f.log);
    } else {
      var request := Pinned(w, href, v);
      var reply := w.serve(n, request);
      var answered := Answered(w, Lifted(check), n, href, reply);
      assert FetchFrom(w, Lifted(check), n, href).log == [checked] + ([Requested(href, request)] + answered.log);
      FirstSend(checked, [Requested(href, request)] + answered.log);
      FirstSend(Requested(href, request), answered.log);
      AnsweredSends(w, check, n, href, reply);
    }
  }

  lemma HardSends(w: World, check: Checker, expired: Expiry, n: nat, href: string)
    requires Calm(w, expired) && w.parse(href) == Some(href)
    ensures var v := check(n, href);
            HardSent(w, check, expired, n, href) ==
            if !v.Allowed? then []
            else
              var next := HardNext(w, n, href, AnswerTo(w, n, href, v));
              [(href, Pinned(w, href, v))] + (if next.Some? then HardSent(w, check, expired, n + 1, next.value) else [])
  {
    var v := check(n, href);
    if v.Allowed? {
      var rest := HardRest(w, check, expired, n, href, v);
      HardLog(w, check, expired, n, href, v);
      FirstSend(Requested(href, Pinned(w, href, v)), rest);
      var next := HardNext(w, n, href, AnswerTo(w, n, href, v));
      if next.Some? { CheckedSends(w, check, expired, n + 1, next.value); }
    }
  }

  lemma CheckedSends(w: World, check: Checker, expired: Expiry, n: nat, next: string)
    requires 0 < n <= w.maxRedirects && Calm(w, expired)
    ensures Sends(Checked(w, check, expired, n, next).log) == HardSent(w, check, expired, n, next)
  {
    var v := check(n, next);
    FirstSend(Validated(next, Some(v)),
              if v.Allowed? then HardFrom(w, check, expired, n, next, v.ip, v.host).log else []);
  }

  // ---------------------------------------------------------------- where they part

  /** The next URL, if it passes validation. */
  function IfPassed(check: Checker, n: nat, next: Option<string>): Option<string> {
    if next.Some? && check(n, next.value).Allowed? then next else None
  }

  /** The URL the fetcher requests after `href`, and the one the hardened fetch requests. */
  function FetchGoes(w: World, check: Checker, n: nat, href: string): Option<string>
    requires check(n, href).Allowed?
  {
    IfPassed(check, n + 1, FetchNext(w, n, href, AnswerTo(w, n, href, check(n, href))))
  }

  function HardGoes(w: World, check: Checker, n: nat, href: string): Option<string>
    requires check(n, href).Allowed?
  {
    IfPassed(check, n + 1, HardNext(w, n, href, AnswerTo(w, n, href, check(n, href))))
  }

  /** The fetcher's requests lead along `urls` to an answer that the two loops read differently. */
  predicate PartsAlong(w: World, check: Checker, n: nat, urls: seq<string>)
    decreases |urls|
  {
    && urls != [] && check(n, urls[0]).Allowed?
    && if |urls| == 1 then FetchGoes(w, check, n, urls[0]) != HardGoes(w, check, n, urls[0])
       else FetchGoes(w, check, n, urls[0]) == Some(urls[1]) && PartsAlong(w, check, n + 1, urls[1..])
  }

  predicate Part(w: World, check: Checker, url: string, urls: seq<string>) {
    urls != [] && urls[0] == url && PartsAlong(w, check, 0, urls)
  }

  /** Both send the same request first; what comes next is the next of each. */
  lemma SentStep(w: World, check: Checker, expired: Expiry, n: nat, href: string)
    requires UrlsOk(w) && Calm(w, expired) && w.parse(href) == Some(href)
    ensures !check(n, href).Allowed? ==>
            FetchSent(w, check, n, href) == [] && HardSent(w, check, expired, n, href) == []
    ensures check(n, href).Allowed? ==>
              var first := [(href, Pinned(w, href, check(n, href)))];
              var f, h := FetchGoes(w, check, n, href), HardGoes(w, check, n, href);
              && FetchSent(w, check, n, href) == first + (if f.Some? then FetchSent(w, check, n + 1, f.value) else [])
              && HardSent(w, check, expired, n, href) ==
                  first + (if h.Some? then HardSent(w, check, expired, n + 1, h.value) else [])
  {
    FetchSends(w, check, n, href);
    HardSends(w, check, expired, n, href);
    if check(n, href).Allowed? {
      var reply := AnswerTo(w, n, href, check(n, href));
      var f, h := FetchNext(w, n, href, reply), HardNext(w, n, href, reply);
      if f.Some? && !check(n + 1, f.value).Allowed? { FetchSends(w, check, n + 1, f.value); }
    }
  }

  /** What is sent begins with the URL it is sent to. */
  lemma FirstSent(w: World, check: Checker, expired: Expiry, n: nat, href: string)
    requires UrlsOk(w) && Calm(w, expired) && w.parse(href) == Some(href) && check(n, href).Allowed?
    ensures FetchSent(w, check, n, href) != [] && FetchSent(w, check, n, href)[0].0 == href
    ensures HardSent(w, check, expired, n, href) != [] && HardSent(w, check, expired, n, href)[0].0 == href
  {
    SentStep(w, check, expired, n, href);
  }

  lemma SameTail<T>(x: T, a: seq<T>, b: seq<T>)
    ensures [x] + a == [x] + b ==> a == b
  {
    assert ([x] + a)[1..] == a && ([x] + b)[1..] == b;
  }

  lemma GoesToParsed(w: World, check: Checker, n: nat, href: string)
    requires UrlsOk(w) && check(n, href).Allowed?
    ensures var f, h := FetchGoes(w, check, n, href), HardGoes(w, check, n, href);
            && (f.Some? ==> w.parse(f.value) == f && check(n + 1, f.value).Allowed? && n + 1 <= w.maxRedirects)
            && (h.Some? ==> w.parse(h.value) == h && check(n + 1, h.value).Allowed?)
  {}

  lemma PartHere(w: World, check: Checker, expired: Expiry, n: nat, href: string)
    requires UrlsOk(w) && Calm(w, expired) && w.parse(href) == Some(href) && check(n, href).Allowed?
    requires FetchGoes(w, check, n, href) != HardGoes(w, check, n, href)
    ensures HardSent(w, check, expired, n, href) != FetchSent(w, check, n, href)
  {
    var f, h := FetchGoes(w, check, n, href), HardGoes(w, check, n, href);
    SentStep(w, check, expired, n, href);
    GoesToParsed(w, check, n, href);
    if f.Some? { FirstSent(w, check, expired, n + 1, f.value); }
    if h.Some? { FirstSent(w, check, expired, n + 1, h.value); }
    var a := if f.Some? then FetchSent(w, check, n + 1, f.value) else [];
    var b := if h.Some? then HardSent(w, check, expired, n + 1, h.value) else [];
    SameTail((href, Pinned(w, href, check(n, href))), a, b);
  }

  lemma {:induction false} PartingDiffers(w: World, check: Checker, expired: Expiry, n: nat, urls: seq<string>)
    requires UrlsOk(w) && Calm(w, expired) && urls != [] && w.parse(urls[0]) == Some(urls[0])
             && PartsAlong(w, check, n, urls)
    ensures HardSent(w, check, expired, n, urls[0]) != FetchSent(w, check, n, urls[0])
    decreases |urls|
  {
    var href := urls[0];
    GoesToParsed(w, check, n, href);
    if FetchGoes(w, check, n, href) != HardGoes(w, check, n, href) {
      PartHere(w, check, expired, n, href);
    } else {
      SentStep(w, check, expired, n, href);
      PartingDiffers(w, check, expired, n + 1, urls[1..]);
      SameTail((href, Pinned(w, href, check(n, href))), FetchSent(w, check, n + 1, urls[1]),
          HardSent(w, check, expired, n + 1, urls[1]));
    }
  }

  lemma {:induction false} DifferenceParts(w: World, check: Checker, expired: Expiry, n: nat, href: string)
    returns (urls: seq<string>)
    requires UrlsOk(w) && Calm(w, expired) && w.parse(href) == Some(href) && (n == 0 || n <= w.maxRedirects)
    requires HardSent(w, check, expired, n, href) != FetchSent(w, check, n, href)
    ensures urls != [] && urls[0] == href && PartsAlong(w, check, n, urls)
    decreases if n <= w.maxRedirects then w.maxRedirects - n else 0
  {
    SentStep(w, check, expired, n, href);
    var f := FetchGoes(w, check, n, href);
    if f == HardGoes(w, check, n, href) {
      GoesToParsed(w, check, n, href);
      var rest := DifferenceParts(w, check, expired, n + 1, f.value);
      urls := [href] + rest;
      assert urls[1..] == rest;
    } else {
      urls := [href];
    }
  }

  lemma HardenedSent(w: World, check: Checker, expired: Expiry, initial: string)
    ensures Sends(HardenedRun(w, check, expired, initial).log) == HardSent(w, check, expired, 0, initial)
  {
    var v := check(0, initial);
    FirstSend(Validated(initial, Some(v)),
              if v.Allowed? then HardFrom(w, check, expired, 0, initial, v.ip, v.host).log else []);
  }

  /**
   * For any server and the same verdicts, the two loops send the same requests to the same URLs if and only if the
   * fetcher is nowhere led to an answer after which the two go on differently.
   */
  lemma SameRequestsIff(w: World, check: Checker, expired: Expiry, url: string)
    requires UrlsOk(w) && Calm(w, expired) && w.parse(url) == Some(url)
    ensures Sends(HardenedRun(w, check, expired, url).log) == Sends(FetchFrom(w, Lifted(check), 0, url).log) <==>
            !exists urls :: Part(w, check, url, urls)
    ensures (!exists urls :: Part(w, check, url, urls)) ==>
              Requests(HardenedRun(w, check, expired, url).log) == Requests(FetchFrom(w, Lifted(check), 0, url).log)
  {
    SendsAreRequests(HardenedRun(w, check, expired, url).log);
    SendsAreRequests(FetchFrom(w, Lifted(check), 0, url).log);
    HardenedSent(w, check, expired, url);
    if HardSent(w, check, expired, 0, url) != FetchSent(w, check, 0, url) {
      var urls := DifferenceParts(w, check, expired, 0, url);
      assert Part(w, check, url, urls);
    }
    if exists urls :: Part(w, check, url, urls) {
      var urls :| Part(w, check, url, urls);
      PartingDiffers(w, check, expired, 0, urls);
    }
  }

  // ---------------------------------------------------------------- the answers that part them

  /**
   * An answer that sends the header at most once parts them exactly if it is empty and the fetcher's next URL passes.
   * One that repeats it is read as its first value by the one and as all values joined by the other.
   */
  lemma GoDifferentlyIff(w: World, check: Checker, n: nat, href: string)
    requires check(n, href).Allowed? && AnswerTo(w, n, href, check(n, href)).Reply?
    ensures var values := AnswerTo(w, n, href, check(n, href)).location;
            |values| <= 1 ==>
              (FetchGoes(w, check, n, href) != HardGoes(w, check, n, href) <==>
                  values == [""] && FetchGoes(w, check, n, href).Some?)
  {}

  ghost predicate SentOnce(w: World) {
    forall n, request :: w.serve(n, request).Reply? ==> |w.serve(n, request).location| <= 1
  }

  predicate IsPrefix<T(==)>(a: seq<T>, b: seq<T>) {
    |a| <= |b| && a == b[..|a|]
  }

  /**
   From a server that sends the header at most once, the hardened fetch requests a prefix of what the fetcher
   does.
   */
  lemma {:induction false} HardSentIsPrefix(w: World, check: Checker, expired: Expiry, n: nat, href: string)
    requires UrlsOk(w) && Calm(w, expired) && SentOnce(w) && w.parse(href) == Some(href)
             && (n == 0 || n <= w.maxRedirects)
    ensures IsPrefix(HardSent(w, check, expired, n, href), FetchSent(w, check, n, href))
    decreases if n <= w.maxRedirects then w.maxRedirects - n else 0
  {
    SentStep(w, check, expired, n, href);
    if check(n, href).Allowed? && HardGoes(w, check, n, href).Some? {
      GoDifferentlyIff(w, check, n, href);
      GoesToParsed(w, check, n, href);
      HardSentIsPrefix(w, check, expired, n + 1, FetchGoes(w, check, n, href).value);
    }
  }

  /** Every request is answered by a redirect with these values of Location; a non-empty one is a URL. */
  function Redirector(location: seq<string>): World {
    World((n: nat, r: Request) => Reply(302, location, None, 0, false), (u: string) => Some(u),
          (l: string, b: string) => Some(if l == "" then b else l), (u: string, ip: string) => u, 1, 0)
  }

  function Permissive(): Checker {
    (n: nat, u: string) => Allowed("192.0.2.1", "example")
  }

  function Never(): Expiry {
    (n: nat, late: bool) => false
  }

  /** An empty Location, and one sent twice, show the difference. */
  lemma EmptyLocationDiffers(url: string)
    ensures |Sends(HardenedRun(Redirector([""]), Permissive(), Never(), url).log)| == 1
    ensures |Sends(FetchFrom(Redirector([""]), Lifted(Permissive()), 0, url).log)| == 2
  {
    HardenedSent(Redirector([""]), Permissive(), Never(), url);
    SentStep(Redirector([""]), Permissive(), Never(), 0, url);
    SentStep(Redirector([""]), Permissive(), Never(), 1, url);
  }

  /** The request for a URL. */
  function To(url: string): (string, Request) {
    (url, Request(url, Some("example")))
  }

  lemma FetcherSends(values: seq<string>, n: nat, url: string)
    requires values != [] && values[0] != ""
    ensures FetchSent(Redirector(values), Permissive(), n, url) ==
            [To(url)] + (if n < 1 then FetchSent(Redirector(values), Permissive(), n + 1, values[0]) else [])
  {
    SentStep(Redirector(values), Permissive(), Never(), n, url);
  }

  lemma HardenedSends(values: seq<string>, n: nat, url: string)
    requires values != [] && CommaJoined(values) != ""
    ensures HardSent(Redirector(values), Permissive(), Never(), n, url) ==
            [To(url)] + (if n < 1 then HardSent(Redirector(values), Permissive(), Never(), n + 1, CommaJoined(values))
                else [])
  {
    SentStep(Redirector(values), Permissive(), Never(), n, url);
  }

  /** The fetcher goes on to the first value, the hardened fetch to all of them joined. */
  lemma TwoRequests(values: seq<string>, url: string)
    requires values != [] && values[0] != "" && CommaJoined(values) != ""
    ensures FetchSent(Redirector(values), Permissive(), 0, url) == [To(url), To(values[0])]
    ensures HardSent(Redirector(values), Permissive(), Never(), 0, url) == [To(url), To(CommaJoined(values))]
  {
    FetcherSends(values, 0, url);
    FetcherSends(values, 1, values[0]);
    HardenedSends(values, 0, url);
    HardenedSends(values, 1, CommaJoined(values));
  }

  lemma Joins(a: string, b: string)
    ensures CommaJoined([a, b]) == a + ", " + b
  {
    assert [a, b][1..] == [b];
  }

  /** A Location sent twice is read as its first value by the one and as both, joined, by the other. */
  lemma RepeatedLocationDiffers(url: string, a: string, b: string)
    requires a != ""
    ensures Sends(FetchFrom(Redirector([a, b]), Lifted(Permissive()), 0, url).log) == [To(url), To(a)]
    ensures Sends(HardenedRun(Redirector([a, b]), Permissive(), Never(), url).log) == [To(url), To(a + ", " + b)]
  {
    Joins(a, b);
    TwoRequests([a, b], url);
    HardenedSent(Redirector([a, b]), Permissive(), Never(), url);
  }
}
