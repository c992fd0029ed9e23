/** The two redirect loops: the HTTP fetcher's and the hardened fetch's. */
module Redirects {
  import opened Wrappers

  datatype Verdict = Allowed(ip: string, host: string) | Blocked(reason: string) | Failed

  /** A request is sent to a URL, with a Host header when the URL was pinned to an address. */
  datatype Request = Request(target: string, host: Option<string>)

  /**
   `location`: the values of that header, none if it is absent; `bytes` is how much of the body arrives before it
   ends or breaks.
   */
  datatype Reply =
    | Reply(status: int, location: seq<string>, contentLength: Option<int>, bytes: nat, breaks: bool)
    | Thrown(abort: bool)

  /** What the loops call: the n-th request and the n-th validation may be answered in any way. */
  datatype World = World(
    serve: (nat, Request) -> Reply,
    parse: string -> Option<string>,
    resolve: (string, string) -> Option<string>,
    pin: (string, string) -> string,
    maxRedirects: int,
    maxBytes: int)

  datatype Event =
    | Validated(url: string, verdict: Option<Verdict>)
    | Requested(url: string, request: Request)
    | RedirectRecorded
    | FetchRecorded(success: bool)
    | DurationRecorded
    | BytesRecorded(bytes: nat)

  /** Of a header sent more than once the fetcher reads the first value. */
  function First(values: seq<string>): Option<string> {
    if values == [] then None else Some(values[0])
  }

  predicate IsRedirect(status: int) {
    status == 301 || status == 302 || status == 303 || status == 307 || status == 308
  }

  function Requests(log: seq<Event>): seq<Request> {
    if log == [] then []
    else (if log[0].Requested? then [log[0].request] else []) + Requests(log[1..])
  }

  function Pinned(w: World, url: string, v: Verdict): Request
    requires v.Allowed?
  {
    Request(w.pin(url, v.ip), Some(v.host))
  }

  // ---------------------------------------------------------------- the HTTP fetcher

  datatype Failure =
    | SsrfBlocked(reason: string)
    | TooManyRedirects
    | HttpStatus(status: int)
    | BodyTooLarge
    | StreamError
    | Raised

  datatype Fetched = Fetched(status: int, finalUrl: string, bytes: nat)

  datatype Run = Run(log: seq<Event>, result: Result<Fetched, Failure>)

  type Validator = (nat, string) -> Option<Verdict>

  function After(log: seq<Event>, r: Run): Run {
    Run(log + r.log, r.result)
  }

  function Fail(f: Failure): Run {
    Run([FetchRecorded(false), DurationRecorded], Err(f))
  }

  function ReadResponse(w: World, reply: Reply, url: string): Run
    requires reply.Reply?
  {
    if reply.contentLength.Some? && reply.contentLength.value > w.maxBytes then Fail(BodyTooLarge)
    else if reply.bytes > w.maxBytes then Fail(BodyTooLarge)
    else if reply.breaks then Fail(StreamError)
    else
      Run([FetchRecorded(true), DurationRecorded, BytesRecorded(reply.bytes)],
          Ok(Fetched(reply.status, url, reply.bytes)))
  }

  /** The request for `current`, parsed as `href`; without a verdict it goes out as it is. */
  function RequestFor(w: World, current: string, href: string, v: Option<Verdict>): Request
    requires v.Some? ==> v.value.Allowed?
  {
    match v
    case None => Request(current, None)
    case Some(a) => Pinned(w, href, a)
  }

  /** What is left of a fetch that has followed `n` redirects and is at `current`. */
  function FetchFrom(w: World, validate: Validator, n: nat, current: string): Run
    decreases if n <= w.maxRedirects then w.maxRedirects - n else 0
  {
    match w.parse(current)
    case None => Fail(Raised)
    case Some(href) =>
      var v := validate(n, href);
      var checked := [Validated(href, v)];
      if v.Some? && v.value.Failed? then After(checked, Fail(Raised))
      else if v.Some? && v.value.Blocked? then After(checked, Fail(SsrfBlocked(v.value.reason)))
      else
        var request := RequestFor(w, current, href, v);
        After(checked + [Requested(href, request)], Answered(w, validate, n, current, w.serve(n, request)))
  }

  function Answered(w: World, validate: Validator, n: nat, current: string, reply: Reply): Run
    decreases if n <= w.maxRedirects then w.maxRedirects - n else 0, 0
  {
    if reply.Thrown? then Fail(Raised)
    else if IsRedirect(reply.status) then
      After([RedirectRecorded],
            if n + 1 > w.maxRedirects then Fail(TooManyRedirects)
            else
              match First(reply.location)
              case None => Fail(HttpStatus(reply.status))
              case Some(location) =>
                match w.resolve(location, current)
                case None => Fail(Raised)
                case Some(next) => FetchFrom(w, validate, n + 1, next))
    else if reply.status < 200 || reply.status >= 300 then Fail(HttpStatus(reply.status))
    else ReadResponse(w, reply, current)
  }

  lemma AfterTwice(a: seq<Event>, b: seq<Event>, r: Run)
    ensures After(a, After(b, r)) == After(a + b, r)
  {
    assert a + (b + r.log) == a + b + r.log;
  }

  method HttpFetch(url: string, w: World, validate: Validator) returns (run: Run)
    ensures run == FetchFrom(w, validate, 0, url)
  {
    var current := url;
    var count := 0;
    var log: seq<Event> := [];
    ghost var whole := FetchFrom(w, validate, 0, url);
    assert After(log, FetchFrom(w, validate, count, current)) == whole;
    while true
      invariant count == 0 || count <= w.maxRedirects
      invariant count >= 0
      invariant After(log, FetchFrom(w, validate, count, current)) == whole
      decreases if count <= w.maxRedirects then w.maxRedirects - count else 0
    {
      var parsed := w.parse(current);
      if parsed.None? { return After(log, Fail(Raised)); }
      var href := parsed.value;
      var v := validate(count, href);
      var checked := log + [Validated(href, v)];
      if v.Some? && v.value.Failed? {
        AfterTwice(log, [Validated(href, v)], Fail(Raised));
        return After(checked, Fail(Raised));
      }
      if v.Some? && v.value.Blocked? {
        AfterTwice(log, [Validated(href, v)], Fail(SsrfBlocked(v.value.reason)));
        return After(checked, Fail(SsrfBlocked(v.value.reason)));
      }
      var request := RequestFor(w, current, href, v);
      var reply := w.serve(count, request);
      SentLog(w, validate, count, current, href, v, log);
      log := checked + [Requested(href, request)];
      if reply.Thrown? { return After(log, Fail(Raised)); }
      if IsRedirect(reply.status) {
        RedirectedLog(w, validate, count, current, reply, log);
        log := log + [RedirectRecorded];
        if count + 1 > w.maxRedirects { return After(log, Fail(TooManyRedirects)); }
        if First(reply.location).None? { return After(log, Fail(HttpStatus(reply.status))); }
        var next := w.resolve(First(reply.location).value, current);
        if next.None? { return After(log, Fail(Raised)); }
        count := count + 1;
        current := next.value;
      } else if reply.status < 200 || reply.status >= 300 {
        return After(log, Fail(HttpStatus(reply.status)));
      } else {
        return After(log, ReadResponse(w, reply, current));
      }
    }
  }

  /** The log with a request that was sent, and what is left of the fetch. */
  lemma SentLog(w: World, validate: Validator, n: nat, current: string, href: string, v: Option<Verdict>,
      log: seq<Event>)
    requires w.parse(current) == Some(href) && v == validate(n, href) && (v.Some? ==> v.value.Allowed?)
    ensures var request := RequestFor(w, current, href, v);
            After(log, FetchFrom(w, validate, n, current)) ==
            After(log + [Validated(href, v)] + [Requested(href, request)],
                  Answered(w, validate, n, current, w.serve(n, request)))
  {
    var sent := [Validated(href, v)] + [Requested(href, RequestFor(w, current, href, v))];
    AfterTwice(log, sent, Answered(w, validate, n, current, w.serve(n, RequestFor(w, current, href, v))));
    assert log + sent == log + [Validated(href, v)] + [Requested(href, RequestFor(w, current, href, v))];
  }

  /** What is left after a redirect was recorded. */
  function AfterRedirect(w: World, validate: Validator, n: nat, current: string, reply: Reply): Run
    requires reply.Reply?
  {
    if n + 1 > w.maxRedirects then Fail(TooManyRedirects)
    else if First(reply.location).None? then Fail(HttpStatus(reply.status))
    else if w.resolve(First(reply.location).value, current).None? then Fail(Raised)
    else FetchFrom(w, validate, n + 1, w.resolve(First(reply.location).value, current).value)
  }

  lemma RedirectedLog(w: World, validate: Validator, n: nat, current: string, reply: Reply, log: seq<Event>)
    requires reply.Reply? && IsRedirect(reply.status)
    ensures After(log, Answered(w, validate, n, current, reply)) ==
            After(log + [RedirectRecorded], AfterRedirect(w, validate, n, current, reply))
  {
    RedirectAnswered(w, validate, n, current, reply);
    AfterTwice(log, [RedirectRecorded], AfterRedirect(w, validate, n, current, reply));
  }

  // ---------------------------------------------------------------- what a fetch does

  /**
   Every request comes right after a validation of its URL that let it pass, and is the one that validation
   allows.
   */
  predicate Guarded(w: World, log: seq<Event>) {
    forall i :: 0 <= i < |log| && log[i].Requested? ==>
      && 0 < i && log[i - 1].Validated? && log[i - 1].url == log[i].url
      && (log[i - 1].verdict.Some? ==>
            && log[i - 1].verdict.value.Allowed?
            && var v := log[i - 1].verdict.value; log[i].request == Request(w.pin(log[i].url, v.ip), Some(v.host)))
  }

  lemma GuardedConcat(w: World, a: seq<Event>, b: seq<Event>)
    requires Guarded(w, a) && Guarded(w, b)
    ensures Guarded(w, a + b)
  {
    var s := a + b;
    forall i | 0 <= i < |s| && s[i].Requested?
      ensures && 0 < i && s[i - 1].Validated? && s[i - 1].url == s[i].url
              && (s[i - 1].verdict.Some? ==>
                    && s[i - 1].verdict.value.Allowed? && s[i].request == Pinned(w, s[i].url, s[i - 1].verdict.value))
    {
      if i < |a| {
        assert a[i].Requested?;
      } else {
        assert b[i - |a|].Requested?;
        assert b[i - |a| - 1] == s[i - 1];
      }
    }
  }

  function Count(log: seq<Event>, what: Event): nat {
    if log == [] then 0 else (if log[0] == what then 1 else 0) + Count(log[1..], what)
  }

  lemma {:induction false} CountConcat(a: seq<Event>, b: seq<Event>, what: Event)
    ensures Count(a + b, what) == Count(a, what) + Count(b, what)
  {
    if a == [] {
      assert a + b == b;
    } else {
      assert (a + b)[1..] == a[1..] + b;
      CountConcat(a[1..], b, what);
    }
  }

  lemma {:induction false} RequestsConcat(a: seq<Event>, b: seq<Event>)
    ensures Requests(a + b) == Requests(a) + Requests(b)
  {
    if a == [] {
      assert a + b == b;
    } else {
      RequestsConcat(a[1..], b);
      assert a + b == [a[0]] + (a[1..] + b);
      FirstEvent(a[0], a[1..] + b);
    }
  }

  /** How many of the requests, the first of them being the n-th, are answered by a redirect. */
  function RedirectReplies(w: World, n: nat, requests: seq<Request>): nat
    decreases |requests|
  {
    if requests == [] then 0
    else
      (if Redirected(w.serve(n, requests[0])) then 1 else 0) + RedirectReplies(w, n + 1, requests[1..])
  }

  predicate Redirected(reply: Reply) {
    reply.Reply? && reply.status in {301, 302, 303, 307, 308}
  }

  /** How many requests may still be sent. */
  function Budget(w: World, n: nat): nat {
    if n <= w.maxRedirects then w.maxRedirects - n + 1 else 1
  }

  /** Redirects recorded, results recorded that agree with the outcome and that do not, and durations recorded. */
  datatype Metrics = Metrics(redirects: nat, right: nat, wrong: nat, durations: nat)

  function MetricsOf(r: Run): Metrics {
    Metrics(Count(r.log, RedirectRecorded), Count(r.log, FetchRecorded(r.result.Ok?)),
            Count(r.log, FetchRecorded(!r.result.Ok?)), Count(r.log, DurationRecorded))
  }

  /** What every run records. */
  predicate Sound(w: World, n: nat, r: Run) {
    && Guarded(w, r.log)
    && |Requests(r.log)| <= Budget(w, n)
    && MetricsOf(r) == Metrics(RedirectReplies(w, n, Requests(r.log)), 1, 0, 1)
  }

  /** What every rest of a run records after a request: nothing is sent any more, or a fetch goes on soundly. */
  predicate SoundRest(w: World, n: nat, rest: Run) {
    && Guarded(w, rest.log)
    && (Requests(rest.log) == [] || (n + 1 <= w.maxRedirects && |Requests(rest.log)| <= Budget(w, n + 1)))
    && MetricsOf(rest) == Metrics(RedirectReplies(w, n + 1, Requests(rest.log)), 1, 0, 1)
  }

  lemma FetchIsRest(w: World, n: nat, rest: Run)
    requires Sound(w, n + 1, rest) && n + 1 <= w.maxRedirects
    ensures SoundRest(w, n, rest)
  {}

  lemma ClosingIsRest(w: World, n: nat, rest: Run)
    requires Closing(rest) && Guarded(w, rest.log)
    ensures SoundRest(w, n, rest)
  {}

  /** A request, the redirect it is answered by, and the rest. */
  lemma SoundAfter(w: World, n: nat, href: string, v: Option<Verdict>, request: Request, marks: seq<Event>, rest: Run,
      r: Run)
    requires v.Some? ==> v.value.Allowed? && request == Pinned(w, href, v.value)
    requires SoundRest(w, n, rest) && r == After([Validated(href, v)] + [Requested(href, request)] + marks, rest)
    requires marks == if Redirected(w.serve(n, request)) then [RedirectRecorded] else []
    ensures Sound(w, n, r)
  {
    SameHead(href, v, request, marks, rest);
    GuardedAfter(w, href, v, request, marks, rest, r);
    SentAfter(href, v, request, marks, rest);
    MetricsAfter(href, v, request, marks, rest);
    SoundBy(w, n, request, |marks|, rest, r);
  }

  lemma SameHead(href: string, v: Option<Verdict>, request: Request, marks: seq<Event>, rest: Run)
    ensures After([Validated(href, v)] + [Requested(href, request)] + marks, rest) ==
            After([Validated(href, v), Requested(href, request)] + marks, rest)
  {}

  lemma GuardedAfter(w: World, href: string, v: Option<Verdict>, request: Request, marks: seq<Event>, rest: Run, r: Run)
    requires v.Some? ==> v.value.Allowed? && request == Pinned(w, href, v.value)
    requires marks == [] || marks == [RedirectRecorded]
    requires Guarded(w, rest.log) && r == After([Validated(href, v), Requested(href, request)] + marks, rest)
    ensures Guarded(w, r.log)
  {
    HeadGuarded(w, href, v, request, marks);
    GuardedConcat(w, [Validated(href, v), Requested(href, request)] + marks, rest.log);
  }

  lemma SoundBy(w: World, n: nat, request: Request, marks: nat, rest: Run, r: Run)
    requires Guarded(w, r.log) && Requests(r.log) == [request] + Requests(rest.log)
    requires MetricsOf(r) == MetricsOf(rest).(redirects := marks + MetricsOf(rest).redirects)
    requires marks == if Redirected(w.serve(n, request)) then 1 else 0
    requires SoundRest(w, n, rest)
    ensures Sound(w, n, r)
  {
    FirstReply(w, n, request, Requests(rest.log));
  }

  lemma FirstReply(w: World, n: nat, request: Request, rest: seq<Request>)
    ensures RedirectReplies(w, n, [request] + rest) ==
            (if Redirected(w.serve(n, request)) then 1 else 0) + RedirectReplies(w, n + 1, rest)
  {
    assert ([request] + rest)[1..] == rest;
  }

  lemma SentAfter(href: string, v: Option<Verdict>, request: Request, marks: seq<Event>, rest: Run)
    requires marks == [] || marks == [RedirectRecorded]
    ensures Requests(After([Validated(href, v), Requested(href, request)] + marks, rest).log) ==
            [request] + Requests(rest.log)
  {
    RequestsConcat([Validated(href, v), Requested(href, request)] + marks, rest.log);
    HeadRequests(href, v, request, marks);
  }

  lemma MetricsAfter(href: string, v: Option<Verdict>, request: Request, marks: seq<Event>, rest: Run)
    requires marks == [] || marks == [RedirectRecorded]
    ensures MetricsOf(After([Validated(href, v), Requested(href, request)] + marks, rest)) ==
            MetricsOf(rest).(redirects := |marks| + MetricsOf(rest).redirects)
  {
    var head := [Validated(href, v), Requested(href, request)] + marks;
    HeadCounts(href, v, request, marks);
    CountConcat(head, rest.log, RedirectRecorded);
    CountConcat(head, rest.log, DurationRecorded);
    CountConcat(head, rest.log, FetchRecorded(true));
    CountConcat(head, rest.log, FetchRecorded(false));
  }

  lemma HeadGuarded(w: World, href: string, v: Option<Verdict>, request: Request, marks: seq<Event>)
    requires v.Some? ==> v.value.Allowed? && request == Pinned(w, href, v.value)
    requires marks == [] || marks == [RedirectRecorded]
    ensures Guarded(w, [Validated(href, v), Requested(href, request)] + marks)
  {}

  lemma HeadRequests(href: string, v: Option<Verdict>, request: Request, marks: seq<Event>)
    requires marks == [] || marks == [RedirectRecorded]
    ensures Requests([Validated(href, v), Requested(href, request)] + marks) == [request]
  {
    var head := [Validated(href, v), Requested(href, request)];
    RequestsConcat(head, marks);
    assert head[1..] == [Requested(href, request)];
    assert [Requested(href, request)][1..] == [];
    if marks != [] { assert marks[1..] == []; }
  }

  lemma HeadCounts(href: string, v: Option<Verdict>, request: Request, marks: seq<Event>)
    requires marks == [] || marks == [RedirectRecorded]
    ensures var head := [Validated(href, v), Requested(href, request)] + marks;
            && Count(head, RedirectRecorded) == |marks| && Count(head, DurationRecorded) == 0
            && forall b :: Count(head, FetchRecorded(b)) == 0
  {
    var head := [Validated(href, v), Requested(href, request)];
    assert head[1..] == [Requested(href, request)];
    assert [Requested(href, request)][1..] == [];
    forall e: Event | !e.Validated? && !e.Requested?
      ensures Count(head + marks, e) == if marks != [] && e == RedirectRecorded then 1 else 0 {
      CountConcat(head, marks, e);
      if marks != [] { assert marks[1..] == []; }
    }
  }

  /** A run that sends nothing more. */
  predicate Closing(r: Run) {
    (Requests(r.log), MetricsOf(r)) == ([], Metrics(0, 1, 0, 1))
  }

  lemma FailCloses(w: World, f: Failure)
    ensures Closing(Fail(f)) && Guarded(w, Fail(f).log)
  {
    assert [FetchRecorded(false)] + ([DurationRecorded] + []) == Fail(f).log;
    FirstEvent(DurationRecorded, []);
    FirstEvent(FetchRecorded(false), [DurationRecorded] + []);
  }

  lemma FirstEvent(e: Event, rest: seq<Event>)
    ensures Requests([e] + rest) == (if e.Requested? then [e.request] else []) + Requests(rest)
    ensures forall what :: Count([e] + rest, what) == (if e == what then 1 else 0) + Count(rest, what)
  {
    assert ([e] + rest)[1..] == rest;
  }

  lemma ReadCloses(w: World, reply: Reply, url: string)
    requires reply.Reply?
    ensures Closing(ReadResponse(w, reply, url)) && Guarded(w, ReadResponse(w, reply, url).log)
  {
    if ReadResponse(w, reply, url).result.Ok? {
      var last := BytesRecorded(reply.bytes);
      var log := [FetchRecorded(true), DurationRecorded, last];
      assert ReadResponse(w, reply, url).log == log;
      assert [FetchRecorded(true)] + ([DurationRecorded] + ([last] + [])) == log;
      FirstEvent(last, []);
      FirstEvent(DurationRecorded, [last] + []);
      FirstEvent(FetchRecorded(true), [DurationRecorded] + ([last] + []));
    } else {
      FailCloses(w, ReadResponse(w, reply, url).result.error);
    }
  }

  lemma RefusalIsSound(w: World, n: nat, href: string, v: Option<Verdict>, f: Failure)
    ensures Sound(w, n, After([Validated(href, v)], Fail(f)))
  {
    FailCloses(w, f);
    GuardedConcat(w, [Validated(href, v)], Fail(f).log);
    assert ([Validated(href, v)] + Fail(f).log)[1..] == Fail(f).log;
  }

  /**
   * A fetch sends at most one request more than the redirects it may follow, each right after its URL passed
   * validation, records one redirect per redirect reply and, however it ends, one result and one duration.
   */
  lemma {:induction false} FetchIsSound(w: World, validate: Validator, n: nat, current: string)
    requires n == 0 || n <= w.maxRedirects
    ensures Sound(w, n, FetchFrom(w, validate, n, current))
    decreases if n <= w.maxRedirects then w.maxRedirects - n else 0
  {
    var parsed := w.parse(current);
    if parsed.None? {
      FailCloses(w, Raised);
    } else {
      var href := parsed.value;
      var v := validate(n, href);
      if v.Some? && v.value.Failed? {
        RefusalIsSound(w, n, href, v, Raised);
      } else if v.Some? && v.value.Blocked? {
        RefusalIsSound(w, n, href, v, SsrfBlocked(v.value.reason));
      } else {
        AnswerIsSound(w, validate, n, current, href, v);
      }
    }
  }

  lemma {:induction false} AnswerIsSound(w: World, validate: Validator, n: nat, current: string, href: string,
      v: Option<Verdict>)
    requires n == 0 || n <= w.maxRedirects
    requires v.Some? ==> v.value.Allowed?
    ensures var request := RequestFor(w, current, href, v);
            var sent := [Validated(href, v)] + [Requested(href, request)];
            Sound(w, n, After(sent, Answered(w, validate, n, current, w.serve(n, request))))
    decreases if n <= w.maxRedirects then w.maxRedirects - n else 0, 2
  {
    var request := RequestFor(w, current, href, v);
    var reply := w.serve(n, request);
    if reply.Reply? && IsRedirect(reply.status) {
      RedirectIsSound(w, validate, n, current, href, v, reply);
    } else {
      var sent := [Validated(href, v)] + [Requested(href, request)];
      var answered := Answered(w, validate, n, current, reply);
      LastAnswerCloses(w, validate, n, current, reply);
      ClosingIsRest(w, n, answered);
      assert sent + [] == sent;
      SoundAfter(w, n, href, v, request, [], answered, After(sent, answered));
    }
  }

  lemma LastAnswerCloses(w: World, validate: Validator, n: nat, current: string, reply: Reply)
    requires reply.Reply? ==> !IsRedirect(reply.status)
    ensures Closing(Answered(w, validate, n, current, reply))
            && Guarded(w, Answered(w, validate, n, current, reply).log)
  {
    if reply.Reply? && 200 <= reply.status < 300 {
      ReadCloses(w, reply, current);
    } else {
      FailCloses(w, Answered(w, validate, n, current, reply).result.error);
    }
  }

  lemma RedirectAnswered(w: World, validate: Validator, n: nat, current: string, reply: Reply)
    requires reply.Reply? && IsRedirect(reply.status)
    ensures Answered(w, validate, n, current, reply) ==
            After([RedirectRecorded], AfterRedirect(w, validate, n, current, reply))
  {}

  lemma {:induction false} RestIsSound(w: World, validate: Validator, n: nat, current: string, reply: Reply)
    requires (n == 0 || n <= w.maxRedirects) && reply.Reply?
    ensures SoundRest(w, n, AfterRedirect(w, validate, n, current, reply))
    decreases if n <= w.maxRedirects then w.maxRedirects - n else 0, 0
  {
    if n + 1 <= w.maxRedirects && First(reply.location).Some? && w.resolve(First(reply.location).value, current).Some? {
      var next := w.resolve(First(reply.location).value, current).value;
      FetchIsSound(w, validate, n + 1, next);
      FetchIsRest(w, n, FetchFrom(w, validate, n + 1, next));
    } else {
      var rest := AfterRedirect(w, validate, n, current, reply);
      FailCloses(w, rest.result.error);
      ClosingIsRest(w, n, rest);
    }
  }

  lemma {:induction false} RedirectIsSound(w: World, validate: Validator, n: nat, current: string, href: string,
      v: Option<Verdict>, reply: Reply)
    requires n == 0 || n <= w.maxRedirects
    requires v.Some? ==> v.value.Allowed?
    requires reply == w.serve(n, RequestFor(w, current, href, v)) && reply.Reply? && IsRedirect(reply.status)
    ensures var request := RequestFor(w, current, href, v);
            var sent := [Validated(href, v)] + [Requested(href, request)];
            Sound(w, n, After(sent, Answered(w, validate, n, current, reply)))
    decreases if n <= w.maxRedirects then w.maxRedirects - n else 0, 1
  {
    var request := RequestFor(w, current, href, v);
    var sent := [Validated(href, v)] + [Requested(href, request)];
    var rest := AfterRedirect(w, validate, n, current, reply);
    RedirectAnswered(w, validate, n, current, reply);
    RestIsSound(w, validate, n, current, reply);
    AfterTwice(sent, [RedirectRecorded], rest);
    SoundAfter(w, n, href, v, request, [RedirectRecorded], rest, After(sent, After([RedirectRecorded], rest)));
  }

  // ---------------------------------------------------------------- when a fetch succeeds

  predicate Passes(w: World, validate: Validator, n: nat, current: string) {
    && w.parse(current).Some?
    && var v := validate(n, w.parse(current).value); v.Some? ==> v.value.Allowed?
  }

  /** The answer to the n-th request, if it is sent to `current`: to the address of the verdict, if there is one. */
  function ReplyAt(w: World, validate: Validator, n: nat, current: string): Reply
    requires Passes(w, validate, n, current)
  {
    var href := w.parse(current).value;
    match validate(n, href)
    case None => w.serve(n, Request(current, None))
    case Some(v) => w.serve(n, Request(w.pin(href, v.ip), Some(v.host)))
  }

  /** From the first URL to the last by redirects, within the limit, every URL passing validation in its turn. */
  predicate Trail(w: World, validate: Validator, n: nat, urls: seq<string>)
    decreases |urls|
  {
    && urls != [] && Passes(w, validate, n, urls[0])
    && (|| |urls| == 1
        || (&& n + 1 <= w.maxRedirects
            && RedirectsTo(w, ReplyAt(w, validate, n, urls[0]), urls[0], urls[1])
            && Trail(w, validate, n + 1, urls[1..])))
  }

  predicate RedirectsTo(w: World, reply: Reply, from: string, to: string) {
    Redirected(reply) && reply.location != [] && w.resolve(reply.location[0], from) == Some(to)
  }

  /** A complete answer of a successful status within the size limit. */
  predicate Delivers(w: World, reply: Reply, url: string, f: Fetched) {
    && reply.Reply? && 200 <= reply.status < 300 && !reply.breaks && reply.bytes <= w.maxBytes
    && (reply.contentLength.Some? ==> reply.contentLength.value <= w.maxBytes)
    && f == Fetched(reply.status, url, reply.bytes)
  }

  predicate TrailDelivers(w: World, validate: Validator, n: nat, urls: seq<string>, f: Fetched) {
    && Trail(w, validate, n, urls)
    && Ends(w, validate, n, urls, f)
  }

  predicate Ends(w: World, validate: Validator, n: nat, urls: seq<string>, f: Fetched)
    requires Trail(w, validate, n, urls)
    decreases |urls|
  {
    if |urls| == 1 then Delivers(w, ReplyAt(w, validate, n, urls[0]), urls[0], f)
    else Ends(w, validate, n + 1, urls[1..], f)
  }

  lemma {:induction false} SuccessHasTrail(w: World, validate: Validator, n: nat, current: string)
    returns (urls: seq<string>)
    requires n == 0 || n <= w.maxRedirects
    requires FetchFrom(w, validate, n, current).result.Ok?
    ensures TrailDelivers(w, validate, n, urls, FetchFrom(w, validate, n, current).result.value) && urls[0] == current
    decreases if n <= w.maxRedirects then w.maxRedirects - n else 0
  {
    var reply := ReplyAt(w, validate, n, current);
    if IsRedirect(reply.status) {
      var next := w.resolve(First(reply.location).value, current).value;
      var rest := SuccessHasTrail(w, validate, n + 1, next);
      urls := [current] + rest;
      assert urls[1..] == rest;
    } else {
      urls := [current];
    }
  }

  lemma {:induction false} TrailSucceeds(w: World, validate: Validator, n: nat, urls: seq<string>, f: Fetched)
    requires TrailDelivers(w, validate, n, urls, f)
    ensures FetchFrom(w, validate, n, urls[0]).result == Ok(f)
    decreases |urls|
  {
    if |urls| > 1 {
      TrailSucceeds(w, validate, n + 1, urls[1..], f);
    }
  }

  /** A fetch succeeds exactly when such a trail leads from its URL to a complete answer, which it returns. */
  lemma FetchSucceedsIff(w: World, validate: Validator, url: string, f: Fetched)
    ensures FetchFrom(w, validate, 0, url).result == Ok(f) <==>
            exists urls :: TrailDelivers(w, validate, 0, urls, f) && urls[0] == url
  {
    if FetchFrom(w, validate, 0, url).result == Ok(f) {
      var urls := SuccessHasTrail(w, validate, 0, url);
      assert TrailDelivers(w, validate, 0, urls, f);
    }
    if exists urls :: TrailDelivers(w, validate, 0, urls, f) && urls[0] == url {
      var urls :| TrailDelivers(w, validate, 0, urls, f) && urls[0] == url;
      TrailSucceeds(w, validate, 0, urls, f);
    }
  }
}
