/** How a fetch of the HTTP fetcher ends: which chain of redirects leads to which result. */
module FetchEndings {
  import opened Wrappers
  import opened Redirects

  /** The n-th URL passes validation and is answered by a redirect to the next, within the limit. */
  predicate GoesOn(w: World, validate: Validator, n: nat, url: string, next: string) {
    Passes(w, validate, n, url) && n + 1 <= w.maxRedirects
    && RedirectsTo(w, ReplyAt(w, validate, n, url), url, next)
  }

  /** Every URL but the last one redirects to the next. */
  predicate Chain(w: World, validate: Validator, n: nat, urls: seq<string>)
    decreases |urls|
  {
    && urls != []
    && (|urls| > 1 ==> GoesOn(w, validate, n, urls[0], urls[1]) && Chain(w, validate, n + 1, urls[1..]))
  }

  /** What a fetch that has come to its n-th URL ends with, unless it goes on to another. */
  predicate EndsAt(w: World, validate: Validator, n: nat, url: string, r: Result<Fetched, Failure>) {
    if w.parse(url).None? then r == Err(Raised)
    else
      var v := validate(n, w.parse(url).value);
      if v.Some? && v.value.Failed? then r == Err(Raised)
      else if v.Some? && v.value.Blocked? then r == Err(SsrfBlocked(v.value.reason))
      else AnswerEnds(w, n, url, ReplyAt(w, validate, n, url), r)
  }

  predicate AnswerEnds(w: World, n: nat, url: string, reply: Reply, r: Result<Fetched, Failure>) {
    if reply.Thrown? then r == Err(Raised)
    else if Redirected(reply) then
      if w.maxRedirects <= n then r == Err(TooManyRedirects)
      else if reply.location == [] then r == Err(HttpStatus(reply.status))
      else w.resolve(reply.location[0], url) == None && r == Err(Raised)
    else if !(200 <= reply.status <= 299) then r == Err(HttpStatus(reply.status))
    else if w.maxBytes < reply.bytes || (reply.contentLength.Some? && w.maxBytes < reply.contentLength.value) then
      r == Err(BodyTooLarge)
    else r == if reply.breaks then Err(StreamError) else Ok(Fetched(reply.status, url, reply.bytes))
  }

  /** It ends here, or it goes on as the fetch from the next URL does. */
  lemma HereOrOn(w: World, validate: Validator, n: nat, url: string) returns (next: Option<string>)
    requires n == 0 || n <= w.maxRedirects
    ensures next.None? ==> EndsAt(w, validate, n, url, FetchFrom(w, validate, n, url).result)
    ensures next.Some? ==>
              && GoesOn(w, validate, n, url, next.value)
              && FetchFrom(w, validate, n, url).result == FetchFrom(w, validate, n + 1, next.value).result
  {
    next := None;
    if Passes(w, validate, n, url) {
      var reply := ReplyAt(w, validate, n, url);
      assert FetchFrom(w, validate, n, url).result == Answered(w, validate, n, url, reply).result;
      next := AnsweredHereOrOn(w, validate, n, url, reply);
    }
  }

  lemma AnsweredHereOrOn(w: World, validate: Validator, n: nat, url: string, reply: Reply)
      returns (next: Option<string>)
    ensures next.None? ==> AnswerEnds(w, n, url, reply, Answered(w, validate, n, url, reply).result)
    ensures next.Some? ==>
              && n + 1 <= w.maxRedirects && RedirectsTo(w, reply, url, next.value)
              && Answered(w, validate, n, url, reply).result == FetchFrom(w, validate, n + 1, next.value).result
  {
    next := None;
    if Redirected(reply) && n + 1 <= w.maxRedirects && reply.location != [] {
      next := w.resolve(reply.location[0], url);
    }
  }

  lemma NotBoth(w: World, validate: Validator, n: nat, url: string, next: string, r: Result<Fetched, Failure>)
    requires GoesOn(w, validate, n, url, next)
    ensures !EndsAt(w, validate, n, url, r)
  {}

  lemma OneEnding(w: World, validate: Validator, n: nat, url: string, r: Result<Fetched, Failure>,
      s: Result<Fetched, Failure>)
    requires EndsAt(w, validate, n, url, r) && EndsAt(w, validate, n, url, s)
    ensures r == s
  {}

  lemma {:induction false} ChainOf(w: World, validate: Validator, n: nat, url: string) returns (urls: seq<string>)
    requires n == 0 || n <= w.maxRedirects
    ensures urls != [] && urls[0] == url && Chain(w, validate, n, urls)
    ensures EndsAt(w, validate, n + |urls| - 1, urls[|urls| - 1], FetchFrom(w, validate, n, url).result)
    decreases if n <= w.maxRedirects then w.maxRedirects - n else 0
  {
    var next := HereOrOn(w, validate, n, url);
    urls := [url];
    if next.Some? {
      var rest := ChainOf(w, validate, n + 1, next.value);
      urls := [url] + rest;
      assert urls[1..] == rest;
    }
  }

  lemma {:induction false} ChainDecides(w: World, validate: Validator, n: nat, urls: seq<string>,
      r: Result<Fetched, Failure>)
    requires (n == 0 || n <= w.maxRedirects) && Chain(w, validate, n, urls)
    requires EndsAt(w, validate, n + |urls| - 1, urls[|urls| - 1], r)
    ensures FetchFrom(w, validate, n, urls[0]).result == r
    decreases |urls|
  {
    var next := HereOrOn(w, validate, n, urls[0]);
    var own := FetchFrom(w, validate, n, urls[0]).result;
    if |urls| == 1 {
      if next.Some? { NotBoth(w, validate, n, urls[0], next.value, r); }
      OneEnding(w, validate, n, urls[0], r, own);
    } else {
      if next.None? { NotBoth(w, validate, n, urls[0], urls[1], own); }
      ChainDecides(w, validate, n + 1, urls[1..], r);
    }
  }

  predicate EndsAlong(w: World, validate: Validator, url: string, urls: seq<string>, r: Result<Fetched, Failure>) {
    && Chain(w, validate, 0, urls) && urls[0] == url
    && EndsAt(w, validate, |urls| - 1, urls[|urls| - 1], r)
  }

  /** The result of a fetch is `r` exactly if a chain of redirects leads from its URL to one where it ends with `r`. */
  lemma FetchEndsIff(w: World, validate: Validator, url: string, r: Result<Fetched, Failure>)
    ensures FetchFrom(w, validate, 0, url).result == r <==> exists urls :: EndsAlong(w, validate, url, urls, r)
  {
    var urls := ChainOf(w, validate, 0, url);
    assert EndsAlong(w, validate, url, urls, FetchFrom(w, validate, 0, url).result);
    forall urls | EndsAlong(w, validate, url, urls, r) ensures FetchFrom(w, validate, 0, url).result == r {
      ChainDecides(w, validate, 0, urls, r);
    }
  }

  /** The size of the body is recorded last, and only for a success. */
  lemma {:induction false} SizeRecorded(w: World, validate: Validator, n: nat, url: string)
    requires n == 0 || n <= w.maxRedirects
    ensures var run := FetchFrom(w, validate, n, url);
            && run.log != []
            && run.log[|run.log| - 1] ==
               (if run.result.Ok? then BytesRecorded(run.result.value.bytes) else DurationRecorded)
    decreases if n <= w.maxRedirects then w.maxRedirects - n else 0, 1
  {
    if Passes(w, validate, n, url) {
      var reply := ReplyAt(w, validate, n, url);
      SizeRecordedAfter(w, validate, n, url, reply);
    }
  }

  lemma {:induction false} SizeRecordedAfter(w: World, validate: Validator, n: nat, url: string, reply: Reply)
    requires n == 0 || n <= w.maxRedirects
    ensures var run := Answered(w, validate, n, url, reply);
            && run.log != []
            && run.log[|run.log| - 1] ==
               (if run.result.Ok? then BytesRecorded(run.result.value.bytes) else DurationRecorded)
    decreases if n <= w.maxRedirects then w.maxRedirects - n else 0, 0
  {
    if Redirected(reply) && n + 1 <= w.maxRedirects && reply.location != [] && w.resolve(reply.location[0], url).Some? {
      SizeRecorded(w, validate, n + 1, w.resolve(reply.location[0], url).value);
    }
  }
}
