/** How a hardened fetch ends: which chain of redirects leads to which result. */
module HardenedEndings {
  import opened Wrappers
  import opened Redirects
  import opened HardenedFetches

  /** The n-th URL passes validation, is requested in time, and so gets an answer. */
  predicate Sent(w: World, check: Checker, expired: Expiry, n: nat, url: string) {
    && check(n, url).Allowed? && (n > 0 ==> !expired(n, true)) && !expired(n, false)
    && w.parse(url).Some?
  }

  /** The answer to a request sent to the address of the verdict, under the host of the verdict. */
  function ReplyTo(w: World, check: Checker, n: nat, url: string): Reply
    requires check(n, url).Allowed? && w.parse(url).Some?
  {
    var v := check(n, url);
    w.serve(n, Request(w.pin(w.parse(url).value, v.ip), Some(v.host)))
  }

  predicate Redirecting(reply: Reply) {
    reply.Reply? && reply.status in {301, 302, 303, 307, 308}
  }

  /** One more redirect, still within the limit, whose Location leads from one URL to the other. */
  predicate LeadsTo(w: World, n: nat, reply: Reply, from: string, to: string) {
    && Redirecting(reply) && n + 1 <= w.maxRedirects
    && reply.location != [] && CommaJoined(reply.location) != ""
    && w.resolve(CommaJoined(reply.location), from) == Some(to)
  }

  /** Of a header sent more than once, one more value stands behind a comma and a space. */
  lemma {:induction false} CommaJoinedIs(values: seq<string>, last: string)
    ensures CommaJoined([last]) == last
    ensures values != [] ==> CommaJoined(values + [last]) == CommaJoined(values) + ", " + last
  {
    if |values| > 1 {
      assert (values + [last])[1..] == values[1..] + [last];
      CommaJoinedIs(values[1..], last);
      assert values[0] + ", " + (CommaJoined(values[1..]) + ", " + last) == CommaJoined(values) + ", " + last;
    } else if |values| == 1 {
      assert (values + [last])[1..] == [last];
    }
  }

  /** The n-th URL is answered by a redirect to the next. */
  predicate GoesOn(w: World, check: Checker, expired: Expiry, n: nat, url: string, next: string) {
    Sent(w, check, expired, n, url) && LeadsTo(w, n, ReplyTo(w, check, n, url), url, next)
  }

  /** Every URL but the last one redirects to the next. */
  predicate Chain(w: World, check: Checker, expired: Expiry, n: nat, urls: seq<string>)
    decreases |urls|
  {
    && urls != []
    && (|urls| > 1 ==>
          && GoesOn(w, check, expired, n, urls[0], urls[1])
          && Chain(w, check, expired, n + 1, urls[1..]))
  }

  /** What a fetch that has come to its n-th URL ends with, unless it goes on to another. */
  predicate EndsAt(w: World, check: Checker, expired: Expiry, n: nat, url: string, r: Result<Response, HardError>) {
    var v := check(n, url);
    if v.Failed? then r == Err(FetchError)
    else if v.Blocked? then r == Err(Refused(v.reason, url))
    else if !Sent(w, check, expired, n, url) then
      r == Err(if (n > 0 && expired(n, true)) || expired(n, false) then TimedOut else FetchError)
    else AnswerEnds(w, n, url, v, ReplyTo(w, check, n, url), r)
  }

  predicate AnswerEnds(w: World, n: nat, url: string, v: Verdict, reply: Reply, r: Result<Response, HardError>)
    requires v.Allowed?
  {
    if reply.Thrown? then r == Err(if reply.abort then TimedOut else FetchError)
    else if !Redirecting(reply) then
      r == if reply.contentLength.Some? && w.maxBytes < reply.contentLength.value
           then Err(TooLarge(reply.contentLength.value))
           else Ok(Response(reply, v.ip, v.host, n))
    else if w.maxRedirects <= n then r == Err(TooMany(n + 1, w.maxRedirects))
    else if reply.location == [] || CommaJoined(reply.location) == "" then r == Err(NoLocation)
    else w.resolve(CommaJoined(reply.location), url) == None && r == Err(Threw)
  }

  /** A fetch from its n-th URL on. */
  function At(w: World, check: Checker, expired: Expiry, n: nat, url: string): HardRun
    requires n == 0 || n <= w.maxRedirects
  {
    if n == 0 then HardenedRun(w, check, expired, url) else Checked(w, check, expired, n, url)
  }

  /** It ends here, or it goes on as the fetch from the next URL does. */
  lemma HereOrOn(w: World, check: Checker, expired: Expiry, n: nat, url: string) returns (next: Option<string>)
    requires n == 0 || n <= w.maxRedirects
    ensures next.None? ==> EndsAt(w, check, expired, n, url, At(w, check, expired, n, url).result)
    ensures next.Some? ==>
              && GoesOn(w, check, expired, n, url, next.value)
              && At(w, check, expired, n, url).result == At(w, check, expired, n + 1, next.value).result
  {
    next := None;
    if Sent(w, check, expired, n, url) {
      next := AnsweredHereOrOn(w, check, expired, n, url);
    } else {
      UnsentEnds(w, check, expired, n, url);
    }
  }

  lemma UnsentEnds(w: World, check: Checker, expired: Expiry, n: nat, url: string)
    requires (n == 0 || n <= w.maxRedirects) && !Sent(w, check, expired, n, url)
    ensures EndsAt(w, check, expired, n, url, At(w, check, expired, n, url).result)
  {
    var v := check(n, url);
    if v.Allowed? && (n > 0 ==> !expired(n, true)) {
      assert At(w, check, expired, n, url).result == HardFrom(w, check, expired, n, url, v.ip, v.host).result;
    }
  }

  lemma AnsweredHereOrOn(w: World, check: Checker, expired: Expiry, n: nat, url: string)
      returns (next: Option<string>)
    requires (n == 0 || n <= w.maxRedirects) && Sent(w, check, expired, n, url)
    ensures next.None? ==>
              AnswerEnds(w, n, url, check(n, url), ReplyTo(w, check, n, url), At(w, check, expired, n, url).result)
    ensures next.Some? ==>
              && GoesOn(w, check, expired, n, url, next.value)
              && At(w, check, expired, n, url).result == At(w, check, expired, n + 1, next.value).result
  {
    var v := check(n, url);
    var reply := ReplyTo(w, check, n, url);
    assert At(w, check, expired, n, url).result == HardFrom(w, check, expired, n, url, v.ip, v.host).result;
    next := None;
    if Redirecting(reply) && n + 1 <= w.maxRedirects && reply.location != [] && CommaJoined(reply.location) != "" {
      next := w.resolve(CommaJoined(reply.location), url);
    }
  }

  /** Not both: what leads on does not end. */
  lemma NotBoth(w: World, check: Checker, expired: Expiry, n: nat, url: string, next: string,
      r: Result<Response, HardError>)
    requires GoesOn(w, check, expired, n, url, next)
    ensures !EndsAt(w, check, expired, n, url, r)
  {}

  lemma OneEnding(w: World, check: Checker, expired: Expiry, n: nat, url: string, r: Result<Response, HardError>,
      s: Result<Response, HardError>)
    requires EndsAt(w, check, expired, n, url, r) && EndsAt(w, check, expired, n, url, s)
    ensures r == s
  {}

  lemma {:induction false} ChainOf(w: World, check: Checker, expired: Expiry, n: nat, url: string)
      returns (urls: seq<string>)
    requires n == 0 || n <= w.maxRedirects
    ensures urls != [] && urls[0] == url && Chain(w, check, expired, n, urls)
    ensures EndsAt(w, check, expired, n + |urls| - 1, urls[|urls| - 1], At(w, check, expired, n, url).result)
    decreases if n <= w.maxRedirects then w.maxRedirects - n else 0
  {
    var next := HereOrOn(w, check, expired, n, url);
    urls := [url];
    if next.Some? {
      var rest := ChainOf(w, check, expired, n + 1, next.value);
      urls := [url] + rest;
      assert urls[1..] == rest;
    }
  }

  lemma {:induction false} ChainDecides(w: World, check: Checker, expired: Expiry, n: nat, urls: seq<string>,
      r: Result<Response, HardError>)
    requires (n == 0 || n <= w.maxRedirects) && Chain(w, check, expired, n, urls)
    requires EndsAt(w, check, expired, n + |urls| - 1, urls[|urls| - 1], r)
    ensures At(w, check, expired, n, urls[0]).result == r
    decreases |urls|
  {
    var next := HereOrOn(w, check, expired, n, urls[0]);
    var own := At(w, check, expired, n, urls[0]).result;
    if |urls| == 1 {
      if next.Some? { NotBoth(w, check, expired, n, urls[0], next.value, r); }
      OneEnding(w, check, expired, n, urls[0], r, own);
    } else {
      if next.None? { NotBoth(w, check, expired, n, urls[0], urls[1], own); }
      ChainDecides(w, check, expired, n + 1, urls[1..], r);
    }
  }

  /**
   The result of a hardened fetch is `r` exactly if a chain of redirects leads from its URL to one where it ends
   with `r`.
   */
  lemma HardenedEndsIff(w: World, check: Checker, expired: Expiry, initial: string, r: Result<Response, HardError>)
    ensures HardenedRun(w, check, expired, initial).result == r <==>
            exists urls :: EndsAlong(w, check, expired, initial, urls, r)
  {
    var urls := ChainOf(w, check, expired, 0, initial);
    assert EndsAlong(w, check, expired, initial, urls, HardenedRun(w, check, expired, initial).result);
    forall urls | EndsAlong(w, check, expired, initial, urls, r)
      ensures HardenedRun(w, check, expired, initial).result == r
    {
      ChainDecides(w, check, expired, 0, urls, r);
    }
  }

  predicate EndsAlong(w: World, check: Checker, expired: Expiry, initial: string, urls: seq<string>,
      r: Result<Response, HardError>)
  {
    && Chain(w, check, expired, 0, urls) && urls[0] == initial
    && EndsAt(w, check, expired, |urls| - 1, urls[|urls| - 1], r)
  }

  /** The chain ends at an answer that is no redirect and not known to be too large. */
  predicate Delivers(w: World, check: Checker, expired: Expiry, initial: string, urls: seq<string>, reply: Reply) {
    && Chain(w, check, expired, 0, urls) && urls[0] == initial
    && var n, last := |urls| - 1, urls[|urls| - 1];
       && Sent(w, check, expired, n, last) && reply == ReplyTo(w, check, n, last)
       && reply.Reply? && reply.status !in {301, 302, 303, 307, 308}
       && (reply.contentLength.Some? ==> reply.contentLength.value <= w.maxBytes)
  }

  /** A success names the last answer, the address and host of the last verdict, and the redirects followed. */
  lemma HardenedSucceedsIff(w: World, check: Checker, expired: Expiry, initial: string, reply: Reply, ip: string,
      host: string, n: nat)
    ensures HardenedRun(w, check, expired, initial).result == Ok(Response(reply, ip, host, n)) <==>
            exists urls :: Delivers(w, check, expired, initial, urls, reply) && n == |urls| - 1
                           && check(n, urls[n]) == Allowed(ip, host)
  {
    var r: Result<Response, HardError> := Ok(Response(reply, ip, host, n));
    HardenedEndsIff(w, check, expired, initial, r);
    forall urls | EndsAlong(w, check, expired, initial, urls, r)
      ensures Delivers(w, check, expired, initial, urls, reply) && n == |urls| - 1
              && check(n, urls[n]) == Allowed(ip, host)
    {
      assert check(|urls| - 1, urls[|urls| - 1]).Allowed?;
    }
    forall urls | Delivers(w, check, expired, initial, urls, reply) && n == |urls| - 1
                  && check(n, urls[n]) == Allowed(ip, host)
      ensures EndsAlong(w, check, expired, initial, urls, r)
    {
    }
  }
}
