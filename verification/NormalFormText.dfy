/** What the text of a normal form is, part by part. */
module NormalFormTexts {
  import opened Wrappers
  import opened Text
  import opened PercentEncoding
  import opened StableSorts
  import opened UrlNormalizers

  /** The host in ASCII if it has such a form; the port unless it is the standard one. */
  lemma HostAndPortText(c: Components, l: Locale)
    ensures Host(c, l) == if l.ascii(c.hostname) != "" then l.ascii(c.hostname) else c.hostname
    ensures PortText(PortOf(c)) ==
            if c.port == "" || (c.protocol == "https:" && c.port == "443") || (c.protocol == "http:" && c.port == "80")
            then "" else ":" + c.port
  {}

  /** The parameters whose key compares equal to `key`, in their order. */
  function OfKey(ps: seq<Param>, key: Utf8, l: Locale): seq<Param> {
    if ps == [] then []
    else
      var p := ps[|ps| - 1];
      OfKey(ps[..|ps| - 1], key, l) + (if l.leq(p.0, key) && l.leq(key, p.0) then [p] else [])
  }

  lemma {:induction false} SelectIsOfKey(ps: seq<Param>, p: Param, l: Locale)
    ensures Select(ps, p, ByKey(l)) == OfKey(ps, p.0, l)
  {
    if ps != [] { SelectIsOfKey(ps[..|ps| - 1], p, l); }
  }

  /** Keys ascend, and parameters whose keys compare equal stand in the order given. */
  ghost predicate SortedByKey(sorted: seq<Param>, ps: seq<Param>, l: Locale) {
    && (forall i, j :: 0 <= i < j < |sorted| ==> l.leq(sorted[i].0, sorted[j].0))
    && (forall key :: OfKey(sorted, key, l) == OfKey(ps, key, l))
  }

  lemma SortedByKeyIs(sorted: seq<Param>, ps: seq<Param>, l: Locale)
    requires LocaleOk(l)
    ensures SortedByKey(sorted, ps, l) <==> sorted == StableSort(ps, ByKey(l))
  {
    var leq := ByKey(l);
    ByKeyPreorder(l);
    SortIsStable(ps, leq);
    forall p: Param, s: seq<Param> ensures Select(s, p, leq) == OfKey(s, p.0, l) { SelectIsOfKey(s, p, l); }
    if SortedByKey(sorted, ps, l) {
      assert Sorted(sorted, leq);
      assert SameClasses(sorted, StableSort(ps, leq), leq);
      SortedUnique(sorted, StableSort(ps, leq), leq);
    }
    if sorted == StableSort(ps, leq) {
      forall key ensures OfKey(sorted, key, l) == OfKey(ps, key, l) {
        assert Select(sorted, (key, []), leq) == Select(ps, (key, []), leq);
      }
      forall i, j | 0 <= i < j < |sorted| ensures l.leq(sorted[i].0, sorted[j].0) {
        assert leq(sorted[i], sorted[j]);
      }
    }
  }

  /** What remains when the slashes at the end are taken away. */
  ghost predicate WithoutSlashes(path: string, whole: string) {
    && |path| <= |whole| && whole[..|path|] == path
    && (forall i :: |path| <= i < |whole| ==> whole[i] == '/')
    && (path == "" || path[|path| - 1] != '/')
  }

  lemma {:induction false} BareIsWithoutSlashes(whole: string)
    ensures WithoutSlashes(Bare(whole), whole)
  {
    if Ends(whole) {
      var shorter := whole[..|whole| - 1];
      BareIsWithoutSlashes(shorter);
      assert shorter[..|Bare(shorter)|] == whole[..|Bare(shorter)|];
    }
  }

  lemma NoShorter(a: string, b: string, whole: string)
    requires WithoutSlashes(a, whole) && WithoutSlashes(b, whole)
    ensures |a| <= |b|
  {
    if a != "" { assert a[|a| - 1] == whole[|a| - 1]; }
  }

  lemma WithoutSlashesIs(path: string, whole: string)
    ensures WithoutSlashes(path, whole) <==> path == Bare(whole)
  {
    BareIsWithoutSlashes(whole);
    if WithoutSlashes(path, whole) {
      NoShorter(path, Bare(whole), whole);
      NoShorter(Bare(whole), path, whole);
    }
  }

  /**
   The normal form of a parsed URL: protocol, host, port unless it is the standard one, path without the slashes at
   its end, and the parameters by ascending key.
   */
  lemma NormalFormIs(c: Components, l: Locale, path: string, sorted: seq<Param>)
    requires LocaleOk(l) && WellFormed(c, l) && WithoutSlashes(path, c.pathname) && SortedByKey(sorted, c.params, l)
    ensures NormalForm(c, l) ==
            c.protocol + "//" + (if l.ascii(c.hostname) != "" then l.ascii(c.hostname) else c.hostname)
            + (if c.port == "" || (c.protocol == "https:" && c.port == "443")
                  || (c.protocol == "http:" && c.port == "80")
               then "" else ":" + c.port)
            + path + (if sorted == [] then "" else "?" + Join(PairTexts(sorted), '&'))
  {
    HostAndPortText(c, l);
    PathKept(c, l);
    WithoutSlashesIs(path, c.pathname);
    SortedByKeyIs(sorted, c.params, l);
  }

  /** There is just one such path and one such order. */
  lemma PartsExist(c: Components, l: Locale)
    requires LocaleOk(l)
    ensures exists path :: WithoutSlashes(path, c.pathname)
    ensures exists sorted :: SortedByKey(sorted, c.params, l)
  {
    WithoutSlashesIs(Bare(c.pathname), c.pathname);
    SortedByKeyIs(StableSort(c.params, ByKey(l)), c.params, l);
  }

  // ---------------------------------------------------------------- characters

  lemma Regrouped<T>(a: seq<T>, b: seq<T>, c: seq<T>)
    ensures a + (b + c) == (a + b) + c
  {}

  lemma EncodeFirst(x: Octet, rest: Utf8)
    ensures Encode([x] + rest) == Encode([x]) + Encode(rest)
  {
    assert ([x] + rest)[1..] == rest && [x][1..] == [] && Encode([]) == [];
  }

  lemma {:induction false} EncodeAppend(a: Utf8, b: Utf8)
    ensures Encode(a + b) == Encode(a) + Encode(b)
  {
    if a == [] {
      assert a + b == b && Encode(a) == [];
    } else {
      EncodeAppend(a[1..], b);
      EncodeFirst(a[0], a[1..] + b);
      EncodeFirst(a[0], a[1..]);
      Regrouped([a[0]], a[1..], b);
      Regrouped(Encode([a[0]]), Encode(a[1..]), Encode(b));
      assert [a[0]] + a[1..] == a;
    }
  }

  lemma EncodeOne(b: Octet)
    ensures Encode([b]) ==
            if 0x41 <= b <= 0x5A || 0x61 <= b <= 0x7A || 0x30 <= b <= 0x39
               || b in {0x2D, 0x5F, 0x2E, 0x21, 0x7E, 0x2A, 0x27, 0x28, 0x29}
            then [b as char] else ['%', "0123456789ABCDEF"[b / 16], "0123456789ABCDEF"[b % 16]]
  {
    assert Encode([b]) == EncodeOctet(b) + Encode([]);
  }

  /** Octet by octet: all but letters, digits and nine marks become a percent sign and two digits. */
  lemma EncodeIs(a: Utf8, b: Octet)
    ensures Encode(a + [b]) == Encode(a) +
            if 0x41 <= b <= 0x5A || 0x61 <= b <= 0x7A || 0x30 <= b <= 0x39
               || b in {0x2D, 0x5F, 0x2E, 0x21, 0x7E, 0x2A, 0x27, 0x28, 0x29}
            then [b as char] else ['%', "0123456789ABCDEF"[b / 16], "0123456789ABCDEF"[b % 16]]
  {
    EncodeAppend(a, [b]);
    EncodeOne(b);
  }

  lemma EscapeFirst(x: Octet, rest: seq<Octet>)
    ensures EscapeBytes([x] + rest) == EscapeBytes([x]) + EscapeBytes(rest)
  {
    assert ([x] + rest)[1..] == rest && [x][1..] == [] && EscapeBytes([]) == [];
  }

  lemma {:induction false} EscapeAppend(a: seq<Octet>, b: seq<Octet>)
    ensures EscapeBytes(a + b) == EscapeBytes(a) + EscapeBytes(b)
  {
    if a == [] {
      assert a + b == b && EscapeBytes(a) == [];
    } else {
      EscapeAppend(a[1..], b);
      EscapeFirst(a[0], a[1..] + b);
      EscapeFirst(a[0], a[1..]);
      Regrouped([a[0]], a[1..], b);
      Regrouped(EscapeBytes([a[0]]), EscapeBytes(a[1..]), EscapeBytes(b));
      assert [a[0]] + a[1..] == a;
    }
  }

  /** The digits of an octet, without a leading zero. */
  lemma EscapeOne(b: Octet)
    ensures EscapeBytes([b]) == "%" +
            (if b < 16 then ["0123456789ABCDEF"[b]] else ["0123456789ABCDEF"[b / 16], "0123456789ABCDEF"[b % 16]])
  {
    assert [b][1..] == [] && EscapeBytes([]) == "";
  }

  lemma NonAsciiFirst(x: char, rest: string)
    ensures EncodeNonAscii([x] + rest) == EncodeNonAscii([x]) + EncodeNonAscii(rest)
  {
    assert ([x] + rest)[1..] == rest && [x][1..] == [] && EncodeNonAscii([]) == [];
  }

  lemma {:induction false} NonAsciiAppend(a: string, b: string)
    ensures EncodeNonAscii(a + b) == EncodeNonAscii(a) + EncodeNonAscii(b)
  {
    if a == [] {
      assert a + b == b && EncodeNonAscii(a) == [];
    } else {
      NonAsciiAppend(a[1..], b);
      NonAsciiFirst(a[0], a[1..] + b);
      NonAsciiFirst(a[0], a[1..]);
      Regrouped([a[0]], a[1..], b);
      Regrouped(EncodeNonAscii([a[0]]), EncodeNonAscii(a[1..]), EncodeNonAscii(b));
      assert [a[0]] + a[1..] == a;
    }
  }

  /** A character of a path stays if it is printable ASCII; of any other its UTF-8 octets are escaped. */
  lemma EncodeNonAsciiIs(a: string, c: char)
    ensures EncodeNonAscii(a + [c]) ==
            EncodeNonAscii(a) + if 0x20 <= c as int <= 0x7E then [c] else EscapeBytes(CharBytes(c))
  {
    NonAsciiAppend(a, [c]);
    assert [c][1..] == "" && EncodeNonAscii("") == "";
  }

  /** The octets are the UTF-8 form of the character: the marks of their number and position, and its bits. */
  lemma CharBytesIs(c: char)
    ensures var n, bytes := c as int, CharBytes(c);
            && (n < 0x80 ==> bytes == [n])
            && (0x80 <= n < 0x800 ==>
                  && |bytes| == 2 && 0xC0 <= bytes[0] < 0xE0 && 0x80 <= bytes[1] < 0xC0
                  && n == (bytes[0] as int - 0xC0) * 64 + (bytes[1] as int - 0x80))
            && (0x800 <= n < 0x10000 ==>
                  && |bytes| == 3 && 0xE0 <= bytes[0] < 0xF0 && 0x80 <= bytes[1] < 0xC0 && 0x80 <= bytes[2] < 0xC0
                  && n == (bytes[0] as int - 0xE0) * 4096 + (bytes[1] as int - 0x80) * 64 + (bytes[2] as int - 0x80))
            && (0x10000 <= n ==> bytes == [0xEF, 0xBF, 0xBD, 0xEF, 0xBF, 0xBD])
  {}

  // ---------------------------------------------------------------- the factory

  ghost predicate AllWhite(s: string) {
    forall i :: 0 <= i < |s| ==> White(s[i] as int)
  }

  /** ECMAScript white space and line ends. */
  predicate White(n: int) {
    0x9 <= n <= 0xD || 0x2000 <= n <= 0x200A
    || n in {0x20, 0xA0, 0x1680, 0x2028, 0x2029, 0x202F, 0x205F, 0x3000, 0xFEFF}
  }

  lemma {:induction false} TrimStartIs(before: string, rest: string)
    requires AllWhite(before) && (rest != "" ==> !White(rest[0] as int))
    ensures TrimStart(before + rest) == rest
  {
    if before == "" {
      assert before + rest == rest;
    } else {
      assert (before + rest)[1..] == before[1..] + rest;
      TrimStartIs(before[1..], rest);
    }
  }

  lemma {:induction false} TrimEndIs(rest: string, after: string)
    requires AllWhite(after) && (rest != "" ==> !White(rest[|rest| - 1] as int))
    ensures TrimEnd(rest + after) == rest
  {
    if after == "" {
      assert rest + after == rest;
    } else {
      var s := rest + after;
      assert s[..|s| - 1] == rest + after[..|after| - 1];
      assert s[|s| - 1] == after[|after| - 1];
      TrimEndIs(rest, after[..|after| - 1]);
    }
  }

  lemma TrimIs(before: string, text: string, after: string)
    requires AllWhite(before) && AllWhite(after)
    requires text != "" ==> !White(text[0] as int) && !White(text[|text| - 1] as int)
    ensures Trim(before + text + after) == text
  {
    if text == "" {
      assert before + text + after == (before + after) + "";
      TrimStartIs(before + after, "");
    } else {
      assert before + text + after == before + (text + after);
      TrimStartIs(before, text + after);
      TrimEndIs(text, after);
    }
  }

  /**
   What the factory answers to a text between white space: errors for no text, no URL and another scheme; otherwise
   the text, its normal form and its host in lower case.
   */
  lemma FactoryMeans(before: string, text: string, after: string, parse: string -> Option<Components>, l: Locale)
    requires AllWhite(before) && AllWhite(after)
    requires text != "" ==> !White(text[0] as int) && !White(text[|text| - 1] as int)
    ensures var r := ParseCrawlUrl(before + text + after, parse, l);
            && (text == "" ==> r == Err(EmptyUrl))
            && (text != "" && parse(text).None? ==> r == Err(InvalidUrl(text)))
            && (text != "" && parse(text).Some? ==>
                  var c := parse(text).value;
                  if c.protocol in {"http:", "https:"} then
                    && r.Ok? && r.value.raw == text && r.value.normalized == NormalForm(c, l)
                    && SameButCase(r.value.domain, c.hostname)
                    && forall i :: 0 <= i < |r.value.domain| ==> !('A' <= r.value.domain[i] <= 'Z')
                  else r.Err? && r.error.DisallowedScheme? && r.error.raw == text)
  {
    TrimIs(before, text, after);
    if text != "" && parse(text).Some? {
      LowerOf(parse(text).value.hostname);
    }
  }

  lemma LowerOf(s: string)
    ensures SameButCase(ToLower(s), s) && forall i :: 0 <= i < |ToLower(s)| ==> !('A' <= ToLower(s)[i] <= 'Z')
  {
    LowerChars(s);
  }

  /** The scheme named in the error is the protocol without its colon. */
  lemma {:induction false} SchemeNamed(scheme: string, rest: string)
    requires Lacks(scheme, ':')
    ensures WithoutColon(scheme + ":" + rest) == scheme + rest
  {
    if scheme == "" {
      assert (scheme + ":" + rest)[1..] == rest;
    } else {
      assert (scheme + ":" + rest)[1..] == scheme[1..] + ":" + rest;
      SchemeNamed(scheme[1..], rest);
      assert [scheme[0]] + (scheme[1..] + rest) == scheme + rest;
    }
  }
}
