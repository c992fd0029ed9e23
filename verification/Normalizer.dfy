/** URL normalisation, the parser that reads normal forms back, and the factory built on both. */
module UrlNormalizers {
  import opened Wrappers
  import opened Text
  import opened PercentEncoding
  import opened StableSorts

  type Param = (Utf8, Utf8)

  /** What the URL parser makes of a text. */
  datatype Components = Components(
    protocol: string, userinfo: string, hostname: string, port: string, pathname: string,
    params: seq<Param>, hash: string)

  /** `ascii` gives a host's ASCII form, empty when it has none; `leq` compares the keys of parameters. */
  datatype Locale = Locale(ascii: string -> string, leq: (Utf8, Utf8) -> bool)

  /** The ASCII form is its own ASCII form, and keys are compared by a total preorder. */
  ghost predicate LocaleOk(l: Locale) {
    && (forall h :: l.ascii(h) != "" ==> l.ascii(l.ascii(h)) == l.ascii(h))
    && TotalPreorder(l.leq)
  }

  function ByKey(l: Locale): (Param, Param) -> bool {
    (a: Param, b: Param) => l.leq(a.0, b.0)
  }

  // ---------------------------------------------------------------- the parts of a normal form

  function Host(c: Components, l: Locale): string {
    if l.ascii(c.hostname) == "" then c.hostname else l.ascii(c.hostname)
  }

  predicate IsDefaultPort(protocol: string, port: string) {
    port == "" || (protocol == "https:" && port == "443") || (protocol == "http:" && port == "80")
  }

  function PortOf(c: Components): string {
    if IsDefaultPort(c.protocol, c.port) then "" else c.port
  }

  function PortText(port: string): string {
    if port == "" then "" else ":" + port
  }

  predicate Printable(c: char) {
    ' ' <= c <= '~'
  }

  /** The bytes of one character; half a surrogate pair becomes the replacement character. */
  function CharBytes(c: char): seq<Octet> {
    var n := c as int;
    if n < 0x80 then [n]
    else if n < 0x800 then [0xC0 + n / 64, 0x80 + n % 64]
    else if n < 0x10000 then [0xE0 + n / 4096, 0x80 + n / 64 % 64, 0x80 + n % 64]
    else [0xEF, 0xBF, 0xBD, 0xEF, 0xBF, 0xBD]
  }

  /** Hexadecimal without padding. */
  function EscapeBytes(bytes: seq<Octet>): string {
    if bytes == [] then ""
    else
      "%" + (if bytes[0] < 16 then [HexDigit(bytes[0])] else [HexDigit(bytes[0] / 16), HexDigit(bytes[0] % 16)])
      + EscapeBytes(bytes[1..])
  }

  function EncodeNonAscii(path: string): string {
    if path == "" then ""
    else (if Printable(path[0]) then [path[0]] else EscapeBytes(CharBytes(path[0]))) + EncodeNonAscii(path[1..])
  }

  lemma {:induction false} PrintablePathKept(path: string)
    requires forall c <- path :: Printable(c)
    ensures EncodeNonAscii(path) == path
  {
    if path != "" {
      PrintablePathKept(path[1..]);
      assert [path[0]] + path[1..] == path;
    }
  }

  predicate Ends(s: string) {
    s != "" && s[|s| - 1] == '/'
  }

  function Slashes(n: nat): string {
    if n == 0 then "" else Slashes(n - 1) + "/"
  }

  function Bare(path: string): string {
    if Ends(path) then Bare(path[..|path| - 1]) else path
  }

  /** The path without the slashes at its end: nothing else is removed, and none is left. */
  lemma {:induction false} BareIsPathWithoutSlashes(path: string)
    ensures |Bare(path)| <= |path| && path[..|Bare(path)|] == Bare(path)
    ensures path == Bare(path) + Slashes(|path| - |Bare(path)|) && !Ends(Bare(path))
  {
    if Ends(path) {
      BareIsPathWithoutSlashes(path[..|path| - 1]);
    }
  }

  lemma {:induction false} BareForgetsSlashes(path: string, n: nat)
    ensures Bare(path + Slashes(n)) == Bare(path)
  {
    if n == 0 {
      assert path + Slashes(n) == path;
    } else {
      BareForgetsSlashes(path, n - 1);
      var longer := path + Slashes(n);
      assert longer[..|longer| - 1] == path + Slashes(n - 1);
      assert longer[|longer| - 1] == '/';
    }
  }

  function PairText(p: Param): string {
    Encode(p.0) + "=" + Encode(p.1)
  }

  function PairTexts(ps: seq<Param>): seq<string> {
    if ps == [] then [] else [PairText(ps[0])] + PairTexts(ps[1..])
  }

  function QueryText(ps: seq<Param>): string {
    if ps == [] then "" else "?" + Join(PairTexts(ps), '&')
  }

  function NormalForm(c: Components, l: Locale): string {
    c.protocol + "//" + Host(c, l) + PortText(PortOf(c)) + Bare(EncodeNonAscii(c.pathname))
    + QueryText(StableSort(c.params, ByKey(l)))
  }

  // ---------------------------------------------------------------- as the code computes it

  /** Fills the list of entries one by one, sorts it by key and joins the encoded pairs. */
  method SortQueryParams(params: seq<Param>, l: Locale) returns (text: string)
    ensures text == QueryText(StableSort(params, ByKey(l)))
  {
    var entries: seq<Param> := [];
    for i := 0 to |params|
      invariant entries == params[..i]
    {
      entries := entries + [params[i]];
    }
    assert entries == params;
    if |entries| == 0 { return ""; }
    SortLength(entries, ByKey(l));
    entries := StableSort(entries, ByKey(l));
    text := "?" + Join(PairTexts(entries), '&');
  }

  lemma {:induction false} InsertLength<T>(s: seq<T>, x: T, leq: (T, T) -> bool)
    ensures |Insert(s, x, leq)| == |s| + 1
  {
    if s != [] && !leq(s[|s| - 1], x) { InsertLength(s[..|s| - 1], x, leq); }
  }

  lemma {:induction false} SortLength<T>(s: seq<T>, leq: (T, T) -> bool)
    ensures |StableSort(s, leq)| == |s|
  {
    if s != [] {
      SortLength(s[..|s| - 1], leq);
      InsertLength(StableSort(s[..|s| - 1], leq), s[|s| - 1], leq);
    }
  }

  method Normalize(c: Components, l: Locale) returns (text: string)
    ensures text == NormalForm(c, l)
  {
    var ascii := l.ascii(c.hostname);
    var host := if ascii == "" then c.hostname else ascii;
    var port := if IsDefaultPort(c.protocol, c.port) then "" else ":" + c.port;
    var path := EncodeNonAscii(c.pathname);
    while |path| > 1 && path[|path| - 1] == '/'
      invariant Bare(path) == Bare(EncodeNonAscii(c.pathname))
    {
      path := path[..|path| - 1];
    }
    if path == "/" {
      path := "";
    }
    var query := SortQueryParams(c.params, l);
    text := c.protocol + "//" + host + port + path + query;
  }

  // ---------------------------------------------------------------- reading a URL

  function Before(s: string, c: char): string {
    if Cut(s, c).Some? then Cut(s, c).value.0 else s
  }

  function After(s: string, c: char): string {
    if Cut(s, c).Some? then Cut(s, c).value.1 else ""
  }

  function HostPort(s: string): Option<(string, string)> {
    if s != "" && s[0] == '[' then
      match Cut(s, ']')
      case None => None
      case Some((host, tail)) =>
        if tail == "" then Some((host + "]", ""))
        else if tail[0] == ':' then Some((host + "]", tail[1..]))
        else None
    else Some((Before(s, ':'), After(s, ':')))
  }

  function PairOf(piece: string): Param {
    (DecodeQuery(Before(piece, '=')), DecodeQuery(After(piece, '=')))
  }

  function PairsOf(pieces: seq<string>): seq<Param> {
    if pieces == [] then []
    else (if pieces[0] == "" then [] else [PairOf(pieces[0])]) + PairsOf(pieces[1..])
  }

  /** Reads text of the shape scheme "://" authority ["/" path] ["?" query] ["#" fragment]. */
  function Read(text: string): Option<Components> {
    var front := Before(text, '#');
    var address := Before(front, '?');
    match Cut(address, ':')
    case None => None
    case Some((scheme, rest)) =>
      if |rest| < 2 || rest[0] != '/' || rest[1] != '/' then None
      else
        ReadAuthority(scheme + ":", Before(rest[2..], '/'), "/" + After(rest[2..], '/'),
                      PairsOf(Split(After(front, '?'), '&')), After(text, '#'))
  }

  function ReadAuthority(protocol: string, authority: string, path: string, params: seq<Param>,
      hash: string): Option<Components> {
    var (userinfo, place) := if Cut(authority, '@').Some? then Cut(authority, '@').value else ("", authority);
    match HostPort(place)
    case None => None
    case Some((host, port)) =>
      Some(Components(protocol, userinfo, host, if IsDefaultPort(protocol, port) then "" else port, path, params, hash))
  }

  // ---------------------------------------------------------------- well-formed components

  predicate Graphic(s: string) {
    forall i :: 0 <= i < |s| ==> '!' <= s[i] <= '~'
  }

  predicate LacksAll(s: string, cs: string) {
    forall c <- cs :: Lacks(s, c)
  }

  predicate HostShape(host: string) {
    && host != "" && Graphic(host)
    && (|| LacksAll(host, ":/?#@[]")
        || (|host| >= 2 && host[0] == '[' && host[|host| - 1] == ']' && LacksAll(host[1..|host| - 1], "/?#@[]")))
  }

  predicate AllDigits(s: string) {
    forall i :: 0 <= i < |s| ==> '0' <= s[i] <= '9'
  }

  /** What the URL parser promises of the components of an http or https URL. */
  predicate WellFormed(c: Components, l: Locale) {
    && (c.protocol == "http:" || c.protocol == "https:")
    && HostShape(Host(c, l))
    && AllDigits(c.port)
    && c.pathname != "" && c.pathname[0] == '/' && Graphic(c.pathname) && LacksAll(c.pathname, "?#")
  }

  // ---------------------------------------------------------------- reading back the query

  lemma PairRead(p: Param)
    ensures PairText(p) != "" && Lacks(PairText(p), '&') && PairOf(PairText(p)) == p
  {
    EncodedLacks(p.0, '=');
    EncodedLacks(p.0, '&');
    EncodedLacks(p.1, '&');
    CutAt(Encode(p.0), Encode(p.1), '=');
    DecodeQueryEncode(p.0);
    DecodeQueryEncode(p.1);
  }

  lemma {:induction false} PairsRead(ps: seq<Param>)
    ensures |PairTexts(ps)| == |ps|
    ensures forall t <- PairTexts(ps) :: Lacks(t, '&')
    ensures PairsOf(PairTexts(ps)) == ps
  {
    if ps != [] {
      PairRead(ps[0]);
      PairsRead(ps[1..]);
      assert PairTexts(ps)[1..] == PairTexts(ps[1..]);
      assert [ps[0]] + ps[1..] == ps;
    }
  }

  lemma QueryRead(ps: seq<Param>)
    requires ps != []
    ensures PairsOf(Split(Join(PairTexts(ps), '&'), '&')) == ps
  {
    PairsRead(ps);
    SplitJoin(PairTexts(ps), '&');
  }

  predicate QueryChar(c: char) {
    IsPlain(c) || c in "%&="
  }

  predicate QueryChars(s: string) {
    forall i :: 0 <= i < |s| ==> QueryChar(s[i])
  }

  lemma PairCharacters(p: Param)
    ensures QueryChars(PairText(p))
  {
    EncodedCharacters(p.0);
    EncodedCharacters(p.1);
    forall i | 0 <= i < |PairText(p)| ensures QueryChar(PairText(p)[i]) {
      var c := PairText(p)[i];
      assert c in Encode(p.0) || c == '=' || c in Encode(p.1);
    }
  }

  lemma {:induction false} QueryCharacters(ps: seq<Param>)
    ensures QueryChars(Join(PairTexts(ps), '&'))
  {
    if ps != [] {
      PairCharacters(ps[0]);
      QueryCharacters(ps[1..]);
      assert PairTexts(ps)[1..] == PairTexts(ps[1..]);
    }
  }

  // ---------------------------------------------------------------- reading back the address

  lemma CutTail(a: string, sep: char, tail: string)
    requires Lacks(a, sep) && (tail == "" || tail[0] == sep)
    ensures Before(a + tail, sep) == a
    ensures After(a + tail, sep) == if tail == "" then "" else tail[1..]
  {
    if tail == "" {
      assert a + tail == a;
      CutNone(a, sep);
    } else {
      assert a + tail == a + [sep] + tail[1..];
      CutAt(a, tail[1..], sep);
    }
  }

  /** `query` is empty or begins with a question mark. */
  lemma AddressRead(scheme: string, authority: string, path: string, query: string)
    requires scheme == "http" || scheme == "https"
    requires LacksAll(authority, "/?#") && LacksAll(path, "?#") && (path == "" || path[0] == '/')
    requires query == "" || (query[0] == '?' && QueryChars(query[1..]))
    ensures Read(scheme + "://" + authority + path + query) ==
            ReadAuthority(scheme + ":", authority, if path == "" then "/" else path,
                          PairsOf(Split(if query == "" then "" else query[1..], '&')), "")
  {
    var rest := authority + path;
    var address := scheme + "://" + rest;
    assert scheme + "://" + authority + path == address;
    AddressLacks(scheme, authority, path, '#');
    AddressLacks(scheme, authority, path, '?');
    if query != "" {
      assert query == "?" + query[1..];
    }
    assert address + query + "" == address + query;
    CutTail(address + query, '#', "");
    CutTail(address, '?', query);
    SchemeCut(scheme, rest);
    assert '/' in "/?#";
    CutTail(authority, '/', path);
    if path != "" { assert "/" + path[1..] == path; }
    ReadInParts(address + query, address, scheme, rest);
    assert After(address + query, '?') == if query == "" then "" else query[1..];
    assert Before(rest, '/') == authority;
    assert "/" + After(rest, '/') == if path == "" then "/" else path;
  }

  lemma AddressLacks(scheme: string, authority: string, path: string, c: char)
    requires scheme == "http" || scheme == "https"
    requires LacksAll(authority, "/?#") && LacksAll(path, "?#") && (c == '?' || c == '#')
    ensures Lacks(scheme + "://" + (authority + path), c)
  {
    assert c in "?#" && c in "/?#";
    assert Lacks(scheme + "://", c);
  }

  lemma SchemeCut(scheme: string, rest: string)
    requires scheme == "http" || scheme == "https"
    ensures Cut(scheme + "://" + rest, ':') == Some((scheme, "//" + rest))
  {
    assert scheme + "://" + rest == scheme + [':'] + ("//" + rest);
    assert Lacks(scheme, ':');
    CutAt(scheme, "//" + rest, ':');
  }

  lemma ReadInParts(text: string, address: string, scheme: string, rest: string)
    requires Before(text, '#') == text && After(text, '#') == ""
    requires Before(text, '?') == address && Cut(address, ':') == Some((scheme, "//" + rest))
    ensures Read(text) == ReadAuthority(scheme + ":", Before(rest, '/'), "/" + After(rest, '/'),
                                        PairsOf(Split(After(text, '?'), '&')), "")
  {
    assert ("//" + rest)[2..] == rest;
  }

  lemma OpeningBracket(host: string)
    requires LacksAll(host, ":/?#@[]")
    ensures Lacks(host, '[')
  {
    assert '[' in ":/?#@[]";
  }

  lemma BracketedPlaceRead(inner: string, port: string)
    requires Lacks(inner, ']')
    ensures HostPort(("[" + inner + "]") + PortText(port)) == Some(("[" + inner + "]", port))
  {
    var place := ("[" + inner + "]") + PortText(port);
    assert place == ("[" + inner) + [']'] + PortText(port);
    CutAt("[" + inner, PortText(port), ']');
  }

  lemma PlainPlaceRead(host: string, port: string)
    requires host != "" && host[0] != '[' && Lacks(host, ':')
    ensures HostPort(host + PortText(port)) == Some((host, port))
  {
    CutTail(host, ':', PortText(port));
    assert (host + PortText(port))[0] == host[0];
  }

  lemma PlaceRead(host: string, port: string)
    requires HostShape(host)
    ensures HostPort(host + PortText(port)) == Some((host, port))
  {
    if LacksAll(host, ":/?#@[]") {
      OpeningBracket(host);
      assert ':' in ":/?#@[]";
      PlainPlaceRead(host, port);
    } else {
      assert ']' in "/?#@[]";
      assert host == "[" + host[1..|host| - 1] + "]";
      BracketedPlaceRead(host[1..|host| - 1], port);
    }
  }

  lemma HostLacks(host: string, c: char)
    requires HostShape(host) && c in "/?#@"
    ensures Lacks(host, c)
  {
    if LacksAll(host, ":/?#@[]") {
      assert c in ":/?#@[]";
    } else {
      assert c in "/?#@[]" && Lacks(host[1..|host| - 1], c);
      assert host == "[" + host[1..|host| - 1] + "]";
    }
  }

  lemma AuthorityRead(protocol: string, host: string, port: string, path: string, params: seq<Param>)
    requires HostShape(host) && AllDigits(port)
    ensures LacksAll(host + PortText(port), "/?#")
    ensures ReadAuthority(protocol, host + PortText(port), path, params, "") ==
            Some(Components(protocol, "", host, if IsDefaultPort(protocol, port) then "" else port, path, params, ""))
  {
    var place := host + PortText(port);
    forall c | c in "/?#@" ensures Lacks(place, c) {
      HostLacks(host, c);
    }
    assert '@' in "/?#@" && Lacks(place, '@');
    CutNone(place, '@');
    PlaceRead(host, port);
    forall c | c in "/?#" ensures Lacks(place, c) {
      assert c in "/?#@";
    }
  }

  // ---------------------------------------------------------------- what a normal form says

  /** What is left of the components. */
  function Canonical(c: Components, l: Locale): Components {
    Components(c.protocol, "", Host(c, l), PortOf(c), if Bare(c.pathname) == "" then "/" else Bare(c.pathname),
               StableSort(c.params, ByKey(l)), "")
  }

  lemma PathKept(c: Components, l: Locale)
    requires WellFormed(c, l)
    ensures EncodeNonAscii(c.pathname) == c.pathname
    ensures LacksAll(Bare(c.pathname), "?#") && (Bare(c.pathname) == "" || Bare(c.pathname)[0] == '/')
    ensures Graphic(Bare(c.pathname))
  {
    PrintablePathKept(c.pathname);
    BareIsPathWithoutSlashes(c.pathname);
    PrefixKept(c.pathname, Bare(c.pathname), "?#");
  }

  lemma PrefixKept(path: string, bare: string, cs: string)
    requires |bare| <= |path| && bare == path[..|bare|] && Graphic(path) && LacksAll(path, cs)
    ensures Graphic(bare) && LacksAll(bare, cs) && (bare == "" || bare[0] == path[0])
  {
    forall x | x in cs ensures Lacks(bare, x) {
      assert Lacks(path, x);
    }
  }

  /** Parsing a normal form gives back exactly what normalisation leaves of the components. */
  lemma NormalFormRead(c: Components, l: Locale)
    requires WellFormed(c, l)
    ensures Read(NormalForm(c, l)) == Some(Canonical(c, l))
  {
    var scheme := c.protocol[..|c.protocol| - 1];
    var ps := StableSort(c.params, ByKey(l));
    PathKept(c, l);
    QueryTextRead(ps, QueryText(ps));
    NormalText(c, l, scheme, Host(c, l) + PortText(PortOf(c)), Bare(c.pathname), QueryText(ps));
    PortKept(c);
    PartsRead(scheme, Host(c, l), PortOf(c), Bare(c.pathname), ps, QueryText(ps));
  }

  lemma PortKept(c: Components)
    requires AllDigits(c.port)
    ensures AllDigits(PortOf(c)) && PortOf(c) == if IsDefaultPort(c.protocol, PortOf(c)) then "" else PortOf(c)
  {}

  lemma PartsRead(scheme: string, host: string, port: string, path: string, ps: seq<Param>, query: string)
    requires scheme == "http" || scheme == "https"
    requires HostShape(host) && AllDigits(port)
    requires LacksAll(path, "?#") && (path == "" || path[0] == '/')
    requires query == "" || (query[0] == '?' && QueryChars(query[1..]))
    requires PairsOf(Split(if query == "" then "" else query[1..], '&')) == ps
    ensures Read(scheme + "://" + (host + PortText(port)) + path + query) ==
            Some(Components(scheme + ":", "", host, if IsDefaultPort(scheme + ":", port) then "" else port,
                            if path == "" then "/" else path, ps, ""))
  {
    AuthorityRead(scheme + ":", host, port, if path == "" then "/" else path, ps);
    AddressRead(scheme, host + PortText(port), path, query);
  }

  lemma QueryTextRead(ps: seq<Param>, query: string)
    requires query == QueryText(ps)
    ensures query == "" || (query[0] == '?' && QueryChars(query[1..]))
    ensures PairsOf(Split(if query == "" then "" else query[1..], '&')) == ps
  {
    if ps != [] {
      QueryCharacters(ps);
      QueryRead(ps);
      assert query[1..] == Join(PairTexts(ps), '&');
    } else {
      assert Split("", '&') == [""] && PairsOf([""]) == [];
    }
  }

  lemma NormalText(c: Components, l: Locale, scheme: string, authority: string, path: string, query: string)
    requires c.protocol == scheme + ":" && authority == Host(c, l) + PortText(PortOf(c))
    requires path == Bare(EncodeNonAscii(c.pathname)) && query == QueryText(StableSort(c.params, ByKey(l)))
    ensures NormalForm(c, l) == scheme + "://" + authority + path + query
  {
    Regroup(scheme, Host(c, l), PortText(PortOf(c)), path, query);
  }

  lemma Regroup(s: string, h: string, p: string, path: string, q: string)
    ensures s + ":" + "//" + h + p + path + q == s + "://" + (h + p) + path + q
  {}

  lemma {:induction false} BareIdempotent(path: string)
    ensures Bare(Bare(path)) == Bare(path) && Bare("/") == ""
  {
    BareIsPathWithoutSlashes(path);
    assert "/"[..0] == "";
  }

  lemma ByKeyPreorder(l: Locale)
    requires LocaleOk(l)
    ensures TotalPreorder(ByKey(l))
  {
    forall a: Param, b: Param ensures ByKey(l)(a, b) || ByKey(l)(b, a) {
      assert l.leq(a.0, b.0) || l.leq(b.0, a.0);
    }
    forall a: Param, b: Param, c: Param | ByKey(l)(a, b) && ByKey(l)(b, c) ensures ByKey(l)(a, c) {
      assert l.leq(a.0, b.0) && l.leq(b.0, c.0);
    }
  }

  lemma CanonicalTwice(c: Components, l: Locale)
    requires LocaleOk(l) && WellFormed(c, l)
    ensures WellFormed(Canonical(c, l), l) && Canonical(Canonical(c, l), l) == Canonical(c, l)
  {
    ByKeyPreorder(l);
    SortTwice(c.params, ByKey(l));
    PathKept(c, l);
    BareIdempotent(c.pathname);
  }

  /** Normalisation is idempotent through parsing. */
  lemma NormalisationIsIdempotent(c: Components, l: Locale)
    requires LocaleOk(l) && WellFormed(c, l)
    ensures Read(NormalForm(c, l)).Some?
    ensures NormalForm(Read(NormalForm(c, l)).value, l) == NormalForm(c, l)
  {
    NormalFormRead(c, l);
    CanonicalTwice(c, l);
    PathKept(c, l);
    PathKept(Canonical(c, l), l);
    BareIdempotent(c.pathname);
  }

  /**
   * Two URLs have the same normal form exactly when they agree on protocol, host, path up to slashes at its end,
   * port, an empty one and the standard one of the protocol being the same, and, for every key, the parameters
   * whose keys compare equal to it, in their order. So credentials, fragments, slashes at the end, standard ports
   * and the order of parameters with keys that compare unequal are all that is forgotten.
   */
  lemma SameNormalForm(a: Components, b: Components, l: Locale)
    requires LocaleOk(l) && WellFormed(a, l) && WellFormed(b, l)
    ensures NormalForm(a, l) == NormalForm(b, l) <==>
            && a.protocol == b.protocol && Host(a, l) == Host(b, l)
            && (|| a.port == b.port
                || var standard := {"", if a.protocol == "https:" then "443" else "80"};
                   a.port in standard && b.port in standard)
            && Bare(a.pathname) == Bare(b.pathname)
            && SameClasses(a.params, b.params, ByKey(l))
  {
    if a.protocol == b.protocol { SamePortIff(a, b); }
    PathKept(a, l);
    PathKept(b, l);
    if NormalForm(a, l) == NormalForm(b, l) {
      NormalFormRead(a, l);
      NormalFormRead(b, l);
      BareIsPathWithoutSlashes(a.pathname);
      BareIsPathWithoutSlashes(b.pathname);
    }
    ByKeyPreorder(l);
    SameSorted(a.params, b.params, ByKey(l));
  }

  lemma SamePortIff(a: Components, b: Components)
    requires (a.protocol == "http:" || a.protocol == "https:") && a.protocol == b.protocol
    ensures PortOf(a) == PortOf(b) <==>
            || a.port == b.port
            || var standard := {"", if a.protocol == "https:" then "443" else "80"};
               a.port in standard && b.port in standard
  {}

  /** Exchanging two neighbouring parameters changes nothing if their keys compare unequal. */
  lemma SwapKeepsNormalForm(c: Components, before: seq<Param>, p: Param, q: Param, after: seq<Param>, l: Locale)
    requires LocaleOk(l) && !(l.leq(p.0, q.0) && l.leq(q.0, p.0))
    ensures NormalForm(c.(params := before + [p, q] + after), l) == NormalForm(c.(params := before + [q, p] + after), l)
  {
    ByKeyPreorder(l);
    SwapForgotten(before, p, q, after, ByKey(l));
  }

  // ---------------------------------------------------------------- raw text

  predicate ControlChar(c: char) {
    c as int < 32 || c as int == 127
  }

  predicate HasControlChars(raw: string) {
    exists i :: 0 <= i < |raw| && ControlChar(raw[i])
  }

  predicate Clean(s: string) {
    forall i :: 0 <= i < |s| ==> '!' <= s[i] <= '~' && s[i] != '#'
  }

  lemma CleanConcat(a: string, b: string, c: string, d: string, e: string)
    requires Clean(a) && Clean(b) && Clean(c) && Clean(d) && Clean(e)
    ensures Clean(a + "//" + b + c + d + e)
  {
    var ab := a + "//" + b;
    assert Clean("//") && Clean(a + "//") && Clean(ab);
    assert Clean(ab + c) && Clean(ab + c + d);
  }

  lemma QueryIsClean(ps: seq<Param>)
    ensures Clean(QueryText(ps))
  {
    QueryCharacters(ps);
  }

  lemma PathIsClean(c: Components, l: Locale)
    requires WellFormed(c, l)
    ensures Clean(Bare(EncodeNonAscii(c.pathname)))
  {
    PathKept(c, l);
    assert '#' in "?#";
  }

  lemma PlaceIsClean(host: string, port: string)
    requires HostShape(host) && AllDigits(port)
    ensures Clean(host) && Clean(PortText(port))
  {
    HostLacks(host, '#');
  }

  /** A normal form is printable ASCII without spaces, whatever the parameters hold; it has no fragment. */
  lemma NormalFormIsClean(c: Components, l: Locale)
    requires WellFormed(c, l)
    ensures Clean(NormalForm(c, l))
  {
    PlaceIsClean(Host(c, l), PortOf(c));
    PathIsClean(c, l);
    QueryIsClean(StableSort(c.params, ByKey(l)));
    CleanConcat(c.protocol, Host(c, l), PortText(PortOf(c)), Bare(EncodeNonAscii(c.pathname)),
                QueryText(StableSort(c.params, ByKey(l))));
  }

  // ---------------------------------------------------------------- the factory

  predicate IsWhite(c: char) {
    var n := c as int;
    9 <= n <= 13 || n == 0x20 || n == 0xA0 || n == 0x1680 || 0x2000 <= n <= 0x200A || n == 0x2028 || n == 0x2029
    || n == 0x202F || n == 0x205F || n == 0x3000 || n == 0xFEFF
  }

  function TrimStart(s: string): string {
    if s != "" && IsWhite(s[0]) then TrimStart(s[1..]) else s
  }

  function TrimEnd(s: string): string {
    if s != "" && IsWhite(s[|s| - 1]) then TrimEnd(s[..|s| - 1]) else s
  }

  function Trim(s: string): string {
    TrimEnd(TrimStart(s))
  }

  datatype CrawlUrl = CrawlUrl(raw: string, normalized: string, domain: string)

  datatype UrlError = EmptyUrl | InvalidUrl(raw: string) | DisallowedScheme(raw: string, scheme: string)

  function WithoutColon(s: string): string {
    if s == "" then "" else if s[0] == ':' then s[1..] else [s[0]] + WithoutColon(s[1..])
  }

  function ParseCrawlUrl(raw: string, parse: string -> Option<Components>, l: Locale): Result<CrawlUrl, UrlError> {
    var trimmed := Trim(raw);
    if trimmed == "" then Err(EmptyUrl)
    else
      match parse(trimmed)
      case None => Err(InvalidUrl(trimmed))
      case Some(c) =>
        if c.protocol != "http:" && c.protocol != "https:" then
          Err(DisallowedScheme(trimmed, WithoutColon(c.protocol)))
        else
          Ok(CrawlUrl(trimmed, NormalForm(c, l), ToLower(c.hostname)))
  }

  /** The URL parser: its http and https results are well formed, and it reads normal forms as `Read` does. */
  ghost predicate ParserOk(parse: string -> Option<Components>, l: Locale) {
    forall text ::
      parse(text).Some? && (parse(text).value.protocol == "http:" || parse(text).value.protocol == "https:") ==>
        && WellFormed(parse(text).value, l)
        && var form := NormalForm(parse(text).value, l); parse(form) == Read(form)
  }

  lemma CleanIsTrimmed(s: string)
    requires Clean(s)
    ensures Trim(s) == s
  {
    if s != "" {
      assert !IsWhite(s[0]) && !IsWhite(s[|s| - 1]);
    }
  }

  /**
   * A normalised URL is accepted again and is its own normal form; what is accepted is neither empty nor of
   * another scheme, has no fragment and no control character.
   */
  lemma NormalizedUrlsAreFixed(raw: string, parse: string -> Option<Components>, l: Locale)
    requires LocaleOk(l) && ParserOk(parse, l) && ParseCrawlUrl(raw, parse, l).Ok?
    ensures var n := ParseCrawlUrl(raw, parse, l).value.normalized;
            && ParseCrawlUrl(n, parse, l).Ok?
            && ParseCrawlUrl(n, parse, l).value.raw == n && ParseCrawlUrl(n, parse, l).value.normalized == n
            && !HasControlChars(n) && Lacks(n, '#')
  {
    var c := parse(Trim(raw)).value;
    var n := NormalForm(c, l);
    assert WellFormed(c, l) && parse(n) == Read(n);
    NormalFormIsClean(c, l);
    CleanIsTrimmed(n);
    NormalFormRead(c, l);
    NormalisationIsIdempotent(c, l);
    NormalFormNotEmpty(c, l);
  }

  lemma NormalFormNotEmpty(c: Components, l: Locale)
    ensures NormalForm(c, l) != ""
  {
    assert |NormalForm(c, l)| >= |c.protocol + "//"|;
  }
}
