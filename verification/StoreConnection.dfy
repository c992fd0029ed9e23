/** Printing and parsing of the state store's connection URL. */
module StateStoreConnections {
  import opened Wrappers
  import opened Text
  import opened PercentEncoding
  import opened Decimals

  datatype Connection = Connection(
    host: string, port: int, password: Option<Utf8>, username: Option<Utf8>, database: int, tls: bool)

  /** The schema's constraints. */
  predicate SchemaOk(c: Connection) {
    c.host != "" && 0 < c.port <= 65535 && 0 <= c.database <= 15
  }

  // ---------------------------------------------------------------- printing

  function AuthPart(c: Connection): string {
    match (c.username, c.password)
    case (Some(u), Some(p)) => Encode(u) + ":" + Encode(p) + "@"
    case (None, Some(p)) => ":" + Encode(p) + "@"
    case (_, None) => ""
  }

  function BuildConnectionUrl(c: Connection): string
    requires SchemaOk(c)
  {
    (if c.tls then "rediss" else "redis") + "://" + AuthPart(c) + c.host + ":" + ToText(c.port)
    + (if 0 < c.database then "/" + ToText(c.database) else "")
  }

  // ---------------------------------------------------------------- parsing

  datatype Parsed = Parsed(scheme: string, username: string, password: string, hostname: string, port: string,
      pathname: string)

  function Authority(scheme: string, authority: string, pathname: string): Parsed {
    var (userinfo, hostport) := if Cut(authority, '@').Some? then Cut(authority, '@').value else ("", authority);
    var (user, password) := if Cut(userinfo, ':').Some? then Cut(userinfo, ':').value else (userinfo, "");
    var (host, port) := if Cut(hostport, ':').Some? then Cut(hostport, ':').value else (hostport, "");
    Parsed(scheme, user, password, host, port, pathname)
  }

  /** Printable characters that a host must not contain and that delimit no other part of a URL. */
  predicate Forbidden(c: char) {
    c in " <>\\^|"
  }

  predicate IsPort(port: string) {
    port == "" || (FromText(port).Some? && FromText(port).value <= 65535)
  }

  /** A host with a forbidden character, or a port that is no number of 16 bits, makes the URL invalid. */
  function Checked(p: Parsed): Option<Parsed> {
    if (exists i :: 0 <= i < |p.hostname| && Forbidden(p.hostname[i])) || !IsPort(p.port) then None else Some(p)
  }

  /**
   The URL parser on printable ASCII of the shape scheme "://" authority ["/" path], hosts being neither
   bracketed nor empty; text of another shape is refused here, whatever the parser makes of it.
   */
  function ParseUrl(url: string): Option<Parsed> {
    match Cut(url, ':')
    case None => None
    case Some((scheme, rest)) =>
      if |rest| < 2 || rest[0] != '/' || rest[1] != '/' then None
      else
        match Cut(rest[2..], '/')
        case None => Checked(Authority(scheme, rest[2..], ""))
        case Some((authority, path)) => Checked(Authority(scheme, authority, "/" + path))
  }

  datatype Error = NotAUrl | WrongProtocol(scheme: string) | MalformedCredentials | SchemaViolation

  /** Credentials that are empty text count as absent. */
  function Credential(text: string): Option<Option<Utf8>> {
    if text == "" then Some(None)
    else
      match Decode(text)
      case None => None
      case Some(b) => Some(Some(b))
  }

  /** The number of a port, 6379 if there is none; of a database, 0 if there is none or it is unreadable. */
  function PortOf(p: Parsed): nat {
    if p.port == "" then 6379 else if FromText(p.port).Some? then FromText(p.port).value else 0
  }

  function DatabaseOf(p: Parsed): nat {
    if |p.pathname| > 1 && FromText(p.pathname[1..]).Some? then FromText(p.pathname[1..]).value else 0
  }

  function ParseConnectionUrl(url: string): Result<Connection, Error> {
    match ParseUrl(url)
    case None => Err(NotAUrl)
    case Some(p) =>
      if p.scheme != "redis" && p.scheme != "rediss" then Err(WrongProtocol(p.scheme))
      else
        match (Credential(p.password), Credential(p.username))
        case (Some(password), Some(username)) =>
          var c := Connection(p.hostname, PortOf(p), password, username, DatabaseOf(p), p.scheme == "rediss");
          if SchemaOk(c) then Ok(c) else Err(SchemaViolation)
        case _ => Err(MalformedCredentials)
  }

  // ---------------------------------------------------------------- round trip

  /** Printable ASCII without a character that delimits the parts of a URL. */
  predicate CleanHost(host: string) {
    forall i :: 0 <= i < |host| ==> ' ' <= host[i] <= '~' && host[i] !in ":/@?#[]"
  }

  /** And without one that the URL parser refuses in a host. */
  predicate ValidHost(host: string) {
    forall i :: 0 <= i < |host| ==> !Forbidden(host[i])
  }

  /** What is left of a configuration after printing and parsing. */
  function Survivor(c: Connection): Connection {
    c.(password := if c.password == Some([]) then None else c.password,
       username := if c.password.None? || c.username == Some([]) then None else c.username)
  }

  lemma CredentialOfEncoded(text: Utf8)
    ensures Credential(Encode(text)) == Some(if text == [] then None else Some(text))
  {
    DecodeEncode(text);
    EncodedEmpty(text);
  }

  lemma HostPort(c: Connection)
    requires SchemaOk(c) && CleanHost(c.host)
    ensures var hp := c.host + ":" + ToText(c.port);
            && Lacks(hp, '@') && Lacks(hp, '/')
            && Cut(hp, ':') == Some((c.host, ToText(c.port)))
  {
    NumeralLacks(c.port, '@');
    NumeralLacks(c.port, '/');
    CutAt(c.host, ToText(c.port), ':');
  }

  /** The authority is taken apart into what it was put together from. */
  lemma AuthorityParts(c: Connection, scheme: string, pathname: string)
    requires SchemaOk(c) && CleanHost(c.host)
    ensures Authority(scheme, AuthPart(c) + (c.host + ":" + ToText(c.port)), pathname) ==
            Parsed(scheme, if c.username.Some? && c.password.Some? then Encode(c.username.value) else "",
                   if c.password.Some? then Encode(c.password.value) else "", c.host, ToText(c.port), pathname)
  {
    var hp := c.host + ":" + ToText(c.port);
    HostPort(c);
    if c.password.None? {
      CutNone(hp, '@');
      assert AuthPart(c) + hp == hp;
    } else {
      var user := if c.username.Some? then Encode(c.username.value) else "";
      if c.username.Some? {
        EncodedLacks(c.username.value, ':');
        EncodedLacks(c.username.value, '@');
      }
      EncodedLacks(c.password.value, '@');
      UserInfoCut(user, Encode(c.password.value), hp);
      assert AuthPart(c) + hp == (user + ":" + Encode(c.password.value)) + ['@'] + hp;
    }
  }

  lemma UserInfoCut(user: string, password: string, hp: string)
    requires Lacks(user, ':') && Lacks(user, '@') && Lacks(password, '@')
    ensures Cut((user + ":" + password) + ['@'] + hp, '@') == Some((user + ":" + password, hp))
    ensures Cut(user + ":" + password, ':') == Some((user, password))
  {
    assert Lacks(user + ":" + password, '@');
    CutAt(user + ":" + password, hp, '@');
    CutAt(user, password, ':');
  }

  lemma AuthorityLacksSlash(c: Connection)
    requires SchemaOk(c) && CleanHost(c.host)
    ensures Lacks(AuthPart(c) + (c.host + ":" + ToText(c.port)), '/')
  {
    HostPort(c);
    if c.username.Some? { EncodedLacks(c.username.value, '/'); }
    if c.password.Some? { EncodedLacks(c.password.value, '/'); }
  }

  lemma SchemeCut(scheme: string, rest: string)
    requires Lacks(scheme, ':')
    ensures Cut(scheme + "://" + rest, ':') == Some((scheme, "//" + rest))
  {
    assert scheme + "://" + rest == scheme + ":" + ("//" + rest);
    CutAt(scheme, "//" + rest, ':');
  }

  lemma PathCut(authority: string, path: string)
    requires Lacks(authority, '/') && (path == "" || path[0] == '/')
    ensures Cut(authority + path, '/') == if path == "" then None else Some((authority, path[1..]))
  {
    if path == "" {
      assert authority + path == authority;
      CutNone(authority, '/');
    } else {
      assert authority + path == authority + "/" + path[1..];
      CutAt(authority, path[1..], '/');
    }
  }

  lemma RestRead(url: string, scheme: string, rest: string)
    requires Cut(url, ':') == Some((scheme, "//" + rest))
    ensures ParseUrl(url) == match Cut(rest, '/')
                             case None => Checked(Authority(scheme, rest, ""))
                             case Some((authority, path)) => Checked(Authority(scheme, authority, "/" + path))
  {
    assert ("//" + rest)[2..] == rest;
  }

  /** Putting a URL together from a scheme, an authority and a path, and taking it apart again. */
  lemma UrlRead(scheme: string, authority: string, path: string)
    requires Lacks(scheme, ':') && Lacks(authority, '/') && (path == "" || path[0] == '/')
    ensures ParseUrl(scheme + "://" + (authority + path)) == Checked(Authority(scheme, authority, path))
  {
    SchemeCut(scheme, authority + path);
    PathCut(authority, path);
    RestRead(scheme + "://" + (authority + path), scheme, authority + path);
    if path == "" { assert authority + path == authority; } else { assert "/" + path[1..] == path; }
  }

  function PathText(path: Option<string>): string {
    if path.Some? then "/" + path.value else ""
  }

  function Scheme(c: Connection): string {
    if c.tls then "rediss" else "redis"
  }

  function DatabasePath(c: Connection): Option<string>
    requires SchemaOk(c)
  {
    if 0 < c.database then Some(ToText(c.database)) else None
  }

  lemma BuiltText(c: Connection, authority: string)
    requires SchemaOk(c) && authority == AuthPart(c) + (c.host + ":" + ToText(c.port))
    ensures BuildConnectionUrl(c) == Scheme(c) + "://" + (authority + PathText(DatabasePath(c)))
  {
    Regroup(Scheme(c) + "://", AuthPart(c), c.host, ToText(c.port), PathText(DatabasePath(c)));
  }

  lemma Regroup(a: string, b: string, h: string, p: string, d: string)
    ensures a + b + h + ":" + p + d == a + (b + (h + ":" + p) + d)
  {}

  lemma DatabaseRead(c: Connection, pathname: string)
    requires SchemaOk(c) && pathname == PathText(DatabasePath(c))
    ensures |pathname| > 1 && FromText(pathname[1..]).Some? ==> FromText(pathname[1..]).value == c.database
    ensures |pathname| <= 1 || FromText(pathname[1..]).None? ==> c.database == 0
  {
    if 0 < c.database {
      FromToText(c.database);
      assert pathname[1..] == ToText(c.database);
    }
  }

  /** Reading the parts back. */
  lemma ReadBack(c: Connection, url: string, p: Parsed)
    requires SchemaOk(c) && ParseUrl(url) == Some(p)
    requires p.scheme == Scheme(c) && p.hostname == c.host && p.port == ToText(c.port)
    requires Credential(p.password) == Some(Survivor(c).password)
             && Credential(p.username) == Some(Survivor(c).username)
    requires p.pathname == PathText(DatabasePath(c))
    ensures ParseConnectionUrl(url) == Ok(Survivor(c))
  {
    FromToText(c.port);
    DatabaseRead(c, p.pathname);
  }

  lemma CheckedBuilt(c: Connection, p: Parsed)
    requires SchemaOk(c) && p.hostname == c.host && p.port == ToText(c.port)
    ensures Checked(p) == if ValidHost(c.host) then Some(p) else None
  {
    FromToText(c.port);
  }

  lemma BuiltRead(c: Connection)
    requires SchemaOk(c) && CleanHost(c.host)
    ensures ParseUrl(BuildConnectionUrl(c)) ==
            Checked(Parsed(Scheme(c), if c.username.Some? && c.password.Some? then Encode(c.username.value) else "",
                           if c.password.Some? then Encode(c.password.value) else "", c.host, ToText(c.port),
                           PathText(DatabasePath(c))))
  {
    var authority := AuthPart(c) + (c.host + ":" + ToText(c.port));
    AuthorityLacksSlash(c);
    BuiltText(c, authority);
    UrlRead(Scheme(c), authority, PathText(DatabasePath(c)));
    AuthorityParts(c, Scheme(c), PathText(DatabasePath(c)));
  }

  /**
   A printed URL is refused if the host holds a forbidden character; otherwise parsing it gives back everything but
   empty credentials and a username without a password.
   */
  lemma ParseBuild(c: Connection)
    requires SchemaOk(c) && CleanHost(c.host)
    ensures ParseConnectionUrl(BuildConnectionUrl(c)) == if ValidHost(c.host) then Ok(Survivor(c)) else Err(NotAUrl)
  {
    var user := if c.username.Some? && c.password.Some? then Encode(c.username.value) else "";
    var password := if c.password.Some? then Encode(c.password.value) else "";
    var p := Parsed(Scheme(c), user, password, c.host, ToText(c.port), PathText(DatabasePath(c)));
    BuiltRead(c);
    CheckedBuilt(c, p);
    if c.password.Some? { CredentialOfEncoded(c.password.value); }
    if c.username.Some? { CredentialOfEncoded(c.username.value); }
    if ValidHost(c.host) { ReadBack(c, BuildConnectionUrl(c), p); }
  }

  /**
   So the round trip is exact if and only if the host holds no forbidden character, given credentials are not
   empty and a username comes with a password.
   */
  lemma RoundTripIff(c: Connection)
    requires SchemaOk(c) && CleanHost(c.host)
    ensures ParseConnectionUrl(BuildConnectionUrl(c)) == Ok(c) <==>
            && ValidHost(c.host)
            && c.password != Some([]) && c.username != Some([]) && (c.username.Some? ==> c.password.Some?)
  {
    ParseBuild(c);
  }

  // ---------------------------------------------------------------- what a text is read as

  /** Credentials as they stand in a URL: without a character that delimits them. */
  predicate CleanAuth(auth: Option<(string, string)>) {
    auth.Some? ==>
      && Lacks(auth.value.0, ':') && Lacks(auth.value.0, '@') && Lacks(auth.value.0, '/')
      && Lacks(auth.value.1, '@') && Lacks(auth.value.1, '/')
  }

  function AuthText(auth: Option<(string, string)>): string {
    if auth.Some? then auth.value.0 + ":" + auth.value.1 + "@" else ""
  }

  function PortText(port: Option<nat>): string {
    if port.Some? then ":" + ToText(port.value) else ""
  }

  lemma PlaceCut(host: string, port: Option<nat>)
    requires CleanHost(host)
    ensures var place := host + PortText(port);
            && Lacks(place, '@') && Lacks(place, '/')
            && Cut(place, ':') == if port.Some? then Some((host, ToText(port.value))) else None
  {
    if port.Some? {
      NumeralLacks(port.value, '@');
      NumeralLacks(port.value, '/');
      assert host + PortText(port) == host + ":" + ToText(port.value);
      CutAt(host, ToText(port.value), ':');
    } else {
      CutNone(host, ':');
      assert host + PortText(port) == host;
    }
  }

  lemma AuthCut(auth: Option<(string, string)>, place: string)
    requires CleanAuth(auth) && Lacks(place, '@') && Lacks(place, '/')
    ensures Lacks(AuthText(auth) + place, '/')
    ensures Cut(AuthText(auth) + place, '@') ==
            if auth.Some? then Some((auth.value.0 + ":" + auth.value.1, place)) else None
    ensures auth.Some? ==> Cut(auth.value.0 + ":" + auth.value.1, ':') == auth
  {
    if auth.Some? {
      UserInfoCut(auth.value.0, auth.value.1, place);
      assert AuthText(auth) + place == (auth.value.0 + ":" + auth.value.1) + ['@'] + place;
    } else {
      CutNone(place, '@');
      assert AuthText(auth) + place == place;
    }
  }

  lemma AuthorityRead(scheme: string, auth: Option<(string, string)>, host: string, port: Option<nat>, path: string)
    requires CleanHost(host) && CleanAuth(auth)
    ensures Lacks(AuthText(auth) + (host + PortText(port)), '/')
    ensures Authority(scheme, AuthText(auth) + (host + PortText(port)), path) ==
            Parsed(scheme, if auth.Some? then auth.value.0 else "", if auth.Some? then auth.value.1 else "",
                   host, if port.Some? then ToText(port.value) else "", path)
  {
    PlaceCut(host, port);
    AuthCut(auth, host + PortText(port));
    if auth.None? { assert AuthText(auth) + (host + PortText(port)) == host + PortText(port); }
    if port.None? { assert host + PortText(port) == host; }
  }

  /** The values read off the parts: 6379 and 0 unless given. */
  lemma NumbersRead(p: Parsed, port: Option<nat>, database: Option<nat>)
    requires p.port == if port.Some? then ToText(port.value) else ""
    requires p.pathname == if database.Some? then "/" + ToText(database.value) else ""
    ensures PortOf(p) == if port.Some? then port.value else 6379
    ensures DatabaseOf(p) == if database.Some? then database.value else 0
  {
    if port.Some? { FromToText(port.value); }
    if database.Some? {
      FromToText(database.value);
      assert p.pathname[1..] == ToText(database.value);
    }
  }

  lemma ConnectionRead(url: string, p: Parsed, number: nat, db: nat)
    requires ParseUrl(url) == Some(p) && p.hostname != "" && number == PortOf(p) && db == DatabaseOf(p)
    ensures ParseConnectionUrl(url) ==
            if p.scheme != "redis" && p.scheme != "rediss" then Err(WrongProtocol(p.scheme))
            else if Decode(p.username).None? || Decode(p.password).None? then Err(MalformedCredentials)
            else if number < 1 || 65535 < number || 15 < db then Err(SchemaViolation)
            else Ok(Connection(p.hostname, number, if p.password == "" then None else Decode(p.password),
                               if p.username == "" then None else Decode(p.username), db, p.scheme == "rediss"))
  {
    CredentialIs(p.username);
    CredentialIs(p.password);
  }

  lemma CredentialIs(text: string)
    ensures Credential(text) ==
            if Decode(text).None? then None else Some(if text == "" then None else Decode(text))
  {}

  lemma CheckedIs(p: Parsed, port: Option<nat>)
    requires p.port == if port.Some? then ToText(port.value) else ""
    ensures Checked(p) ==
            if (exists i :: 0 <= i < |p.hostname| && p.hostname[i] in " <>\\^|") || (port.Some? && 65535 < port.value)
            then None else Some(p)
  {
    if port.Some? { FromToText(port.value); }
  }

  /**
   What parts of a URL are read as: the protocol, the credentials and the limits of the schema are checked, in this
   order.
   */
  function ReadAs(scheme: string, user: string, password: string, host: string, number: nat, db: nat)
    : Result<Connection, Error>
  {
    if (exists i :: 0 <= i < |host| && host[i] in " <>\\^|") || 65535 < number then Err(NotAUrl)
    else if scheme != "redis" && scheme != "rediss" then Err(WrongProtocol(scheme))
    else if Decode(user).None? || Decode(password).None? then Err(MalformedCredentials)
    else if number == 0 || 15 < db then Err(SchemaViolation)
    else Ok(Connection(host, number, if password == "" then None else Decode(password),
                       if user == "" then None else Decode(user), db, scheme == "rediss"))
  }

  lemma PartsMean(url: string, p: Parsed, port: Option<nat>, database: Option<nat>, number: nat, db: nat)
    requires ParseUrl(url) == Checked(p) && p.hostname != ""
    requires p.port == if port.Some? then ToText(port.value) else ""
    requires p.pathname == if database.Some? then "/" + ToText(database.value) else ""
    requires number == if port.Some? then port.value else 6379
    requires db == if database.Some? then database.value else 0
    ensures ParseConnectionUrl(url) == ReadAs(p.scheme, p.username, p.password, p.hostname, number, db)
  {
    CheckedIs(p, port);
    NumbersRead(p, port, database);
    if Checked(p).Some? { ConnectionRead(url, p, number, db); }
  }

  lemma UrlOfParts(scheme: string, auth: Option<(string, string)>, host: string, port: Option<nat>, path: string)
    requires Lacks(scheme, ':') && CleanHost(host) && CleanAuth(auth) && (path == "" || path[0] == '/')
    ensures ParseUrl(scheme + "://" + (AuthText(auth) + (host + PortText(port))) + path) ==
            Checked(Parsed(scheme, if auth.Some? then auth.value.0 else "", if auth.Some? then auth.value.1 else "",
                           host, if port.Some? then ToText(port.value) else "", path))
  {
    var authority := AuthText(auth) + (host + PortText(port));
    AuthorityRead(scheme, auth, host, port, path);
    UrlRead(scheme, authority, path);
    assert scheme + "://" + authority + path == scheme + "://" + (authority + path);
  }

  /** So a text of these parts is read as they are, with port 6379 and database 0 unless given. */
  lemma ParseMeans(scheme: string, auth: Option<(string, string)>, host: string, port: Option<nat>,
      database: Option<nat>)
    requires scheme != "" && Lacks(scheme, ':') && host != "" && CleanHost(host) && CleanAuth(auth)
    ensures ParseConnectionUrl(scheme + "://" + (AuthText(auth) + (host + PortText(port)))
                               + (if database.Some? then "/" + ToText(database.value) else "")) ==
            ReadAs(scheme, if auth.Some? then auth.value.0 else "", if auth.Some? then auth.value.1 else "", host,
                   if port.Some? then port.value else 6379, if database.Some? then database.value else 0)
  {
    var path := if database.Some? then "/" + ToText(database.value) else "";
    UrlOfParts(scheme, auth, host, port, path);
    var p := Parsed(scheme, if auth.Some? then auth.value.0 else "", if auth.Some? then auth.value.1 else "",
                    host, if port.Some? then ToText(port.value) else "", path);
    PartsMean(scheme + "://" + (AuthText(auth) + (host + PortText(port))) + path, p, port, database,
              if port.Some? then port.value else 6379, if database.Some? then database.value else 0);
  }
}
