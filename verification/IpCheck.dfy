/**
 The public address check, and how it reads the spellings of an IPv6 address: the two forms
 made of hexadecimal groups and the mixed one that ends in dotted text (section 2.2 of RFC 4291).
 */
module IpChecks {
  import opened Wrappers
  import opened Text
  import opened IpRanges
  import opened Bits
  import opened Ipv6

  // ---------------------------------------------------------------- the checks

  /** The bytes behind an address text. */
  function AddressBytes(address: string): seq<Byte> {
    BytesOf(Split(ExpandIpv6(address), ':'))
  }

  datatype Ipv6Range = Ipv6Range(address: string, prefixLen: nat, reason: Reason)

  const BLOCKED_IPV6: seq<Ipv6Range> := [
    Ipv6Range("::1", 128, Loopback),
    Ipv6Range("::", 128, Unspecified),
    Ipv6Range("fc00::", 7, PrivateIpv6),
    Ipv6Range("fe80::", 10, LinkLocal)]

  /** The reason of the first range whose prefix the bytes share. */
  ghost function PrefixVerdict(bytes: seq<Byte>, ranges: seq<Ipv6Range>): Verdict {
    if ranges == [] then Allowed
    else if SamePrefix(bytes, AddressBytes(ranges[0].address), ranges[0].prefixLen) then Blocked(ranges[0].reason)
    else PrefixVerdict(bytes, ranges[1..])
  }

  ghost function Ipv6Verdict(address: string): Verdict {
    PrefixVerdict(AddressBytes(ToLower(address)), BLOCKED_IPV6)
  }

  method ScanIpv6(bytes: seq<Byte>, ranges: seq<Ipv6Range>) returns (v: Verdict)
    requires forall r <- ranges :: r.prefixLen <= 128
    ensures v == PrefixVerdict(bytes, ranges)
  {
    for i := 0 to |ranges|
      invariant PrefixVerdict(bytes, ranges) == PrefixVerdict(bytes, ranges[i..])
    {
      assert ranges[i..][1..] == ranges[i + 1..];
      assert ranges[i] in ranges;
      var net := Ipv6ToBytes(ExpandIpv6(ranges[i].address));
      var same := Ipv6MatchesPrefix(bytes, net, ranges[i].prefixLen);
      if same {
        return Blocked(ranges[i].reason);
      }
    }
    assert ranges[|ranges|..] == [];
    return Allowed;
  }

  method CheckIpv6(address: string) returns (v: Verdict)
    ensures v == Ipv6Verdict(address)
  {
    var bytes := Ipv6ToBytes(ExpandIpv6(ToLower(address)));
    BlockedLengths(BLOCKED_IPV6);
    v := ScanIpv6(bytes, BLOCKED_IPV6);
  }

  lemma BlockedLengths(ranges: seq<Ipv6Range>)
    requires ranges == BLOCKED_IPV6
    ensures forall r <- ranges :: r.prefixLen <= 128
  {}

  const MAPPED := "::ffff:"

  predicate IsMappedText(address: string) {
    |MAPPED| <= |address| && ToLower(address[..|MAPPED|]) == MAPPED && IsIpv4(address[|MAPPED|..])
  }

  function NormalizeIpv4Mapped(address: string): string {
    if IsMappedText(address) then address[|MAPPED|..] else address
  }

  ghost function IpVerdict(address: string): Verdict {
    var normalized := NormalizeIpv4Mapped(address);
    match ParseDotted(normalized)
    case Some(o) => FirstMatch(BLOCKED, ToWord(o))
    case None => Ipv6Verdict(normalized)
  }

  method CheckIp(address: string) returns (v: Verdict)
    ensures v == IpVerdict(address)
  {
    var normalized := NormalizeIpv4Mapped(address);
    var dotted := ParseDotted(normalized);
    if dotted.Some? {
      v := CheckIpv4(dotted.value);
    } else {
      v := CheckIpv6(normalized);
    }
  }

  /** Dotted text gets the verdict of its octets, with or without the IPv4-mapped prefix. */
  lemma DottedVerdict(address: string, o: Dotted, i: nat)
    requires ParseDotted(address) == Some(o) && Octets(o) && i < 9
    ensures IpVerdict(address).Blocked? <==> exists k :: 0 <= k < 9 && InRange(k, o)
    ensures InRange(i, o) ==> IpVerdict(address) == Blocked(ReasonOf(i))
    ensures IpVerdict(MAPPED + address) == IpVerdict(address)
  {
    Ipv4ByOctets(o, i);
    MappedIsUnwrapped(address, o);
  }

  lemma MappedIsUnwrapped(address: string, o: Dotted)
    requires ParseDotted(address) == Some(o)
    ensures NormalizeIpv4Mapped(MAPPED + address) == address == NormalizeIpv4Mapped(address)
  {
    var mapped := MAPPED + address;
    assert mapped[..|MAPPED|] == MAPPED && mapped[|MAPPED|..] == address;
    assert ToLower(MAPPED) == MAPPED;
    if |MAPPED| <= |address| && ToLower(address[..|MAPPED|]) == MAPPED {
      NoColonInDotted(address, o);
    }
  }

  lemma NoColonInDotted(address: string, o: Dotted)
    requires ParseDotted(address) == Some(o) && |MAPPED| <= |address|
    ensures ToLower(address[..|MAPPED|]) != MAPPED
  {
    DottedIsGroup(address);
    assert address[..|MAPPED|][0] == address[0];
    assert ToLower(address[..|MAPPED|])[0] == LowerChar(address[0]);
  }

  // ---------------------------------------------------------------- spellings

  predicate IsHex(c: char) {
    IsDigit(c) || 'a' <= c <= 'f' || 'A' <= c <= 'F'
  }

  predicate GroupChar(c: char) {
    IsHex(c) || c == '.'
  }

  /** Up to four hexadecimal digits, alone or before a dot and more of both. */
  predicate IsGroup(g: string) {
    && g != "" && (|g| <= 4 || g[1] == '.' || g[2] == '.' || g[3] == '.')
    && forall i :: 0 <= i < |g| ==> GroupChar(g[i])
  }

  predicate AreGroups(gs: seq<string>) {
    forall i :: 0 <= i < |gs| ==> IsGroup(gs[i])
  }

  /** Up to eight groups, or some with "::" standing for missing ones, which are zero. */
  datatype Spelling = Full(groups: seq<string>) | Short(left: seq<string>, right: seq<string>)
  {
    predicate Valid() {
      match this
      case Full(gs) => 2 <= |gs| <= 8 && AreGroups(gs)
      case Short(l, r) => |l| + |r| <= 8 && AreGroups(l) && AreGroups(r)
    }

    function Text(): string {
      match this
      case Full(gs) => Join(gs, ':')
      case Short(l, r) => Join(l, ':') + "::" + Join(r, ':')
    }

    /** The groups it is read as; dotted text counts as one. */
    function Expanded(): seq<string> {
      match this
      case Full(gs) => gs
      case Short(l, r) => l + Zeros(Missing(l, r)) + r
    }
  }

  function Values(gs: seq<string>): seq<Group> {
    if gs == [] then [] else [ParseHex(gs[0], 0)] + Values(gs[1..])
  }

  // ---------------------------------------------------------------- text without "::"

  /** No "::" inside, and no colon at either end. */
  predicate Clean(s: string) {
    s != "" && s[0] != ':' && s[|s| - 1] != ':' && FindDouble(s) == None
  }

  lemma {:induction false} NoColonClean(s: string)
    requires s != "" && Lacks(s, ':')
    ensures Clean(s)
  {
    if |s| > 1 { NoColonClean(s[1..]); }
  }

  lemma {:induction false} CleanCat(a: string, b: string)
    requires Clean(a) && Clean(b)
    ensures Clean(a + ":" + b)
  {
    if |a| == 1 {
      assert (a + ":" + b)[1..] == ":" + b;
      assert (":" + b)[1..] == b;
    } else {
      assert (a + ":" + b)[1..] == a[1..] + ":" + b;
      if a[1] == ':' {
        ColonCat(a[1..], b);
      } else {
        CleanCat(a[1..], b);
      }
    }
  }

  lemma {:induction false} ColonCat(a: string, b: string)
    requires a != "" && a[|a| - 1] != ':' && FindDouble(a) == None && Clean(b)
    ensures FindDouble(a + ":" + b) == None
  {
    assert (a + ":" + b)[1..] == a[1..] + ":" + b;
    if |a| == 1 {
      assert a[1..] + ":" + b == ":" + b;
      assert (":" + b)[1..] == b;
    } else {
      ColonCat(a[1..], b);
    }
  }

  lemma GroupLacksColon(g: string)
    requires IsGroup(g)
    ensures Lacks(g, ':') && Clean(g)
  {
    NoColonClean(g);
  }

  lemma {:induction false} JoinClean(gs: seq<string>)
    requires gs != [] && AreGroups(gs)
    ensures Clean(Join(gs, ':'))
  {
    GroupLacksColon(gs[0]);
    if |gs| > 1 {
      JoinClean(gs[1..]);
      CleanCat(gs[0], Join(gs[1..], ':'));
    }
  }

  /** The first "::" after clean text is where it was put. */
  lemma {:induction false} DoubleAfter(a: string, b: string)
    requires a == "" || (a[|a| - 1] != ':' && FindDouble(a) == None)
    ensures FindDouble(a + "::" + b) == Some(|a|)
  {
    if a == "" {
      assert a + "::" + b == "::" + b;
    } else {
      assert (a + "::" + b)[1..] == a[1..] + "::" + b;
      DoubleAfter(a[1..], b);
    }
  }

  lemma PartsOfJoin(gs: seq<string>)
    requires AreGroups(gs)
    ensures Parts(Join(gs, ':')) == gs
  {
    if gs != [] {
      JoinClean(gs);
      forall g | g in gs ensures Lacks(g, ':') { GroupLacksColon(g); }
      SplitJoin(gs, ':');
    }
  }

  /** Where clean text meets "::" and more clean text, expansion cuts there. */
  lemma GroupsOfCut(a: string, b: string)
    requires a == "" || (a[0] != '[' && a[|a| - 1] != ':' && FindDouble(a) == None)
    requires FindDouble(b) == None
    ensures Groups(a + "::" + b) == Filled(Parts(a), Parts(b))
  {
    var text := a + "::" + b;
    assert FindDouble(text) == Some(|a|) by { DoubleAfter(a, b); }
    assert text[..|a|] == a && text[|a| + 2..] == b;
    assert Unbracketed(text) == text by { assert text[0] != '['; }
    assert UpToDouble(b) == b;
  }

  lemma JoinHasNoDouble(gs: seq<string>)
    requires AreGroups(gs)
    ensures FindDouble(Join(gs, ':')) == None
    ensures Join(gs, ':') == "" || (Join(gs, ':')[0] != '[' && Join(gs, ':')[|Join(gs, ':')| - 1] != ':')
  {
    if gs != [] {
      JoinClean(gs);
      FirstOfJoin(gs);
    }
  }

  lemma GroupsOfShort(l: seq<string>, r: seq<string>)
    requires AreGroups(l) && AreGroups(r)
    ensures Groups(Join(l, ':') + "::" + Join(r, ':')) == Filled(l, r)
  {
    JoinHasNoDouble(l);
    JoinHasNoDouble(r);
    GroupsOfCut(Join(l, ':'), Join(r, ':'));
    PartsOfJoin(l);
    PartsOfJoin(r);
  }

  lemma FirstOfJoin(gs: seq<string>)
    requires gs != [] && AreGroups(gs)
    ensures Join(gs, ':') != "" && Join(gs, ':')[0] == gs[0][0] != '['
  {}

  lemma GroupsOfFull(gs: seq<string>)
    requires Full(gs).Valid()
    ensures Groups(Join(gs, ':')) == Padded(gs)
  {
    JoinClean(gs);
    FirstOfJoin(gs);
    forall g | g in gs ensures Lacks(g, ':') { GroupLacksColon(g); }
    SplitJoin(gs, ':');
  }

  // ---------------------------------------------------------------- padding and case

  lemma {:induction false} PaddedIs(gs: seq<string>)
    requires AreGroups(gs)
    ensures |Padded(gs)| == |gs| && AreGroups(Padded(gs)) && Values(Padded(gs)) == Values(gs)
  {
    if gs != [] {
      PaddedIs(gs[1..]);
      PadGroup(gs[0]);
      var rest := Padded(gs[1..]);
      assert forall i :: 0 <= i < |gs| ==> Padded(gs)[i] == if i == 0 then PadStart(gs[0], 4, '0') else rest[i - 1];
    }
  }

  lemma {:induction false} PadGroup(g: string)
    requires IsGroup(g)
    ensures IsGroup(PadStart(g, 4, '0')) && ParseHex(PadStart(g, 4, '0'), 0) == ParseHex(g, 0)
    decreases 4 - |g|
  {
    if |g| < 4 {
      var z := ['0'] + g;
      assert z[1..] == g;
      PadGroup(z);
    }
  }

  lemma {:induction false} ZeroGroups(n: int)
    ensures AreGroups(Zeros(n)) && |Zeros(n)| == (if n <= 0 then 0 else n)
  {
    if n > 0 {
      ZeroGroups(n - 1);
      assert Zeros(n)[0] == "0000";
    }
  }

  lemma {:induction false} ValuesAppend(a: seq<string>, b: seq<string>)
    ensures Values(a + b) == Values(a) + Values(b)
  {
    if a == [] {
      assert a + b == b;
    } else {
      assert (a + b)[1..] == a[1..] + b;
      ValuesAppend(a[1..], b);
    }
  }

  lemma ValuesOfThree(a: seq<string>, b: seq<string>, c: seq<string>)
    ensures Values(a + b + c) == Values(a) + Values(b) + Values(c)
  {
    ValuesAppend(a + b, c);
    ValuesAppend(a, b);
  }

  lemma GroupsOfThree(a: seq<string>, b: seq<string>, c: seq<string>)
    requires AreGroups(a) && AreGroups(b) && AreGroups(c)
    ensures AreGroups(a + b + c)
  {}

  lemma FilledIs(l: seq<string>, r: seq<string>)
    requires AreGroups(l) && AreGroups(r) && |l| + |r| <= 8
    ensures Filled(l, r) != [] && AreGroups(Filled(l, r))
    ensures Values(Filled(l, r)) == Values(l + Zeros(Missing(l, r)) + r)
  {
    var z := Zeros(Missing(l, r));
    ZeroGroups(Missing(l, r));
    PaddedIs(l);
    PaddedIs(r);
    ValuesOfThree(Padded(l), z, Padded(r));
    ValuesOfThree(l, z, r);
    GroupsOfThree(Padded(l), z, Padded(r));
  }

  lemma ExpansionOfFull(gs: seq<string>)
    requires Full(gs).Valid()
    ensures var x := Groups(Join(gs, ':')); x != [] && AreGroups(x) && Values(x) == Values(gs)
  {
    GroupsOfFull(gs);
    PaddedIs(gs);
  }

  lemma ExpansionOfShort(l: seq<string>, r: seq<string>)
    requires AreGroups(l) && AreGroups(r) && |l| + |r| <= 8
    ensures var x := Groups(Join(l, ':') + "::" + Join(r, ':'));
            x != [] && AreGroups(x) && Values(x) == Values(l + Zeros(Missing(l, r)) + r)
  {
    GroupsOfShort(l, r);
    FilledIs(l, r);
  }

  function LowerAll(gs: seq<string>): seq<string> {
    if gs == [] then [] else [ToLower(gs[0])] + LowerAll(gs[1..])
  }

  function LowerSpelling(sp: Spelling): Spelling {
    match sp
    case Full(gs) => Full(LowerAll(gs))
    case Short(l, r) => Short(LowerAll(l), LowerAll(r))
  }

  lemma {:induction false} LowerJoin(gs: seq<string>)
    ensures ToLower(Join(gs, ':')) == Join(LowerAll(gs), ':')
  {
    if |gs| > 1 {
      LowerJoin(gs[1..]);
      LowerAppend(gs[0] + ":", Join(gs[1..], ':'));
      LowerAppend(gs[0], ":");
      assert ToLower(":") == ":";
      assert LowerAll(gs)[1..] == LowerAll(gs[1..]);
    } else if |gs| == 1 {
      assert LowerAll(gs) == [ToLower(gs[0])];
    }
  }

  lemma LowerDigit(c: char)
    ensures HexValue(LowerChar(c)) == HexValue(c)
  {}

  lemma {:induction false} LowerHex(g: string, acc: Group)
    ensures ParseHex(ToLower(g), acc) == ParseHex(g, acc)
  {
    if g != "" {
      LowerDigit(g[0]);
      LowerHex(g[1..], if HexValue(g[0]).Some? then (acc << 4) | HexValue(g[0]).value else acc);
      assert ToLower(g)[1..] == ToLower(g[1..]);
    }
  }

  lemma LowerGroup(g: string)
    requires IsGroup(g)
    ensures IsGroup(ToLower(g))
  {
    LowerChars(g);
    forall i | 0 <= i < |g| ensures GroupChar(ToLower(g)[i]) { assert GroupChar(g[i]); }
  }

  lemma {:induction false} LowerAllIs(gs: seq<string>)
    requires AreGroups(gs)
    ensures |LowerAll(gs)| == |gs| && AreGroups(LowerAll(gs)) && Values(LowerAll(gs)) == Values(gs)
  {
    if gs != [] {
      LowerAllIs(gs[1..]);
      LowerHex(gs[0], 0);
      LowerGroup(gs[0]);
      assert forall i :: 0 <= i < |gs| ==>
        LowerAll(gs)[i] == if i == 0 then ToLower(gs[0]) else LowerAll(gs[1..])[i - 1];
    }
  }

  lemma LowerText(sp: Spelling)
    requires sp.Valid()
    ensures LowerSpelling(sp).Valid() && ToLower(sp.Text()) == LowerSpelling(sp).Text()
    ensures Values(LowerSpelling(sp).Expanded()) == Values(sp.Expanded())
  {
    match sp
    case Full(gs) =>
      LowerJoin(gs);
      LowerAllIs(gs);
    case Short(l, r) =>
      LowerShort(l, r);
      LowerShortIs(l, r);
  }

  lemma LowerShortIs(l: seq<string>, r: seq<string>)
    requires Short(l, r).Valid()
    ensures Short(LowerAll(l), LowerAll(r)).Valid()
    ensures Values(Short(LowerAll(l), LowerAll(r)).Expanded()) == Values(Short(l, r).Expanded())
  {
    LowerAllIs(l);
    LowerAllIs(r);
    assert Missing(LowerAll(l), LowerAll(r)) == Missing(l, r);
    LowerMiddle(l, Zeros(Missing(l, r)), r);
  }

  lemma LowerMiddle(l: seq<string>, z: seq<string>, r: seq<string>)
    requires AreGroups(l) && AreGroups(r)
    ensures Values(LowerAll(l) + z + LowerAll(r)) == Values(l + z + r)
  {
    LowerAllIs(l);
    LowerAllIs(r);
    ValuesOfThree(l, z, r);
    ValuesOfThree(LowerAll(l), z, LowerAll(r));
  }

  lemma LowerShort(l: seq<string>, r: seq<string>)
    ensures ToLower(Join(l, ':') + "::" + Join(r, ':')) == Join(LowerAll(l), ':') + "::" + Join(LowerAll(r), ':')
  {
    LowerJoin(l);
    LowerJoin(r);
    LowerAppend(Join(l, ':') + "::", Join(r, ':'));
    LowerAppend(Join(l, ':'), "::");
    assert ToLower("::") == "::" by { assert "::"[1..] == ":"; }
  }

  // ---------------------------------------------------------------- the verdict

  function BytesOfValues(vs: seq<Group>): seq<Byte> {
    if vs == [] then []
    else BytesOfValues(vs[..|vs| - 1]) + [(vs[|vs| - 1] >> 8) as Byte] + [(vs[|vs| - 1] & 0xFF) as Byte]
  }

  lemma {:induction false} BytesByValue(gs: seq<string>)
    ensures |Values(gs)| == |gs| && BytesOf(gs) == BytesOfValues(Values(gs))
  {
    if gs != [] {
      var n := |gs| - 1;
      BytesByValue(gs[..n]);
      assert gs == gs[..n] + [gs[n]];
      ValuesAppend(gs[..n], [gs[n]]);
      assert Values([gs[n]]) == [ParseHex(gs[n], 0)];
      assert Values(gs)[..n] == Values(gs[..n]);
    }
  }

  lemma BytesOfText(text: string, eight: seq<string>)
    requires Groups(text) != [] && AreGroups(Groups(text)) && Values(Groups(text)) == Values(eight)
    ensures AddressBytes(text) == BytesOfValues(Values(eight))
  {
    var gs := Groups(text);
    forall g | g in gs ensures Lacks(g, ':') { GroupLacksColon(g); }
    SplitJoin(gs, ':');
    BytesByValue(gs);
  }

  lemma BytesOfFull(gs: seq<string>, text: string)
    requires Full(gs).Valid() && text == Join(gs, ':')
    ensures AddressBytes(text) == BytesOfValues(Values(gs))
  {
    ExpansionOfFull(gs);
    BytesOfText(text, gs);
  }

  lemma BytesOfShort(l: seq<string>, r: seq<string>, n: int, text: string, eight: seq<string>)
    requires AreGroups(l) && AreGroups(r) && |l| + |r| <= 8 && n == Missing(l, r)
    requires text == Join(l, ':') + "::" + Join(r, ':') && eight == l + Zeros(n) + r
    ensures AddressBytes(text) == BytesOfValues(Values(eight))
  {
    ExpansionOfShort(l, r);
    BytesOfText(text, eight);
  }

  /** Expansion and conversion find the groups a spelling is read as ... */
  lemma BytesOfSpelling(sp: Spelling, text: string, groups: seq<string>)
    requires sp.Valid() && text == sp.Text() && groups == sp.Expanded()
    ensures AddressBytes(text) == BytesOfValues(Values(groups))
  {
    match sp
    case Full(gs) => BytesOfFull(gs, text);
    case Short(l, r) => BytesOfShort(l, r, Missing(l, r), text, groups);
  }

  /** ... in whatever case they are written: the bytes are those of the group values, high byte first. */
  lemma SpellingBytes(sp: Spelling)
    requires sp.Valid()
    ensures AddressBytes(ToLower(sp.Text())) == BytesOfValues(Values(sp.Expanded()))
  {
    LowerText(sp);
    BytesOfSpelling(LowerSpelling(sp), LowerSpelling(sp).Text(), LowerSpelling(sp).Expanded());
  }

  // ---------------------------------------------------------------- dotted text

  lemma OctetIsDigits(s: string)
    requires ParseOctet(s).Some?
    ensures 1 <= |s| <= 3 && Digits(s)
  {}

  /** Text whose parts are digits has nothing but digits and dots. */
  lemma {:induction false} PartsAreDigits(s: string)
    requires forall k :: 0 <= k < |Split(s, '.')| ==> Digits(Split(s, '.')[k])
    ensures forall i :: 0 <= i < |s| ==> s[i] == '.' || IsDigit(s[i])
  {
    if s != "" {
      var parts, rest := Split(s, '.'), Split(s[1..], '.');
      forall k | 0 <= k < |rest| ensures Digits(rest[k]) {
        if s[0] == '.' {
          assert parts[k + 1] == rest[k];
        } else if k == 0 {
          assert forall j :: 0 <= j < |rest[0]| ==> parts[0][j + 1] == rest[0][j];
        } else {
          assert parts[k] == rest[k];
        }
      }
      PartsAreDigits(s[1..]);
      if s[0] != '.' { assert parts[0][0] == s[0]; }
      forall i | 0 <= i < |s| ensures s[i] == '.' || IsDigit(s[i]) {
        if i > 0 { assert s[i] == s[1..][i - 1]; }
      }
    }
  }

  lemma {:induction false} FirstDot(s: string)
    requires |Split(s, '.')| > 1
    ensures var n := |Split(s, '.')[0]|; n < |s| && s[n] == '.'
  {
    if s != "" && s[0] != '.' { FirstDot(s[1..]); }
  }

  lemma DottedParts(s: string)
    requires ParseDotted(s).Some?
    ensures forall k :: 0 <= k < |Split(s, '.')| ==> 1 <= |Split(s, '.')[k]| <= 3 && Digits(Split(s, '.')[k])
  {
    var parts := Split(s, '.');
    assert |parts| == 4;
    OctetIsDigits(parts[0]);
    OctetIsDigits(parts[1]);
    OctetIsDigits(parts[2]);
    OctetIsDigits(parts[3]);
  }

  /** Dotted text, as the last group of the mixed form. */
  lemma DottedIsGroup(s: string)
    requires ParseDotted(s).Some?
    ensures IsGroup(s) && Lacks(s, ':')
  {
    DottedParts(s);
    PartsAreDigits(s);
    FirstDot(s);
    GroupLacksColon(s);
  }

  // ---------------------------------------------------------------- the verdict of a spelling

  lemma SpellingHasColon(sp: Spelling)
    requires sp.Valid()
    ensures !Lacks(sp.Text(), ':')
  {
    match sp
    case Full(gs) => assert Join(gs, ':')[|gs[0]|] == ':';
    case Short(l, r) => assert (Join(l, ':') + "::" + Join(r, ':'))[|Join(l, ':')|] == ':';
  }

  /** Every spelling is read as IPv6, except the mapped prefix followed by nothing but dotted text. */
  lemma SpellingVerdict(sp: Spelling)
    requires sp.Valid() && !IsMappedText(sp.Text())
    ensures IpVerdict(sp.Text()) == PrefixVerdict(BytesOfValues(Values(sp.Expanded())), BLOCKED_IPV6)
  {
    SpellingHasColon(sp);
    if ParseDotted(sp.Text()).Some? { DottedIsGroup(sp.Text()); }
    SpellingBytes(sp);
  }

  /** Text without dots is not mapped text. */
  lemma NoDotsNotMapped(s: string)
    requires Lacks(s, '.')
    ensures !IsMappedText(s)
  {
    if |MAPPED| <= |s| { SplitLacking(s[|MAPPED|..], '.'); }
  }
}
