/** IPv6 verdicts by the values of the eight groups. */
module IpValues {
  import opened Wrappers
  import opened Bits
  import opened Text
  import opened IpRanges
  import opened Ipv6
  import opened IpChecks

  /** The four ranges on an address of eight groups: loopback, unspecified, fc00::/7 and fe80::/10. */
  function VerdictOf(v: seq<Group>): Verdict
    requires |v| == 8
  {
    if v == [0, 0, 0, 0, 0, 0, 0, 1] then Blocked(Loopback)
    else if v == [0, 0, 0, 0, 0, 0, 0, 0] then Blocked(Unspecified)
    else if v[0] & 0xFE00 == 0xFC00 then Blocked(PrivateIpv6)
    else if v[0] & 0xFFC0 == 0xFE80 then Blocked(LinkLocal)
    else Allowed
  }

  // ---------------------------------------------------------------- bytes and prefixes

  function HighByte(v: Group): Byte {
    (v >> 8) as Byte
  }

  function LowByte(v: Group): Byte {
    (v & 0xFF) as Byte
  }

  lemma {:induction false} BytesAt(v: seq<Group>, i: nat)
    requires i < |v|
    ensures |BytesOfValues(v)| == 2 * |v|
    ensures ByteAt(BytesOfValues(v), 2 * i) == HighByte(v[i]) && ByteAt(BytesOfValues(v), 2 * i + 1) == LowByte(v[i])
  {
    var n := |v| - 1;
    if n == 0 {
      assert v[..0] == [];
    } else if i < n {
      BytesAt(v[..n], i);
    } else {
      BytesAt(v[..n], 0);
    }
  }

  lemma BytesMakeGroup(x: Group, y: Group)
    ensures HighByte(x) == HighByte(y) && LowByte(x) == LowByte(y) <==> x == y
  {
    GroupFromBytes(x);
    GroupFromBytes(y);
  }

  lemma GroupFromBytes(x: Group)
    ensures x == ((HighByte(x) as Group) << 8) | (LowByte(x) as Group)
  {}

  /** The first n bytes agree. */
  predicate SameBytes(a: seq<Byte>, b: seq<Byte>, n: nat) {
    n == 0 || (SameBytes(a, b, n - 1) && ByteAt(a, n - 1) == ByteAt(b, n - 1))
  }

  lemma {:induction false} PrefixIsBytes(a: seq<Byte>, b: seq<Byte>, n: nat)
    ensures SamePrefix(a, b, 8 * n) <==> SameBytes(a, b, n)
  {
    if n > 0 {
      PrefixIsBytes(a, b, n - 1);
      MoreBits(a, b, n - 1, 8);
      WholeByte(ByteAt(a, n - 1), ByteAt(b, n - 1));
      assert 8 * (n - 1) + 8 == 8 * n;
    }
  }

  lemma PrefixIsMask(a: seq<Byte>, b: seq<Byte>, n: nat, r: nat)
    requires r <= 8
    ensures SamePrefix(a, b, 8 * n + r) <==> SameBytes(a, b, n) && AgreeUnder(ByteAt(a, n), ByteAt(b, n), Top(r))
  {
    PrefixIsBytes(a, b, n);
    MoreBits(a, b, n, r);
    MaskIsBits(ByteAt(a, n), ByteAt(b, n), r);
  }

  lemma {:induction false} SameBytesAre(a: seq<Byte>, b: seq<Byte>, n: nat)
    ensures SameBytes(a, b, n) <==> forall i :: 0 <= i < n ==> ByteAt(a, i) == ByteAt(b, i)
  {
    if n > 0 { SameBytesAre(a, b, n - 1); }
  }

  /** All 128 bits agree exactly when all groups do. */
  lemma WholeAddress(v: seq<Group>, u: seq<Group>)
    requires |v| == 8 && |u| == 8
    ensures SamePrefix(BytesOfValues(v), BytesOfValues(u), 128) <==> v == u
  {
    var a, b := BytesOfValues(v), BytesOfValues(u);
    PrefixIsBytes(a, b, 16);
    SameBytesAre(a, b, 16);
    if SameBytes(a, b, 16) {
      forall i | 0 <= i < 8 ensures v[i] == u[i] {
        BytesAt(v, i);
        BytesAt(u, i);
        assert ByteAt(a, 2 * i) == ByteAt(b, 2 * i) && ByteAt(a, 2 * i + 1) == ByteAt(b, 2 * i + 1);
        BytesMakeGroup(v[i], u[i]);
      }
    }
  }

  lemma PrivateBits(x: Group)
    ensures HighByte(x) & 0xFE == 0xFC <==> x & 0xFE00 == 0xFC00
  {}

  lemma LinkLocalBits(x: Group)
    ensures HighByte(x) == 0xFE && LowByte(x) & 0xC0 == 0x80 <==> x & 0xFFC0 == 0xFE80
  {}

  lemma TopSeven()
    ensures Top(7) == 0xFE && Top(2) == 0xC0
  {}

  lemma PrivatePrefix(v: seq<Group>, u: seq<Group>)
    requires |v| == 8 && |u| == 8 && u[0] == 0xFC00
    ensures SamePrefix(BytesOfValues(v), BytesOfValues(u), 7) <==> v[0] & 0xFE00 == 0xFC00
  {
    BytesAt(v, 0);
    BytesAt(u, 0);
    TopSeven();
    PrefixIsMask(BytesOfValues(v), BytesOfValues(u), 0, 7);
    PrivateBits(v[0]);
    PrivateBits(u[0]);
  }

  lemma LinkLocalPrefix(v: seq<Group>, u: seq<Group>)
    requires |v| == 8 && |u| == 8 && u[0] == 0xFE80
    ensures SamePrefix(BytesOfValues(v), BytesOfValues(u), 10) <==> v[0] & 0xFFC0 == 0xFE80
  {
    var a, b := BytesOfValues(v), BytesOfValues(u);
    BytesAt(v, 0);
    BytesAt(u, 0);
    TopSeven();
    PrefixIsMask(a, b, 1, 2);
    assert SameBytes(a, b, 1) <==> ByteAt(a, 0) == ByteAt(b, 0);
    LinkLocalBits(v[0]);
    LinkLocalBits(u[0]);
  }

  // ---------------------------------------------------------------- the four networks

  lemma {:induction false} ZeroValues(n: nat)
    ensures |Values(Zeros(n))| == n && forall i :: 0 <= i < n ==> Values(Zeros(n))[i] == 0
  {
    if n > 0 {
      ZeroValues(n - 1);
      ZeroGroup();
    }
  }

  lemma HexCons(c: char, rest: string, acc: Group, d: Group)
    requires HexValue(c) == Some(d)
    ensures ParseHex([c] + rest, acc) == ParseHex(rest, (acc << 4) | d)
  {
    assert ([c] + rest)[1..] == rest;
  }

  lemma Shifts()
    ensures ((0 as Group) << 4) | 0 == 0 && ((0 as Group) << 4) | 1 == 1 && ((0 as Group) << 4) | 15 == 15
    ensures ((15 as Group) << 4) | 12 == 0xFC && ((0xFC as Group) << 4) | 0 == 0xFC0
            && ((0xFC0 as Group) << 4) | 0 == 0xFC00
    ensures ((15 as Group) << 4) | 14 == 0xFE && ((0xFE as Group) << 4) | 8 == 0xFE8
            && ((0xFE8 as Group) << 4) | 0 == 0xFE80
  {}

  lemma ZeroGroup()
    ensures ParseHex("0000", 0) == 0
  {
    Shifts();
    assert "0000" == ['0'] + (['0'] + (['0'] + (['0'] + "")));
    HexCons('0', "", 0, 0);
    HexCons('0', ['0'] + "", 0, 0);
    HexCons('0', ['0'] + (['0'] + ""), 0, 0);
    HexCons('0', ['0'] + (['0'] + (['0'] + "")), 0, 0);
  }

  lemma NetworkOne()
    ensures ParseHex("1", 0) == 1
  {
    Shifts();
    HexCons('1', "", 0, 1);
    assert ['1'] + "" == "1";
  }

  lemma NetworkPrivate()
    ensures ParseHex("fc00", 0) == 0xFC00
  {
    Shifts();
    assert "fc00" == ['f'] + (['c'] + (['0'] + (['0'] + "")));
    HexCons('f', ['c'] + (['0'] + (['0'] + "")), 0, 15);
    HexCons('c', ['0'] + (['0'] + ""), 15, 12);
    HexCons('0', ['0'] + "", 0xFC, 0);
    HexCons('0', "", 0xFC0, 0);
  }

  lemma NetworkLinkLocal()
    ensures ParseHex("fe80", 0) == 0xFE80
  {
    Shifts();
    assert "fe80" == ['f'] + (['e'] + (['8'] + (['0'] + "")));
    HexCons('f', ['e'] + (['8'] + (['0'] + "")), 0, 15);
    HexCons('e', ['8'] + (['0'] + ""), 15, 14);
    HexCons('8', ['0'] + "", 0xFE, 8);
    HexCons('0', "", 0xFE8, 0);
  }

  /** The network "g::" has that group in front and zeros behind. */
  lemma LeadingNetwork(net: string, g: string, n: nat, v: seq<Group>)
    requires n + 1 == 8 && IsGroup(g) && net == Join([g], ':') + "::" + Join([], ':')
    requires |v| == n + 1 && v[0] == ParseHex(g, 0) && forall i :: 1 <= i <= n ==> v[i] == 0
    ensures AddressBytes(net) == BytesOfValues(v)
  {
    var z := Zeros(n);
    ZeroValues(n);
    assert Missing([g], []) == n;
    assert [g] + z + [] == [g] + z && ([g] + z)[1..] == z;
    BytesOfShort([g], [], n, net, [g] + z);
    assert v == [ParseHex(g, 0)] + Values(z);
  }

  /** The network "::g" has that group behind zeros. */
  lemma TrailingNetwork(net: string, g: string, n: nat, v: seq<Group>)
    requires n + 1 == 8 && IsGroup(g) && net == Join([], ':') + "::" + Join([g], ':')
    requires |v| == n + 1 && v[n] == ParseHex(g, 0) && forall i :: 0 <= i < n ==> v[i] == 0
    ensures AddressBytes(net) == BytesOfValues(v)
  {
    var z := Zeros(n);
    ZeroValues(n);
    ZeroGroups(n);
    assert Missing([], [g]) == n;
    assert [] + z + [g] == z + [g];
    BytesOfShort([], [g], n, net, z + [g]);
    ZerosThenGroup(z, g, v);
  }

  lemma ZerosThenGroup(z: seq<string>, g: string, v: seq<Group>)
    requires |v| == |z| + 1 && |Values(z)| == |z| && v[|z|] == ParseHex(g, 0)
    requires forall i :: 0 <= i < |z| ==> v[i] == Values(z)[i]
    ensures Values(z + [g]) == v
  {
    ValuesAppend(z, [g]);
    assert [g][1..] == [];
    assert Values([g]) == [ParseHex(g, 0)];
  }

  lemma EmptyNetwork(net: string, n: nat, v: seq<Group>)
    requires n == |v| && 7 < n < 9 && net == Join([], ':') + "::" + Join([], ':')
    requires forall i :: 0 <= i < n ==> v[i] == 0
    ensures AddressBytes(net) == BytesOfValues(v)
  {
    var z := Zeros(n);
    assert Missing([], []) == n;
    assert [] + z + [] == z;
    BytesOfShort([], [], n, net, z);
    assert Values(z) == v by { ZeroValues(n); }
  }

  lemma OneRange(bytes: seq<Byte>, r: Ipv6Range, rest: seq<Ipv6Range>)
    ensures PrefixVerdict(bytes, [r] + rest) ==
            if SamePrefix(bytes, AddressBytes(r.address), r.prefixLen) then Blocked(r.reason)
                else PrefixVerdict(bytes, rest)
  {
    assert ([r] + rest)[1..] == rest;
  }

  lemma FourRanges(bytes: seq<Byte>, a: Ipv6Range, b: Ipv6Range, c: Ipv6Range, d: Ipv6Range)
    ensures PrefixVerdict(bytes, [a, b, c, d]) ==
            if SamePrefix(bytes, AddressBytes(a.address), a.prefixLen) then Blocked(a.reason)
            else if SamePrefix(bytes, AddressBytes(b.address), b.prefixLen) then Blocked(b.reason)
            else if SamePrefix(bytes, AddressBytes(c.address), c.prefixLen) then Blocked(c.reason)
            else if SamePrefix(bytes, AddressBytes(d.address), d.prefixLen) then Blocked(d.reason)
            else Allowed
  {
    assert [a, b, c, d] == [a] + ([b] + ([c] + ([d] + [])));
    OneRange(bytes, a, [b] + ([c] + ([d] + [])));
    OneRange(bytes, b, [c] + ([d] + []));
    OneRange(bytes, c, [d] + []);
    OneRange(bytes, d, []);
  }

  lemma LoopbackMatches(v: seq<Group>, net: string, g: string)
    requires |v| == 8 && IsGroup(g) && ParseHex(g, 0) == 1 && net == Join([], ':') + "::" + Join([g], ':')
    ensures SamePrefix(BytesOfValues(v), AddressBytes(net), 128) <==> v == [0, 0, 0, 0, 0, 0, 0, 1]
  {
    TrailingNetwork(net, g, 7, [0, 0, 0, 0, 0, 0, 0, 1]);
    WholeAddress(v, [0, 0, 0, 0, 0, 0, 0, 1]);
  }

  lemma UnspecifiedMatches(v: seq<Group>, net: string)
    requires |v| == 8 && net == Join([], ':') + "::" + Join([], ':')
    ensures SamePrefix(BytesOfValues(v), AddressBytes(net), 128) <==> v == [0, 0, 0, 0, 0, 0, 0, 0]
  {
    EmptyNetwork(net, 8, [0, 0, 0, 0, 0, 0, 0, 0]);
    WholeAddress(v, [0, 0, 0, 0, 0, 0, 0, 0]);
  }

  function NetworkValues(first: Group): (v: seq<Group>)
    ensures |v| == 8 && v[0] == first
  {
    [first, 0, 0, 0, 0, 0, 0, 0]
  }

  lemma LeadingBytes(net: string, g: string, v: seq<Group>)
    requires IsGroup(g) && net == Join([g], ':') + "::" + Join([], ':') && v == NetworkValues(ParseHex(g, 0))
    ensures AddressBytes(net) == BytesOfValues(v)
  {
    LeadingNetwork(net, g, 7, v);
  }

  lemma PrivateMatches(v: seq<Group>, net: string, g: string)
    requires |v| == 8 && IsGroup(g) && ParseHex(g, 0) == 0xFC00 && net == Join([g], ':') + "::" + Join([], ':')
    ensures SamePrefix(BytesOfValues(v), AddressBytes(net), 7) <==> v[0] & 0xFE00 == 0xFC00
  {
    LeadingBytes(net, g, NetworkValues(0xFC00));
    PrivatePrefix(v, NetworkValues(0xFC00));
  }

  lemma LinkLocalMatches(v: seq<Group>, net: string, g: string)
    requires |v| == 8 && IsGroup(g) && ParseHex(g, 0) == 0xFE80 && net == Join([g], ':') + "::" + Join([], ':')
    ensures SamePrefix(BytesOfValues(v), AddressBytes(net), 10) <==> v[0] & 0xFFC0 == 0xFE80
  {
    LeadingBytes(net, g, NetworkValues(0xFE80));
    LinkLocalPrefix(v, NetworkValues(0xFE80));
  }

  /** How the four networks are put together. */
  lemma NetworkTexts()
    ensures "::1" == Join([], ':') + "::" + Join(["1"], ':') && "::" == Join([], ':') + "::" + Join([], ':')
    ensures "fc00::" == Join(["fc00"], ':') + "::" + Join([], ':')
    ensures "fe80::" == Join(["fe80"], ':') + "::" + Join([], ':')
  {}

  lemma NetworkGroups()
    ensures IsGroup("1") && IsGroup("fc00") && IsGroup("fe80")
  {}

  /** What four prefixes stand for, whatever their texts. */
  lemma FourMean(v: seq<Group>, a: Ipv6Range, b: Ipv6Range, c: Ipv6Range, d: Ipv6Range, one: string, fc: string,
      fe: string)
    requires |v| == 8 && IsGroup(one) && IsGroup(fc) && IsGroup(fe)
    requires ParseHex(one, 0) == 1 && ParseHex(fc, 0) == 0xFC00 && ParseHex(fe, 0) == 0xFE80
    requires a.address == Join([], ':') + "::" + Join([one], ':') && a.prefixLen == 128 && a.reason == Loopback
    requires b.address == Join([], ':') + "::" + Join([], ':') && b.prefixLen == 128 && b.reason == Unspecified
    requires c.address == Join([fc], ':') + "::" + Join([], ':') && c.prefixLen == 7 && c.reason == PrivateIpv6
    requires d.address == Join([fe], ':') + "::" + Join([], ':') && d.prefixLen == 10 && d.reason == LinkLocal
    ensures PrefixVerdict(BytesOfValues(v), [a, b, c, d]) == VerdictOf(v)
  {
    LoopbackMatches(v, a.address, one);
    UnspecifiedMatches(v, b.address);
    PrivateMatches(v, c.address, fc);
    LinkLocalMatches(v, d.address, fe);
    FourRanges(BytesOfValues(v), a, b, c, d);
  }

  /** What the four prefixes stand for. */
  lemma PrefixesMean(v: seq<Group>)
    requires |v| == 8
    ensures PrefixVerdict(BytesOfValues(v), BLOCKED_IPV6) == VerdictOf(v)
  {
    NetworkTexts();
    NetworkGroups();
    NetworkOne();
    NetworkPrivate();
    NetworkLinkLocal();
    FourMean(v, Ipv6Range("::1", 128, Loopback), Ipv6Range("::", 128, Unspecified),
             Ipv6Range("fc00::", 7, PrivateIpv6), Ipv6Range("fe80::", 10, LinkLocal), "1", "fc00", "fe80");
  }

  // ---------------------------------------------------------------- verdicts

  lemma {:induction false} ValuesLength(gs: seq<string>)
    ensures |Values(gs)| == |gs|
  {
    if gs != [] { ValuesLength(gs[1..]); }
  }

  /** The eight groups that some stand for: those missing at the end are zero. */
  function Eight(v: seq<Group>): (w: seq<Group>)
    ensures |v| <= 8 ==> |w| == 8 && w[..|v|] == v && forall i :: |v| <= i < 8 ==> w[i] == 0
    decreases 8 - |v|
  {
    if |v| < 8 then
      var w := Eight(v + [0]);
      assert w[..|v|] == w[..|v| + 1][..|v|] == v && w[|v|] == w[..|v| + 1][|v|];
      w
    else v
  }

  lemma OneZero(v: seq<Group>, i: nat)
    ensures ByteAt(BytesOfValues(v + [0]), i) == ByteAt(BytesOfValues(v), i)
  {
    assert (v + [0])[..|v|] == v;
    assert BytesOfValues(v + [0]) == BytesOfValues(v) + [(0 as Group >> 8) as Byte] + [(0 as Group & 0xFF) as Byte];
    ZeroBytes();
  }

  lemma ZeroBytes()
    ensures (0 as Group >> 8) as Byte == 0 && (0 as Group & 0xFF) as Byte == 0
  {}

  lemma {:induction false} EightBytes(v: seq<Group>, i: nat)
    ensures ByteAt(BytesOfValues(Eight(v)), i) == ByteAt(BytesOfValues(v), i)
    decreases 8 - |v|
  {
    if |v| < 8 {
      EightBytes(v + [0], i);
      OneZero(v, i);
    }
  }

  lemma SamePrefixes(a: seq<Byte>, b: seq<Byte>, net: seq<Byte>, len: nat)
    requires forall i: nat :: ByteAt(a, i) == ByteAt(b, i)
    ensures SamePrefix(a, net, len) <==> SamePrefix(b, net, len)
  {
    assert forall n: nat :: SameBit(a, net, n) <==> SameBit(b, net, n);
  }

  lemma {:induction false} SameVerdict(a: seq<Byte>, b: seq<Byte>, ranges: seq<Ipv6Range>)
    requires forall i: nat :: ByteAt(a, i) == ByteAt(b, i)
    ensures PrefixVerdict(a, ranges) == PrefixVerdict(b, ranges)
  {
    if ranges != [] {
      SamePrefixes(a, b, AddressBytes(ranges[0].address), ranges[0].prefixLen);
      SameVerdict(a, b, ranges[1..]);
    }
  }

  lemma MissingGroups(v: seq<Group>, ranges: seq<Ipv6Range>)
    ensures PrefixVerdict(BytesOfValues(Eight(v)), ranges) == PrefixVerdict(BytesOfValues(v), ranges)
  {
    forall i: nat ensures ByteAt(BytesOfValues(Eight(v)), i) == ByteAt(BytesOfValues(v), i) { EightBytes(v, i); }
    SameVerdict(BytesOfValues(Eight(v)), BytesOfValues(v), ranges);
  }

  lemma ValuesMean(v: seq<Group>, x: Verdict)
    requires |v| <= 8 && x == PrefixVerdict(BytesOfValues(v), BLOCKED_IPV6)
    ensures x == VerdictOf(Eight(v))
  {
    MissingGroups(v, BLOCKED_IPV6);
    PrefixesMean(Eight(v));
  }

  lemma ExpandedLength(sp: Spelling)
    requires sp.Valid()
    ensures |Values(sp.Expanded())| == |sp.Expanded()| <= 8
  {
    ValuesLength(sp.Expanded());
    match sp
    case Full(_) =>
    case Short(l, r) => ZeroGroups(Missing(l, r));
  }

  /** The eight values a spelling is read as. */
  function Reading(sp: Spelling): (v: seq<Group>)
    requires sp.Valid()
    ensures |v| == 8
  {
    ExpandedLength(sp);
    Eight(Values(sp.Expanded()))
  }

  /** The verdict on any spelling, mixed ones included, by the values it is read as. */
  lemma SpellingMeans(sp: Spelling)
    requires sp.Valid() && !IsMappedText(sp.Text())
    ensures IpVerdict(sp.Text()) == VerdictOf(Reading(sp))
  {
    ExpandedLength(sp);
    SpellingVerdict(sp);
    ValuesMean(Values(sp.Expanded()), IpVerdict(sp.Text()));
  }

  /** Two spellings of one address, in whatever case, padding or compression, get one verdict. */
  lemma SpellingsAgree(a: Spelling, b: Spelling)
    requires a.Valid() && b.Valid() && Reading(a) == Reading(b)
    requires !IsMappedText(a.Text()) && !IsMappedText(b.Text())
    ensures IpVerdict(a.Text()) == IpVerdict(b.Text())
  {
    SpellingMeans(a);
    SpellingMeans(b);
  }

  lemma {:induction false} JoinLacksDot(gs: seq<string>)
    requires forall i :: 0 <= i < |gs| ==> Lacks(gs[i], '.')
    ensures Lacks(Join(gs, ':'), '.')
  {
    if |gs| > 1 { JoinLacksDot(gs[1..]); }
  }

  /** Nothing but hexadecimal groups. */
  predicate Hexadecimal(sp: Spelling) {
    match sp
    case Full(gs) => forall i :: 0 <= i < |gs| ==> Lacks(gs[i], '.')
    case Short(l, r) => (forall i :: 0 <= i < |l| ==> Lacks(l[i], '.')) && forall i :: 0 <= i < |r| ==> Lacks(r[i], '.')
  }

  lemma HexadecimalIsNotMapped(sp: Spelling)
    requires Hexadecimal(sp)
    ensures !IsMappedText(sp.Text())
  {
    match sp {
      case Full(gs) => JoinLacksDot(gs);
      case Short(l, r) => JoinLacksDot(l); JoinLacksDot(r);
    }
    NoDotsNotMapped(sp.Text());
  }

  /** So those of hexadecimal groups alone always agree. */
  lemma HexSpellingsAgree(a: Spelling, b: Spelling)
    requires a.Valid() && b.Valid() && Hexadecimal(a) && Hexadecimal(b) && Reading(a) == Reading(b)
    ensures IpVerdict(a.Text()) == IpVerdict(b.Text()) == VerdictOf(Reading(a))
  {
    HexadecimalIsNotMapped(a);
    HexadecimalIsNotMapped(b);
    SpellingMeans(a);
    SpellingMeans(b);
  }

  // ---------------------------------------------------------------- in brackets

  predicate SpellingChar(c: char) {
    GroupChar(c) || c == ':'
  }

  lemma {:induction false} JoinChars(gs: seq<string>)
    requires AreGroups(gs)
    ensures forall i :: 0 <= i < |Join(gs, ':')| ==> SpellingChar(Join(gs, ':')[i])
  {
    if gs != [] {
      assert IsGroup(gs[0]);
      JoinChars(gs[1..]);
    }
  }

  lemma TextChars(sp: Spelling)
    requires sp.Valid()
    ensures sp.Text() != "" && forall i :: 0 <= i < |sp.Text()| ==> SpellingChar(sp.Text()[i])
  {
    SpellingHasColon(sp);
    match sp
    case Full(gs) => JoinChars(gs);
    case Short(l, r) => JoinChars(l); JoinChars(r);
  }

  /** Brackets around text without any are taken off. */
  lemma Unwrapped(text: string, wrapped: string)
    requires text != "" && text[0] != '[' && Lacks(text, ']') && wrapped == ['['] + (text + [']'])
    ensures Unbracketed(wrapped) == text == Unbracketed(text)
  {
    assert wrapped[1..] == text + [']'] + "";
    CutAt(text, "", ']');
  }

  lemma SameText(a: string, b: string)
    requires Unbracketed(a) == Unbracketed(b)
    ensures AddressBytes(a) == AddressBytes(b)
  {
    SameGroups(a, b);
  }

  lemma SameGroups(a: string, b: string)
    requires Unbracketed(a) == Unbracketed(b)
    ensures Groups(a) == Groups(b)
  {}

  lemma LowerWrapped(text: string, wrapped: string)
    requires wrapped == ['['] + (text + [']'])
    ensures ToLower(wrapped) == ['['] + (ToLower(text) + [']'])
  {
    LowerAppend(['['], text + [']']);
    LowerAppend(text, [']']);
    assert ToLower(['[']) == ['['] && ToLower([']']) == [']'];
  }

  lemma LowerIsNoBracket(c: char)
    requires SpellingChar(c)
    ensures LowerChar(c) != '[' && LowerChar(c) != ']'
  {}

  lemma LowerHasNoBrackets(text: string)
    requires text != "" && forall i :: 0 <= i < |text| ==> SpellingChar(text[i])
    ensures ToLower(text) != "" && ToLower(text)[0] != '[' && Lacks(ToLower(text), ']')
  {
    LowerChars(text);
    forall i | 0 <= i < |text| ensures ToLower(text)[i] != '[' && ToLower(text)[i] != ']' {
      LowerIsNoBracket(text[i]);
    }
  }

  lemma BracketedBytes(text: string, wrapped: string)
    requires text != "" && forall i :: 0 <= i < |text| ==> SpellingChar(text[i])
    requires wrapped == ['['] + (text + [']'])
    ensures AddressBytes(ToLower(wrapped)) == AddressBytes(ToLower(text))
  {
    LowerWrapped(text, wrapped);
    LowerHasNoBrackets(text);
    Unwrapped(ToLower(text), ToLower(wrapped));
    SameText(ToLower(wrapped), ToLower(text));
  }

  lemma BracketIsNotDotted(s: string)
    requires s != "" && s[0] == '['
    ensures ParseDotted(s) == None
  {
    if ParseDotted(s).Some? { DottedIsGroup(s); }
  }

  lemma BracketIsNotMapped(s: string)
    requires s != "" && s[0] == '['
    ensures !IsMappedText(s)
  {
    if |MAPPED| <= |s| {
      LowerChars(s[..|MAPPED|]);
      assert s[..|MAPPED|][0] == s[0] && LowerChar('[') != MAPPED[0];
    }
  }

  lemma BracketedIsIpv6(s: string)
    requires s != "" && s[0] == '['
    ensures IpVerdict(s) == Ipv6Verdict(s)
  {
    BracketIsNotDotted(s);
    BracketIsNotMapped(s);
  }

  /** In brackets every spelling is read as IPv6, even the one text that is unwrapped without them. */
  lemma BracketedMeans(sp: Spelling)
    requires sp.Valid()
    ensures IpVerdict("[" + sp.Text() + "]") == VerdictOf(Reading(sp))
  {
    var wrapped := "[" + sp.Text() + "]";
    assert wrapped == ['['] + (sp.Text() + [']']);
    WrappedMeans(sp, wrapped);
  }

  lemma WrappedMeans(sp: Spelling, wrapped: string)
    requires sp.Valid() && wrapped == ['['] + (sp.Text() + [']'])
    ensures IpVerdict(wrapped) == VerdictOf(Reading(sp))
  {
    TextChars(sp);
    BracketedIsIpv6(wrapped);
    BracketedBytes(sp.Text(), wrapped);
    SpellingBytes(sp);
    ExpandedLength(sp);
    ValuesMean(Values(sp.Expanded()), Ipv6Verdict(wrapped));
  }

  /** Eight groups that hold an IPv4 address behind the mapped prefix. */
  predicate Maps(v: seq<Group>, o: Dotted) {
    && |v| == 8 && v[..6] == [0, 0, 0, 0, 0, 0xFFFF]
    && v[6] == (((o.a << 8) | o.b) & 0xFFFF) as Group && v[7] == (((o.c << 8) | o.d) & 0xFFFF) as Group
  }

  lemma NonZeroIsAllowed(v: seq<Group>, i: nat)
    requires |v| == 8 && v[0] == 0 && i < 7 && v[i] == 0xFFFF
    ensures VerdictOf(v) == Allowed
  {}

  /**
   An IPv4-mapped address in any spelling but that one text is always allowed, so it gets the verdict of that text
   if and only if the address lies in none of the nine IPv4 ranges.
   */
  lemma MappedSpellingsAgreeIff(address: string, o: Dotted, sp: Spelling)
    requires ParseDotted(address) == Some(o) && Octets(o)
    requires sp.Valid() && !IsMappedText(sp.Text())
    requires Maps(Reading(sp), o) || MapsMixed(sp, address)
    ensures IpVerdict(sp.Text()) == Allowed
    ensures IpVerdict(MAPPED + address) == IpVerdict(sp.Text()) <==> forall k :: 0 <= k < 9 ==> !InRange(k, o)
  {
    MappedIsAllowed(sp, address, o);
    DottedVerdict(address, o, 0);
    DottedAllowedIff(IpVerdict(address), o);
  }

  lemma MappedIsAllowed(sp: Spelling, address: string, o: Dotted)
    requires sp.Valid() && !IsMappedText(sp.Text())
    requires Maps(Reading(sp), o) || MapsMixed(sp, address)
    ensures IpVerdict(sp.Text()) == Allowed
  {
    SpellingMeans(sp);
    MappedReading(sp, address, o);
  }

  lemma MappedReading(sp: Spelling, address: string, o: Dotted)
    requires sp.Valid() && (Maps(Reading(sp), o) || MapsMixed(sp, address))
    ensures VerdictOf(Reading(sp)) == Allowed
  {
    if MapsMixed(sp, address) {
      MixedFront(sp, address);
      NonZeroIsAllowed(Reading(sp), |sp.Expanded()| - 2);
    } else {
      FrontGroups(Reading(sp), o);
      NonZeroIsAllowed(Reading(sp), 5);
    }
  }

  lemma DottedAllowedIff(v: Verdict, o: Dotted)
    requires v.Blocked? <==> exists k :: 0 <= k < 9 && InRange(k, o)
    ensures v == Allowed <==> forall k :: 0 <= k < 9 ==> !InRange(k, o)
  {}

  lemma FrontGroups(v: seq<Group>, o: Dotted)
    requires Maps(v, o)
    ensures v[0] == 0 && v[5] == 0xFFFF
  {
    assert v[0] == v[..6][0] && v[5] == v[..6][5];
  }

  // ---------------------------------------------------------------- mixed spellings

  /** So an IPv4-mapped address in brackets is always allowed, in whatever spelling. */
  lemma BracketedMappedIsAllowed(address: string, o: Dotted, sp: Spelling)
    requires sp.Valid() && (Maps(Reading(sp), o) || MapsMixed(sp, address))
    ensures IpVerdict("[" + sp.Text() + "]") == Allowed
  {
    BracketedMeans(sp);
    MappedReading(sp, address, o);
  }

  /** Among them the one that is unwrapped without brackets. */
  lemma BracketedTextIsAllowed(address: string, o: Dotted)
    requires ParseDotted(address) == Some(o)
    ensures IpVerdict("[" + (MAPPED + address) + "]") == Allowed
  {
    DottedIsGroup(address);
    var g := "ffff";
    MixedText(address, g);
    MixedGroups(address, g);
    BracketedMappedIsAllowed(address, o, Short([], [g, address]));
  }

  lemma MixedText(address: string, g: string)
    requires g == "ffff"
    ensures Short([], [g, address]).Text() == MAPPED + address
  {
    JoinOfTwo(g, address);
    MappedParts(g);
    Regrouped("::", g + [':'], address, MAPPED);
  }

  lemma JoinOfTwo(g: string, h: string)
    ensures Join([g, h], ':') == (g + [':']) + h && Join([], ':') == ""
  {
    assert [g, h][1..] == [h];
  }

  lemma MappedParts(g: string)
    requires g == "ffff"
    ensures MAPPED == "::" + (g + [':'])
  {}

  lemma Regrouped(a: string, b: string, c: string, ab: string)
    requires ab == a + b
    ensures "" + a + (b + c) == ab + c
  {}

  lemma MixedGroups(address: string, g: string)
    requires IsGroup(address) && g == "ffff"
    ensures Short([], [g, address]).Valid() && MapsMixed(Short([], [g, address]), address)
  {
    NetworkMapped(g);
    ZerosBefore(address, g, 6);
    assert Missing([], [g, address]) == 6;
  }

  lemma ZerosBefore(address: string, g: string, n: nat)
    ensures var gs := [] + Zeros(n) + [g, address];
            |gs| == n + 2 && gs[n] == g && gs[n + 1] == address && forall i :: 0 <= i < n ==> ParseHex(gs[i], 0) == 0
  {
    ZeroGroups(n);
    ZeroValues(n);
    forall i | 0 <= i < n ensures ParseHex(Zeros(n)[i], 0) == 0 { ValueAt(Zeros(n), i); }
  }

  lemma NetworkMapped(g: string)
    requires g == "ffff"
    ensures IsGroup(g) && ParseHex(g, 0) == 0xFFFF
  {
    MappedShifts();
    assert g == ['f'] + (['f'] + (['f'] + (['f'] + "")));
    HexCons('f', ['f'] + (['f'] + (['f'] + "")), 0, 15);
    HexCons('f', ['f'] + (['f'] + ""), 0xF, 15);
    HexCons('f', ['f'] + "", 0xFF, 15);
    HexCons('f', "", 0xFFF, 15);
  }

  lemma MappedShifts()
    ensures ((0 as Group) << 4) | 15 == 0xF && ((0xF as Group) << 4) | 15 == 0xFF
    ensures ((0xFF as Group) << 4) | 15 == 0xFFF && ((0xFFF as Group) << 4) | 15 == 0xFFFF
  {}

  /** A mixed spelling of an IPv4-mapped address: zeros, a group ffff and the dotted text. */
  predicate MapsMixed(sp: Spelling, address: string) {
    var gs := sp.Expanded();
    && 3 <= |gs| && gs[|gs| - 1] == address && ParseHex(gs[|gs| - 2], 0) == 0xFFFF
    && forall i :: 0 <= i < |gs| - 2 ==> ParseHex(gs[i], 0) == 0
  }

  lemma {:induction false} ValueAt(gs: seq<string>, i: nat)
    requires i < |gs|
    ensures |Values(gs)| == |gs| && Values(gs)[i] == ParseHex(gs[i], 0)
  {
    ValuesLength(gs);
    if i > 0 { ValueAt(gs[1..], i - 1); }
  }

  lemma MixedFront(sp: Spelling, address: string)
    requires sp.Valid() && MapsMixed(sp, address)
    ensures |sp.Expanded()| <= 8
    ensures Reading(sp)[0] == 0 && Reading(sp)[|sp.Expanded()| - 2] == 0xFFFF
  {
    ExpandedLength(sp);
    var gs, v := sp.Expanded(), Values(sp.Expanded());
    ValueAt(gs, 0);
    ValueAt(gs, |gs| - 2);
    assert Reading(sp)[..|v|][0] == v[0] && Reading(sp)[..|v|][|gs| - 2] == v[|gs| - 2];
  }

  /** "::" and dotted text: its first number, read as hexadecimal, is the last group. */
  lemma CompatibleVerdict(address: string)
    requires ParseDotted(address).Some?
    ensures IpVerdict("::" + address) ==
            match ParseHex(address, 0) case 1 => Blocked(Loopback) case 0 => Blocked(Unspecified) case _ => Allowed
  {
    DottedIsGroup(address);
    var sp := Short([], [address]);
    assert sp.Text() == "::" + address;
    CompatibleIsNotMapped(address);
    SpellingMeans(sp);
    CompatibleReading(address, sp);
    ZerosThen(Reading(sp));
  }

  lemma CompatibleReading(address: string, sp: Spelling)
    requires sp.Valid() && sp == Short([], [address])
    ensures Reading(sp)[7] == ParseHex(address, 0) && forall i :: 0 <= i < 7 ==> Reading(sp)[i] == 0
  {
    assert Missing([], [address]) == 7;
    LastGroup(address, sp.Expanded(), 7, Reading(sp));
  }

  lemma LastGroup(address: string, gs: seq<string>, n: nat, v: seq<Group>)
    requires n + 1 == 8 && gs == [] + Zeros(n) + [address] && v == Eight(Values(gs))
    ensures |v| == n + 1 && v[n] == ParseHex(address, 0) && forall i :: 0 <= i < n ==> v[i] == 0
  {
    var z := Zeros(n);
    ZeroValues(n);
    ZeroGroups(n);
    assert gs == z + [address];
    ZerosThenGroup(z, address, Values(z) + [ParseHex(address, 0)]);
  }

  lemma ZerosThen(v: seq<Group>)
    requires |v| == 8 && forall i :: 0 <= i < 7 ==> v[i] == 0
    ensures VerdictOf(v) == match v[7] case 1 => Blocked(Loopback) case 0 => Blocked(Unspecified) case _ => Allowed
  {
    if v[7] == 1 { assert v == [0, 0, 0, 0, 0, 0, 0, 1]; }
    if v[7] == 0 { assert v == [0, 0, 0, 0, 0, 0, 0, 0]; }
  }

  lemma CompatibleIsNotMapped(address: string)
    requires Lacks(address, ':')
    ensures !IsMappedText("::" + address)
  {
    var s := "::" + address;
    if 7 <= |s| {
      LowerChars(s[..7]);
      assert s[6] == address[4] != ':';
      assert LowerChar(s[6]) != MAPPED[6];
    }
  }
}
