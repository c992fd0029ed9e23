/**
 The address checker: IPv4 by mask and compare on 32-bit words, IPv6 by expanding the
 text to eight groups, turning those into bytes and comparing prefixes bit by bit.
 */
module IpRanges {
  import opened Wrappers
  import opened Text

  datatype Reason = PrivateIpv4 | PrivateIpv6 | Loopback | LinkLocal | Cgnat | Multicast | Broadcast | Unspecified

  datatype Verdict = Allowed | Blocked(reason: Reason)

  // ---------------------------------------------------------------- IPv4

  type Word = bv32

  function DigitValue(c: char): Word {
    match c
    case '0' => 0 case '1' => 1 case '2' => 2 case '3' => 3 case '4' => 4
    case '5' => 5 case '6' => 6 case '7' => 7 case '8' => 8 case '9' => 9
    case _ => 0
  }

  predicate IsDigit(c: char) {
    '0' <= c <= '9'
  }

  predicate Digits(s: string) {
    forall i :: 0 <= i < |s| ==> IsDigit(s[i])
  }

  /** One to three decimal digits, so up to 999. */
  predicate IsOctet(s: string) {
    1 <= |s| <= 3 && Digits(s)
  }

  function OctetValue(s: string): Word {
    if s == "" then 0 else 10 * OctetValue(s[..|s| - 1]) + DigitValue(s[|s| - 1])
  }

  function ParseOctet(s: string): Option<Word> {
    if IsOctet(s) then Some(OctetValue(s)) else None
  }

  datatype Dotted = Dotted(a: Word, b: Word, c: Word, d: Word)

  function ParseDotted(s: string): Option<Dotted> {
    var parts := Split(s, '.');
    if |parts| != 4 then None
    else
      match (ParseOctet(parts[0]), ParseOctet(parts[1]), ParseOctet(parts[2]), ParseOctet(parts[3]))
      case (Some(a), Some(b), Some(c), Some(d)) => Some(Dotted(a, b, c, d))
      case _ => None
  }

  predicate IsIpv4(s: string) {
    ParseDotted(s).Some?
  }

  /** On 32-bit words the shifts drop what overflows, as in the original. */
  function ToWord(o: Dotted): Word {
    (o.a << 24) | (o.b << 16) | (o.c << 8) | o.d
  }

  datatype Range = Range(network: Word, mask: Word, reason: Reason)

  /** Shifting a 32-bit word by 32 is the identity in the original, hence its special case. */
  function Mask(bits: nat): Word
    requires bits <= 32
  {
    if bits == 32 then 0xFFFF_FFFF else !(0xFFFF_FFFF >> bits)
  }

  function Cidr(network: Word, bits: nat, reason: Reason): Range
    requires bits <= 32
  {
    Range(network & Mask(bits), Mask(bits), reason)
  }

  const BLOCKED: seq<Range> := [
    Cidr(0x0A00_0000, 8, PrivateIpv4),
    Cidr(0xAC10_0000, 12, PrivateIpv4),
    Cidr(0xC0A8_0000, 16, PrivateIpv4),
    Cidr(0x7F00_0000, 8, Loopback),
    Cidr(0xA9FE_0000, 16, LinkLocal),
    Cidr(0x0000_0000, 8, Unspecified),
    Cidr(0x6440_0000, 10, Cgnat),
    Cidr(0xE000_0000, 4, Multicast),
    Cidr(0xFFFF_FFFF, 32, Broadcast)]

  predicate Matches(r: Range, num: Word) {
    num & r.mask == r.network
  }

  /** The reason of the first range that matches. */
  function FirstMatch(ranges: seq<Range>, num: Word): Verdict {
    if ranges == [] then Allowed
    else if Matches(ranges[0], num) then Blocked(ranges[0].reason)
    else FirstMatch(ranges[1..], num)
  }

  method Scan(ranges: seq<Range>, num: Word) returns (v: Verdict)
    ensures v == FirstMatch(ranges, num)
  {
    for i := 0 to |ranges|
      invariant FirstMatch(ranges, num) == FirstMatch(ranges[i..], num)
    {
      assert ranges[i..][1..] == ranges[i + 1..];
      if num & ranges[i].mask == ranges[i].network {
        return Blocked(ranges[i].reason);
      }
    }
    assert ranges[|ranges|..] == [];
    return Allowed;
  }

  method CheckIpv4(o: Dotted) returns (v: Verdict)
    ensures v == FirstMatch(BLOCKED, ToWord(o))
  {
    v := Scan(BLOCKED, ToWord(o));
  }

  /** The addresses of the i-th range, from its first to its last. */
  predicate Within(i: nat, num: Word)
    requires i < 9
  {
    match i
    case 0 => 0x0A00_0000 <= num <= 0x0AFF_FFFF
    case 1 => 0xAC10_0000 <= num <= 0xAC1F_FFFF
    case 2 => 0xC0A8_0000 <= num <= 0xC0A8_FFFF
    case 3 => 0x7F00_0000 <= num <= 0x7FFF_FFFF
    case 4 => 0xA9FE_0000 <= num <= 0xA9FE_FFFF
    case 5 => 0x0000_0000 <= num <= 0x00FF_FFFF
    case 6 => 0x6440_0000 <= num <= 0x647F_FFFF
    case 7 => 0xE000_0000 <= num <= 0xEFFF_FFFF
    case 8 => 0xFFFF_FFFF <= num <= 0xFFFF_FFFF
  }

  lemma MaskValues()
    ensures Mask(4) == 0xF000_0000 && Mask(8) == 0xFF00_0000 && Mask(10) == 0xFFC0_0000
    ensures Mask(12) == 0xFFF0_0000 && Mask(16) == 0xFFFF_0000 && Mask(32) == 0xFFFF_FFFF
  {}

  /** What the notation of the i-th range works out to. */
  lemma RangeValue(i: nat)
    requires i < 9
    ensures |BLOCKED| == 9
    ensures i == 0 ==> BLOCKED[i] == Range(0x0A00_0000, 0xFF00_0000, PrivateIpv4)
    ensures i == 1 ==> BLOCKED[i] == Range(0xAC10_0000, 0xFFF0_0000, PrivateIpv4)
    ensures i == 2 ==> BLOCKED[i] == Range(0xC0A8_0000, 0xFFFF_0000, PrivateIpv4)
    ensures i == 3 ==> BLOCKED[i] == Range(0x7F00_0000, 0xFF00_0000, Loopback)
    ensures i == 4 ==> BLOCKED[i] == Range(0xA9FE_0000, 0xFFFF_0000, LinkLocal)
    ensures i == 5 ==> BLOCKED[i] == Range(0x0000_0000, 0xFF00_0000, Unspecified)
    ensures i == 6 ==> BLOCKED[i] == Range(0x6440_0000, 0xFFC0_0000, Cgnat)
    ensures i == 7 ==> BLOCKED[i] == Range(0xE000_0000, 0xF000_0000, Multicast)
    ensures i == 8 ==> BLOCKED[i] == Range(0xFFFF_FFFF, 0xFFFF_FFFF, Broadcast)
  {
    MaskValues();
  }

  /** Matching a range is lying between its first and last address. */
  lemma MatchIsInterval(i: nat, num: Word)
    requires i < 9
    ensures |BLOCKED| == 9 && (Matches(BLOCKED[i], num) <==> Within(i, num))
  {
    RangeValue(i);
  }

  /** No address lies in two ranges, so the order of the list does not matter. */
  lemma RangesDisjoint(i: nat, j: nat, num: Word)
    requires i < 9 && j < 9 && Within(i, num) && Within(j, num)
    ensures i == j
  {}

  lemma {:induction false} FirstMatchIs(ranges: seq<Range>, num: Word)
    ensures FirstMatch(ranges, num).Allowed? <==> forall i :: 0 <= i < |ranges| ==> !Matches(ranges[i], num)
    ensures FirstMatch(ranges, num).Blocked? ==>
              exists i :: 0 <= i < |ranges| && Matches(ranges[i], num)
                  && FirstMatch(ranges, num).reason == ranges[i].reason
  {
    if ranges != [] {
      FirstMatchIs(ranges[1..], num);
      if !Matches(ranges[0], num) && FirstMatch(ranges, num).Blocked? {
        var i :| 0 <= i < |ranges[1..]| && Matches(ranges[1..][i], num)
            && FirstMatch(ranges, num).reason == ranges[1..][i].reason;
        assert ranges[i + 1] == ranges[1..][i];
      }
      forall i | 0 <= i < |ranges| && FirstMatch(ranges, num).Allowed? ensures !Matches(ranges[i], num) {
        if i > 0 { assert ranges[i] == ranges[1..][i - 1]; }
      }
    }
  }

  /** Blocked exactly on the union of the nine intervals, with the reason of the one interval that holds the address. */
  lemma Ipv4IsIntervalMembership(num: Word, i: nat)
    requires i < 9
    ensures FirstMatch(BLOCKED, num).Blocked? <==> exists k :: 0 <= k < 9 && Within(k, num)
    ensures |BLOCKED| == 9 && (Within(i, num) ==> FirstMatch(BLOCKED, num) == Blocked(BLOCKED[i].reason))
  {
    FirstMatchIs(BLOCKED, num);
    RangeValue(i);
    forall k | 0 <= k < 9 ensures Matches(BLOCKED[k], num) <==> Within(k, num) {
      MatchIsInterval(k, num);
    }
    if Within(i, num) {
      assert Matches(BLOCKED[i], num);
      var k :| 0 <= k < 9 && Matches(BLOCKED[k], num) && FirstMatch(BLOCKED, num).reason == BLOCKED[k].reason;
      RangesDisjoint(i, k, num);
    }
  }

  predicate Octets(o: Dotted) {
    o.a <= 255 && o.b <= 255 && o.c <= 255 && o.d <= 255
  }

  /** The addresses of the i-th range, by octets. */
  predicate InRange(i: nat, o: Dotted) {
    match i
    case 0 => o.a == 10
    case 1 => o.a == 172 && 16 <= o.b <= 31
    case 2 => o.a == 192 && o.b == 168
    case 3 => o.a == 127
    case 4 => o.a == 169 && o.b == 254
    case 5 => o.a == 0
    case 6 => o.a == 100 && 64 <= o.b <= 127
    case 7 => 224 <= o.a <= 239
    case 8 => o.a == 255 && o.b == 255 && o.c == 255 && o.d == 255
    case _ => false
  }

  /** The reason each prefix is blocked for. */
  function ReasonOf(i: nat): Reason {
    match i
    case 3 => Loopback
    case 4 => LinkLocal
    case 5 => Unspecified
    case 6 => Cgnat
    case 7 => Multicast
    case 8 => Broadcast
    case _ => PrivateIpv4
  }

  lemma ReasonsListed(i: nat)
    requires i < 9
    ensures |BLOCKED| == 9 && BLOCKED[i].reason == ReasonOf(i)
  {}

  /**
   So the verdict on an address of four octets is blocked exactly on those prefixes, with the reason listed for
   them.
   */
  lemma Ipv4ByOctets(o: Dotted, i: nat)
    requires Octets(o) && i < 9
    ensures FirstMatch(BLOCKED, ToWord(o)).Blocked? <==> exists k :: 0 <= k < 9 && InRange(k, o)
    ensures InRange(i, o) ==> FirstMatch(BLOCKED, ToWord(o)) == Blocked(ReasonOf(i))
  {
    ReasonsListed(i);
    Ipv4IsIntervalMembership(ToWord(o), i);
    forall k | 0 <= k < 9 ensures Within(k, ToWord(o)) <==> InRange(k, o) {
    }
  }
}
