/**
 The IPv6 side of the address checker, on the text of an address: expansion to eight
 groups, bytes, and prefix comparison; and the public check, which unwraps IPv4-mapped
 text first.
 */
module Ipv6 {
  import opened Wrappers
  import opened Text
  import opened IpRanges
  import opened Bits

  /** Words of 16 bits, so an overlong group keeps its low 16 bits. */
  type Group = bv16

  // ---------------------------------------------------------------- expansion

  function FindDouble(s: string): Option<nat> {
    if |s| < 2 then None
    else if s[0] == ':' && s[1] == ':' then Some(0)
    else
      match FindDouble(s[1..])
      case None => None
      case Some(i) => Some(i + 1)
  }

  lemma {:induction false} FoundWithin(s: string)
    ensures FindDouble(s).Some? ==> FindDouble(s).value + 2 <= |s|
  {
    if |s| >= 2 { FoundWithin(s[1..]); }
  }

  function Unbracketed(address: string): string {
    if address != "" && address[0] == '[' then
      match Cut(address[1..], ']')
      case Some((inside, _)) => inside
      case None => if |address| < 2 then "" else address[1..|address| - 1]
    else address
  }

  function Parts(s: string): seq<string> {
    if s == "" then [] else Split(s, ':')
  }

  function Zeros(n: int): seq<string> {
    if n <= 0 then [] else ["0000"] + Zeros(n - 1)
  }

  function Padded(parts: seq<string>): seq<string> {
    if parts == [] then [] else [PadStart(parts[0], 4, '0')] + Padded(parts[1..])
  }

  /** How many groups "::" stands for. */
  function Missing(left: seq<string>, right: seq<string>): int {
    8 - |left| - |right|
  }

  /** The groups of a text with "::", from those that stand left and right of it. */
  function Filled(left: seq<string>, right: seq<string>): seq<string> {
    Padded(left) + Zeros(Missing(left, right)) + Padded(right)
  }

  /** The text up to the next "::", if there is another one. */
  function UpToDouble(s: string): string {
    FoundWithin(s);
    if FindDouble(s).Some? then s[..FindDouble(s).value] else s
  }

  /** The groups an address text expands to. */
  function Groups(address: string): seq<string> {
    BareGroups(Unbracketed(address))
  }

  function BareGroups(addr: string): seq<string> {
    FoundWithin(addr);
    match FindDouble(addr)
    case Some(i) => Filled(Parts(addr[..i]), Parts(UpToDouble(addr[i + 2..])))
    case None => Padded(Split(addr, ':'))
  }

  function ExpandIpv6(address: string): string {
    Join(Groups(address), ':')
  }

  // ---------------------------------------------------------------- bytes

  function HexValue(c: char): Option<Group> {
    match c
    case '0' => Some(0) case '1' => Some(1) case '2' => Some(2) case '3' => Some(3)
    case '4' => Some(4) case '5' => Some(5) case '6' => Some(6) case '7' => Some(7)
    case '8' => Some(8) case '9' => Some(9) case 'a' => Some(10) case 'b' => Some(11)
    case 'c' => Some(12) case 'd' => Some(13) case 'e' => Some(14) case 'f' => Some(15)
    case 'A' => Some(10) case 'B' => Some(11) case 'C' => Some(12) case 'D' => Some(13)
    case 'E' => Some(14) case 'F' => Some(15)
    case _ => None
  }

  /** The hexadecimal digits at the front; anything else ends the number, and no digit at all counts as 0. */
  function ParseHex(s: string, acc: Group): Group {
    if s == "" || HexValue(s[0]).None? then acc else ParseHex(s[1..], (acc << 4) | HexValue(s[0]).value)
  }

  function High(g: string): Byte {
    (ParseHex(g, 0) >> 8) as Byte
  }

  function Low(g: string): Byte {
    (ParseHex(g, 0) & 0xFF) as Byte
  }

  function BytesOf(groups: seq<string>): seq<Byte> {
    if groups == [] then []
        else BytesOf(groups[..|groups| - 1]) + [High(groups[|groups| - 1])] + [Low(groups[|groups| - 1])]
  }

  method Ipv6ToBytes(expanded: string) returns (bytes: seq<Byte>)
    ensures bytes == BytesOf(Split(expanded, ':'))
  {
    var groups := Split(expanded, ':');
    bytes := [];
    for i := 0 to |groups|
      invariant bytes == BytesOf(groups[..i])
    {
      assert groups[..i + 1][..i] == groups[..i];
      bytes := bytes + [High(groups[i])];
      bytes := bytes + [Low(groups[i])];
    }
    assert groups[..|groups|] == groups;
  }

  // ---------------------------------------------------------------- prefixes

  /** The k-th bit of a byte, from the top. */
  function BitMask(k: nat): Byte {
    match k
    case 0 => 0x80 case 1 => 0x40 case 2 => 0x20 case 3 => 0x10
    case 4 => 0x08 case 5 => 0x04 case 6 => 0x02 case _ => 0x01
  }

  function ByteAt(bytes: seq<Byte>, i: nat): Byte {
    if i < |bytes| then bytes[i] else 0
  }

  predicate BitEq(x: Byte, y: Byte, k: nat) {
    AgreeUnder(x, y, BitMask(k))
  }

  /** The n-th bit of two addresses is the same. */
  predicate SameBit(a: seq<Byte>, b: seq<Byte>, n: nat) {
    BitEq(ByteAt(a, n / 8), ByteAt(b, n / 8), n % 8)
  }

  /** The top `len` bits of two addresses agree. */
  ghost predicate SamePrefix(a: seq<Byte>, b: seq<Byte>, len: nat) {
    forall n :: 0 <= n < len ==> SameBit(a, b, n)
  }

  /** The mask of the top `r` bits of a byte, as the code computes it. */
  function TopMask(r: nat): Byte
    requires r < 8
  {
    0xFF << (8 - r)
  }

  /** The same mask, bit by bit. */
  function Top(r: nat): Byte {
    if r == 0 then 0 else Top(r - 1) | BitMask(r - 1)
  }

  lemma TopMaskIs(r: nat)
    requires 0 < r < 8
    ensures TopMask(r) == Top(r)
  {
    match r
    case 1 => case 2 => case 3 => case 4 => case 5 => case 6 => case 7 =>
  }

  predicate SameBits(x: Byte, y: Byte, r: nat) {
    r == 0 || (SameBits(x, y, r - 1) && BitEq(x, y, r - 1))
  }

  predicate AgreeUnder(x: Byte, y: Byte, mask: Byte) {
    x & mask == y & mask
  }

  lemma {:induction false} MaskToBits(x: Byte, y: Byte, r: nat)
    requires AgreeUnder(x, y, Top(r))
    ensures SameBits(x, y, r)
  {
    if r > 0 {
      MaskToBits(x, y, r - 1);
    }
  }

  lemma {:induction false} BitsToMask(x: Byte, y: Byte, r: nat)
    requires SameBits(x, y, r)
    ensures AgreeUnder(x, y, Top(r))
  {
    if r == 0 {
      ZeroMask(x);
      ZeroMask(y);
    } else {
      BitsToMask(x, y, r - 1);
    }
  }

  /** Comparing under a mask is comparing the bits above it. */
  lemma MaskIsBits(x: Byte, y: Byte, r: nat)
    ensures AgreeUnder(x, y, Top(r)) <==> SameBits(x, y, r)
  {
    if AgreeUnder(x, y, Top(r)) { MaskToBits(x, y, r); }
    if SameBits(x, y, r) { BitsToMask(x, y, r); }
  }

  lemma WholeByte(x: Byte, y: Byte)
    ensures x == y <==> SameBits(x, y, 8)
  {
    MaskIsBits(x, y, 8);
  }

  lemma OneMoreBit(a: seq<Byte>, b: seq<Byte>, i: nat, r: nat)
    requires r < 8
    ensures SamePrefix(a, b, 8 * i + r + 1) <==> SamePrefix(a, b, 8 * i + r) && BitEq(ByteAt(a, i), ByteAt(b, i), r)
  {
    assert (8 * i + r) / 8 == i && (8 * i + r) % 8 == r;
    assert SameBit(a, b, 8 * i + r) <==> BitEq(ByteAt(a, i), ByteAt(b, i), r);
    if SamePrefix(a, b, 8 * i + r + 1) {
      assert SameBit(a, b, 8 * i + r);
    }
  }

  /** Extending the prefix by the top bits of the i-th byte. */
  lemma {:induction false} MoreBits(a: seq<Byte>, b: seq<Byte>, i: nat, r: nat)
    requires r <= 8
    ensures SamePrefix(a, b, 8 * i + r) <==> SamePrefix(a, b, 8 * i) && SameBits(ByteAt(a, i), ByteAt(b, i), r)
  {
    if r > 0 {
      MoreBits(a, b, i, r - 1);
      OneMoreBit(a, b, i, r - 1);
    }
  }

  /** What comparing the i-th byte, whole or masked, decides. */
  lemma ByteDecides(a: seq<Byte>, b: seq<Byte>, i: nat, r: nat)
    requires SamePrefix(a, b, 8 * i) && 0 < r
    ensures 8 <= r ==> (ByteAt(a, i) == ByteAt(b, i) <==> SamePrefix(a, b, 8 * i + 8))
    ensures r < 8 ==> (ByteAt(a, i) & TopMask(r) == ByteAt(b, i) & TopMask(r) <==> SamePrefix(a, b, 8 * i + r))
  {
    if 8 <= r {
      MoreBits(a, b, i, 8);
      WholeByte(ByteAt(a, i), ByteAt(b, i));
    } else {
      MoreBits(a, b, i, r);
      TopMaskIs(r);
      MaskIsBits(ByteAt(a, i), ByteAt(b, i), r);
    }
  }

  /** One byte of the comparison: whole while at least eight bits remain, masked for the rest. */
  method ByteMatches(a: seq<Byte>, b: seq<Byte>, i: nat, remaining: nat) returns (same: bool)
    requires SamePrefix(a, b, 8 * i) && 0 < remaining
    ensures same <==> SamePrefix(a, b, 8 * i + (if 8 <= remaining then 8 else remaining))
  {
    var addrByte, netByte := ByteAt(a, i), ByteAt(b, i);
    ByteDecides(a, b, i, remaining);
    if 8 <= remaining {
      same := addrByte == netByte;
    } else {
      var mask := TopMask(remaining);
      same := addrByte & mask == netByte & mask;
    }
  }

  /** The byte loop decides exactly whether the top `prefixLen` bits agree. */
  method Ipv6MatchesPrefix(a: seq<Byte>, b: seq<Byte>, prefixLen: nat) returns (same: bool)
    requires prefixLen <= 128
    ensures same <==> SamePrefix(a, b, prefixLen)
  {
    var remaining := prefixLen;
    var i := 0;
    ghost var compared := 0;
    while i < 16 && 0 < remaining
      invariant 0 <= i <= 16
      invariant compared + remaining == prefixLen
      invariant 0 < remaining ==> compared == 8 * i
      invariant SamePrefix(a, b, compared)
    {
      var agrees := ByteMatches(a, b, i, remaining);
      if !agrees {
        return false;
      }
      if 8 <= remaining {
        remaining, compared := remaining - 8, compared + 8;
      } else {
        remaining, compared := 0, prefixLen;
      }
      i := i + 1;
    }
    return true;
  }

}
