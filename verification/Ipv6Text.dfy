/** How the address check reads IPv6 text: digits, brackets and "::", malformed ones included. */
module Ipv6Texts {
  import opened Wrappers
  import opened Text
  import opened IpRanges
  import opened Ipv6
  import opened IpChecks

  // ---------------------------------------------------------------- digits

  /** The number a hexadecimal digit stands for; 16 for any other character. */
  function DigitOf(c: char): nat {
    var n := c as int;
    if 48 <= n <= 57 then n - 48
    else if 97 <= n <= 102 then n - 87
    else if 65 <= n <= 70 then n - 55
    else 16
  }

  predicate AllHex(g: string) {
    forall i :: 0 <= i < |g| ==> DigitOf(g[i]) < 16
  }

  /** The number a text of hexadecimal digits stands for. */
  function HexNumber(g: string): nat {
    if g == "" then 0 else 16 * HexNumber(g[..|g| - 1]) + DigitOf(g[|g| - 1])
  }

  lemma DecimalDigit(c: char)
    requires '0' <= c <= '9'
    ensures HexValue(c).Some? && HexValue(c).value < 16 && HexValue(c).value as int == c as int - 48
  {}

  lemma SmallDigit(c: char)
    requires 'a' <= c <= 'f'
    ensures HexValue(c).Some? && HexValue(c).value < 16 && HexValue(c).value as int == c as int - 87
  {}

  lemma CapitalDigit(c: char)
    requires 'A' <= c <= 'F'
    ensures HexValue(c).Some? && HexValue(c).value < 16 && HexValue(c).value as int == c as int - 55
  {}

  lemma DigitIs(c: char)
    ensures HexValue(c).Some? <==> DigitOf(c) < 16
    ensures DigitOf(c) < 16 ==> HexValue(c).value < 16 && HexValue(c).value as int == DigitOf(c)
  {
    if '0' <= c <= '9' { DecimalDigit(c); }
    if 'a' <= c <= 'f' { SmallDigit(c); }
    if 'A' <= c <= 'F' { CapitalDigit(c); }
  }

  lemma ShiftIsTimes(x: Group, d: Group)
    requires x < 4096 && d < 16
    ensures (x << 4) | d == 16 * x + d
  {}

  lemma TimesSixteen(x: Group, d: Group)
    requires x < 4096 && d < 16
    ensures (16 * x + d) as int == 16 * (x as int) + d as int
  {}

  lemma SmallGroup(x: Group, n: nat)
    requires x as int == n < 4096
    ensures x < 4096
  {}

  lemma ShiftedIs(x: Group, d: Group, n: nat)
    requires x as int == n < 4096 && d < 16
    ensures ((x << 4) | d) as int == 16 * n + d as int
  {
    SmallGroup(x, n);
    ShiftIsTimes(x, d);
    TimesSixteen(x, d);
  }

  /** The number read so far, and the digits to come. */
  function Onwards(n: nat, g: string): nat
    decreases |g|
  {
    if g == "" then n else Onwards(16 * n + DigitOf(g[0]), g[1..])
  }

  lemma {:induction false} OnwardsSnoc(n: nat, g: string, c: char)
    ensures Onwards(n, g + [c]) == 16 * Onwards(n, g) + DigitOf(c)
    decreases |g|
  {
    if g == "" {
      assert g + [c] == [c] && [c][1..] == "";
    } else {
      assert (g + [c])[1..] == g[1..] + [c];
      OnwardsSnoc(16 * n + DigitOf(g[0]), g[1..], c);
    }
  }

  lemma {:induction false} OnwardsIs(g: string)
    ensures Onwards(0, g) == HexNumber(g)
  {
    if g != "" {
      var front, c := g[..|g| - 1], g[|g| - 1];
      OnwardsIs(front);
      OnwardsSnoc(0, front, c);
      assert g == front + [c];
    }
  }

  /** Nothing read yet, or at most three digits. */
  predicate Room(n: nat, left: nat) {
    match left
    case 0 => true
    case 1 => n < 4096
    case 2 => n < 256
    case 3 => n < 16
    case _ => left == 4 && n == 0
  }

  /** The group `x` is the number `n`. */
  ghost predicate Stands(x: Group, n: nat) {
    x as int == n
  }

  lemma ShiftStands(x: Group, d: Group, n: nat, k: nat)
    requires Stands(x, n) && Stands(d, k) && n < 4096 && k < 16
    ensures Stands((x << 4) | d, 16 * n + k)
  {
    SmallGroup(x, n);
    SmallDigitGroup(d, k);
    ShiftedIs(x, d, n);
  }

  lemma SmallDigitGroup(d: Group, k: nat)
    requires d as int == k < 16
    ensures d < 16
  {}

  lemma DigitStands(c: char)
    requires DigitOf(c) < 16
    ensures HexValue(c).Some? && Stands(HexValue(c).value, DigitOf(c))
  {
    DigitIs(c);
  }

  lemma ParseNext(c: char, rest: string, acc: Group, d: Group)
    requires HexValue(c) == Some(d)
    ensures ParseHex([c] + rest, acc) == ParseHex(rest, (acc << 4) | d)
  {
    assert ([c] + rest)[1..] == rest;
  }

  lemma ReadNext(c: char, rest: string, acc: Group, n: nat) returns (next: Group)
    requires DigitOf(c) < 16 && Stands(acc, n) && n < 4096
    ensures ParseHex([c] + rest, acc) == ParseHex(rest, next) && Stands(next, 16 * n + DigitOf(c))
  {
    DigitStands(c);
    var d := HexValue(c).value;
    next := (acc << 4) | d;
    ParseNext(c, rest, acc, d);
    ShiftStands(acc, d, n, DigitOf(c));
  }

  lemma ParseNone(acc: Group, n: nat)
    requires Stands(acc, n)
    ensures Stands(ParseHex("", acc), n)
  {}

  lemma {:induction false} ParseStands(c: char, rest: string, acc: Group, n: nat, m: nat)
    requires DigitOf(c) < 16 && AllHex(rest) && Stands(acc, n) && Room(n, |rest| + 1)
    requires m == Onwards(16 * n + DigitOf(c), rest)
    ensures Stands(ParseHex([c] + rest, acc), m)
    decreases |rest|
  {
    var next := ReadNext(c, rest, acc, n);
    if rest == "" {
      ParseNone(next, 16 * n + DigitOf(c));
    } else {
      assert [rest[0]] + rest[1..] == rest;
      ParseStands(rest[0], rest[1..], next, 16 * n + DigitOf(c), m);
    }
  }

  /** A group of up to four hexadecimal digits has the value they stand for, whatever their case. */
  lemma GroupReads(g: string)
    requires |g| <= 4 && AllHex(g)
    ensures ParseHex(g, 0) as int == HexNumber(g)
  {
    if g == "" {
      ParseNone(0, 0);
    } else {
      ParseStands(g[0], g[1..], 0, 0, Onwards(0, g));
      assert [g[0]] + g[1..] == g;
    }
    OnwardsIs(g);
  }

  /** What stands behind the digits is not read. */
  lemma TailUnread(g: string, c: char, tail: string)
    requires |g| <= 4 && AllHex(g) && DigitOf(c) == 16
    ensures ParseHex(g + [c] + tail, 0) as int == HexNumber(g)
  {
    GroupReads(g);
    DigitIs(c);
    StopsAt(g, c, tail, 0);
  }

  lemma {:induction false} StopsAt(g: string, c: char, tail: string, acc: Group)
    requires HexValue(c) == None && AllHex(g)
    ensures ParseHex(g + [c] + tail, acc) == ParseHex(g, acc)
  {
    if g == "" {
      assert (g + [c] + tail)[0] == c;
    } else {
      DigitIs(g[0]);
      assert (g + [c] + tail)[1..] == g[1..] + [c] + tail;
      StopsAt(g[1..], c, tail, (acc << 4) | HexValue(g[0]).value);
    }
  }

  // ---------------------------------------------------------------- brackets and "::"

  /** Where the first "::" is. */
  lemma {:induction false} FindDoubleIs(s: string)
    ensures FindDouble(s).Some? ==>
              var i := FindDouble(s).value;
              i + 1 < |s| && s[i] == ':' == s[i + 1] && forall j :: 0 <= j < i ==> !(s[j] == ':' == s[j + 1])
    ensures FindDouble(s).None? ==> forall j :: 0 <= j < |s| - 1 ==> !(s[j] == ':' == s[j + 1])
  {
    if |s| >= 2 && !(s[0] == ':' == s[1]) {
      var t := s[1..];
      FindDoubleIs(t);
      var end := if FindDouble(t).Some? then FindDouble(t).value else |t| - 1;
      forall j | 0 <= j < end + 1 ensures !(s[j] == ':' == s[j + 1]) {
        if j > 0 { assert s[j] == t[j - 1] && s[j + 1] == t[j]; }
      }
    }
  }

  lemma CutAfter(a: string, tail: string, right: string)
    requires a == "" || (a[0] != '[' && a[|a| - 1] != ':' && FindDouble(a) == None)
    requires UpToDouble(tail) == right
    ensures Groups(a + "::" + tail) == Filled(Parts(a), Parts(right))
  {
    var text := a + "::" + tail;
    assert FindDouble(text) == Some(|a|) by { DoubleAfter(a, tail); }
    assert text[..|a|] == a && text[|a| + 2..] == tail;
    assert Unbracketed(text) == text by { assert text[0] != '['; }
  }

  lemma SecondCut(b: string, rest: string)
    requires b == "" || (b[|b| - 1] != ':' && FindDouble(b) == None)
    ensures UpToDouble(b + "::" + rest) == b
  {
    DoubleAfter(b, rest);
    assert (b + "::" + rest)[..|b|] == b;
  }

  /** What stands behind a second "::" is dropped. */
  lemma BehindSecondDouble(a: string, b: string, rest: string)
    requires a == "" || (a[0] != '[' && a[|a| - 1] != ':' && FindDouble(a) == None)
    requires b == "" || (b[|b| - 1] != ':' && FindDouble(b) == None)
    ensures Groups(a + "::" + (b + "::" + rest)) == Groups(a + "::" + b)
  {
    SecondCut(b, rest);
    CutAfter(a, b + "::" + rest, b);
    CutAfter(a, b, b);
  }

  /** Brackets are dropped with all that follows them; without a closing one the last character is dropped. */
  lemma BracketsDropped(inside: string, tail: string)
    requires Lacks(inside, ']')
    ensures Groups("[" + inside + "]" + tail) == BareGroups(inside)
    ensures Groups("[" + inside) == BareGroups(if inside == "" then "" else inside[..|inside| - 1])
  {
    var closed, open := "[" + inside + "]" + tail, "[" + inside;
    assert closed[1..] == inside + "]" + tail && open[1..] == inside;
    CutAt(inside, tail, ']');
    CutNone(inside, ']');
    if inside != "" { assert open[1..|open| - 1] == inside[..|inside| - 1]; }
  }

  // ---------------------------------------------------------------- the mapped prefix

  /** The prefix of a mapped address counts in every case, before dotted text and nothing else. */
  lemma MappedInAnyCase(prefix: string, text: string)
    requires SameButCase(prefix, "::ffff:") && IsIpv4(text)
    ensures IpVerdict(prefix + text) == IpVerdict(text)
  {
    var mapped := prefix + text;
    LowerIff(prefix, MAPPED);
    LowerChars(MAPPED);
    assert ToLower(MAPPED) == MAPPED;
    assert mapped[..|MAPPED|] == prefix && mapped[|MAPPED|..] == text;
    MappedIsUnwrapped(text, ParseDotted(text).value);
  }
}
