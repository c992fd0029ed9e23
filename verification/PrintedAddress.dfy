/** The address check on the text of an IPv4 address, by the numbers the text shows. */
module PrintedAddresses {
  import opened Wrappers
  import opened Text
  import opened IpRanges
  import opened IpChecks
  import Decimals

  // ---------------------------------------------------------------- octets

  lemma DigitWord(c: char)
    requires IsDigit(c)
    ensures DigitValue(c) as int == c as int - '0' as int && DigitValue(c) <= 9
  {}

  lemma OneMoreDigit(x: Word, d: Word)
    requires x <= 99 && d <= 9
    ensures (10 * x + d) as int == 10 * (x as int) + (d as int)
    ensures (x <= 9 ==> 10 * x + d <= 99) && (x == 0 ==> 10 * x + d == d)
  {}

  /** An octet is the number its digits are. */
  lemma {:induction false} OctetNumber(s: string)
    requires |s| <= 3 && Digits(s)
    ensures s != "" ==> Decimals.FromText(s) == Some(OctetValue(s) as int)
    ensures (|s| <= 2 ==> OctetValue(s) <= 99) && (|s| <= 1 ==> OctetValue(s) <= 9) && (s == "" ==> OctetValue(s) == 0)
  {
    if s != "" {
      var front, last := s[..|s| - 1], s[|s| - 1];
      OctetNumber(front);
      DigitWord(last);
      OneMoreDigit(OctetValue(front), DigitValue(last));
      ReadDigit(s, OctetValue(front) as int, DigitValue(last) as int);
    }
  }

  lemma ReadDigit(s: string, n: nat, d: nat)
    requires s != "" && Digits(s) && d == s[|s| - 1] as int - '0' as int
    requires |s| == 1 ==> n == 0
    requires 1 < |s| ==> Decimals.FromText(s[..|s| - 1]) == Some(n)
    ensures Decimals.FromText(s) == Some(10 * n + d)
  {}

  lemma NumeralLength(n: nat)
    requires n <= 255
    ensures |Decimals.ToText(n)| <= 3
  {
    assert |Decimals.ToText(n / 100)| == 1;
  }

  /** A printed number is an octet. */
  lemma PrintedOctet(n: nat)
    requires n <= 255
    ensures IsOctet(Decimals.ToText(n)) && Lacks(Decimals.ToText(n), '.')
    ensures Decimals.FromText(Decimals.ToText(n)) == Some(n)
  {
    NumeralLength(n);
    Decimals.FromToText(n);
  }

  // ---------------------------------------------------------------- dotted text

  function DottedText(p: string, q: string, r: string, s: string): string {
    p + "." + q + "." + r + "." + s
  }

  lemma DottedIsJoin(p: string, q: string, r: string, s: string)
    ensures Join([p, q, r, s], '.') == DottedText(p, q, r, s)
  {
    assert [p, q, r, s][1..] == [q, r, s] && [q, r, s][1..] == [r, s] && [r, s][1..] == [s];
    assert Join([r, s], '.') == r + ['.'] + s;
    assert Join([q, r, s], '.') == q + ['.'] + (r + ['.'] + s);
    assert p + ['.'] + (q + ['.'] + (r + ['.'] + s)) == DottedText(p, q, r, s);
  }

  lemma OctetLacksDot(s: string)
    requires IsOctet(s)
    ensures Lacks(s, '.')
  {}

  lemma DottedSplits(p: string, q: string, r: string, s: string)
    requires IsOctet(p) && IsOctet(q) && IsOctet(r) && IsOctet(s)
    ensures Split(DottedText(p, q, r, s), '.') == [p, q, r, s]
  {
    DottedIsJoin(p, q, r, s);
    OctetLacksDot(p);
    OctetLacksDot(q);
    OctetLacksDot(r);
    OctetLacksDot(s);
    forall part | part in [p, q, r, s] ensures Lacks(part, '.') {}
    SplitJoin([p, q, r, s], '.');
  }

  /** Text is dotted if and only if it is four octets between dots ... */
  lemma DottedIff(text: string)
    ensures IsIpv4(text) <==>
            exists p, q, r, s :: IsOctet(p) && IsOctet(q) && IsOctet(r) && IsOctet(s) && text == DottedText(p, q, r, s)
  {
    if IsIpv4(text) {
      var parts := Split(text, '.');
      JoinSplit(text, '.');
      DottedIsJoin(parts[0], parts[1], parts[2], parts[3]);
      assert parts == [parts[0], parts[1], parts[2], parts[3]];
      assert text == DottedText(parts[0], parts[1], parts[2], parts[3]);
    }
    if p, q, r, s :| IsOctet(p) && IsOctet(q) && IsOctet(r) && IsOctet(s) && text == DottedText(p, q, r, s) {
      DottedSplits(p, q, r, s);
    }
  }

  /** The octets are these numbers, in this order. */
  predicate Shows(o: Dotted, a: nat, b: nat, c: nat, d: nat) {
    o.a as int == a && o.b as int == b && o.c as int == c && o.d as int == d
  }

  /** ... and then its octets are the numbers it shows, in their order. */
  lemma DottedNumbers(p: string, q: string, r: string, s: string, a: nat, b: nat, c: nat, d: nat) returns (o: Dotted)
    requires IsOctet(p) && IsOctet(q) && IsOctet(r) && IsOctet(s)
    requires Decimals.FromText(p) == Some(a) && Decimals.FromText(q) == Some(b)
    requires Decimals.FromText(r) == Some(c) && Decimals.FromText(s) == Some(d)
    ensures ParseDotted(DottedText(p, q, r, s)) == Some(o) && Shows(o, a, b, c, d)
  {
    DottedSplits(p, q, r, s);
    OctetNumber(p);
    OctetNumber(q);
    OctetNumber(r);
    OctetNumber(s);
    o := Dotted(OctetValue(p), OctetValue(q), OctetValue(r), OctetValue(s));
  }

  // ---------------------------------------------------------------- the verdict

  /** The nine prefixes, on numbers. */
  predicate InPrefix(i: nat, a: nat, b: nat, c: nat, d: nat) {
    match i
    case 0 => a == 10
    case 1 => a == 172 && 16 <= b <= 31
    case 2 => a == 192 && b == 168
    case 3 => a == 127
    case 4 => a == 169 && b == 254
    case 5 => a == 0
    case 6 => a == 100 && 64 <= b <= 127
    case 7 => 224 <= a <= 239
    case 8 => a == 255 && b == 255 && c == 255 && d == 255
    case _ => false
  }

  lemma SmallWord(x: Word)
    ensures x <= 255 <==> x as int <= 255
  {}

  lemma WordsEqual(x: Word)
    ensures (x == 0 <==> x as int == 0) && (x == 10 <==> x as int == 10) && (x == 100 <==> x as int == 100)
    ensures (x == 127 <==> x as int == 127) && (x == 168 <==> x as int == 168) && (x == 169 <==> x as int == 169)
    ensures (x == 172 <==> x as int == 172) && (x == 192 <==> x as int == 192) && (x == 254 <==> x as int == 254)
    ensures x == 255 <==> x as int == 255
  {}

  lemma WordsBetween(x: Word)
    ensures (16 <= x <= 31 <==> 16 <= x as int <= 31) && (64 <= x <= 127 <==> 64 <= x as int <= 127)
    ensures 224 <= x <= 239 <==> 224 <= x as int <= 239
  {}

  lemma FirstWord(o: Dotted, a: nat)
    requires o.a as int == a
    ensures o.a == 255 <==> a == 255
  {
    WordsEqual(o.a);
  }

  lemma OtherWords(o: Dotted, b: nat, c: nat, d: nat)
    requires o.b as int == b && o.c as int == c && o.d as int == d
    ensures (o.b == 255 <==> b == 255) && (o.c == 255 <==> c == 255) && (o.d == 255 <==> d == 255)
  {
    WordsEqual(o.b);
    WordsEqual(o.c);
    WordsEqual(o.d);
  }

  predicate LikeFirst(x: Word, n: nat) {
    && (x == 0 <==> n == 0) && (x == 10 <==> n == 10) && (x == 100 <==> n == 100) && (x == 127 <==> n == 127)
    && (x == 169 <==> n == 169) && (x == 172 <==> n == 172) && (x == 192 <==> n == 192)
    && (224 <= x <= 239 <==> 224 <= n <= 239)
  }

  predicate LikeSecond(x: Word, n: nat) {
    && (x == 168 <==> n == 168) && (x == 254 <==> n == 254)
    && (16 <= x <= 31 <==> 16 <= n <= 31) && (64 <= x <= 127 <==> 64 <= n <= 127)
  }

  lemma IsLikeFirst(x: Word, n: nat)
    requires x as int == n
    ensures LikeFirst(x, n)
  {
    WordsEqual(x);
    WordsBetween(x);
  }

  lemma IsLikeSecond(x: Word, n: nat)
    requires x as int == n
    ensures LikeSecond(x, n)
  {
    WordsEqual(x);
    WordsBetween(x);
  }

  lemma FrontPrefix(o: Dotted, i: nat, a: nat, b: nat, c: nat, d: nat)
    requires i != 8 && LikeFirst(o.a, a) && LikeSecond(o.b, b)
    ensures InRange(i, o) <==> InPrefix(i, a, b, c, d)
  {}

  lemma WholePrefix(o: Dotted, a: nat, b: nat, c: nat, d: nat)
    requires Shows(o, a, b, c, d)
    ensures InRange(8, o) <==> InPrefix(8, a, b, c, d)
  {
    FirstWord(o, a);
    OtherWords(o, b, c, d);
  }

  lemma PrefixOfWords(o: Dotted, i: nat, a: nat, b: nat, c: nat, d: nat)
    requires Shows(o, a, b, c, d)
    ensures InRange(i, o) <==> InPrefix(i, a, b, c, d)
  {
    if i == 8 {
      WholePrefix(o, a, b, c, d);
    } else {
      IsLikeFirst(o.a, a);
      IsLikeSecond(o.b, b);
      FrontPrefix(o, i, a, b, c, d);
    }
  }

  lemma OctetsOfNumbers(o: Dotted, a: nat, b: nat, c: nat, d: nat)
    requires Shows(o, a, b, c, d) && a <= 255 && b <= 255 && c <= 255 && d <= 255
    ensures Octets(o)
  {
    SmallWord(o.a);
    SmallWord(o.b);
    SmallWord(o.c);
    SmallWord(o.d);
  }

  /** What the check is to answer for an address: blocked exactly on the nine prefixes, each for its reason. */
  ghost predicate VerdictIsRight(v: Verdict, a: nat, b: nat, c: nat, d: nat) {
    && (v == Allowed <==> forall i :: 0 <= i < 9 ==> !InPrefix(i, a, b, c, d))
    && forall i :: 0 <= i < 9 && InPrefix(i, a, b, c, d) ==> v == Blocked(ReasonOf(i))
  }

  lemma VerdictOfOctets(text: string, o: Dotted, a: nat, b: nat, c: nat, d: nat)
    requires ParseDotted(text) == Some(o) && Octets(o) && Shows(o, a, b, c, d)
    ensures VerdictIsRight(IpVerdict(text), a, b, c, d) && IpVerdict("::ffff:" + text) == IpVerdict(text)
  {
    DottedVerdict(text, o, 0);
    forall i | 0 <= i < 9 ensures InRange(i, o) <==> InPrefix(i, a, b, c, d) { PrefixOfWords(o, i, a, b, c, d); }
    forall i | 0 <= i < 9 && InRange(i, o) ensures IpVerdict(text) == Blocked(ReasonOf(i)) {
      DottedVerdict(text, o, i);
    }
  }

  /** Dotted text is judged by the numbers it shows, leading zeros or not, and behind the mapped prefix alike. */
  lemma DottedTextVerdict(p: string, q: string, r: string, s: string, a: nat, b: nat, c: nat, d: nat)
    requires IsOctet(p) && IsOctet(q) && IsOctet(r) && IsOctet(s) && a <= 255 && b <= 255 && c <= 255 && d <= 255
    requires Decimals.FromText(p) == Some(a) && Decimals.FromText(q) == Some(b)
    requires Decimals.FromText(r) == Some(c) && Decimals.FromText(s) == Some(d)
    ensures VerdictIsRight(IpVerdict(DottedText(p, q, r, s)), a, b, c, d)
    ensures VerdictIsRight(IpVerdict("::ffff:" + DottedText(p, q, r, s)), a, b, c, d)
  {
    var o := DottedNumbers(p, q, r, s, a, b, c, d);
    OctetsOfNumbers(o, a, b, c, d);
    VerdictOfOctets(DottedText(p, q, r, s), o, a, b, c, d);
  }

  /** A printed address is blocked exactly on the nine prefixes of its numbers, with the reason of the prefix. */
  lemma PrintedVerdict(a: nat, b: nat, c: nat, d: nat)
    requires a <= 255 && b <= 255 && c <= 255 && d <= 255
    ensures var text := Decimals.ToText(a) + "." + Decimals.ToText(b) + "."
                        + Decimals.ToText(c) + "." + Decimals.ToText(d);
            VerdictIsRight(IpVerdict(text), a, b, c, d) && VerdictIsRight(IpVerdict("::ffff:" + text), a, b, c, d)
  {
    PrintedOctet(a);
    PrintedOctet(b);
    PrintedOctet(c);
    PrintedOctet(d);
    DottedTextVerdict(Decimals.ToText(a), Decimals.ToText(b), Decimals.ToText(c), Decimals.ToText(d), a, b, c, d);
  }
}
