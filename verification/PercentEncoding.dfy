/** Percent-encoding of the UTF-8 bytes of a text, as `encodeURIComponent` does it, and its two decoders. */
module PercentEncoding {
  import opened Wrappers
  import opened Text

  type Octet = x: int | 0 <= x < 256

  /** A well-formed string, by its UTF-8 bytes. */
  type Utf8 = seq<Octet>

  predicate IsAlphanumeric(c: char) {
    'A' <= c <= 'Z' || 'a' <= c <= 'z' || '0' <= c <= '9'
  }

  /** The characters left as they are. */
  predicate IsPlain(c: char) {
    IsAlphanumeric(c) || c in "-_.!~*'()"
  }

  function HexDigit(n: int): char
    requires 0 <= n < 16
  {
    "0123456789ABCDEF"[n]
  }

  function HexValue(c: char): Option<int> {
    if '0' <= c <= '9' then Some(c as int - '0' as int)
    else if 'A' <= c <= 'F' then Some(c as int - 'A' as int + 10)
    else if 'a' <= c <= 'f' then Some(c as int - 'a' as int + 10)
    else None
  }

  function EncodeOctet(b: Octet): string {
    if b < 128 && IsPlain(b as char) then [b as char] else ['%', HexDigit(b / 16), HexDigit(b % 16)]
  }

  function Encode(text: Utf8): string {
    if text == [] then "" else EncodeOctet(text[0]) + Encode(text[1..])
  }

  /** `decodeURIComponent` on ASCII text; None where it throws. */
  function Decode(s: string): Option<Utf8> {
    if s == "" then Some([])
    else if s[0] == '%' then
      if |s| < 3 || HexValue(s[1]).None? || HexValue(s[2]).None? then None
      else
        match Decode(s[3..])
        case None => None
        case Some(rest) => Some([HexValue(s[1]).value * 16 + HexValue(s[2]).value] + rest)
    else if s[0] as int < 128 then
      match Decode(s[1..])
      case None => None
      case Some(rest) => Some([s[0] as int] + rest)
    else None
  }

  /** Decoding in a query: a plus is a space, and an escape that is none stands for itself. */
  function DecodeQuery(s: string): Utf8 {
    if s == "" then []
    else if s[0] == '%' && |s| >= 3 && HexValue(s[1]).Some? && HexValue(s[2]).Some? then
      [HexValue(s[1]).value * 16 + HexValue(s[2]).value] + DecodeQuery(s[3..])
    else if s[0] == '+' then [32] + DecodeQuery(s[1..])
    else if s[0] as int < 256 then [s[0] as int] + DecodeQuery(s[1..])
    else DecodeQuery(s[1..])
  }

  lemma HexRoundTrip(n: int)
    requires 0 <= n < 16
    ensures HexValue(HexDigit(n)) == Some(n) && IsAlphanumeric(HexDigit(n))
  {}

  /** What encoding leaves in the text: plain characters and percent signs. */
  lemma {:induction false} EncodedCharacters(text: Utf8)
    ensures forall c <- Encode(text) :: IsPlain(c) || c == '%'
  {
    if text != [] {
      EncodedCharacters(text[1..]);
      HexRoundTrip(text[0] / 16);
      HexRoundTrip(text[0] % 16);
    }
  }

  lemma EncodedLacks(text: Utf8, c: char)
    requires !IsPlain(c) && c != '%'
    ensures Lacks(Encode(text), c)
  {
    EncodedCharacters(text);
    forall i | 0 <= i < |Encode(text)| ensures Encode(text)[i] != c {
      assert Encode(text)[i] in Encode(text);
    }
  }

  lemma {:induction false} EncodedEmpty(text: Utf8)
    ensures Encode(text) == "" <==> text == []
  {}

  lemma DecodePlain(c: char, rest: string, text: Utf8)
    requires c as int < 128 && c != '%' && Decode(rest) == Some(text)
    ensures Decode([c] + rest) == Some([c as int] + text)
  {
    assert ([c] + rest)[1..] == rest;
  }

  lemma DecodeEscape(b: Octet, rest: string, text: Utf8)
    requires Decode(rest) == Some(text)
    ensures Decode(['%', HexDigit(b / 16), HexDigit(b % 16)] + rest) == Some([b] + text)
  {
    HexRoundTrip(b / 16);
    HexRoundTrip(b % 16);
    assert (['%', HexDigit(b / 16), HexDigit(b % 16)] + rest)[3..] == rest;
  }

  /** Decoding undoes encoding. */
  lemma {:induction false} DecodeEncode(text: Utf8)
    ensures Decode(Encode(text)) == Some(text)
  {
    if text != [] {
      DecodeEncode(text[1..]);
      var b := text[0];
      if b < 128 && IsPlain(b as char) {
        DecodePlain(b as char, Encode(text[1..]), text[1..]);
      } else {
        DecodeEscape(b, Encode(text[1..]), text[1..]);
      }
      assert [b] + text[1..] == text;
    }
  }

  lemma DecodeQueryPlain(c: char, rest: string)
    requires IsPlain(c)
    ensures DecodeQuery([c] + rest) == [c as int] + DecodeQuery(rest)
  {
    assert ([c] + rest)[1..] == rest;
  }

  lemma DecodeQueryEscape(b: Octet, rest: string)
    ensures DecodeQuery(['%', HexDigit(b / 16), HexDigit(b % 16)] + rest) == [b] + DecodeQuery(rest)
  {
    HexRoundTrip(b / 16);
    HexRoundTrip(b % 16);
    assert (['%', HexDigit(b / 16), HexDigit(b % 16)] + rest)[3..] == rest;
  }

  lemma {:induction false} DecodeQueryEncode(text: Utf8)
    ensures DecodeQuery(Encode(text)) == text
  {
    if text != [] {
      DecodeQueryEncode(text[1..]);
      var b := text[0];
      if b < 128 && IsPlain(b as char) {
        DecodeQueryPlain(b as char, Encode(text[1..]));
      } else {
        DecodeQueryEscape(b, Encode(text[1..]));
      }
    }
  }

  /** As forms encode it: a space is a plus. */
  function FormEncode(text: Utf8): string {
    if text == [] then "" else (if text[0] == 32 then "+" else EncodeOctet(text[0])) + FormEncode(text[1..])
  }

  lemma {:induction false} DecodeForm(text: Utf8)
    ensures DecodeQuery(FormEncode(text)) == text
  {
    if text != [] {
      var b, rest := text[0], FormEncode(text[1..]);
      DecodeForm(text[1..]);
      if b == 32 {
        assert ("+" + rest)[1..] == rest;
      } else if b < 128 && IsPlain(b as char) {
        DecodeQueryPlain(b as char, rest);
      } else {
        DecodeQueryEscape(b, rest);
      }
      assert [b] + text[1..] == text;
    }
  }
}
