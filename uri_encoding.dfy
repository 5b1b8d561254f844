/**
 * JavaScript's `encodeURIComponent` (the Encode operation of ECMA-262 with its
 * unescaped set `A-Z a-z 0-9 - _ . ! ~ * ' ( )`), the octet-wise percent-encoding of
 * section 2.1 of RFC 3986 that it amounts to, and the percent-decoder that undoes it.
 */
module UriEncoding {
  import opened Wrappers
  import opened Unicode

  /** Characters `encodeURIComponent` leaves as they are. */
  predicate IsUriUnreserved(c: char) {
    ('A' <= c <= 'Z') || ('a' <= c <= 'z') || ('0' <= c <= '9') ||
    c == '-' || c == '_' || c == '.' || c == '!' || c == '~' || c == '*' || c == '\'' || c == '(' || c == ')'
  }

  predicate IsUpperHexDigit(c: char) { ('0' <= c <= '9') || ('A' <= c <= 'F') }
  predicate IsHexDigit(c: char) { IsUpperHexDigit(c) || ('a' <= c <= 'f') }

  /** Upper-case hexadecimal digit, as percent-encoding emits it. */
  function HexDigit(n: nat): (c: char)
    requires n < 16
    ensures IsUpperHexDigit(c)
  {
    if n < 10 then ('0' as int + n) as char else ('A' as int + n - 10) as char
  }

  /** Value of a hexadecimal digit of either case, as percent-decoding reads it. */
  function HexValue(c: char): (n: nat)
    requires IsHexDigit(c)
    ensures n < 16
  {
    if '0' <= c <= '9' then c as int - '0' as int
    else if 'A' <= c <= 'F' then c as int - 'A' as int + 10
    else c as int - 'a' as int + 10
  }

  function Triplet(b: Byte): string
  {
    ['%', HexDigit(b / 16), HexDigit(b % 16)]
  }

  /** `%XX` for every octet. */
  function EscapeOctets(bs: seq<Byte>): string
  {
    if bs == [] then [] else Triplet(bs[0]) + EscapeOctets(bs[1..])
  }

  /** One code point as Encode emits it: itself when unescaped, else its UTF-8 octets escaped. */
  function EncodeCodePoint(c: CodePoint): string
  {
    if c < 0x80 && IsUriUnreserved(c as char) then [c as char] else EscapeOctets(Utf8Of(c))
  }

  function EncodeCodePoints(cps: seq<CodePoint>): string
  {
    if cps == [] then [] else EncodeCodePoint(cps[0]) + EncodeCodePoints(cps[1..])
  }

  /** `encodeURIComponent(s)`; None where JavaScript throws URIError (an unpaired surrogate). */
  function EncodeUriComponent(s: seq<CodeUnit>): (r: Option<string>)
    ensures r.Some? <==> WellFormedUtf16(s)
  {
    StrictDecodeAgrees(s);
    match DecodeUtf16Strict(s)
    case None => None
    case Some(cps) => Some(EncodeCodePoints(cps))
  }

  /** Octet-wise percent-encoding: an unreserved ASCII octet stands for itself, any other is `%XX`. */
  function PercentEncodeOctets(bs: seq<Byte>): string
  {
    if bs == [] then []
    else (if bs[0] < 0x80 && IsUriUnreserved(bs[0] as char) then [bs[0] as char] else Triplet(bs[0]))
         + PercentEncodeOctets(bs[1..])
  }

  /** Percent-decoding: `%` and two hex digits stand for an octet, any other ASCII character for itself. */
  function PercentDecode(s: string): Option<seq<Byte>>
    decreases |s|
  {
    if s == [] then Some([])
    else if s[0] == '%' then
      if |s| >= 3 && IsHexDigit(s[1]) && IsHexDigit(s[2]) then
        match PercentDecode(s[3..])
        case None => None
        case Some(rest) => Some([(HexValue(s[1]) * 16 + HexValue(s[2])) as Byte] + rest)
      else None
    else if s[0] as int < 0x80 then
      match PercentDecode(s[1..])
      case None => None
      case Some(rest) => Some([s[0] as int as Byte] + rest)
    else None
  }

  /** Only unreserved characters and `%XX` triplets with upper-case hex digits. */
  predicate WellEncoded(s: string)
    decreases |s|
  {
    if s == [] then true
    else if IsUriUnreserved(s[0]) then WellEncoded(s[1..])
    else |s| >= 3 && s[0] == '%' && IsUpperHexDigit(s[1]) && IsUpperHexDigit(s[2]) && WellEncoded(s[3..])
  }

  lemma {:induction false} PercentEncodeOctetsAppend(a: seq<Byte>, b: seq<Byte>)
    ensures PercentEncodeOctets(a + b) == PercentEncodeOctets(a) + PercentEncodeOctets(b)
  {
    if a == [] {
      assert a + b == b;
    } else {
      assert (a + b)[0] == a[0];
      assert (a + b)[1..] == a[1..] + b;
      PercentEncodeOctetsAppend(a[1..], b);
    }
  }

  lemma {:induction false} HighOctetsAreEscaped(bs: seq<Byte>)
    requires forall i :: 0 <= i < |bs| ==> bs[i] >= 0x80
    ensures PercentEncodeOctets(bs) == EscapeOctets(bs)
  {
    if bs != [] {
      HighOctetsAreEscaped(bs[1..]);
    }
  }

  /** One code point is encoded as the octet-wise percent-encoding of its UTF-8 bytes. */
  lemma EncodeCodePointIsOctetwise(c: CodePoint)
    ensures EncodeCodePoint(c) == PercentEncodeOctets(Utf8Of(c))
  {
    if c < 0x80 {
      var b := Utf8Of(c);
      assert b == [c as Byte];
      assert b[1..] == [];
      assert PercentEncodeOctets(b) ==
        (if b[0] < 0x80 && IsUriUnreserved(b[0] as char) then [b[0] as char] else Triplet(b[0])) + [];
      assert EscapeOctets(b) == Triplet(b[0]) + [];
    } else {
      HighOctetsAreEscaped(Utf8Of(c));
    }
  }

  /** Encode, character by character, is the octet-wise percent-encoding of the UTF-8 bytes. */
  lemma {:induction false} EncodeIsOctetwise(cps: seq<CodePoint>)
    ensures EncodeCodePoints(cps) == PercentEncodeOctets(EncodeUtf8(cps))
  {
    if cps != [] {
      var c := cps[0];
      EncodeIsOctetwise(cps[1..]);
      PercentEncodeOctetsAppend(Utf8Of(c), EncodeUtf8(cps[1..]));
      EncodeCodePointIsOctetwise(c);
    }
  }

  lemma HexRoundTrip(b: Byte)
    ensures HexValue(HexDigit(b / 16)) * 16 + HexValue(HexDigit(b % 16)) == b
  {
  }

  /** Percent-decoding undoes percent-encoding. */
  lemma {:induction false} PercentRoundTrip(bs: seq<Byte>)
    ensures PercentDecode(PercentEncodeOctets(bs)) == Some(bs)
  {
    if bs != [] {
      var s := PercentEncodeOctets(bs);
      var tail := PercentEncodeOctets(bs[1..]);
      PercentRoundTrip(bs[1..]);
      if bs[0] < 0x80 && IsUriUnreserved(bs[0] as char) {
        assert s == [bs[0] as char] + tail;
        assert s[1..] == tail;
      } else {
        assert s == Triplet(bs[0]) + tail;
        assert s[3..] == tail;
        HexRoundTrip(bs[0]);
      }
      assert [bs[0]] + bs[1..] == bs;
    }
  }

  /** Percent-encoding only ever emits unreserved characters and upper-case `%XX` triplets. */
  lemma {:induction false} PercentEncodingIsWellEncoded(bs: seq<Byte>)
    ensures WellEncoded(PercentEncodeOctets(bs))
  {
    if bs != [] {
      var s := PercentEncodeOctets(bs);
      var tail := PercentEncodeOctets(bs[1..]);
      PercentEncodingIsWellEncoded(bs[1..]);
      if bs[0] < 0x80 && IsUriUnreserved(bs[0] as char) {
        assert s[1..] == tail;
      } else {
        assert s == Triplet(bs[0]) + tail;
        assert s[3..] == tail;
      }
    }
  }

  /** Percent-decoding, UTF-8 decoding and UTF-16 encoding: how a client reads back a `filename*` value. */
  function DecodeUriComponent(s: string): Option<seq<CodeUnit>>
  {
    match PercentDecode(s)
    case None => None
    case Some(bs) =>
      match DecodeUtf8(bs)
      case None => None
      case Some(cps) => Some(EncodeUtf16(cps))
  }

  /**
   * `encodeURIComponent` round trip: the result is well encoded and decodes back to the
   * string itself, for every string it accepts.
   */
  lemma EncodeUriComponentRoundTrip(s: seq<CodeUnit>)
    requires WellFormedUtf16(s)
    ensures EncodeUriComponent(s).Some?
    ensures WellEncoded(EncodeUriComponent(s).value)
    ensures DecodeUriComponent(EncodeUriComponent(s).value) == Some(s)
  {
    StrictDecodeAgrees(s);
    var cps := DecodeUtf16Lossy(s);
    EncodeIsOctetwise(cps);
    PercentEncodingIsWellEncoded(EncodeUtf8(cps));
    PercentRoundTrip(EncodeUtf8(cps));
    Utf8RoundTrip(cps);
    WellFormedUtf16RoundTrip(s);
  }
}
