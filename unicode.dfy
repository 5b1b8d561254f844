/**
 * Text as JavaScript holds it (UTF-16 code units) and as it travels (UTF-8 bytes),
 * with the conversions between them that the PDF download route relies on.
 */
module Unicode {
  import opened Wrappers

  /** One UTF-16 code unit: a JavaScript string is a sequence of these. */
  type CodeUnit = u: int | 0 <= u < 0x1_0000

  type Byte = b: int | 0 <= b < 0x100

  predicate IsScalarValue(c: int) { 0 <= c < 0xD800 || 0xE000 <= c < 0x11_0000 }

  /** A Unicode scalar value: any code point that is not a surrogate. */
  type CodePoint = c: int | 0 <= c < 0xD800 || 0xE000 <= c < 0x11_0000

  const ReplacementCharacter: CodePoint := 0xFFFD

  predicate IsHighSurrogate(u: int) { 0xD800 <= u < 0xDC00 }
  predicate IsLowSurrogate(u: int) { 0xDC00 <= u < 0xE000 }
  predicate IsSurrogate(u: int) { 0xD800 <= u < 0xE000 }

  function CombineSurrogates(hi: CodeUnit, lo: CodeUnit): (c: CodePoint)
    requires IsHighSurrogate(hi) && IsLowSurrogate(lo)
    ensures 0x1_0000 <= c
  {
    0x1_0000 + (hi - 0xD800) * 0x400 + (lo - 0xDC00)
  }

  // ---------------------------------------------------------------- UTF-16

  /** The code units of one code point: itself, or a high/low surrogate pair above the BMP. */
  function Utf16Of(c: CodePoint): (u: seq<CodeUnit>)
    ensures |u| == (if c < 0x1_0000 then 1 else 2)
  {
    if c < 0x1_0000 then [c as CodeUnit]
    else
      var v := c - 0x1_0000;
      assert v / 0x400 < 0x400;
      [(0xD800 + v / 0x400) as CodeUnit, (0xDC00 + v % 0x400) as CodeUnit]
  }

  function EncodeUtf16(cps: seq<CodePoint>): seq<CodeUnit>
  {
    if cps == [] then [] else Utf16Of(cps[0]) + EncodeUtf16(cps[1..])
  }

  /** The scalar values of a Dafny string. */
  function ScalarsOf(s: string): (cps: seq<CodePoint>)
    ensures |cps| == |s| && forall i :: 0 <= i < |s| ==> cps[i] == s[i] as int
  {
    if s == [] then [] else [s[0] as int as CodePoint] + ScalarsOf(s[1..])
  }

  /** The JavaScript string (UTF-16 code units) holding the characters of a Dafny string. */
  function ToUtf16(s: string): seq<CodeUnit>
  {
    EncodeUtf16(ScalarsOf(s))
  }

  /** A code unit below the surrogate range occurs in the encoding exactly where the code point does. */
  lemma {:induction false} EncodeUtf16Membership(cps: seq<CodePoint>, u: CodeUnit)
    requires u < 0xD800
    ensures u in EncodeUtf16(cps) <==> u in cps
  {
    if cps != [] {
      EncodeUtf16Membership(cps[1..], u);
      assert cps == [cps[0]] + cps[1..];
      if cps[0] >= 0x1_0000 {
        assert Utf16Of(cps[0])[0] >= 0xD800 && Utf16Of(cps[0])[1] >= 0xD800;
      }
    }
  }

  /** No unpaired surrogate: the string is well-formed UTF-16. */
  predicate WellFormedUtf16(u: seq<CodeUnit>)
    decreases |u|
  {
    if u == [] then true
    else if IsHighSurrogate(u[0]) && |u| > 1 && IsLowSurrogate(u[1]) then WellFormedUtf16(u[2..])
    else !IsSurrogate(u[0]) && WellFormedUtf16(u[1..])
  }

  /**
   * The code points of a JavaScript string as Node's `Buffer.from(s, 'utf-8')` reads them:
   * surrogate pairs are combined and every unpaired surrogate becomes U+FFFD.
   */
  function DecodeUtf16Lossy(u: seq<CodeUnit>): seq<CodePoint>
    decreases |u|
  {
    if u == [] then []
    else if IsHighSurrogate(u[0]) && |u| > 1 && IsLowSurrogate(u[1]) then
      [CombineSurrogates(u[0], u[1])] + DecodeUtf16Lossy(u[2..])
    else if IsSurrogate(u[0]) then [ReplacementCharacter] + DecodeUtf16Lossy(u[1..])
    else [u[0]] + DecodeUtf16Lossy(u[1..])
  }

  /**
   * The code points of a JavaScript string as `encodeURIComponent` reads them:
   * an unpaired surrogate is an error (JavaScript throws URIError).
   */
  function DecodeUtf16Strict(u: seq<CodeUnit>): Option<seq<CodePoint>>
    decreases |u|
  {
    if u == [] then Some([])
    else if IsHighSurrogate(u[0]) && |u| > 1 && IsLowSurrogate(u[1]) then
      match DecodeUtf16Strict(u[2..])
      case Some(rest) => Some([CombineSurrogates(u[0], u[1])] + rest)
      case None => None
    else if IsSurrogate(u[0]) then None
    else
      match DecodeUtf16Strict(u[1..])
      case Some(rest) => Some([u[0]] + rest)
      case None => None
  }

  /** The strict reading fails exactly on ill-formed strings and otherwise agrees with the lossy one. */
  lemma {:induction false} StrictDecodeAgrees(u: seq<CodeUnit>)
    ensures DecodeUtf16Strict(u) == if WellFormedUtf16(u) then Some(DecodeUtf16Lossy(u)) else None
    decreases |u|
  {
    if u == [] {
    } else if IsHighSurrogate(u[0]) && |u| > 1 && IsLowSurrogate(u[1]) {
      StrictDecodeAgrees(u[2..]);
    } else if IsSurrogate(u[0]) {
    } else {
      StrictDecodeAgrees(u[1..]);
    }
  }

  lemma Utf16OfPrefix(c: CodePoint, tail: seq<CodeUnit>)
    ensures DecodeUtf16Lossy(Utf16Of(c) + tail) == [c] + DecodeUtf16Lossy(tail)
    ensures WellFormedUtf16(Utf16Of(c) + tail) == WellFormedUtf16(tail)
  {
    var u := Utf16Of(c) + tail;
    if c < 0x1_0000 {
      assert u[1..] == tail;
    } else {
      var v := c - 0x1_0000;
      assert v / 0x400 * 0x400 + v % 0x400 == v;
      assert u[0] == 0xD800 + v / 0x400 && u[1] == 0xDC00 + v % 0x400;
      assert IsHighSurrogate(u[0]) && IsLowSurrogate(u[1]);
      assert u[2..] == tail;
      assert CombineSurrogates(u[0], u[1]) == c;
    }
  }

  /** Encoding code points as UTF-16 gives a well-formed string that decodes back to them. */
  lemma {:induction false} Utf16RoundTrip(cps: seq<CodePoint>)
    ensures WellFormedUtf16(EncodeUtf16(cps))
    ensures DecodeUtf16Lossy(EncodeUtf16(cps)) == cps
  {
    if cps != [] {
      Utf16RoundTrip(cps[1..]);
      Utf16OfPrefix(cps[0], EncodeUtf16(cps[1..]));
    }
  }

  /** A well-formed string is recovered exactly from its code points. */
  lemma {:induction false} WellFormedUtf16RoundTrip(u: seq<CodeUnit>)
    requires WellFormedUtf16(u)
    ensures EncodeUtf16(DecodeUtf16Lossy(u)) == u
    decreases |u|
  {
    if u == [] {
    } else if IsHighSurrogate(u[0]) && |u| > 1 && IsLowSurrogate(u[1]) {
      WellFormedUtf16RoundTrip(u[2..]);
      var c := CombineSurrogates(u[0], u[1]);
      assert Utf16Of(c) == u[..2];
      assert DecodeUtf16Lossy(u) == [c] + DecodeUtf16Lossy(u[2..]);
      assert ([c] + DecodeUtf16Lossy(u[2..]))[1..] == DecodeUtf16Lossy(u[2..]);
      assert u == u[..2] + u[2..];
    } else {
      WellFormedUtf16RoundTrip(u[1..]);
      assert ([u[0] as CodePoint] + DecodeUtf16Lossy(u[1..]))[1..] == DecodeUtf16Lossy(u[1..]);
      assert u == [u[0]] + u[1..];
    }
  }

  // ----------------------------------------------------------------- UTF-8

  /** The UTF-8 bytes of one code point (section 3 of RFC 3629): six payload bits per continuation byte. */
  function Utf8Of(c: CodePoint): (b: seq<Byte>)
    ensures 1 <= |b| <= 4
    ensures (|b| == 1) == (c < 0x80)
    ensures |b| > 1 ==> forall i :: 0 <= i < |b| ==> b[i] >= 0x80
  {
    var c1 := c / 0x40;
    var c2 := c1 / 0x40;
    var c3 := c2 / 0x40;
    if c < 0x80 then [c as Byte]
    else if c < 0x800 then [(0xC0 + c1) as Byte, (0x80 + c % 0x40) as Byte]
    else if c < 0x1_0000 then
      [(0xE0 + c2) as Byte, (0x80 + c1 % 0x40) as Byte, (0x80 + c % 0x40) as Byte]
    else
      [(0xF0 + c3) as Byte, (0x80 + c2 % 0x40) as Byte, (0x80 + c1 % 0x40) as Byte, (0x80 + c % 0x40) as Byte]
  }

  function EncodeUtf8(cps: seq<CodePoint>): seq<Byte>
  {
    if cps == [] then [] else Utf8Of(cps[0]) + EncodeUtf8(cps[1..])
  }

  predicate IsContinuation(b: Byte) { 0x80 <= b < 0xC0 }

  /**
   * Reads one UTF-8 sequence at the start of `b`: the code point and the number of
   * bytes it used, rejecting bad continuation bytes, overlong forms, surrogates and
   * values above U+10FFFF.
   */
  function DecodeOne(b: seq<Byte>): (r: Option<(CodePoint, nat)>)
    requires |b| > 0
    ensures r.Some? ==> 1 <= r.value.1 <= |b|
  {
    var b0 := b[0] as int;
    if b0 < 0x80 then Some((b0 as CodePoint, 1))
    else if 0xC0 <= b0 < 0xE0 && |b| >= 2 && IsContinuation(b[1]) then
      var c := (b0 - 0xC0) * 0x40 + (b[1] as int - 0x80);
      if c >= 0x80 then Some((c as CodePoint, 2)) else None
    else if 0xE0 <= b0 < 0xF0 && |b| >= 3 && IsContinuation(b[1]) && IsContinuation(b[2]) then
      var c := ((b0 - 0xE0) * 0x40 + (b[1] as int - 0x80)) * 0x40 + (b[2] as int - 0x80);
      if c >= 0x800 && IsScalarValue(c) then Some((c as CodePoint, 3)) else None
    else if 0xF0 <= b0 < 0xF8 && |b| >= 4 && IsContinuation(b[1]) && IsContinuation(b[2]) && IsContinuation(b[3]) then
      var c := (((b0 - 0xF0) * 0x40 + (b[1] as int - 0x80)) * 0x40 + (b[2] as int - 0x80)) * 0x40 + (b[3] as int - 0x80);
      if 0x1_0000 <= c < 0x11_0000 then Some((c as CodePoint, 4)) else None
    else None
  }

  /** Strict UTF-8 decoding: None for any malformed byte sequence. */
  function DecodeUtf8(b: seq<Byte>): Option<seq<CodePoint>>
    decreases |b|
  {
    if b == [] then Some([])
    else
      match DecodeOne(b)
      case None => None
      case Some((c, n)) =>
        match DecodeUtf8(b[n..])
        case None => None
        case Some(rest) => Some([c] + rest)
  }

  lemma DecodeOneOfUtf8(c: CodePoint, tail: seq<Byte>)
    ensures DecodeOne(Utf8Of(c) + tail) == Some((c, |Utf8Of(c)|))
  {
    var b := Utf8Of(c) + tail;
    var c1 := c / 0x40;
    var c2 := c1 / 0x40;
    var c3 := c2 / 0x40;
    assert c == c1 * 0x40 + c % 0x40;
    assert c1 == c2 * 0x40 + c1 % 0x40;
    assert c2 == c3 * 0x40 + c2 % 0x40;
    if c < 0x80 {
    } else if c < 0x800 {
      assert b[0] == 0xC0 + c1 && b[1] == 0x80 + c % 0x40;
    } else if c < 0x1_0000 {
      assert b[0] == 0xE0 + c2 && b[1] == 0x80 + c1 % 0x40 && b[2] == 0x80 + c % 0x40;
    } else {
      assert b[0] == 0xF0 + c3 && b[1] == 0x80 + c2 % 0x40;
      assert b[2] == 0x80 + c1 % 0x40 && b[3] == 0x80 + c % 0x40;
    }
  }

  /** UTF-8 round trip: decoding the encoding of any code points gives them back. */
  lemma {:induction false} Utf8RoundTrip(cps: seq<CodePoint>)
    ensures DecodeUtf8(EncodeUtf8(cps)) == Some(cps)
  {
    if cps != [] {
      var b := EncodeUtf8(cps);
      var head := Utf8Of(cps[0]);
      DecodeOneOfUtf8(cps[0], EncodeUtf8(cps[1..]));
      assert b[|head|..] == EncodeUtf8(cps[1..]);
      Utf8RoundTrip(cps[1..]);
      assert [cps[0]] + cps[1..] == cps;
    }
  }
}
