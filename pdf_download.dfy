/**
 * The PDF download endpoint (`POST /api/pdf/download`): it takes a base64 PDF and a file
 * name as JSON and answers with the bytes, a `Content-Disposition` header carrying an ASCII
 * fallback name and the UTF-8 name in the extended form of section 4.3 of RFC 6266 /
 * section 3.2 of RFC 5987, and no-caching headers.
 *
 * The file name is kept as the UTF-16 code units JavaScript works on.
 */
module PdfDownload {
  import opened Wrappers
  import opened Unicode
  import opened Decimal
  import opened UriEncoding
  import Constants
  import Json

  /** A property of the parsed JSON body as the destructuring assignment sees it. */
  type JsonField = Json.Field<CodeUnit>

  datatype DownloadRequest =
    | MalformedJson                   // `request.json()` rejects
    | NullBody                        // the body is `null`: destructuring throws
    | JsonBody(base64Data: JsonField, fileName: JsonField)

  datatype Body = JsonText(text: string) | Pdf(bytes: seq<Byte>)
  datatype Response = Response(status: nat, headers: map<string, string>, body: Body)

  const MissingFieldsBody := "{\"error\":\"파일명 또는 데이터가 누락되었습니다\"}"
  const ServerErrorBody := "{\"error\":\"PDF 다운로드 중 오류가 발생했습니다\"}"

  function BadRequest(): Response { Response(400, map["Content-Type" := "application/json"], JsonText(MissingFieldsBody)) }
  function ServerError(): Response { Response(500, map["Content-Type" := "application/json"], JsonText(ServerErrorBody)) }

  // ---------------------------------------------------------------- ASCII fallback name

  /** The characters matched by `\s` in a JavaScript regular expression. */
  predicate IsJsWhitespace(c: char) {
    var n := c as int;
    (0x09 <= n <= 0x0D) || n == 0x20 || n == 0xA0 || n == 0x1680 || (0x2000 <= n <= 0x200A) ||
    n == 0x2028 || n == 0x2029 || n == 0x202F || n == 0x205F || n == 0x3000 || n == 0xFEFF
  }

  predicate IsAscii(s: string) { forall i :: 0 <= i < |s| ==> s[i] as int < 0x80 }
  predicate HasNoWhitespace(s: string) { forall i :: 0 <= i < |s| ==> !IsJsWhitespace(s[i]) }

  function MaskUnit(u: CodeUnit): char { if u < 0x80 then u as char else '?' }

  /** `replace(/[^\x00-\x7F]/g, '?')`: every code unit outside ASCII becomes one `?`. */
  function MaskNonAscii(u: seq<CodeUnit>): (s: string)
    ensures |s| == |u| && IsAscii(s)
  {
    if u == [] then [] else [MaskUnit(u[0])] + MaskNonAscii(u[1..])
  }

  /** What the mask makes of one character: itself, `?`, or `??` for a character outside the BMP. */
  function MaskCodePoint(c: CodePoint): string
  {
    if c < 0x80 then [c as char] else if c < 0x1_0000 then "?" else "??"
  }

  function MaskCodePoints(cps: seq<CodePoint>): string
  {
    if cps == [] then [] else MaskCodePoint(cps[0]) + MaskCodePoints(cps[1..])
  }

  lemma {:induction false} MaskNonAsciiAppend(a: seq<CodeUnit>, b: seq<CodeUnit>)
    ensures MaskNonAscii(a + b) == MaskNonAscii(a) + MaskNonAscii(b)
  {
    if a == [] {
      assert a + b == b;
    } else {
      assert (a + b)[0] == a[0];
      assert (a + b)[1..] == a[1..] + b;
      MaskNonAsciiAppend(a[1..], b);
    }
  }

  /** The mask works on UTF-16 code units, so a character outside the BMP turns into two `?`. */
  lemma {:induction false} MaskByCodePoint(cps: seq<CodePoint>)
    ensures MaskNonAscii(EncodeUtf16(cps)) == MaskCodePoints(cps)
  {
    if cps != [] {
      MaskByCodePoint(cps[1..]);
      MaskNonAsciiAppend(Utf16Of(cps[0]), EncodeUtf16(cps[1..]));
      var c := cps[0];
      if c >= 0x1_0000 {
        var u := Utf16Of(c);
        assert MaskNonAscii(u) == [MaskUnit(u[0])] + MaskNonAscii(u[1..]);
        assert u[1..][1..] == [];
      }
    }
  }

  function DropWhitespace(s: string): (r: string)
    ensures |r| <= |s| && r == s[|s| - |r|..]
    ensures r == [] || !IsJsWhitespace(r[0])
  {
    if s != [] && IsJsWhitespace(s[0]) then DropWhitespace(s[1..]) else s
  }

  /** `replace(/\s+/g, '_')`: every maximal run of whitespace becomes one `_`. */
  function CollapseWhitespace(s: string): (r: string)
    ensures |r| <= |s|
    decreases |s|
  {
    if s == [] then []
    else if IsJsWhitespace(s[0]) then "_" + CollapseWhitespace(DropWhitespace(s[1..]))
    else [s[0]] + CollapseWhitespace(s[1..])
  }

  /**
   * Reference reading of the same replacement, one character at a time: a whitespace
   * character emits `_` when it opens a run and nothing when it continues one.
   */
  function CollapseScan(s: string, inRun: bool): string
  {
    if s == [] then []
    else if IsJsWhitespace(s[0]) then (if inRun then "" else "_") + CollapseScan(s[1..], true)
    else [s[0]] + CollapseScan(s[1..], false)
  }

  lemma {:induction false} CollapseIsScan(s: string)
    ensures CollapseWhitespace(s) == CollapseScan(s, false)
    ensures CollapseWhitespace(DropWhitespace(s)) == CollapseScan(s, true)
    decreases |s|
  {
    if s != [] {
      CollapseIsScan(s[1..]);
    }
  }

  /** `replace(/[^\x00-\x7F]/g, '?').replace(/\s+/g, '_')` on the file name. */
  function AsciiFallback(name: seq<CodeUnit>): string
  {
    CollapseWhitespace(MaskNonAscii(name))
  }

  lemma {:induction false} CollapseRemovesWhitespace(s: string)
    ensures HasNoWhitespace(CollapseWhitespace(s))
    decreases |s|
  {
    if s != [] {
      if IsJsWhitespace(s[0]) {
        CollapseRemovesWhitespace(DropWhitespace(s[1..]));
      } else {
        CollapseRemovesWhitespace(s[1..]);
      }
    }
  }

  lemma {:induction false} CollapseKeepsAscii(s: string)
    requires IsAscii(s)
    ensures IsAscii(CollapseWhitespace(s))
    decreases |s|
  {
    if s != [] {
      if IsJsWhitespace(s[0]) {
        CollapseKeepsAscii(DropWhitespace(s[1..]));
      } else {
        CollapseKeepsAscii(s[1..]);
      }
    }
  }

  lemma {:induction false} CollapseWithoutWhitespace(s: string)
    requires HasNoWhitespace(s)
    ensures CollapseWhitespace(s) == s
  {
    if s != [] {
      assert !IsJsWhitespace(s[0]);
      CollapseWithoutWhitespace(s[1..]);
    }
  }

  /** Collapsing twice is collapsing once. */
  lemma CollapseIdempotent(s: string)
    ensures CollapseWhitespace(CollapseWhitespace(s)) == CollapseWhitespace(s)
  {
    CollapseRemovesWhitespace(s);
    CollapseWithoutWhitespace(CollapseWhitespace(s));
  }

  /** The characters a reader sees: neither whitespace nor the `_` that replaces it. */
  function Visible(s: string): string
  {
    if s == [] then []
    else if IsJsWhitespace(s[0]) || s[0] == '_' then Visible(s[1..])
    else [s[0]] + Visible(s[1..])
  }

  lemma {:induction false} VisibleDropWhitespace(s: string)
    ensures Visible(DropWhitespace(s)) == Visible(s)
  {
    if s != [] && IsJsWhitespace(s[0]) {
      VisibleDropWhitespace(s[1..]);
    }
  }

  /** Collapsing keeps every other character, in order. */
  lemma {:induction false} CollapseKeepsVisible(s: string)
    ensures Visible(CollapseWhitespace(s)) == Visible(s)
    decreases |s|
  {
    if s != [] {
      if IsJsWhitespace(s[0]) {
        var rest := CollapseWhitespace(DropWhitespace(s[1..]));
        assert CollapseWhitespace(s) == "_" + rest;
        assert ("_" + rest)[1..] == rest;
        assert Visible("_" + rest) == Visible(rest);
        assert Visible(s) == Visible(s[1..]);
        CollapseKeepsVisible(DropWhitespace(s[1..]));
        VisibleDropWhitespace(s[1..]);
      } else {
        var rest := CollapseWhitespace(s[1..]);
        assert CollapseWhitespace(s) == [s[0]] + rest;
        assert ([s[0]] + rest)[1..] == rest;
        CollapseKeepsVisible(s[1..]);
      }
    }
  }

  lemma {:induction false} VisibleMembership(s: string, c: char)
    requires !IsJsWhitespace(c) && c != '_'
    ensures c in Visible(s) <==> c in s
  {
    if s != [] {
      VisibleMembership(s[1..], c);
      assert s == [s[0]] + s[1..];
    }
  }

  lemma {:induction false} MaskMembership(u: seq<CodeUnit>, c: char)
    requires c as int < 0x80 && c != '?'
    ensures c in MaskNonAscii(u) <==> c as int in u
  {
    if u != [] {
      MaskMembership(u[1..], c);
      assert u == [u[0]] + u[1..];
    }
  }

  /**
   * The fallback name is ASCII without whitespace, and an ASCII character other than
   * whitespace, `_` and `?` occurs in it exactly when it occurs in the file name.
   */
  lemma AsciiFallbackShape(name: seq<CodeUnit>, c: char)
    requires c as int < 0x80 && !IsJsWhitespace(c) && c != '_' && c != '?'
    ensures IsAscii(AsciiFallback(name)) && HasNoWhitespace(AsciiFallback(name))
    ensures c in AsciiFallback(name) <==> c as int in name
  {
    var m := MaskNonAscii(name);
    CollapseKeepsAscii(m);
    CollapseRemovesWhitespace(m);
    CollapseKeepsVisible(m);
    VisibleMembership(m, c);
    VisibleMembership(CollapseWhitespace(m), c);
    MaskMembership(name, c);
  }

  // ---------------------------------------------------------------- Content-Disposition

  const DispositionPrefix := "attachment; filename=\""
  const ExtendedSeparator := "\"; filename*=UTF-8''"

  /** `attachment; filename="<fallback>"; filename*=UTF-8''<encoded>`. */
  function ContentDisposition(fallback: string, encoded: string): string
  {
    DispositionPrefix + fallback + ExtendedSeparator + encoded
  }

  function IndexOf(s: string, c: char): (r: Option<nat>)
    ensures r.Some? ==> r.value < |s| && s[r.value] == c && c !in s[..r.value]
    ensures r.None? ==> c !in s
  {
    if s == [] then None
    else if s[0] == c then Some(0)
    else match IndexOf(s[1..], c)
      case None => None
      case Some(k) =>
        assert s[..k + 1] == [s[0]] + s[1..][..k];
        Some(k + 1)
  }

  /**
   * How a recipient splits the header back into the quoted `filename` (up to the first
   * quote) and the extended `filename*` value.
   */
  function ParseContentDisposition(h: string): Option<(string, string)>
  {
    var n := |DispositionPrefix|;
    if |h| >= n && h[..n] == DispositionPrefix then
      var rest := h[n..];
      match IndexOf(rest, '"')
      case None => None
      case Some(k) =>
        var after := rest[k..];
        var m := |ExtendedSeparator|;
        if |after| >= m && after[..m] == ExtendedSeparator then Some((rest[..k], after[m..])) else None
    else None
  }

  lemma {:induction false} IndexOfFirst(s: string, c: char, j: nat)
    requires j < |s| && s[j] == c && c !in s[..j]
    ensures IndexOf(s, c) == Some(j)
  {
    if j > 0 {
      assert s[0] == s[..j][0];
      assert s[1..][..j - 1] == s[..j][1..];
      IndexOfFirst(s[1..], c, j - 1);
    }
  }

  /**
   * The header splits back into exactly the fallback and the encoded name if and only if
   * the fallback holds no double quote.
   */
  lemma ContentDispositionRoundTrip(fallback: string, encoded: string)
    ensures ParseContentDisposition(ContentDisposition(fallback, encoded)) == Some((fallback, encoded))
       <==> '"' !in fallback
  {
    var h := ContentDisposition(fallback, encoded);
    var n := |DispositionPrefix|;
    assert h[..n] == DispositionPrefix;
    var rest := h[n..];
    assert rest == fallback + ExtendedSeparator + encoded;
    if '"' !in fallback {
      assert rest[..|fallback|] == fallback;
      IndexOfFirst(rest, '"', |fallback|);
      assert rest[|fallback|..] == ExtendedSeparator + encoded;
    }
  }

  // ---------------------------------------------------------------- The route

  /** `Buffer.from(name, 'utf-8').toString('utf-8')`: unpaired surrogates become U+FFFD. */
  function Utf8RoundTripped(name: seq<CodeUnit>): (r: seq<CodeUnit>)
    ensures WellFormedUtf16(r)
    ensures WellFormedUtf16(name) ==> r == name
  {
    var cps := DecodeUtf16Lossy(name);
    Utf16RoundTrip(cps);
    WellFormedUnchanged(name);
    EncodeUtf16(cps)
  }

  lemma WellFormedUnchanged(name: seq<CodeUnit>)
    ensures WellFormedUtf16(name) ==> EncodeUtf16(DecodeUtf16Lossy(name)) == name
  {
    if WellFormedUtf16(name) {
      WellFormedUtf16RoundTrip(name);
    }
  }

  /** The bytes the Buffer holds decode back to the same characters. */
  lemma BufferBytesDecode(name: seq<CodeUnit>)
    ensures DecodeUtf8(EncodeUtf8(DecodeUtf16Lossy(name))) == Some(DecodeUtf16Lossy(name))
  {
    Utf8RoundTrip(DecodeUtf16Lossy(name));
  }

  function Success(bytes: seq<Byte>, fallback: string, encoded: string): Response
  {
    Response(200, map[
      "Content-Type" := "application/pdf",
      "Content-Length" := NatToString(|bytes|),
      "Content-Disposition" := ContentDisposition(fallback, encoded),
      "Cache-Control" := "no-cache, no-store, must-revalidate",
      "Pragma" := "no-cache",
      "Expires" := "0"], Pdf(bytes))
  }

  /**
   * A value the Fetch `Headers` class accepts: no NUL, CR or LF (leading and trailing
   * whitespace is trimmed, not refused); `new Response` throws a TypeError on any other.
   */
  predicate IsHeaderValue(v: string) {
    '\0' !in v && '\n' !in v && '\r' !in v
  }

  /** A well-encoded value holds only unreserved characters, `%` and upper-case hex digits. */
  lemma {:induction false} WellEncodedExcludes(e: string, c: char)
    requires WellEncoded(e)
    requires !IsUriUnreserved(c) && c != '%' && !IsUpperHexDigit(c)
    ensures c !in e
    decreases |e|
  {
    if e != [] {
      if IsUriUnreserved(e[0]) {
        WellEncodedExcludes(e[1..], c);
        assert e == [e[0]] + e[1..];
      } else {
        WellEncodedExcludes(e[3..], c);
        assert e == e[..3] + e[3..];
      }
    }
  }

  lemma HeaderValueConcat(a: string, b: string)
    ensures IsHeaderValue(a + b) <==> IsHeaderValue(a) && IsHeaderValue(b)
  {
  }

  /** The fallback is a valid header value exactly when the name holds no NUL. */
  lemma FallbackHeaderValue(name: seq<CodeUnit>)
    ensures IsHeaderValue(AsciiFallback(name)) <==> 0 !in name
  {
    AsciiFallbackShape(name, '\0');
  }

  /** The encoded name is a valid header value. */
  lemma EncodedHeaderValue(encoded: string)
    requires WellEncoded(encoded)
    ensures IsHeaderValue(encoded)
  {
    WellEncodedExcludes(encoded, '\0');
    WellEncodedExcludes(encoded, '\n');
    WellEncodedExcludes(encoded, '\r');
  }

  lemma FixedPartsAreHeaderValues()
    ensures IsHeaderValue(DispositionPrefix) && IsHeaderValue(ExtendedSeparator)
  {
  }

  /**
   * The header built from a file name is a valid header value exactly when the name holds
   * no NUL: CR and LF are whitespace and become `_`, the encoded name is `%XX` triplets and
   * unreserved characters, but the ASCII mask keeps NUL.
   */
  lemma HeaderValueIffNoNul(name: seq<CodeUnit>)
    ensures IsHeaderValue(ContentDisposition(AsciiFallback(name), EncodedFileName(name))) <==> 0 !in name
  {
    var fallback := AsciiFallback(name);
    var encoded := EncodedFileName(name);
    FallbackHeaderValue(name);
    EncodedHeaderValue(encoded);
    FixedPartsAreHeaderValues();
    HeaderValueConcat(DispositionPrefix, fallback);
    HeaderValueConcat(DispositionPrefix + fallback, ExtendedSeparator);
    HeaderValueConcat(DispositionPrefix + fallback + ExtendedSeparator, encoded);
  }

  /**
   * Accepts the request: both fields truthy, the base64 data decodable by the Buffer, the
   * file name a string (any other value makes `Buffer.from` or `replace` throw) and free of
   * NUL (which the header value may not hold).
   */
  predicate Accepted(req: DownloadRequest, decodeBase64: JsonField -> Option<seq<Byte>>)
  {
    req.JsonBody? && !Json.Falsy(req.base64Data) && !Json.Falsy(req.fileName) &&
    decodeBase64(req.base64Data).Some? && req.fileName.JsonString? && 0 !in req.fileName.units
  }

  /**
   * `POST`. `decodeBase64` stands for `Buffer.from(value, 'base64')`, None where it throws.
   */
  function Post(req: DownloadRequest, decodeBase64: JsonField -> Option<seq<Byte>>): (r: Response)
    ensures r.status == 400 <==> req.JsonBody? && (Json.Falsy(req.base64Data) || Json.Falsy(req.fileName))
    ensures r.status == 200 <==> Accepted(req, decodeBase64)
    ensures r.status in {200, 400, 500}
    ensures r.status != 200 ==> r.headers == map["Content-Type" := "application/json"]
  {
    match req
    case MalformedJson => ServerError()
    case NullBody => ServerError()
    case JsonBody(data, name) =>
      if Json.Falsy(data) || Json.Falsy(name) then BadRequest()
      else match decodeBase64(data)
        case None => ServerError()
        case Some(bytes) =>
          if !name.JsonString? then ServerError()
          else
            var units := name.units;
            match EncodeUriComponent(Utf8RoundTripped(units))
            case None => ServerError()
            case Some(encoded) =>
              HeaderValueIffNoNul(units);
              if !IsHeaderValue(ContentDisposition(AsciiFallback(units), encoded)) then ServerError()
              else Success(bytes, AsciiFallback(units), encoded)
  }

  /** The `filename*` value: the UTF-8 round-tripped name through `encodeURIComponent`. */
  function EncodedFileName(name: seq<CodeUnit>): (e: string)
    ensures WellEncoded(e)
    ensures DecodeUriComponent(e) == Some(Utf8RoundTripped(name))
    ensures WellFormedUtf16(name) ==> DecodeUriComponent(e) == Some(name)
  {
    EncodeUriComponentRoundTrip(Utf8RoundTripped(name));
    EncodeUriComponent(Utf8RoundTripped(name)).value
  }

  /**
   * A successful answer carries the bytes, exactly six headers, and a `Content-Length`
   * that reads back as the number of bytes.
   */
  lemma SuccessShape(bytes: seq<Byte>, fallback: string, encoded: string)
    ensures var r := Success(bytes, fallback, encoded);
      r.body == Pdf(bytes) &&
      r.headers.Keys == {"Content-Type", "Content-Length", "Content-Disposition", "Cache-Control", "Pragma", "Expires"} &&
      r.headers["Content-Type"] == "application/pdf" &&
      ParseNat(r.headers["Content-Length"]) == Some(|bytes|) &&
      r.headers["Content-Disposition"] == ContentDisposition(fallback, encoded) &&
      r.headers["Cache-Control"] == "no-cache, no-store, must-revalidate" &&
      r.headers["Pragma"] == "no-cache" && r.headers["Expires"] == "0"
  {
    ParseNatToString(|bytes|);
  }

  /**
   * An accepted request is answered with the decoded bytes and the headers of `Success`
   * whose `filename*` value is `EncodedFileName` (it decodes back to the file name, unpaired
   * surrogates replaced by U+FFFD) and whose fallback is ASCII without whitespace; the
   * header splits back into those two values exactly when the file name holds no double
   * quote.
   */
  lemma AcceptedResponse(req: DownloadRequest, decodeBase64: JsonField -> Option<seq<Byte>>)
    requires Accepted(req, decodeBase64)
    ensures var name := req.fileName.units;
      var bytes := decodeBase64(req.base64Data).value;
      var fallback := AsciiFallback(name);
      var encoded := EncodedFileName(name);
      var r := Post(req, decodeBase64);
      r == Success(bytes, fallback, encoded) &&
      IsAscii(fallback) && HasNoWhitespace(fallback) &&
      (ParseContentDisposition(ContentDisposition(fallback, encoded)) == Some((fallback, encoded)) <==> 0x22 !in name)
  {
    var name := req.fileName.units;
    var bytes := decodeBase64(req.base64Data).value;
    var fallback := AsciiFallback(name);
    var encoded := EncodedFileName(name);
    AsciiFallbackShape(name, '"');
    ContentDispositionRoundTrip(fallback, encoded);
  }

  /**
   * A download named by `buildPdfFilename` with a date free of forbidden characters (a
   * `YYYY-MM-DD` date) carries a header that splits back into its two values, and its
   * `filename*` value decodes to exactly that name.
   */
  lemma BuiltFilenameHeader(clientName: string, date: string)
    requires Constants.HasNoForbiddenFileChar(date)
    ensures var name := ToUtf16(Constants.BuildPdfFilename(clientName, date));
      var fallback := AsciiFallback(name);
      var encoded := EncodedFileName(name);
      ParseContentDisposition(ContentDisposition(fallback, encoded)) == Some((fallback, encoded)) &&
      DecodeUriComponent(encoded) == Some(name)
  {
    var f := Constants.BuildPdfFilename(clientName, date);
    var name := ToUtf16(f);
    Constants.BuildPdfFilenameShape(clientName, date);
    assert 0x22 !in ScalarsOf(f);
    EncodeUtf16Membership(ScalarsOf(f), 0x22);
    Utf16RoundTrip(ScalarsOf(f));
    AsciiFallbackShape(name, '"');
    ContentDispositionRoundTrip(AsciiFallback(name), EncodedFileName(name));
  }
}
