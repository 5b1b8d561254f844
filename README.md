# Invoice web: a verified model of its core rules

invoice-web is a small Next.js application. It reads invoices from a Notion database and shows them on an admin dashboard. It publishes each invoice on a public page behind a 12-character share id and counts the views of that page. It also lets the visitor download the invoice as a PDF.

This Dafny project models the rules that shape and deliver an invoice:

- **Download route** (`PdfDownload`, with `Unicode`, `UriEncoding`, `Decimal`, `Json`). The route validates the request. It builds the ASCII fallback file name (each non-ASCII UTF-16 code unit becomes `?`, each whitespace run becomes `_`). It percent-encodes the name with JavaScript's `encodeURIComponent`. The resulting header pairs `filename` with `filename*` as section 4.3 of RFC 6266 describes.
  - File names are modelled as UTF-16 code units. Lone surrogates and characters outside the BMP therefore behave as in JavaScript.
- **Constants** (`Constants`): route builders, the status label and badge-variant tables, and `buildPdfFilename` with its sanitiser.
- **HTML document** (`HtmlTemplate`): the document rendered to PDF. It escapes `<` and `>` in the notes, includes optional sections, emits one row per item, and falls back for an unknown status.
- **Notion record to invoice** (`NotionTransform`, `NotionItems`, `Invoices`): property extractors with defaults and the status parser. Name lookup tries English first for invoices and Korean first for items. Item pages are filtered, then mapped.
- **Web view** (`InvoiceViewer`): the items subtotal and which sections of the page are shown.
- **Helpers and configuration** (`Utils`, `Env`): `truncate`, `absoluteUrl` and `formatDate`; the missing-variable check and the URL defaults.
- **Gating** (`Middleware`, `ShareLinksRoute`): the login/dashboard redirect decision, and the status ordering of `POST /api/share-links`.
- **Share-link and view store** (`Supabase`, `ShareLinks`, `InvoiceViews`):
  - The tables are held by a `Database` class as sequences of rows.
  - PostgREST's `.eq(...).single()` is modelled with its `PGRST116` not-found code.
  - Get-or-create of a share link, and the view-count update, are methods over that class.
- **Dashboard** (`DashboardTable`, `BulkActions`): the row-selection state as a class with its three handlers, and the bulk copy of share links in three formats.
- **Buttons and badges** (`InvoiceActions`, `ViewStatusBadge`): disabled state, accessible label and text derived from the flags.

Calls into code that is not modelled become parameters of the model:

- Base64 decoding;
- `JSON.parse`;
- `Intl` and `toLocaleString` formatting;
- `Date` parsing;
- URL resolution;
- `nanoid`;
- the clock;
- outcomes of the session lookup, the database and `fetch`.

## Model

| member | source | states |
|---|---|---|
| PdfDownload.Post | src/app/api/pdf/download/route.ts:10-60 | status 400 exactly when the body parsed and `base64Data` or `fileName` is falsy; 200 exactly when both are truthy, the data decodes and the name is a string without NUL (a NUL reaches the header, which `new Response` refuses, so the catch answers 500); no other status than 200, 400, 500; error answers carry only the JSON content type |
| PdfDownload.HeaderValueIffNoNul | src/app/api/pdf/download/route.ts:36-50 | the `Content-Disposition` value built from a name is one the `Headers` class accepts (no NUL, CR or LF) exactly when the name holds no NUL |
| PdfDownload.FallbackHeaderValue | src/app/api/pdf/download/route.ts:36-38 | the fallback holds no CR or LF (they are whitespace and become `_`), and holds NUL exactly when the name does |
| PdfDownload.SuccessShape | src/app/api/pdf/download/route.ts:40-50 | a success carries the decoded bytes and exactly six headers: `application/pdf`, a `Content-Length` that reads back as the byte count, the disposition, and the three fixed cache headers |
| PdfDownload.AcceptedResponse | src/app/api/pdf/download/route.ts:24-50 | an accepted request (its name free of NUL) is answered with the bytes, an ASCII fallback without whitespace, and the encoded name; the header splits back into those two values exactly when the file name holds no `"` |
| PdfDownload.MaskNonAscii | src/app/api/pdf/download/route.ts:37 | the masked name has one character per UTF-16 code unit and is ASCII only |
| PdfDownload.MaskByCodePoint | src/app/api/pdf/download/route.ts:37 | per character, masking keeps ASCII, turns a BMP character into one `?` and a character outside the BMP into `??` |
| PdfDownload.MaskMembership | src/app/api/pdf/download/route.ts:37 | an ASCII character other than `?` occurs in the masked name exactly when it occurs in the name |
| PdfDownload.DropWhitespace | src/app/api/pdf/download/route.ts:38 | the result is a suffix of the input that starts with no whitespace |
| PdfDownload.CollapseIsScan | src/app/api/pdf/download/route.ts:38 | collapsing agrees with a left-to-right scan that writes one `_` at the start of each whitespace run |
| PdfDownload.CollapseRemovesWhitespace | src/app/api/pdf/download/route.ts:38 | no whitespace is left after collapsing |
| PdfDownload.CollapseKeepsVisible | src/app/api/pdf/download/route.ts:38 | collapsing keeps every character other than whitespace and `_`, in order |
| PdfDownload.CollapseKeepsAscii | src/app/api/pdf/download/route.ts:38 | collapsing ASCII text gives ASCII text |
| PdfDownload.CollapseWithoutWhitespace | src/app/api/pdf/download/route.ts:38 | text without whitespace is left unchanged |
| PdfDownload.CollapseIdempotent | src/app/api/pdf/download/route.ts:38 | collapsing twice equals collapsing once |
| PdfDownload.VisibleMembership | src/app/api/pdf/download/route.ts:38 | a character other than whitespace and `_` is among the visible characters exactly when it is in the text |
| PdfDownload.AsciiFallbackShape | src/app/api/pdf/download/route.ts:36-38 | the fallback is ASCII without whitespace, and holds an ASCII character other than `?`, `_` and whitespace exactly when the name does |
| PdfDownload.IndexOf | src/app/api/pdf/download/route.ts:45 | finds the first occurrence of a character, or none when it is absent |
| PdfDownload.ContentDispositionRoundTrip | src/app/api/pdf/download/route.ts:45 | a fallback without `"` and an encoded value split back out of `attachment; filename="…"; filename*=UTF-8''…` exactly |
| PdfDownload.Utf8RoundTripped | src/app/api/pdf/download/route.ts:29-30 | the UTF-8 round trip yields well-formed UTF-16, and a well-formed name comes back unchanged |
| PdfDownload.WellFormedUnchanged | src/app/api/pdf/download/route.ts:29-30 | a well-formed name survives the lossy decode and re-encode unchanged |
| PdfDownload.BufferBytesDecode | src/app/api/pdf/download/route.ts:29-30 | the bytes the buffer holds decode back to the same characters |
| PdfDownload.EncodedFileName | src/app/api/pdf/download/route.ts:29-31 | the `filename*` value is well encoded and percent-decodes to the round-tripped name, which is the name itself when it is well formed |
| PdfDownload.BuiltFilenameHeader | src/app/api/pdf/download/route.ts:45 | a name built by `buildPdfFilename` from a date without forbidden characters gives a header that splits back, and its encoded value decodes to that name |
| UriEncoding.EncodeUriComponent | src/app/api/pdf/download/route.ts:31 | encoding succeeds exactly on well-formed UTF-16; a lone surrogate is the `URIError` case |
| UriEncoding.EncodeCodePointIsOctetwise | src/app/api/pdf/download/route.ts:31 | one character is encoded as the percent-encoding of its UTF-8 bytes |
| UriEncoding.EncodeIsOctetwise | src/app/api/pdf/download/route.ts:31 | encoding per character equals percent-encoding the UTF-8 bytes, with unreserved ASCII left as is |
| UriEncoding.HighOctetsAreEscaped | src/app/api/pdf/download/route.ts:31 | bytes of 0x80 and above are always written as `%XX` |
| UriEncoding.PercentEncodingIsWellEncoded | src/app/api/pdf/download/route.ts:31 | the output holds only unreserved characters and `%XX` triplets with uppercase hex digits |
| UriEncoding.PercentRoundTrip | src/app/api/pdf/download/route.ts:31 | percent-decoding the encoding of any bytes gives those bytes back |
| UriEncoding.EncodeUriComponentRoundTrip | src/app/api/pdf/download/route.ts:31 | for well-formed UTF-16, decoding the encoded component gives the input back |
| UriEncoding.HexDigit | src/app/api/pdf/download/route.ts:31 | every digit written is an uppercase hex digit |
| Unicode.Utf16Of | src/app/api/pdf/download/route.ts:37 | a character takes one code unit below U+10000 and two from there on |
| Unicode.EncodeUtf16Membership | src/app/api/pdf/download/route.ts:37 | a code unit below the surrogate range occurs in the UTF-16 form exactly when that character occurs |
| Unicode.StrictDecodeAgrees | src/app/api/pdf/download/route.ts:31 | strict decoding fails exactly on ill-formed UTF-16 and otherwise agrees with lossy decoding |
| Unicode.Utf16RoundTrip | src/app/api/pdf/download/route.ts:29-30 | UTF-16 encoding is well formed and decodes back to the characters |
| Unicode.WellFormedUtf16RoundTrip | src/app/api/pdf/download/route.ts:29-30 | well-formed UTF-16 re-encodes to itself after decoding |
| Unicode.Utf8Of | src/app/api/pdf/download/route.ts:29 | one to four bytes per character, one exactly for ASCII, and every byte of a longer form at or above 0x80 |
| Unicode.Utf8RoundTrip | src/app/api/pdf/download/route.ts:29-30 | UTF-8 decoding of the UTF-8 encoding gives the characters back |
| Decimal.NatToString | src/app/api/pdf/download/route.ts:44 | the decimal form is non-empty, all digits, and has no leading zero |
| Decimal.ParseNatToString | src/app/api/pdf/download/route.ts:44 | the written byte count reads back as that count |
| Decimal.NatToStringInjective | src/app/api/pdf/download/route.ts:44 | different counts are written differently |
| Decimal.ParseIntToString | src/components/invoice/InvoiceViewStatusBadge.tsx:56 | the decimal form of any integer, sign included, reads back as that integer |
| Constants.DashboardInvoiceRoundTrip | src/lib/constants.ts:26 | the admin path of an id reads back as that id, and only that path does |
| Constants.InvoicePublicRoundTrip | src/lib/constants.ts:28 | the public path of a share id reads back as that share id, and only that path does |
| Constants.RoutesUnderDashboard | src/lib/constants.ts:18-28 | admin invoice paths lie under `/dashboard`; public invoice paths do not |
| Constants.StatusKeyRoundTrip | src/lib/constants.ts:53-60 | each status is named by its key |
| Constants.KeysAndLabelsDistinct | src/lib/constants.ts:53-60 | distinct statuses have distinct keys and distinct Korean labels |
| Constants.StatusNamesAreOwn | src/lib/constants.ts:53-60 | no status key and no status label is the name of an `Object.prototype` member, so the lookups of a real status never reach an inherited one |
| Constants.VariantClasses | src/lib/constants.ts:68-78 | `destructive` exactly for cancelled, `default` exactly for confirmed and completed, `outline` exactly for draft |
| Constants.SanitizeClientName | src/lib/constants.ts:137 | sanitising never lengthens the name |
| Constants.SanitizeDeletesOnly | src/lib/constants.ts:137 | the sanitised name is a subsequence of the name, holds none of `/ \ ? % * : \| " < >`, and keeps every other character as often as the name has it |
| Constants.SanitizeKeepsSafeName | src/lib/constants.ts:137 | a name without forbidden characters is left unchanged |
| Constants.SanitizeIdempotent | src/lib/constants.ts:137 | sanitising twice equals sanitising once |
| Constants.BuildPdfFilenameShape | src/lib/constants.ts:135-139 | the file name is `견적서_` + sanitised name + `_` + date + `.pdf`, and holds no forbidden character when the date holds none |
| HtmlTemplate.StatusLabelOf | src/components/invoice/invoice-html-template.tsx:39 | a known status value shows its label; the name of an `Object.prototype` member shows that inherited member's string form, which is truthy; any other value shows `미정` |
| HtmlTemplate.StatusColorOf | src/components/invoice/invoice-html-template.tsx:42-51 | a known status value gets its colour; the name of an `Object.prototype` member gets that member's string form; any other value gets `#6b7280` |
| HtmlTemplate.StatusFallbacks | src/components/invoice/invoice-html-template.tsx:39-51 | an unknown value that is not an inherited name gets `미정` on grey; an inherited name gets its member's string form as both label and colour, never `미정`; each status gets its own label and colour |
| HtmlTemplate.FormatDate | src/components/invoice/invoice-html-template.tsx:21-29 | an empty or absent date gives `-`; a date that converts gives the `YYYY-MM-DD` part of its ISO form; one that does not convert gives the string itself |
| HtmlTemplate.EscapeNotesIsEscapeEach | src/components/invoice/invoice-html-template.tsx:412 | the two `replace` passes equal escaping each character on its own |
| HtmlTemplate.EscapedHasNoBrackets | src/components/invoice/invoice-html-template.tsx:412 | escaped notes hold no `<` and no `>` |
| HtmlTemplate.EscapeEachHasNoBrackets | src/components/invoice/invoice-html-template.tsx:412 | the per-character escaping emits no `<` and no `>` |
| HtmlTemplate.EscapeWithoutBrackets | src/components/invoice/invoice-html-template.tsx:412 | notes without brackets are left unchanged |
| HtmlTemplate.EscapeNotInvertible | src/components/invoice/invoice-html-template.tsx:412 | `&` is not escaped, so `<` and `&lt;` escape to the same text |
| HtmlTemplate.ItemRows | src/components/invoice/invoice-html-template.tsx:379-390 | one row per item, in order, showing that item's name, quantity and formatted amounts |
| HtmlTemplate.GenerateInvoiceHtml | src/components/invoice/invoice-html-template.tsx:38-426 | title and client as given; the grand total is `totalAmount` formatted, never a sum; the invoice date is shown through `formatDate`; the due-date block appears exactly when the due date is truthy and shows that date through `formatDate`; the notes section appears exactly when the notes are truthy, escaped; table label, colour and footer |
| HtmlTemplate.TableRows | src/components/invoice/invoice-html-template.tsx:377-392 | exactly one row per item in item order, each with the item's own values, or exactly the empty-state row |
| NotionTransform.Lookup | src/lib/notion/transform.ts:117 | `props[a] \|\| props[b]` picks the first name whenever it is present, the second otherwise |
| NotionTransform.ExtractText | src/lib/notion/transform.ts:25-39 | the joined runs of a title or rich-text property, and `''` otherwise |
| NotionTransform.ExtractDate | src/lib/notion/transform.ts:47-52 | the start exactly when the property is a date with a non-empty start, else null |
| NotionTransform.ExtractNumber | src/lib/notion/transform.ts:60-65 | the number of a number property, and 0 for absent, null or other types |
| NotionTransform.ExtractSelect | src/lib/notion/transform.ts:73-78 | the option name of a select property, else `''` |
| NotionTransform.ParseStatusSpec | src/lib/notion/transform.ts:87-101 | never `pending`; every other status reads back from its key and from its Korean label; a status other than draft comes only from its own key or label |
| NotionTransform.ParseStatusFallback | src/lib/notion/transform.ts:88-100 | outside the ten recognised strings, the name of an `Object.prototype` member yields that inherited member (`??` keeps it, as it is not nullish), and every other string, `pending` and `대기` included, reads as draft |
| NotionTransform.TransformToInvoiceSummary | src/lib/notion/transform.ts:110-126 | the summary keeps the page id; it is defined for a page whose status option is not an inherited name (the field mapping is stated by the three lemmas below) |
| NotionTransform.SummaryPrefersEnglish | src/lib/notion/transform.ts:117-124 | for each of the six fields, a present English property decides the field, even when empty or of the wrong type, whatever the Korean properties hold; with all six English properties present the Korean ones are not read at all |
| NotionTransform.SummaryFallsBackToKorean | src/lib/notion/transform.ts:117-124 | for each of the six fields, when the English property is absent the field is read from the Korean property, or from nothing when that is absent too |
| NotionTransform.SummaryDefaults | src/lib/notion/transform.ts:117-124 | a page with none of the twelve names gives the defaults `''`, `''`, `''`, null, draft and 0 |
| NotionTransform.SummaryInvoiceDate | src/lib/notion/transform.ts:119 | the invoice date is `''` exactly when neither name gives a non-empty date |
| NotionTransform.SummaryNeverPending | src/lib/notion/transform.ts:121-123 | a summary's status is never pending |
| NotionTransform.TransformToInvoice | src/lib/notion/transform.ts:138-159 | the invoice keeps every summary field |
| NotionTransform.TransformToInvoiceDetails | src/lib/notion/transform.ts:143-157 | items are the parsed list, or `[]` when the text is empty or does not parse; notes are null exactly when their text is empty |
| Invoices.WithDetails | src/lib/notion/transform.ts:154-158 | the spread keeps the summary and sets the items and notes |
| NotionItems.ChooseItemsQuery | src/lib/notion/items.ts:61-72 | direct lookup exactly for non-empty `itemIds`; else reverse lookup exactly for a truthy `invoiceId`; else no query |
| NotionItems.GetInvoiceItems | src/lib/notion/items.ts:56-73 | non-empty `itemIds` gives the direct lookup's items for those ids; otherwise a truthy `invoiceId` gives the reverse lookup's items for it; otherwise no items |
| NotionItems.ValidPages | src/lib/notion/items.ts:176-178 | the filter never adds pages |
| NotionItems.ItemOf | src/lib/notion/items.ts:189-198 | the subtotal is read from `금액`, or from `Subtotal` when `금액` is absent |
| NotionItems.MapItems | src/lib/notion/items.ts:179-199 | one item per page, in order |
| NotionItems.ValidPagesCount | src/lib/notion/items.ts:176-178 | the filter keeps exactly the pages with properties |
| NotionItems.TransformItemPagesSpec | src/lib/notion/items.ts:173-201 | one item per page with properties, in page order; the items of two page lists in sequence are the items of each |
| NotionItems.NullPageDropped | src/lib/notion/items.ts:177 | a failed fetch adds no item |
| NotionItems.SubtotalIsStored | src/lib/notion/items.ts:197 | the subtotal does not depend on the quantity or the unit price |
| NotionItems.ItemPrefersKorean | src/lib/notion/items.ts:189-198 | each of the four fields whose Korean property (`항목명`, `수량`, `단가`, `금액`) is present is read from it, and merging in English properties changes nothing |
| NotionItems.ItemFallsBackToEnglish | src/lib/notion/items.ts:189-198 | each field whose Korean property is absent is read from `Title`, `Quantity`, `Unit Price` or `Subtotal`, and is `''` or 0 when that is absent too |
| NotionItems.FormulaSubtotalReadsAsZero | src/lib/notion/items.ts:197 | a formula subtotal of any non-zero value is read as 0 |
| NotionItems.ExtractNumberOrFormula | src/lib/notion/items.ts:34-37 | a formula holding a number reads as that number; a property that is not a formula reads as `extractNumber` reads it |
| NotionItems.ItemOfWithFormula | src/lib/notion/items.ts:189-198 | same name, quantity and unit price as `ItemOf`; only the subtotal reading differs |
| NotionItems.TransformItemPagesWithFormula | src/lib/notion/items.ts:173-201 | one corrected item per page with properties, in page order |
| NotionItems.CorrectedItemsAgree | src/lib/notion/items.ts:173-201 | the corrected pipeline keeps the pages, their order and every field but the subtotal |
| NotionItems.FormulaSubtotalRead | src/lib/notion/items.ts:197 | a formula subtotal reads as its value; without formulas the corrected reading equals `ItemOf` |
| InvoiceViewer.ReduceIsSum | src/components/invoice/InvoiceViewer.tsx:93 | the `reduce` from any start value equals that value plus the sum of the subtotals |
| InvoiceViewer.CalculateSubtotalSpec | src/components/invoice/InvoiceViewer.tsx:92-94 | the subtotal is the sum of the items' own subtotals: 0 for no items, additive over concatenation |
| InvoiceViewer.ShortId | src/components/invoice/InvoiceViewer.tsx:277 | the id cut to its first 12 characters, then `...` |
| InvoiceViewer.Rows | src/components/invoice/InvoiceViewer.tsx:352-378 | one row per item, in order |
| InvoiceViewer.RenderInvoice | src/components/invoice/InvoiceViewer.tsx:138-495 | company defaults to `Your Company`; the id is shown as `ShortId` of the invoice id (its first 12 characters and `...`); both subtotal rows appear exactly when there are items and show the item sum; otherwise the empty-state row; the total is `totalAmount`; notes exactly when truthy, and then the invoice's own notes; actions exactly when `showActions` and a slot are given |
| Utils.SliceTo | src/lib/utils.ts:41 | `slice(0, n)`, with a negative end counted from the end |
| Utils.TruncateSpec | src/lib/utils.ts:37-42 | text no longer than the limit is returned unchanged; otherwise the result is the prefix plus the suffix, of length limit + suffix length; the suffix defaults to `...` |
| Utils.AbsoluteUrl | src/lib/utils.ts:60-65 | an `http://` or `https://` path is returned unchanged and never fails; any other is resolved against `APP_URL`, and fails (the TypeError of `new URL`) exactly when that resolution does |
| Utils.PadStart | src/lib/utils.ts:95-96 | pads to the width and leaves longer strings unchanged |
| Utils.TwoDigits | src/lib/utils.ts:95-96 | a month or day is two digits |
| Utils.TwoDigitsValue | src/lib/utils.ts:95-96 | the two digits read back as the number |
| Utils.NumericFormatsRoundTrip | src/lib/utils.ts:98-107 | `yyyy-mm-dd` and `dd/mm/yyyy` split back into the date's fields; the default is `yyyy-mm-dd` |
| Utils.FullFormatAndInvalid | src/lib/utils.ts:90-104 | `full` writes unpadded month and day with `년 월 일`; an invalid date gives `''` |
| Env.ValueOr | src/lib/env.ts:20-21 | the variable when set and non-empty, the fallback otherwise |
| Env.MissingOf | src/lib/env.ts:101 | exactly the listed names that are unset or empty |
| Env.MissingOfOrdered | src/lib/env.ts:101 | the result keeps the order of the list |
| Env.MissingOfDistinct | src/lib/env.ts:91-101 | a list without duplicates gives a result without duplicates |
| Env.ValidateEnvSpec | src/lib/env.ts:89-102 | exactly the unset required names, in order and without duplicates; empty exactly when all six are set |
| Middleware.Without | src/middleware.ts:69 | removes every pair of that name and keeps the others, in order |
| Middleware.WithoutIdempotent | src/middleware.ts:69 | removing a name twice removes nothing more |
| Middleware.SetParam | src/middleware.ts:69 | after `set` the name has exactly the new value, the other pairs are unchanged, and a new name is appended |
| Middleware.GetParam | src/middleware.ts:69 | reads the first value of a name, if it has one |
| Middleware.Decide | src/middleware.ts:27-82 | without Supabase configuration every request passes; the login redirect happens exactly for a protected path without a user, with `redirectTo` set to the path and the other parameters kept; the dashboard redirect happens exactly for `/login` with a user; no other target |
| Middleware.RedirectsOnlyGuardedPaths | src/middleware.ts:88-90 | redirects happen only on `/dashboard…` or `/login`, and the matcher covers only such paths |
| Middleware.SignedInDashboardPasses | src/middleware.ts:64-72 | a signed-in request on a dashboard path passes through |
| Middleware.NoRedirectLoop | src/middleware.ts:64-81 | following a redirect with the same session passes through |
| Supabase.StringOf | src/lib/supabase/share-links.ts:108-111 | `String(...)` of a text column is the text; absent gives `undefined`, null gives `null` |
| Supabase.NumberOrZero | src/lib/supabase/invoice-views.ts:147 | `Number(x) \|\| 0`: an integer column as is, and 0 for a falsy one |
| Supabase.Where | src/lib/supabase/share-links.ts:35 | exactly the rows whose column holds the value |
| Supabase.Single | src/lib/supabase/share-links.ts:36 | a transport fault is passed on; otherwise a row exactly when one row matches, and `PGRST116` for zero or several |
| Supabase.SingleFindsFreshRecord | src/lib/supabase/share-links.ts:51-58 | a row appended under an unused key is what `.single()` finds for that key |
| Supabase.SingleIgnoresOtherRecord | src/lib/supabase/share-links.ts:51-58 | a non-matching appended row changes no `.single()` answer |
| ShareLinks.MapShareLink | src/lib/supabase/share-links.ts:106-113 | each field is `String(...)` of its snake_case column |
| ShareLinks.MapShareLinkInverse | src/lib/supabase/share-links.ts:106-113 | a stored link reads back as itself, and different links read differently |
| ShareLinks.GetShareLinkByShareId | src/lib/supabase/share-links.ts:79-98 | `PGRST116` gives null; another error gives the `ShareLink 조회 실패: ` error; otherwise the only matching row, mapped, or null |
| ShareLinks.GetOrCreateShareLink | src/lib/supabase/share-links.ts:26-65 | a lookup error other than `PGRST116` fails with nothing inserted; an existing link is returned unchanged with nothing inserted; otherwise exactly one row with the fresh 12-character id is appended and returned, or the insert error is reported; views are untouched |
| ShareLinks.CreatedLinkIsFoundByPage | src/lib/supabase/share-links.ts:44-46 | after creation, a lookup by page finds the new link |
| ShareLinks.CreatedLinkIsFoundByShareId | src/lib/supabase/share-links.ts:90-97 | a link created under an unused share id is what the public lookup finds |
| ShareLinks.CreatePreservesOneLinkPerPage | src/lib/supabase/share-links.ts:49-64 | creating a link keeps every page at one link at most |
| ShareLinks.RepeatedRequestReusesLink | src/lib/supabase/share-links.ts:14-17 | two fault-free calls for the same page return the same link and add at most one row |
| InvoiceViews.OptionalString | src/lib/supabase/invoice-views.ts:134-135 | present exactly when the column is truthy, as `String(...)` of it |
| InvoiceViews.MapInvoiceView | src/lib/supabase/invoice-views.ts:129-137 | each field is read from its column; the optional ones are absent when falsy |
| InvoiceViews.MapViewStats | src/lib/supabase/invoice-views.ts:145-151 | the count is `Number(...)` or 0; falsy timestamps are absent |
| InvoiceViews.ViewRecordRoundTrip | src/lib/supabase/invoice-views.ts:45-58 | the inserted row reads back as the recorded visit, empty optional values absent |
| InvoiceViews.UpdateWhere | src/lib/supabase/invoice-views.ts:77-84 | every row with the share id is updated and every other row is kept |
| InvoiceViews.StatsAfterViewSpec | src/lib/supabase/invoice-views.ts:73-75 | the count becomes the old count (0 when absent) plus 1; `first_viewed_at` keeps a set value and is otherwise now; `last_viewed_at` is now; no other column changes |
| InvoiceViews.WhereAfterUpdate | src/lib/supabase/invoice-views.ts:77-84 | the update keeps the share id, so the same number of rows match afterwards and they are the updated rows |
| InvoiceViews.GetShareLinkViewStats | src/lib/supabase/invoice-views.ts:104-121 | `PGRST116` gives null; another error gives the `share_links 통계 조회 실패: ` error; otherwise the statistics of the only matching row, or null |
| InvoiceViews.ViewIsCounted | src/lib/supabase/invoice-views.ts:73-84 | after one view of a link, its statistics read one higher with now as the last view |
| InvoiceViews.GetOrCreateInvoiceView | src/lib/supabase/invoice-views.ts:31-91 | a failed insert fails and changes nothing; otherwise the view is appended and returned, and the statistics are updated only when the lookup and the update succeed |
| ShareLinksRoute.ShareUrl | src/app/api/share-links/route.ts:79-80 | `APP_URL` (defaulting to `http://localhost:3000`) followed by the public invoice path |
| ShareLinksRoute.Post | src/app/api/share-links/route.ts:41-101 | only 200, 400, 401, 500; 401 exactly without a user; 400 exactly for a signed-in request with an unparseable body or a missing, empty or non-string `notionPageId`; 200 exactly when the store succeeds, with its share id and URL; 500 carries the error details |
| ShareLinksRoute.AnonymousIgnoresRequest | src/app/api/share-links/route.ts:49-54 | without a user, the response does not depend on the body or the store |
| ShareLinksRoute.ResponseDependsOnRequestedPageOnly | src/app/api/share-links/route.ts:76 | the response depends on the store only through the requested page |
| ShareLinksRoute.ShareUrlNamesShareId | src/app/api/share-links/route.ts:80 | the path of the returned URL reads back as the returned share id |
| DashboardTable.IdsOf | src/app/dashboard/components/DashboardTableWrapper.tsx:61 | exactly the ids of the rows, and no more ids than rows |
| DashboardTable.DistinctIdsCount | src/app/dashboard/components/DashboardTableWrapper.tsx:61 | with distinct ids, one id per row |
| DashboardTable.InvoicesOf | src/app/dashboard/components/DashboardTableWrapper.tsx:47 | the invoices of the rows, in order |
| DashboardTable.SelectedInvoices | src/app/dashboard/components/DashboardTableWrapper.tsx:45-49 | exactly the invoices of the table whose id is selected |
| DashboardTable.SelectedInvoicesAppend | src/app/dashboard/components/DashboardTableWrapper.tsx:45-49 | the filter keeps table order: the selection of two tables in a row is the selection of the first followed by that of the second |
| DashboardTable.SelectedInvoicesCount | src/app/dashboard/components/DashboardTableWrapper.tsx:45-49 | one invoice per row whose id is selected, none merged or repeated |
| DashboardTable.ShowBulkBarSpec | src/app/dashboard/components/DashboardTableWrapper.tsx:177-182 | the bar is shown exactly when some row's id is selected |
| DashboardTable.SelectAllSelectsAll | src/app/dashboard/components/DashboardTableWrapper.tsx:45-49 | a selection holding every id selects every invoice, in table order |
| DashboardTable.IsAllSelectedSpec | src/app/dashboard/components/DashboardTableWrapper.tsx:54 | with distinct ids and a selection of table ids, the header is checked exactly when every id is selected |
| DashboardTable.StaleSelectionLooksAllSelected | src/app/dashboard/components/DashboardTableWrapper.tsx:54 | an id kept from an earlier table makes the header read "all selected" with no row selected |
| DashboardTable.EveryRowSelectedAgrees | src/app/dashboard/components/DashboardTableWrapper.tsx:54 | the membership test agrees with the size test whenever the selection holds only table ids |
| DashboardTable.Selection.HandleSelectAll | src/app/dashboard/components/DashboardTableWrapper.tsx:59-65 | checking selects exactly the table's ids and every invoice; unchecking empties the selection and hides the bar |
| DashboardTable.Selection.HandleSelectionChange | src/app/dashboard/components/DashboardTableWrapper.tsx:70-78 | only the given id changes membership, to the requested state |
| DashboardTable.Selection.HandleClear | src/app/dashboard/components/DashboardTableWrapper.tsx:83-85 | the selection is empty, nothing is selected and the header is unchecked |
| BulkActions.FormatCopyText | src/app/dashboard/components/DashboardBulkActions.tsx:37-52 | `url` gives the URL; `markdown` gives `[견적서_<name>](<url>)`; `text` gives `<name>: <url>` |
| BulkActions.CollectLinks | src/app/dashboard/components/DashboardBulkActions.tsx:72-98 | all links exactly when every response is usable, one per invoice in selection order with that invoice's client name |
| BulkActions.FormatLines | src/app/dashboard/components/DashboardBulkActions.tsx:101-104 | one formatted line per link, in order |
| BulkActions.CopyTextSplits | src/app/dashboard/components/DashboardBulkActions.tsx:101-105 | splitting the copied text at `\n` gives back one formatted line per link, in order |
| BulkActions.UrlFormatCopiesUrls | src/app/dashboard/components/DashboardBulkActions.tsx:101-105 | with the URL format, the copied lines are exactly the share URLs |
| BulkActions.BulkCopy.HandleBulkCopy | src/app/dashboard/components/DashboardBulkActions.tsx:67-124 | format defaults to `url`; on success the text is written once, the toast names count and format, and the selection is cleared once; on any failure only the error toast is added; loading is over either way |
| InvoiceActions.PdfButton | src/components/invoice/InvoiceActions.tsx:92-111 | disabled exactly while loading; label and text by the loading state, `<file name> 다운로드` otherwise |
| InvoiceActions.ShareButton | src/components/invoice/InvoiceActions.tsx:120-160 | disabled exactly without a share id or while generating; label precedence generating, missing id, copied, default; text precedence generating, copied, default |
| InvoiceActions.Render | src/components/invoice/InvoiceActions.tsx:61-73 | each button is rendered unless its flag is false; defaults `true`, `true`, `견적서.pdf` and `false` |
| InvoiceActions.ShareLabelsIdentifyState | src/components/invoice/InvoiceActions.tsx:121-129 | the share label alone tells which state the button is in |
| ViewStatusBadge.LabelShowsCount | src/components/invoice/InvoiceViewStatusBadge.tsx:56 | a viewed label shows the count itself; the unviewed label shows none |
| ViewStatusBadge.Tooltip | src/components/invoice/InvoiceViewStatusBadge.tsx:62-70 | non-empty exactly when viewed with a truthy last-view time; then the formatted time, or `알 수 없음` when formatting throws |
| ViewStatusBadge.Render | src/components/invoice/InvoiceViewStatusBadge.tsx:52-76 | viewed exactly when the count is positive; classes by status; aria-label is `조회 상태: ` and the label |
| ViewStatusBadge.ClassesDistinguishStatus | src/components/invoice/InvoiceViewStatusBadge.tsx:33-38 | the two class strings tell the statuses apart |
| Text.SplitJoin | src/app/dashboard/components/DashboardBulkActions.tsx:105 | splitting lines joined by a separator they do not contain gives them back |
| Text.JoinEmptyIsFlatten | src/lib/notion/transform.ts:30 | `join('')` concatenates the runs |

## Left out

- `src/lib/pdf/generator.ts`, `invoice-pdf-document.tsx`, the PDF route under `/api/invoice/[shareId]/pdf` and the page capture are not part of this model. They are thin wrappers over a headless browser and a layout library, and compute nothing.
- I/O is represented by its outcome:
  - the Notion `fetch` calls (`getItemsByIds`, `getItemsByInvoiceId`) are parameters of `GetInvoiceItems`;
  - the session lookup, the database transport and the `fetch` of the bulk copy are inputs.
- Foreign functions are parameters without an interpretation: `Buffer.from(x, 'base64')`, `JSON.parse`, `Intl.NumberFormat`, `toISOString`, `toLocaleString`, `new Date(...)`, `new URL(...)`, `nanoid`. Those that can throw (`Buffer.from`, `JSON.parse`, `new URL`, `toLocaleString`) return None where they throw.
  - `Date` decomposition in `formatDate` is an input (`LocalDate`).
- Amounts and counts are JavaScript doubles in the source and unbounded integers here. Floating point, including `NaN`, is not modelled.
- Only the download route works on UTF-16 code units. Elsewhere text is a sequence of Unicode scalar values, which matches JavaScript lengths only on BMP text.
  - `ShortId` and `FormatCopyText` rely on this.
  - `Utils.Truncate` works on code units.
- Middleware: the cookie refresh through `setAll` and the `NextResponse` it rebuilds are not modelled. Only the pass/redirect decision is.
- The clock is read three times by `getOrCreateInvoiceView`; the model takes one time `now` for all three reads.
- The database's schema is not shown. Row ids, `created_at` and unique constraints are inputs or unknown.
- Concurrency is not modelled: simultaneous requests, lost updates of the view count, and `Promise.all` running its requests in parallel.
- Toasts, the clipboard and `onClear` are recorded in the `BulkCopy` state rather than performed.
- Logging is not modelled: the `console.warn` calls of `getOrCreateInvoiceView` (src/lib/supabase/invoice-views.ts:68, :87) and the `console.error` of the bulk copy (src/app/dashboard/components/DashboardBulkActions.tsx:120) have no counterpart.
- NotionTransform.TransformToInvoiceSummary: requires a status option that is not an `Object.prototype` name. For such a name (`constructor`, `toString`, `__proto__`, ...) the source stores the inherited member as the status. `ParseStatus` yields it as `InheritedMember`, but the six-valued status of the records cannot hold it, so what the list, the view and the template then show for it is not modelled.
- Constants.InheritedMemberText: the string form of an inherited member is V8's wording.
- NotionTransform.TransformToInvoice: `parseItems` returns an item list or nothing, so a `JSON.parse` result that is not an array of items (`null`, `5`, `{}`), which the source casts to `items` unchecked and which then makes `items.reduce` and `items.length` throw in the view, is not modelled.
- Supabase.Single: the `fault` input may carry any code, `PGRST116` included, although the server sends that code only for a row count other than one. With such a fault `GetOrCreateShareLink` may insert a second link for a page that already has one, which the real server does not allow.
- Supabase.NumberOrZero: reads a text count only in plain decimal form, because JavaScript's `Number` syntax (exponents, hex, spaces, `Infinity`) is not modelled.
- InvoiceViews.StatsAfterViewSpec: states the count increment only for a count that is not text. A text count is concatenated with `1`, as JavaScript does, and `NextCount` keeps that case.
- ShareLinks.GetOrCreateShareLink: takes the fresh `nanoid` value as an input, so its randomness and the chance of a collision are not modelled.
- ShareLinks.RepeatedRequestReusesLink: holds for a page with at most one row. With duplicate rows, `.single()` answers `PGRST116` and another link is created.
- ShareLinksRoute.Post: reading `notionPageId` of a `null` body throws a TypeError. The model's message for it is V8's wording.
- PdfDownload.Post: the request body is represented after `request.json()`; a body that fails to parse is one case.
- Quote escaping: the ASCII fallback does not escape `"`. `AcceptedResponse` therefore states the header round trip only for names without `"`.
- Ignored props: `className`, `onPdfClick`, `onShareClick` and the icons. These only affect presentation.

## Findings

| source | as written | input that shows it | evidently intended | confidence | as-written member | corrected member |
|---|---|---|---|---|---|---|
| src/lib/notion/items.ts:197 | the item subtotal is read by `extractNumber`, which returns 0 for any property whose type is not `number`; the comment at line 49 declares the subtotal column a formula | an item page whose `금액` property is a formula with value 5000 | a formula subtotal is read as its number | medium, not executed | NotionItems.FormulaSubtotalReadsAsZero | NotionItems.TransformItemPagesWithFormula |
| src/app/dashboard/components/DashboardTableWrapper.tsx:54 | `isAllSelected` compares the selection's size with the row count, and the selection outlives a change of `data` | a table with the row `new` after a table with the row `old` was selected: selection `{old}` | the header is checked exactly when every row is selected | low, not executed | DashboardTable.StaleSelectionLooksAllSelected | DashboardTable.EveryRowSelectedAgrees |
