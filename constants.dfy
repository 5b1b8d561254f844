/**
 * Application-wide constants: route paths and their builders, the invoice status labels
 * and badge variants, the dashboard page size, and the PDF file name pattern.
 */
module Constants {
  import opened Wrappers
  import opened Text

  // ---------------------------------------------------------------- Routes

  const Home := "/"
  const Login := "/login"
  const Dashboard := "/dashboard"
  const DashboardInvoicePrefix := "/dashboard/invoice/"
  const InvoicePublicPrefix := "/invoice/"

  /** `ROUTES.DASHBOARD_INVOICE(id)`. */
  function DashboardInvoice(id: string): string { DashboardInvoicePrefix + id }

  /** `ROUTES.INVOICE_PUBLIC(shareId)`. */
  function InvoicePublic(shareId: string): string { InvoicePublicPrefix + shareId }

  /** The share id a public invoice path names, if it is one. */
  function ParseInvoicePublic(path: string): (r: Option<string>)
    ensures r.Some? <==> StartsWith(path, InvoicePublicPrefix)
  {
    if StartsWith(path, InvoicePublicPrefix) then Some(path[|InvoicePublicPrefix|..]) else None
  }

  /** The invoice id an admin invoice path names, if it is one. */
  function ParseDashboardInvoice(path: string): (r: Option<string>)
    ensures r.Some? <==> StartsWith(path, DashboardInvoicePrefix)
  {
    if StartsWith(path, DashboardInvoicePrefix) then Some(path[|DashboardInvoicePrefix|..]) else None
  }

  /** The public path of a share id reads back as that share id, and only its own path does. */
  lemma InvoicePublicRoundTrip(shareId: string, path: string)
    ensures ParseInvoicePublic(InvoicePublic(shareId)) == Some(shareId)
    ensures ParseInvoicePublic(path) == Some(shareId) ==> path == InvoicePublic(shareId)
  {
    assert InvoicePublic(shareId)[..|InvoicePublicPrefix|] == InvoicePublicPrefix;
    assert InvoicePublic(shareId)[|InvoicePublicPrefix|..] == shareId;
    if ParseInvoicePublic(path) == Some(shareId) {
      assert path == path[..|InvoicePublicPrefix|] + path[|InvoicePublicPrefix|..];
    }
  }

  lemma DashboardInvoiceRoundTrip(id: string, path: string)
    ensures ParseDashboardInvoice(DashboardInvoice(id)) == Some(id)
    ensures ParseDashboardInvoice(path) == Some(id) ==> path == DashboardInvoice(id)
  {
    assert DashboardInvoice(id)[..|DashboardInvoicePrefix|] == DashboardInvoicePrefix;
    assert DashboardInvoice(id)[|DashboardInvoicePrefix|..] == id;
    if ParseDashboardInvoice(path) == Some(id) {
      assert path == path[..|DashboardInvoicePrefix|] + path[|DashboardInvoicePrefix|..];
    }
  }

  /** Every admin invoice page lies under the dashboard, and no public invoice page does. */
  lemma RoutesUnderDashboard(id: string, shareId: string)
    ensures StartsWith(DashboardInvoice(id), Dashboard)
    ensures !StartsWith(InvoicePublic(shareId), Dashboard)
  {
    assert DashboardInvoice(id)[..|Dashboard|] == Dashboard;
    assert InvoicePublic(shareId)[1] == 'i' != Dashboard[1];
  }

  // ---------------------------------------------------------------- Statuses

  datatype InvoiceStatus = Pending | Draft | Sent | Confirmed | Completed | Cancelled

  const AllStatuses: seq<InvoiceStatus> := [Pending, Draft, Sent, Confirmed, Completed, Cancelled]

  /** The string value of a status as the data and the records carry it. */
  function StatusKey(s: InvoiceStatus): string
  {
    match s
    case Pending => "pending"
    case Draft => "draft"
    case Sent => "sent"
    case Confirmed => "confirmed"
    case Completed => "completed"
    case Cancelled => "cancelled"
  }

  /** The status a key names; the keys of the label and variant records. */
  function StatusOfKey(k: string): (r: Option<InvoiceStatus>)
    ensures r.Some? ==> StatusKey(r.value) == k
  {
    if k == "pending" then Some(Pending)
    else if k == "draft" then Some(Draft)
    else if k == "sent" then Some(Sent)
    else if k == "confirmed" then Some(Confirmed)
    else if k == "completed" then Some(Completed)
    else if k == "cancelled" then Some(Cancelled)
    else None
  }

  lemma StatusKeyRoundTrip(s: InvoiceStatus)
    ensures StatusOfKey(StatusKey(s)) == Some(s)
  {
  }

  /**
   * The properties every object literal inherits from `Object.prototype`: indexing a
   * `Record` literal with one of them yields the inherited member, not `undefined`.
   */
  const ObjectPrototypeNames: set<string> := {
    "constructor", "__proto__", "__defineGetter__", "__defineSetter__", "__lookupGetter__",
    "__lookupSetter__", "hasOwnProperty", "isPrototypeOf", "propertyIsEnumerable",
    "toLocaleString", "toString", "valueOf"}

  /**
   * `String(...)` of the member inherited under `name`, as V8 writes it: `Object.prototype`
   * itself for `__proto__`, the `Object` function for `constructor`, a native method otherwise.
   */
  function InheritedMemberText(name: string): (text: string)
    ensures text != ""
  {
    if name == "__proto__" then "[object Object]"
    else if name == "constructor" then "function Object() { [native code] }"
    else "function " + name + "() { [native code] }"
  }

  /** No status key and no status label is an inherited property name. */
  lemma StatusNamesAreOwn(s: InvoiceStatus)
    ensures StatusKey(s) !in ObjectPrototypeNames && StatusLabel(s) !in ObjectPrototypeNames
  {
  }

  /** `INVOICE_STATUS_LABELS`. */
  function StatusLabel(s: InvoiceStatus): string
  {
    match s
    case Pending => "대기"
    case Draft => "초안"
    case Sent => "발송됨"
    case Confirmed => "확인됨"
    case Completed => "완료"
    case Cancelled => "취소됨"
  }

  datatype BadgeVariant = Default | Secondary | Destructive | Outline

  /** `INVOICE_STATUS_VARIANTS`. */
  function StatusVariant(s: InvoiceStatus): BadgeVariant
  {
    match s
    case Pending => Secondary
    case Draft => Outline
    case Sent => Secondary
    case Confirmed => Default
    case Completed => Default
    case Cancelled => Destructive
  }

  /** Distinct statuses have distinct keys and distinct labels. */
  lemma KeysAndLabelsDistinct(s: InvoiceStatus, t: InvoiceStatus)
    requires s != t
    ensures StatusKey(s) != StatusKey(t)
    ensures StatusLabel(s) != StatusLabel(t)
  {
    StatusKeyRoundTrip(s);
    StatusKeyRoundTrip(t);
    match s
    case Pending => assert StatusLabel(s)[0] == '대';
    case Draft => assert StatusLabel(s)[0] == '초';
    case Sent => assert StatusLabel(s)[0] == '발';
    case Confirmed => assert StatusLabel(s)[0] == '확';
    case Completed => assert StatusLabel(s)[0] == '완';
    case Cancelled => assert StatusLabel(s)[0] == '취';
  }

  /** Only a cancelled invoice is shown destructive, and only a confirmed or completed one as the default. */
  lemma VariantClasses(s: InvoiceStatus)
    ensures StatusVariant(s) == Destructive <==> s == Cancelled
    ensures StatusVariant(s) == Default <==> s == Confirmed || s == Completed
    ensures StatusVariant(s) == Outline <==> s == Draft
  {
  }

  // ---------------------------------------------------------------- Pagination

  const DashboardPageSize: nat := 20

  // ---------------------------------------------------------------- PDF file name

  /** The characters `buildPdfFilename` removes: `/ \ ? % * : | " < >`. */
  predicate IsForbiddenFileChar(c: char) {
    c == '/' || c == '\\' || c == '?' || c == '%' || c == '*' || c == ':' || c == '|' || c == '"' || c == '<' || c == '>'
  }

  predicate HasNoForbiddenFileChar(s: string) {
    forall i :: 0 <= i < |s| ==> !IsForbiddenFileChar(s[i])
  }

  /** `clientName.replace(/[/\\?%*:|"<>]/g, '')`. */
  function SanitizeClientName(s: string): (r: string)
    ensures |r| <= |s|
  {
    if s == [] then []
    else if IsForbiddenFileChar(s[0]) then SanitizeClientName(s[1..])
    else [s[0]] + SanitizeClientName(s[1..])
  }

  /** `sub` can be obtained from `s` by deleting characters. */
  predicate IsSubsequence(sub: string, s: string)
    decreases |s|
  {
    if sub == [] then true
    else if s == [] then false
    else if sub[0] == s[0] then IsSubsequence(sub[1..], s[1..])
    else IsSubsequence(sub, s[1..])
  }

  /**
   * Sanitising only deletes: the result is a subsequence of the name, holds no forbidden
   * character, and holds every other character exactly as often as the name does.
   */
  lemma {:induction false} SanitizeDeletesOnly(s: string)
    ensures IsSubsequence(SanitizeClientName(s), s)
    ensures HasNoForbiddenFileChar(SanitizeClientName(s))
    ensures forall c :: !IsForbiddenFileChar(c) ==> multiset(SanitizeClientName(s))[c] == multiset(s)[c]
  {
    if s != [] {
      SanitizeDeletesOnly(s[1..]);
      assert s == [s[0]] + s[1..];
      var r := SanitizeClientName(s);
      if !IsForbiddenFileChar(s[0]) {
        assert r[1..] == SanitizeClientName(s[1..]);
      }
    }
  }

  lemma {:induction false} SanitizeKeepsSafeName(s: string)
    requires HasNoForbiddenFileChar(s)
    ensures SanitizeClientName(s) == s
  {
    if s != [] {
      assert !IsForbiddenFileChar(s[0]);
      SanitizeKeepsSafeName(s[1..]);
    }
  }

  lemma SanitizeIdempotent(s: string)
    ensures SanitizeClientName(SanitizeClientName(s)) == SanitizeClientName(s)
  {
    SanitizeDeletesOnly(s);
    SanitizeKeepsSafeName(SanitizeClientName(s));
  }

  const PdfFilenamePrefix := "견적서_"

  /** `buildPdfFilename(clientName, date)`: `견적서_<sanitised name>_<date>.pdf`. */
  function BuildPdfFilename(clientName: string, date: string): string
  {
    PdfFilenamePrefix + SanitizeClientName(clientName) + "_" + date + ".pdf"
  }

  /**
   * The file name frames the sanitised client name and the date, and it holds no forbidden
   * character whenever the date holds none (a `YYYY-MM-DD` date never does).
   */
  lemma BuildPdfFilenameShape(clientName: string, date: string)
    ensures var f := BuildPdfFilename(clientName, date);
      StartsWith(f, PdfFilenamePrefix) &&
      |f| >= 4 && f[|f| - 4..] == ".pdf" &&
      f[|PdfFilenamePrefix|..|f| - 4] == SanitizeClientName(clientName) + "_" + date
    ensures HasNoForbiddenFileChar(date) ==> HasNoForbiddenFileChar(BuildPdfFilename(clientName, date))
  {
    var f := BuildPdfFilename(clientName, date);
    var safe := SanitizeClientName(clientName);
    SanitizeDeletesOnly(clientName);
    assert f == PdfFilenamePrefix + (safe + "_" + date) + ".pdf";
    assert f[..|PdfFilenamePrefix|] == PdfFilenamePrefix;
    if HasNoForbiddenFileChar(date) {
      forall i | 0 <= i < |f|
        ensures !IsForbiddenFileChar(f[i])
      {
        if i < |PdfFilenamePrefix| {
          assert f[i] == PdfFilenamePrefix[i];
        } else if i < |PdfFilenamePrefix| + |safe| {
          assert f[i] == safe[i - |PdfFilenamePrefix|];
        } else if i == |PdfFilenamePrefix| + |safe| {
          assert f[i] == '_';
        } else if i < |PdfFilenamePrefix| + |safe| + 1 + |date| {
          assert f[i] == date[i - |PdfFilenamePrefix| - |safe| - 1];
        } else {
          assert f[i] == ".pdf"[i - |PdfFilenamePrefix| - |safe| - 1 - |date|];
        }
      }
    }
  }
}
