/**
 * Turning a Notion database page into the app's invoice records: typed property
 * extractors with defaults, the status parser, and the English-before-Korean lookup of
 * property names.
 */
module NotionTransform {
  import opened Wrappers
  import opened Text
  import opened Constants
  import opened Invoices

  /** The value of a `formula` property. */
  datatype FormulaValue = FormulaNumber(number: Option<int>) | FormulaString(text: Option<string>) | FormulaOther

  /** The page property union, reduced to what the extractors read. */
  datatype Property =
    | TitleProp(titleRuns: seq<string>)        // `plain_text` of each title run
    | RichTextProp(textRuns: seq<string>)      // `plain_text` of each rich-text run
    | DateProp(start: Option<string>)          // `date?.start`
    | NumberProp(number: Option<int>)
    | SelectProp(selectName: Option<string>)   // `select?.name`
    | FormulaProp(formula: FormulaValue)
    | OtherProp

  type Properties = map<string, Property>

  datatype Page = Page(id: string, properties: Properties)

  /** `props[first] || props[second]`: a present property object is truthy, so the first name wins when present. */
  function Lookup(props: Properties, first: string, second: string): (p: Option<Property>)
    ensures first in props ==> p == Some(props[first])
    ensures first !in props && second in props ==> p == Some(props[second])
    ensures first !in props && second !in props ==> p == None
  {
    if first in props then Some(props[first]) else if second in props then Some(props[second]) else None
  }

  /** `extractText`: the runs of a title or rich-text property joined, else the empty string. */
  function ExtractText(p: Option<Property>): (s: string)
    ensures p.Some? && p.value.TitleProp? ==> s == Flatten(p.value.titleRuns)
    ensures p.Some? && p.value.RichTextProp? ==> s == Flatten(p.value.textRuns)
    ensures (p.None? || !(p.value.TitleProp? || p.value.RichTextProp?)) ==> s == ""
  {
    match p
    case None => ""
    case Some(TitleProp(runs)) => JoinEmptyIsFlatten(runs); Join(runs, "")
    case Some(RichTextProp(runs)) => JoinEmptyIsFlatten(runs); Join(runs, "")
    case Some(_) => ""
  }

  /** `extractDate`: the start of a date property when it is a non-empty string, else null. */
  function ExtractDate(p: Option<Property>): (d: Option<string>)
    ensures d.Some? <==> p.Some? && p.value.DateProp? && p.value.start.Some? && p.value.start.value != ""
    ensures d.Some? ==> d.value == p.value.start.value
  {
    match p
    case Some(DateProp(Some(start))) => if start != "" then Some(start) else None
    case _ => None
  }

  /** `extractNumber`: the value of a number property, 0 when absent, null or of another type. */
  function ExtractNumber(p: Option<Property>): (n: int)
    ensures n != 0 ==> p.Some? && p.value.NumberProp? && p.value.number == Some(n)
    ensures p.Some? && p.value.NumberProp? && p.value.number.Some? ==> n == p.value.number.value
  {
    match p
    case Some(NumberProp(Some(v))) => v
    case _ => 0
  }

  /** `extractSelect`: the option name of a select property, else the empty string. */
  function ExtractSelect(p: Option<Property>): (s: string)
    ensures s != "" ==> p.Some? && p.value.SelectProp? && p.value.selectName == Some(s)
    ensures p.Some? && p.value.SelectProp? && p.value.selectName.Some? ==> s == p.value.selectName.value
  {
    match p
    case Some(SelectProp(Some(name))) => name
    case _ => ""
  }

  /** What `statusMap[value] ?? 'draft'` yields: a status, or a member the literal inherits from `Object.prototype`. */
  datatype ParsedStatus = OwnStatus(status: InvoiceStatus) | InheritedMember(name: string)

  /** `parseStatus`: the Korean label or the English key of a status other than pending, else draft. */
  function ParseStatus(value: string): ParsedStatus
  {
    if value == "초안" || value == "draft" then OwnStatus(Draft)
    else if value == "발송됨" || value == "sent" then OwnStatus(Sent)
    else if value == "확인됨" || value == "confirmed" then OwnStatus(Confirmed)
    else if value == "완료" || value == "completed" then OwnStatus(Completed)
    else if value == "취소됨" || value == "cancelled" then OwnStatus(Cancelled)
    else if value in ObjectPrototypeNames then InheritedMember(value)
    else OwnStatus(Draft)
  }

  /**
   * The parser never yields pending; it reads every other status back from its key and from
   * its label; and a status other than draft comes only from its own key or label.
   */
  lemma ParseStatusSpec(value: string, s: InvoiceStatus)
    ensures ParseStatus(value) != OwnStatus(Pending)
    ensures s != Pending ==> ParseStatus(StatusKey(s)) == OwnStatus(s) && ParseStatus(StatusLabel(s)) == OwnStatus(s)
    ensures s != Pending && s != Draft ==>
      (ParseStatus(value) == OwnStatus(s) <==> value == StatusKey(s) || value == StatusLabel(s))
  {
  }

  /**
   * Every string outside the ten recognised ones is read as draft, `pending` and `대기`
   * included, except the names of `Object.prototype` members, which yield that member.
   */
  lemma ParseStatusFallback(value: string)
    requires forall s: InvoiceStatus :: s != Pending ==> value != StatusKey(s) && value != StatusLabel(s)
    ensures value in ObjectPrototypeNames ==> ParseStatus(value) == InheritedMember(value)
    ensures value !in ObjectPrototypeNames ==> ParseStatus(value) == OwnStatus(Draft)
  {
    assert value != StatusKey(Draft) && value != StatusLabel(Draft);
    assert value != StatusKey(Sent) && value != StatusLabel(Sent);
    assert value != StatusKey(Confirmed) && value != StatusLabel(Confirmed);
    assert value != StatusKey(Completed) && value != StatusLabel(Completed);
    assert value != StatusKey(Cancelled) && value != StatusLabel(Cancelled);
  }

  /** The status option of a page as `extractSelect` reads it. */
  function StatusOption(props: Properties): string {
    ExtractSelect(Lookup(props, "Status", "상태"))
  }

  /** The status option parses to one of the statuses, not to an inherited member. */
  predicate HasOwnStatus(page: Page) {
    StatusOption(page.properties) !in ObjectPrototypeNames
  }

  /** `transformToInvoiceSummary(page)`, for a page whose status option parses to a status. */
  function TransformToInvoiceSummary(page: Page): (s: InvoiceSummary)
    requires HasOwnStatus(page)
    ensures s.id == page.id
  {
    var props := page.properties;
    InvoiceSummary(
      page.id,
      ExtractText(Lookup(props, "Title", "제목")),
      ExtractText(Lookup(props, "Client Name", "클라이언트명")),
      ExtractDate(Lookup(props, "Invoice Date", "견적 일자")).GetOr(""),
      ExtractDate(Lookup(props, "Due Date", "만료일")),
      ParseStatus(StatusOption(props)).status,
      ExtractNumber(Lookup(props, "Total Amount", "총 금액")))
  }

  /** The English property names the summary reads, and the Korean names it falls back to. */
  const EnglishNames: set<string> := {"Title", "Client Name", "Invoice Date", "Due Date", "Status", "Total Amount"}
  const KoreanNames: set<string> := {"제목", "클라이언트명", "견적 일자", "만료일", "상태", "총 금액"}

  /**
   * Each field is read from its English property whenever that is present, even when it is
   * empty or of the wrong type: whatever the Korean properties hold, that field is the same.
   * With all six English properties present, the Korean ones are not read at all.
   */
  lemma SummaryPrefersEnglish(page: Page, korean: Properties)
    requires korean.Keys <= KoreanNames
    requires HasOwnStatus(page) && HasOwnStatus(page.(properties := page.properties + korean))
    ensures var props := page.properties;
      var s := TransformToInvoiceSummary(page);
      var t := TransformToInvoiceSummary(page.(properties := props + korean));
      ("Title" in props ==> s.title == t.title == ExtractText(Some(props["Title"]))) &&
      ("Client Name" in props ==> s.clientName == t.clientName == ExtractText(Some(props["Client Name"]))) &&
      ("Invoice Date" in props ==>
        s.invoiceDate == t.invoiceDate == ExtractDate(Some(props["Invoice Date"])).GetOr("")) &&
      ("Due Date" in props ==> s.dueDate == t.dueDate == ExtractDate(Some(props["Due Date"]))) &&
      ("Status" in props ==> s.status == t.status == ParseStatus(ExtractSelect(Some(props["Status"]))).status) &&
      ("Total Amount" in props ==> s.totalAmount == t.totalAmount == ExtractNumber(Some(props["Total Amount"]))) &&
      (EnglishNames <= props.Keys ==> s == t)
  {
    var props := page.properties;
    assert forall name :: name in EnglishNames ==> name !in KoreanNames;
    if EnglishNames <= props.Keys {
      assert "Title" in props && "Client Name" in props && "Invoice Date" in props;
      assert "Due Date" in props && "Status" in props && "Total Amount" in props;
    }
  }

  /**
   * A field whose English property is absent is read from its Korean property, and takes
   * its default (`''`, `''`, `''`, null, draft, 0) when that is absent too.
   */
  lemma SummaryFallsBackToKorean(page: Page)
    requires HasOwnStatus(page)
    ensures var props := page.properties;
      var s := TransformToInvoiceSummary(page);
      ("Title" !in props ==> s.title == ExtractText(if "제목" in props then Some(props["제목"]) else None)) &&
      ("Client Name" !in props ==>
        s.clientName == ExtractText(if "클라이언트명" in props then Some(props["클라이언트명"]) else None)) &&
      ("Invoice Date" !in props ==>
        s.invoiceDate == ExtractDate(if "견적 일자" in props then Some(props["견적 일자"]) else None).GetOr("")) &&
      ("Due Date" !in props ==> s.dueDate == ExtractDate(if "만료일" in props then Some(props["만료일"]) else None)) &&
      ("Status" !in props ==>
        s.status == ParseStatus(ExtractSelect(if "상태" in props then Some(props["상태"]) else None)).status) &&
      ("Total Amount" !in props ==>
        s.totalAmount == ExtractNumber(if "총 금액" in props then Some(props["총 금액"]) else None))
  {
  }

  /** A page with none of the twelve property names gives a summary of defaults. */
  lemma SummaryDefaults(page: Page)
    requires forall name :: name in EnglishNames || name in KoreanNames ==> name !in page.properties
    ensures HasOwnStatus(page)
    ensures TransformToInvoiceSummary(page) == InvoiceSummary(page.id, "", "", "", None, Draft, 0)
  {
    assert "Status" !in page.properties && "상태" !in page.properties;
    assert StatusOption(page.properties) == "";
    assert "Title" !in page.properties && "제목" !in page.properties;
    assert "Client Name" !in page.properties && "클라이언트명" !in page.properties;
    assert "Invoice Date" !in page.properties && "견적 일자" !in page.properties;
    assert "Due Date" !in page.properties && "만료일" !in page.properties;
    assert "Total Amount" !in page.properties && "총 금액" !in page.properties;
  }

  /** The invoice date is the empty string exactly when there is no non-empty date start under either name. */
  lemma SummaryInvoiceDate(page: Page)
    requires HasOwnStatus(page)
    ensures var d := ExtractDate(Lookup(page.properties, "Invoice Date", "견적 일자"));
      TransformToInvoiceSummary(page).invoiceDate == (if d.Some? then d.value else "") &&
      (TransformToInvoiceSummary(page).invoiceDate == "" <==> d.None?)
  {
  }

  /** The status of a summary is never pending. */
  lemma SummaryNeverPending(page: Page)
    requires HasOwnStatus(page)
    ensures TransformToInvoiceSummary(page).status != Pending
  {
    ParseStatusSpec(StatusOption(page.properties), Draft);
  }

  /**
   * `transformToInvoice(page)`. `parseItems` stands for `JSON.parse` of the items text, None
   * where it throws; the parsed value is taken as an item list without checking.
   */
  function TransformToInvoice(page: Page, parseItems: string -> Option<seq<InvoiceItem>>): (inv: Invoice)
    requires HasOwnStatus(page)
    ensures SummaryOf(inv) == TransformToInvoiceSummary(page)
  {
    var props := page.properties;
    var itemsRaw := ExtractText(Lookup(props, "Items", "항목"));
    var items := if itemsRaw != "" then parseItems(itemsRaw).GetOr([]) else [];
    var notesText := ExtractText(Lookup(props, "Notes", "메모"));
    WithDetails(TransformToInvoiceSummary(page), items, if notesText != "" then Some(notesText) else None)
  }

  /**
   * The items are the parsed list, or empty when the text is empty or does not parse; the
   * notes are null exactly when their text is empty, and otherwise that text.
   */
  lemma TransformToInvoiceDetails(page: Page, parseItems: string -> Option<seq<InvoiceItem>>)
    requires HasOwnStatus(page)
    ensures var inv := TransformToInvoice(page, parseItems);
      var itemsRaw := ExtractText(Lookup(page.properties, "Items", "항목"));
      var notesText := ExtractText(Lookup(page.properties, "Notes", "메모"));
      (itemsRaw == "" || parseItems(itemsRaw).None? ==> inv.items == []) &&
      (itemsRaw != "" && parseItems(itemsRaw).Some? ==> inv.items == parseItems(itemsRaw).value) &&
      (inv.notes.None? <==> notesText == "") &&
      (inv.notes.Some? ==> inv.notes.value == notesText)
  {
  }
}
