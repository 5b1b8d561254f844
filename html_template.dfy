/**
 * `generateInvoiceHtml`: the HTML document the server renders to PDF. The fixed markup and
 * style sheet are not modelled; the document is modelled by the values it interpolates and
 * by which of its optional parts it emits.
 */
module HtmlTemplate {
  import opened Wrappers
  import opened Decimal
  import opened Constants
  import opened Invoices

  /** The item table body: one row per item, or the single empty-state row. */
  datatype TableRow =
    | ItemRow(name: string, quantity: string, unitPrice: string, subtotal: string)
    | EmptyItemsRow

  const EmptyItemsText := "항목 정보가 없습니다."
  const FooterText := "본 견적서는 자동 생성된 문서입니다. 문의사항은 발신자에게 연락하세요."

  datatype InvoiceHtml = InvoiceHtml(
    documentTitle: string,            // <title>
    headerTitle: string,              // the paragraph under the heading
    invoiceDate: string,
    dueDate: Option<string>,          // the due-date label and value, when emitted
    statusLabel: string,
    statusColor: string,              // the badge background in the style sheet
    clientName: string,
    rows: seq<TableRow>,
    grandTotal: string,
    notes: Option<string>,            // the notes section, when emitted
    footer: string)

  /**
   * `INVOICE_STATUS_LABELS[status] || '미정'`, looked up by the status value the record
   * carries. The literal inherits from `Object.prototype`, so an inherited name finds a
   * truthy member, which the template interpolates as its string form.
   */
  function StatusLabelOf(key: string): (text: string)
    ensures StatusOfKey(key).Some? ==> text == StatusLabel(StatusOfKey(key).value)
    ensures key in ObjectPrototypeNames ==> text == InheritedMemberText(key)
    ensures StatusOfKey(key).None? && key !in ObjectPrototypeNames ==> text == "미정"
  {
    match StatusOfKey(key)
    case Some(s) => StatusNamesAreOwn(s); if StatusLabel(s) != "" then StatusLabel(s) else "미정"
    case None => if key in ObjectPrototypeNames then InheritedMemberText(key) else "미정"
  }

  /** The badge colour of each status. */
  function StatusColor(s: InvoiceStatus): string
  {
    match s
    case Pending => "#10b981"
    case Draft => "#6b7280"
    case Sent => "#3b82f6"
    case Confirmed => "#8b5cf6"
    case Completed => "#059669"
    case Cancelled => "#ef4444"
  }

  const FallbackColor := "#6b7280"

  /** `statusColors[status] || '#6b7280'`, over a literal that inherits from `Object.prototype` as well. */
  function StatusColorOf(key: string): (color: string)
    ensures StatusOfKey(key).Some? ==> color == StatusColor(StatusOfKey(key).value)
    ensures key in ObjectPrototypeNames ==> color == InheritedMemberText(key)
    ensures StatusOfKey(key).None? && key !in ObjectPrototypeNames ==> color == FallbackColor
  {
    match StatusOfKey(key)
    case Some(s) => StatusNamesAreOwn(s); if StatusColor(s) != "" then StatusColor(s) else FallbackColor
    case None => if key in ObjectPrototypeNames then InheritedMemberText(key) else FallbackColor
  }

  /**
   * The template's `formatDate`: `-` for an empty or absent date, else the date part of
   * `toISOString()` (`isoDate`, None where it throws) or, failing that, the string itself.
   */
  function FormatDate(date: Option<string>, isoDate: string -> Option<string>): (r: string)
    ensures !IsTruthy(date) ==> r == "-"
    ensures IsTruthy(date) && isoDate(date.value).Some? ==> r == isoDate(date.value).value
    ensures IsTruthy(date) && isoDate(date.value).None? ==> r == date.value
  {
    if !IsTruthy(date) then "-"
    else match isoDate(date.value)
      case Some(d) => d
      case None => date.value
  }

  /** Escaping of one character of the notes. */
  function EscapeChar(c: char): string
  {
    if c == '<' then "&lt;" else if c == '>' then "&gt;" else [c]
  }

  /** Reference reading of the escaping: each character escaped on its own, left to right. */
  function EscapeEach(s: string): string
  {
    if s == [] then [] else EscapeChar(s[0]) + EscapeEach(s[1..])
  }

  /** `s.replace(/x/g, by)`: every occurrence of one character replaced by a string. */
  function ReplaceAll(s: string, x: char, replacement: string): string
  {
    if s == [] then [] else (if s[0] == x then replacement else [s[0]]) + ReplaceAll(s[1..], x, replacement)
  }

  /** `notes.replace(/</g, '&lt;').replace(/>/g, '&gt;')`. */
  function EscapeNotes(s: string): string
  {
    ReplaceAll(ReplaceAll(s, '<', "&lt;"), '>', "&gt;")
  }

  lemma {:induction false} ReplaceAllAppend(a: string, b: string, x: char, replacement: string)
    ensures ReplaceAll(a + b, x, replacement) == ReplaceAll(a, x, replacement) + ReplaceAll(b, x, replacement)
  {
    if a == [] {
      assert a + b == b;
    } else {
      assert (a + b)[0] == a[0];
      assert (a + b)[1..] == a[1..] + b;
      ReplaceAllAppend(a[1..], b, x, replacement);
    }
  }

  /** The two passes escape each character on its own: `&lt;` holds no `>` for the second pass to touch. */
  lemma {:induction false} EscapeNotesIsEscapeEach(s: string)
    ensures EscapeNotes(s) == EscapeEach(s)
  {
    if s != [] {
      EscapeNotesIsEscapeEach(s[1..]);
      var first := if s[0] == '<' then "&lt;" else [s[0]];
      assert ReplaceAll(s, '<', "&lt;") == first + ReplaceAll(s[1..], '<', "&lt;");
      ReplaceAllAppend(first, ReplaceAll(s[1..], '<', "&lt;"), '>', "&gt;");
      if s[0] == '<' {
        assert ReplaceAll(first, '>', "&gt;") == "&lt;" by {
          assert first[1..][1..][1..][1..] == [];
        }
      } else {
        assert ReplaceAll(first, '>', "&gt;") == EscapeChar(s[0]) by {
          assert first[1..] == [];
        }
      }
    }
  }

  /** Escaped notes hold no `<` and no `>`. */
  lemma {:induction false} EscapedHasNoBrackets(s: string)
    ensures '<' !in EscapeNotes(s) && '>' !in EscapeNotes(s)
  {
    EscapeNotesIsEscapeEach(s);
    EscapeEachHasNoBrackets(s);
  }

  lemma {:induction false} EscapeEachHasNoBrackets(s: string)
    ensures '<' !in EscapeEach(s) && '>' !in EscapeEach(s)
  {
    if s != [] {
      EscapeEachHasNoBrackets(s[1..]);
    }
  }

  /** Text without brackets is left as it is. */
  lemma {:induction false} EscapeWithoutBrackets(s: string)
    requires '<' !in s && '>' !in s
    ensures EscapeEach(s) == s
  {
    if s != [] {
      assert s[0] != '<' && s[0] != '>';
      EscapeWithoutBrackets(s[1..]);
    }
  }

  /** `&` is not escaped, so two different notes can read the same once escaped. */
  lemma EscapeNotInvertible()
    ensures EscapeNotes("<") == EscapeNotes("&lt;")
  {
    EscapeNotesIsEscapeEach("<");
    EscapeNotesIsEscapeEach("&lt;");
    EscapeWithoutBrackets("&lt;");
  }

  function ItemRows(items: seq<InvoiceItem>, formatCurrency: int -> string): (rows: seq<TableRow>)
    ensures |rows| == |items|
    ensures forall i :: 0 <= i < |items| ==>
      rows[i] == ItemRow(items[i].name, IntToString(items[i].quantity), formatCurrency(items[i].unitPrice), formatCurrency(items[i].subtotal))
  {
    if items == [] then []
    else
      var it := items[0];
      [ItemRow(it.name, IntToString(it.quantity), formatCurrency(it.unitPrice), formatCurrency(it.subtotal))]
        + ItemRows(items[1..], formatCurrency)
  }

  /**
   * `generateInvoiceHtml(invoice)`. `formatCurrency` stands for the `ko-KR` won formatter
   * and `isoDate` for the date part of `new Date(d).toISOString()`.
   */
  function GenerateInvoiceHtml(inv: Invoice, formatCurrency: int -> string, isoDate: string -> Option<string>): (h: InvoiceHtml)
    ensures h.documentTitle == inv.title && h.headerTitle == inv.title && h.clientName == inv.clientName
    ensures h.grandTotal == formatCurrency(inv.totalAmount)
    ensures h.invoiceDate == FormatDate(Some(inv.invoiceDate), isoDate)
    ensures h.dueDate.Some? <==> IsTruthy(inv.dueDate)
    ensures h.dueDate.Some? ==> h.dueDate.value == FormatDate(inv.dueDate, isoDate)
    ensures h.notes.Some? <==> IsTruthy(inv.notes)
    ensures h.notes.Some? ==> h.notes.value == EscapeNotes(inv.notes.value)
    ensures h.statusLabel == StatusLabel(inv.status) && h.statusColor == StatusColor(inv.status)
    ensures h.footer == FooterText
  {
    StatusKeyRoundTrip(inv.status);
    InvoiceHtml(
      inv.title,
      inv.title,
      FormatDate(Some(inv.invoiceDate), isoDate),
      if IsTruthy(inv.dueDate) then Some(FormatDate(inv.dueDate, isoDate)) else None,
      StatusLabelOf(StatusKey(inv.status)),
      StatusColorOf(StatusKey(inv.status)),
      inv.clientName,
      if |inv.items| > 0 then ItemRows(inv.items, formatCurrency) else [EmptyItemsRow],
      formatCurrency(inv.totalAmount),
      if IsTruthy(inv.notes) then Some(EscapeNotes(inv.notes.value)) else None,
      FooterText)
  }

  /**
   * The table has exactly one row per item, in item order, each showing that item's own
   * values, or exactly the empty-state row when there are no items.
   */
  lemma TableRows(inv: Invoice, formatCurrency: int -> string, isoDate: string -> Option<string>)
    ensures var rows := GenerateInvoiceHtml(inv, formatCurrency, isoDate).rows;
      (inv.items == [] ==> rows == [EmptyItemsRow]) &&
      (inv.items != [] ==>
        |rows| == |inv.items| &&
        forall i :: 0 <= i < |inv.items| ==>
          (rows[i].ItemRow? && rows[i].name == inv.items[i].name &&
           ParseInt(rows[i].quantity) == Some(inv.items[i].quantity) &&
           rows[i].unitPrice == formatCurrency(inv.items[i].unitPrice) &&
           rows[i].subtotal == formatCurrency(inv.items[i].subtotal)))
  {
    var rows := GenerateInvoiceHtml(inv, formatCurrency, isoDate).rows;
    forall i | 0 <= i < |inv.items|
      ensures ParseInt(IntToString(inv.items[i].quantity)) == Some(inv.items[i].quantity)
    {
      ParseIntToString(inv.items[i].quantity);
    }
  }

  /**
   * An unknown status value shows `미정` on a grey badge, unless it names a member inherited
   * from `Object.prototype`, whose string form then stands as both label and colour; a known
   * status shows its own label and colour.
   */
  lemma StatusFallbacks(key: string)
    ensures StatusOfKey(key).None? && key !in ObjectPrototypeNames ==>
      StatusLabelOf(key) == "미정" && StatusColorOf(key) == "#6b7280"
    ensures key in ObjectPrototypeNames ==>
      StatusLabelOf(key) == StatusColorOf(key) == InheritedMemberText(key) && StatusLabelOf(key) != "미정"
    ensures forall s: InvoiceStatus :: StatusLabelOf(StatusKey(s)) == StatusLabel(s) && StatusColorOf(StatusKey(s)) == StatusColor(s)
  {
    forall s: InvoiceStatus
      ensures StatusLabelOf(StatusKey(s)) == StatusLabel(s) && StatusColorOf(StatusKey(s)) == StatusColor(s)
    {
      StatusKeyRoundTrip(s);
    }
  }
}
