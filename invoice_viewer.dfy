/**
 * The web view of an invoice (`InvoiceViewer`): the items subtotal and which parts of the
 * page are shown. Currency and date formatting are left to the presentation and the
 * amounts are kept as numbers.
 */
module InvoiceViewer {
  import opened Wrappers
  import opened Constants
  import opened Invoices

  /** `items.reduce((sum, item) => sum + item.subtotal, acc)`, left to right. */
  function ReduceSubtotals(items: seq<InvoiceItem>, acc: int): int
  {
    if items == [] then acc else ReduceSubtotals(items[1..], acc + items[0].subtotal)
  }

  /** `calculateSubtotal(items)`. */
  function CalculateSubtotal(items: seq<InvoiceItem>): int
  {
    ReduceSubtotals(items, 0)
  }

  /** The sum of the supplied item subtotals, as a reference. */
  function SumSubtotals(items: seq<InvoiceItem>): int
  {
    if items == [] then 0 else SumSubtotals(items[..|items| - 1]) + items[|items| - 1].subtotal
  }

  lemma {:induction false} SumSubtotalsCons(item: InvoiceItem, items: seq<InvoiceItem>)
    ensures SumSubtotals([item] + items) == item.subtotal + SumSubtotals(items)
    decreases |items|
  {
    if items != [] {
      var all := [item] + items;
      assert all[..|all| - 1] == [item] + items[..|items| - 1];
      SumSubtotalsCons(item, items[..|items| - 1]);
    } else {
      assert ([item] + items)[..0] == [];
    }
  }

  lemma {:induction false} ReduceIsSum(items: seq<InvoiceItem>, acc: int)
    ensures ReduceSubtotals(items, acc) == acc + SumSubtotals(items)
  {
    if items != [] {
      ReduceIsSum(items[1..], acc + items[0].subtotal);
      SumSubtotalsCons(items[0], items[1..]);
      assert [items[0]] + items[1..] == items;
    }
  }

  lemma {:induction false} SumSubtotalsAppend(a: seq<InvoiceItem>, b: seq<InvoiceItem>)
    ensures SumSubtotals(a + b) == SumSubtotals(a) + SumSubtotals(b)
    decreases |b|
  {
    if b == [] {
      assert a + b == a;
    } else {
      assert (a + b)[..|a + b| - 1] == a + b[..|b| - 1];
      SumSubtotalsAppend(a, b[..|b| - 1]);
    }
  }

  /**
   * The subtotal is the sum of the items' own subtotal fields: 0 for no items, and additive
   * over item lists one after the other.
   */
  lemma CalculateSubtotalSpec(items: seq<InvoiceItem>, more: seq<InvoiceItem>)
    ensures CalculateSubtotal(items) == SumSubtotals(items)
    ensures CalculateSubtotal([]) == 0
    ensures CalculateSubtotal(items + more) == CalculateSubtotal(items) + CalculateSubtotal(more)
  {
    ReduceIsSum(items, 0);
    ReduceIsSum(more, 0);
    ReduceIsSum(items + more, 0);
    SumSubtotalsAppend(items, more);
  }

  /** One row of the items table. */
  datatype ViewerRow = ItemRow(item: InvoiceItem) | EmptyItemsRow

  const EmptyItemsText := "등록된 견적 항목이 없습니다."
  const DefaultCompanyName := "Your Company"

  /** The props of the component; an absent optional prop takes its default. */
  datatype ViewerProps = ViewerProps(
    invoice: Invoice,
    companyName: Option<string>,
    showActions: Option<bool>,
    hasActionsSlot: bool)            // whether `actionsSlot` is a truthy node

  /** What the page shows. */
  datatype InvoicePage = InvoicePage(
    companyName: string,
    shortId: string,
    statusLabel: string,
    statusVariant: BadgeVariant,
    rows: seq<ViewerRow>,
    footerSubtotal: Option<int>,      // the table footer's subtotal row
    summarySubtotal: Option<int>,     // the summary's subtotal row
    total: int,
    notes: Option<string>,
    actionsShown: bool)

  /** `invoice.id.slice(0, 12)` followed by `...`. */
  function ShortId(id: string): (r: string)
    ensures |id| <= 12 ==> r == id + "..."
    ensures |id| > 12 ==> |r| == 15
    ensures |r| >= 3 && r[|r| - 3..] == "..." && r[..|r| - 3] == id[..|r| - 3]
  {
    (if |id| <= 12 then id else id[..12]) + "..."
  }

  function Rows(items: seq<InvoiceItem>): (rows: seq<ViewerRow>)
    ensures |rows| == |items| && forall i :: 0 <= i < |items| ==> rows[i] == ItemRow(items[i])
  {
    if items == [] then [] else [ItemRow(items[0])] + Rows(items[1..])
  }

  /** `InvoiceViewer(props)`. */
  function RenderInvoice(props: ViewerProps): (page: InvoicePage)
    ensures page.companyName == props.companyName.GetOr(DefaultCompanyName)
    ensures page.shortId == ShortId(props.invoice.id)
    ensures props.invoice.items == [] ==> page.rows == [EmptyItemsRow]
    ensures props.invoice.items != [] ==> page.rows == Rows(props.invoice.items)
    ensures page.footerSubtotal.Some? <==> |props.invoice.items| > 0
    ensures page.summarySubtotal.Some? <==> |props.invoice.items| > 0
    ensures page.footerSubtotal.Some? ==> page.footerSubtotal.value == SumSubtotals(props.invoice.items)
    ensures page.summarySubtotal == page.footerSubtotal
    ensures page.total == props.invoice.totalAmount
    ensures page.notes.Some? <==> IsTruthy(props.invoice.notes)
    ensures page.notes.Some? ==> page.notes == props.invoice.notes
    ensures page.actionsShown <==> props.showActions == Some(true) && props.hasActionsSlot
    ensures page.statusLabel == StatusLabel(props.invoice.status) && page.statusVariant == StatusVariant(props.invoice.status)
  {
    var inv := props.invoice;
    var subtotal := CalculateSubtotal(inv.items);
    ReduceIsSum(inv.items, 0);
    var hasItems := |inv.items| > 0;
    InvoicePage(
      props.companyName.GetOr(DefaultCompanyName),
      ShortId(inv.id),
      StatusLabel(inv.status),
      StatusVariant(inv.status),
      if hasItems then Rows(inv.items) else [EmptyItemsRow],
      if hasItems then Some(subtotal) else None,
      if hasItems then Some(subtotal) else None,
      inv.totalAmount,
      if IsTruthy(inv.notes) then inv.notes else None,
      props.showActions.GetOr(false) && props.hasActionsSlot)
  }
}
