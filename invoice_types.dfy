/**
 * The invoice records shared by the transformation, the HTML template, the web view and the
 * dashboard. Amounts are whole won, held as integers.
 */
module Invoices {
  import opened Wrappers
  import opened Constants

  datatype InvoiceItem = InvoiceItem(name: string, quantity: int, unitPrice: int, subtotal: int)

  /** `InvoiceSummary`: an invoice without its items and notes, as the dashboard lists it. */
  datatype InvoiceSummary = InvoiceSummary(
    id: string,
    title: string,
    clientName: string,
    invoiceDate: string,
    dueDate: Option<string>,
    status: InvoiceStatus,
    totalAmount: int)

  datatype Invoice = Invoice(
    id: string,
    title: string,
    clientName: string,
    invoiceDate: string,
    dueDate: Option<string>,
    status: InvoiceStatus,
    totalAmount: int,
    items: seq<InvoiceItem>,
    notes: Option<string>)

  /** JavaScript truthiness of an optional string: present and non-empty. */
  predicate IsTruthy(s: Option<string>) { s.Some? && s.value != "" }

  /** `{ ...summary, items, notes }`. */
  function WithDetails(s: InvoiceSummary, items: seq<InvoiceItem>, notes: Option<string>): (inv: Invoice)
    ensures SummaryOf(inv) == s && inv.items == items && inv.notes == notes
  {
    Invoice(s.id, s.title, s.clientName, s.invoiceDate, s.dueDate, s.status, s.totalAmount, items, notes)
  }

  function SummaryOf(inv: Invoice): InvoiceSummary
  {
    InvoiceSummary(inv.id, inv.title, inv.clientName, inv.invoiceDate, inv.dueDate, inv.status, inv.totalAmount)
  }
}
