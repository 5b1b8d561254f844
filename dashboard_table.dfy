/**
 * The dashboard table's row selection: a set of selected invoice ids replaced by the
 * select-all, per-row and clear handlers, the selected invoices derived from it in table
 * order, the header checkbox state and whether the bulk bar is shown.
 */
module DashboardTable {
  import opened Wrappers
  import opened Invoices
  import Constants

  /** One row of `data`: an invoice with its view statistics. */
  datatype Row = Row(invoice: InvoiceSummary, viewCount: int, lastViewedAt: Option<string>)

  /** `new Set(data.map((item) => item.invoice.id))`. */
  function IdsOf(data: seq<Row>): (ids: set<string>)
    ensures forall id :: id in ids <==> exists i :: 0 <= i < |data| && data[i].invoice.id == id
    ensures |ids| <= |data|
  {
    if data == [] then {}
    else
      var rest := IdsOf(data[1..]);
      assert forall id :: id in rest <==> exists i :: 1 <= i < |data| && data[i].invoice.id == id by {
        forall id | id in rest ensures exists i :: 1 <= i < |data| && data[i].invoice.id == id {
          var j :| 0 <= j < |data[1..]| && data[1..][j].invoice.id == id;
          assert data[j + 1].invoice.id == id;
        }
      }
      {data[0].invoice.id} + rest
  }

  predicate DistinctIds(data: seq<Row>) {
    forall i, j :: 0 <= i < j < |data| ==> data[i].invoice.id != data[j].invoice.id
  }

  /** With distinct ids, the set of ids has one element per row. */
  lemma {:induction false} DistinctIdsCount(data: seq<Row>)
    requires DistinctIds(data)
    ensures |IdsOf(data)| == |data|
  {
    if data != [] {
      DistinctIdsCount(data[1..]);
      assert data[0].invoice.id !in IdsOf(data[1..]);
    }
  }

  /** `data.map((item) => item.invoice)`. */
  function InvoicesOf(data: seq<Row>): (r: seq<InvoiceSummary>)
    ensures |r| == |data|
    ensures forall i :: 0 <= i < |data| ==> r[i] == data[i].invoice
  {
    if data == [] then [] else [data[0].invoice] + InvoicesOf(data[1..])
  }

  /** `selectedInvoices`: the invoices of `data` whose id is selected, in table order. */
  function SelectedInvoices(data: seq<Row>, selected: set<string>): (r: seq<InvoiceSummary>)
    ensures |r| <= |data|
    ensures forall inv :: inv in r <==> inv in InvoicesOf(data) && inv.id in selected
  {
    if data == [] then []
    else
      var rest := SelectedInvoices(data[1..], selected);
      assert InvoicesOf(data) == [data[0].invoice] + InvoicesOf(data[1..]);
      if data[0].invoice.id in selected then [data[0].invoice] + rest else rest
  }

  /** The number of rows whose id is selected. */
  function CountSelected(data: seq<Row>, selected: set<string>): nat
  {
    if data == [] then 0 else (if data[0].invoice.id in selected then 1 else 0) + CountSelected(data[1..], selected)
  }

  /**
   * The selected invoices of two tables one after the other are those of the first followed
   * by those of the second: the filter keeps table order.
   */
  lemma {:induction false} SelectedInvoicesAppend(a: seq<Row>, b: seq<Row>, selected: set<string>)
    ensures SelectedInvoices(a + b, selected) == SelectedInvoices(a, selected) + SelectedInvoices(b, selected)
  {
    if a == [] {
      assert a + b == b;
    } else {
      assert (a + b)[0] == a[0];
      assert (a + b)[1..] == a[1..] + b;
      SelectedInvoicesAppend(a[1..], b, selected);
    }
  }

  /** One invoice per selected row: the filter neither merges nor repeats rows. */
  lemma {:induction false} SelectedInvoicesCount(data: seq<Row>, selected: set<string>)
    ensures |SelectedInvoices(data, selected)| == CountSelected(data, selected)
  {
    if data != [] {
      SelectedInvoicesCount(data[1..], selected);
    }
  }

  /** `isAllSelected`: a non-empty table whose selection is as large as the table. */
  predicate IsAllSelected(data: seq<Row>, selected: set<string>) {
    |data| > 0 && |selected| == |data|
  }

  /** The bulk-action bar is shown when some invoice is selected. */
  predicate ShowBulkBar(data: seq<Row>, selected: set<string>) {
    |SelectedInvoices(data, selected)| > 0
  }

  /** The bar is shown exactly when some row of the table is selected. */
  lemma ShowBulkBarSpec(data: seq<Row>, selected: set<string>)
    ensures ShowBulkBar(data, selected) <==> exists i :: 0 <= i < |data| && data[i].invoice.id in selected
  {
    var r := SelectedInvoices(data, selected);
    if i :| 0 <= i < |data| && data[i].invoice.id in selected {
      assert InvoicesOf(data)[i] in InvoicesOf(data);
      assert data[i].invoice in r;
    }
    if |r| > 0 {
      assert r[0] in InvoicesOf(data);
      var i :| 0 <= i < |data| && InvoicesOf(data)[i] == r[0];
    }
  }

  /** Selecting every row selects every invoice of the table, in order. */
  lemma {:induction false} SelectAllSelectsAll(data: seq<Row>, selected: set<string>)
    requires IdsOf(data) <= selected
    ensures SelectedInvoices(data, selected) == InvoicesOf(data)
  {
    if data != [] {
      assert IdsOf(data[1..]) <= IdsOf(data);
      SelectAllSelectsAll(data[1..], selected);
    }
  }

  /** When the selected ids are ids of the table, which are distinct, the header checkbox is checked iff every row is selected. */
  lemma IsAllSelectedSpec(data: seq<Row>, selected: set<string>)
    requires DistinctIds(data)
    requires selected <= IdsOf(data)
    ensures IsAllSelected(data, selected) <==> |data| > 0 && IdsOf(data) <= selected
  {
    DistinctIdsCount(data);
    if |selected| == |data| {
      SameSizeSubsetIsEqual(selected, IdsOf(data));
    }
    if IdsOf(data) <= selected {
      assert selected == IdsOf(data);
    }
  }

  lemma {:induction false} SubsetSize(a: set<string>, b: set<string>)
    requires a <= b
    ensures |a| <= |b|
    decreases a
  {
    if a != {} {
      var x :| x in a;
      SubsetSize(a - {x}, b - {x});
    }
  }

  lemma SameSizeSubsetIsEqual(a: set<string>, b: set<string>)
    requires a <= b && |a| == |b|
    ensures a == b
  {
    if a != b {
      var x :| x in b && x !in a;
      SubsetSize(a, b - {x});
    }
  }

  /** Whether every row of a non-empty table is selected. */
  predicate EveryRowSelected(data: seq<Row>, selected: set<string>) {
    |data| > 0 && forall i :: 0 <= i < |data| ==> data[i].invoice.id in selected
  }

  /** An id kept from an earlier table counts toward the size test: the header reads "all selected" with no row selected. */
  lemma StaleSelectionLooksAllSelected()
    ensures var data := [Row(InvoiceSummary("new", "", "", "", None, Constants.Draft, 0), 0, None)];
      IsAllSelected(data, {"old"}) && !EveryRowSelected(data, {"old"}) && !ShowBulkBar(data, {"old"})
  {
    var data := [Row(InvoiceSummary("new", "", "", "", None, Constants.Draft, 0), 0, None)];
    assert data[0].invoice.id !in {"old"};
    assert |{"old"}| == 1;
  }

  /** The header checkbox by membership, which agrees with the size test whenever the selection holds only ids of the table. */
  lemma EveryRowSelectedAgrees(data: seq<Row>, selected: set<string>)
    requires DistinctIds(data)
    requires selected <= IdsOf(data)
    ensures EveryRowSelected(data, selected) <==> IsAllSelected(data, selected)
  {
    IsAllSelectedSpec(data, selected);
    if EveryRowSelected(data, selected) {
      forall id | id in IdsOf(data) ensures id in selected {
        var i :| 0 <= i < |data| && data[i].invoice.id == id;
      }
    }
  }

  /** The selection state of `DashboardTableWrapper`. */
  class Selection {
    var selectedIds: set<string>

    constructor ()
      ensures selectedIds == {}
    {
      selectedIds := {};
    }

    /** `handleSelectAll(checked)`. */
    method HandleSelectAll(data: seq<Row>, checked: bool)
      modifies this
      ensures selectedIds == if checked then IdsOf(data) else {}
      ensures checked ==> SelectedInvoices(data, selectedIds) == InvoicesOf(data)
      ensures !checked ==> !ShowBulkBar(data, selectedIds)
      ensures checked && DistinctIds(data) ==> (IsAllSelected(data, selectedIds) <==> |data| > 0)
    {
      if checked {
        selectedIds := IdsOf(data);
        SelectAllSelectsAll(data, selectedIds);
        if DistinctIds(data) {
          DistinctIdsCount(data);
        }
      } else {
        selectedIds := {};
        ShowBulkBarSpec(data, selectedIds);
      }
    }

    /** `handleSelectionChange(invoiceId, selected)`: only `invoiceId` changes membership. */
    method HandleSelectionChange(invoiceId: string, selected: bool)
      modifies this
      ensures selectedIds == if selected then old(selectedIds) + {invoiceId} else old(selectedIds) - {invoiceId}
      ensures (invoiceId in selectedIds) == selected
      ensures forall id :: id != invoiceId ==> (id in selectedIds <==> id in old(selectedIds))
    {
      var next := selectedIds;
      if selected {
        next := next + {invoiceId};
      } else {
        next := next - {invoiceId};
      }
      selectedIds := next;
    }

    /** `handleClear()`. */
    method HandleClear(data: seq<Row>)
      modifies this
      ensures selectedIds == {}
      ensures SelectedInvoices(data, selectedIds) == [] && !IsAllSelected(data, selectedIds)
    {
      selectedIds := {};
      ShowBulkBarSpec(data, selectedIds);
    }
  }
}
