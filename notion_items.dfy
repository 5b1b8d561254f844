/**
 * Line items of an invoice from the Notion items database: the choice between direct lookup
 * and reverse lookup, and the filter-then-map from item pages to items (Korean property
 * names first, English second). The extractors are the same as those of the invoice pages.
 */
module NotionItems {
  import opened Wrappers
  import opened Invoices
  import opened NotionTransform

  /** Which query `getInvoiceItems` runs. */
  datatype ItemsQuery = ByIds(ids: seq<string>) | ByInvoiceId(invoiceId: string) | NoQuery

  /** `itemIds && itemIds.length > 0` chooses direct lookup, else a non-empty `invoiceId` reverse lookup. */
  function ChooseItemsQuery(itemIds: Option<seq<string>>, invoiceId: Option<string>): (q: ItemsQuery)
    ensures q.ByIds? <==> itemIds.Some? && |itemIds.value| > 0
    ensures q.ByIds? ==> q.ids == itemIds.value
    ensures q.ByInvoiceId? <==> (itemIds.None? || itemIds.value == []) && IsTruthy(invoiceId)
    ensures q.ByInvoiceId? ==> q.invoiceId == invoiceId.value
  {
    if itemIds.Some? && |itemIds.value| > 0 then ByIds(itemIds.value)
    else if IsTruthy(invoiceId) then ByInvoiceId(invoiceId.value)
    else NoQuery
  }

  /**
   * `getInvoiceItems(itemIds, invoiceId)`. The two fetching queries are I/O and are passed
   * in as their results.
   */
  function GetInvoiceItems(itemIds: Option<seq<string>>, invoiceId: Option<string>,
                           byIds: seq<string> -> seq<InvoiceItem>, byInvoiceId: string -> seq<InvoiceItem>): (items: seq<InvoiceItem>)
    ensures var q := ChooseItemsQuery(itemIds, invoiceId);
      (q.ByIds? ==> items == byIds(q.ids)) &&
      (q.ByInvoiceId? ==> items == byInvoiceId(q.invoiceId)) &&
      (q.NoQuery? ==> items == [])
  {
    match ChooseItemsQuery(itemIds, invoiceId)
    case ByIds(ids) => byIds(ids)
    case ByInvoiceId(id) => byInvoiceId(id)
    case NoQuery => []
  }

  /** An entry of the fetched page list; a failed fetch leaves null. */
  datatype RawPage = NullPage | NonObject | WithoutProperties | PageWithProperties(props: Properties)

  predicate IsItemPage(p: RawPage) { p.PageWithProperties? }

  function ValidPages(pages: seq<RawPage>): (r: seq<Properties>)
    ensures |r| <= |pages|
  {
    if pages == [] then []
    else if IsItemPage(pages[0]) then [pages[0].props] + ValidPages(pages[1..])
    else ValidPages(pages[1..])
  }

  /** One item page as an item, each field read under its Korean name first. */
  function ItemOf(props: Properties): (it: InvoiceItem)
    ensures "금액" in props ==> it.subtotal == ExtractNumber(Some(props["금액"]))
    ensures "금액" !in props ==> it.subtotal == ExtractNumber(Lookup(props, "Subtotal", "Subtotal"))
  {
    InvoiceItem(
      ExtractText(Lookup(props, "항목명", "Title")),
      ExtractNumber(Lookup(props, "수량", "Quantity")),
      ExtractNumber(Lookup(props, "단가", "Unit Price")),
      ExtractNumber(Lookup(props, "금액", "Subtotal")))
  }

  function MapItems(ps: seq<Properties>): (items: seq<InvoiceItem>)
    ensures |items| == |ps|
    ensures forall i :: 0 <= i < |ps| ==> items[i] == ItemOf(ps[i])
  {
    if ps == [] then [] else [ItemOf(ps[0])] + MapItems(ps[1..])
  }

  /** `transformItemPages(pages)`: the pages that are objects with properties, each as an item, in order. */
  function TransformItemPages(pages: seq<RawPage>): seq<InvoiceItem>
  {
    MapItems(ValidPages(pages))
  }

  function CountItemPages(pages: seq<RawPage>): nat
  {
    if pages == [] then 0 else (if IsItemPage(pages[0]) then 1 else 0) + CountItemPages(pages[1..])
  }

  lemma {:induction false} ValidPagesAppend(a: seq<RawPage>, b: seq<RawPage>)
    ensures ValidPages(a + b) == ValidPages(a) + ValidPages(b)
  {
    if a == [] {
      assert a + b == b;
    } else {
      assert (a + b)[0] == a[0];
      assert (a + b)[1..] == a[1..] + b;
      ValidPagesAppend(a[1..], b);
    }
  }

  lemma {:induction false} ValidPagesCount(pages: seq<RawPage>)
    ensures |ValidPages(pages)| == CountItemPages(pages)
  {
    if pages != [] {
      ValidPagesCount(pages[1..]);
    }
  }

  /**
   * One item per page with properties, in page order; the other entries are dropped, and
   * the items of two page lists one after the other are the items of each.
   */
  lemma TransformItemPagesSpec(pages: seq<RawPage>, more: seq<RawPage>)
    ensures |TransformItemPages(pages)| == CountItemPages(pages)
    ensures var items := TransformItemPages(pages);
      forall i :: 0 <= i < |items| ==> items[i] == ItemOf(ValidPages(pages)[i])
    ensures TransformItemPages(pages + more) == TransformItemPages(pages) + TransformItemPages(more)
  {
    ValidPagesCount(pages);
    ValidPagesAppend(pages, more);
    MapItemsAppend(ValidPages(pages), ValidPages(more));
  }

  lemma MapItemsAppend(a: seq<Properties>, b: seq<Properties>)
    ensures MapItems(a + b) == MapItems(a) + MapItems(b)
  {
    var l := MapItems(a + b);
    var r := MapItems(a) + MapItems(b);
    assert |l| == |r|;
    forall i | 0 <= i < |l|
      ensures l[i] == r[i]
    {
      if i < |a| {
        assert (a + b)[i] == a[i];
      } else {
        assert (a + b)[i] == b[i - |a|];
      }
    }
  }

  /** A failed fetch adds no item. */
  lemma NullPageDropped(pages: seq<RawPage>)
    ensures TransformItemPages(pages + [NullPage]) == TransformItemPages(pages)
  {
    ValidPagesAppend(pages, [NullPage]);
    assert ValidPages([NullPage]) == [];
    assert ValidPages(pages) + [] == ValidPages(pages);
  }

  /** The subtotal is read from its own property and does not depend on the quantity or the unit price. */
  lemma SubtotalIsStored(props: Properties, qty: Property, price: Property)
    ensures ItemOf(props["수량" := qty]["단가" := price]).subtotal == ItemOf(props).subtotal
  {
    var q := props["수량" := qty]["단가" := price];
    assert Lookup(q, "금액", "Subtotal") == Lookup(props, "금액", "Subtotal");
  }

  /** The English property names of an item page. */
  const ItemEnglishNames: set<string> := {"Title", "Quantity", "Unit Price", "Subtotal"}

  /**
   * Each field whose Korean property is present is read from it, whatever English properties
   * are merged in; with all four Korean names present the English ones change nothing.
   */
  lemma ItemPrefersKorean(props: Properties, english: Properties)
    requires english.Keys <= ItemEnglishNames
    ensures var it := ItemOf(props);
      var jt := ItemOf(props + english);
      ("항목명" in props ==> it.name == jt.name == ExtractText(Some(props["항목명"]))) &&
      ("수량" in props ==> it.quantity == jt.quantity == ExtractNumber(Some(props["수량"]))) &&
      ("단가" in props ==> it.unitPrice == jt.unitPrice == ExtractNumber(Some(props["단가"]))) &&
      ("금액" in props ==> it.subtotal == jt.subtotal == ExtractNumber(Some(props["금액"]))) &&
      ("항목명" in props && "수량" in props && "단가" in props && "금액" in props ==> it == jt)
  {
    assert "항목명" !in english && "수량" !in english && "단가" !in english && "금액" !in english;
  }

  /**
   * A field whose Korean property is absent is read from its English property, and is `''`
   * or 0 when that is absent too.
   */
  lemma ItemFallsBackToEnglish(props: Properties)
    ensures var it := ItemOf(props);
      ("항목명" !in props ==> it.name == ExtractText(if "Title" in props then Some(props["Title"]) else None)) &&
      ("수량" !in props ==> it.quantity == ExtractNumber(if "Quantity" in props then Some(props["Quantity"]) else None)) &&
      ("단가" !in props ==> it.unitPrice == ExtractNumber(if "Unit Price" in props then Some(props["Unit Price"]) else None)) &&
      ("금액" !in props ==> it.subtotal == ExtractNumber(if "Subtotal" in props then Some(props["Subtotal"]) else None))
  {
  }

  // ---------------------------------------------------------------- Subtotal as a formula

  /**
   * The items database declares its subtotal column as a formula. `extractNumber` reads only
   * number properties, so a formula subtotal of any value is read as 0.
   */
  lemma FormulaSubtotalReadsAsZero(n: int)
    requires n != 0
    ensures var props := map["금액" := FormulaProp(FormulaNumber(Some(n)))];
      ItemOf(props).subtotal == 0 != n
  {
  }

  /** The number of a number property or of a formula that yields a number, else 0. */
  function ExtractNumberOrFormula(p: Option<Property>): (n: int)
    ensures p.Some? && p.value.FormulaProp? && p.value.formula.FormulaNumber? && p.value.formula.number.Some? ==>
      n == p.value.formula.number.value
    ensures !(p.Some? && p.value.FormulaProp?) ==> n == ExtractNumber(p)
  {
    match p
    case Some(FormulaProp(FormulaNumber(Some(v)))) => v
    case _ => ExtractNumber(p)
  }

  /** An item page as an item, with the subtotal also read from a formula. */
  function ItemOfWithFormula(props: Properties): (it: InvoiceItem)
    ensures it.name == ItemOf(props).name && it.quantity == ItemOf(props).quantity && it.unitPrice == ItemOf(props).unitPrice
  {
    ItemOf(props).(subtotal := ExtractNumberOrFormula(Lookup(props, "금액", "Subtotal")))
  }

  /** `transformItemPages` with each page read by `ItemOfWithFormula`. */
  function TransformItemPagesWithFormula(pages: seq<RawPage>): (items: seq<InvoiceItem>)
    ensures |items| == |ValidPages(pages)|
    ensures forall i :: 0 <= i < |items| ==> items[i] == ItemOfWithFormula(ValidPages(pages)[i])
  {
    if pages == [] then []
    else if IsItemPage(pages[0]) then [ItemOfWithFormula(pages[0].props)] + TransformItemPagesWithFormula(pages[1..])
    else TransformItemPagesWithFormula(pages[1..])
  }

  /** The corrected reading keeps the pages, the order, and every field but the subtotal. */
  lemma CorrectedItemsAgree(pages: seq<RawPage>)
    ensures |TransformItemPagesWithFormula(pages)| == |TransformItemPages(pages)| == CountItemPages(pages)
    ensures forall i :: 0 <= i < |TransformItemPages(pages)| ==>
      TransformItemPagesWithFormula(pages)[i] == TransformItemPages(pages)[i].(subtotal := TransformItemPagesWithFormula(pages)[i].subtotal)
  {
    ValidPagesCount(pages);
  }

  /** A formula subtotal reads as its value, and a number subtotal as before. */
  lemma FormulaSubtotalRead(props: Properties, n: int)
    ensures ItemOfWithFormula(props["금액" := FormulaProp(FormulaNumber(Some(n)))]).subtotal == n
    ensures ("금액" in props ==> !props["금액"].FormulaProp?) && ("금액" !in props ==> "Subtotal" !in props || !props["Subtotal"].FormulaProp?) ==>
      ItemOfWithFormula(props) == ItemOf(props)
  {
  }
}
