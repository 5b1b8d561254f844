/**
 * Share links: one public share id per Notion page, looked up before one is created, and
 * found again by share id when the public invoice page is opened. The generated id
 * (`nanoid(12)`), the database-assigned row id and creation time, and query failures are
 * inputs.
 */
module ShareLinks {
  import opened Wrappers
  import opened Supabase

  datatype ShareLink = ShareLink(id: string, notionPageId: string, shareId: string, createdAt: string)

  const PageColumn := "notion_page_id"
  const ShareIdColumn := "share_id"

  /** `mapShareLink`: each camelCase field is the `String(...)` of its snake_case column. */
  function MapShareLink(rec: Record): (link: ShareLink)
    ensures link.id == StringOf(Column(rec, "id"))
    ensures link.notionPageId == StringOf(Column(rec, PageColumn))
    ensures link.shareId == StringOf(Column(rec, ShareIdColumn))
    ensures link.createdAt == StringOf(Column(rec, "created_at"))
  {
    ShareLink(
      StringOf(Column(rec, "id")),
      StringOf(Column(rec, PageColumn)),
      StringOf(Column(rec, ShareIdColumn)),
      StringOf(Column(rec, "created_at")))
  }

  /** The row a share link is stored as. */
  function RecordOf(link: ShareLink): Record {
    map["id" := Text(link.id), PageColumn := Text(link.notionPageId),
        ShareIdColumn := Text(link.shareId), "created_at" := Text(link.createdAt)]
  }

  /** The mapping is one-to-one: a stored link reads back as itself. */
  lemma MapShareLinkInverse(link: ShareLink)
    ensures MapShareLink(RecordOf(link)) == link
    ensures forall other: ShareLink :: MapShareLink(RecordOf(other)) == MapShareLink(RecordOf(link)) ==> other == link
  {
  }

  /** The characters `nanoid` draws from. */
  predicate IsNanoIdChar(c: char) {
    'A' <= c <= 'Z' || 'a' <= c <= 'z' || '0' <= c <= '9' || c == '_' || c == '-'
  }

  predicate IsNanoId(s: string) { |s| == 12 && forall i :: 0 <= i < |s| ==> IsNanoIdChar(s[i]) }

  /** Sequential calls keep at most one link per page. */
  ghost predicate OneLinkPerPage(rows: seq<Record>) {
    forall page :: |Where(rows, PageColumn, page)| <= 1
  }

  /** `getShareLinkByShareId`: no link on `PGRST116`, an error on any other failure. */
  function GetShareLinkByShareId(rows: seq<Record>, shareId: string, fault: Option<DbError>): (r: Result<Option<ShareLink>, string>)
    ensures fault.Some? && fault.value.code == NotFoundCode ==> r == Ok(None)
    ensures fault.Some? && fault.value.code != NotFoundCode ==> r == Err("ShareLink 조회 실패: " + fault.value.message)
    ensures fault.None? ==> r.Ok?
    ensures fault.None? && |Where(rows, ShareIdColumn, shareId)| != 1 ==> r == Ok(None)
    ensures fault.None? && |Where(rows, ShareIdColumn, shareId)| == 1 ==>
      r == Ok(Some(MapShareLink(Where(rows, ShareIdColumn, shareId)[0])))
  {
    match Single(rows, ShareIdColumn, shareId, fault)
    case Err(e) => if e.code == NotFoundCode then Ok(None) else Err("ShareLink 조회 실패: " + e.message)
    case Ok(rec) => Ok(Some(MapShareLink(rec)))
  }

  /**
   * `getOrCreateShareLink(notionPageId)`: the page's existing link when exactly one row
   * holds the page, otherwise a new row with `freshShareId`. A lookup failure other than
   * `PGRST116` and any insert failure are errors and leave the table as it was.
   */
  method GetOrCreateShareLink(db: Database, notionPageId: string, freshShareId: string,
                              rowId: string, createdAt: string,
                              selectFault: Option<DbError>, insertFault: Option<DbError>)
      returns (r: Result<ShareLink, string>)
    requires IsNanoId(freshShareId)
    modifies db
    ensures db.invoiceViews == old(db.invoiceViews)
    ensures selectFault.Some? && selectFault.value.code != NotFoundCode ==>
      r == Err("ShareLink 조회 실패: " + selectFault.value.message) && db.shareLinks == old(db.shareLinks)
    ensures var found := Single(old(db.shareLinks), PageColumn, notionPageId, selectFault);
      found.Ok? ==> r == Ok(MapShareLink(found.value)) && db.shareLinks == old(db.shareLinks)
    ensures var found := Single(old(db.shareLinks), PageColumn, notionPageId, selectFault);
      var created := RecordOf(ShareLink(rowId, notionPageId, freshShareId, createdAt));
      found.Err? && found.error.code == NotFoundCode ==>
        if insertFault.Some? then
          r == Err("ShareLink 생성 실패: " + insertFault.value.message) && db.shareLinks == old(db.shareLinks)
        else
          r == Ok(ShareLink(rowId, notionPageId, freshShareId, createdAt)) &&
          db.shareLinks == old(db.shareLinks) + [created]
    ensures |old(db.shareLinks)| <= |db.shareLinks| <= |old(db.shareLinks)| + 1
  {
    var found := Single(db.shareLinks, PageColumn, notionPageId, selectFault);
    if found.Err? && found.error.code != NotFoundCode {
      return Err("ShareLink 조회 실패: " + found.error.message);
    }
    if found.Ok? {
      return Ok(MapShareLink(found.value));
    }
    if insertFault.Some? {
      return Err("ShareLink 생성 실패: " + insertFault.value.message);
    }
    var link := ShareLink(rowId, notionPageId, freshShareId, createdAt);
    db.shareLinks := db.shareLinks + [RecordOf(link)];
    MapShareLinkInverse(link);
    return Ok(MapShareLink(RecordOf(link)));
  }

  /** After a successful call, a fault-free lookup by page finds the returned link again. */
  lemma CreatedLinkIsFoundByPage(rows: seq<Record>, link: ShareLink)
    requires Where(rows, PageColumn, link.notionPageId) == []
    ensures Single(rows + [RecordOf(link)], PageColumn, link.notionPageId, None) == Ok(RecordOf(link))
    ensures MapShareLink(RecordOf(link)) == link
  {
    SingleFindsFreshRecord(rows, RecordOf(link), PageColumn, link.notionPageId);
  }

  /** A link created under an unused share id is what the public page finds for that id. */
  lemma CreatedLinkIsFoundByShareId(rows: seq<Record>, link: ShareLink)
    requires Where(rows, ShareIdColumn, link.shareId) == []
    ensures GetShareLinkByShareId(rows + [RecordOf(link)], link.shareId, None) == Ok(Some(link))
  {
    SingleFindsFreshRecord(rows, RecordOf(link), ShareIdColumn, link.shareId);
  }

  /** Creating a link for one page keeps every page at one link at most. */
  lemma {:induction false} CreatePreservesOneLinkPerPage(rows: seq<Record>, link: ShareLink)
    requires OneLinkPerPage(rows)
    requires Where(rows, PageColumn, link.notionPageId) == []
    ensures OneLinkPerPage(rows + [RecordOf(link)])
  {
    forall page
      ensures |Where(rows + [RecordOf(link)], PageColumn, page)| <= 1
    {
      WhereAppend(rows, RecordOf(link), PageColumn, page);
    }
  }

  /**
   * Asking twice for the same page, with no failures, gives the same share id and creates at
   * most one row, provided the table held at most one link for that page.
   */
  method RepeatedRequestReusesLink(db: Database, notionPageId: string, firstId: string, secondId: string,
                                   rowId: string, createdAt: string)
      returns (first: Result<ShareLink, string>, second: Result<ShareLink, string>)
    requires IsNanoId(firstId) && IsNanoId(secondId)
    requires |Where(db.shareLinks, PageColumn, notionPageId)| <= 1
    modifies db
    ensures first.Ok? && second.Ok? && first.value == second.value
    ensures |db.shareLinks| <= |old(db.shareLinks)| + 1
  {
    var rows := db.shareLinks;
    first := GetOrCreateShareLink(db, notionPageId, firstId, rowId, createdAt, None, None);
    if |Where(rows, PageColumn, notionPageId)| == 0 {
      CreatedLinkIsFoundByPage(rows, ShareLink(rowId, notionPageId, firstId, createdAt));
    }
    second := GetOrCreateShareLink(db, notionPageId, secondId, rowId, createdAt, None, None);
  }
}
