/**
 * Views of a public invoice: each visit appends a row to `invoice_views` and then bumps the
 * statistics columns of the matching `share_links` row (`view_count`, `first_viewed_at`,
 * `last_viewed_at`). The clock reading, the database-assigned view id and query failures
 * are inputs.
 */
module InvoiceViews {
  import opened Wrappers
  import opened Supabase
  import ShareLinks

  datatype InvoiceView = InvoiceView(id: string, shareId: string, viewedAt: string,
                                     viewerIp: Option<string>, userAgent: Option<string>)

  datatype ViewStats = ViewStats(viewCount: int, firstViewedAt: Option<string>, lastViewedAt: Option<string>)

  const CountColumn := "view_count"
  const FirstColumn := "first_viewed_at"
  const LastColumn := "last_viewed_at"

  /** `record[name] ? String(record[name]) : undefined`. */
  function OptionalString(v: Option<DbValue>): (r: Option<string>)
    ensures r.Some? <==> Truthy(v)
    ensures r.Some? ==> r.value == StringOf(v)
  {
    if Truthy(v) then Some(StringOf(v)) else None
  }

  /** `mapInvoiceView`. */
  function MapInvoiceView(rec: Record): (v: InvoiceView)
    ensures v.id == StringOf(Column(rec, "id"))
    ensures v.shareId == StringOf(Column(rec, ShareLinks.ShareIdColumn))
    ensures v.viewedAt == StringOf(Column(rec, "viewed_at"))
    ensures v.viewerIp == OptionalString(Column(rec, "viewer_ip"))
    ensures v.userAgent == OptionalString(Column(rec, "user_agent"))
  {
    InvoiceView(
      StringOf(Column(rec, "id")),
      StringOf(Column(rec, ShareLinks.ShareIdColumn)),
      StringOf(Column(rec, "viewed_at")),
      OptionalString(Column(rec, "viewer_ip")),
      OptionalString(Column(rec, "user_agent")))
  }

  /** `mapViewStats`: a count that is not a number reads as 0; falsy timestamps are absent. */
  function MapViewStats(rec: Record): (s: ViewStats)
    ensures s.viewCount == NumberOrZero(Column(rec, CountColumn))
    ensures s.firstViewedAt == OptionalString(Column(rec, FirstColumn))
    ensures s.lastViewedAt == OptionalString(Column(rec, LastColumn))
  {
    ViewStats(
      NumberOrZero(Column(rec, CountColumn)),
      OptionalString(Column(rec, FirstColumn)),
      OptionalString(Column(rec, LastColumn)))
  }

  /** An omitted optional argument is sent as `undefined` and stored as `null`. */
  function OptionalColumn(v: Option<string>): DbValue {
    if v.Some? then Text(v.value) else Null
  }

  /** The `invoice_views` row the insert creates. */
  function ViewRecord(id: string, shareId: string, viewedAt: string,
                      viewerIp: Option<string>, userAgent: Option<string>): Record {
    map["id" := Text(id), ShareLinks.ShareIdColumn := Text(shareId), "viewed_at" := Text(viewedAt),
        "viewer_ip" := OptionalColumn(viewerIp), "user_agent" := OptionalColumn(userAgent)]
  }

  /** An optional argument that is empty comes back absent. */
  function NonEmpty(v: Option<string>): Option<string> {
    if v.Some? && v.value != "" then v else None
  }

  /** The inserted row reads back as the visit that was recorded. */
  lemma ViewRecordRoundTrip(id: string, shareId: string, viewedAt: string,
                            viewerIp: Option<string>, userAgent: Option<string>)
    ensures MapInvoiceView(ViewRecord(id, shareId, viewedAt, viewerIp, userAgent)) ==
      InvoiceView(id, shareId, viewedAt, NonEmpty(viewerIp), NonEmpty(userAgent))
  {
    var rec := ViewRecord(id, shareId, viewedAt, viewerIp, userAgent);
    assert Column(rec, "viewer_ip") == Some(OptionalColumn(viewerIp));
    assert Column(rec, "user_agent") == Some(OptionalColumn(userAgent));
  }

  /** `(shareLink?.view_count || 0) + 1`; a string count is concatenated with `1`, as JavaScript does. */
  function NextCount(v: Option<DbValue>): DbValue {
    if !Truthy(v) then Integer(1)
    else if v.value.Integer? then Integer(v.value.n + 1)
    else Text(v.value.s + "1")
  }

  /** The `share_links` row after the statistics update made at time `now`. */
  function StatsAfterView(rec: Record, now: string): Record {
    var first := Column(rec, FirstColumn);
    rec[CountColumn := NextCount(Column(rec, CountColumn))]
       [FirstColumn := if Truthy(first) then first.value else Text(now)]
       [LastColumn := Text(now)]
  }

  /** `.update(...).eq('share_id', shareId)`: every matching row is updated, the others are kept. */
  function UpdateWhere(rows: seq<Record>, shareId: string, now: string): (r: seq<Record>)
    ensures |r| == |rows|
    ensures forall i :: 0 <= i < |rows| ==>
      r[i] == if Matches(rows[i], ShareLinks.ShareIdColumn, shareId) then StatsAfterView(rows[i], now) else rows[i]
  {
    if rows == [] then []
    else
      var head := if Matches(rows[0], ShareLinks.ShareIdColumn, shareId) then StatsAfterView(rows[0], now) else rows[0];
      [head] + UpdateWhere(rows[1..], shareId, now)
  }

  /**
   * The statistics rule: the count goes up by one (from 0 when absent), the first view time
   * is kept once set, the last view time is `now`, and no other column changes.
   */
  lemma StatsAfterViewSpec(rec: Record, now: string)
    requires now != ""
    requires !(Column(rec, CountColumn).Some? && Column(rec, CountColumn).value.Text?)
    ensures MapViewStats(StatsAfterView(rec, now)).viewCount == MapViewStats(rec).viewCount + 1
    ensures MapViewStats(StatsAfterView(rec, now)).firstViewedAt ==
      if MapViewStats(rec).firstViewedAt.Some? then MapViewStats(rec).firstViewedAt else Some(now)
    ensures MapViewStats(StatsAfterView(rec, now)).lastViewedAt == Some(now)
    ensures forall k :: k != CountColumn && k != FirstColumn && k != LastColumn ==>
      Column(StatsAfterView(rec, now), k) == Column(rec, k)
  {
    var after := StatsAfterView(rec, now);
    assert Column(after, CountColumn) == Some(NextCount(Column(rec, CountColumn)));
    assert Column(after, LastColumn) == Some(Text(now));
  }

  /** The update keeps `share_id`, so the rows it finds afterwards are the updated ones. */
  lemma {:induction false} WhereAfterUpdate(rows: seq<Record>, shareId: string, now: string)
    ensures |Where(UpdateWhere(rows, shareId, now), ShareLinks.ShareIdColumn, shareId)| ==
      |Where(rows, ShareLinks.ShareIdColumn, shareId)|
    ensures forall rec :: rec in Where(rows, ShareLinks.ShareIdColumn, shareId) ==>
      StatsAfterView(rec, now) in Where(UpdateWhere(rows, shareId, now), ShareLinks.ShareIdColumn, shareId)
  {
    if rows != [] {
      var updated := UpdateWhere(rows, shareId, now);
      assert updated[1..] == UpdateWhere(rows[1..], shareId, now);
      WhereAfterUpdate(rows[1..], shareId, now);
      var head := rows[0];
      if Matches(head, ShareLinks.ShareIdColumn, shareId) {
        assert Column(StatsAfterView(head, now), ShareLinks.ShareIdColumn) == Column(head, ShareLinks.ShareIdColumn);
      }
    }
  }

  /** `getShareLinkViewStats`: no statistics on `PGRST116`, an error on any other failure. */
  function GetShareLinkViewStats(rows: seq<Record>, shareId: string, fault: Option<DbError>): (r: Result<Option<ViewStats>, string>)
    ensures fault.Some? && fault.value.code == NotFoundCode ==> r == Ok(None)
    ensures fault.Some? && fault.value.code != NotFoundCode ==> r == Err("share_links 통계 조회 실패: " + fault.value.message)
    ensures fault.None? && |Where(rows, ShareLinks.ShareIdColumn, shareId)| != 1 ==> r == Ok(None)
    ensures fault.None? && |Where(rows, ShareLinks.ShareIdColumn, shareId)| == 1 ==>
      r == Ok(Some(MapViewStats(Where(rows, ShareLinks.ShareIdColumn, shareId)[0])))
  {
    match Single(rows, ShareLinks.ShareIdColumn, shareId, fault)
    case Err(e) => if e.code == NotFoundCode then Ok(None) else Err("share_links 통계 조회 실패: " + e.message)
    case Ok(rec) => Ok(Some(MapViewStats(rec)))
  }

  lemma OnlyElement<T>(s: seq<T>, x: T)
    requires |s| == 1 && x in s
    ensures s[0] == x
  {
  }

  /** After one recorded view of a link, its statistics read back one higher, with `now` as the last view. */
  lemma ViewIsCounted(rows: seq<Record>, shareId: string, now: string, rec: Record)
    requires now != ""
    requires Where(rows, ShareLinks.ShareIdColumn, shareId) == [rec]
    requires !(Column(rec, CountColumn).Some? && Column(rec, CountColumn).value.Text?)
    ensures GetShareLinkViewStats(UpdateWhere(rows, shareId, now), shareId, None) ==
      Ok(Some(ViewStats(MapViewStats(rec).viewCount + 1,
                        if MapViewStats(rec).firstViewedAt.Some? then MapViewStats(rec).firstViewedAt else Some(now),
                        Some(now))))
  {
    var updated := UpdateWhere(rows, shareId, now);
    WhereAfterUpdate(rows, shareId, now);
    assert rec in Where(rows, ShareLinks.ShareIdColumn, shareId);
    var found := Where(updated, ShareLinks.ShareIdColumn, shareId);
    OnlyElement(found, StatsAfterView(rec, now));
    StatsAfterViewSpec(rec, now);
  }

  /**
   * `getOrCreateInvoiceView(shareId, viewerIp, userAgent)`: a failed insert is an error and
   * changes nothing; otherwise the view is recorded and returned, and the statistics move
   * only when the statistics row is read (exactly one row) and the update succeeds.
   */
  method GetOrCreateInvoiceView(db: Database, shareId: string, viewerIp: Option<string>, userAgent: Option<string>,
                                viewId: string, now: string,
                                insertFault: Option<DbError>, selectFault: Option<DbError>, updateFault: Option<DbError>)
      returns (r: Result<InvoiceView, string>)
    modifies db
    ensures insertFault.Some? ==>
      r == Err("조회 기록 저장 실패: " + insertFault.value.message) &&
      db.invoiceViews == old(db.invoiceViews) && db.shareLinks == old(db.shareLinks)
    ensures insertFault.None? ==>
      var view := ViewRecord(viewId, shareId, now, viewerIp, userAgent);
      r == Ok(MapInvoiceView(view)) && db.invoiceViews == old(db.invoiceViews) + [view]
    ensures insertFault.None? ==>
      db.shareLinks ==
        if Single(old(db.shareLinks), ShareLinks.ShareIdColumn, shareId, selectFault).Ok? && updateFault.None?
        then UpdateWhere(old(db.shareLinks), shareId, now)
        else old(db.shareLinks)
  {
    if insertFault.Some? {
      return Err("조회 기록 저장 실패: " + insertFault.value.message);
    }
    var view := ViewRecord(viewId, shareId, now, viewerIp, userAgent);
    db.invoiceViews := db.invoiceViews + [view];
    var stats := Single(db.shareLinks, ShareLinks.ShareIdColumn, shareId, selectFault);
    if stats.Err? {
      return Ok(MapInvoiceView(view));
    }
    if updateFault.None? {
      db.shareLinks := UpdateWhere(db.shareLinks, shareId, now);
    }
    return Ok(MapInvoiceView(view));
  }
}
