/**
 * The view-status badge: "viewed" with the count once an invoice has been opened, "not
 * viewed" otherwise, with the matching colour classes and, for a viewed invoice with a
 * last-view time, a tooltip. The locale formatting of that time is an input; `None` stands
 * for the formatter throwing.
 */
module ViewStatusBadge {
  import opened Wrappers
  import Decimal

  datatype ViewStatus = Unviewed | Viewed

  datatype Badge = Badge(status: ViewStatus, caption: string, classes: string, ariaLabel: string, tooltip: string)

  const UnviewedClasses :=
    "bg-gray-100 text-gray-600 border-gray-300 dark:bg-gray-800 dark:text-gray-400 dark:border-gray-700"
  const ViewedClasses :=
    "bg-green-50 text-green-700 border-green-300 dark:bg-green-950 dark:text-green-300 dark:border-green-800"

  const ViewedPrefix := "조회됨 "
  const ViewedSuffix := "회"
  const UnviewedLabel := "미조회"
  const TooltipPrefix := "최근 조회: "
  const TooltipUnknown := "최근 조회: 알 수 없음"
  const AriaPrefix := "조회 상태: "

  /** `VIEW_STATUS_EXTRA_CLASSES[status]`. */
  function ExtraClasses(status: ViewStatus): string {
    match status
    case Unviewed => UnviewedClasses
    case Viewed => ViewedClasses
  }

  function Label(viewCount: int): (caption: string)
    ensures viewCount > 0 ==> caption == ViewedPrefix + Decimal.IntToString(viewCount) + ViewedSuffix
    ensures viewCount <= 0 ==> caption == UnviewedLabel
  {
    if viewCount > 0 then ViewedPrefix + Decimal.IntToString(viewCount) + ViewedSuffix else UnviewedLabel
  }

  /** The count a viewed caption shows, read back from the caption. */
  function CountOfLabel(caption: string): Option<int> {
    if |caption| >= |ViewedPrefix| + |ViewedSuffix| &&
       caption[..|ViewedPrefix|] == ViewedPrefix && caption[|caption| - |ViewedSuffix|..] == ViewedSuffix
    then Decimal.ParseInt(caption[|ViewedPrefix|..|caption| - |ViewedSuffix|])
    else None
  }

  /** A viewed caption shows the count itself; the unviewed caption shows none. */
  lemma LabelShowsCount(viewCount: int)
    ensures viewCount > 0 ==> CountOfLabel(Label(viewCount)) == Some(viewCount)
    ensures viewCount <= 0 ==> CountOfLabel(Label(viewCount)) == None
  {
    var caption := Label(viewCount);
    if viewCount > 0 {
      var digits := Decimal.IntToString(viewCount);
      assert caption[..|ViewedPrefix|] == ViewedPrefix;
      assert caption[|caption| - |ViewedSuffix|..] == ViewedSuffix;
      assert caption[|ViewedPrefix|..|caption| - |ViewedSuffix|] == digits;
      Decimal.ParseIntToString(viewCount);
    } else {
      assert |UnviewedLabel| == 3 && |ViewedPrefix| == 4;
    }
  }

  /** The tooltip: only for a viewed invoice with a truthy last-view time. */
  function Tooltip(isViewed: bool, lastViewedAt: Option<string>, localeString: string -> Option<string>): (t: string)
    ensures t != "" <==> isViewed && lastViewedAt.Some? && lastViewedAt.value != ""
    ensures t != "" ==> t == TooltipPrefix + localeString(lastViewedAt.value).GetOr("알 수 없음")
  {
    if isViewed && lastViewedAt.Some? && lastViewedAt.value != "" then
      match localeString(lastViewedAt.value)
      case Some(text) => TooltipPrefix + text
      case None => TooltipUnknown
    else ""
  }

  /** `InvoiceViewStatusBadge({ viewCount, lastViewedAt })`. */
  function Render(viewCount: int, lastViewedAt: Option<string>, localeString: string -> Option<string>): (b: Badge)
    ensures b.status == Viewed <==> viewCount > 0
    ensures b.caption == Label(viewCount)
    ensures b.classes == ExtraClasses(b.status)
    ensures b.ariaLabel == AriaPrefix + b.caption
    ensures b.tooltip == Tooltip(viewCount > 0, lastViewedAt, localeString)
  {
    var isViewed := viewCount > 0;
    var status := if isViewed then Viewed else Unviewed;
    var caption := Label(viewCount);
    Badge(status, caption, ExtraClasses(status), AriaPrefix + caption, Tooltip(isViewed, lastViewedAt, localeString))
  }

  /** The colour classes tell the two states apart. */
  lemma ClassesDistinguishStatus(s: ViewStatus, t: ViewStatus)
    ensures ExtraClasses(s) == ExtraClasses(t) <==> s == t
  {
    assert |UnviewedClasses| == 98 && |ViewedClasses| == 103;
  }
}
