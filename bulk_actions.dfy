/**
 * The dashboard's bulk copy: one share link per selected invoice, each written in the chosen
 * format, joined by newlines and put on the clipboard; on success the selection is cleared.
 * The share-link responses and the clipboard's outcome are inputs; the clipboard, the
 * toasts and the `onClear` calls are recorded in the state.
 */
module BulkActions {
  import opened Wrappers
  import opened Text
  import Decimal
  import Invoices

  datatype CopyFormat = UrlFormat | MarkdownFormat | TextFormat

  /** `formatCopyText(shareUrl, format, clientName)`. */
  function FormatCopyText(shareUrl: string, format: CopyFormat, clientName: string): (line: string)
    ensures format == UrlFormat ==> line == shareUrl
    ensures format == MarkdownFormat ==>
      (StartsWith(line, "[견적서_" + clientName + "](") && line[|"[견적서_" + clientName + "]("|..] == shareUrl + ")")
    ensures format == TextFormat ==>
      (StartsWith(line, clientName + ": ") && line[|clientName + ": "|..] == shareUrl)
  {
    match format
    case UrlFormat => shareUrl
    case MarkdownFormat => "[견적서_" + clientName + "](" + shareUrl + ")"
    case TextFormat => clientName + ": " + shareUrl
  }

  /** The name each format goes by in the success message. */
  function FormatLabel(format: CopyFormat): string {
    match format
    case UrlFormat => "URL"
    case MarkdownFormat => "마크다운"
    case TextFormat => "텍스트"
  }

  /** What `fetch('/api/share-links', ...)` gave for one invoice. */
  datatype LinkResponse =
    | NotOk                                              // `!response.ok`, or the request itself failed
    | Payload(success: bool, shareUrl: Option<string>)   // the parsed JSON body

  datatype Link = Link(shareUrl: string, clientName: string)

  predicate Usable(r: LinkResponse) {
    r.Payload? && r.success && r.shareUrl.Some? && r.shareUrl.value != ""
  }

  /** `Promise.all(linkPromises)`: every link, in selection order, or nothing when one request fails. */
  function CollectLinks(selected: seq<Invoices.InvoiceSummary>, responses: seq<LinkResponse>): (r: Option<seq<Link>>)
    requires |responses| == |selected|
    ensures r.Some? <==> forall i :: 0 <= i < |responses| ==> Usable(responses[i])
    ensures r.Some? ==> |r.value| == |selected|
    ensures r.Some? ==>
      forall i :: 0 <= i < |selected| ==> r.value[i] == Link(responses[i].shareUrl.value, selected[i].clientName)
  {
    if selected == [] then Some([])
    else if !Usable(responses[0]) then None
    else
      match CollectLinks(selected[1..], responses[1..])
      case None => None
      case Some(rest) =>
        assert forall i :: 1 <= i < |responses| ==> Usable(responses[i]) by {
          forall i | 1 <= i < |responses| ensures Usable(responses[i]) {
            assert responses[1..][i - 1] == responses[i];
          }
        }
        Some([Link(responses[0].shareUrl.value, selected[0].clientName)] + rest)
  }

  /** One formatted line per link. */
  function FormatLines(links: seq<Link>, format: CopyFormat): (lines: seq<string>)
    ensures |lines| == |links|
    ensures forall i :: 0 <= i < |links| ==> lines[i] == FormatCopyText(links[i].shareUrl, format, links[i].clientName)
  {
    if links == [] then []
    else [FormatCopyText(links[0].shareUrl, format, links[0].clientName)] + FormatLines(links[1..], format)
  }

  /** The clipboard text: the formatted lines joined by `\n`. */
  function CopyText(links: seq<Link>, format: CopyFormat): string {
    Join(FormatLines(links, format), "\n")
  }

  /** Splitting the clipboard text at newlines gives back one formatted line per link, in order. */
  lemma CopyTextSplits(links: seq<Link>, format: CopyFormat)
    requires |links| >= 1
    requires forall i :: 0 <= i < |links| ==> '\n' !in links[i].shareUrl && '\n' !in links[i].clientName
    ensures Split(CopyText(links, format), '\n') == FormatLines(links, format)
  {
    var lines := FormatLines(links, format);
    forall i | 0 <= i < |lines| ensures '\n' !in lines[i] {
      var l := links[i];
      match format
      case UrlFormat =>
      case MarkdownFormat =>
        assert lines[i] == "[견적서_" + l.clientName + "](" + l.shareUrl + ")";
      case TextFormat =>
        assert lines[i] == l.clientName + ": " + l.shareUrl;
    }
    SplitJoin(lines, '\n');
  }

  /** With the URL format, the clipboard lines are exactly the share URLs. */
  lemma UrlFormatCopiesUrls(links: seq<Link>)
    requires |links| >= 1
    requires forall i :: 0 <= i < |links| ==> '\n' !in links[i].shareUrl && '\n' !in links[i].clientName
    ensures Split(CopyText(links, UrlFormat), '\n') == seq(|links|, i requires 0 <= i < |links| => links[i].shareUrl)
  {
    CopyTextSplits(links, UrlFormat);
  }

  datatype Toast = SuccessToast(message: string) | ErrorToast(message: string)

  const FailureMessage := "일괄 복사 실패"

  function SuccessMessage(count: nat, format: CopyFormat): string {
    Decimal.NatToString(count) + "개 항목이 " + FormatLabel(format) + "로 복사되었습니다"
  }

  /** The component's state, with the effects it causes recorded in order. */
  class BulkCopy {
    var isLoading: bool
    var clipboard: seq<string>    // every text written to the clipboard
    var toasts: seq<Toast>
    var clearCalls: nat           // how many times `onClear` was called

    constructor ()
      ensures !isLoading && clipboard == [] && toasts == [] && clearCalls == 0
    {
      isLoading := false;
      clipboard := [];
      toasts := [];
      clearCalls := 0;
    }

    /**
     * `handleBulkCopy(format = 'url')`: on success the text is written once, a success toast
     * names the count and format, and the selection is cleared once; on any failure only the
     * error toast is added. Loading is over either way.
     */
    method HandleBulkCopy(selected: seq<Invoices.InvoiceSummary>, format: Option<CopyFormat>,
                          responses: seq<LinkResponse>, clipboardWrites: bool)
      requires |responses| == |selected|
      modifies this
      ensures !isLoading
      ensures var fmt := format.GetOr(UrlFormat);
        var links := CollectLinks(selected, responses);
        if links.Some? && clipboardWrites then
          clipboard == old(clipboard) + [CopyText(links.value, fmt)] &&
          toasts == old(toasts) + [SuccessToast(SuccessMessage(|selected|, fmt))] &&
          clearCalls == old(clearCalls) + 1
        else
          clipboard == old(clipboard) && toasts == old(toasts) + [ErrorToast(FailureMessage)] &&
          clearCalls == old(clearCalls)
    {
      isLoading := true;
      var fmt := format.GetOr(UrlFormat);
      var links := CollectLinks(selected, responses);
      if links.Some? && clipboardWrites {
        clipboard := clipboard + [CopyText(links.value, fmt)];
        toasts := toasts + [SuccessToast(SuccessMessage(|selected|, fmt))];
        clearCalls := clearCalls + 1;
      } else {
        toasts := toasts + [ErrorToast(FailureMessage)];
      }
      isLoading := false;
    }
  }
}
