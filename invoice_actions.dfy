/**
 * The invoice action buttons: which are rendered, whether each is disabled, and the
 * accessible label and text each shows, derived from the component's flags.
 */
module InvoiceActions {
  import opened Wrappers

  /** The props, each optional one as given (`None` when omitted). */
  datatype Props = Props(
    shareId: Option<string>,
    showPdfButton: Option<bool>,
    showShareButton: Option<bool>,
    pdfFileName: Option<string>,
    isLoading: Option<bool>,
    isShared: Option<bool>,
    isGeneratingShareLink: Option<bool>)

  datatype Button = Button(disabled: bool, ariaLabel: string, text: string)

  datatype Actions = Actions(pdf: Option<Button>, share: Option<Button>)

  const DefaultPdfFileName := "견적서.pdf"

  const PdfLoadingLabel := "PDF 생성 중"
  const PdfLoadingText := "PDF 생성 중..."
  const PdfText := "PDF 다운로드"
  const ShareGeneratingLabel := "공유 링크 생성 중"
  const ShareMissingLabel := "공유 링크를 먼저 생성해주세요"
  const ShareCopiedLabel := "링크가 클립보드에 복사되었습니다"
  const ShareLabel := "공유 링크를 클립보드에 복사"
  const ShareGeneratingText := "링크 생성 중..."
  const ShareCopiedText := "복사됨!"
  const ShareText := "링크 복사"

  /** `!shareId && !isGeneratingShareLink`. */
  predicate IsShareDisabled(shareId: Option<string>, generating: bool) {
    (shareId.None? || shareId.value == "") && !generating
  }

  function PdfButton(isLoading: bool, pdfFileName: string): (b: Button)
    ensures b.disabled <==> isLoading
    ensures !isLoading ==> b.ariaLabel == pdfFileName + " 다운로드" && b.text == PdfText
    ensures isLoading ==> b.ariaLabel == PdfLoadingLabel && b.text == PdfLoadingText
  {
    Button(isLoading,
           if isLoading then PdfLoadingLabel else pdfFileName + " 다운로드",
           if isLoading then PdfLoadingText else PdfText)
  }

  /**
   * The share button: disabled exactly when there is no share id or a link is being made;
   * its label goes by generating, then no share id, then copied, then the default.
   */
  function ShareButton(shareId: Option<string>, isShared: bool, generating: bool): (b: Button)
    ensures b.disabled <==> shareId.None? || shareId.value == "" || generating
    ensures generating ==> b.ariaLabel == ShareGeneratingLabel
    ensures !generating && (shareId.None? || shareId.value == "") ==> b.ariaLabel == ShareMissingLabel
    ensures !generating && shareId.Some? && shareId.value != "" && isShared ==> b.ariaLabel == ShareCopiedLabel
    ensures !generating && shareId.Some? && shareId.value != "" && !isShared ==> b.ariaLabel == ShareLabel
    ensures b.text == if generating then ShareGeneratingText else if isShared then ShareCopiedText else ShareText
  {
    var disabled := IsShareDisabled(shareId, generating);
    Button(
      disabled || generating,
      if generating then ShareGeneratingLabel
      else if disabled then ShareMissingLabel
      else if isShared then ShareCopiedLabel
      else ShareLabel,
      if generating then ShareGeneratingText else if isShared then ShareCopiedText else ShareText)
  }

  /** `InvoiceActions(props)`: the defaults are `true`, `true`, `견적서.pdf` and `false` for the flags. */
  function Render(p: Props): (a: Actions)
    ensures a.pdf.Some? <==> p.showPdfButton != Some(false)
    ensures a.share.Some? <==> p.showShareButton != Some(false)
    ensures a.pdf.Some? ==> a.pdf.value == PdfButton(p.isLoading == Some(true), p.pdfFileName.GetOr(DefaultPdfFileName))
    ensures a.share.Some? ==>
      a.share.value == ShareButton(p.shareId, p.isShared == Some(true), p.isGeneratingShareLink == Some(true))
  {
    var isLoading := p.isLoading.GetOr(false);
    var generating := p.isGeneratingShareLink.GetOr(false);
    Actions(
      if p.showPdfButton.GetOr(true) then Some(PdfButton(isLoading, p.pdfFileName.GetOr(DefaultPdfFileName))) else None,
      if p.showShareButton.GetOr(true) then Some(ShareButton(p.shareId, p.isShared.GetOr(false), generating)) else None)
  }

  /** The labels are distinct, so the label alone tells which state the share button is in. */
  lemma ShareLabelsIdentifyState(s1: Option<string>, c1: bool, g1: bool, s2: Option<string>, c2: bool, g2: bool)
    requires ShareButton(s1, c1, g1).ariaLabel == ShareButton(s2, c2, g2).ariaLabel
    ensures g1 == g2
    ensures !g1 ==> IsShareDisabled(s1, g1) == IsShareDisabled(s2, g2)
    ensures !g1 && !IsShareDisabled(s1, g1) ==> c1 == c2
  {
    assert |ShareGeneratingLabel| == 10 && |ShareMissingLabel| == 16;
    assert |ShareCopiedLabel| == 17 && |ShareLabel| == 15;
  }
}
