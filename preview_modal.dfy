/**
 * `PreviewModal`: the on-screen, scaled-down copy of the report, with the page count, the
 * filename field and the confirm button that starts the export.
 */
module PreviewModal {
  import opened Results
  import opened Types
  import opened Text
  import PdfPage
  import PdfPreview

  /** What the open modal shows, leaving out the floating-point scale. */
  datatype ModalView = ModalView(
    pageCount: nat, summary: string,
    pageWidth: nat, pageHeight: nat,
    pages: seq<PdfPage.PageView>)

  /** The orientation's name in the summary line. */
  function ModeName(mode: LayoutMode): string
  {
    if mode == Portrait then "直式" else "橫式"
  }

  /** The summary line "共 N 頁 (直式|橫式)". */
  function Summary(pageCount: nat, mode: LayoutMode): string
  {
    "共 " + Decimal(pageCount) + " 頁 (" + ModeName(mode) + ")"
  }

  /** The modal's body: nothing when closed; otherwise the page count, the unscaled page size of
      the orientation and the same pages, drawn the same way, as the export container. */
  method Render(isOpen: bool, photos: seq<Photo>, mode: LayoutMode) returns (view: Option<ModalView>)
    ensures view.None? <==> !isOpen
    ensures view.Some? ==>
      && view.value.pageCount == |view.value.pages| == PdfPreview.PageCount(|photos|)
      && view.value.summary == Summary(view.value.pageCount, mode)
      && (view.value.pageWidth, view.value.pageHeight) == PdfPage.PageSize(mode)
      && view.value.pages == PdfPreview.PageViews(photos, mode)
  {
    var pages := PdfPreview.Paginate(photos);
    if !isOpen {
      return None;
    }
    var pageWidth := if mode == Portrait then PdfPage.A4_SHORT_PX else PdfPage.A4_LONG_PX;
    var pageHeight := if mode == Portrait then PdfPage.A4_LONG_PX else PdfPage.A4_SHORT_PX;
    var views := seq(|pages|, k requires 0 <= k < |pages| => PdfPage.Render(pages[k], k, |pages|, mode));
    view := Some(ModalView(|pages|, Summary(|pages|, mode), pageWidth, pageHeight, views));
  }

  /** The modal's own state: the filename being typed. */
  class Modal {
    var filename: string

    constructor ()
      ensures filename == ""
    {
      filename := "";
    }

    /** The effect that runs when `isOpen` changes: opening the modal clears the filename. */
    method OnOpenChanged(isOpen: bool)
      modifies this
      ensures filename == (if isOpen then "" else old(filename))
    {
      if isOpen {
        filename := "";
      }
    }

    /** Typing in the filename field. The field is disabled while a PDF is being generated, so
        typing then changes nothing. */
    method EditFilename(text: string, isGenerating: bool)
      modifies this
      ensures isGenerating ==> filename == old(filename)
      ensures !isGenerating ==> filename == text
    {
      if !isGenerating {
        filename := text;
      }
    }

    /** The confirm button: disabled while a PDF is being generated; otherwise it hands the
        filename text to the export as typed, without trimming or completing it. */
    method Confirm(isGenerating: bool) returns (confirmed: Option<string>)
      ensures confirmed.Some? <==> !isGenerating
      ensures confirmed.Some? ==> confirmed.value == filename
    {
      if isGenerating {
        confirmed := None;
      } else {
        confirmed := Some(filename);
      }
    }
  }
}
