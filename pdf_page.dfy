/**
 * `PdfPage`: one A4 report page at 96 dpi. It fixes the page size by orientation, the header band
 * with its "page X of Y" label, and one grid cell per photo with the photo's category as caption.
 */
module PdfPage {
  import opened Types
  import opened Text

  /** 210 mm and 297 mm at 96 dpi, rounded. */
  const A4_SHORT_PX: nat := 794
  const A4_LONG_PX: nat := 1123

  const PAGE_PADDING: nat := 40
  const HEADER_HEIGHT: nat := 60

  const REPORT_TITLE := "家訪照片紀錄"
  const UNCATEGORISED_LABEL := "未分類"

  /** A width-to-height ratio, as in the `aspect-[w/h]` style. */
  datatype Aspect = Aspect(w: nat, h: nat)

  /** Where the header band sits: across the top (portrait) or down the left side (landscape). */
  datatype HeaderPlacement = Top | LeftSide

  /** One grid cell: the photo's key and image, its alt text, its caption and its shape. */
  datatype Cell = Cell(key: string, imageSrc: string, alt: string, caption: string, aspect: Aspect)

  /** One rendered page, as far as its layout is concerned. */
  datatype PageView = PageView(
    width: nat, height: nat,
    contentWidth: int, contentHeight: int,
    header: HeaderPlacement, title: string, pageLabel: string,
    cells: seq<Cell>)

  /** The page size in pixels: A4 standing up for portrait, lying down for landscape. */
  function PageSize(mode: LayoutMode): (r: (nat, nat))
    ensures mode == Portrait ==> r.0 < r.1
    ensures mode == Landscape ==> r.0 > r.1
    ensures {r.0, r.1} == {A4_SHORT_PX, A4_LONG_PX}
  {
    var isPortrait := mode == Portrait;
    (if isPortrait then A4_SHORT_PX else A4_LONG_PX, if isPortrait then A4_LONG_PX else A4_SHORT_PX)
  }

  /** The landscape page is the portrait page turned on its side. */
  lemma LandscapeIsTurnedPortrait()
    ensures PageSize(Landscape) == (PageSize(Portrait).1, PageSize(Portrait).0)
  {
  }

  /** The content area: the page less its padding on every side, and less the header height. */
  function ContentArea(mode: LayoutMode): (r: (int, int))
    ensures PageSize(mode).0 - r.0 == 2 * PAGE_PADDING
    ensures PageSize(mode).1 - r.1 == 2 * PAGE_PADDING + HEADER_HEIGHT
    ensures 0 < r.0 && 0 < r.1
  {
    var (width, height) := PageSize(mode);
    (width - PAGE_PADDING * 2, height - PAGE_PADDING * 2 - HEADER_HEIGHT)
  }

  const LABEL_HEAD := "第 "
  const LABEL_MIDDLE := " 頁，共 "
  const LABEL_TAIL := " 頁"

  /** The header text "第 X 頁，共 Y 頁" for the page at 0-based `pageIndex`. */
  function PageLabel(pageIndex: nat, totalPages: nat): string
  {
    LABEL_HEAD + (Decimal(pageIndex + 1) + (LABEL_MIDDLE + (Decimal(totalPages) + LABEL_TAIL)))
  }

  lemma CommonPrefix(p: string, x: string, y: string)
    requires p + x == p + y
    ensures x == y
  {
    assert x == (p + x)[|p|..];
    assert y == (p + y)[|p|..];
  }

  /** The label names its page: two labels are equal only for the same page of the same total,
      so it shows the 1-based page number and the page count and nothing that could be confused. */
  lemma PageLabelInjective(i: nat, t: nat, j: nat, u: nat)
    requires PageLabel(i, t) == PageLabel(j, u)
    ensures i == j && t == u
  {
    var x := LABEL_MIDDLE + (Decimal(t) + LABEL_TAIL);
    var y := LABEL_MIDDLE + (Decimal(u) + LABEL_TAIL);
    CommonPrefix(LABEL_HEAD, Decimal(i + 1) + x, Decimal(j + 1) + y);
    DigitRunSplit(Decimal(i + 1), x, Decimal(j + 1), y);
    DecimalInjective(i + 1, j + 1);
    CommonPrefix(LABEL_MIDDLE, Decimal(t) + LABEL_TAIL, Decimal(u) + LABEL_TAIL);
    DigitRunSplit(Decimal(t), LABEL_TAIL, Decimal(u), LABEL_TAIL);
    DecimalInjective(t, u);
  }

  /** The caption: the category, or "未分類" when it is empty, so a caption is never empty. */
  function CategoryLabel(category: string): (r: string)
    ensures r != []
    ensures category != [] ==> r == category
    ensures category == [] ==> r == UNCATEGORISED_LABEL
  {
    if category != [] then category else UNCATEGORISED_LABEL
  }

  /** Cell shape: 3:4 (taller than wide) in portrait, 4:3 (wider than tall) in landscape, so a
      cell has the orientation of its page. */
  function CellAspect(mode: LayoutMode): (r: Aspect)
    ensures r == Aspect(3, 4) || r == Aspect(4, 3)
    ensures (r.h > r.w) <==> (PageSize(mode).1 > PageSize(mode).0)
  {
    if mode == Portrait then Aspect(3, 4) else Aspect(4, 3)
  }

  function CellFor(photo: Photo, mode: LayoutMode): Cell
  {
    Cell(photo.id, photo.previewUrl, photo.category, CategoryLabel(photo.category), CellAspect(mode))
  }

  /** `photos.map(...)`: exactly one cell per photo, in the photos' order; there are no
      placeholder cells for the empty slots of a short page. */
  function Cells(photos: seq<Photo>, mode: LayoutMode): (r: seq<Cell>)
    ensures |r| == |photos|
    ensures forall k :: 0 <= k < |r| ==>
      r[k].key == photos[k].id && r[k].imageSrc == photos[k].previewUrl &&
      r[k].caption == CategoryLabel(photos[k].category) && r[k].aspect == CellAspect(mode)
  {
    seq(|photos|, k requires 0 <= k < |photos| => CellFor(photos[k], mode))
  }

  /** Cells of consecutive runs of photos are the consecutive runs of cells. */
  lemma CellsAppend(a: seq<Photo>, b: seq<Photo>, mode: LayoutMode)
    ensures Cells(a + b, mode) == Cells(a, mode) + Cells(b, mode)
  {
    var l, r := Cells(a + b, mode), Cells(a, mode) + Cells(b, mode);
    forall k | 0 <= k < |l| ensures l[k] == r[k] {
      if k < |a| { assert (a + b)[k] == a[k]; } else { assert (a + b)[k] == b[k - |a|]; }
    }
  }

  /** The whole page: its size, content area, header placement, title, label and cells. */
  function Render(photos: seq<Photo>, pageIndex: nat, totalPages: nat, mode: LayoutMode): (r: PageView)
    ensures (r.width, r.height) == PageSize(mode)
    ensures (r.contentWidth, r.contentHeight) == ContentArea(mode)
    ensures r.header == (if mode == Portrait then Top else LeftSide)
    ensures r.title == REPORT_TITLE && r.pageLabel == PageLabel(pageIndex, totalPages)
    ensures r.cells == Cells(photos, mode)
  {
    var (width, height) := PageSize(mode);
    var (contentWidth, contentHeight) := ContentArea(mode);
    PageView(width, height, contentWidth, contentHeight,
             if mode == Portrait then Top else LeftSide,
             REPORT_TITLE, PageLabel(pageIndex, totalPages), Cells(photos, mode))
  }
}
