/**
 * `PdfPreview`: the off-screen, full-size copy of the report that the PDF export reads. Its loop
 * cuts the photo list into pages of `PHOTOS_PER_PAGE`; each page is drawn by `PdfPage`.
 */
module PdfPreview {
  import opened Types
  import PdfPage

  function Min(a: int, b: int): int
  {
    if a <= b then a else b
  }

  /** ceil(n / PHOTOS_PER_PAGE): the number of pages `n` photos fill. */
  function PageCount(n: nat): (r: nat)
    ensures r * PHOTOS_PER_PAGE >= n
    ensures n > 0 ==> (r - 1) * PHOTOS_PER_PAGE < n
    ensures r == 0 <==> n == 0
  {
    (n + PHOTOS_PER_PAGE - 1) / PHOTOS_PER_PAGE
  }

  /** The photos of page `k`: indices from k * PHOTOS_PER_PAGE up to the next page or the end. */
  function PageSlice<T>(s: seq<T>, k: nat): seq<T>
    requires k < PageCount(|s|)
  {
    s[k * PHOTOS_PER_PAGE .. Min(k * PHOTOS_PER_PAGE + PHOTOS_PER_PAGE, |s|)]
  }

  /** The pages of `s`, as the specification of the pagination loop. */
  function Pages<T>(s: seq<T>): seq<seq<T>>
  {
    seq(PageCount(|s|), k requires 0 <= k < PageCount(|s|) => PageSlice(s, k))
  }

  /** The concatenation of a list of pages. */
  function Flatten<T>(pages: seq<seq<T>>): seq<T>
  {
    if pages == [] then [] else pages[0] + Flatten(pages[1..])
  }

  /** The loop `for (i = 0; i < photos.length; i += PHOTOS_PER_PAGE) pages.push(photos.slice(i, i + PHOTOS_PER_PAGE))`;
      `slice` clamps its end to the length. PreviewModal.tsx runs the same loop; both use this method. */
  method Paginate<T>(photos: seq<T>) returns (pages: seq<seq<T>>)
    ensures |pages| == PageCount(|photos|)
    ensures forall k :: 0 <= k < |pages| ==>
      pages[k] == photos[k * PHOTOS_PER_PAGE .. Min(k * PHOTOS_PER_PAGE + PHOTOS_PER_PAGE, |photos|)]
    ensures pages == Pages(photos)
    ensures Flatten(pages) == photos
  {
    pages := [];
    var i := 0;
    while i < |photos|
      invariant i == |pages| * PHOTOS_PER_PAGE
      invariant i < |photos| + PHOTOS_PER_PAGE
      invariant forall k :: 0 <= k < |pages| ==>
        pages[k] == photos[k * PHOTOS_PER_PAGE .. Min(k * PHOTOS_PER_PAGE + PHOTOS_PER_PAGE, |photos|)]
    {
      pages := pages + [photos[i .. Min(i + PHOTOS_PER_PAGE, |photos|)]];
      i := i + PHOTOS_PER_PAGE;
    }
    assert |pages| == PageCount(|photos|);
    assert pages == Pages(photos);
    PagesFlatten(photos);
  }

  /** Peeling the first page off: the pages of a longer list are its first page followed by the
      pages of the rest. */
  lemma PagesCons<T>(s: seq<T>)
    requires |s| > PHOTOS_PER_PAGE
    ensures Pages(s) == [s[..PHOTOS_PER_PAGE]] + Pages(s[PHOTOS_PER_PAGE..])
  {
    var rest := s[PHOTOS_PER_PAGE..];
    assert PageCount(|s|) == PageCount(|rest|) + 1;
    var l, r := Pages(s), [s[..PHOTOS_PER_PAGE]] + Pages(rest);
    forall k | 0 <= k < |l| ensures l[k] == r[k] {
      if k > 0 {
        assert (k - 1) * PHOTOS_PER_PAGE == k * PHOTOS_PER_PAGE - PHOTOS_PER_PAGE;
        assert PageSlice(rest, k - 1) == PageSlice(s, k);
      }
    }
  }

  /** Concatenating the pages in order gives back the photo list exactly. */
  lemma {:induction false} PagesFlatten<T>(s: seq<T>)
    ensures Flatten(Pages(s)) == s
    decreases |s|
  {
    if |s| == 0 {
      assert Pages(s) == [];
    } else if |s| <= PHOTOS_PER_PAGE {
      assert PageCount(|s|) == 1;
      assert Pages(s)[0] == s;
      assert Pages(s) == [s];
      assert Flatten(Pages(s)) == s + Flatten([]);
    } else {
      PagesCons(s);
      PagesFlatten(s[PHOTOS_PER_PAGE..]);
      assert Pages(s)[1..] == Pages(s[PHOTOS_PER_PAGE..]);
    }
  }

  /** Every page but the last is full; the last holds between one and PHOTOS_PER_PAGE photos. */
  lemma PageSizes<T>(s: seq<T>)
    ensures forall k :: 0 <= k < |Pages(s)| - 1 ==> |Pages(s)[k]| == PHOTOS_PER_PAGE
    ensures Pages(s) != [] ==> 1 <= |Pages(s)[|Pages(s)| - 1]| <= PHOTOS_PER_PAGE
  {
    var n := PageCount(|s|);
    forall k | 0 <= k < n - 1 ensures |Pages(s)[k]| == PHOTOS_PER_PAGE {
      assert k * PHOTOS_PER_PAGE + PHOTOS_PER_PAGE <= (n - 1) * PHOTOS_PER_PAGE;
    }
  }

  /** The container is as wide as one page: 794 px in portrait, 1123 px in landscape. */
  function ContainerWidth(mode: LayoutMode): (r: nat)
    ensures r == PdfPage.PageSize(mode).0
    ensures r == (if mode == Portrait then 794 else 1123)
  {
    if mode == Portrait then PdfPage.A4_SHORT_PX else PdfPage.A4_LONG_PX
  }

  /** `pages.map((pagePhotos, pageIndex) => <PdfPage …/>)`: page k is drawn with index k and
      the page count as total. */
  function PageViews(photos: seq<Photo>, mode: LayoutMode): (r: seq<PdfPage.PageView>)
    ensures |r| == PageCount(|photos|)
    ensures forall k :: 0 <= k < |r| ==>
      r[k] == PdfPage.Render(Pages(photos)[k], k, PageCount(|photos|), mode)
  {
    var pages := Pages(photos);
    seq(|pages|, k requires 0 <= k < |pages| => PdfPage.Render(pages[k], k, |pages|, mode))
  }

  function CellsOfPages(photoPages: seq<seq<Photo>>, mode: LayoutMode): seq<seq<PdfPage.Cell>>
  {
    seq(|photoPages|, k requires 0 <= k < |photoPages| => PdfPage.Cells(photoPages[k], mode))
  }

  function CellsOfViews(views: seq<PdfPage.PageView>): seq<seq<PdfPage.Cell>>
  {
    seq(|views|, k requires 0 <= k < |views| => views[k].cells)
  }

  lemma {:induction false} CellsFlatten(photoPages: seq<seq<Photo>>, mode: LayoutMode)
    ensures Flatten(CellsOfPages(photoPages, mode)) == PdfPage.Cells(Flatten(photoPages), mode)
    decreases |photoPages|
  {
    if photoPages != [] {
      CellsFlatten(photoPages[1..], mode);
      assert CellsOfPages(photoPages, mode)[1..] == CellsOfPages(photoPages[1..], mode);
      PdfPage.CellsAppend(photoPages[0], Flatten(photoPages[1..]), mode);
    }
  }

  /** Read page by page, the cells of the report are one cell per photo in the order of the photo
      list: nothing is dropped, duplicated or reordered by the pagination. */
  lemma ReportCellsFollowPhotos(photos: seq<Photo>, mode: LayoutMode)
    ensures Flatten(CellsOfViews(PageViews(photos, mode))) == PdfPage.Cells(photos, mode)
  {
    assert CellsOfViews(PageViews(photos, mode)) == CellsOfPages(Pages(photos), mode);
    CellsFlatten(Pages(photos), mode);
    PagesFlatten(photos);
  }

  /** The whole preview container: its width and its pages. */
  method RenderPreview(photos: seq<Photo>, mode: LayoutMode) returns (width: nat, views: seq<PdfPage.PageView>)
    ensures width == PdfPage.PageSize(mode).0
    ensures views == PageViews(photos, mode)
    ensures |views| == PageCount(|photos|)
    ensures forall k :: 0 <= k < |views| ==>
      views[k].pageLabel == PdfPage.PageLabel(k, |views|) && |views[k].cells| <= PHOTOS_PER_PAGE
    ensures Flatten(CellsOfViews(views)) == PdfPage.Cells(photos, mode)
  {
    var pages := Paginate(photos);
    width := ContainerWidth(mode);
    views := seq(|pages|, k requires 0 <= k < |pages| => PdfPage.Render(pages[k], k, |pages|, mode));
    PageSizes(photos);
    ReportCellsFollowPhotos(photos, mode);
  }
}
