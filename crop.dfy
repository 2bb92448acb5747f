/** Cropping a multi-page image. libvips holds the pages of an animated or
    paginated image as one tall "filmstrip", page i occupying rows
    [pageHeight * i, pageHeight * (i + 1)). Cropping it means cropping every
    page and stacking the cropped pages again. */
module MultiPage {
  import opened Wrappers
  import opened Placement

  /** An image, as far as cropping is concerned: its size. */
  datatype Frame = Frame(width: int, height: int)

  /** A rectangle to extract: its top-left corner and its size. */
  datatype Rect = Rect(left: int, top: int, width: int, height: int)

  /** The rectangle is non-empty and lies inside the image. */
  predicate Inside(image: Frame, r: Rect) {
    0 <= r.left && 0 <= r.top && 0 < r.width && 0 < r.height &&
    r.left + r.width <= image.width && r.top + r.height <= image.height
  }

  /** extract_area: an image the size of the rectangle, or the backend's
      error (None) when the rectangle is empty or leaves the image. */
  function ExtractArea(image: Frame, r: Rect): (f: Option<Frame>)
    ensures f.Some? <==> Inside(image, r)
    ensures f.Some? ==> f.value == Frame(r.width, r.height)
  {
    if Inside(image, r) then Some(Frame(r.width, r.height)) else None
  }

  /** The width of the widest page. */
  function MaxWidth(pages: seq<Frame>): (m: int)
    requires |pages| > 0
    ensures forall k :: 0 <= k < |pages| ==> pages[k].width <= m
    ensures exists k :: 0 <= k < |pages| && pages[k].width == m
  {
    if |pages| == 1 then pages[0].width
    else
      var w := MaxWidth(pages[1..]);
      assert forall k :: 1 <= k < |pages| ==> pages[k] == pages[1..][k - 1];
      if pages[0].width > w then pages[0].width else w
  }

  /** The height of the tallest page. */
  function MaxHeight(pages: seq<Frame>): (m: int)
    requires |pages| > 0
    ensures forall k :: 0 <= k < |pages| ==> pages[k].height <= m
    ensures exists k :: 0 <= k < |pages| && pages[k].height == m
  {
    if |pages| == 1 then pages[0].height
    else
      var h := MaxHeight(pages[1..]);
      assert forall k :: 1 <= k < |pages| ==> pages[k] == pages[1..][k - 1];
      if pages[0].height > h then pages[0].height else h
  }

  /** arrayjoin with across = 1: one column of |pages| cells, each cell as
      wide as the widest page and as tall as the tallest, so every page fits
      its cell; an empty array is the backend's error. */
  function ArrayJoin(pages: seq<Frame>): (r: Option<Frame>)
    ensures r.Some? <==> |pages| > 0
    ensures r.Some? ==> forall k :: 0 <= k < |pages| ==> pages[k].width <= r.value.width
    ensures r.Some? ==> r.value.height == |pages| * MaxHeight(pages)
    ensures r.Some? ==> exists k :: 0 <= k < |pages| && r.value.width == pages[k].width
  {
    if |pages| == 0 then None else Some(Frame(MaxWidth(pages), |pages| * MaxHeight(pages)))
  }

  /** Stacking n pages of one size gives an image n times as tall. */
  lemma StackOfEqualPages(pages: seq<Frame>, page: Frame)
    requires |pages| > 0 && forall k :: 0 <= k < |pages| ==> pages[k] == page
    ensures ArrayJoin(pages) == Some(Frame(page.width, |pages| * page.height))
  {
    assert MaxWidth(pages) == page.width;
    assert MaxHeight(pages) == page.height;
  }

  /** The row at which page k of the filmstrip starts; a function so that
      quantifiers over pages have a term to match on. */
  function PageOffset(pageHeight: int, k: int): int {
    pageHeight * k
  }

  /** The crop rectangle moved onto page k. */
  function PageRegion(left: int, top: int, width: int, height: int, pageHeight: int, k: int): Rect {
    Rect(left, PageOffset(pageHeight, k) + top, width, height)
  }

  /** The 32-bit products and sums for the page offsets do not overflow. */
  predicate OffsetsFit(pageHeight: int, top: int, nPages: int) {
    forall k :: 0 <= k < nPages ==>
      IsInt32(PageOffset(pageHeight, k)) && IsInt32(PageOffset(pageHeight, k) + top)
  }

  /** The image is a filmstrip of nPages pages of pageHeight rows each. */
  predicate Filmstrip(image: Frame, nPages: int, pageHeight: int) {
    nPages > 0 && pageHeight > 0 && image.height == nPages * pageHeight
  }

  /** The crop rectangle is non-empty and fits inside one page. */
  predicate CropWithinPage(image: Frame, left: int, top: int, width: int, height: int, pageHeight: int) {
    0 <= left && 0 < width && left + width <= image.width &&
    0 <= top && 0 < height && top + height <= pageHeight
  }

  /** A crop that fits one page, moved onto page k, stays inside page k. */
  lemma PageRegionWithinPage(image: Frame, left: int, top: int, width: int, height: int, nPages: int, pageHeight: int, k: int)
    requires Filmstrip(image, nPages, pageHeight)
    requires CropWithinPage(image, left, top, width, height, pageHeight)
    requires 0 <= k < nPages
    ensures var r := PageRegion(left, top, width, height, pageHeight, k);
      PageOffset(pageHeight, k) <= r.top && r.top + r.height <= PageOffset(pageHeight, k + 1)
    ensures Inside(image, PageRegion(left, top, width, height, pageHeight, k))
  {
    assert PageOffset(pageHeight, k + 1) == PageOffset(pageHeight, k) + pageHeight;
    ScaleMonotone(pageHeight, k + 1, nPages);
    ScaleMonotone(pageHeight, 0, k);
  }

  /** Multiplying by a non-negative factor keeps order; only a step that
      spares the solver the nonlinear reasoning in PageRegionWithinPage. */
  lemma ScaleMonotone(a: int, b: int, c: int)
    requires 0 <= a && b <= c
    ensures a * b <= a * c
  {
    assert a * c - a * b == a * (c - b);
  }

  /** Crop every page of a multi-page image to (left, top, width, height) and
      stack the cropped pages again. Returns the result (None when the
      backend reports an error) and the extraction rectangles, in the order
      they are requested. */
  method CropMultiPage(image: Frame, left: int, top: int, width: int, height: int, nPages: int, pageHeight: int)
      returns (result: Option<Frame>, regions: seq<Rect>)
    requires !(top == 0 && height == pageHeight) ==> OffsetsFit(pageHeight, top, nPages)
    // fast path: the page geometry is unchanged, one extraction over the whole strip
    ensures top == 0 && height == pageHeight ==>
      regions == [Rect(left, 0, width, image.height)] && result == ExtractArea(image, regions[0])
    // general path: page k is cropped at (left, pageHeight * k + top), pages in order
    ensures !(top == 0 && height == pageHeight) ==>
      && |regions| <= (if nPages > 0 then nPages else 0)
      && (forall k :: 0 <= k < |regions| ==> regions[k] == PageRegion(left, top, width, height, pageHeight, k))
      && (result.Some? <==> nPages > 0 && forall k :: 0 <= k < nPages ==> Inside(image, PageRegion(left, top, width, height, pageHeight, k)))
      && (result.Some? ==> |regions| == nPages && result.value == Frame(width, nPages * height))
      // the first extraction that fails is the last one requested
      && (result.None? && nPages > 0 ==>
            0 < |regions| && !Inside(image, regions[|regions| - 1]) &&
            forall k :: 0 <= k < |regions| - 1 ==> Inside(image, regions[k]))
    // on a filmstrip, a crop within one page always succeeds and gives
    // nPages pages of the new height
    ensures Filmstrip(image, nPages, pageHeight) && CropWithinPage(image, left, top, width, height, pageHeight) ==>
      result == Some(Frame(width, nPages * height))
  {
    if top == 0 && height == pageHeight {
      regions := [Rect(left, 0, width, image.height)];
      result := ExtractArea(image, regions[0]);
      return;
    }

    var pages: seq<Frame> := [];
    regions := [];
    var failed := false;
    var i := 0;
    while i < nPages && !failed
      invariant 0 <= i && (nPages > 0 ==> i <= nPages) && (nPages <= 0 ==> i == 0)
      invariant |regions| == i
      invariant forall k :: 0 <= k < i ==> regions[k] == PageRegion(left, top, width, height, pageHeight, k)
      invariant !failed ==> |pages| == i && forall k :: 0 <= k < i ==> Inside(image, regions[k]) && pages[k] == Frame(width, height)
      invariant failed ==> 0 < i && !Inside(image, regions[i - 1]) && forall k :: 0 <= k < i - 1 ==> Inside(image, regions[k])
    {
      var region := Rect(left, pageHeight * i + top, width, height);
      regions := regions + [region];
      var page := ExtractArea(image, region);
      if page.Some? {
        pages := pages + [page.value];
      } else {
        failed := true;
      }
      i := i + 1;
    }

    if failed {
      result := None;
      assert !Inside(image, PageRegion(left, top, width, height, pageHeight, i - 1));
    } else {
      result := ArrayJoin(pages);
      if nPages > 0 {
        StackOfEqualPages(pages, Frame(width, height));
      }
    }

    if Filmstrip(image, nPages, pageHeight) && CropWithinPage(image, left, top, width, height, pageHeight) {
      forall k | 0 <= k < nPages
        ensures Inside(image, PageRegion(left, top, width, height, pageHeight, k))
      {
        PageRegionWithinPage(image, left, top, width, height, nPages, pageHeight, k);
      }
    }
  }
  /** A 30 x 120 strip of three 40-row pages, cropped both ways. */
  method CropExamples() {
    var strip := Frame(30, 120);
    var fast, fastRegions := CropMultiPage(strip, 5, 0, 20, 40, 3, 40);
    assert fastRegions == [Rect(5, 0, 20, 120)];
    assert fast == Some(Frame(20, 120));
    var cropped, regions := CropMultiPage(strip, 5, 5, 20, 30, 3, 40);
    assert cropped == Some(Frame(20, 90));
    assert regions == [Rect(5, 5, 20, 30), Rect(5, 45, 20, 30), Rect(5, 85, 20, 30)];
  }
}
