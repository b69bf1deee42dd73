/**
 The detection dispatch of `detect_document_edges` and the fallback
 `detect_document_edges_alternative`. Images are known only by their shape;
 the pixel work of OpenCV (thresholding, edges, contours, Hough voting,
 warping) is taken as inputs: the traced contours and the number of Hough
 lines found.
 */
module Detection {
  import opened Wrappers
  import opened Ordering
  import opened Transform
  import opened Contours

  /** The `h, w = image.shape[:2]` of an image. */
  datatype Shape = Shape(height: nat, width: nat)

  /** Which branch produced the crop. */
  datatype Route = ContourWarp | HoughWarp | MinimalCrop

  /** The `(image, corners)` pair the detectors return, with the image known by its size. */
  datatype Crop = Crop(rows: nat, cols: nat, corners: Quad, route: Route)

  /** Hough lines needed before the padded rectangle is warped. */
  const MinHoughLines: nat := 4

  function Min(a: int, b: int): int {
    if a < b then a else b
  }

  /** The length of the Python slice `[start:stop]` of a sequence of length `n`. */
  function SliceLength(n: nat, start: int, stop: int): (len: nat)
    ensures 0 <= start <= stop <= n ==> len == stop - start
    ensures len <= n
  {
    var lo := if start < 0 then (if start + n < 0 then 0 else start + n) else Min(start, n);
    var hi := if stop < 0 then (if stop + n < 0 then 0 else stop + n) else Min(stop, n);
    if hi <= lo then 0 else hi - lo
  }

  /** The inset the fallback applies: 5% of the shorter side with enough lines, else 2.5%. */
  function Padding(img: Shape, lines: nat): (p: nat)
    ensures lines >= MinHoughLines ==> 20 * p <= Min(img.height, img.width) < 20 * (p + 1)
    ensures lines < MinHoughLines ==> 40 * p <= Min(img.height, img.width) < 40 * (p + 1)
  {
    if lines >= MinHoughLines then Min(img.height, img.width) / 20
    else Min(img.height, img.width) / 40
  }

  /** The padded whole-image rectangle the fallback uses as corners. */
  function PaddedCorners(img: Shape, p: int): Quad {
    Rect(p, p, img.width - p, img.height - p)
  }

  /**
   The padding never exceeds half of either side, is below half of a
   non-empty side, and is 0 for an empty image.
   */
  lemma PaddingFits(img: Shape, lines: nat)
    ensures var p := Padding(img, lines); 2 * p <= img.height && 2 * p <= img.width
    ensures img.height >= 1 && img.width >= 1 ==>
      var p := Padding(img, lines); 2 * p < img.height && 2 * p < img.width
    ensures img.height == 0 || img.width == 0 ==> Padding(img, lines) == 0
  {
  }

  /**
   The size of the image `warpPerspective(image, M, (W, H))` returns. OpenCV
   treats a size with a side of 0 as empty and then gives the output the
   source image's size.
   */
  function WarpOutput(img: Shape, plan: WarpPlan): Shape {
    if plan.width >= 1 && plan.height >= 1 then Shape(plan.height, plan.width) else img
  }

  /** The Hough branch: the padded rectangle goes through `four_point_transform`. */
  function HoughCrop(img: Shape, p: nat): (r: Crop)
    requires 2 * p <= img.height && 2 * p <= img.width
    ensures r.corners == PaddedCorners(img, p) && r.route == HoughWarp
    ensures 2 * p < img.height && 2 * p < img.width ==>
      r.rows == img.height - 2 * p && r.cols == img.width - 2 * p
    ensures 2 * p == img.height || 2 * p == img.width ==>
      r.rows == img.height && r.cols == img.width
  {
    var corners := PaddedCorners(img, p);
    RectangleWarp(corners);
    var out := WarpOutput(img, FourPointTransform(corners));
    Crop(out.height, out.width, corners, HoughWarp)
  }

  /** The last resort: `image[p:h-p, p:w-p]`. */
  function SliceCrop(img: Shape, p: nat): (r: Crop)
    requires 2 * p <= img.height && 2 * p <= img.width
    ensures r.corners == PaddedCorners(img, p) && r.route == MinimalCrop
    ensures r.rows == img.height - 2 * p && r.cols == img.width - 2 * p
  {
    var h, w := img.height, img.width;
    Crop(SliceLength(h, p, h - p), SliceLength(w, p, w - p), PaddedCorners(img, p), MinimalCrop)
  }

  /**
   `detect_document_edges_alternative`: with at least four Hough lines the
   padded rectangle is warped; otherwise the image is sliced to
   `[p:h-p, p:w-p]`. Either way the padded rectangle is returned as corners,
   so the fallback never comes back without a quadrilateral.
   */
  function Alternative(img: Shape, lines: nat): (r: Crop)
    ensures r.route == HoughWarp <==> lines >= MinHoughLines
    ensures r.route != ContourWarp
    ensures var p := r.corners.p0.x;
      && r.corners == PaddedCorners(img, p)
      && (lines >= MinHoughLines ==> 20 * p <= Min(img.height, img.width) < 20 * (p + 1))
      && (lines < MinHoughLines ==> 40 * p <= Min(img.height, img.width) < 40 * (p + 1))
      && r.rows == img.height - 2 * p
      && r.cols == img.width - 2 * p
  {
    var p := Padding(img, lines);
    PaddingFits(img, lines);
    if lines >= MinHoughLines then HoughCrop(img, p) else SliceCrop(img, p)
  }

  /** A padded rectangle whose padding fits lies inside the image. */
  lemma PaddedCornersInImage(img: Shape, p: int)
    requires 0 <= p && 2 * p <= img.width && 2 * p <= img.height
    ensures forall k :: 0 <= k < 4 ==>
      0 <= Corner(PaddedCorners(img, p), k).x <= img.width &&
      0 <= Corner(PaddedCorners(img, p), k).y <= img.height
  {
    var q := PaddedCorners(img, p);
    forall k | 0 <= k < 4
      ensures 0 <= Corner(q, k).x <= img.width && 0 <= Corner(q, k).y <= img.height
    {
    }
  }

  /** The fallback corners lie inside the image, on [0, w] x [0, h]. */
  lemma AlternativeCornersInImage(img: Shape, lines: nat)
    ensures var r := Alternative(img, lines);
      forall k :: 0 <= k < 4 ==>
        0 <= Corner(r.corners, k).x <= img.width && 0 <= Corner(r.corners, k).y <= img.height
  {
    var r := Alternative(img, lines);
    var p := r.corners.p0.x;
    assert 0 <= p && 2 * p <= img.width && 2 * p <= img.height;
    PaddedCornersInImage(img, p);
  }

  /** The fallback corners are already in canonical order. */
  lemma AlternativeCanonical(img: Shape, lines: nat)
    ensures var r := Alternative(img, lines); OrderPoints(r.corners) == r.corners
  {
    PaddingFits(img, lines);
    RectIsCanonical(Alternative(img, lines).corners);
  }

  /** For a non-empty image the fallback crop is non-empty in both directions. */
  lemma AlternativeNonEmpty(img: Shape, lines: nat)
    requires img.height >= 1 && img.width >= 1
    ensures var r := Alternative(img, lines); r.rows >= 1 && r.cols >= 1
  {
    PaddingFits(img, lines);
  }

  /** The contour branch: the four approximated vertices go through `four_point_transform`. */
  function ContourCrop(img: Shape, pts: Quad): (r: Crop)
    ensures r.corners == pts && r.route == ContourWarp
    ensures var plan := FourPointTransform(pts);
      if plan.width >= 1 && plan.height >= 1 then r.rows == plan.height && r.cols == plan.width
      else r.rows == img.height && r.cols == img.width
  {
    var out := WarpOutput(img, FourPointTransform(pts));
    Crop(out.height, out.width, pts, ContourWarp)
  }

  /**
   `detect_document_edges`: the contours are ranked by area with a stable
   sort and the first qualifying one is warped, so among the largest
   qualifying contours the one traced first wins; its approximation, in the order `approxPolyDP`
   gave it, is returned as the corners. Without one the alternative runs.
   */
  function DetectDocumentEdges(img: Shape, contours: seq<Candidate>, lines: nat): (r: Crop)
    ensures r.route == ContourWarp <==> exists c :: c in contours && Qualifies(c)
    ensures r.route == ContourWarp ==>
      exists c :: c in contours && Qualifies(c) && r.corners == ToQuad(c.approx) &&
        forall d :: d in contours && Qualifies(d) ==> d.area <= c.area
    ensures r.route == ContourWarp ==>
      && BestIndex(contours).Some?
      && var c := contours[BestIndex(contours).value]; Qualifies(c) && r.corners == ToQuad(c.approx)
    ensures r.route == ContourWarp ==>
      var plan := FourPointTransform(r.corners);
      if plan.width >= 1 && plan.height >= 1 then r.rows == plan.height && r.cols == plan.width
      else r.rows == img.height && r.cols == img.width
    ensures r.route != ContourWarp ==> r == Alternative(img, lines)
  {
    var sorted := SortByArea(contours);
    match FirstQualifying(sorted)
    case Some(i) =>
      FirstQualifyingIsLargest(contours, i);
      RankedChoiceIsBest(contours, i);
      var pts := ToQuad(sorted[i].approx);
      ContourCrop(img, pts)
    case None =>
      NoneQualifies(contours);
      Alternative(img, lines)
  }

  /** Of two qualifying contours of equal area, the one traced first is warped. */
  lemma EqualAreasTakeFirstTraced(img: Shape, lines: nat, a: Candidate, b: Candidate)
    requires Qualifies(a) && Qualifies(b) && a.area == b.area
    ensures DetectDocumentEdges(img, [a, b], lines).corners == ToQuad(a.approx)
  {
    var s := [a, b];
    assert s[0] == a && s[1] == b;
    assert BestIndex(s) == Some(0);
  }

  /**
   A qualifying contour whose labelling collapses is asked to warp to width
   0, so `warpPerspective` hands back an image of the source's size.
   */
  lemma CollapsedContourKeepsImageSize(img: Shape, contours: seq<Candidate>, lines: nat)
    requires DetectDocumentEdges(img, contours, lines).route == ContourWarp
    requires var q := DetectDocumentEdges(img, contours, lines).corners;
      OrderPoints(q).p0 == OrderPoints(q).p1 && OrderPoints(q).p2 == OrderPoints(q).p3
    ensures DetectDocumentEdges(img, contours, lines).rows == img.height
    ensures DetectDocumentEdges(img, contours, lines).cols == img.width
  {
    CollapsedWarpIsEmpty(DetectDocumentEdges(img, contours, lines).corners);
  }

  /**
   A rhombus with diagonals 294 and 300 (area 44100) and acute top and
   bottom angles is found by the contour branch, and the crop keeps the
   whole image's size.
   */
  lemma AcuteRhombusKeepsImageSize(img: Shape, lines: nat, page: Candidate)
    requires page == Candidate(44100.0, [Point(150, 0), Point(297, 150), Point(150, 300), Point(3, 150)])
    ensures var r := DetectDocumentEdges(img, [page], lines);
      r.route == ContourWarp && r.rows == img.height && r.cols == img.width
  {
    assert Qualifies(page) && page in [page];
    var r := DetectDocumentEdges(img, [page], lines);
    assert r.corners == ToQuad(page.approx);
    AcuteRhombusLabels();
    CollapsedContourKeepsImageSize(img, [page], lines);
  }

  /** When no ranked contour qualifies, none of the traced contours does. */
  lemma NoneQualifies(contours: seq<Candidate>)
    requires FirstQualifying(SortByArea(contours)).None?
    ensures forall c :: c in contours ==> !Qualifies(c)
  {
    var sorted := SortByArea(contours);
    forall c | c in contours ensures !Qualifies(c) {
      assert c in multiset(contours);
      assert c in multiset(sorted);
      var k :| 0 <= k < |sorted| && sorted[k] == c;
    }
  }
}
