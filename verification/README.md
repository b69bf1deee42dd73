# Document-cropping core: a Dafny model

This project models the integer geometry and the selection logic of the
document-cropping service in `flask_document_processor.py`. The service finds
the quadrilateral outline of a photographed page, labels its corners, warps
it to an upright rectangle, and falls back to a padded whole-image rectangle
when no outline is found. Every OpenCV and PIL call is opaque here. The model
takes its results as inputs: the traced contours with their areas and
polygon approximations, and the number of Hough lines. What is modelled is
the code around those calls:

- `order_points`: corner labelling by argmin/argmax of `x + y` and of
  `y - x`. First index wins ties, as in numpy. (`ordering.dfy`, module `Ordering`)
- The integer part of `four_point_transform`: the labelled source corners,
  the output size as the larger truncated length of each pair of opposite
  edges, and the destination rectangle. (`transform.dfy`, module `Transform`)
- Ranking contours by area and the first-match loop that accepts a 4-vertex
  approximation with area above 10000. (`contours.dfy`, module `Contours`)
- The dispatch in `detect_document_edges` and the whole of
  `detect_document_edges_alternative`. The fallback's padding, corners, warp
  size and slice size are modelled. (`detection.dfy`, module `Detection`)
- Data-URL prefix stripping with `split(',')[1]` and the handler's status
  code. (`dataurl.dfy`, module `DataUrl`)

Shared `Option`/`Result` types are in `wrappers.dfy`.

Details of the code the model follows:

- `np.diff(pts, axis=1)` is `y - x`. Top-right is the point of least
  `y - x` and bottom-left the point of greatest `y - x`.
- The area threshold is the absolute `contourArea(contour) > 10000`. Every
  traced contour is examined; there is no cap on their number.
- The Hough branch does not intersect lines. With four or more Hough lines
  it warps the whole image inset by `min(h, w) // 20`.
- There is no check for degenerate geometry. A zero width or height goes
  straight to `warpPerspective`, which then returns an image of the
  source's size.
- In the contour branch the returned corners are the approximation's points
  in the order `approxPolyDP` produced them, not the labelled ones.

## Model

| member | source | states |
|---|---|---|
| `Ordering.Key` | flask_document_processor.py:17-18 | definition, no contract: the sum `x + y`, and the difference `y - x` that `np.diff(pts, axis=1)` gives |
| `Ordering.ArgMinBelow` | flask_document_processor.py:21-25 | the scan returns the lowest index whose key is least among the first n rows (numpy `argmin`, first index on ties) |
| `Ordering.ArgMaxBelow` | flask_document_processor.py:23-27 | the scan returns the lowest index whose key is greatest among the first n rows (numpy `argmax`, first index on ties) |
| `Ordering.OrderPoints` | flask_document_processor.py:12-29 | every slot is an input row; slots 0 and 2 hold the least and greatest x+y, slots 1 and 3 the least and greatest y-x; slot 0 is the input row at the first index of least x+y; slot 1 at the first index of least y-x; slot 2 at the first of greatest x+y; slot 3 at the first of greatest y-x |
| `Ordering.OrderPointsFromInput` | flask_document_processor.py:17-27 | every output slot is one of the four input points (the first ensures of `OrderPoints`, restated slot by slot for later proofs) |
| `Ordering.OrderPointsKeepsTopLeft` | flask_document_processor.py:12-29 | re-ordering an ordered result keeps its top-left corner, with no distinctness condition |
| `Ordering.OrderPointsIdempotent` | flask_document_processor.py:12-29 | with pairwise-distinct sums and pairwise-distinct differences, ordering the output again returns it unchanged |
| `Ordering.OrderPointsPermutationInvariant` | flask_document_processor.py:12-29 | with pairwise-distinct sums and differences, any permutation of the four input points gets the same labelling |
| `Ordering.RectIsCanonical` | flask_document_processor.py:12-29 | an upright rectangle listed top-left, top-right, bottom-right, bottom-left is returned unchanged, even when it has zero width or height |
| `Ordering.OrderPointsNotIdempotent` | flask_document_processor.py:17-27 | without distinct keys ordering is not idempotent: (1,1), (0,0), (0,5), (5,5) is labelled (0,0), (1,1), (5,5), (0,5), and labelling that again moves (0,0) into the top-right slot |
| `Ordering.AcuteRhombusLabels` | flask_document_processor.py:17-27 | the rhombus (150,0), (297,150), (150,300), (3,150), with diagonals 294 and 300 and top and bottom angles below 90 degrees, gets its top point as both top-left and top-right and its bottom point as both bottom-right and bottom-left |
| `Ordering.TurnedSquareLabels` | flask_document_processor.py:17-27 | a square turned by 45 degrees, (150,0), (300,150), (150,300), (0,150), repeats only its top point: labelled (150,0), (150,0), (300,150), (150,300) |
| `Ordering.ShuffledSquareLabels` | flask_document_processor.py:17-27 | a rectangle listed out of boundary order can collapse fully: the 45-degree square given as (150,0), (150,300), (300,150), (0,150) is labelled (150,0), (150,0), (150,300), (150,300) |
| `Ordering.RightAngledKiteLabels` | flask_document_processor.py:17-27 | collapse does not need acute angles: the kite (150,0), (300,150), (150,400), (0,150), right-angled at its top, is labelled (150,0), (150,0), (150,400), (150,400) |
| `Transform.IntSqrt` | flask_document_processor.py:37-44 | `int(np.sqrt(n))` is the integer r with r*r <= n < (r+1)*(r+1) |
| `Transform.FourPointTransform` | flask_document_processor.py:31-52 | the source corners are the labelled ones. The width is the integer square root of the larger squared length of the bottom and top edges; the height, of the right and left edges. The destination is (0,0), (W-1,0), (W-1,H-1), (0,H-1) |
| `Transform.EdgeLength` | flask_document_processor.py:37-43 | `int(np.sqrt(dx ** 2 + dy ** 2))` of one edge is the integer square root of its squared Euclidean length |
| `Transform.MaxOfFloorSqrt` | flask_document_processor.py:37-44 | the larger of two truncated edge lengths is the truncated length of the larger squared length |
| `Transform.RectangleWarp` | flask_document_processor.py:31-44 | an upright rectangle warps with its corners unchanged, to exactly its own width and height |
| `Transform.CollapsedWarpIsEmpty` | flask_document_processor.py:31-40 | when the labelling repeats the top point and the bottom point, the requested width is 0 |
| `Transform.ShuffledSquareWarpIsEmpty` | flask_document_processor.py:31-40 | the out-of-order 45-degree square requests width 0 |
| `Transform.RightAngledKiteWarpIsEmpty` | flask_document_processor.py:31-40 | the kite right-angled at its top requests width 0 |
| `Transform.Destination` | flask_document_processor.py:46-52 | definition, no contract: the destination corners (0,0), (W-1,0), (W-1,H-1), (0,H-1) |
| `Transform.TurnedSquareWarp` | flask_document_processor.py:31-44 | that turned square does not collapse: its warp is 212 wide and 300 high |
| `Transform.DestinationIsCanonical` | flask_document_processor.py:46-52 | for W, H >= 1 the destination rectangle is itself in canonical corner order |
| `Contours.InsertByArea` | flask_document_processor.py:89 | inserting into an area-descending list keeps it descending and adds exactly the one element |
| `Contours.SortByArea` | flask_document_processor.py:89 | the ranked contours are in descending area and are a permutation of the traced ones |
| `Contours.Qualifies` | flask_document_processor.py:99 | definition, no contract: a contour qualifies when its approximation has exactly 4 vertices and its area exceeds 10000 |
| `Contours.BestIndex` | flask_document_processor.py:89-101 | reference for the selection: the lowest index among the qualifying contours of greatest area; none exactly when no contour qualifies |
| `Contours.FirstQualifying` | flask_document_processor.py:91-101 | the loop stops at a contour with exactly 4 approximated vertices and area > 10000, and no earlier contour has both; it finds none exactly when no contour qualifies |
| `Contours.InsertPrefers` | flask_document_processor.py:89 | after inserting c into a descending list, the first qualifying contour is c when c qualifies and is at least as large as the previous first, else the previous first |
| `Contours.RankedFirstIsBest` | flask_document_processor.py:89-101 | taking the first qualifying contour of the stably ranked list gives exactly the `BestIndex` contour |
| `Contours.FirstQualifyingIsLargest` | flask_document_processor.py:89-101 | the accepted contour is one of the traced contours, and no qualifying contour has a larger area |
| `Detection.SliceLength` | flask_document_processor.py:146 | a Python slice `[start:stop]` with 0 <= start <= stop <= n has stop - start elements, and never more than n |
| `Detection.Padding` | flask_document_processor.py:129-145 | the padding is min(h, w) floor-divided by 20 with at least four Hough lines, and by 40 otherwise |
| `Detection.PaddingFits` | flask_document_processor.py:129-146 | twice the padding fits in both sides, strictly when both sides are at least 1; the padding is 0 when a side is 0 |
| `Detection.PaddedCorners` | flask_document_processor.py:133-138 | definition, no contract: the corners (p,p), (w-p,p), (w-p,h-p), (p,h-p) |
| `Detection.WarpOutput` | flask_document_processor.py:56 | definition, no contract: the size of `warpPerspective`'s output, the requested (W, H) when both are at least 1 and the source image's size otherwise |
| `Detection.HoughCrop` | flask_document_processor.py:125-141 | the Hough branch returns the padded rectangle as corners. The result is (h - 2p) x (w - 2p) when 2p is below both sides; when 2p equals a side the requested size has a side of 0 and the result keeps the image's size |
| `Detection.SliceCrop` | flask_document_processor.py:143-155 | the last-resort branch returns the padded rectangle as corners and an (h - 2p) x (w - 2p) slice |
| `Detection.Alternative` | flask_document_processor.py:111-155 | the fallback always returns the padded rectangle (p,p), (w-p,p), (w-p,h-p), (p,h-p) as corners. p is min(h,w)//20 with >= 4 Hough lines and min(h,w)//40 otherwise. The crop is (h - 2p) x (w - 2p). The warp is used exactly when there are >= 4 lines |
| `Detection.AlternativeCornersInImage` | flask_document_processor.py:133-153 | every fallback corner lies in [0, w] x [0, h] |
| `Detection.AlternativeCanonical` | flask_document_processor.py:133-140 | `order_points` returns the fallback corners unchanged |
| `Detection.AlternativeNonEmpty` | flask_document_processor.py:129-155 | for h, w >= 1 the fallback crop has at least one row and one column |
| `Detection.DetectDocumentEdges` | flask_document_processor.py:86-109 | the contour branch runs exactly when some traced contour qualifies. It returns as corners the approximation of the `BestIndex` contour: a largest qualifying one, and of equal areas the first traced. Its size is the width and height `four_point_transform` asks for when both are at least 1, and the image's size otherwise. Otherwise the result is the alternative's |
| `Detection.ContourCrop` | flask_document_processor.py:103-106 | the contour branch returns the unlabelled approximation as corners, sized by the warp's requested size when both sides are at least 1 and by the image's size otherwise |
| `Detection.EqualAreasTakeFirstTraced` | flask_document_processor.py:89-101 | of two qualifying contours of equal area, the first traced is warped |
| `Detection.CollapsedContourKeepsImageSize` | flask_document_processor.py:103-106 | when the chosen contour's labelling repeats its top and bottom points, the crop has the whole image's size |
| `Detection.AcuteRhombusKeepsImageSize` | flask_document_processor.py:86-101 | that rhombus, with area 44100, is taken by the contour branch, and the crop has the whole image's size |
| `Detection.NoneQualifies` | flask_document_processor.py:103-109 | when the ranked loop finds nothing, no traced contour qualifies |
| `DataUrl.Split` | flask_document_processor.py:194 | `split(',')` returns at least one piece and no piece contains the separator; it returns exactly one piece iff the text has no separator |
| `DataUrl.JoinSplit` | flask_document_processor.py:194 | joining the pieces of a split with the separator gives back the text |
| `DataUrl.SplitJoin` | flask_document_processor.py:194 | splitting a join of separator-free pieces gives back the pieces |
| `DataUrl.StartsWith` | flask_document_processor.py:193 | definition, no contract: `str.startswith`, the text begins with the prefix |
| `DataUrl.StripDataUrl` | flask_document_processor.py:192-194 | a payload not starting with `data:image` is unchanged. One that does, with a comma, becomes the text between its first comma and the next comma or the end. One that does, with no comma, raises `IndexError` |
| `DataUrl.ProcessDocument` | flask_document_processor.py:179-243 | 400 exactly when there is no image field. A `data:image` payload with no comma gets 500 whatever the pipeline does. A payload without the prefix reaches the pipeline unchanged. Any payload gets 200 exactly when stripping succeeds and the pipeline succeeds on the stripped text |

## Left out

- Image pixels and all OpenCV internals are left out as foreign library code. This covers colour conversion, blur, adaptive threshold, morphology, Canny, dilation, contour tracing, `contourArea`, `arcLength`, `approxPolyDP`, `HoughLines` and bilateral filtering. Their results are inputs: contour areas and approximations, and the number of Hough lines. A `None` from `HoughLines` counts as zero lines; the guard treats the two the same.
- `getPerspectiveTransform` and `warpPerspective` are left out as floating-point homography numerics. The model keeps the plan they receive: source and destination corners, and output size. The warped image is known by its size. That is the requested size when both sides are at least 1. Otherwise it is the source image's size: OpenCV's implementation creates the output as `dsize.empty() ? src.size() : dsize`, and a size with a 0 side is empty. The library's code is not part of this model. The pixels of a warp through a degenerate quadrilateral are not modelled.
- `enhance_document` is left out: it is a chain of library image filters.
- Flask routing, CORS, JSON parsing, base64, PIL decoding and JPEG encoding, the `/health` and `/test` endpoints, logging and `app.run` are left out as I/O. In `ProcessDocument` everything after stripping is one opaque success predicate.
- Drawing the corners on the visualisation image is left out as a rendering side effect.
- `Transform.IntSqrt`: models `int(np.sqrt(...))` as the exact integer square root. Corners are `float32` and `np.sqrt` rounds. Coordinates below 2^24 are exact, but the squared sums and square roots can round differently for very large images.
- `Contours.SortByArea`: its own contract states sortedness and permutation, not stability. The consequence of stability that the selection depends on, the first traced of equal-area contours winning, is proved by `Contours.RankedFirstIsBest`.
- Images with a side of 0 are not behaviour of the program: `cv2.cvtColor` rejects an empty image before any of the modelled code runs, and the handler answers 500. The clauses about 0-sided shapes in `Detection.PaddingFits` and `Detection.HoughCrop` describe no path of the program.
- Non-string JSON values for `image` are left out: `startswith` would raise and give status 500.
