/**
 The integer geometry of `four_point_transform`: the corners are labelled,
 the output size is the larger truncated length of each pair of opposite
 edges, and the destination rectangle is (0,0), (W-1,0), (W-1,H-1), (0,H-1).
 Solving the homography and resampling the image are library numerics and
 are not modelled; `warpPerspective` is told the size (W, H). The size of
 the image it returns is `Detection.WarpOutput`.
 */
module Transform {
  import opened Ordering

  /** `r` is the integer part of the square root of `n`. */
  ghost predicate IsFloorSqrt(r: int, n: int) {
    0 <= r && r * r <= n < (r + 1) * (r + 1)
  }

  lemma SquareMonotone(a: int, b: int)
    requires 0 <= a <= b
    ensures a * a <= b * b
  {
    assert a * a <= a * b <= b * b;
  }

  /** The root of `n` is twice the root of `n / 4`, or one more. */
  lemma SqrtStep(n: int, h: int)
    requires n >= 0 && IsFloorSqrt(h, n / 4)
    ensures (2 * h) * (2 * h) <= n < (2 * h + 2) * (2 * h + 2)
  {
    assert 4 * (h * h) <= n by { assert h * h <= n / 4; }
    assert n < 4 * ((h + 1) * (h + 1)) by { assert n / 4 + 1 <= (h + 1) * (h + 1); }
    assert (2 * h) * (2 * h) == 4 * (h * h);
    assert (2 * h + 2) * (2 * h + 2) == 4 * ((h + 1) * (h + 1));
  }

  /** `int(np.sqrt(n))` for a non-negative integer `n`, by digit-pair recursion. */
  function IntSqrt(n: nat): (r: nat)
    ensures IsFloorSqrt(r, n)
    decreases n
  {
    if n == 0 then 0
    else
      var h := IntSqrt(n / 4);
      SqrtStep(n, h);
      if (2 * h + 1) * (2 * h + 1) <= n then 2 * h + 1 else 2 * h
  }

  /** The floor square root is unique. */
  lemma FloorSqrtUnique(r: int, s: int, n: int)
    requires IsFloorSqrt(r, n) && IsFloorSqrt(s, n)
    ensures r == s
  {
    if r < s {
      SquareMonotone(r + 1, s);
    } else if s < r {
      SquareMonotone(s + 1, r);
    }
  }

  /** Floor square roots are ordered as their radicands are. */
  lemma FloorSqrtMonotone(a: int, b: int, m: int, n: int)
    requires IsFloorSqrt(a, m) && IsFloorSqrt(b, n) && m <= n
    ensures a <= b
  {
    if b < a {
      SquareMonotone(b + 1, a);
    }
  }

  /** The floor square root is monotone. */
  lemma IntSqrtMonotone(m: nat, n: nat)
    requires m <= n
    ensures IntSqrt(m) <= IntSqrt(n)
  {
    FloorSqrtMonotone(IntSqrt(m), IntSqrt(n), m, n);
  }

  /** The floor square root of a perfect square is its root. */
  lemma IntSqrtOfSquare(k: nat)
    ensures IntSqrt(k * k) == k
  {
    SquareMonotone(k, k + 1);
    FloorSqrtUnique(IntSqrt(k * k), k, k * k);
  }

  /** Squared Euclidean distance between two points. */
  function SquaredDistance(a: Point, b: Point): nat {
    (a.x - b.x) * (a.x - b.x) + (a.y - b.y) * (a.y - b.y)
  }

  /** `int(np.sqrt(...))` of one edge: the truncated Euclidean length. */
  function EdgeLength(a: Point, b: Point): (len: nat)
    ensures IsFloorSqrt(len, SquaredDistance(a, b))
  {
    IntSqrt(SquaredDistance(a, b))
  }

  function Max(a: int, b: int): int {
    if a < b then b else a
  }

  /** The integer part of `four_point_transform`: labelled corners, destination and size. */
  datatype WarpPlan = WarpPlan(src: Quad, dst: Quad, width: nat, height: nat)

  /** The destination corners for an output of `width` by `height` pixels. */
  function Destination(width: int, height: int): Quad {
    Quad(Point(0, 0), Point(width - 1, 0), Point(width - 1, height - 1), Point(0, height - 1))
  }

  /**
   The plan `four_point_transform` hands to `getPerspectiveTransform` and
   `warpPerspective`. The width is the integer part of the longer of the
   bottom (br-bl) and top (tr-tl) edges; the height that of the longer of the
   right (tr-br) and left (tl-bl) edges. There is no check against a zero size.
   */
  function FourPointTransform(pts: Quad): (p: WarpPlan)
    ensures p.src == OrderPoints(pts)
    ensures var tl, tr, br, bl := p.src.p0, p.src.p1, p.src.p2, p.src.p3;
      && IsFloorSqrt(p.width, Max(SquaredDistance(br, bl), SquaredDistance(tr, tl)))
      && IsFloorSqrt(p.height, Max(SquaredDistance(tr, br), SquaredDistance(tl, bl)))
    ensures p.dst == Destination(p.width, p.height)
  {
    var rect := OrderPoints(pts);
    var tl, tr, br, bl := rect.p0, rect.p1, rect.p2, rect.p3;
    var width := Max(EdgeLength(br, bl), EdgeLength(tr, tl));
    var height := Max(EdgeLength(tr, br), EdgeLength(tl, bl));
    MaxOfFloorSqrt(br, bl, tr, tl);
    MaxOfFloorSqrt(tr, br, tl, bl);
    WarpPlan(rect, Destination(width, height), width, height)
  }

  /** The larger truncated length is the truncated length of the larger squared distance. */
  lemma MaxOfFloorSqrt(a: Point, b: Point, c: Point, d: Point)
    ensures IsFloorSqrt(Max(EdgeLength(a, b), EdgeLength(c, d)),
                        Max(SquaredDistance(a, b), SquaredDistance(c, d)))
  {
    var m, n := SquaredDistance(a, b), SquaredDistance(c, d);
    var e, f := IntSqrt(m), IntSqrt(n);
    assert EdgeLength(a, b) == e && EdgeLength(c, d) == f;
    if m <= n {
      IntSqrtMonotone(m, n);
      assert Max(e, f) == f && Max(m, n) == n;
    } else {
      IntSqrtMonotone(n, m);
      assert Max(e, f) == e && Max(m, n) == m;
    }
  }

  /** The size of a warp whose corners are already labelled, read off its own edges. */
  lemma CanonicalWarp(q: Quad)
    requires OrderPoints(q) == q
    ensures FourPointTransform(q).src == q
    ensures IsFloorSqrt(FourPointTransform(q).width, Max(SquaredDistance(q.p2, q.p3), SquaredDistance(q.p1, q.p0)))
    ensures IsFloorSqrt(FourPointTransform(q).height, Max(SquaredDistance(q.p1, q.p2), SquaredDistance(q.p0, q.p3)))
  {
  }

  /** Two points on a horizontal line are their x-gap apart, squared. */
  lemma HorizontalDistance(u: Point, v: Point, k: int)
    requires u.y == v.y && k == u.x - v.x
    ensures SquaredDistance(u, v) == k * k
  {
  }

  /** Two points on a vertical line are their y-gap apart, squared. */
  lemma VerticalDistance(u: Point, v: Point, k: int)
    requires u.x == v.x && k == v.y - u.y
    ensures SquaredDistance(u, v) == k * k
  {
  }

  /** A truncated length of `k * k` is `k`. */
  lemma FloorSqrtOfSquare(r: int, k: nat)
    requires IsFloorSqrt(r, k * k)
    ensures r == k
  {
    IntSqrtOfSquare(k);
    FloorSqrtUnique(r, k, k * k);
  }

  /** A labelled quadrilateral whose top and bottom edges both measure `k` warps to width `k`. */
  lemma CanonicalWarpWidth(q: Quad, k: nat)
    requires OrderPoints(q) == q
    requires SquaredDistance(q.p2, q.p3) == k * k && SquaredDistance(q.p1, q.p0) == k * k
    ensures FourPointTransform(q).width == k
  {
    CanonicalWarp(q);
    assert Max(k * k, k * k) == k * k;
    FloorSqrtOfSquare(FourPointTransform(q).width, k);
  }

  /** A labelled quadrilateral whose left and right edges both measure `k` warps to height `k`. */
  lemma CanonicalWarpHeight(q: Quad, k: nat)
    requires OrderPoints(q) == q
    requires SquaredDistance(q.p1, q.p2) == k * k && SquaredDistance(q.p0, q.p3) == k * k
    ensures FourPointTransform(q).height == k
  {
    CanonicalWarp(q);
    assert Max(k * k, k * k) == k * k;
    FloorSqrtOfSquare(FourPointTransform(q).height, k);
  }

  /** An upright rectangle warps to its own width. */
  lemma RectangleWarpWidth(q: Quad)
    requires IsUprightRect(q)
    ensures FourPointTransform(q).width == q.p1.x - q.p0.x
  {
    var k := q.p1.x - q.p0.x;
    RectIsCanonical(q);
    HorizontalDistance(q.p2, q.p3, k);
    HorizontalDistance(q.p1, q.p0, k);
    CanonicalWarpWidth(q, k);
  }

  /** An upright rectangle warps to its own height. */
  lemma RectangleWarpHeight(q: Quad)
    requires IsUprightRect(q)
    ensures FourPointTransform(q).height == q.p3.y - q.p0.y
  {
    var k := q.p3.y - q.p0.y;
    RectIsCanonical(q);
    VerticalDistance(q.p1, q.p2, k);
    VerticalDistance(q.p0, q.p3, k);
    CanonicalWarpHeight(q, k);
  }

  /**
   The warp of an upright rectangle keeps its corners as they are and is
   exactly as wide and as high as the rectangle.
   */
  lemma RectangleWarp(q: Quad)
    requires IsUprightRect(q)
    ensures FourPointTransform(q).src == q
    ensures FourPointTransform(q).width == q.p1.x - q.p0.x
    ensures FourPointTransform(q).height == q.p3.y - q.p0.y
  {
    RectIsCanonical(q);
    RectangleWarpWidth(q);
    RectangleWarpHeight(q);
  }

  /**
   When the labelling puts the same point at top-left and top-right and the
   same point at bottom-right and bottom-left, both width edges have length
   0 and the requested width is 0. That happens when the top point holds
   both the least sum and the least difference, that is both of its edges
   fall at 45 degrees or more below the horizontal (a tie going to the point
   listed first), and the bottom point likewise holds both greatest keys.
   Acute top and bottom angles are not needed (`RightAngledKiteLabels`). A
   non-degenerate rectangle listed in boundary order, as `approxPolyDP`
   gives it, is never labelled this way; listed out of order it can be
   (`ShuffledSquareLabels`).
   */
  lemma CollapsedWarpIsEmpty(q: Quad)
    requires OrderPoints(q).p0 == OrderPoints(q).p1 && OrderPoints(q).p2 == OrderPoints(q).p3
    ensures FourPointTransform(q).width == 0
  {
    var r := OrderPoints(q);
    var p := FourPointTransform(q);
    HorizontalDistance(r.p2, r.p3, 0);
    HorizontalDistance(r.p1, r.p0, 0);
    assert IsFloorSqrt(p.width, Max(0 * 0, 0 * 0));
    FloorSqrtOfSquare(p.width, 0);
  }

  /** The 45-degree square listed out of boundary order requests width 0. */
  lemma ShuffledSquareWarpIsEmpty(q: Quad)
    requires q == Quad(Point(150, 0), Point(150, 300), Point(300, 150), Point(0, 150))
    ensures FourPointTransform(q).width == 0
  {
    ShuffledSquareLabels(q);
    CollapsedWarpIsEmpty(q);
  }

  /** The kite with a right angle at its top requests width 0. */
  lemma RightAngledKiteWarpIsEmpty(q: Quad)
    requires q == Quad(Point(150, 0), Point(300, 150), Point(150, 400), Point(0, 150))
    ensures FourPointTransform(q).width == 0
  {
    RightAngledKiteLabels(q);
    CollapsedWarpIsEmpty(q);
  }

  /**
   A square of diagonal 300 turned by 45 degrees does not collapse: its
   bottom edge is the square's side, so the warp is int(150 * sqrt 2) = 212
   wide and, from its left edge, 300 high.
   */
  lemma TurnedSquareWarp(q: Quad)
    requires q == Quad(Point(150, 0), Point(300, 150), Point(150, 300), Point(0, 150))
    ensures FourPointTransform(q).width == 212 && FourPointTransform(q).height == 300
  {
    TurnedSquareLabels(q);
    TurnedSquareWidth(q);
    TurnedSquareHeight(q);
  }

  /** The width of a warp labelled like the turned square. */
  lemma TurnedSquareWidth(q: Quad)
    requires OrderPoints(q) == Quad(Point(150, 0), Point(150, 0), Point(300, 150), Point(150, 300))
    ensures FourPointTransform(q).width == 212
  {
    var p := FourPointTransform(q);
    TurnedSquareWidthEdge(p.src);
    TurnedSquareRoots();
    FloorSqrtUnique(p.width, 212, 45000);
  }

  /** The height of a warp labelled like the turned square. */
  lemma TurnedSquareHeight(q: Quad)
    requires OrderPoints(q) == Quad(Point(150, 0), Point(150, 0), Point(300, 150), Point(150, 300))
    ensures FourPointTransform(q).height == 300
  {
    var p := FourPointTransform(q);
    TurnedSquareHeightEdge(p.src);
    TurnedSquareRoots();
    FloorSqrtUnique(p.height, 300, 90000);
  }

  /** The labelled turned square's longer width edge is its side, of squared length 45000. */
  lemma TurnedSquareWidthEdge(r: Quad)
    requires r == Quad(Point(150, 0), Point(150, 0), Point(300, 150), Point(150, 300))
    ensures Max(SquaredDistance(r.p2, r.p3), SquaredDistance(r.p1, r.p0)) == 45000
  {
  }

  /** The labelled turned square's longer height edge is its vertical diagonal, of length 300. */
  lemma TurnedSquareHeightEdge(r: Quad)
    requires r == Quad(Point(150, 0), Point(150, 0), Point(300, 150), Point(150, 300))
    ensures Max(SquaredDistance(r.p1, r.p2), SquaredDistance(r.p0, r.p3)) == 90000
  {
  }

  /** The integer square roots of 45000 and 90000. */
  lemma TurnedSquareRoots()
    ensures IsFloorSqrt(212, 45000) && IsFloorSqrt(300, 90000)
  {
  }

  /** The destination rectangle is itself in canonical corner order. */
  lemma DestinationIsCanonical(width: int, height: int)
    requires width >= 1 && height >= 1
    ensures OrderPoints(Destination(width, height)) == Destination(width, height)
  {
    RectIsCanonical(Destination(width, height));
  }
}
