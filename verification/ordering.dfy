/**
 Corner labelling of a quadrilateral (`order_points` in flask_document_processor.py).

 Each of the four input points gets two keys: its sum `x + y` and the
 column difference numpy's `np.diff(pts, axis=1)` yields, which is `y - x`.
 Top-left is the first point of least sum, bottom-right the first of greatest
 sum, top-right the first of least difference and bottom-left the first of
 greatest difference; "first" because numpy's `argmin`/`argmax` return the
 lowest index on ties.
 */
module Ordering {

  /** An image-space point; coordinates are integral in every caller. */
  datatype Point = Point(x: int, y: int)

  /** A 4x2 point array; once labelled, the slots are top-left, top-right, bottom-right, bottom-left. */
  datatype Quad = Quad(p0: Point, p1: Point, p2: Point, p3: Point)

  /** Row `i` of the 4x2 array. */
  function Corner(q: Quad, i: int): Point
    requires 0 <= i < 4
  {
    if i == 0 then q.p0 else if i == 1 then q.p1 else if i == 2 then q.p2 else q.p3
  }

  /** The points of `q`, with multiplicity. */
  function Points(q: Quad): multiset<Point> {
    multiset{q.p0, q.p1, q.p2, q.p3}
  }

  /** `pts.reshape(4, 2)` of a four-vertex polygon. */
  function ToQuad(s: seq<Point>): (q: Quad)
    requires |s| == 4
    ensures forall i :: 0 <= i < 4 ==> Corner(q, i) == s[i]
  {
    Quad(s[0], s[1], s[2], s[3])
  }

  /** The two keys `order_points` ranks points by. */
  datatype KeyKind = Sum | Diff

  function Key(kind: KeyKind, p: Point): int {
    match kind
    case Sum => p.x + p.y
    case Diff => p.y - p.x
  }

  /** `i` is the lowest index among the first `n` holding their least key. */
  ghost predicate FirstMinBelow(q: Quad, kind: KeyKind, n: int, i: int) {
    && 0 <= i < n <= 4
    && (forall j :: 0 <= j < n ==> Key(kind, Corner(q, i)) <= Key(kind, Corner(q, j)))
    && (forall j :: 0 <= j < i ==> Key(kind, Corner(q, i)) < Key(kind, Corner(q, j)))
  }

  /** `i` is the lowest index among the first `n` holding their greatest key. */
  ghost predicate FirstMaxBelow(q: Quad, kind: KeyKind, n: int, i: int) {
    && 0 <= i < n <= 4
    && (forall j :: 0 <= j < n ==> Key(kind, Corner(q, j)) <= Key(kind, Corner(q, i)))
    && (forall j :: 0 <= j < i ==> Key(kind, Corner(q, j)) < Key(kind, Corner(q, i)))
  }

  /** `i` is the lowest index holding the least key of `q`. */
  ghost predicate FirstMinAt(q: Quad, kind: KeyKind, i: int) {
    FirstMinBelow(q, kind, 4, i)
  }

  /** `i` is the lowest index holding the greatest key of `q`. */
  ghost predicate FirstMaxAt(q: Quad, kind: KeyKind, i: int) {
    FirstMaxBelow(q, kind, 4, i)
  }

  /** numpy's `argmin` over the first `n` keys: a left-to-right scan that keeps the first minimum. */
  function ArgMinBelow(q: Quad, kind: KeyKind, n: int): (i: nat)
    requires 0 < n <= 4
    ensures FirstMinBelow(q, kind, n, i)
    decreases n
  {
    if n == 1 then 0
    else
      var i := ArgMinBelow(q, kind, n - 1);
      if Key(kind, Corner(q, n - 1)) < Key(kind, Corner(q, i)) then n - 1 else i
  }

  /** numpy's `argmax` over the first `n` keys: a left-to-right scan that keeps the first maximum. */
  function ArgMaxBelow(q: Quad, kind: KeyKind, n: int): (i: nat)
    requires 0 < n <= 4
    ensures FirstMaxBelow(q, kind, n, i)
    decreases n
  {
    if n == 1 then 0
    else
      var i := ArgMaxBelow(q, kind, n - 1);
      if Key(kind, Corner(q, i)) < Key(kind, Corner(q, n - 1)) then n - 1 else i
  }

  /** numpy's `argmin` over the four keys. */
  function ArgMin(q: Quad, kind: KeyKind): (i: nat)
    ensures FirstMinAt(q, kind, i)
  {
    ArgMinBelow(q, kind, 4)
  }

  /** numpy's `argmax` over the four keys. */
  function ArgMax(q: Quad, kind: KeyKind): (i: nat)
    ensures FirstMaxAt(q, kind, i)
  {
    ArgMaxBelow(q, kind, 4)
  }

  /** `p` is one of the rows of `q`. */
  ghost predicate IsRowOf(p: Point, q: Quad) {
    exists i :: 0 <= i < 4 && Corner(q, i) == p
  }

  /** Labels four points as top-left, top-right, bottom-right, bottom-left. */
  function OrderPoints(q: Quad): (r: Quad)
    ensures IsRowOf(r.p0, q) && IsRowOf(r.p1, q) && IsRowOf(r.p2, q) && IsRowOf(r.p3, q)
    ensures forall i :: 0 <= i < 4 ==> Key(Sum, r.p0) <= Key(Sum, Corner(q, i)) <= Key(Sum, r.p2)
    ensures forall i :: 0 <= i < 4 ==> Key(Diff, r.p1) <= Key(Diff, Corner(q, i)) <= Key(Diff, r.p3)
    ensures exists i :: FirstMinAt(q, Sum, i) && r.p0 == Corner(q, i)
    ensures exists i :: FirstMinAt(q, Diff, i) && r.p1 == Corner(q, i)
    ensures exists i :: FirstMaxAt(q, Sum, i) && r.p2 == Corner(q, i)
    ensures exists i :: FirstMaxAt(q, Diff, i) && r.p3 == Corner(q, i)
  {
    Quad(Corner(q, ArgMin(q, Sum)), Corner(q, ArgMin(q, Diff)),
         Corner(q, ArgMax(q, Sum)), Corner(q, ArgMax(q, Diff)))
  }

  /** No two rows of `q` share a key. */
  ghost predicate DistinctKeys(q: Quad, kind: KeyKind) {
    forall i, j :: 0 <= i < 4 && 0 <= j < 4 && i != j ==> Key(kind, Corner(q, i)) != Key(kind, Corner(q, j))
  }

  /** The labelled rectangle with corners (a,b), (c,b), (c,d), (a,d). */
  function Rect(a: int, b: int, c: int, d: int): Quad {
    Quad(Point(a, b), Point(c, b), Point(c, d), Point(a, d))
  }

  /** The first least-key index is unique. */
  lemma FirstMinUnique(q: Quad, kind: KeyKind, i: int, j: int)
    requires FirstMinAt(q, kind, i) && FirstMinAt(q, kind, j)
    ensures i == j
  {
    assert Key(kind, Corner(q, i)) == Key(kind, Corner(q, j));
    assert !(Key(kind, Corner(q, j)) < Key(kind, Corner(q, i)));
  }

  /** The first greatest-key index is unique. */
  lemma FirstMaxUnique(q: Quad, kind: KeyKind, i: int, j: int)
    requires FirstMaxAt(q, kind, i) && FirstMaxAt(q, kind, j)
    ensures i == j
  {
    assert Key(kind, Corner(q, i)) == Key(kind, Corner(q, j));
    assert !(Key(kind, Corner(q, j)) < Key(kind, Corner(q, i)));
  }

  /**
   When the least key of `q` sits at `k` and every row of `q` with that key is
   the same point, `argmin` picks that point (whichever index it returns).
   */
  lemma ArgMinPicks(q: Quad, kind: KeyKind, k: int)
    requires 0 <= k < 4
    requires forall j :: 0 <= j < 4 ==> Key(kind, Corner(q, k)) <= Key(kind, Corner(q, j))
    requires forall j :: 0 <= j < 4 && Key(kind, Corner(q, j)) == Key(kind, Corner(q, k)) ==> Corner(q, j) == Corner(q, k)
    ensures Corner(q, ArgMin(q, kind)) == Corner(q, k)
  {
    var m := ArgMin(q, kind);
    assert Key(kind, Corner(q, m)) <= Key(kind, Corner(q, k));
  }

  /** The `argmax` counterpart of `ArgMinPicks`. */
  lemma ArgMaxPicks(q: Quad, kind: KeyKind, k: int)
    requires 0 <= k < 4
    requires forall j :: 0 <= j < 4 ==> Key(kind, Corner(q, j)) <= Key(kind, Corner(q, k))
    requires forall j :: 0 <= j < 4 && Key(kind, Corner(q, j)) == Key(kind, Corner(q, k)) ==> Corner(q, j) == Corner(q, k)
    ensures Corner(q, ArgMax(q, kind)) == Corner(q, k)
  {
    var m := ArgMax(q, kind);
    assert Key(kind, Corner(q, k)) <= Key(kind, Corner(q, m));
  }

  /**
   Every slot of `order_points`' output is one of its input points: the
   first ensures of `OrderPoints` restated slot by slot through `Corner`,
   the form the proofs below quantify over.
   */
  lemma OrderPointsFromInput(q: Quad)
    ensures forall k :: 0 <= k < 4 ==> IsRowOf(Corner(OrderPoints(q), k), q)
  {
    var r := OrderPoints(q);
    assert Corner(r, 0) == Corner(q, ArgMin(q, Sum));
    assert Corner(r, 1) == Corner(q, ArgMin(q, Diff));
    assert Corner(r, 2) == Corner(q, ArgMax(q, Sum));
    assert Corner(r, 3) == Corner(q, ArgMax(q, Diff));
  }

  /** Re-ordering an ordered quadrilateral always keeps its top-left corner. */
  lemma OrderPointsKeepsTopLeft(q: Quad)
    ensures OrderPoints(OrderPoints(q)).p0 == OrderPoints(q).p0
  {
    var r := OrderPoints(q);
    OrderPointsFromInput(q);
    var i0 := ArgMin(q, Sum);
    assert r.p0 == Corner(q, i0);
    forall j | 0 <= j < 4
      ensures Key(Sum, Corner(r, 0)) <= Key(Sum, Corner(r, j))
    {
      assert IsRowOf(Corner(r, j), q);
      var a :| 0 <= a < 4 && Corner(q, a) == Corner(r, j);
      assert Key(Sum, Corner(q, i0)) <= Key(Sum, Corner(q, a));
    }
    assert FirstMinAt(r, Sum, 0);
    FirstMinUnique(r, Sum, 0, ArgMin(r, Sum));
  }

  /**
   When `q` has no two rows with the same key, a point that is extreme in `q`
   is the only one of its key, so any selection `r` of `q`'s rows sends
   `argmin` back to it.
   */
  lemma ExtremeMinStays(q: Quad, r: Quad, kind: KeyKind, k: int)
    requires DistinctKeys(q, kind)
    requires 0 <= k < 4
    requires forall j :: 0 <= j < 4 ==> IsRowOf(Corner(r, j), q)
    requires forall j :: 0 <= j < 4 ==> Key(kind, Corner(r, k)) <= Key(kind, Corner(q, j))
    ensures Corner(r, ArgMin(r, kind)) == Corner(r, k)
  {
    forall j | 0 <= j < 4
      ensures Key(kind, Corner(r, k)) <= Key(kind, Corner(r, j))
      ensures Key(kind, Corner(r, j)) == Key(kind, Corner(r, k)) ==> Corner(r, j) == Corner(r, k)
    {
      assert IsRowOf(Corner(r, j), q) && IsRowOf(Corner(r, k), q);
      var a :| 0 <= a < 4 && Corner(q, a) == Corner(r, j);
      var b :| 0 <= b < 4 && Corner(q, b) == Corner(r, k);
    }
    ArgMinPicks(r, kind, k);
  }

  /** The `argmax` counterpart of `ExtremeMinStays`. */
  lemma ExtremeMaxStays(q: Quad, r: Quad, kind: KeyKind, k: int)
    requires DistinctKeys(q, kind)
    requires 0 <= k < 4
    requires forall j :: 0 <= j < 4 ==> IsRowOf(Corner(r, j), q)
    requires forall j :: 0 <= j < 4 ==> Key(kind, Corner(q, j)) <= Key(kind, Corner(r, k))
    ensures Corner(r, ArgMax(r, kind)) == Corner(r, k)
  {
    forall j | 0 <= j < 4
      ensures Key(kind, Corner(r, j)) <= Key(kind, Corner(r, k))
      ensures Key(kind, Corner(r, j)) == Key(kind, Corner(r, k)) ==> Corner(r, j) == Corner(r, k)
    {
      assert IsRowOf(Corner(r, j), q) && IsRowOf(Corner(r, k), q);
      var a :| 0 <= a < 4 && Corner(q, a) == Corner(r, j);
      var b :| 0 <= b < 4 && Corner(q, b) == Corner(r, k);
    }
    ArgMaxPicks(r, kind, k);
  }

  /** With pairwise-distinct sums and pairwise-distinct differences, `order_points` is idempotent. */
  lemma OrderPointsIdempotent(q: Quad)
    requires DistinctKeys(q, Sum) && DistinctKeys(q, Diff)
    ensures OrderPoints(OrderPoints(q)) == OrderPoints(q)
  {
    var r := OrderPoints(q);
    OrderPointsFromInput(q);
    OrderPointsKeepsTopLeft(q);
    assert Corner(r, 1) == Corner(q, ArgMin(q, Diff));
    assert Corner(r, 2) == Corner(q, ArgMax(q, Sum));
    assert Corner(r, 3) == Corner(q, ArgMax(q, Diff));
    ExtremeMinStays(q, r, Diff, 1);
    ExtremeMaxStays(q, r, Sum, 2);
    ExtremeMaxStays(q, r, Diff, 3);
  }

  /**
   Three of (1,1), (0,0), (0,5), (5,5) tie for least difference and (1,1)
   comes first, so it is labelled top-right.
   */
  lemma TiedDifferencesLabel(q: Quad)
    requires q == Quad(Point(1, 1), Point(0, 0), Point(0, 5), Point(5, 5))
    ensures OrderPoints(q) == Quad(Point(0, 0), Point(1, 1), Point(5, 5), Point(0, 5))
  {
    assert FirstMinAt(q, Sum, 1);
    FirstMinUnique(q, Sum, 1, ArgMin(q, Sum));
    assert FirstMinAt(q, Diff, 0);
    FirstMinUnique(q, Diff, 0, ArgMin(q, Diff));
    assert FirstMaxAt(q, Sum, 3);
    FirstMaxUnique(q, Sum, 3, ArgMax(q, Sum));
    assert FirstMaxAt(q, Diff, 2);
    FirstMaxUnique(q, Diff, 2, ArgMax(q, Diff));
  }

  /** In the labelled output (0,0) now comes first among the tied differences. */
  lemma TiedDifferencesRelabel(r: Quad)
    requires r == Quad(Point(0, 0), Point(1, 1), Point(5, 5), Point(0, 5))
    ensures OrderPoints(r).p1 == Point(0, 0)
  {
    assert FirstMinAt(r, Diff, 0);
    FirstMinUnique(r, Diff, 0, ArgMin(r, Diff));
  }

  /** Without distinct keys, ordering an ordered quadrilateral again can change it. */
  lemma OrderPointsNotIdempotent(q: Quad)
    requires q == Quad(Point(1, 1), Point(0, 0), Point(0, 5), Point(5, 5))
    ensures OrderPoints(OrderPoints(q)) != OrderPoints(q)
  {
    TiedDifferencesLabel(q);
    TiedDifferencesRelabel(OrderPoints(q));
  }

  /**
   A rhombus with diagonals 294 (across) and 300 (down), whose top and
   bottom angles are below 90 degrees. Both edges at the top point fall more
   steeply than 45 degrees, so the top point has both the least sum and the
   least difference; likewise the bottom point has both greatest keys. The
   labelling repeats each of them.
   */
  lemma AcuteRhombusLabels()
    ensures OrderPoints(Quad(Point(150, 0), Point(297, 150), Point(150, 300), Point(3, 150)))
         == Quad(Point(150, 0), Point(150, 0), Point(150, 300), Point(150, 300))
  {
    var q := Quad(Point(150, 0), Point(297, 150), Point(150, 300), Point(3, 150));
    assert FirstMinAt(q, Sum, 0);
    FirstMinUnique(q, Sum, 0, ArgMin(q, Sum));
    assert FirstMinAt(q, Diff, 0);
    FirstMinUnique(q, Diff, 0, ArgMin(q, Diff));
    assert FirstMaxAt(q, Sum, 2);
    FirstMaxUnique(q, Sum, 2, ArgMax(q, Sum));
    assert FirstMaxAt(q, Diff, 2);
    FirstMaxUnique(q, Diff, 2, ArgMax(q, Diff));
  }

  /**
   A square turned by 45 degrees has right angles at its top and bottom, so
   the labelling repeats only the top point: the right and bottom points tie
   for greatest sum and the right one comes first.
   */
  lemma TurnedSquareLabels(q: Quad)
    requires q == Quad(Point(150, 0), Point(300, 150), Point(150, 300), Point(0, 150))
    ensures OrderPoints(q) == Quad(Point(150, 0), Point(150, 0), Point(300, 150), Point(150, 300))
  {
    assert FirstMinAt(q, Sum, 0);
    FirstMinUnique(q, Sum, 0, ArgMin(q, Sum));
    assert FirstMinAt(q, Diff, 0);
    FirstMinUnique(q, Diff, 0, ArgMin(q, Diff));
    assert FirstMaxAt(q, Sum, 1);
    FirstMaxUnique(q, Sum, 1, ArgMax(q, Sum));
    assert FirstMaxAt(q, Diff, 2);
    FirstMaxUnique(q, Diff, 2, ArgMax(q, Diff));
  }

  /** Two first-extreme indices over the same point set, under injective keys, name the same point. */
  lemma SameExtreme(q: Quad, q': Quad, kind: KeyKind, least: bool, i: int, m: int)
    requires DistinctKeys(q, kind)
    requires forall j :: 0 <= j < 4 ==> IsRowOf(Corner(q', j), q)
    requires forall j :: 0 <= j < 4 ==> IsRowOf(Corner(q, j), q')
    requires least ==> FirstMinAt(q, kind, i) && FirstMinAt(q', kind, m)
    requires !least ==> FirstMaxAt(q, kind, i) && FirstMaxAt(q', kind, m)
    ensures Corner(q', m) == Corner(q, i)
  {
    assert IsRowOf(Corner(q', m), q) && IsRowOf(Corner(q, i), q');
    var a :| 0 <= a < 4 && Corner(q, a) == Corner(q', m);
    var b :| 0 <= b < 4 && Corner(q', b) == Corner(q, i);
    if least {
      assert Key(kind, Corner(q, i)) <= Key(kind, Corner(q, a));
      assert Key(kind, Corner(q', m)) <= Key(kind, Corner(q', b));
    } else {
      assert Key(kind, Corner(q, a)) <= Key(kind, Corner(q, i));
      assert Key(kind, Corner(q', b)) <= Key(kind, Corner(q', m));
    }
  }

  /** Sharing a multiset of points means sharing rows. */
  lemma SamePointsSameRows(q: Quad, q': Quad)
    requires Points(q') == Points(q)
    ensures forall j :: 0 <= j < 4 ==> IsRowOf(Corner(q', j), q)
  {
    forall j | 0 <= j < 4 ensures IsRowOf(Corner(q', j), q) {
      var p := Corner(q', j);
      assert p in Points(q');
      if p == q.p0 { assert Corner(q, 0) == p; }
      else if p == q.p1 { assert Corner(q, 1) == p; }
      else if p == q.p2 { assert Corner(q, 2) == p; }
      else { assert Corner(q, 3) == p; }
    }
  }

  /**
   With distinct sums and distinct differences the labelling depends only on
   the point set: permuting the input rows does not change the output.
   */
  lemma OrderPointsPermutationInvariant(q: Quad, q': Quad)
    requires Points(q') == Points(q)
    requires DistinctKeys(q, Sum) && DistinctKeys(q, Diff)
    ensures OrderPoints(q') == OrderPoints(q)
  {
    SamePointsSameRows(q, q');
    SamePointsSameRows(q', q);
    SameExtreme(q, q', Sum, true, ArgMin(q, Sum), ArgMin(q', Sum));
    SameExtreme(q, q', Diff, true, ArgMin(q, Diff), ArgMin(q', Diff));
    SameExtreme(q, q', Sum, false, ArgMax(q, Sum), ArgMax(q', Sum));
    SameExtreme(q, q', Diff, false, ArgMax(q, Diff), ArgMax(q', Diff));
  }

  /**
   `q` lists an axis-aligned rectangle as (left, top), (right, top),
   (right, bottom), (left, bottom), with left <= right and top <= bottom;
   zero-width or zero-height rectangles included.
   */
  ghost predicate IsUprightRect(q: Quad) {
    && q.p0.y == q.p1.y && q.p1.x == q.p2.x && q.p2.y == q.p3.y && q.p3.x == q.p0.x
    && q.p0.x <= q.p1.x && q.p0.y <= q.p3.y
  }

  /** An upright rectangle listed in that order is already in canonical order. */
  lemma RectIsCanonical(q: Quad)
    requires IsUprightRect(q)
    ensures OrderPoints(q) == q
  {
    ArgMinPicks(q, Sum, 0);
    ArgMinPicks(q, Diff, 1);
    ArgMaxPicks(q, Sum, 2);
    ArgMaxPicks(q, Diff, 3);
  }

  /**
   Listed out of boundary order, a rectangle can collapse completely: the
   45-degree square given as top, bottom, right, left has its top point tie
   for least sum and least difference and its bottom point tie for greatest
   sum and greatest difference, and the point listed first wins each tie.
   */
  lemma ShuffledSquareLabels(q: Quad)
    requires q == Quad(Point(150, 0), Point(150, 300), Point(300, 150), Point(0, 150))
    ensures OrderPoints(q) == Quad(Point(150, 0), Point(150, 0), Point(150, 300), Point(150, 300))
  {
    assert FirstMinAt(q, Sum, 0);
    FirstMinUnique(q, Sum, 0, ArgMin(q, Sum));
    assert FirstMinAt(q, Diff, 0);
    FirstMinUnique(q, Diff, 0, ArgMin(q, Diff));
    assert FirstMaxAt(q, Sum, 1);
    FirstMaxUnique(q, Sum, 1, ArgMax(q, Sum));
    assert FirstMaxAt(q, Diff, 1);
    FirstMaxUnique(q, Diff, 1, ArgMax(q, Diff));
  }

  /**
   Collapse does not need acute angles: this kite has a right angle at its
   top, yet its top point ties for least sum and least difference, wins both
   ties by coming first, and its bottom point holds both greatest keys.
   */
  lemma RightAngledKiteLabels(q: Quad)
    requires q == Quad(Point(150, 0), Point(300, 150), Point(150, 400), Point(0, 150))
    ensures OrderPoints(q) == Quad(Point(150, 0), Point(150, 0), Point(150, 400), Point(150, 400))
  {
    assert FirstMinAt(q, Sum, 0);
    FirstMinUnique(q, Sum, 0, ArgMin(q, Sum));
    assert FirstMinAt(q, Diff, 0);
    FirstMinUnique(q, Diff, 0, ArgMin(q, Diff));
    assert FirstMaxAt(q, Sum, 2);
    FirstMaxUnique(q, Sum, 2, ArgMax(q, Sum));
    assert FirstMaxAt(q, Diff, 2);
    FirstMaxUnique(q, Diff, 2, ArgMax(q, Diff));
  }
}
