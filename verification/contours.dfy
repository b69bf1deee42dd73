/**
 Contour ranking and selection in `detect_document_edges`. A traced contour
 is known to the model only through what the selection reads: its area as
 `cv2.contourArea` reports it, and its polygon approximation as
 `cv2.approxPolyDP` returns it. Both are library results taken as inputs.
 */
module Contours {
  import opened Wrappers
  import opened Ordering

  /** One traced contour: its enclosed area and its approximating polygon. */
  datatype Candidate = Candidate(area: real, approx: seq<Point>)

  /** The absolute area a contour must exceed to be taken for the page. */
  const MinDocumentArea: real := 10000.0

  /** A contour is the page when its approximation is a quadrilateral and it is large enough. */
  predicate Qualifies(c: Candidate) {
    |c.approx| == 4 && c.area > MinDocumentArea
  }

  ghost predicate SortedByAreaDesc(s: seq<Candidate>) {
    forall i, j :: 0 <= i < j < |s| ==> s[j].area <= s[i].area
  }

  /** Puts `c` in front of the first element of `s` whose area does not exceed its own. */
  function InsertByArea(c: Candidate, s: seq<Candidate>): (r: seq<Candidate>)
    requires SortedByAreaDesc(s)
    ensures SortedByAreaDesc(r)
    ensures multiset(r) == multiset(s) + multiset{c}
    decreases |s|
  {
    if |s| == 0 then [c]
    else if s[0].area <= c.area then [c] + s
    else
      var t := InsertByArea(c, s[1..]);
      assert s == [s[0]] + s[1..];
      BoundedByHead(s, c, t);
      [s[0]] + t
  }

  /** Every element of a permutation of `s[1..]` plus a smaller `c` is bounded by `s[0]`. */
  lemma BoundedByHead(s: seq<Candidate>, c: Candidate, t: seq<Candidate>)
    requires |s| > 0 && SortedByAreaDesc(s) && c.area < s[0].area
    requires multiset(t) == multiset(s[1..]) + multiset{c}
    ensures forall k :: 0 <= k < |t| ==> t[k].area <= s[0].area
  {
    forall k | 0 <= k < |t|
      ensures t[k].area <= s[0].area
    {
      assert t[k] in multiset(t);
      if t[k] != c {
        assert t[k] in multiset(s[1..]);
        var m :| 0 <= m < |s[1..]| && s[1..][m] == t[k];
        assert s[m + 1] == t[k];
      }
    }
  }

  /**
   `sorted(contours, key=cv2.contourArea, reverse=True)`: an insertion sort
   that keeps contours of equal area in their original order.
   */
  function SortByArea(s: seq<Candidate>): (r: seq<Candidate>)
    ensures SortedByAreaDesc(r)
    ensures multiset(r) == multiset(s)
    decreases |s|
  {
    if |s| == 0 then []
    else
      assert s == [s[0]] + s[1..];
      InsertByArea(s[0], SortByArea(s[1..]))
  }

  /**
   The `for`/`break` loop: the index of the first candidate that qualifies,
   or `None` when the loop runs to the end and `document_contour` stays `None`.
   */
  function FirstQualifying(cs: seq<Candidate>): (r: Option<nat>)
    ensures r.Some? ==> r.value < |cs| && Qualifies(cs[r.value])
    ensures r.Some? ==> forall j :: 0 <= j < r.value ==> !Qualifies(cs[j])
    ensures r.None? <==> forall j :: 0 <= j < |cs| ==> !Qualifies(cs[j])
    decreases |cs|
  {
    if |cs| == 0 then None
    else if Qualifies(cs[0]) then Some(0)
    else
      match FirstQualifying(cs[1..])
      case None => None
      case Some(i) => Some(i + 1)
  }

  /** In a descending list, no qualifying candidate outranks the first qualifying one. */
  lemma FirstQualifyingBound(sorted: seq<Candidate>, i: nat, k: int)
    requires SortedByAreaDesc(sorted) && FirstQualifying(sorted) == Some(i)
    requires 0 <= k < |sorted| && Qualifies(sorted[k])
    ensures sorted[k].area <= sorted[i].area
  {
    assert i <= k;
    if i < k {
      assert sorted[k].area <= sorted[i].area;
    }
  }

  /**
   Walking the contours in descending area, the first qualifying one is a
   largest qualifying contour of the original list.
   */
  lemma FirstQualifyingIsLargest(contours: seq<Candidate>, i: nat)
    requires FirstQualifying(SortByArea(contours)) == Some(i)
    ensures var chosen := SortByArea(contours)[i];
      chosen in contours &&
      forall d :: d in contours && Qualifies(d) ==> d.area <= chosen.area
  {
    var sorted := SortByArea(contours);
    assert sorted[i] in multiset(sorted);
    forall d | d in contours && Qualifies(d)
      ensures d.area <= sorted[i].area
    {
      assert d in multiset(contours);
      var k :| 0 <= k < |sorted| && sorted[k] == d;
      FirstQualifyingBound(sorted, i, k);
    }
  }

  /**
   The contour the selection means to take, stated without sorting: the
   lowest index among the qualifying contours of greatest area.
   */
  function BestIndex(s: seq<Candidate>): (r: Option<nat>)
    ensures r.Some? ==> r.value < |s| && Qualifies(s[r.value])
    ensures r.Some? ==> forall j :: 0 <= j < |s| && Qualifies(s[j]) ==> s[j].area <= s[r.value].area
    ensures r.Some? ==> forall j :: 0 <= j < r.value && Qualifies(s[j]) ==> s[j].area < s[r.value].area
    ensures r.None? <==> forall j :: 0 <= j < |s| ==> !Qualifies(s[j])
    decreases |s|
  {
    if |s| == 0 then None
    else
      var b := BestIndex(s[1..]);
      if Qualifies(s[0]) && (b.None? || s[1..][b.value].area <= s[0].area) then Some(0)
      else if b.None? then None
      else Some(b.value + 1)
  }

  /** `c` against the best of the rest: `c` wins when it qualifies and is at least as large. */
  function Prefer(c: Candidate, b: Option<Candidate>): Option<Candidate> {
    if Qualifies(c) && (b.None? || b.value.area <= c.area) then Some(c) else b
  }

  /** The candidate `BestIndex` picks. */
  function BestOf(s: seq<Candidate>): Option<Candidate> {
    match BestIndex(s)
    case None => None
    case Some(i) => Some(s[i])
  }

  /** The first qualifying candidate of a list. */
  function FirstQualifyingOf(cs: seq<Candidate>): (r: Option<Candidate>)
    ensures r.Some? ==> r.value in cs && Qualifies(r.value)
    decreases |cs|
  {
    if |cs| == 0 then None
    else if Qualifies(cs[0]) then Some(cs[0])
    else FirstQualifyingOf(cs[1..])
  }

  /** `FirstQualifyingOf` is the candidate at `FirstQualifying`'s index. */
  lemma {:induction false} FirstQualifyingOfIndex(cs: seq<Candidate>)
    ensures FirstQualifying(cs).None? ==> FirstQualifyingOf(cs).None?
    ensures FirstQualifying(cs).Some? ==> FirstQualifyingOf(cs) == Some(cs[FirstQualifying(cs).value])
    decreases |cs|
  {
    if |cs| > 0 && !Qualifies(cs[0]) {
      FirstQualifyingOfIndex(cs[1..]);
    }
  }

  /** `BestOf` compares the head with the best of the tail, the head winning ties. */
  lemma BestOfStep(s: seq<Candidate>)
    requires |s| > 0
    ensures BestOf(s) == Prefer(s[0], BestOf(s[1..]))
  {
  }

  /** In a descending list every candidate is at most as large as the head. */
  lemma HeadIsLargest(t: seq<Candidate>, d: Candidate)
    requires SortedByAreaDesc(t) && d in t
    ensures d.area <= t[0].area
  {
    var k :| 0 <= k < |t| && t[k] == d;
    if k > 0 {
      assert t[k].area <= t[0].area;
    }
  }

  /** The first qualifying candidate of `[c] + t`. */
  lemma FirstQualifyingOfCons(c: Candidate, t: seq<Candidate>)
    ensures FirstQualifyingOf([c] + t) == if Qualifies(c) then Some(c) else FirstQualifyingOf(t)
  {
    assert ([c] + t)[0] == c && ([c] + t)[1..] == t;
  }

  /**
   Inserting `c` into a descending list puts it ahead of every candidate of
   no larger area, so the first qualifying candidate afterwards is `c` when
   it qualifies and is at least as large as the previous one.
   */
  lemma {:induction false} InsertPrefers(c: Candidate, t: seq<Candidate>)
    requires SortedByAreaDesc(t)
    ensures FirstQualifyingOf(InsertByArea(c, t)) == Prefer(c, FirstQualifyingOf(t))
    decreases |t|
  {
    if |t| == 0 {
      FirstQualifyingOfCons(c, t);
    } else if t[0].area <= c.area {
      FirstQualifyingOfCons(c, t);
      var f := FirstQualifyingOf(t);
      if f.Some? {
        HeadIsLargest(t, f.value);
      }
    } else {
      assert t == [t[0]] + t[1..];
      FirstQualifyingOfCons(t[0], t[1..]);
      FirstQualifyingOfCons(t[0], InsertByArea(c, t[1..]));
      if !Qualifies(t[0]) {
        assert SortedByAreaDesc(t[1..]) by {
          forall a, b | 0 <= a < b < |t[1..]| ensures t[1..][b].area <= t[1..][a].area {
            assert t[1..][a] == t[a + 1] && t[1..][b] == t[b + 1];
          }
        }
        InsertPrefers(c, t[1..]);
      }
    }
  }

  /**
   Ranking by area with a stable sort and taking the first qualifying
   contour selects exactly `BestOf`: a largest qualifying contour, and among
   those of equal area the one traced first.
   */
  lemma {:induction false} RankedFirstIsBest(s: seq<Candidate>)
    ensures FirstQualifyingOf(SortByArea(s)) == BestOf(s)
    decreases |s|
  {
    if |s| > 0 {
      RankedFirstIsBest(s[1..]);
      InsertPrefers(s[0], SortByArea(s[1..]));
      BestOfStep(s);
    }
  }

  /** The ranked loop's choice is the contour at `BestIndex`. */
  lemma RankedChoiceIsBest(contours: seq<Candidate>, i: nat)
    requires FirstQualifying(SortByArea(contours)) == Some(i)
    ensures BestIndex(contours).Some?
    ensures SortByArea(contours)[i] == contours[BestIndex(contours).value]
  {
    FirstQualifyingOfIndex(SortByArea(contours));
    RankedFirstIsBest(contours);
  }
}
