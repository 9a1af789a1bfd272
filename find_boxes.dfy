/**
 * The box finder after contour extraction: contour rectangles (x, y, w, h)
 * in contour order are turned into corner boxes, filtered by size, then
 * optionally de-nested and then optionally merged.
 */
module FindBoxes {
  import opened Wrappers
  import opened SeqSet
  import opened Geometry
  import opened NestedFilter
  import opened Merge

  /** A bounding rectangle as the contour collaborator reports it: origin, width, height. */
  datatype Rect = Rect(x: int, y: int, w: int, h: int)

  /** The corner form (x, y, x + w, y + h). */
  function ToBox(r: Rect): (b: Box)
    ensures b.x1 == r.x && b.y1 == r.y && b.x2 - b.x1 == r.w && b.y2 - b.y1 == r.h
    ensures WellFormed(b) <==> r.w >= 0 && r.h >= 0
  {
    Box(r.x, r.y, r.x + r.w, r.y + r.h)
  }

  /** `minSize <= v <= maxSize`, where an absent upper bound is unbounded. */
  predicate InRange(v: int, minSize: int, maxSize: Option<int>) {
    minSize <= v && (maxSize.None? || v <= maxSize.value)
  }

  /** Both the width and the height are within the size bounds. */
  predicate Fits(r: Rect, minSize: int, maxSize: Option<int>) {
    InRange(r.w, minSize, maxSize) && InRange(r.h, minSize, maxSize)
  }

  /** The corner boxes of the fitting rectangles among the first k, in contour order. */
  function SizeFiltered(rects: seq<Rect>, minSize: int, maxSize: Option<int>, k: nat): seq<Box>
    requires k <= |rects|
  {
    if k == 0 then []
    else SizeFiltered(rects, minSize, maxSize, k - 1)
         + (if Fits(rects[k - 1], minSize, maxSize) then [ToBox(rects[k - 1])] else [])
  }

  /** The indices among the first k of the fitting rectangles, increasing. */
  function FitIndices(rects: seq<Rect>, minSize: int, maxSize: Option<int>, k: nat): seq<nat>
    requires k <= |rects|
  {
    if k == 0 then []
    else FitIndices(rects, minSize, maxSize, k - 1) + (if Fits(rects[k - 1], minSize, maxSize) then [k - 1] else [])
  }

  lemma {:induction false} FitIndicesMembers(rects: seq<Rect>, minSize: int, maxSize: Option<int>, k: nat)
    requires k <= |rects|
    ensures forall t :: 0 <= t < |FitIndices(rects, minSize, maxSize, k)| ==> FitIndices(rects, minSize, maxSize, k)[t] < k
    ensures forall i :: 0 <= i < k ==> (i in FitIndices(rects, minSize, maxSize, k) <==> Fits(rects[i], minSize, maxSize))
  {
    if k > 0 {
      FitIndicesMembers(rects, minSize, maxSize, k - 1);
    }
  }

  /** `out` lists, in increasing index order, the corner boxes of the rectangles at `idx`. */
  ghost predicate SelectsRects(out: seq<Box>, rects: seq<Rect>, idx: seq<nat>) {
    && |out| == |idx|
    && (forall t :: 0 <= t < |idx| ==> idx[t] < |rects| && out[t] == ToBox(rects[idx[t]]))
    && (forall t, u :: 0 <= t < u < |idx| ==> idx[t] < idx[u])
  }

  lemma {:induction false} SizeFilteredSelects(rects: seq<Rect>, minSize: int, maxSize: Option<int>, k: nat)
    requires k <= |rects|
    ensures SelectsRects(SizeFiltered(rects, minSize, maxSize, k), rects, FitIndices(rects, minSize, maxSize, k))
  {
    if k > 0 {
      SizeFilteredSelects(rects, minSize, maxSize, k - 1);
      FitIndicesMembers(rects, minSize, maxSize, k - 1);
      var out0, idx0 := SizeFiltered(rects, minSize, maxSize, k - 1), FitIndices(rects, minSize, maxSize, k - 1);
      if Fits(rects[k - 1], minSize, maxSize) {
        var out, idx := out0 + [ToBox(rects[k - 1])], idx0 + [k - 1];
        assert SizeFiltered(rects, minSize, maxSize, k) == out && FitIndices(rects, minSize, maxSize, k) == idx;
        forall t | 0 <= t < |idx| ensures idx[t] < |rects| && out[t] == ToBox(rects[idx[t]]) {
          if t < |idx0| {
            assert idx[t] == idx0[t] && out[t] == out0[t];
          }
        }
        forall t, u | 0 <= t < u < |idx| ensures idx[t] < idx[u] {
          assert idx[t] == idx0[t];
          if u < |idx0| {
            assert idx[u] == idx0[u];
          }
        }
      } else {
        assert SizeFiltered(rects, minSize, maxSize, k) == out0 && FitIndices(rects, minSize, maxSize, k) == idx0;
      }
    }
  }

  /**
   * The filter keeps, in contour order, the corner box of rectangle i
   * exactly when its width and its height are within the bounds.
   */
  lemma SizeFilterKeepsExactly(rects: seq<Rect>, minSize: int, maxSize: Option<int>)
    ensures SelectsRects(SizeFiltered(rects, minSize, maxSize, |rects|), rects, FitIndices(rects, minSize, maxSize, |rects|))
    ensures forall i :: 0 <= i < |rects| ==>
      (i in FitIndices(rects, minSize, maxSize, |rects|) <==>
        (minSize <= rects[i].w && minSize <= rects[i].h &&
         (maxSize.Some? ==> rects[i].w <= maxSize.value && rects[i].h <= maxSize.value)))
  {
    SizeFilteredSelects(rects, minSize, maxSize, |rects|);
    FitIndicesMembers(rects, minSize, maxSize, |rects|);
  }

  /** With a non-negative lower bound every kept box is well-formed. */
  lemma {:induction false} SizeFilteredWellFormed(rects: seq<Rect>, minSize: int, maxSize: Option<int>, k: nat)
    requires k <= |rects| && minSize >= 0
    ensures forall b :: b in SizeFiltered(rects, minSize, maxSize, k) ==> WellFormed(b)
  {
    if k > 0 {
      SizeFilteredWellFormed(rects, minSize, maxSize, k - 1);
    }
  }

  /** Every box the nested filter keeps comes from its input. */
  lemma RemoveNestedFrom(boxes: seq<Box>)
    ensures forall b :: b in RemoveNested(boxes) ==> b in boxes
  {
    RemoveNestedSelects(boxes);
  }

  /** The list handed to the merge stage: the size-filtered boxes, de-nested if asked. */
  ghost function BeforeMerge(rects: seq<Rect>, minSize: int, maxSize: Option<int>, removeNested: bool): seq<Box> {
    var kept := SizeFiltered(rects, minSize, maxSize, |rects|);
    if removeNested then RemoveNested(kept) else kept
  }

  /** The size filter loop over the contour rectangles. */
  method FilterBySize(rects: seq<Rect>, minSize: int, maxSize: Option<int>) returns (boxes: seq<Box>)
    ensures boxes == SizeFiltered(rects, minSize, maxSize, |rects|)
  {
    boxes := [];
    for k := 0 to |rects|
      invariant boxes == SizeFiltered(rects, minSize, maxSize, k)
    {
      var r := rects[k];
      if minSize <= r.w && (maxSize.None? || r.w <= maxSize.value) && minSize <= r.h && (maxSize.None? || r.h <= maxSize.value) {
        boxes := boxes + [Box(r.x, r.y, r.x + r.w, r.y + r.h)];
      }
    }
  }

  /**
   * The stages in order: size filter, then nested removal if asked, then
   * merging if asked. With a non-negative lower bound the boxes returned
   * are well-formed.
   */
  method FindBoxes(rects: seq<Rect>, minSize: int, maxSize: Option<int>, removeNested: bool, mergeOverlapping: bool)
    returns (boxes: seq<Box>)
    ensures !mergeOverlapping ==> boxes == BeforeMerge(rects, minSize, maxSize, removeNested)
    ensures mergeOverlapping ==> exists gens :: IsMergeRun(BeforeMerge(rects, minSize, maxSize, removeNested), gens, boxes)
    ensures minSize >= 0 ==> forall b :: b in boxes ==> WellFormed(b)
  {
    boxes := FilterBySize(rects, minSize, maxSize);
    if minSize >= 0 {
      SizeFilteredWellFormed(rects, minSize, maxSize, |rects|);
    }
    if removeNested {
      RemoveNestedFrom(boxes);
      boxes := RemoveNestedBoxes(boxes);
    }
    if mergeOverlapping {
      ghost var before := boxes;
      assert before == BeforeMerge(rects, minSize, maxSize, removeNested);
      ghost var gens;
      boxes, gens := MergeOverlappingBoxes(boxes);
      MergeRunProperties(before, gens, boxes);
      assert IsMergeRun(BeforeMerge(rects, minSize, maxSize, removeNested), gens, boxes);
    }
  }
}
