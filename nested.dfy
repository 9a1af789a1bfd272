/**
 * The nested-box filter: a box is dropped when the box at some OTHER index
 * contains it. Identity is by index, so equal boxes at two indices drop each other.
 */
module NestedFilter {
  import opened Geometry

  /** The box at index `i` is contained in the box at some other index. */
  ghost predicate Nested(boxes: seq<Box>, i: int)
    requires 0 <= i < |boxes|
  {
    exists j :: 0 <= j < |boxes| && j != i && IsContained(boxes[i], boxes[j])
  }

  /** The boxes of the first `k` indices that survive the filter, in input order. */
  ghost function Kept(boxes: seq<Box>, k: nat): seq<Box>
    requires k <= |boxes|
  {
    if k == 0 then []
    else Kept(boxes, k - 1) + (if Nested(boxes, k - 1) then [] else [boxes[k - 1]])
  }

  /** The indices among the first `k` whose boxes survive, in increasing order. */
  ghost function KeptIndices(boxes: seq<Box>, k: nat): seq<nat>
    requires k <= |boxes|
  {
    if k == 0 then []
    else KeptIndices(boxes, k - 1) + (if Nested(boxes, k - 1) then [] else [k - 1])
  }

  /** The result of the filter on the whole list. */
  ghost function RemoveNested(boxes: seq<Box>): seq<Box> {
    Kept(boxes, |boxes|)
  }

  /** `idx` lists increasing indices of `src` whose boxes, in that order, make up `out`. */
  ghost predicate Selects(out: seq<Box>, src: seq<Box>, idx: seq<nat>) {
    && |out| == |idx|
    && (forall t :: 0 <= t < |idx| ==> idx[t] < |src| && out[t] == src[idx[t]])
    && (forall t, u :: 0 <= t < u < |idx| ==> idx[t] < idx[u])
  }

  lemma {:induction false} KeptIndicesMembers(boxes: seq<Box>, k: nat)
    requires k <= |boxes|
    ensures forall t :: 0 <= t < |KeptIndices(boxes, k)| ==> KeptIndices(boxes, k)[t] < k
    ensures forall i :: 0 <= i < k ==> (i in KeptIndices(boxes, k) <==> !Nested(boxes, i))
  {
    if k > 0 {
      KeptIndicesMembers(boxes, k - 1);
    }
  }

  lemma {:induction false} KeptSelects(boxes: seq<Box>, k: nat)
    requires k <= |boxes|
    ensures Selects(Kept(boxes, k), boxes, KeptIndices(boxes, k))
  {
    if k > 0 {
      KeptSelects(boxes, k - 1);
      KeptIndicesMembers(boxes, k - 1);
      var out0, idx0 := Kept(boxes, k - 1), KeptIndices(boxes, k - 1);
      if !Nested(boxes, k - 1) {
        var out, idx := out0 + [boxes[k - 1]], idx0 + [k - 1];
        assert Kept(boxes, k) == out && KeptIndices(boxes, k) == idx;
        forall t | 0 <= t < |idx| ensures idx[t] < |boxes| && out[t] == boxes[idx[t]] {
          if t < |idx0| {
            assert idx[t] == idx0[t] && out[t] == out0[t];
          }
        }
        forall t, u | 0 <= t < u < |idx| ensures idx[t] < idx[u] {
          assert idx[t] == idx0[t];
          if u < |idx0| {
            assert idx[u] == idx0[u];
          }
        }
      } else {
        assert Kept(boxes, k) == out0 && KeptIndices(boxes, k) == idx0;
      }
    }
  }

  /**
   * The filter keeps exactly the boxes at indices that no other index
   * contains, in input order: the output is a subsequence of the input.
   */
  lemma RemoveNestedSelects(boxes: seq<Box>)
    ensures Selects(RemoveNested(boxes), boxes, KeptIndices(boxes, |boxes|))
    ensures forall i :: 0 <= i < |boxes| ==>
      (i in KeptIndices(boxes, |boxes|) <==> !exists j :: 0 <= j < |boxes| && j != i && IsContained(boxes[i], boxes[j]))
  {
    KeptSelects(boxes, |boxes|);
    KeptIndicesMembers(boxes, |boxes|);
  }

  lemma RemoveNestedEmpty()
    ensures RemoveNested([]) == []
  {
  }

  /** A box value that occurs at two indices does not survive at all. */
  lemma DuplicatesRemoved(boxes: seq<Box>, i: nat, j: nat)
    requires i < |boxes| && j < |boxes| && i != j && boxes[i] == boxes[j]
    ensures boxes[i] !in RemoveNested(boxes)
  {
    var out, idx := RemoveNested(boxes), KeptIndices(boxes, |boxes|);
    RemoveNestedSelects(boxes);
    forall t | 0 <= t < |out|
      ensures out[t] != boxes[i]
    {
      var k := idx[t];
      assert k in idx;
      if out[t] == boxes[i] {
        var other := if k == i then j else i;
        assert IsContained(boxes[k], boxes[other]);
      }
    }
  }

  /** No box of the output contains the box at another output index. */
  lemma NoNestingInOutput(boxes: seq<Box>)
    ensures forall p, q :: 0 <= p < |RemoveNested(boxes)| && 0 <= q < |RemoveNested(boxes)| && p != q ==>
      !IsContained(RemoveNested(boxes)[p], RemoveNested(boxes)[q])
  {
    var out, idx := RemoveNested(boxes), KeptIndices(boxes, |boxes|);
    RemoveNestedSelects(boxes);
    forall p, q | 0 <= p < |out| && 0 <= q < |out| && p != q
      ensures !IsContained(out[p], out[q])
    {
      assert idx[p] != idx[q] by {
        if p < q { assert idx[p] < idx[q]; } else { assert idx[q] < idx[p]; }
      }
      assert idx[p] in idx;
      assert !Nested(boxes, idx[p]);
    }
  }

  /** On a list in which no index contains another, the filter keeps every prefix. */
  lemma {:induction false} KeptOfUnnested(boxes: seq<Box>, k: nat)
    requires k <= |boxes|
    requires forall p, q :: 0 <= p < |boxes| && 0 <= q < |boxes| && p != q ==> !IsContained(boxes[p], boxes[q])
    ensures Kept(boxes, k) == boxes[..k]
  {
    if k > 0 {
      KeptOfUnnested(boxes, k - 1);
      assert !Nested(boxes, k - 1);
      assert boxes[..k] == boxes[..k - 1] + [boxes[k - 1]];
    }
  }

  /** Filtering a second time changes nothing. */
  lemma RemoveNestedIdempotent(boxes: seq<Box>)
    ensures RemoveNested(RemoveNested(boxes)) == RemoveNested(boxes)
  {
    var out := RemoveNested(boxes);
    NoNestingInOutput(boxes);
    KeptOfUnnested(out, |out|);
    assert out[..|out|] == out;
  }

  /** A box inside another is dropped, and the outer one kept. */
  lemma RemoveNestedExample()
    ensures RemoveNested([Box(0, 0, 10, 10), Box(2, 2, 5, 5)]) == [Box(0, 0, 10, 10)]
  {
  }

  /** Two equal boxes eliminate each other. */
  lemma RemoveNestedDuplicateExample(b: Box)
    ensures RemoveNested([b, b]) == []
  {
    var boxes := [b, b];
    assert IsContained(boxes[0], boxes[1]) && Nested(boxes, 0);
    assert IsContained(boxes[1], boxes[0]) && Nested(boxes, 1);
    assert Kept(boxes, 1) == [];
  }

  /** The filter loop: a box is appended unless a scan over the other indices finds a container. */
  method RemoveNestedBoxes(boxes: seq<Box>) returns (filtered: seq<Box>)
    ensures filtered == RemoveNested(boxes)
  {
    filtered := [];
    var i := 0;
    while i < |boxes|
      invariant 0 <= i <= |boxes|
      invariant filtered == Kept(boxes, i)
    {
      var box := boxes[i];
      var nested := false;
      var j := 0;
      while j < |boxes| && !nested
        invariant 0 <= j <= |boxes|
        invariant nested <==> exists j' :: 0 <= j' < j && j' != i && IsContained(box, boxes[j'])
      {
        nested := i != j && IsContained(box, boxes[j]);
        j := j + 1;
      }
      if !nested {
        filtered := filtered + [box];
      }
      i := i + 1;
    }
  }
}
