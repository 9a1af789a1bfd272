/**
 * The overlap merger. One pass scans the pairs i < j of the current list;
 * each box merges with its FIRST later box that the corner test finds,
 * both are marked, and their union joins the next generation. A box that
 * found no partner is carried forward unless its value was marked earlier
 * in the pass. The next generation is a set, listed in some order for the
 * next pass; passes repeat until one finds no overlap.
 */
module Merge {
  import opened Wrappers
  import opened SeqSet
  import opened Geometry

  /** The state of a pass: the next generation and the set of marked box values. */
  datatype PassState = PassState(next: set<Box>, marked: set<Box>)

  /** The first index q with j <= q such that the corner test finds boxes[q] against boxes[i]. */
  function FirstPartner(boxes: seq<Box>, i: nat, j: nat): (r: Option<nat>)
    requires i < |boxes| && j <= |boxes|
    ensures r.Some? ==> j <= r.value < |boxes| && AreOverlapping(boxes[i], boxes[r.value])
    ensures r.Some? ==> forall q :: j <= q < r.value ==> !AreOverlapping(boxes[i], boxes[q])
    ensures r.None? ==> forall q :: j <= q < |boxes| ==> !AreOverlapping(boxes[i], boxes[q])
    decreases |boxes| - j
  {
    if j == |boxes| then None
    else if AreOverlapping(boxes[i], boxes[j]) then Some(j)
    else FirstPartner(boxes, i, j + 1)
  }

  /** The partner the inner scan of index i settles on: the first later overlapping box. */
  function Partner(boxes: seq<Box>, i: nat): Option<nat>
    requires i < |boxes|
  {
    FirstPartner(boxes, i, i + 1)
  }

  /** What the pass does at index i, given its state after the earlier indices. */
  function Step(boxes: seq<Box>, i: nat, st: PassState): PassState
    requires i < |boxes|
  {
    var a := boxes[i];
    match Partner(boxes, i)
    case Some(j) => PassState(st.next + {Union(a, boxes[j])}, st.marked + {a, boxes[j]})
    case None => if a in st.marked then st else PassState(st.next + {a}, st.marked)
  }

  /** The state of a pass after indices 0 .. i-1. */
  function PassUpTo(boxes: seq<Box>, i: nat): PassState
    requires i <= |boxes|
  {
    if i == 0 then PassState({}, {}) else Step(boxes, i - 1, PassUpTo(boxes, i - 1))
  }

  /** The state at the end of one whole pass over `boxes`. */
  function Pass(boxes: seq<Box>): PassState {
    PassUpTo(boxes, |boxes|)
  }

  /** Some box of `s` contains `b`. */
  ghost predicate Covered(b: Box, s: set<Box>) {
    exists c :: c in s && IsContained(b, c)
  }

  /** The corner test finds no pair i < j, in the order of the list. */
  predicate NoOverlapInOrder(boxes: seq<Box>) {
    forall i, j :: 0 <= i < j < |boxes| ==> !AreOverlapping(boxes[i], boxes[j])
  }

  // ----- one pass -----

  lemma {:induction false} PassMonotone(boxes: seq<Box>, i: nat, k: nat)
    requires i <= k <= |boxes|
    ensures PassUpTo(boxes, i).next <= PassUpTo(boxes, k).next
    ensures PassUpTo(boxes, i).marked <= PassUpTo(boxes, k).marked
    decreases k - i
  {
    if i < k {
      PassMonotone(boxes, i, k - 1);
    }
  }

  /** Each index adds at most one box to the next generation. */
  lemma {:induction false} PassUpToSize(boxes: seq<Box>, i: nat)
    requires i <= |boxes|
    ensures |PassUpTo(boxes, i).next| <= i
  {
    if i > 0 {
      PassUpToSize(boxes, i - 1);
    }
  }

  /** Once one index k added nothing, the next generation is at least one short of the indices scanned. */
  lemma {:induction false} PassUpToSizeIdle(boxes: seq<Box>, k: nat, i: nat)
    requires k < i <= |boxes|
    requires Partner(boxes, k).None? && boxes[k] in PassUpTo(boxes, k).marked
    ensures |PassUpTo(boxes, i).next| <= i - 1
  {
    if i == k + 1 {
      PassUpToSize(boxes, k);
    } else {
      PassUpToSizeIdle(boxes, k, i - 1);
    }
  }

  /** The largest index below i that found a partner, or -1. */
  function LastPartnered(boxes: seq<Box>, i: nat): (r: int)
    requires i <= |boxes|
    ensures -1 <= r < i
    ensures r >= 0 ==> Partner(boxes, r).Some?
    ensures forall k :: r < k < i ==> Partner(boxes, k).None?
  {
    if i == 0 then -1
    else if Partner(boxes, i - 1).Some? then i - 1
    else LastPartnered(boxes, i - 1)
  }

  /** Boxes are marked only by indices that found a partner. */
  lemma {:induction false} MarkedNeedsPartner(boxes: seq<Box>, i: nat)
    requires i <= |boxes|
    ensures PassUpTo(boxes, i).marked != {} ==> LastPartnered(boxes, i) >= 0
  {
    if i > 0 {
      MarkedNeedsPartner(boxes, i - 1);
    }
  }

  /**
   * A pass that merges anything yields a strictly smaller generation: the
   * partner of the last index that merged is marked already, finds no
   * later partner itself, and so contributes nothing.
   */
  lemma PassShrinks(boxes: seq<Box>)
    requires Pass(boxes).marked != {}
    ensures |Pass(boxes).next| < |boxes|
  {
    var n := |boxes|;
    MarkedNeedsPartner(boxes, n);
    var i0 := LastPartnered(boxes, n);
    var j0 := Partner(boxes, i0).value;
    assert boxes[j0] in PassUpTo(boxes, i0 + 1).marked;
    PassMonotone(boxes, i0 + 1, j0);
    PassUpToSizeIdle(boxes, j0, n);
  }

  /** A pass never enlarges the list. */
  lemma PassSize(boxes: seq<Box>)
    ensures |Pass(boxes).next| <= |boxes|
  {
    PassUpToSize(boxes, |boxes|);
  }

  lemma CoveredGrow(b: Box, s: set<Box>, t: set<Box>)
    requires Covered(b, s) && s <= t
    ensures Covered(b, t)
  {
  }

  lemma {:induction false} PassUpToCovers(boxes: seq<Box>, i: nat)
    requires i <= |boxes|
    ensures forall k :: 0 <= k < i ==> Covered(boxes[k], PassUpTo(boxes, i).next)
    ensures forall b :: b in PassUpTo(boxes, i).marked ==> Covered(b, PassUpTo(boxes, i).next)
  {
    if i > 0 {
      PassUpToCovers(boxes, i - 1);
      var st, st' := PassUpTo(boxes, i - 1), PassUpTo(boxes, i);
      var a := boxes[i - 1];
      PassMonotone(boxes, i - 1, i);
      forall b | b in st.marked ensures Covered(b, st'.next) {
        CoveredGrow(b, st.next, st'.next);
      }
      forall k | 0 <= k < i - 1 ensures Covered(boxes[k], st'.next) {
        CoveredGrow(boxes[k], st.next, st'.next);
      }
      match Partner(boxes, i - 1)
      case Some(j) =>
        var u := Union(a, boxes[j]);
        assert u in st'.next && IsContained(a, u) && IsContained(boxes[j], u);
      case None =>
        if a !in st.marked {
          ContainedReflexive(a);
          assert a in st'.next;
        }
    }
  }

  /** Every box of the current list is contained in some box of the next generation. */
  lemma PassCovers(boxes: seq<Box>)
    ensures forall b :: b in boxes ==> Covered(b, Pass(boxes).next)
  {
    PassUpToCovers(boxes, |boxes|);
  }

  lemma {:induction false} PassUpToQuiet(boxes: seq<Box>, i: nat)
    requires i <= |boxes|
    requires PassUpTo(boxes, i).marked == {}
    ensures PassUpTo(boxes, i).next == ToSet(boxes[..i])
    ensures forall k :: 0 <= k < i ==> Partner(boxes, k).None?
  {
    if i > 0 {
      PassMonotone(boxes, i - 1, i);
      PassUpToQuiet(boxes, i - 1);
      assert boxes[..i] == boxes[..i - 1] + [boxes[i - 1]];
      assert ToSet(boxes[..i]) == ToSet(boxes[..i - 1]) + {boxes[i - 1]};
    }
  }

  /**
   * A pass that marks nothing carries every box forward: its next
   * generation is the set of the list, and no pair i < j of the list overlaps.
   */
  lemma PassQuiet(boxes: seq<Box>)
    requires Pass(boxes).marked == {}
    ensures Pass(boxes).next == ToSet(boxes)
    ensures NoOverlapInOrder(boxes)
  {
    PassUpToQuiet(boxes, |boxes|);
    assert boxes[..|boxes|] == boxes;
    forall i, j | 0 <= i < j < |boxes| ensures !AreOverlapping(boxes[i], boxes[j]) {
      assert Partner(boxes, i).None?;
    }
  }

  /** A pass on a non-empty list yields a non-empty generation. */
  lemma PassNonEmpty(boxes: seq<Box>)
    requires boxes != []
    ensures Pass(boxes).next != {}
  {
    PassMonotone(boxes, 1, |boxes|);
    var st := PassUpTo(boxes, 1);
    match Partner(boxes, 0)
    case Some(j) => assert Union(boxes[0], boxes[j]) in st.next;
    case None => assert boxes[0] in st.next;
  }

  lemma {:induction false} PassUpToWellFormed(boxes: seq<Box>, i: nat)
    requires i <= |boxes|
    requires forall b :: b in boxes ==> WellFormed(b)
    ensures forall b :: b in PassUpTo(boxes, i).next ==> WellFormed(b)
  {
    if i > 0 {
      PassUpToWellFormed(boxes, i - 1);
    }
  }

  /** Merging well-formed boxes yields well-formed boxes. */
  lemma PassWellFormed(boxes: seq<Box>)
    requires forall b :: b in boxes ==> WellFormed(b)
    ensures forall b :: b in Pass(boxes).next ==> WellFormed(b)
  {
    PassUpToWellFormed(boxes, |boxes|);
  }

  /** The pass loop: the outer scan over box_a, the inner scan for its first partner. */
  method MergePass(boxes: seq<Box>) returns (newBoxes: set<Box>, overlapping: set<Box>)
    ensures PassState(newBoxes, overlapping) == Pass(boxes)
  {
    newBoxes, overlapping := {}, {};
    var i := 0;
    while i < |boxes|
      invariant 0 <= i <= |boxes|
      invariant PassState(newBoxes, overlapping) == PassUpTo(boxes, i)
    {
      var boxA := boxes[i];
      var j := i + 1;
      while j < |boxes|
        invariant i + 1 <= j <= |boxes|
        invariant Partner(boxes, i) == FirstPartner(boxes, i, j)
        invariant PassState(newBoxes, overlapping) == PassUpTo(boxes, i)
      {
        var boxB := boxes[j];
        if AreOverlapping(boxA, boxB) {
          overlapping := overlapping + {boxA, boxB};
          newBoxes := newBoxes + {Union(boxA, boxB)};
          break;
        }
        j := j + 1;
      }
      if boxA !in overlapping {
        newBoxes := newBoxes + {boxA};
      }
      i := i + 1;
    }
  }

  /** `list(s)`: the values of a set, each once, in an order the model leaves open. */
  method ListOf<T>(s: set<T>) returns (r: seq<T>)
    ensures Distinct(r) && ToSet(r) == s
    ensures |r| == |s|
  {
    r := [];
    var rest := s;
    while rest != {}
      invariant ToSet(r) + rest == s && ToSet(r) !! rest
      invariant Distinct(r)
      decreases rest
    {
      var x :| x in rest;
      r := r + [x];
      rest := rest - {x};
    }
    DistinctCard(r);
  }

  // ----- the whole merge -----

  /** Generation k + 1 lists, without repetition, what the pass over generation k produced. */
  ghost predicate GenStep(gens: seq<seq<Box>>, k: nat)
    requires k + 1 < |gens|
  {
    Distinct(gens[k + 1]) && ToSet(gens[k + 1]) == Pass(gens[k]).next
  }

  /**
   * `gens` is the sequence of lists the loop holds, from `input` to the
   * returned `result`: every pass but the last merges something, the last
   * merges nothing, and each list is some listing of its pass's set.
   */
  ghost predicate IsMergeRun(input: seq<Box>, gens: seq<seq<Box>>, result: seq<Box>) {
    && |gens| >= 2
    && gens[0] == input
    && gens[|gens| - 1] == result
    && (forall k :: 0 <= k < |gens| - 1 ==> GenStep(gens, k))
    && (forall k :: 0 <= k < |gens| - 2 ==> Pass(gens[k]).marked != {})
    && Pass(gens[|gens| - 2]).marked == {}
  }

  /** The fixpoint loop, with the lists it goes through as a ghost trace. */
  method MergeOverlappingBoxes(input: seq<Box>) returns (boxes: seq<Box>, ghost gens: seq<seq<Box>>)
    ensures IsMergeRun(input, gens, boxes)
    ensures Distinct(boxes)
    ensures forall b :: b in input ==> Covered(b, ToSet(boxes))
    ensures boxes == [] <==> input == []
  {
    boxes := input;
    gens := [input];
    while true
      invariant |gens| >= 1 && gens[0] == input && gens[|gens| - 1] == boxes
      invariant forall k :: 0 <= k < |gens| - 1 ==> GenStep(gens, k)
      invariant forall k :: 0 <= k < |gens| - 1 ==> Pass(gens[k]).marked != {}
      decreases |boxes|
    {
      var newBoxes, overlapping := MergePass(boxes);
      var next := ListOf(newBoxes);
      ghost var before := gens;
      gens := gens + [next];
      forall k | 0 <= k < |gens| - 1 ensures GenStep(gens, k) {
        if k < |before| - 1 {
          assert GenStep(before, k);
        }
      }
      if overlapping == {} {
        boxes := next;
        break;
      }
      PassShrinks(boxes);
      boxes := next;
    }
    MergeRunProperties(input, gens, boxes);
  }

  // ----- what every run guarantees -----

  lemma {:induction false} RunCoversUpTo(gens: seq<seq<Box>>, m: nat)
    requires m < |gens|
    requires forall k :: 0 <= k < |gens| - 1 ==> GenStep(gens, k)
    ensures forall b :: b in gens[0] ==> Covered(b, ToSet(gens[m]))
  {
    if m == 0 {
      forall b | b in gens[0] ensures Covered(b, ToSet(gens[0])) {
        ContainedReflexive(b);
      }
    } else {
      RunCoversUpTo(gens, m - 1);
      assert GenStep(gens, m - 1);
      PassCovers(gens[m - 1]);
      forall b | b in gens[0] ensures Covered(b, ToSet(gens[m])) {
        var c :| c in ToSet(gens[m - 1]) && IsContained(b, c);
        var c' :| c' in Pass(gens[m - 1]).next && IsContained(c, c');
        ContainedTransitive(b, c, c');
      }
    }
  }

  lemma {:induction false} RunWellFormedUpTo(gens: seq<seq<Box>>, m: nat)
    requires m < |gens|
    requires forall k :: 0 <= k < |gens| - 1 ==> GenStep(gens, k)
    requires forall b :: b in gens[0] ==> WellFormed(b)
    ensures forall b :: b in gens[m] ==> WellFormed(b)
  {
    if m > 0 {
      RunWellFormedUpTo(gens, m - 1);
      assert GenStep(gens, m - 1);
      PassWellFormed(gens[m - 1]);
    }
  }

  lemma {:induction false} RunSizeUpTo(gens: seq<seq<Box>>, m: nat)
    requires m < |gens|
    requires forall k :: 0 <= k < |gens| - 1 ==> GenStep(gens, k)
    ensures |gens[m]| <= |gens[0]|
    ensures gens[m] == [] <==> gens[0] == []
  {
    if m > 0 {
      RunSizeUpTo(gens, m - 1);
      assert GenStep(gens, m - 1);
      PassSize(gens[m - 1]);
      DistinctCard(gens[m]);
      EmptySetEmptySeq(gens[m]);
      if gens[m - 1] != [] {
        PassNonEmpty(gens[m - 1]);
      }
    }
  }

  /**
   * What a run of the merge returns: a duplicate-free list, no longer than
   * the input, empty exactly when the input is, in which every input box
   * is contained in some returned box; well-formed when the input is; and
   * as a set equal to the list the last pass scanned, in which no pair
   * i < j overlapped in the order scanned.
   */
  lemma MergeRunProperties(input: seq<Box>, gens: seq<seq<Box>>, result: seq<Box>)
    requires IsMergeRun(input, gens, result)
    ensures Distinct(result)
    ensures |result| <= |input|
    ensures result == [] <==> input == []
    ensures forall b :: b in input ==> Covered(b, ToSet(result))
    ensures (forall b :: b in input ==> WellFormed(b)) ==> forall b :: b in result ==> WellFormed(b)
    ensures ToSet(result) == ToSet(gens[|gens| - 2]) && NoOverlapInOrder(gens[|gens| - 2])
  {
    var m := |gens| - 1;
    assert GenStep(gens, m - 1);
    RunCoversUpTo(gens, m);
    RunSizeUpTo(gens, m);
    if forall b :: b in input ==> WellFormed(b) {
      RunWellFormedUpTo(gens, m);
    }
    PassQuiet(gens[m - 1]);
  }

  // ----- examples -----

  /** Two boxes where (3, 3) of the second lies in the first merge into (0, 0, 8, 8). */
  lemma MergeExampleOverlap(gens: seq<seq<Box>>, result: seq<Box>)
    requires IsMergeRun([Box(0, 0, 5, 5), Box(3, 3, 8, 8)], gens, result)
    ensures result == [Box(0, 0, 8, 8)]
  {
    var g0 := [Box(0, 0, 5, 5), Box(3, 3, 8, 8)];
    var u := Box(0, 0, 8, 8);
    assert Partner(g0, 0) == Some(1);
    assert Pass(g0) == PassState({u}, {g0[0], g0[1]});
    assert GenStep(gens, 0);
    SingletonList(gens[1], u);
    SingletonPass(u);
    assert Pass(gens[1]).marked == {};
    assert |gens| == 3;
    assert GenStep(gens, 1);
    SingletonList(gens[2], u);
  }

  /** Two boxes far apart come back unchanged, in some order. */
  lemma MergeExampleApart(gens: seq<seq<Box>>, result: seq<Box>)
    requires IsMergeRun([Box(0, 0, 5, 5), Box(10, 10, 15, 15)], gens, result)
    ensures ToSet(result) == {Box(0, 0, 5, 5), Box(10, 10, 15, 15)} && |result| == 2
  {
    var g0 := [Box(0, 0, 5, 5), Box(10, 10, 15, 15)];
    assert Partner(g0, 0) == None;
    assert Pass(g0).marked == {};
    assert |gens| == 2;
    assert GenStep(gens, 0);
    assert Pass(g0).next == {g0[0], g0[1]};
    DistinctCard(result);
  }

  /** A single box passes unchanged. */
  lemma SingletonPass(b: Box)
    ensures Pass([b]) == PassState({b}, {})
  {
    assert Partner([b], 0) == None;
    assert PassUpTo([b], 0) == PassState({}, {});
  }

  lemma SingletonList(s: seq<Box>, b: Box)
    requires Distinct(s) && ToSet(s) == {b}
    ensures s == [b]
  {
    DistinctCard(s);
    assert s[0] in ToSet(s);
  }

  /**
   * Merging twice can differ from merging once: [(0,0,10,10), (-5,-5,20,20)]
   * is returned unmerged (listed in reverse order by one run), and merging
   * that list again fuses the two boxes into one.
   */
  lemma MergeNotIdempotent(gens: seq<seq<Box>>, again: seq<Box>)
    requires IsMergeRun([Box(-5, -5, 20, 20), Box(0, 0, 10, 10)], gens, again)
    ensures IsMergeRun([Box(0, 0, 10, 10), Box(-5, -5, 20, 20)],
                       [[Box(0, 0, 10, 10), Box(-5, -5, 20, 20)], [Box(-5, -5, 20, 20), Box(0, 0, 10, 10)]],
                       [Box(-5, -5, 20, 20), Box(0, 0, 10, 10)])
    ensures again == [Box(-5, -5, 20, 20)]
  {
    var a, b := Box(0, 0, 10, 10), Box(-5, -5, 20, 20);
    var once := [[a, b], [b, a]];
    assert Partner([a, b], 0) == None;
    assert Partner([a, b], 1) == None;
    assert PassUpTo([a, b], 1) == PassState({a}, {});
    assert Pass([a, b]) == PassState({a, b}, {});
    assert GenStep(once, 0);
    var g0 := [b, a];
    assert Partner(g0, 0) == Some(1);
    assert Union(b, a) == b;
    assert Pass(g0) == PassState({b}, {b, a});
    assert GenStep(gens, 0);
    SingletonList(gens[1], b);
    SingletonPass(b);
    assert Pass(gens[1]).marked == {};
    assert |gens| == 3;
    assert GenStep(gens, 1);
    SingletonList(gens[2], b);
  }
}
