/**
 * The selection logic of the symbol classifier over abstract candidate
 * images and masks. The distance between an image and a mask is a
 * parameter; each label scores the minimum distance over its mask
 * variants (infinity when it has none), and the closest label is the
 * first, in label order, of minimal score.
 */
module Classify {
  import opened Wrappers

  /** A distance or the infinity every label starts from. */
  datatype Score = Finite(value: real) | Infinity

  /** Strictly smaller, with infinity above every real. */
  predicate Less(a: Score, b: Score) {
    a.Finite? && (b.Infinity? || a.value < b.value)
  }

  /** Less is a strict total order on scores. */
  lemma LessTotal(a: Score, b: Score, c: Score)
    ensures !Less(a, a)
    ensures Less(a, b) && Less(b, c) ==> Less(a, c)
    ensures a == b || Less(a, b) || Less(b, a)
  {
  }

  /** `min(score, current)`: the smaller of the two, `score` when neither is smaller. */
  function MinScore(score: Score, current: Score): (m: Score)
    ensures m == score || m == current
    ensures !Less(score, m) && !Less(current, m)
  {
    if Less(current, score) then current else score
  }

  /** The score of a label after its first v variants. */
  function LabelScoreUpTo<Img, Mask>(img: Img, variants: seq<Mask>, dist: (Img, Mask) -> real, v: nat): Score
    requires v <= |variants|
  {
    if v == 0 then Infinity
    else MinScore(Finite(dist(img, variants[v - 1])), LabelScoreUpTo(img, variants, dist, v - 1))
  }

  /** The score of a label: the best distance over all of its variants. */
  function LabelScore<Img, Mask>(img: Img, variants: seq<Mask>, dist: (Img, Mask) -> real): Score {
    LabelScoreUpTo(img, variants, dist, |variants|)
  }

  lemma {:induction false} LabelScoreUpToIsMinimum<Img, Mask>(img: Img, variants: seq<Mask>, dist: (Img, Mask) -> real, v: nat)
    requires v <= |variants|
    ensures forall t :: 0 <= t < v ==> !Less(Finite(dist(img, variants[t])), LabelScoreUpTo(img, variants, dist, v))
    ensures v == 0 <==> LabelScoreUpTo(img, variants, dist, v) == Infinity
    ensures v > 0 ==> exists t :: 0 <= t < v && LabelScoreUpTo(img, variants, dist, v) == Finite(dist(img, variants[t]))
  {
    if v > 0 {
      LabelScoreUpToIsMinimum(img, variants, dist, v - 1);
      var s := LabelScoreUpTo(img, variants, dist, v);
      forall t | 0 <= t < v ensures !Less(Finite(dist(img, variants[t])), s) {
        if t < v - 1 {
          LessTotal(Finite(dist(img, variants[t])), LabelScoreUpTo(img, variants, dist, v - 1), s);
        }
      }
    }
  }

  /**
   * A label's score is at most the distance to each of its variants and is
   * attained by one of them; it is infinity exactly when there are none.
   */
  lemma LabelScoreIsMinimum<Img, Mask>(img: Img, variants: seq<Mask>, dist: (Img, Mask) -> real)
    ensures forall t :: 0 <= t < |variants| ==> !Less(Finite(dist(img, variants[t])), LabelScore(img, variants, dist))
    ensures variants == [] <==> LabelScore(img, variants, dist) == Infinity
    ensures variants != [] ==> exists t :: 0 <= t < |variants| && LabelScore(img, variants, dist) == Finite(dist(img, variants[t]))
  {
    LabelScoreUpToIsMinimum(img, variants, dist, |variants|);
  }

  /** The label of each entry, in order; a dictionary holds each label once. */
  predicate DistinctLabels<Label(==), Mask>(masks: seq<(Label, seq<Mask>)>) {
    forall p, q :: 0 <= p < q < |masks| ==> masks[p].0 != masks[q].0
  }

  function Labels<Label, Mask>(masks: seq<(Label, seq<Mask>)>): set<Label> {
    set k | 0 <= k < |masks| :: masks[k].0
  }

  /** Entry k has a minimal score, and every earlier entry a strictly larger one. */
  ghost predicate IsClosest<Label, Img, Mask>(img: Img, masks: seq<(Label, seq<Mask>)>, dist: (Img, Mask) -> real, k: int) {
    && 0 <= k < |masks|
    && (forall q :: 0 <= q < |masks| ==> !Less(LabelScore(img, masks[q].1, dist), LabelScore(img, masks[k].1, dist)))
    && (forall q :: 0 <= q < k ==> Less(LabelScore(img, masks[k].1, dist), LabelScore(img, masks[q].1, dist)))
  }

  /** At most one entry is the closest. */
  lemma ClosestUnique<Label, Img, Mask>(img: Img, masks: seq<(Label, seq<Mask>)>, dist: (Img, Mask) -> real, k1: int, k2: int)
    requires IsClosest(img, masks, dist, k1) && IsClosest(img, masks, dist, k2)
    ensures k1 == k2
  {
    var s1, s2 := LabelScore(img, masks[k1].1, dist), LabelScore(img, masks[k2].1, dist);
    assert k1 < k2 ==> Less(s2, s1) && !Less(s2, s1);
    assert k2 < k1 ==> Less(s1, s2) && !Less(s1, s2);
  }

  /**
   * With non-negative distances, a candidate at distance 0 from some
   * variant makes the closest label score exactly 0.
   */
  lemma ZeroDistanceWins<Label, Img, Mask>(img: Img, masks: seq<(Label, seq<Mask>)>, dist: (Img, Mask) -> real, k: nat, t: nat, c: int)
    requires forall m :: dist(img, m) >= 0.0
    requires k < |masks| && t < |masks[k].1| && dist(img, masks[k].1[t]) == 0.0
    requires IsClosest(img, masks, dist, c)
    ensures LabelScore(img, masks[k].1, dist) == Finite(0.0)
    ensures LabelScore(img, masks[c].1, dist) == Finite(0.0)
  {
    LabelScoreIsMinimum(img, masks[k].1, dist);
    LabelScoreIsMinimum(img, masks[c].1, dist);
    assert !Less(LabelScore(img, masks[k].1, dist), LabelScore(img, masks[c].1, dist));
  }

  /** The inner loop over one label's variants, lowering `scores[name]` to each distance in turn. */
  method ScoreVariants<Label(==), Img, Mask>(img: Img, name: Label, variants: seq<Mask>, dist: (Img, Mask) -> real, scores: map<Label, Score>)
    returns (scores': map<Label, Score>)
    requires name in scores && scores[name] == Infinity
    ensures scores' == scores[name := LabelScore(img, variants, dist)]
  {
    scores' := scores;
    for v := 0 to |variants|
      invariant scores' == scores[name := LabelScoreUpTo(img, variants, dist, v)]
    {
      var score := dist(img, variants[v]);
      scores' := scores'[name := MinScore(Finite(score), scores'[name])];
    }
  }

  /** The score table: each label's best distance over its variants. */
  method ScoreLabels<Label(==), Img, Mask>(img: Img, masks: seq<(Label, seq<Mask>)>, dist: (Img, Mask) -> real)
    returns (scores: map<Label, Score>)
    requires DistinctLabels(masks)
    ensures scores.Keys == Labels(masks)
    ensures forall k :: 0 <= k < |masks| ==> scores[masks[k].0] == LabelScore(img, masks[k].1, dist)
  {
    scores := map k | 0 <= k < |masks| :: masks[k].0 := Infinity;
    ghost var keys := scores.Keys;
    assert keys == Labels(masks);
    for k := 0 to |masks|
      invariant scores.Keys == keys
      invariant forall q :: 0 <= q < k ==> scores[masks[q].0] == LabelScore(img, masks[q].1, dist)
      invariant forall q :: k <= q < |masks| ==> scores[masks[q].0] == Infinity
    {
      var name := masks[k].0;
      assert name in keys;
      ghost var before := scores;
      scores := ScoreVariants(img, name, masks[k].1, dist, scores);
      forall q | 0 <= q < |masks| && q != k ensures scores[masks[q].0] == before[masks[q].0] {
        assert masks[q].0 != name;
      }
    }
  }

  /** `min(scores, key=scores.get)`: the first label, in order, of minimal score; none without labels. */
  method ClosestLabel<Label(==), Img, Mask>(img: Img, masks: seq<(Label, seq<Mask>)>, dist: (Img, Mask) -> real, scores: map<Label, Score>)
    returns (closest: Option<Label>)
    requires forall k :: 0 <= k < |masks| ==> masks[k].0 in scores && scores[masks[k].0] == LabelScore(img, masks[k].1, dist)
    ensures closest.None? <==> masks == []
    ensures closest.Some? ==> exists k :: IsClosest(img, masks, dist, k) && closest.value == masks[k].0
  {
    if |masks| == 0 {
      return None;
    }
    var best := 0;
    for k := 1 to |masks|
      invariant 0 <= best < k
      invariant forall q :: 0 <= q < k ==> !Less(scores[masks[q].0], scores[masks[best].0])
      invariant forall q :: 0 <= q < best ==> Less(scores[masks[best].0], scores[masks[q].0])
    {
      if Less(scores[masks[k].0], scores[masks[best].0]) {
        best := k;
      }
    }
    closest := Some(masks[best].0);
    assert IsClosest(img, masks, dist, best);
  }

  /**
   * Scores every label by its best variant, then picks the first label of
   * minimal score; with no labels there is no minimum.
   */
  method ClassifySymbol<Label(==), Img, Mask>(img: Img, masks: seq<(Label, seq<Mask>)>, dist: (Img, Mask) -> real)
    returns (closest: Option<Label>, scores: map<Label, Score>)
    requires DistinctLabels(masks)
    ensures scores.Keys == Labels(masks)
    ensures forall k :: 0 <= k < |masks| ==> scores[masks[k].0] == LabelScore(img, masks[k].1, dist)
    ensures closest.None? <==> masks == []
    ensures closest.Some? ==> exists k :: IsClosest(img, masks, dist, k) && closest.value == masks[k].0
  {
    scores := ScoreLabels(img, masks, dist);
    closest := ClosestLabel(img, masks, dist, scores);
  }
}
