/**
 The two `ImagePatternClassifier` implementations as one datatype:
 `ClassifierMJ`, a weak classifier of plus and minus rectangles inside a
 bounding area, and `StrongClassifierMJ`, a weighted sum of any
 classifiers.
 */
module Classifiers {
  import opened Numerics
  import opened Grid
  import opened IntegralImages
  import opened Rects

  datatype Classifier =
    | Weak(area: Rect, plus: seq<Rect>, minus: seq<Rect>, weight: real)
    | Strong(members: seq<Classifier>)

  // ---------------------------------------------------------------------
  // Weak classifier (ClassifierMJ): construction
  // ---------------------------------------------------------------------

  /** `ClassifierMJ(maxWidth, maxHeight)`; the weight keeps Java's default 0. */
  function NewWeak(maxWidth: int, maxHeight: int): Classifier {
    Weak(Rect(0, 0, maxWidth, maxHeight), [], [], 0.0)
  }

  /** `addPlusPattern`: the rectangle is appended when it fits the area's
      width and height, and silently dropped otherwise. */
  function AddPlus(c: Classifier, rec: Rect): (r: Classifier)
    requires c.Weak?
    ensures r.Weak? && r.area == c.area && r.minus == c.minus && r.weight == c.weight
    ensures |c.plus| <= |r.plus| && r.plus[..|c.plus|] == c.plus
    ensures |r.plus| == |c.plus| + 1 <==> Fits(rec, c.area.width, c.area.height)
    ensures |r.plus| == |c.plus| || (|r.plus| == |c.plus| + 1 && r.plus[|c.plus|] == rec)
  {
    if Fits(rec, c.area.width, c.area.height) then c.(plus := c.plus + [rec]) else c
  }

  /** `addMinusPattern`: the same rule, for the minus list only. */
  function AddMinus(c: Classifier, rec: Rect): (r: Classifier)
    requires c.Weak?
    ensures r.Weak? && r.area == c.area && r.plus == c.plus && r.weight == c.weight
    ensures |c.minus| <= |r.minus| && r.minus[..|c.minus|] == c.minus
    ensures |r.minus| == |c.minus| + 1 <==> Fits(rec, c.area.width, c.area.height)
    ensures |r.minus| == |c.minus| || (|r.minus| == |c.minus| + 1 && r.minus[|c.minus|] == rec)
  {
    if Fits(rec, c.area.width, c.area.height) then c.(minus := c.minus + [rec]) else c
  }

  /** The rectangles of `rs` that fit a maxWidth x maxHeight area, in order. */
  function Fitting(rs: seq<Rect>, maxWidth: int, maxHeight: int): (f: seq<Rect>)
    ensures |f| <= |rs|
    ensures forall i :: 0 <= i < |f| ==> Fits(f[i], maxWidth, maxHeight)
    decreases |rs|
  {
    if |rs| == 0 then []
    else
      var last := rs[|rs| - 1];
      Fitting(rs[..|rs| - 1], maxWidth, maxHeight) + (if Fits(last, maxWidth, maxHeight) then [last] else [])
  }

  lemma {:induction false} FittingAll(rs: seq<Rect>, maxWidth: int, maxHeight: int)
    requires forall i :: 0 <= i < |rs| ==> Fits(rs[i], maxWidth, maxHeight)
    ensures Fitting(rs, maxWidth, maxHeight) == rs
    decreases |rs|
  {
    if |rs| > 0 {
      FittingAll(rs[..|rs| - 1], maxWidth, maxHeight);
      assert rs[..|rs| - 1] + [rs[|rs| - 1]] == rs;
    }
  }

  /** `addPlusPattern` for each rectangle of `rs`, in order. */
  function AddPlusAll(c: Classifier, rs: seq<Rect>): (r: Classifier)
    requires c.Weak?
    ensures r.Weak? && r.area == c.area && r.minus == c.minus && r.weight == c.weight
    ensures r.plus == c.plus + Fitting(rs, c.area.width, c.area.height)
    decreases |rs|
  {
    if |rs| == 0 then c else AddPlus(AddPlusAll(c, rs[..|rs| - 1]), rs[|rs| - 1])
  }

  /** `addMinusPattern` for each rectangle of `rs`, in order. */
  function AddMinusAll(c: Classifier, rs: seq<Rect>): (r: Classifier)
    requires c.Weak?
    ensures r.Weak? && r.area == c.area && r.plus == c.plus && r.weight == c.weight
    ensures r.minus == c.minus + Fitting(rs, c.area.width, c.area.height)
    decreases |rs|
  {
    if |rs| == 0 then c else AddMinus(AddMinusAll(c, rs[..|rs| - 1]), rs[|rs| - 1])
  }

  /** A fresh box classifier keeps exactly the patterns that fit the box. */
  lemma BoxKeepsFitting(maxWidth: int, maxHeight: int, plus: seq<Rect>, minus: seq<Rect>)
    ensures AddMinusAll(AddPlusAll(NewWeak(maxWidth, maxHeight), plus), minus).plus == Fitting(plus, maxWidth, maxHeight)
    ensures AddMinusAll(AddPlusAll(NewWeak(maxWidth, maxHeight), plus), minus).minus == Fitting(minus, maxWidth, maxHeight)
    ensures AddMinusAll(AddPlusAll(NewWeak(maxWidth, maxHeight), plus), minus).area == Rect(0, 0, maxWidth, maxHeight)
  {
  }

  /** An area that reaches the origin from above-left: x <= 0, y <= 0 and no
      negative dimension. Every rectangle with an extent then fits once the
      area has been grown to contain it. */
  predicate ReachesOrigin(a: Rect) {
    a.x <= 0 && a.y <= 0 && HasExtent(a)
  }

  lemma GrownAreaFits(a: Rect, rec: Rect)
    requires ReachesOrigin(a) && HasExtent(rec)
    ensures ReachesOrigin(Add(a, rec))
    ensures Fits(rec, Add(a, rec).width, Add(a, rec).height)
  {
  }

  /** The loop of the list constructor over the plus list: grow the area by
      the rectangle, then `addPlusPattern` it. */
  function GrowPlus(c: Classifier, rs: seq<Rect>): (r: Classifier)
    requires c.Weak?
    ensures r.Weak? && r.minus == c.minus && r.weight == c.weight
    ensures r.area == UnionAll(c.area, rs)
    decreases |rs|
  {
    if |rs| == 0 then c
    else
      var prev := GrowPlus(c, rs[..|rs| - 1]);
      var last := rs[|rs| - 1];
      AddPlus(prev.(area := Add(prev.area, last)), last)
  }

  /** The same loop over the minus list. */
  function GrowMinus(c: Classifier, rs: seq<Rect>): (r: Classifier)
    requires c.Weak?
    ensures r.Weak? && r.plus == c.plus && r.weight == c.weight
    ensures r.area == UnionAll(c.area, rs)
    decreases |rs|
  {
    if |rs| == 0 then c
    else
      var prev := GrowMinus(c, rs[..|rs| - 1]);
      var last := rs[|rs| - 1];
      AddMinus(prev.(area := Add(prev.area, last)), last)
  }

  predicate AllHaveExtent(rs: seq<Rect>) {
    forall i :: 0 <= i < |rs| ==> HasExtent(rs[i])
  }

  lemma {:induction false} GrowPlusKeepsAll(c: Classifier, rs: seq<Rect>)
    requires c.Weak? && ReachesOrigin(c.area) && AllHaveExtent(rs)
    ensures GrowPlus(c, rs).plus == c.plus + rs
    decreases |rs|
  {
    if |rs| > 0 {
      var front := rs[..|rs| - 1];
      GrowPlusKeepsAll(c, front);
      UnionAllBounds(c.area, front);
      GrownAreaFits(UnionAll(c.area, front), rs[|rs| - 1]);
      assert front + [rs[|rs| - 1]] == rs;
    }
  }

  lemma {:induction false} GrowMinusKeepsAll(c: Classifier, rs: seq<Rect>)
    requires c.Weak? && ReachesOrigin(c.area) && AllHaveExtent(rs)
    ensures GrowMinus(c, rs).minus == c.minus + rs
    decreases |rs|
  {
    if |rs| > 0 {
      var front := rs[..|rs| - 1];
      GrowMinusKeepsAll(c, front);
      UnionAllBounds(c.area, front);
      GrownAreaFits(UnionAll(c.area, front), rs[|rs| - 1]);
      assert front + [rs[|rs| - 1]] == rs;
    }
  }

  lemma {:induction false} UnionAllConcat(start: Rect, rs: seq<Rect>, ts: seq<Rect>)
    ensures UnionAll(UnionAll(start, rs), ts) == UnionAll(start, rs + ts)
    decreases |ts|
  {
    if |ts| == 0 {
      assert rs + ts == rs;
    } else {
      UnionAllConcat(start, rs, ts[..|ts| - 1]);
      assert (rs + ts)[..|rs + ts| - 1] == rs + ts[..|ts| - 1];
    }
  }

  /** `ClassifierMJ(plusAreas, minusAreas, weight)`. */
  function FromPatterns(plus: seq<Rect>, minus: seq<Rect>, weight: real): (c: Classifier)
    ensures c.Weak? && c.weight == weight
  {
    GrowMinus(GrowPlus(Weak(EmptyAtOrigin, [], [], weight), plus), minus)
  }

  /** The list constructor keeps every rectangle that has an extent, in
      order, because the area is grown to contain a rectangle before the fit
      test; the area is the union of (0, 0, 0, 0) with all of them. */
  lemma FromPatternsKeepsAll(plus: seq<Rect>, minus: seq<Rect>, weight: real)
    ensures FromPatterns(plus, minus, weight).area == UnionAll(EmptyAtOrigin, plus + minus)
    ensures AllHaveExtent(plus) && AllHaveExtent(minus) ==>
      FromPatterns(plus, minus, weight).plus == plus && FromPatterns(plus, minus, weight).minus == minus
    ensures var a := FromPatterns(plus, minus, weight).area;
      && ReachesOrigin(a)
      && (forall i :: 0 <= i < |plus| && HasExtent(plus[i]) ==> Contains(a, plus[i]))
      && (forall i :: 0 <= i < |minus| && HasExtent(minus[i]) ==> Contains(a, minus[i]))
  {
    var c0 := Weak(EmptyAtOrigin, [], [], weight);
    var c1 := GrowPlus(c0, plus);
    UnionAllConcat(EmptyAtOrigin, plus, minus);
    UnionAllBounds(EmptyAtOrigin, plus);
    UnionAllBounds(EmptyAtOrigin, plus + minus);
    var a := UnionAll(EmptyAtOrigin, plus + minus);
    forall i | 0 <= i < |plus| && HasExtent(plus[i])
      ensures Contains(a, plus[i])
    {
      assert (plus + minus)[i] == plus[i];
    }
    forall i | 0 <= i < |minus| && HasExtent(minus[i])
      ensures Contains(a, minus[i])
    {
      assert (plus + minus)[|plus| + i] == minus[i];
    }
    if AllHaveExtent(plus) && AllHaveExtent(minus) {
      GrowPlusKeepsAll(c0, plus);
      GrowMinusKeepsAll(c1, minus);
    }
  }

  // ---------------------------------------------------------------------
  // Both classifiers: weight, area, scaling
  // ---------------------------------------------------------------------

  /** `getWeight`: a strong classifier always weighs 1. */
  function Weight(c: Classifier): real {
    match c
    case Weak(_, _, _, weight) => weight
    case Strong(_) => 1.0
  }

  /** `setWeight`: a strong classifier ignores it. */
  function SetWeight(c: Classifier, weight: real): Classifier {
    match c
    case Weak(_, _, _, _) => c.(weight := weight)
    case Strong(_) => c
  }

  /** A weak classifier reports the weight last set; a strong classifier
      reports 1 and is not changed by setting a weight. */
  lemma WeightAfterSet(c: Classifier, weight: real)
    ensures c.Weak? ==> Weight(SetWeight(c, weight)) == weight
    ensures c.Strong? ==> SetWeight(c, weight) == c && Weight(SetWeight(c, weight)) == 1.0
    ensures c.Weak? ==> var r := SetWeight(c, weight);
      r.Weak? && r.area == c.area && r.plus == c.plus && r.minus == c.minus
  {
  }

  /** `getArea`: a weak classifier's own area; for a strong classifier,
      (0, 0, 0, 0) grown by every member's area. */
  function Area(c: Classifier): Rect
    decreases c
  {
    match c
    case Weak(area, _, _, _) => area
    case Strong(members) =>
      UnionAll(EmptyAtOrigin, seq(|members|, i requires 0 <= i < |members| => Area(members[i])))
  }

  /** A strong classifier's area contains the origin and every member area
      that has an extent, and is the least rectangle that does. */
  lemma StrongAreaBounds(members: seq<Classifier>)
    ensures ReachesOrigin(Area(Strong(members)))
    ensures forall i :: 0 <= i < |members| && HasExtent(Area(members[i])) ==>
      Contains(Area(Strong(members)), Area(members[i]))
    ensures forall b ::
      (Contains(b, EmptyAtOrigin) && (forall i :: 0 <= i < |members| && HasExtent(Area(members[i])) ==> Contains(b, Area(members[i]))))
      ==> Contains(b, Area(Strong(members)))
  {
    var areas := seq(|members|, i requires 0 <= i < |members| => Area(members[i]));
    UnionAllBounds(EmptyAtOrigin, areas);
    assert forall i :: 0 <= i < |members| ==> areas[i] == Area(members[i]);
    forall b | Contains(b, EmptyAtOrigin) && (forall i :: 0 <= i < |members| && HasExtent(Area(members[i])) ==> Contains(b, Area(members[i])))
      ensures Contains(b, Area(Strong(members)))
    {
      assert forall i :: 0 <= i < |areas| && HasExtent(areas[i]) ==> Contains(b, areas[i]);
    }
  }

  /** `scaleRec` applied to every rectangle. */
  function ScaleAll(rs: seq<Rect>, scale: real): (s: seq<Rect>)
    ensures |s| == |rs|
    ensures forall i :: 0 <= i < |rs| ==> s[i] == ScaleRect(rs[i], scale)
  {
    seq(|rs|, i requires 0 <= i < |rs| => ScaleRect(rs[i], scale))
  }

  /** `getScaledInstance(scale)`: a new classifier; a weak one is rebuilt as
      a box of the scaled width and height, cast to `int`, with the same weight,
      and re-adds every scaled pattern (so the area's origin is dropped and a
      scaled pattern may fail the fit test); a strong one scales each
      member. */
  function Scaled(c: Classifier, scale: real): (r: Classifier)
    decreases c
  {
    match c
    case Weak(area, plus, minus, weight) =>
      var box := NewWeak(Scale(area.width, scale), Scale(area.height, scale)).(weight := weight);
      AddMinusAll(AddPlusAll(box, ScaleAll(plus, scale)), ScaleAll(minus, scale))
    case Strong(members) =>
      Strong(seq(|members|, i requires 0 <= i < |members| => Scaled(members[i], scale)))
  }

  /** What scaling a weak classifier yields: area (0, 0, (int)(W*s),
      (int)(H*s)) with the saturating cast, the same weight, and the scaled
      patterns that fit it. */
  lemma ScaledWeak(c: Classifier, scale: real)
    requires c.Weak?
    ensures var r := Scaled(c, scale);
      && r.Weak?
      && r.area == Rect(0, 0, Scale(c.area.width, scale), Scale(c.area.height, scale))
      && r.weight == c.weight
      && r.plus == Fitting(ScaleAll(c.plus, scale), r.area.width, r.area.height)
      && r.minus == Fitting(ScaleAll(c.minus, scale), r.area.width, r.area.height)
  {
  }

  /** For a non-negative scale under which the area's width and height do
      not saturate, a weak classifier whose non-negative patterns all fit
      its area keeps every scaled pattern, in order. */
  lemma ScaledKeepsPatterns(c: Classifier, scale: real)
    requires c.Weak? && 0.0 <= scale
    requires forall i :: 0 <= i < |c.plus| ==> NonNegativeRect(c.plus[i]) && Fits(c.plus[i], c.area.width, c.area.height)
    requires forall i :: 0 <= i < |c.minus| ==> NonNegativeRect(c.minus[i]) && Fits(c.minus[i], c.area.width, c.area.height)
    ensures ScalesWithinInt(c.area.width, scale) && ScalesWithinInt(c.area.height, scale) ==>
      Scaled(c, scale).plus == ScaleAll(c.plus, scale) && Scaled(c, scale).minus == ScaleAll(c.minus, scale)
  {
    ScaledWeak(c, scale);
    if ScalesWithinInt(c.area.width, scale) && ScalesWithinInt(c.area.height, scale) {
      var w, h := Scale(c.area.width, scale), Scale(c.area.height, scale);
      var sp, sm := ScaleAll(c.plus, scale), ScaleAll(c.minus, scale);
      forall i | 0 <= i < |sp|
        ensures Fits(sp[i], w, h)
      {
        ScaledStillFits(c.plus[i], c.area.width, c.area.height, scale);
      }
      forall i | 0 <= i < |sm|
        ensures Fits(sm[i], w, h)
      {
        ScaledStillFits(c.minus[i], c.area.width, c.area.height, scale);
      }
      FittingAll(sp, w, h);
      FittingAll(sm, w, h);
    }
  }

  /** With a saturating scale a fitting pattern can be lost: the classifier
      with area (0, 0, 2, 1) and plus pattern (1, 0, 1, 1), scaled by 2^31,
      has area (0, 0, MAX_VALUE, MAX_VALUE) and no plus pattern. */
  lemma SaturatedScaleDropsPattern(weight: real)
    ensures var c := Weak(Rect(0, 0, 2, 1), [Rect(1, 0, 1, 1)], [], weight);
      && Fits(c.plus[0], c.area.width, c.area.height)
      && Scaled(c, 0x8000_0000 as real).area == Rect(0, 0, IntMax, IntMax)
      && Scaled(c, 0x8000_0000 as real).plus == []
  {
    var c := Weak(Rect(0, 0, 2, 1), [Rect(1, 0, 1, 1)], [], weight);
    var s := 0x8000_0000 as real;
    SaturatedScaleMayNotFit();
    ScaledWeak(c, s);
    assert ScaleAll(c.plus, s) == [Rect(IntMax, 0, IntMax, IntMax)];
    assert Fitting(ScaleAll(c.plus, s), IntMax, IntMax) == [];
  }

  /** Scaling a strong classifier scales each member in place and keeps the
      weight of every classifier. */
  lemma ScaledStrong(c: Classifier, scale: real)
    ensures c.Strong? ==> Scaled(c, scale).Strong? && |Scaled(c, scale).members| == |c.members|
    ensures c.Strong? ==> forall i :: 0 <= i < |c.members| ==>
      Scaled(c, scale).members[i] == Scaled(c.members[i], scale)
    ensures Weight(Scaled(c, scale)) == Weight(c)
  {
  }

  // ---------------------------------------------------------------------
  // Matching
  // ---------------------------------------------------------------------

  /** The `meanValue` query for pattern `r` at scan position (posX, posY):
      the area's own origin is not added. */
  predicate PatternDefined(img: IntegralImage, r: Rect, posX: int, posY: int) {
    QueryDefined(img, r.x + posX, r.y + posY, r.width, r.height)
  }

  function PatternMean(img: IntegralImage, r: Rect, posX: int, posY: int): real
    requires PatternDefined(img, r, posX, posY)
  {
    MeanValue(img, r.x + posX, r.y + posY, r.width, r.height)
  }

  predicate AllDefined(img: IntegralImage, rs: seq<Rect>, posX: int, posY: int) {
    forall i :: 0 <= i < |rs| ==> PatternDefined(img, rs[i], posX, posY)
  }

  /** Every `meanValue` query of `matchAt` at (posX, posY) is defined. */
  predicate Defined(c: Classifier, img: IntegralImage, posX: int, posY: int)
    decreases c, 1
  {
    match c
    case Weak(_, plus, minus, _) =>
      AllDefined(img, plus, posX, posY) && AllDefined(img, minus, posX, posY)
    case Strong(members) => MembersDefined(members, img, posX, posY)
  }

  /** `Defined` for every member. */
  predicate MembersDefined(members: seq<Classifier>, img: IntegralImage, posX: int, posY: int)
    decreases members, 0
  {
    |members| == 0
    || (MembersDefined(members[..|members| - 1], img, posX, posY) && Defined(members[|members| - 1], img, posX, posY))
  }

  /** `plusMean += integral.meanValue(..)` over a pattern list: the int
      accumulator takes `(int)(acc + mean)` at every step. */
  function Accumulate(img: IntegralImage, rs: seq<Rect>, posX: int, posY: int): int
    requires AllDefined(img, rs, posX, posY)
    decreases |rs|
  {
    if |rs| == 0 then 0
    else
      var acc := Accumulate(img, rs[..|rs| - 1], posX, posY);
      Trunc(acc as real + PatternMean(img, rs[|rs| - 1], posX, posY))
  }

  /** Sum of the floors of the pattern means. */
  function SumOfFloors(img: IntegralImage, rs: seq<Rect>, posX: int, posY: int): int
    requires AllDefined(img, rs, posX, posY)
    decreases |rs|
  {
    if |rs| == 0 then 0
    else SumOfFloors(img, rs[..|rs| - 1], posX, posY) + PatternMean(img, rs[|rs| - 1], posX, posY).Floor
  }

  function Abs(v: int): int {
    if v < 0 then -v else v
  }

  /** The ungated `matchAt(image, posX, posY)`. Weak: `|P - M| / 255`, with
      P and M the truncating accumulations of the plus and minus means.
      Strong: the weighted sum of its members' ungated scores. */
  function Match(c: Classifier, img: IntegralImage, posX: int, posY: int): real
    requires Defined(c, img, posX, posY)
    decreases c, 1
  {
    match c
    case Weak(_, plus, minus, _) => WeakMatch(img, plus, minus, posX, posY)
    case Strong(members) => WeightedSum(members, img, posX, posY)
  }

  function WeakMatch(img: IntegralImage, plus: seq<Rect>, minus: seq<Rect>, posX: int, posY: int): real
    requires AllDefined(img, plus, posX, posY) && AllDefined(img, minus, posX, posY)
  {
    var p := Accumulate(img, plus, posX, posY);
    var m := Accumulate(img, minus, posX, posY);
    Normalize(Abs(p - m) as real, 0.0, 255.0)
  }

  /** `sum += classifier.matchAt(..) * classifier.getWeight()` over the
      members, first to last. */
  function WeightedSum(members: seq<Classifier>, img: IntegralImage, posX: int, posY: int): real
    requires MembersDefined(members, img, posX, posY)
    decreases members, 0
  {
    if |members| == 0 then 0.0
    else
      var last := members[|members| - 1];
      WeightedSum(members[..|members| - 1], img, posX, posY) + Weighted(Match(last, img, posX, posY), Weight(last))
  }

  /** `score * weight`, kept as a function of its own so that the solver
      treats a member's contribution as one term. */
  function Weighted(score: real, weight: real): real {
    score * weight
  }

  /** `match > threshold ? match : 0` */
  function Gate(threshold: real, score: real): real {
    if score > threshold then score else 0.0
  }

  /** The gated `matchAt(image, posX, posY, threshold)` of either classifier:
      the threshold applies to the classifier's own ungated score only. */
  function MatchAbove(c: Classifier, img: IntegralImage, posX: int, posY: int, threshold: real): (r: real)
    requires Defined(c, img, posX, posY)
    ensures r == Match(c, img, posX, posY) || r == 0.0
    ensures r == Match(c, img, posX, posY) <== Match(c, img, posX, posY) > threshold
    ensures r == 0.0 <== Match(c, img, posX, posY) <= threshold
  {
    Gate(threshold, Match(c, img, posX, posY))
  }

  /** On a non-negative grey image each accumulation step truncates the new
      mean alone: the accumulator is the sum of the floors of the means. */
  lemma {:induction false} AccumulateIsSumOfFloors(img: IntegralImage, gray: seq<int>, rs: seq<Rect>, posX: int, posY: int)
    requires Summarizes(img, gray) && NonNegative(gray) && AllDefined(img, rs, posX, posY)
    ensures Accumulate(img, rs, posX, posY) == SumOfFloors(img, rs, posX, posY)
    ensures 0 <= Accumulate(img, rs, posX, posY)
    decreases |rs|
  {
    if |rs| > 0 {
      var front, last := rs[..|rs| - 1], rs[|rs| - 1];
      assert AllDefined(img, front, posX, posY);
      AccumulateIsSumOfFloors(img, gray, front, posX, posY);
      MeanValueIsRegionMean(img, gray, last.x + posX, last.y + posY, last.width, last.height);
      var acc := Accumulate(img, front, posX, posY);
      var mean := PatternMean(img, last, posX, posY);
      assert (acc as real + mean).Floor == acc + mean.Floor;
    }
  }

  /** The weak score is `|P - M| / 255` with P and M the sums of the floored
      plus and minus means; it is never negative. */
  lemma WeakMatchValue(c: Classifier, img: IntegralImage, gray: seq<int>, posX: int, posY: int)
    requires c.Weak? && Defined(c, img, posX, posY)
    requires Summarizes(img, gray) && NonNegative(gray)
    ensures Match(c, img, posX, posY)
      == Abs(SumOfFloors(img, c.plus, posX, posY) - SumOfFloors(img, c.minus, posX, posY)) as real / 255.0
    ensures 0.0 <= Match(c, img, posX, posY)
  {
    AccumulateIsSumOfFloors(img, gray, c.plus, posX, posY);
    AccumulateIsSumOfFloors(img, gray, c.minus, posX, posY);
  }

  /** A weak classifier's gated score is 0 or its ungated score, and lies
      between 0 and the ungated score. */
  lemma WeakGatedBounds(c: Classifier, img: IntegralImage, posX: int, posY: int, threshold: real)
    requires c.Weak? && Defined(c, img, posX, posY)
    ensures 0.0 <= MatchAbove(c, img, posX, posY, threshold) <= Match(c, img, posX, posY)
  {
  }

  /** `addWeakClassifier`: appends the classifier at the end. */
  function AddWeakClassifier(c: Classifier, member: Classifier): (r: Classifier)
    requires c.Strong?
    ensures r.Strong? && |r.members| == |c.members| + 1
    ensures r.members[..|c.members|] == c.members && r.members[|c.members|] == member
  {
    Strong(c.members + [member])
  }

  /** Appending a member grows the strong area by the member's area. */
  lemma AddWeakClassifierArea(c: Classifier, member: Classifier)
    requires c.Strong?
    ensures Area(AddWeakClassifier(c, member)) == Add(Area(c), Area(member))
  {
    var ms := c.members;
    var ms' := ms + [member];
    var areas := seq(|ms|, i requires 0 <= i < |ms| => Area(ms[i]));
    var areas' := seq(|ms'|, i requires 0 <= i < |ms'| => Area(ms'[i]));
    assert areas'[..|areas'| - 1] == areas;
  }

  /** Appending a member adds its weighted ungated score to the strong
      score. */
  lemma {:induction false} AddWeakClassifierMatch(c: Classifier, member: Classifier, img: IntegralImage, posX: int, posY: int)
    requires c.Strong? && Defined(c, img, posX, posY) && Defined(member, img, posX, posY)
    ensures Defined(AddWeakClassifier(c, member), img, posX, posY)
    ensures Match(AddWeakClassifier(c, member), img, posX, posY)
         == Match(c, img, posX, posY) + Weighted(Match(member, img, posX, posY), Weight(member))
  {
    WeightedSumSnoc(c.members, member, img, posX, posY);
  }

  /** One step of `MembersDefined` and `WeightedSum` on an appended member. */
  lemma {:induction false} WeightedSumSnoc(ms: seq<Classifier>, member: Classifier, img: IntegralImage, posX: int, posY: int)
    requires MembersDefined(ms, img, posX, posY) && Defined(member, img, posX, posY)
    ensures MembersDefined(ms + [member], img, posX, posY)
    ensures WeightedSum(ms + [member], img, posX, posY)
         == WeightedSum(ms, img, posX, posY) + Weighted(Match(member, img, posX, posY), Weight(member))
  {
    var ms' := ms + [member];
    assert ms'[..|ms'| - 1] == ms && ms'[|ms'| - 1] == member;
  }

  /** An empty strong classifier scores 0 everywhere and has area
      (0, 0, 0, 0). */
  lemma EmptyStrong(img: IntegralImage, posX: int, posY: int, threshold: real)
    ensures Defined(Strong([]), img, posX, posY)
    ensures Match(Strong([]), img, posX, posY) == 0.0
    ensures MatchAbove(Strong([]), img, posX, posY, threshold) == 0.0
    ensures Area(Strong([])) == EmptyAtOrigin
  {
  }

  /** A strong classifier built from two members by `addWeakClassifier`. */
  lemma {:induction false} PairScore(a: Classifier, b: Classifier, img: IntegralImage, posX: int, posY: int)
    requires Defined(a, img, posX, posY) && Defined(b, img, posX, posY)
    ensures Defined(Strong([a, b]), img, posX, posY)
    ensures Match(Strong([a, b]), img, posX, posY)
         == Weighted(Match(a, img, posX, posY), Weight(a)) + Weighted(Match(b, img, posX, posY), Weight(b))
  {
    EmptyStrong(img, posX, posY, 0.0);
    AddWeakClassifierMatch(Strong([]), a, img, posX, posY);
    assert AddWeakClassifier(Strong([]), a) == Strong([a]);
    AddWeakClassifierMatch(Strong([a]), b, img, posX, posY);
    assert AddWeakClassifier(Strong([a]), b) == Strong([a, b]);
  }

  /** The strong threshold gates only the total: members that would each be
      gated to 0 still add up, and the sum passes once it exceeds the
      threshold. */
  lemma {:induction false} StrongGatesOnlyTheTotal(a: Classifier, b: Classifier, img: IntegralImage, posX: int, posY: int, threshold: real)
    requires Defined(a, img, posX, posY) && Defined(b, img, posX, posY)
    requires Weight(a) == 1.0 && Weight(b) == 1.0
    requires Match(a, img, posX, posY) <= threshold && Match(b, img, posX, posY) <= threshold
    requires Match(a, img, posX, posY) + Match(b, img, posX, posY) > threshold
    ensures MatchAbove(a, img, posX, posY, threshold) == 0.0 && MatchAbove(b, img, posX, posY, threshold) == 0.0
    ensures Defined(Strong([a, b]), img, posX, posY)
    ensures MatchAbove(Strong([a, b]), img, posX, posY, threshold)
         == Match(a, img, posX, posY) + Match(b, img, posX, posY)
  {
    PairScore(a, b, img, posX, posY);
    var ma, mb := Match(a, img, posX, posY), Match(b, img, posX, posY);
    assert Weighted(ma, 1.0) == ma && Weighted(mb, 1.0) == mb;
    assert Match(Strong([a, b]), img, posX, posY) == ma + mb;
  }
}
