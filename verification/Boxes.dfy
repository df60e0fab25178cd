/** Detection boxes: overlap geometry and the score-weighted vote over box corners. */
module Boxes {

  /** The members of BBox that suppression reads or writes; id stands for all its other members. */
  datatype BBox = BBox(score: real, x1: real, y1: real, x2: real, y2: real, id: int)

  /** Outcome of a run: an aborting CHECK or a throwing resize ends the program. */
  datatype Result<+T> = Success(value: T) | Failure(error: Error)
  datatype Error = NegativeScore | NoCandidate | NegativeLength

  function Score(b: BBox): real { b.score }

  function Max(a: real, b: real): real { if a < b then b else a }

  function Min(a: real, b: real): real { if b < a then b else a }

  /** bsz01: 1 when box sizes count both end pixels, else 0. */
  function SizeOffset(addOne: bool): real { if addOne then 1.0 else 0.0 }

  function OverlapWidth(a: BBox, b: BBox, off: real): real { Min(a.x2, b.x2) - Max(a.x1, b.x1) + off }

  function OverlapHeight(a: BBox, b: BBox, off: real): real { Min(a.y2, b.y2) - Max(a.y1, b.y1) + off }

  predicate Intersects(a: BBox, b: BBox, off: real) {
    OverlapWidth(a, b, off) > 0.0 && OverlapHeight(a, b, off) > 0.0
  }

  function Times(x: real, y: real): real { x * y }

  function Area(a: BBox, off: real): real { Times(a.x2 - a.x1 + off, a.y2 - a.y1 + off) }

  function OverlapArea(a: BBox, b: BBox, off: real): real {
    Times(OverlapWidth(a, b, off), OverlapHeight(a, b, off))
  }

  lemma ProductMonotone(w: real, h: real, a: real, b: real)
    requires 0.0 < w <= a && 0.0 < h <= b
    ensures 0.0 < Times(w, h) <= Times(a, b)
  {
    assert w * h <= a * h;
    assert a * h <= a * b;
  }

  /** When two boxes intersect, the shared part is no larger than either box. */
  lemma OverlapWithinBoth(a: BBox, b: BBox, off: real)
    requires Intersects(a, b, off)
    ensures 0.0 < OverlapArea(a, b, off) <= Area(a, off)
    ensures OverlapArea(a, b, off) <= Area(b, off)
  {
    hide Times;
    var w, h := OverlapWidth(a, b, off), OverlapHeight(a, b, off);
    ProductMonotone(w, h, a.x2 - a.x1 + off, a.y2 - a.y1 + off);
    ProductMonotone(w, h, b.x2 - b.x1 + off, b.y2 - b.y1 + off);
  }

  /** The quotient the program computes from the intersection and the two areas. */
  function OverlapRatio(inter: real, areaA: real, areaB: real): real
    requires areaA + areaB - inter != 0.0
  {
    inter / (areaA + areaB - inter)
  }

  lemma ScaleMonotone(a: real, b: real, s: real)
    requires a <= b && s >= 0.0
    ensures a * s <= b * s
  {
  }

  lemma ScaleCancels(a: real, b: real, s: real)
    requires s > 0.0 && a * s <= b * s
    ensures a <= b
  {
    assert (b - a) * s >= 0.0;
  }

  lemma QuotientInUnit(x: real, d: real)
    requires 0.0 < x <= d
    ensures 0.0 < x / d <= 1.0
  {
    var q := x / d;
    assert q * d == x;
    ScaleCancels(q, 1.0, d);
    ScaleCancels(0.0, q, d);
  }

  /** Every division is defined: the union is at least the larger area, so the ratio is in (0, 1]. */
  lemma RatioInUnit(a: BBox, b: BBox, off: real)
    requires Intersects(a, b, off)
    ensures Area(a, off) + Area(b, off) - OverlapArea(a, b, off) >= Max(Area(a, off), Area(b, off)) > 0.0
    ensures 0.0 < OverlapRatio(OverlapArea(a, b, off), Area(a, off), Area(b, off)) <= 1.0
  {
    OverlapWithinBoth(a, b, off);
    QuotientInUnit(OverlapArea(a, b, off), Area(a, off) + Area(b, off) - OverlapArea(a, b, off));
  }

  /** Intersection over union. */
  function Iou(a: BBox, b: BBox, off: real): (o: real)
    requires Intersects(a, b, off)
    ensures 0.0 < o <= 1.0
  {
    RatioInUnit(a, b, off);
    OverlapRatio(OverlapArea(a, b, off), Area(a, off), Area(b, off))
  }

  /** The overlap test of both suppression loops: whether the boxes meet and, if so, their ratio. */
  method MeasureOverlap(a: BBox, b: BBox, areaA: real, areaB: real, off: real) returns (meet: bool, o: real)
    requires areaA == Area(a, off) && areaB == Area(b, off)
    ensures meet == Intersects(a, b, off)
    ensures meet ==> o == Iou(a, b, off)
  {
    var w := Min(a.x2, b.x2) - Max(a.x1, b.x1) + off;
    var h := Min(a.y2, b.y2) - Max(a.y1, b.y1) + off;
    meet, o := w > 0.0 && h > 0.0, 0.0;
    if meet {
      RatioInUnit(a, b, off);
      o := w * h;
      o := o / (areaA + areaB - o);
    }
  }

  lemma IouIsSymmetric(a: BBox, b: BBox, off: real)
    ensures Intersects(a, b, off) == Intersects(b, a, off)
    ensures Intersects(a, b, off) ==> Iou(a, b, off) == Iou(b, a, off)
  {
    if Intersects(a, b, off) {
      assert OverlapArea(a, b, off) == OverlapArea(b, a, off);
    }
  }

  predicate SameCorners(a: BBox, b: BBox) {
    a.x1 == b.x1 && a.y1 == b.y1 && a.x2 == b.x2 && a.y2 == b.y2
  }

  /** Geometry reads the corners only: rewriting a score changes no area and no overlap. */
  lemma GeometryIgnoresScore(a: BBox, a': BBox, b: BBox, b': BBox, off: real)
    requires SameCorners(a, a') && SameCorners(b, b')
    ensures Area(a, off) == Area(a', off)
    ensures Intersects(a, b, off) == Intersects(a', b', off)
    ensures Intersects(a, b, off) ==> Iou(a, b, off) == Iou(a', b', off)
  {
  }

  /** s_vt, x1_vt, y1_vt, x2_vt, y2_vt. */
  datatype Vote = Vote(s: real, x1: real, y1: real, x2: real, y2: real) {
    /** The vote after box b joins with weight w. */
    function Cast(b: BBox, w: real): Vote {
      Vote(s + w, x1 + Times(b.x1, w), y1 + Times(b.y1, w),
           x2 + Times(b.x2, w), y2 + Times(b.y2, w))
    }
  }

  lemma CastIgnoresScore(v: Vote, a: BBox, b: BBox, w: real)
    requires SameCorners(a, b)
    ensures v.Cast(a, w) == v.Cast(b, w)
  {
  }

  /** The vote a picked box opens with; without voting the corner sums stay 0. */
  function OpeningVote(b: BBox, voting: bool): Vote {
    if voting then Vote(b.score, Times(b.x1, b.score), Times(b.y1, b.score), Times(b.x2, b.score), Times(b.y2, b.score))
    else Vote(b.score, 0.0, 0.0, 0.0, 0.0)
  }

  /** The corner rewrite at the end of a round, skipped when the weights are too small. */
  function Voted(b: BBox, v: Vote, voting: bool): BBox {
    if voting && v.s > 0.0001 then
      b.(x1 := v.x1 / v.s, y1 := v.y1 / v.s, x2 := v.x2 / v.s, y2 := v.y2 / v.s)
    else b
  }

  /** A corner of a box, or one to count the weights. */
  datatype Coordinate = One | X1 | Y1 | X2 | Y2 {
    function Of(b: BBox): real {
      match this
      case One => 1.0
      case X1 => b.x1
      case Y1 => b.y1
      case X2 => b.x2
      case Y2 => b.y2
    }

    function In(v: Vote): real {
      match this
      case One => v.s
      case X1 => v.x1
      case Y1 => v.y1
      case X2 => v.x2
      case Y2 => v.y2
    }
  }

  lemma CastAdds(v: Vote, b: BBox, w: real, c: Coordinate)
    ensures c.In(v.Cast(b, w)) == c.In(v) + Times(c.Of(b), w)
  {
  }

  lemma OpeningIs(b: BBox, c: Coordinate)
    ensures c.In(OpeningVote(b, true)) == Times(c.Of(b), b.score)
  {
  }

  /** The rewritten corners are the corner sums divided by the weights. */
  lemma VotedIsMean(b: BBox, v: Vote, voting: bool)
    ensures var f := Voted(b, v, voting);
      && f.score == b.score && f.id == b.id
      && if voting && v.s > 0.0001 then
           f.x1 * v.s == v.x1 && f.y1 * v.s == v.y1 && f.x2 * v.s == v.x2 && f.y2 * v.s == v.y2
         else SameCorners(f, b)
  {
  }

  ghost predicate Within(lo: real, sum: real, hi: real, weight: real) {
    lo * weight <= sum <= hi * weight
  }

  /** Vote v is a non-negative weighting of boxes whose corners lie between lo's and hi's. */
  ghost predicate WeightedBetween(v: Vote, lo: BBox, hi: BBox) {
    && v.s >= 0.0
    && Within(lo.x1, v.x1, hi.x1, v.s) && Within(lo.y1, v.y1, hi.y1, v.s)
    && Within(lo.x2, v.x2, hi.x2, v.s) && Within(lo.y2, v.y2, hi.y2, v.s)
  }

  ghost predicate CornersBetween(b: BBox, lo: BBox, hi: BBox) {
    lo.x1 <= b.x1 <= hi.x1 && lo.y1 <= b.y1 <= hi.y1 && lo.x2 <= b.x2 <= hi.x2 && lo.y2 <= b.y2 <= hi.y2
  }

  lemma SumWithin(lo: real, x: real, hi: real, sum: real, s: real, w: real)
    requires lo <= x <= hi && w >= 0.0 && Within(lo, sum, hi, s)
    ensures Within(lo, sum + Times(x, w), hi, s + w)
  {
    ScaleMonotone(lo, x, w);
    ScaleMonotone(x, hi, w);
  }

  lemma OpeningBetween(b: BBox, lo: BBox, hi: BBox)
    requires CornersBetween(b, lo, hi) && b.score >= 0.0
    ensures WeightedBetween(OpeningVote(b, true), lo, hi)
  {
    CastStaysBetween(Vote(0.0, 0.0, 0.0, 0.0, 0.0), b, b.score, lo, hi);
  }

  lemma CastStaysBetween(v: Vote, b: BBox, w: real, lo: BBox, hi: BBox)
    requires WeightedBetween(v, lo, hi) && CornersBetween(b, lo, hi) && w >= 0.0
    ensures WeightedBetween(v.Cast(b, w), lo, hi)
  {
    hide Times;
    hide Within;
    var after := v.Cast(b, w);
    assert Within(lo.x1, after.x1, hi.x1, after.s) by { SumWithin(lo.x1, b.x1, hi.x1, v.x1, v.s, w); }
    assert Within(lo.y1, after.y1, hi.y1, after.s) by { SumWithin(lo.y1, b.y1, hi.y1, v.y1, v.s, w); }
    assert Within(lo.x2, after.x2, hi.x2, after.s) by { SumWithin(lo.x2, b.x2, hi.x2, v.x2, v.s, w); }
    assert Within(lo.y2, after.y2, hi.y2, after.s) by { SumWithin(lo.y2, b.y2, hi.y2, v.y2, v.s, w); }
  }

  lemma MeanBetween(lo: real, sum: real, hi: real, s: real)
    requires s > 0.0 && Within(lo, sum, hi, s)
    ensures lo <= sum / s <= hi
  {
    var m := sum / s;
    assert m * s == sum;
    ScaleCancels(lo, m, s);
    ScaleCancels(m, hi, s);
  }

  /** The rewritten corners are weighted means: they stay between those of the contributing boxes. */
  lemma VotedStaysBetween(b: BBox, v: Vote, lo: BBox, hi: BBox)
    requires WeightedBetween(v, lo, hi) && CornersBetween(b, lo, hi)
    ensures CornersBetween(Voted(b, v, true), lo, hi)
  {
    if v.s > 0.0001 {
      MeanBetween(lo.x1, v.x1, hi.x1, v.s);
      MeanBetween(lo.y1, v.y1, hi.y1, v.s);
      MeanBetween(lo.x2, v.x2, hi.x2, v.s);
      MeanBetween(lo.y2, v.y2, hi.y2, v.s);
    }
  }

  predicate Proper(b: BBox) { b.x1 <= b.x2 && b.y1 <= b.y2 }

  /** A non-negative weighting of proper boxes has its corner sums in order. */
  ghost predicate SumsInOrder(v: Vote) { v.s >= 0.0 && v.x1 <= v.x2 && v.y1 <= v.y2 }

  lemma OpeningInOrder(b: BBox)
    requires Proper(b) && b.score >= 0.0
    ensures SumsInOrder(OpeningVote(b, true))
  {
    CastKeepsOrder(Vote(0.0, 0.0, 0.0, 0.0, 0.0), b, b.score);
  }

  lemma CastKeepsOrder(v: Vote, b: BBox, w: real)
    requires SumsInOrder(v) && Proper(b) && w >= 0.0
    ensures SumsInOrder(v.Cast(b, w))
  {
    SumKeepsOrder(v.x1, v.x2, b.x1, b.x2, w);
    SumKeepsOrder(v.y1, v.y2, b.y1, b.y2, w);
  }

  lemma SumKeepsOrder(a: real, b: real, x: real, y: real, w: real)
    requires a <= b && x <= y && w >= 0.0
    ensures a + x * w <= b + y * w
  {
    assert (y - x) * w >= 0.0;
  }

  lemma QuotientOrder(a: real, b: real, s: real)
    requires a <= b && s > 0.0
    ensures a / s <= b / s
  {
    var p, q := a / s, b / s;
    assert p * s == a && q * s == b;
    ScaleCancels(p, q, s);
  }

  lemma VotedIsProper(b: BBox, v: Vote)
    requires SumsInOrder(v) && Proper(b)
    ensures Proper(Voted(b, v, true))
  {
    if v.s > 0.0001 {
      QuotientOrder(v.x1, v.x2, v.s);
      QuotientOrder(v.y1, v.y2, v.s);
    }
  }
}
