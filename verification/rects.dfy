/**
 Integer rectangles (`java.awt.Rectangle`) as the classifiers use them:
 bounding-box union, containment, the pattern fit test and scaling.
 */
module Rects {
  import opened Numerics

  /** Top-left corner (x, y) and extent. */
  datatype Rect = Rect(x: int, y: int, width: int, height: int)

  const EmptyAtOrigin: Rect := Rect(0, 0, 0, 0)

  function Right(r: Rect): int {
    r.x + r.width
  }

  function Bottom(r: Rect): int {
    r.y + r.height
  }

  /** Neither dimension is negative. `Rectangle.add` ignores an argument
      that fails this and reshapes a receiver that fails it. */
  predicate HasExtent(r: Rect) {
    0 <= r.width && 0 <= r.height
  }

  predicate Contains(outer: Rect, inner: Rect) {
    && outer.x <= inner.x && outer.y <= inner.y
    && Right(inner) <= Right(outer) && Bottom(inner) <= Bottom(outer)
  }

  function Min(a: int, b: int): int {
    if a <= b then a else b
  }

  function Max(a: int, b: int): int {
    if a >= b then a else b
  }

  /** `a.add(r)` of `java.awt.Rectangle`, as the JDK code computes it: a
      receiver with a negative dimension is first moved to the argument's
      place, but its old width and height still count from the argument's
      origin; an argument with a negative dimension adds nothing more;
      otherwise the result is the bounding box of both. */
  function Add(a: Rect, r: Rect): (u: Rect)
    ensures HasExtent(a) && HasExtent(r) ==> HasExtent(u) && Contains(u, a) && Contains(u, r)
    ensures HasExtent(a) && !HasExtent(r) ==> u == a
    ensures !HasExtent(a) && !HasExtent(r) ==> u == r
    ensures !HasExtent(a) && HasExtent(r) ==>
      && HasExtent(u) && Contains(u, r) && u.x == r.x && u.y == r.y
      && a.width <= u.width && (u.width == a.width || u.width == r.width)
      && a.height <= u.height && (u.height == a.height || u.height == r.height)
  {
    if !HasExtent(a) then
      if !HasExtent(r) then r
      else Rect(r.x, r.y, Max(a.width, r.width), Max(a.height, r.height))
    else if !HasExtent(r) then a
    else
      var x, y := Min(a.x, r.x), Min(a.y, r.y);
      Rect(x, y, Max(Right(a), Right(r)) - x, Max(Bottom(a), Bottom(r)) - y)
  }

  /** A receiver that is empty in one direction only keeps its extent in
      the other: (0, 0, -1, 10) grown by (0, 0, 2, 3) is (0, 0, 2, 10). */
  lemma AddToNegativeReceiver()
    ensures Add(Rect(0, 0, -1, 10), Rect(0, 0, 2, 3)) == Rect(0, 0, 2, 10)
  {
  }

  /** The union is the smallest rectangle containing both. */
  lemma AddIsLeast(a: Rect, r: Rect, b: Rect)
    requires HasExtent(a) && HasExtent(r)
    requires Contains(b, a) && Contains(b, r)
    ensures Contains(b, Add(a, r))
  {
  }

  lemma ContainsTransitive(a: Rect, b: Rect, c: Rect)
    requires Contains(a, b) && Contains(b, c)
    ensures Contains(a, c)
  {
  }

  /** `start.add(rs[0]); start.add(rs[1]); ...` */
  function UnionAll(start: Rect, rs: seq<Rect>): Rect
    decreases |rs|
  {
    if |rs| == 0 then start else Add(UnionAll(start, rs[..|rs| - 1]), rs[|rs| - 1])
  }

  /** Growing a rectangle by a list of others keeps the start and every
      rectangle of the list that has an extent, and adds nothing more: any
      rectangle containing those also contains the union. */
  lemma {:induction false} UnionAllBounds(start: Rect, rs: seq<Rect>)
    requires HasExtent(start)
    ensures HasExtent(UnionAll(start, rs))
    ensures Contains(UnionAll(start, rs), start)
    ensures forall i :: 0 <= i < |rs| && HasExtent(rs[i]) ==> Contains(UnionAll(start, rs), rs[i])
    ensures forall b ::
      (Contains(b, start) && (forall i :: 0 <= i < |rs| && HasExtent(rs[i]) ==> Contains(b, rs[i])))
      ==> Contains(b, UnionAll(start, rs))
    decreases |rs|
  {
    if |rs| > 0 {
      var front := rs[..|rs| - 1];
      var last := rs[|rs| - 1];
      UnionAllBounds(start, front);
      var u := UnionAll(start, front);
      forall i | 0 <= i < |rs| && HasExtent(rs[i])
        ensures Contains(UnionAll(start, rs), rs[i])
      {
        if i < |rs| - 1 {
          assert rs[i] == front[i];
          if HasExtent(last) {
            ContainsTransitive(UnionAll(start, rs), u, rs[i]);
          }
        }
      }
      if HasExtent(last) {
        ContainsTransitive(UnionAll(start, rs), u, start);
      }
      forall b | Contains(b, start) && (forall i :: 0 <= i < |rs| && HasExtent(rs[i]) ==> Contains(b, rs[i]))
        ensures Contains(b, UnionAll(start, rs))
      {
        assert forall i :: 0 <= i < |front| && HasExtent(front[i]) ==> Contains(b, front[i]) by {
          forall i | 0 <= i < |front| && HasExtent(front[i])
            ensures Contains(b, front[i])
          {
            assert front[i] == rs[i];
          }
        }
        if HasExtent(last) {
          AddIsLeast(u, last, b);
        }
      }
    }
  }

  /** `isInBoundaries(rec, maxWidth, maxHeight)`: the far edges of `rec` do
      not pass the given width and height. Its origin is not checked. */
  predicate Fits(rec: Rect, maxWidth: int, maxHeight: int) {
    Right(rec) <= maxWidth && Bottom(rec) <= maxHeight
  }

  /** `scaleRec`: every coordinate and extent multiplied by `scale` and
      cast to `int`. */
  function ScaleRect(r: Rect, scale: real): Rect {
    Rect(Scale(r.x, scale), Scale(r.y, scale), Scale(r.width, scale), Scale(r.height, scale))
  }

  /** `(int)(v * scale)`: truncated toward zero, saturating at the bounds of
      `int`. */
  function Scale(v: int, scale: real): (r: int)
    ensures IsJavaInt(r)
    ensures 0 <= v && 0.0 <= scale ==> 0 <= r
  {
    ToJavaInt(v as real * scale)
  }

  /** `v * scale`, truncated, does not pass `Integer.MAX_VALUE`, so the cast
      does not saturate. */
  predicate ScalesWithinInt(v: int, scale: real) {
    Trunc(v as real * scale) <= IntMax
  }

  predicate NonNegativeRect(r: Rect) {
    0 <= r.x && 0 <= r.y && 0 <= r.width && 0 <= r.height
  }

  lemma TruncSuperadditive(a: real, b: real)
    requires 0.0 <= a && 0.0 <= b
    ensures Trunc(a) + Trunc(b) <= Trunc(a + b)
  {
  }

  lemma TruncMonotone(a: real, b: real)
    requires 0.0 <= a <= b
    ensures Trunc(a) <= Trunc(b)
  {
  }

  /** A non-negative rectangle that fits W x H still fits the scaled
      (int)(W*s) x (int)(H*s) after scaling by s >= 0 as long as the scaled
      area does not saturate, because trunc(a*s) + trunc(b*s) <= trunc((a+b)*s).
      Once it saturates, the rectangle fits exactly when its scaled far
      edges stay within `Integer.MAX_VALUE`. */
  lemma ScaledStillFits(r: Rect, maxWidth: int, maxHeight: int, scale: real)
    requires NonNegativeRect(r) && 0.0 <= scale && Fits(r, maxWidth, maxHeight)
    ensures ScalesWithinInt(maxWidth, scale) && ScalesWithinInt(maxHeight, scale) ==>
      Fits(ScaleRect(r, scale), Scale(maxWidth, scale), Scale(maxHeight, scale))
    ensures Fits(ScaleRect(r, scale), Scale(maxWidth, scale), Scale(maxHeight, scale)) <==>
      && (ScalesWithinInt(maxWidth, scale) || Right(ScaleRect(r, scale)) <= IntMax)
      && (ScalesWithinInt(maxHeight, scale) || Bottom(ScaleRect(r, scale)) <= IntMax)
  {
    ScaledSpanFits(r.x, r.width, maxWidth, scale);
    ScaledSpanFits(r.y, r.height, maxHeight, scale);
  }

  /** One axis of `ScaledStillFits`. */
  lemma ScaledSpanFits(a: int, b: int, limit: int, scale: real)
    requires 0 <= a && 0 <= b && a + b <= limit && 0.0 <= scale
    ensures ScalesWithinInt(limit, scale) ==> Scale(a, scale) + Scale(b, scale) <= Scale(limit, scale)
    ensures Scale(a, scale) + Scale(b, scale) <= Scale(limit, scale) <==>
      ScalesWithinInt(limit, scale) || Scale(a, scale) + Scale(b, scale) <= IntMax
  {
    var sa, sb, sl := a as real * scale, b as real * scale, limit as real * scale;
    assert 0.0 <= sa && 0.0 <= sb;
    assert sa + sb == (a + b) as real * scale;
    assert (a + b) as real * scale <= sl by {
      assert (limit - (a + b)) as real * scale >= 0.0;
    }
    TruncSuperadditive(sa, sb);
    TruncMonotone(sa + sb, sl);
    TruncMonotone(sa, sl);
    TruncMonotone(sb, sl);
  }

  /** Saturation can break the fit: (1, 0, 1, 1) fits a 2 x 1 area, but
      scaled by 2^31 every value saturates to `Integer.MAX_VALUE`, and the
      scaled right edge 2 * MAX_VALUE passes the scaled width MAX_VALUE. */
  lemma SaturatedScaleMayNotFit()
    ensures Fits(Rect(1, 0, 1, 1), 2, 1)
    ensures !ScalesWithinInt(2, 0x8000_0000 as real)
    ensures ScaleRect(Rect(1, 0, 1, 1), 0x8000_0000 as real) == Rect(IntMax, 0, IntMax, IntMax)
    ensures Scale(2, 0x8000_0000 as real) == IntMax && Scale(1, 0x8000_0000 as real) == IntMax
    ensures !Fits(ScaleRect(Rect(1, 0, 1, 1), 0x8000_0000 as real), Scale(2, 0x8000_0000 as real), Scale(1, 0x8000_0000 as real))
  {
  }

  /** The origin check cannot be dropped: (-1, 0, 2, 1) fits a 1 x 1 area,
      but scaled by 0.5 it becomes (0, 0, 1, 0), which does not fit the
      scaled 0 x 0 area, because truncation rounds -0.5 up to 0. */
  lemma NegativeOriginMayNotFit()
    ensures Fits(Rect(-1, 0, 2, 1), 1, 1)
    ensures !Fits(ScaleRect(Rect(-1, 0, 2, 1), 0.5), Scale(1, 0.5), Scale(1, 0.5))
  {
  }
}
