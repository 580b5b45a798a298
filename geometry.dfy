/**
 * Intersection over union of two axis-aligned boxes.
 *
 * Every coordinate is an exact real; the floating-point rounding of the
 * original is not modelled.
 */
module Geometry {

  /** A box given as [xmin, ymin, xmax, ymax]. */
  datatype Box = Box(xmin: real, ymin: real, xmax: real, ymax: real)

  /** The box has its corners in the expected order (it may still have zero area). */
  predicate WellFormed(b: Box) {
    b.xmin <= b.xmax && b.ymin <= b.ymax
  }

  /** The box has positive width and height, so its interior is not empty. */
  predicate PositiveExtent(b: Box) {
    b.xmin < b.xmax && b.ymin < b.ymax
  }

  function Min(a: real, b: real): real { if a <= b then a else b }

  function Max(a: real, b: real): real { if a >= b then a else b }

  /** Signed extent of the overlap of the two boxes along x; not positive when they are apart. */
  function OverlapX(a: Box, b: Box): real {
    Min(a.xmax, b.xmax) - Max(a.xmin, b.xmin)
  }

  /** Signed extent of the overlap of the two boxes along y. */
  function OverlapY(a: Box, b: Box): real {
    Min(a.ymax, b.ymax) - Max(a.ymin, b.ymin)
  }

  /** Area of the overlap: the product of the two extents when both are positive, else 0. */
  function Intersection(a: Box, b: Box): (r: real)
    ensures r >= 0.0
    ensures r > 0.0 <==> OverlapX(a, b) > 0.0 && OverlapY(a, b) > 0.0
  {
    if OverlapX(a, b) > 0.0 && OverlapY(a, b) > 0.0 then OverlapX(a, b) * OverlapY(a, b) else 0.0
  }

  function Area(b: Box): real {
    (b.xmax - b.xmin) * (b.ymax - b.ymin)
  }

  function UnionArea(a: Box, b: Box): real {
    Area(a) + Area(b) - Intersection(a, b)
  }

  /**
   * IoU of a predicted box and a ground-truth box. The original divides by the
   * union and fails when it is zero, so a non-zero union is required here.
   */
  function Iou(a: Box, b: Box): (r: real)
    requires UnionArea(a, b) != 0.0
    ensures r * UnionArea(a, b) == Intersection(a, b)
    ensures r == 0.0 <==> OverlapX(a, b) <= 0.0 || OverlapY(a, b) <= 0.0
  {
    Intersection(a, b) / UnionArea(a, b)
  }

  /** IoU does not depend on which box is the prediction. */
  lemma IouSymmetric(a: Box, b: Box)
    requires UnionArea(a, b) != 0.0
    ensures UnionArea(b, a) == UnionArea(a, b)
    ensures Iou(a, b) == Iou(b, a)
  {
    assert OverlapX(a, b) == OverlapX(b, a);
    assert OverlapY(a, b) == OverlapY(b, a);
  }

  /** For non-negative factors, the product is monotonic in both. */
  lemma MulMonotonic(x1: real, x2: real, y1: real, y2: real)
    requires 0.0 <= x1 <= x2 && 0.0 <= y1 <= y2
    ensures x1 * y1 <= x2 * y2
  {
    assert x1 * y1 <= x2 * y1;
    assert x2 * y1 <= x2 * y2;
  }

  lemma MulPositive(x: real, y: real)
    requires x > 0.0 && y > 0.0
    ensures x * y > 0.0
  {
  }

  /** The overlap never exceeds either box. */
  lemma IntersectionWithinArea(a: Box, b: Box)
    requires WellFormed(a) && WellFormed(b)
    ensures 0.0 <= Intersection(a, b) <= Area(a)
    ensures Intersection(a, b) <= Area(b)
  {
    IntersectionWithinFirst(a, b);
    IntersectionWithinFirst(b, a);
    assert OverlapX(a, b) == OverlapX(b, a) && OverlapY(a, b) == OverlapY(b, a);
  }

  lemma IntersectionWithinFirst(a: Box, b: Box)
    requires WellFormed(a)
    ensures Intersection(a, b) <= Area(a)
  {
    var w, h := a.xmax - a.xmin, a.ymax - a.ymin;
    MulMonotonic(0.0, w, 0.0, h);
    var dx, dy := OverlapX(a, b), OverlapY(a, b);
    if dx > 0.0 && dy > 0.0 {
      assert dx <= w && dy <= h;
      MulMonotonic(dx, w, dy, h);
    }
  }

  /** For well-formed boxes with a non-zero union, IoU lies in [0, 1]. */
  lemma IouInUnitInterval(a: Box, b: Box)
    requires WellFormed(a) && WellFormed(b)
    requires UnionArea(a, b) != 0.0
    ensures 0.0 <= Iou(a, b) <= 1.0
  {
    IntersectionWithinArea(a, b);
    RatioInUnitInterval(Intersection(a, b), UnionArea(a, b));
  }

  lemma RatioInUnitInterval(i: real, u: real)
    requires 0.0 <= i <= u && u != 0.0
    ensures 0.0 <= i / u <= 1.0
  {
    assert u > 0.0;
    var r := i / u;
    assert r * u == i;
    if r > 1.0 {
      MulMonotonic(1.0, r, u, u);
    }
  }

  /** A box with positive width and height has IoU 1 with itself. */
  lemma IouWithItself(b: Box)
    requires PositiveExtent(b)
    ensures UnionArea(b, b) == Area(b) > 0.0
    ensures Iou(b, b) == 1.0
  {
    assert OverlapX(b, b) == b.xmax - b.xmin;
    assert OverlapY(b, b) == b.ymax - b.ymin;
    MulPositive(b.xmax - b.xmin, b.ymax - b.ymin);
    assert Intersection(b, b) == Area(b);
    assert UnionArea(b, b) == Area(b);
    assert Iou(b, b) == Area(b) / Area(b);
  }

  /** Boxes [0,0,1,1] and [0.5,0.5,1.5,1.5] overlap in 0.25 of a union of 1.75. */
  lemma IouOfShiftedUnitBoxes()
    ensures Intersection(Box(0.0, 0.0, 1.0, 1.0), Box(0.5, 0.5, 1.5, 1.5)) == 0.25
    ensures UnionArea(Box(0.0, 0.0, 1.0, 1.0), Box(0.5, 0.5, 1.5, 1.5)) == 1.75
    ensures Iou(Box(0.0, 0.0, 1.0, 1.0), Box(0.5, 0.5, 1.5, 1.5)) == 1.0 / 7.0
  {
  }
}
