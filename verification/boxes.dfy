/**
 * The rectangle differ's own Rectangle: an origin (x, y) with a width and a height, covering
 * the cells x <= px < x + width and y <= py < y + height. Overlap, closeness and combination
 * are what the merge step uses to fuse nearby regions.
 */
module Boxes {

  datatype Box = Box(x: int, y: int, width: int, height: int)

  function Right(r: Box): int { r.x + r.width }
  function Bottom(r: Box): int { r.y + r.height }

  /** A box with a non-negative extent on both axes. */
  predicate Proper(r: Box)
  {
    r.width >= 0 && r.height >= 0
  }

  /** The cell (px, py) lies in r. */
  predicate Covers(r: Box, px: int, py: int)
  {
    r.x <= px < Right(r) && r.y <= py < Bottom(r)
  }

  /** outer reaches at least as far as inner on all four sides. */
  predicate Encloses(outer: Box, inner: Box)
  {
    outer.x <= inner.x && Right(inner) <= Right(outer) &&
    outer.y <= inner.y && Bottom(inner) <= Bottom(outer)
  }

  lemma EnclosesTransitive(a: Box, b: Box, c: Box)
    requires Encloses(a, b) && Encloses(b, c)
    ensures Encloses(a, c)
  {
  }

  /** An enclosing box covers every cell of the box it encloses. */
  lemma EnclosesCovers(outer: Box, inner: Box, px: int, py: int)
    requires Encloses(outer, inner) && Covers(inner, px, py)
    ensures Covers(outer, px, py)
  {
  }

  /** rectanglesOverlap: neither box lies wholly to one side of the other. */
  predicate Overlap(r1: Box, r2: Box)
  {
    !(Right(r1) <= r2.x || Right(r2) <= r1.x || Bottom(r1) <= r2.y || Bottom(r2) <= r1.y)
  }

  lemma OverlapSymmetric(r1: Box, r2: Box)
    ensures Overlap(r1, r2) <==> Overlap(r2, r1)
  {
  }

  /** Boxes that only touch along a vertical or a horizontal edge do not overlap. */
  lemma SharedEdgeIsNoOverlap(r1: Box, r2: Box)
    requires Right(r1) == r2.x || Bottom(r1) == r2.y
    ensures !Overlap(r1, r2)
  {
  }

  /** For boxes with a positive extent, overlapping means sharing a cell. */
  lemma OverlapIsSharedCell(r1: Box, r2: Box)
    requires r1.width > 0 && r1.height > 0 && r2.width > 0 && r2.height > 0
    ensures Overlap(r1, r2) <==> exists px, py :: Covers(r1, px, py) && Covers(r2, px, py)
  {
    if Overlap(r1, r2) {
      var px := if r1.x < r2.x then r2.x else r1.x;
      var py := if r1.y < r2.y then r2.y else r1.y;
      assert Covers(r1, px, py) && Covers(r2, px, py);
    }
  }

  /** The box grown by t on every side. */
  function Expand(r: Box, t: int): (e: Box)
    ensures e.x == r.x - t && Right(e) == Right(r) + t
    ensures e.y == r.y - t && Bottom(e) == Bottom(r) + t
  {
    Box(r.x - t, r.y - t, r.width + 2 * t, r.height + 2 * t)
  }

  /** rectanglesClose: the boxes overlap once both are grown by threshold on every side. */
  predicate Close(r1: Box, r2: Box, threshold: int)
  {
    Overlap(Expand(r1, threshold), Expand(r2, threshold))
  }

  /** Closeness is overlap of gaps smaller than twice the threshold, on both axes. */
  lemma CloseMeansSmallGaps(r1: Box, r2: Box, t: int)
    ensures Close(r1, r2, t) <==>
              r2.x - Right(r1) < 2 * t && r1.x - Right(r2) < 2 * t &&
              r2.y - Bottom(r1) < 2 * t && r1.y - Bottom(r2) < 2 * t
  {
  }

  /** With a non-negative threshold, overlapping boxes are close. */
  lemma OverlapImpliesClose(r1: Box, r2: Box, t: int)
    requires t >= 0 && Overlap(r1, r2)
    ensures Close(r1, r2, t)
  {
  }

  lemma CloseSymmetric(r1: Box, r2: Box, t: int)
    ensures Close(r1, r2, t) <==> Close(r2, r1, t)
  {
  }

  /** The merge test: overlapping, or close within 10 pixels. */
  predicate Mergeable(r1: Box, r2: Box)
  {
    Overlap(r1, r2) || Close(r1, r2, 10)
  }

  /** Since overlap implies closeness, the merge test is closeness alone. */
  lemma MergeableIsClose(r1: Box, r2: Box)
    ensures Mergeable(r1, r2) <==> Close(r1, r2, 10)
  {
    if Overlap(r1, r2) {
      OverlapImpliesClose(r1, r2, 10);
    }
  }

  /** combineRectangles: the box from the smaller origin to the larger far corner. */
  function Combine(r1: Box, r2: Box): (c: Box)
    ensures Encloses(c, r1) && Encloses(c, r2)
  {
    var minX := if r2.x < r1.x then r2.x else r1.x;
    var minY := if r2.y < r1.y then r2.y else r1.y;
    var maxX := if Right(r2) > Right(r1) then Right(r2) else Right(r1);
    var maxY := if Bottom(r2) > Bottom(r1) then Bottom(r2) else Bottom(r1);
    Box(minX, minY, maxX - minX, maxY - minY)
  }

  /** Every box enclosing both inputs encloses their combination: it is the smallest such box. */
  lemma CombineSmallest(r1: Box, r2: Box, c: Box)
    requires Encloses(c, r1) && Encloses(c, r2)
    ensures Encloses(c, Combine(r1, r2))
  {
  }

  lemma CombineCommutative(r1: Box, r2: Box)
    ensures Combine(r1, r2) == Combine(r2, r1)
  {
  }

  /** Combining proper boxes gives a proper box. */
  lemma CombineProper(r1: Box, r2: Box)
    requires Proper(r1) || Proper(r2)
    ensures Proper(Combine(r1, r2))
  {
  }

  /** Combining a box with one it already encloses changes nothing. */
  lemma CombineAbsorbs(r1: Box, r2: Box)
    requires Proper(r1) && Encloses(r1, r2)
    ensures Combine(r1, r2) == r1
  {
  }
}
