/**
 * The output half of the rectangle differ's Calculate: a copy of the target with a red frame,
 * three pixels thick, drawn around each merged box, and the diff amount as the boxes' total
 * area over the area of the union of the bounds.
 *
 * Frame ring th (0, 1 or 2) is drawn as two horizontal runs over columns [x - th, right + th),
 * on rows y - th and bottom + th, and two vertical runs over rows [y - th, bottom + th), on
 * columns x - th and right + th. Each run stops one short of right + th or bottom + th, so the
 * corner pixel (right + th, bottom + th) of every ring is left as it was.
 */
module RectFrame {
  import opened Raster
  import opened Fraction
  import opened Boxes
  import opened RegionSearch
  import opened RectDiff

  // ---------------------------------------------------------------- the frame of one box

  /** The horizontal runs of ring th, up to (not including) column xEnd. */
  predicate HorizontalRun(r: Box, th: int, xEnd: int, x: int, y: int)
  {
    (y == r.y - th || y == Bottom(r) + th) && r.x - th <= x < xEnd
  }

  /** The vertical runs of ring th, up to (not including) row yEnd. */
  predicate VerticalRun(r: Box, th: int, yEnd: int, x: int, y: int)
  {
    (x == r.x - th || x == Right(r) + th) && r.y - th <= y < yEnd
  }

  /** Ring th of the frame around r. */
  predicate OnRing(r: Box, th: int, x: int, y: int)
  {
    HorizontalRun(r, th, Right(r) + th, x, y) || VerticalRun(r, th, Bottom(r) + th, x, y)
  }

  /** The first n rings of the frame around r. */
  predicate InFrame(r: Box, n: nat, x: int, y: int)
  {
    n > 0 && (InFrame(r, n - 1, x, y) || OnRing(r, n - 1, x, y))
  }

  /** The number of rings Calculate draws. */
  const Thickness: nat := 3

  /** (x, y) lies on the frame of some box of rects. */
  predicate Framed(rects: seq<Box>, x: int, y: int)
  {
    |rects| > 0 && (Framed(rects[..|rects| - 1], x, y) || InFrame(rects[|rects| - 1], Thickness, x, y))
  }

  /**
   * The frame of a box reaches n - 1 pixels out on every side, and leaves the box's cells
   * below its top row and right of its left column alone.
   */
  lemma {:induction false} InFrameRange(r: Box, n: nat, x: int, y: int)
    requires Proper(r) && InFrame(r, n, x, y)
    ensures r.x - n < x <= Right(r) + n - 1 && r.y - n < y <= Bottom(r) + n - 1
    ensures !Covers(Box(r.x + 1, r.y + 1, r.width - 1, r.height - 1), x, y)
  {
    if InFrame(r, n - 1, x, y) {
      InFrameRange(r, n - 1, x, y);
    }
  }

  /** Three corners of every ring are drawn; the bottom-right one is not. */
  lemma RingCorners(r: Box, th: int)
    requires r.width > 0 && r.height > 0 && 0 <= th
    ensures OnRing(r, th, r.x - th, r.y - th)
    ensures OnRing(r, th, Right(r) + th, r.y - th) && OnRing(r, th, r.x - th, Bottom(r) + th)
    ensures !OnRing(r, th, Right(r) + th, Bottom(r) + th)
  {
  }

  /** So no ring paints the diagonal beyond the bottom-right corner: (right + d, bottom + d) stays as it was. */
  lemma {:induction false} FrameCornerOpen(r: Box, d: int, n: nat)
    requires Proper(r) && 0 <= d
    ensures !InFrame(r, n, Right(r) + d, Bottom(r) + d)
  {
    if n > 0 {
      FrameCornerOpen(r, d, n - 1);
    }
  }

  // ---------------------------------------------------------------- drawing

  /**
   * RGBA.Set with opaque red: pixel (x, y) of a canvas over bounds becomes red when it lies
   * inside the bounds; a point outside is ignored.
   */
  method SetRed(canvas: array2<Color>, bounds: Rectangle, x: int, y: int)
    requires Grid(canvas, bounds)
    modifies canvas
    ensures forall i, j :: 0 <= i < canvas.Length0 && 0 <= j < canvas.Length1 ==>
              canvas[i, j] == (if j + bounds.min.x == x && i + bounds.min.y == y then Red else old(canvas[i, j]))
  {
    if Inside(bounds, x, y) {
      canvas[y - bounds.min.y, x - bounds.min.x] := Red;
    }
  }

  /** The first inner loop of ring th: the top and bottom runs, each pixel guarded by the bounds. */
  method DrawHorizontal(canvas: array2<Color>, bounds: Rectangle, r: Box, th: int)
    requires Grid(canvas, bounds) && 0 <= bounds.min.x && 0 <= bounds.min.y
    modifies canvas
    ensures forall i, j :: 0 <= i < canvas.Length0 && 0 <= j < canvas.Length1 ==>
              canvas[i, j] == (if HorizontalRun(r, th, Right(r) + th, j + bounds.min.x, i + bounds.min.y) then Red
                               else old(canvas[i, j]))
  {
    var x := r.x - th;
    while x < Right(r) + th
      invariant x <= Right(r) + th || x == r.x - th
      invariant forall i, j :: 0 <= i < canvas.Length0 && 0 <= j < canvas.Length1 ==>
                  canvas[i, j] == (if HorizontalRun(r, th, x, j + bounds.min.x, i + bounds.min.y) then Red
                                   else old(canvas[i, j]))
      decreases Right(r) + th - x
    {
      if x >= 0 && x < bounds.max.x {
        if r.y - th >= 0 {
          SetRed(canvas, bounds, x, r.y - th);
        }
        if Bottom(r) + th < bounds.max.y {
          SetRed(canvas, bounds, x, Bottom(r) + th);
        }
      }
      x := x + 1;
    }
  }

  /** The second inner loop of ring th: the left and right runs, each pixel guarded by the bounds. */
  method DrawVertical(canvas: array2<Color>, bounds: Rectangle, r: Box, th: int)
    requires Grid(canvas, bounds) && 0 <= bounds.min.x && 0 <= bounds.min.y
    modifies canvas
    ensures forall i, j :: 0 <= i < canvas.Length0 && 0 <= j < canvas.Length1 ==>
              canvas[i, j] == (if VerticalRun(r, th, Bottom(r) + th, j + bounds.min.x, i + bounds.min.y) then Red
                               else old(canvas[i, j]))
  {
    var y := r.y - th;
    while y < Bottom(r) + th
      invariant y <= Bottom(r) + th || y == r.y - th
      invariant forall i, j :: 0 <= i < canvas.Length0 && 0 <= j < canvas.Length1 ==>
                  canvas[i, j] == (if VerticalRun(r, th, y, j + bounds.min.x, i + bounds.min.y) then Red
                                   else old(canvas[i, j]))
      decreases Bottom(r) + th - y
    {
      if y >= 0 && y < bounds.max.y {
        if r.x - th >= 0 {
          SetRed(canvas, bounds, r.x - th, y);
        }
        if Right(r) + th < bounds.max.x {
          SetRed(canvas, bounds, Right(r) + th, y);
        }
      }
      y := y + 1;
    }
  }

  /** The thickness loop for one box: rings 0, 1 and 2. */
  method DrawFrame(canvas: array2<Color>, bounds: Rectangle, r: Box)
    requires Grid(canvas, bounds) && 0 <= bounds.min.x && 0 <= bounds.min.y
    modifies canvas
    ensures forall i, j :: 0 <= i < canvas.Length0 && 0 <= j < canvas.Length1 ==>
              canvas[i, j] == (if InFrame(r, Thickness, j + bounds.min.x, i + bounds.min.y) then Red
                               else old(canvas[i, j]))
  {
    var th := 0;
    while th < Thickness
      invariant 0 <= th <= Thickness
      invariant forall i, j :: 0 <= i < canvas.Length0 && 0 <= j < canvas.Length1 ==>
                  canvas[i, j] == (if InFrame(r, th, j + bounds.min.x, i + bounds.min.y) then Red
                                   else old(canvas[i, j]))
    {
      DrawHorizontal(canvas, bounds, r, th);
      DrawVertical(canvas, bounds, r, th);
      th := th + 1;
    }
  }

  /** The loop over the merged boxes: every box gets its frame, later frames over earlier ones. */
  method DrawFrames(canvas: array2<Color>, bounds: Rectangle, rects: seq<Box>)
    requires Grid(canvas, bounds) && 0 <= bounds.min.x && 0 <= bounds.min.y
    modifies canvas
    ensures forall i, j :: 0 <= i < canvas.Length0 && 0 <= j < canvas.Length1 ==>
              canvas[i, j] == (if Framed(rects, j + bounds.min.x, i + bounds.min.y) then Red
                               else old(canvas[i, j]))
  {
    var k := 0;
    while k < |rects|
      invariant 0 <= k <= |rects|
      invariant forall i, j :: 0 <= i < canvas.Length0 && 0 <= j < canvas.Length1 ==>
                  canvas[i, j] == (if Framed(rects[..k], j + bounds.min.x, i + bounds.min.y) then Red
                                   else old(canvas[i, j]))
    {
      DrawFrame(canvas, bounds, rects[k]);
      assert rects[..k + 1][..k] == rects[..k];
      k := k + 1;
    }
    assert rects[..k] == rects;
  }

  // ---------------------------------------------------------------- the diff amount

  /** The boxes' total area. */
  function TotalArea(rects: seq<Box>): int
  {
    if |rects| == 0 then 0 else TotalArea(rects[..|rects| - 1]) + rects[|rects| - 1].width * rects[|rects| - 1].height
  }

  /** The total area of proper boxes is not negative, and at least the area of each of them. */
  lemma {:induction false} TotalAreaBounds(rects: seq<Box>, k: int)
    requires forall m :: 0 <= m < |rects| ==> Proper(rects[m])
    requires 0 <= k < |rects|
    ensures rects[k].width * rects[k].height <= TotalArea(rects)
  {
    var n := |rects| - 1;
    ProductNonNegative(rects[n].width, rects[n].height);
    if k < n {
      TotalAreaBounds(rects[..n], k);
    } else if n > 0 {
      TotalAreaNonNegative(rects[..n]);
    }
  }

  lemma {:induction false} TotalAreaNonNegative(rects: seq<Box>)
    requires forall m :: 0 <= m < |rects| ==> Proper(rects[m])
    ensures TotalArea(rects) >= 0
  {
    if |rects| > 0 {
      var n := |rects| - 1;
      TotalAreaNonNegative(rects[..n]);
      ProductNonNegative(rects[n].width, rects[n].height);
    }
  }

  /** The area of the union of the bounds. */
  function UnionArea(b: RgbaImage, t: RgbaImage): (area: nat)
    ensures area == 0 <==> Width(UnionBounds(b.rect, t.rect)) == 0 || Height(UnionBounds(b.rect, t.rect)) == 0
  {
    var u := UnionBounds(b.rect, t.rect);
    ProductNonNegative(Width(u), Height(u));
    Width(u) * Height(u)
  }

  /** The diff amount of the boxes: their total area over the union's area, or 0 when the union is empty. */
  function AreaAmount(b: RgbaImage, t: RgbaImage, rects: seq<Box>): (amount: Fraction)
    requires forall m :: 0 <= m < |rects| ==> Proper(rects[m])
    ensures amount.den > 0
    ensures rects == [] ==> amount.num == 0
    ensures forall m :: 0 <= m < |rects| && UnionArea(b, t) > 0 ==>
              amount.num == TotalArea(rects) >= rects[m].width * rects[m].height
  {
    TotalAreaNonNegative(rects);
    forall m | 0 <= m < |rects|
      ensures rects[m].width * rects[m].height <= TotalArea(rects)
    {
      TotalAreaBounds(rects, m);
    }
    if UnionArea(b, t) == 0 then Zero else Fraction(TotalArea(rects), UnionArea(b, t))
  }

  /** calculateDiffAmount: the sum loop over the boxes, then the ratio. */
  method DiffAmount(b: RgbaImage, t: RgbaImage, rects: seq<Box>) returns (amount: Fraction)
    requires forall m :: 0 <= m < |rects| ==> Proper(rects[m])
    ensures amount == AreaAmount(b, t, rects)
  {
    var total := 0;
    var k := 0;
    while k < |rects|
      invariant 0 <= k <= |rects|
      invariant total == TotalArea(rects[..k])
    {
      assert rects[..k + 1][..k] == rects[..k];
      total := total + rects[k].width * rects[k].height;
      k := k + 1;
    }
    assert rects[..k] == rects;
    var u := UnionBounds(b.rect, t.rect);
    var totalArea := (u.max.x - u.min.x) * (u.max.y - u.min.y);
    if totalArea == 0 {
      return Zero;
    }
    TotalAreaNonNegative(rects);
    amount := Fraction(total, totalArea);
  }

  // ---------------------------------------------------------------- Calculate

  /** Pixel (x, y) of the result: red on a frame, the target's colour elsewhere. */
  function FramedCopy(t: RgbaImage, rects: seq<Box>, x: int, y: int): Color
  {
    if Framed(rects, x, y) then Red else ColorAt(t, x, y)
  }

  /** The result image: a copy of the target, framed, and the amount of the boxes. */
  method Frame(b: RgbaImage, t: RgbaImage, rects: seq<Box>) returns (pixels: array2<Color>, amount: Fraction)
    requires Canonical(t.rect) && 0 <= t.rect.min.x && 0 <= t.rect.min.y
    requires forall m :: 0 <= m < |rects| ==> Proper(rects[m])
    ensures fresh(pixels) && Grid(pixels, t.rect)
    ensures forall i, j :: 0 <= i < pixels.Length0 && 0 <= j < pixels.Length1 ==>
              pixels[i, j] == FramedCopy(t, rects, j + t.rect.min.x, i + t.rect.min.y)
    ensures amount == AreaAmount(b, t, rects)
  {
    var bounds := t.rect;
    pixels := new Color[Height(bounds), Width(bounds)]((i, j) => ColorAt(t, j + bounds.min.x, i + bounds.min.y));
    DrawFrames(pixels, bounds, rects);
    amount := DiffAmount(b, t, rects);
  }

  /** The merged boxes are big, so proper; the target of a comparison at the origin has no negative corner. */
  lemma DetectsProper(b: RgbaImage, t: RgbaImage, regions: seq<seq<Cell>>, boxes: seq<Box>, rects: seq<Box>)
    requires AtOrigin(b, t) && Detects(b, t, regions, boxes, rects)
    ensures forall m :: 0 <= m < |rects| ==> Proper(rects[m])
    ensures Canonical(t.rect) && 0 <= t.rect.min.x && 0 <= t.rect.min.y
  {
    forall m | 0 <= m < |rects|
      ensures Proper(rects[m])
    {
      assert Big(rects[m]);
    }
  }

  /**
   * Calculate for two RGBA images: the same instance is returned as is with amount 0;
   * otherwise the merged boxes of findRectangles are framed in red on a copy of the target,
   * and the amount is their area over the union's. The copy of the target reads each pixel
   * as getColorAt does. The ghost results are what findRectangles found.
   */
  method Calculate(b: RgbaImage, t: RgbaImage, sameInstance: bool, workers: nat)
    returns (image: DiffImage, amount: Fraction, ghost regions: seq<seq<Cell>>, ghost boxes: seq<Box>,
             ghost rects: seq<Box>)
    requires 0 < workers
    requires sameInstance ==> b == t
    requires !sameInstance ==> AtOrigin(b, t)
    ensures sameInstance ==> image == SameAsBaseline && amount == Zero
    ensures !sameInstance ==> Detects(b, t, regions, boxes, rects) && image.Painted? && fresh(image.pixels)
    ensures !sameInstance ==> image.Painted? && Grid(image.pixels, t.rect)
    ensures !sameInstance && image.Painted? ==>
              forall i, j :: 0 <= i < image.pixels.Length0 && 0 <= j < image.pixels.Length1 ==>
                image.pixels[i, j] == FramedCopy(t, rects, j + t.rect.min.x, i + t.rect.min.y)
    ensures !sameInstance ==> (forall m :: 0 <= m < |rects| ==> Proper(rects[m])) && amount == AreaAmount(b, t, rects)
  {
    if sameInstance {
      return SameAsBaseline, Zero, [], [], [];
    }
    var merged;
    ghost var kept, owner;
    merged, regions, boxes, kept, owner := FindRectangles(b, t, workers);
    rects := merged;
    DetectsProper(b, t, regions, boxes, rects);
    var pixels;
    pixels, amount := Frame(b, t, merged);
    image := Painted(pixels);
  }

  /** Two equal images, even as different instances, get no boxes and a zero amount. */
  lemma EqualImagesNoFrames(img: RgbaImage, regions: seq<seq<Cell>>, boxes: seq<Box>, rects: seq<Box>)
    requires Detects(img, img, regions, boxes, rects)
    ensures rects == [] && AreaAmount(img, img, rects).num == 0
    ensures forall x, y :: !Framed(rects, x, y)
  {
    forall x, y | Inside(UnionBounds(img.rect, img.rect), x, y)
      ensures !Differs(img, img, x, y)
    {
      SameImageDiffersNowhere(img, x, y);
    }
    NothingChanged(img, img, regions, boxes, rects);
  }
}
