/**
 * The slice of Go's image package that both image differs rely on: 8-bit RGBA colours,
 * rectangles with exclusive maxima, RGBA pixel buffers addressed by PixOffset, the union
 * of two bounds, and the split of a row range among workers.
 */
module Raster {
  import opened Wrappers

  type Byte = x: int | 0 <= x < 256

  datatype Color = Color(r: Byte, g: Byte, b: Byte, a: Byte)

  const White: Color := Color(255, 255, 255, 255)
  const Black: Color := Color(0, 0, 0, 255)
  /** The colour the pixel differ paints for an added pixel. */
  const Red: Color := Color(255, 0, 0, 255)
  /** The colour the pixel differ paints for a removed pixel. */
  const Blue: Color := Color(0, 0, 255, 255)

  datatype Point = Point(x: int, y: int)

  /** image.Rectangle: the points p with min <= p < max componentwise. */
  datatype Rectangle = Rectangle(min: Point, max: Point)

  predicate Canonical(r: Rectangle)
  {
    r.min.x <= r.max.x && r.min.y <= r.max.y
  }

  function Width(r: Rectangle): int { r.max.x - r.min.x }
  function Height(r: Rectangle): int { r.max.y - r.min.y }

  predicate Inside(r: Rectangle, x: int, y: int)
  {
    r.min.x <= x < r.max.x && r.min.y <= y < r.max.y
  }

  predicate Contains(outer: Rectangle, inner: Rectangle)
  {
    outer.min.x <= inner.min.x && inner.max.x <= outer.max.x &&
    outer.min.y <= inner.min.y && inner.max.y <= outer.max.y
  }

  /** image.Rect swaps the coordinates of each axis that are given in the wrong order. */
  function Rect(x0: int, y0: int, x1: int, y1: int): (r: Rectangle)
    ensures Canonical(r)
    ensures x0 <= x1 && y0 <= y1 ==> r == Rectangle(Point(x0, y0), Point(x1, y1))
    ensures x0 > x1 ==> r.min.x == x1 && r.max.x == x0
    ensures y0 > y1 ==> r.min.y == y1 && r.max.y == y0
  {
    var loX := if x0 > x1 then x1 else x0;
    var hiX := if x0 > x1 then x0 else x1;
    var loY := if y0 > y1 then y1 else y0;
    var hiY := if y0 > y1 then y0 else y1;
    Rectangle(Point(loX, loY), Point(hiX, hiY))
  }

  /** calculateUnionBounds: the smallest rectangle holding both bounds. */
  function UnionBounds(baseline: Rectangle, target: Rectangle): (u: Rectangle)
    ensures Canonical(u)
    ensures Canonical(baseline) ==> Contains(u, baseline)
    ensures Canonical(target) ==> Contains(u, target)
  {
    var minX := if target.min.x < baseline.min.x then target.min.x else baseline.min.x;
    var minY := if target.min.y < baseline.min.y then target.min.y else baseline.min.y;
    var maxX := if target.max.x > baseline.max.x then target.max.x else baseline.max.x;
    var maxY := if target.max.y > baseline.max.y then target.max.y else baseline.max.y;
    Rect(minX, minY, maxX, maxY)
  }

  /** Any rectangle holding both canonical bounds holds their union. */
  lemma UnionBoundsSmallest(baseline: Rectangle, target: Rectangle, c: Rectangle)
    requires Canonical(baseline) && Canonical(target)
    requires Contains(c, baseline) && Contains(c, target)
    ensures Contains(c, UnionBounds(baseline, target))
  {
  }

  /** Uniting a bounds with itself gives the same bounds. */
  lemma UnionBoundsSame(r: Rectangle)
    requires Canonical(r)
    ensures UnionBounds(r, r) == r
  {
  }

  // ---------------------------------------------------------------- the row partition

  /** Rows handed to worker i of n: equal chunks, the last one running to the end. */
  function WorkerRows(minY: int, maxY: int, workers: nat, i: nat): (rows: (int, int))
    requires minY <= maxY && 0 < workers && i < workers
    ensures i == 0 ==> rows.0 == minY
    ensures i == workers - 1 ==> rows.1 == maxY
  {
    var rowsPerWorker := (maxY - minY) / workers;
    var startY := minY + i * rowsPerWorker;
    var endY := if i == workers - 1 then maxY else startY + rowsPerWorker;
    (startY, endY)
  }

  /** Every chunk is a (possibly empty) range of rows inside [minY, maxY). */
  lemma WorkerRowsInRange(minY: int, maxY: int, workers: nat, i: nat)
    requires minY <= maxY && 0 < workers && i < workers
    ensures var rows := WorkerRows(minY, maxY, workers, i); minY <= rows.0 <= rows.1 <= maxY
  {
    var r := (maxY - minY) / workers;
    DivMulBound(maxY - minY, workers);
    MulMonotone(i + 1, workers, r);
    assert (i + 1) * r == i * r + r;
  }

  lemma DivMulBound(n: nat, d: nat)
    requires 0 < d
    ensures d * (n / d) <= n
  {
  }

  lemma MulMonotone(a: nat, b: nat, c: nat)
    requires a <= b
    ensures a * c <= b * c
  {
  }

  /** Consecutive workers get adjacent chunks, so the chunks tile [minY, maxY) without overlap. */
  lemma WorkerRowsAdjacent(minY: int, maxY: int, workers: nat, i: nat)
    requires minY <= maxY && 0 < workers && i + 1 < workers
    ensures WorkerRows(minY, maxY, workers, i).1 == WorkerRows(minY, maxY, workers, i + 1).0
  {
    var r := (maxY - minY) / workers;
    assert (i + 1) * r == i * r + r;
  }

  /** Each chunk starts where the previous one ended; the first at minY. */
  lemma ChunkStart(minY: int, maxY: int, workers: nat, i: nat)
    requires minY <= maxY && 0 < workers && i < workers
    ensures WorkerRows(minY, maxY, workers, i).0 == if i == 0 then minY else WorkerRows(minY, maxY, workers, i - 1).1
  {
    if 0 < i {
      WorkerRowsAdjacent(minY, maxY, workers, i - 1);
    }
  }

  // ---------------------------------------------------------------- RGBA pixel buffers

  /** image.RGBA: four bytes per pixel, rows stride bytes apart. */
  datatype RgbaImage = RgbaImage(pix: seq<Byte>, stride: int, rect: Rectangle)

  /** The layout image.NewRGBA allocates: rows packed without padding. */
  predicate Standard(img: RgbaImage)
  {
    Canonical(img.rect) && img.stride == 4 * Width(img.rect) &&
    |img.pix| == 4 * Width(img.rect) * Height(img.rect)
  }

  /** PixOffset: the index of the first byte of pixel (x, y). */
  function PixOffset(img: RgbaImage, x: int, y: int): int
  {
    (y - img.rect.min.y) * img.stride + (x - img.rect.min.x) * 4
  }

  /** The four bytes at off, when they all lie inside the buffer. */
  function ReadAt(img: RgbaImage, off: int): (c: Option<Color>)
    ensures c.Some? <==> 0 <= off && off + 3 < |img.pix|
  {
    if 0 <= off && off + 3 < |img.pix| then
      Some(Color(img.pix[off], img.pix[off + 1], img.pix[off + 2], img.pix[off + 3]))
    else None
  }

  /** In a standard buffer every pixel of the bounds has its four bytes inside the buffer. */
  lemma StandardOffsetInBuffer(img: RgbaImage, x: int, y: int)
    requires Standard(img) && Inside(img.rect, x, y)
    ensures ReadAt(img, PixOffset(img, x, y)).Some?
  {
    var w, h := Width(img.rect), Height(img.rect);
    var row, col := y - img.rect.min.y, x - img.rect.min.x;
    assert row * (4 * w) <= (h - 1) * (4 * w) by {
      MulMonotone(row, h - 1, 4 * w);
    }
    assert (h - 1) * (4 * w) + 4 * w == 4 * w * h;
  }

  /** getColorAt: the pixel at (x, y), or opaque white outside the bounds. */
  function ColorAt(img: RgbaImage, x: int, y: int): (c: Color)
    ensures !Inside(img.rect, x, y) ==> c == White
    ensures Inside(img.rect, x, y) && ReadAt(img, PixOffset(img, x, y)).Some? ==>
              Some(c) == ReadAt(img, PixOffset(img, x, y))
  {
    if !Inside(img.rect, x, y) then White
    else
      match ReadAt(img, PixOffset(img, x, y))
      case Some(c) => c
      case None => White
  }

  /** In a standard buffer, getColorAt reads the four bytes at PixOffset. */
  lemma ColorAtStandard(img: RgbaImage, x: int, y: int)
    requires Standard(img) && Inside(img.rect, x, y)
    ensures Some(ColorAt(img, x, y)) == ReadAt(img, PixOffset(img, x, y))
  {
    StandardOffsetInBuffer(img, x, y);
  }

  predicate ColorsEqual(c1: Color, c2: Color)
  {
    c1.r == c2.r && c1.g == c2.g && c1.b == c2.b && c1.a == c2.a
  }

  /** colorsEqual compares all four channels, which is equality of colours. */
  lemma ColorsEqualIsEquality(c1: Color, c2: Color)
    ensures ColorsEqual(c1, c2) <==> c1 == c2
  {
  }

  /** Byte k of a buffer painted with colour c. */
  function Channel(c: Color, k: nat): Byte
  {
    if k % 4 == 0 then c.r else if k % 4 == 1 then c.g else if k % 4 == 2 then c.b else c.a
  }

  /** A standard buffer in which every pixel is c, as createTestImage paints it. */
  predicate Filled(img: RgbaImage, c: Color)
  {
    Standard(img) && forall k :: 0 <= k < |img.pix| ==> img.pix[k] == Channel(c, k)
  }

  /** Every pixel of a filled image reads back as its colour. */
  lemma FilledColorAt(img: RgbaImage, c: Color, x: int, y: int)
    requires Filled(img, c) && Inside(img.rect, x, y)
    ensures ColorAt(img, x, y) == c
  {
    ColorAtStandard(img, x, y);
    OffsetAligned(y - img.rect.min.y, x - img.rect.min.x, Width(img.rect));
  }

  /** Offsets in a buffer of stride 4 * w start on a pixel boundary. */
  lemma OffsetAligned(row: int, col: int, w: int)
    ensures (row * (4 * w) + col * 4) % 4 == 0
  {
    assert row * (4 * w) + col * 4 == 4 * (row * w + col);
  }

  /** A pixel grid over some bounds: row y - min.y, column x - min.x holds the pixel (x, y). */
  predicate Grid(pixels: array2<Color>, bounds: Rectangle)
  {
    Canonical(bounds) && pixels.Length0 == Height(bounds) && pixels.Length1 == Width(bounds)
  }

  /** The image a comparison returns (DiffResult.Image): the baseline itself, or a freshly painted one. */
  datatype DiffImage = SameAsBaseline | Painted(pixels: array2<Color>)
}
