/**
 * The rectangle differ for two RGBA images: it marks every cell of the union of the bounds
 * whose colours differ, gathers the 8-connected marked cells into regions, keeps the bounding
 * boxes larger than 2 x 2, merges the boxes that overlap or lie close, frames each merged box
 * in red on a copy of the target, and reports the boxes' total area over the union's area.
 *
 * The Go code indexes its diff map by absolute coordinates, so it only works (rather than
 * indexing out of range) when the union of the bounds starts at the origin; every member here
 * that builds or reads the diff map requires that.
 */
module RectDiff {
  import opened Wrappers
  import opened Raster
  import opened Fraction
  import opened Boxes
  import opened BoxMerge
  import opened RegionSearch

  // ---------------------------------------------------------------- reading a pixel

  /** The offset of the first pixel of row y, or -1 when row y is outside the bounds. */
  function RowStart(img: RgbaImage, y: int): int
  {
    if img.rect.min.y <= y < img.rect.max.y then PixOffset(img, img.rect.min.x, y) else -1
  }

  /**
   * The colour processRGBA reads at (x, y): the four bytes at the pixel's offset when the
   * pixel is inside the bounds, its row start is not negative and the bytes lie in the
   * buffer, and opaque white otherwise.
   */
  function MapColor(img: RgbaImage, x: int, y: int): (c: Color)
    ensures !Inside(img.rect, x, y) ==> c == White
  {
    var rowStart := RowStart(img, y);
    if img.rect.min.x <= x < img.rect.max.x && rowStart >= 0 then
      match ReadAt(img, rowStart + (x - img.rect.min.x) * 4)
      case Some(c) => c
      case None => White
    else White
  }

  /** With a non-negative stride the read is getColorAt: the row start check never fails inside the bounds. */
  lemma MapColorIsColorAt(img: RgbaImage, x: int, y: int)
    requires img.stride >= 0
    ensures MapColor(img, x, y) == ColorAt(img, x, y)
  {
    if Inside(img.rect, x, y) {
      assert RowStart(img, y) == (y - img.rect.min.y) * img.stride;
      assert RowStart(img, y) >= 0 by {
        ProductNonNegative(y - img.rect.min.y, img.stride);
      }
      assert RowStart(img, y) + (x - img.rect.min.x) * 4 == PixOffset(img, x, y);
    }
  }

  lemma ProductNonNegative(a: nat, b: nat)
    ensures a * b >= 0
  {
  }

  /** The cell (x, y) is marked: the two colours read there differ in some channel. */
  predicate Differs(b: RgbaImage, t: RgbaImage, x: int, y: int)
  {
    !ColorsEqual(MapColor(b, x, y), MapColor(t, x, y))
  }

  /** An image compared with itself differs nowhere. */
  lemma SameImageDiffersNowhere(img: RgbaImage, x: int, y: int)
    ensures !Differs(img, img, x, y)
  {
    ColorsEqualIsEquality(MapColor(img, x, y), MapColor(img, x, y));
  }

  // ---------------------------------------------------------------- the diff map

  /** The bounds the Go code can handle: canonical, with a union starting at the origin. */
  predicate AtOrigin(b: RgbaImage, t: RgbaImage)
  {
    Canonical(b.rect) && Canonical(t.rect) && UnionBounds(b.rect, t.rect).min == Point(0, 0)
  }

  /** A diff map with a row per row of the union and a column per column. */
  predicate MapShape(diffMap: array2<bool>, u: Rectangle)
  {
    diffMap.Length0 == Height(u) && diffMap.Length1 == Width(u)
  }

  /** Rows [y0, y1) of the diff map hold exactly the cells that differ. */
  ghost predicate Marked(b: RgbaImage, t: RgbaImage, diffMap: array2<bool>, y0: int, y1: int)
    requires 0 <= y0 && y1 <= diffMap.Length0
    reads diffMap
  {
    forall y, x :: y0 <= y < y1 && 0 <= x < diffMap.Length1 ==> diffMap[y, x] == Differs(b, t, x, y)
  }

  /** Rows [y0, y1) of the diff map are all unmarked, as make leaves them. */
  ghost predicate Clear(diffMap: array2<bool>, y0: int, y1: int)
    requires 0 <= y0 && y1 <= diffMap.Length0
    reads diffMap
  {
    forall y, x :: y0 <= y < y1 && 0 <= x < diffMap.Length1 ==> !diffMap[y, x]
  }

  /** The inner loop of processRGBA for row y: marks the cells of the row that differ, and touches nothing else. */
  method MarkRow(b: RgbaImage, t: RgbaImage, diffMap: array2<bool>, minX: int, maxX: int, y: int)
    requires minX == 0 && maxX == diffMap.Length1 && 0 <= y < diffMap.Length0
    modifies diffMap
    ensures forall r, c :: 0 <= r < diffMap.Length0 && 0 <= c < diffMap.Length1 ==>
              diffMap[r, c] == (old(diffMap[r, c]) || (r == y && Differs(b, t, c, r)))
  {
    var x := minX;
    while x < maxX
      invariant minX <= x <= maxX
      invariant forall r, c :: 0 <= r < diffMap.Length0 && 0 <= c < diffMap.Length1 ==>
                  diffMap[r, c] == (old(diffMap[r, c]) || (r == y && c < x && Differs(b, t, c, r)))
    {
      var bc, tc := MapColor(b, x, y), MapColor(t, x, y);
      if bc.r != tc.r || bc.g != tc.g || bc.b != tc.b || bc.a != tc.a {
        diffMap[y, x] := true;
      }
      x := x + 1;
    }
  }

  /** processRGBA for rows [startY, endY): marks the cells of those rows that differ. */
  method MarkRows(b: RgbaImage, t: RgbaImage, diffMap: array2<bool>, u: Rectangle, startY: int, endY: int)
    requires u.min == Point(0, 0) && MapShape(diffMap, u) && 0 <= startY <= endY <= diffMap.Length0
    modifies diffMap
    ensures forall r, c :: 0 <= r < diffMap.Length0 && 0 <= c < diffMap.Length1 ==>
              diffMap[r, c] == (old(diffMap[r, c]) || (startY <= r < endY && Differs(b, t, c, r)))
  {
    var y := startY;
    while y < endY
      invariant startY <= y <= endY
      invariant forall r, c :: 0 <= r < diffMap.Length0 && 0 <= c < diffMap.Length1 ==>
                  diffMap[r, c] == (old(diffMap[r, c]) || (startY <= r < y && Differs(b, t, c, r)))
    {
      MarkRow(b, t, diffMap, u.min.x, u.max.x, y);
      y := y + 1;
    }
  }

  /** One worker's chunk [done, endY) after rows [0, done) are marked and the rest are clear. */
  method ExtendMarked(b: RgbaImage, t: RgbaImage, diffMap: array2<bool>, u: Rectangle, done: int, endY: int)
    requires u.min == Point(0, 0) && MapShape(diffMap, u) && 0 <= done <= endY <= diffMap.Length0
    requires Marked(b, t, diffMap, 0, done) && Clear(diffMap, done, diffMap.Length0)
    modifies diffMap
    ensures Marked(b, t, diffMap, 0, endY) && Clear(diffMap, endY, diffMap.Length0)
  {
    MarkRows(b, t, diffMap, u, done, endY);
  }

  /**
   * The worker fan-out of findRectangles: worker i of n marks its chunk of rows, the last
   * one running to the end. The chunks are handled one after the other; since they are
   * disjoint and each worker only sets cells of its own rows, any interleaving ends the same.
   */
  method MarkChunks(b: RgbaImage, t: RgbaImage, diffMap: array2<bool>, u: Rectangle, workers: nat)
    requires 0 < workers && u.min == Point(0, 0) && Canonical(u) && MapShape(diffMap, u)
    requires Clear(diffMap, 0, diffMap.Length0)
    modifies diffMap
    ensures Marked(b, t, diffMap, 0, diffMap.Length0)
  {
    var height := Height(u);
    var done := 0;
    for i := 0 to workers
      invariant 0 <= done <= height
      invariant 0 < i ==> done == WorkerRows(0, height, workers, i - 1).1
      invariant i == 0 ==> done == 0
      invariant Marked(b, t, diffMap, 0, done) && Clear(diffMap, done, height)
    {
      var rows := WorkerRows(0, height, workers, i);
      WorkerRowsInRange(0, height, workers, i);
      ChunkStart(0, height, workers, i);
      ExtendMarked(b, t, diffMap, u, done, rows.1);
      done := rows.1;
    }
  }

  // ---------------------------------------------------------------- the scan for regions

  /** A box findRectangles keeps: more than two cells wide and more than two high. */
  predicate Big(r: Box)
  {
    r.width > 2 && r.height > 2
  }

  /** The big boxes, in order. */
  function Keep(boxes: seq<Box>): (kept: seq<Box>)
    ensures |kept| <= |boxes|
  {
    if |boxes| == 0 then []
    else Keep(boxes[..|boxes| - 1]) + (if Big(boxes[|boxes| - 1]) then [boxes[|boxes| - 1]] else [])
  }

  /** Keep keeps exactly the big boxes. */
  lemma {:induction false} KeepIsFilter(boxes: seq<Box>, r: Box)
    ensures r in Keep(boxes) <==> r in boxes && Big(r)
  {
    if |boxes| > 0 {
      var init, last := boxes[..|boxes| - 1], boxes[|boxes| - 1];
      KeepIsFilter(init, r);
      assert boxes == init + [last];
    }
  }

  /** The box is the tight bounding box of the cells. */
  ghost predicate BoundsOf(cells: seq<Cell>, box: Box)
  {
    Spans(cells, box.x, box.y, Right(box) - 1, Bottom(box) - 1)
  }

  /** Some marked cells of the map, and their bounding box. */
  ghost predicate MarkedCells(diffMap: array2<bool>, width: int, height: int, cells: seq<Cell>, box: Box)
    requires diffMap.Length0 == height && diffMap.Length1 == width
    reads diffMap
  {
    |cells| > 0 && BoundsOf(cells, box) &&
    (forall i :: 0 <= i < |cells| ==> InGrid(cells[i], width, height) && diffMap[cells[i].y, cells[i].x])
  }

  /** Every cell after the first is a neighbour of an earlier one. */
  ghost predicate Connected(cells: seq<Cell>)
  {
    forall k :: 0 < k < |cells| ==> exists j :: 0 <= j < k && Adjacent(cells[j], cells[k])
  }

  /** Every marked neighbour of a cell of the region belongs to the region. */
  ghost predicate MaximalIn(diffMap: array2<bool>, width: int, height: int, cells: seq<Cell>)
    requires diffMap.Length0 == height && diffMap.Length1 == width
    reads diffMap
  {
    forall i, x, y :: 0 <= i < |cells| && 0 <= x < width && 0 <= y < height && Adjacent(cells[i], Cell(x, y)) && diffMap[y, x] ==>
      Cell(x, y) in cells
  }

  /**
   * A region: marked cells with their bounding box, connected through neighbours, and
   * holding every marked neighbour of its cells.
   */
  ghost predicate RegionOk(diffMap: array2<bool>, width: int, height: int, cells: seq<Cell>, box: Box)
    requires diffMap.Length0 == height && diffMap.Length1 == width
    reads diffMap
  {
    MarkedCells(diffMap, width, height, cells, box) && Connected(cells) && MaximalIn(diffMap, width, height, cells)
  }

  /** Every cell of a region lies in its box. */
  lemma RegionCovered(cells: seq<Cell>, box: Box, c: Cell)
    requires BoundsOf(cells, box) && c in cells
    ensures Covers(box, c.x, c.y)
  {
  }

  /** The cells findBoundingBox finds from a marked start are marked, connected, and bounded by its box. */
  lemma NewRegionOk(diffMap: array2<bool>, width: int, height: int, initial: set<Cell>, start: Cell,
                    order: seq<Cell>, parent: seq<int>, box: Box)
    requires diffMap.Length0 == height && diffMap.Length1 == width
    requires Found(diffMap, width, height, initial, start, order, parent) && diffMap[start.y, start.x]
    requires Spans(order, box.x - 0, box.y - 0, Right(box) - 1 - 0, Bottom(box) - 1 - 0)
    ensures MarkedCells(diffMap, width, height, order, box) && Connected(order)
  {
    forall k | 0 < k < |order|
      ensures exists j :: 0 <= j < k && Adjacent(order[j], order[k])
    {
      assert Adjacent(order[parent[k]], order[k]);
    }
  }

  /** Every cell of every region is recorded as seen. */
  ghost predicate Recorded(seen: set<Cell>, regions: seq<seq<Cell>>)
  {
    forall k, c :: 0 <= k < |regions| && c in regions[k] ==> c in seen
  }

  /**
   * A marked cell next to a seen cell is seen itself: the seen cell lies in a region, and
   * that region holds every marked neighbour of its cells.
   */
  lemma NeighbourOfSeen(diffMap: array2<bool>, width: int, height: int, regions: seq<seq<Cell>>, boxes: seq<Box>,
                        seen: set<Cell>, c: Cell, n: Cell)
    requires diffMap.Length0 == height && diffMap.Length1 == width
    requires RegionsOk(diffMap, width, height, regions, boxes) && Witnessed(seen, regions) && Recorded(seen, regions)
    requires InGrid(c, width, height) && diffMap[c.y, c.x] && Adjacent(n, c)
    ensures n in seen ==> c in seen
  {
    if n in seen {
      var k :| 0 <= k < |regions| && n in regions[k];
      var j :| 0 <= j < |regions[k]| && regions[k][j] == n;
      assert RegionOk(diffMap, width, height, regions[k], boxes[k]);
      assert Adjacent(regions[k][j], Cell(c.x, c.y));
      assert c in regions[k];
    }
  }

  /** Every region found so far is a region of marked cells with its bounding box. */
  ghost predicate RegionsOk(diffMap: array2<bool>, width: int, height: int, regions: seq<seq<Cell>>, boxes: seq<Box>)
    requires diffMap.Length0 == height && diffMap.Length1 == width
    reads diffMap
  {
    |boxes| == |regions| && forall k :: 0 <= k < |regions| ==> RegionOk(diffMap, width, height, regions[k], boxes[k])
  }

  lemma RegionsOkSnoc(diffMap: array2<bool>, width: int, height: int, regions: seq<seq<Cell>>, boxes: seq<Box>,
                      cells: seq<Cell>, box: Box)
    requires diffMap.Length0 == height && diffMap.Length1 == width
    requires RegionsOk(diffMap, width, height, regions, boxes) && RegionOk(diffMap, width, height, cells, box)
    ensures RegionsOk(diffMap, width, height, regions + [cells], boxes + [box])
  {
    var regions', boxes' := regions + [cells], boxes + [box];
    forall k | 0 <= k < |regions'|
      ensures RegionOk(diffMap, width, height, regions'[k], boxes'[k])
    {
      if k < |regions| {
        assert regions'[k] == regions[k] && boxes'[k] == boxes[k];
      }
    }
  }

  /** Every cell seen lies in some region. */
  ghost predicate Witnessed(seen: set<Cell>, regions: seq<seq<Cell>>)
  {
    forall c :: c in seen ==> exists k :: 0 <= k < |regions| && c in regions[k]
  }

  lemma WitnessedSnoc(seen: set<Cell>, regions: seq<seq<Cell>>, cells: seq<Cell>)
    requires Witnessed(seen, regions)
    ensures Witnessed(seen + (set c | c in cells), regions + [cells])
  {
    var regions' := regions + [cells];
    forall c | c in seen || c in cells
      ensures exists k :: 0 <= k < |regions'| && c in regions'[k]
    {
      if c in seen {
        var k :| 0 <= k < |regions| && c in regions[k];
        assert regions'[k] == regions[k];
      } else {
        assert c in regions'[|regions|];
      }
    }
  }

  /**
   * The state of the scan before cell (x, y) in row-major order: the visited cells are those
   * of the regions found so far, and every marked cell before (x, y) is visited.
   */
  ghost predicate ScanState(diffMap: array2<bool>, visited: array2<bool>, width: int, height: int,
                            regions: seq<seq<Cell>>, boxes: seq<Box>, seen: set<Cell>, x: int, y: int)
    requires Maps(diffMap, visited, width, height)
    reads diffMap, visited
  {
    RegionsOk(diffMap, width, height, regions, boxes) && Witnessed(seen, regions) && Recorded(seen, regions) &&
    (forall xx, yy :: 0 <= xx < width && 0 <= yy < height ==> (visited[yy, xx] <==> Cell(xx, yy) in seen)) &&
    (forall xx, yy :: 0 <= xx < width && 0 <= yy < height && (yy < y || (yy == y && xx < x)) && diffMap[yy, xx] ==>
       visited[yy, xx])
  }

  /**
   * findBoundingBox from a marked cell not yet visited, seen through the scan's eyes: the
   * cells it finds are marked, connected, bounded by the box, none of them seen before, and
   * every marked neighbour of one of them is found too or was seen before; they are the
   * cells it marks visited.
   */
  method NewRegion(diffMap: array2<bool>, visited: array2<bool>, width: nat, height: nat, x: int, y: int,
                   ghost seen: set<Cell>)
    returns (rect: Box, ghost order: seq<Cell>)
    requires Maps(diffMap, visited, width, height) && 0 <= x < width && 0 <= y < height && diffMap[y, x] && !visited[y, x]
    requires forall xx, yy :: 0 <= xx < width && 0 <= yy < height ==> (visited[yy, xx] <==> Cell(xx, yy) in seen)
    modifies visited
    ensures MarkedCells(diffMap, width, height, order, rect) && Connected(order) && order[0] == Cell(x, y)
    ensures forall i :: 0 <= i < |order| ==> order[i] !in seen
    ensures forall i, xx, yy :: 0 <= i < |order| && 0 <= xx < width && 0 <= yy < height &&
              Adjacent(order[i], Cell(xx, yy)) && diffMap[yy, xx]
              ==> Cell(xx, yy) in seen || Cell(xx, yy) in order
    ensures forall xx, yy :: 0 <= xx < width && 0 <= yy < height ==>
              (visited[yy, xx] <==> Cell(xx, yy) in seen || Cell(xx, yy) in order)
  {
    ghost var parent, initial;
    assert Cell(x, y) !in seen;
    rect, order, parent, initial := FindBoundingBox(diffMap, visited, x, y, width, height, 0, 0);
    NewRegionFound(diffMap, visited, width, height, x, y, seen, initial, order, parent, rect);
  }

  /** What the search's own guarantees say about the region, in terms of the cells seen before. */
  lemma NewRegionFound(diffMap: array2<bool>, visited: array2<bool>, width: nat, height: nat, x: int, y: int,
                       seen: set<Cell>, initial: set<Cell>, order: seq<Cell>, parent: seq<int>, rect: Box)
    requires Maps(diffMap, visited, width, height) && 0 <= x < width && 0 <= y < height && diffMap[y, x]
    requires Cell(x, y) !in seen
    requires forall xx, yy :: 0 <= xx < width && 0 <= yy < height ==> (Cell(xx, yy) in initial <==> Cell(xx, yy) in seen)
    requires Found(diffMap, width, height, initial, Cell(x, y), order, parent)
    requires Tracks(visited, width, height, initial, order)
    requires Closed(diffMap, visited, width, height, order, |order|)
    requires Spans(order, rect.x - 0, rect.y - 0, Right(rect) - 1 - 0, Bottom(rect) - 1 - 0)
    ensures MarkedCells(diffMap, width, height, order, rect) && Connected(order) && order[0] == Cell(x, y)
    ensures forall i :: 0 <= i < |order| ==> order[i] !in seen
    ensures forall i, xx, yy :: 0 <= i < |order| && 0 <= xx < width && 0 <= yy < height &&
              Adjacent(order[i], Cell(xx, yy)) && diffMap[yy, xx]
              ==> Cell(xx, yy) in seen || Cell(xx, yy) in order
    ensures forall xx, yy :: 0 <= xx < width && 0 <= yy < height ==>
              (visited[yy, xx] <==> Cell(xx, yy) in seen || Cell(xx, yy) in order)
  {
    NewRegionOk(diffMap, width, height, initial, Cell(x, y), order, parent, rect);
    forall i | 0 <= i < |order|
      ensures order[i] !in seen
    {
      var c := order[i];
      assert InGrid(c, width, height);
      if i > 0 {
        assert c !in initial;
        assert Cell(c.x, c.y) == c;
      }
    }
    forall i, xx, yy | 0 <= i < |order| && 0 <= xx < width && 0 <= yy < height &&
                       Adjacent(order[i], Cell(xx, yy)) && diffMap[yy, xx]
      ensures Cell(xx, yy) in seen || Cell(xx, yy) in order
    {
      assert visited[yy, xx];
    }
  }

  /** The cells of the new region hold every marked neighbour of theirs. */
  lemma NewRegionMaximal(diffMap: array2<bool>, width: int, height: int, regions: seq<seq<Cell>>, boxes: seq<Box>,
                         seen: set<Cell>, order: seq<Cell>, rect: Box)
    requires diffMap.Length0 == height && diffMap.Length1 == width
    requires RegionsOk(diffMap, width, height, regions, boxes) && Witnessed(seen, regions) && Recorded(seen, regions)
    requires MarkedCells(diffMap, width, height, order, rect)
    requires forall i :: 0 <= i < |order| ==> order[i] !in seen
    requires forall i, xx, yy :: 0 <= i < |order| && 0 <= xx < width && 0 <= yy < height &&
               Adjacent(order[i], Cell(xx, yy)) && diffMap[yy, xx]
               ==> Cell(xx, yy) in seen || Cell(xx, yy) in order
    ensures MaximalIn(diffMap, width, height, order)
  {
    forall i, xx, yy | 0 <= i < |order| && 0 <= xx < width && 0 <= yy < height && Adjacent(order[i], Cell(xx, yy)) && diffMap[yy, xx]
      ensures Cell(xx, yy) in order
    {
      NeighbourOfSeen(diffMap, width, height, regions, boxes, seen, order[i], Cell(xx, yy));
    }
  }

  /** Keep on a box appended at the end. */
  lemma KeepSnoc(boxes: seq<Box>, r: Box)
    ensures Keep(boxes + [r]) == Keep(boxes) + (if Big(r) then [r] else [])
  {
    assert (boxes + [r])[..|boxes|] == boxes;
  }

  /** A marked cell not yet visited starts a new region, kept when its box is big enough. */
  method ScanNew(diffMap: array2<bool>, visited: array2<bool>, width: nat, height: nat, x: int, y: int,
                 rects: seq<Box>, ghost regions: seq<seq<Cell>>, ghost boxes: seq<Box>, ghost seen: set<Cell>)
    returns (rects': seq<Box>, ghost regions': seq<seq<Cell>>, ghost boxes': seq<Box>, ghost seen': set<Cell>)
    requires Maps(diffMap, visited, width, height) && 0 <= x < width && 0 <= y < height
    requires ScanState(diffMap, visited, width, height, regions, boxes, seen, x, y) && rects == Keep(boxes)
    requires diffMap[y, x] && !visited[y, x]
    modifies visited
    ensures ScanState(diffMap, visited, width, height, regions', boxes', seen', x + 1, y) && rects' == Keep(boxes')
  {
    var rect;
    ghost var order;
    assert SeenBefore(diffMap, width, height, seen, x, y);
    rect, order := NewRegion(diffMap, visited, width, height, x, y, seen);
    regions', boxes', seen' := regions + [order], boxes + [rect], seen + (set c | c in order);
    NewRegionState(diffMap, visited, width, height, x, y, regions, boxes, seen, order, rect);
    KeepSnoc(boxes, rect);
    rects' := if Big(rect) then rects + [rect] else rects;
  }

  /** Every marked cell before (x, y) in row-major order has been seen. */
  ghost predicate SeenBefore(diffMap: array2<bool>, width: int, height: int, seen: set<Cell>, x: int, y: int)
    requires diffMap.Length0 == height && diffMap.Length1 == width
    reads diffMap
  {
    forall xx, yy :: 0 <= xx < width && 0 <= yy < height && (yy < y || (yy == y && xx < x)) && diffMap[yy, xx] ==>
      Cell(xx, yy) in seen
  }

  /** The scan state after the region found from (x, y) has been added. */
  lemma NewRegionState(diffMap: array2<bool>, visited: array2<bool>, width: nat, height: nat, x: int, y: int,
                       regions: seq<seq<Cell>>, boxes: seq<Box>, seen: set<Cell>, order: seq<Cell>, rect: Box)
    requires Maps(diffMap, visited, width, height) && 0 <= x < width && 0 <= y < height
    requires RegionsOk(diffMap, width, height, regions, boxes) && Witnessed(seen, regions) && Recorded(seen, regions)
    requires SeenBefore(diffMap, width, height, seen, x, y)
    requires MarkedCells(diffMap, width, height, order, rect) && Connected(order) && order[0] == Cell(x, y)
    requires forall i :: 0 <= i < |order| ==> order[i] !in seen
    requires forall i, xx, yy :: 0 <= i < |order| && 0 <= xx < width && 0 <= yy < height &&
               Adjacent(order[i], Cell(xx, yy)) && diffMap[yy, xx]
               ==> Cell(xx, yy) in seen || Cell(xx, yy) in order
    requires forall xx, yy :: 0 <= xx < width && 0 <= yy < height ==>
               (visited[yy, xx] <==> Cell(xx, yy) in seen || Cell(xx, yy) in order)
    ensures ScanState(diffMap, visited, width, height, regions + [order], boxes + [rect], seen + (set c | c in order), x + 1, y)
  {
    var seen' := seen + (set c | c in order);
    NewRegionMaximal(diffMap, width, height, regions, boxes, seen, order, rect);
    RegionsOkSnoc(diffMap, width, height, regions, boxes, order, rect);
    WitnessedSnoc(seen, regions, order);
    RecordedSnoc(seen, regions, order);
    forall xx, yy | 0 <= xx < width && 0 <= yy < height && (yy < y || (yy == y && xx < x + 1)) && diffMap[yy, xx]
      ensures visited[yy, xx]
    {
      if yy == y && xx == x {
        assert Cell(x, y) in order;
      } else {
        assert Cell(xx, yy) in seen;
      }
    }
    forall xx, yy | 0 <= xx < width && 0 <= yy < height
      ensures visited[yy, xx] <==> Cell(xx, yy) in seen'
    {
    }
  }

  lemma RecordedSnoc(seen: set<Cell>, regions: seq<seq<Cell>>, cells: seq<Cell>)
    requires Recorded(seen, regions)
    ensures Recorded(seen + (set c | c in cells), regions + [cells])
  {
    var regions' := regions + [cells];
    forall k, c | 0 <= k < |regions'| && c in regions'[k]
      ensures c in seen + (set c | c in cells)
    {
      if k < |regions| {
        assert regions'[k] == regions[k];
      }
    }
  }

  /** The body of the scan for cell (x, y). */
  method ScanCell(diffMap: array2<bool>, visited: array2<bool>, width: nat, height: nat, x: int, y: int,
                  rects: seq<Box>, ghost regions: seq<seq<Cell>>, ghost boxes: seq<Box>, ghost seen: set<Cell>)
    returns (rects': seq<Box>, ghost regions': seq<seq<Cell>>, ghost boxes': seq<Box>, ghost seen': set<Cell>)
    requires Maps(diffMap, visited, width, height) && 0 <= x < width && 0 <= y < height
    requires ScanState(diffMap, visited, width, height, regions, boxes, seen, x, y) && rects == Keep(boxes)
    modifies visited
    ensures ScanState(diffMap, visited, width, height, regions', boxes', seen', x + 1, y) && rects' == Keep(boxes')
  {
    if diffMap[y, x] && !visited[y, x] {
      rects', regions', boxes', seen' := ScanNew(diffMap, visited, width, height, x, y, rects, regions, boxes, seen);
    } else {
      rects', regions', boxes', seen' := rects, regions, boxes, seen;
      ScanSkip(diffMap, visited, width, height, x, y, regions, boxes, seen);
    }
  }

  /** A cell that is unmarked, or already visited, starts nothing. */
  lemma ScanSkip(diffMap: array2<bool>, visited: array2<bool>, width: nat, height: nat, x: int, y: int,
                 regions: seq<seq<Cell>>, boxes: seq<Box>, seen: set<Cell>)
    requires Maps(diffMap, visited, width, height) && 0 <= x < width && 0 <= y < height
    requires ScanState(diffMap, visited, width, height, regions, boxes, seen, x, y)
    requires !diffMap[y, x] || visited[y, x]
    ensures ScanState(diffMap, visited, width, height, regions, boxes, seen, x + 1, y)
  {
  }

  /** The end of a row is the start of the next. */
  lemma RowDone(diffMap: array2<bool>, visited: array2<bool>, width: nat, height: nat, y: int,
                regions: seq<seq<Cell>>, boxes: seq<Box>, seen: set<Cell>)
    requires Maps(diffMap, visited, width, height)
    requires ScanState(diffMap, visited, width, height, regions, boxes, seen, width, y)
    ensures ScanState(diffMap, visited, width, height, regions, boxes, seen, 0, y + 1)
  {
  }

  /** The inner loop of the scan: the cells of row y, left to right. */
  method ScanRow(diffMap: array2<bool>, visited: array2<bool>, width: nat, height: nat, y: int,
                 rects: seq<Box>, ghost regions: seq<seq<Cell>>, ghost boxes: seq<Box>, ghost seen: set<Cell>)
    returns (rects': seq<Box>, ghost regions': seq<seq<Cell>>, ghost boxes': seq<Box>, ghost seen': set<Cell>)
    requires Maps(diffMap, visited, width, height) && 0 <= y < height
    requires ScanState(diffMap, visited, width, height, regions, boxes, seen, 0, y) && rects == Keep(boxes)
    modifies visited
    ensures ScanState(diffMap, visited, width, height, regions', boxes', seen', 0, y + 1) && rects' == Keep(boxes')
  {
    rects', regions', boxes', seen' := rects, regions, boxes, seen;
    var x := 0;
    while x < width
      invariant 0 <= x <= width
      invariant ScanState(diffMap, visited, width, height, regions', boxes', seen', x, y) && rects' == Keep(boxes')
    {
      rects', regions', boxes', seen' := ScanCell(diffMap, visited, width, height, x, y, rects', regions', boxes', seen');
      x := x + 1;
    }
    RowDone(diffMap, visited, width, height, y, regions', boxes', seen');
  }

  /**
   * The scan of findRectangles over a fresh visited grid: row by row, every marked cell not
   * yet visited starts a region whose box is kept when it is big.
   */
  method Scan(diffMap: array2<bool>, visited: array2<bool>, width: nat, height: nat)
    returns (rects: seq<Box>, ghost regions: seq<seq<Cell>>, ghost boxes: seq<Box>, ghost seen: set<Cell>)
    requires Maps(diffMap, visited, width, height)
    requires forall yy, xx :: 0 <= yy < height && 0 <= xx < width ==> !visited[yy, xx]
    modifies visited
    ensures ScanState(diffMap, visited, width, height, regions, boxes, seen, 0, height) && rects == Keep(boxes)
  {
    rects, regions, boxes, seen := [], [], [], {};
    var y := 0;
    while y < height
      invariant 0 <= y <= height
      invariant ScanState(diffMap, visited, width, height, regions, boxes, seen, 0, y) && rects == Keep(boxes)
    {
      rects, regions, boxes, seen := ScanRow(diffMap, visited, width, height, y, rects, regions, boxes, seen);
      y := y + 1;
    }
  }

  /** After the whole scan every marked cell lies in some region. */
  lemma ScanComplete(diffMap: array2<bool>, visited: array2<bool>, width: nat, height: nat,
                     regions: seq<seq<Cell>>, boxes: seq<Box>, seen: set<Cell>, x: int, y: int)
    requires Maps(diffMap, visited, width, height)
    requires ScanState(diffMap, visited, width, height, regions, boxes, seen, 0, height)
    requires 0 <= x < width && 0 <= y < height && diffMap[y, x]
    ensures exists k :: 0 <= k < |regions| && Cell(x, y) in regions[k]
  {
    assert Cell(x, y) in seen;
  }

  // ---------------------------------------------------------------- findRectangles

  /**
   * A region of the comparison: changed cells of the union with their bounding box, connected
   * through neighbours, and holding every changed neighbour of its cells.
   */
  ghost predicate ChangedRegion(b: RgbaImage, t: RgbaImage, u: Rectangle, cells: seq<Cell>, box: Box)
  {
    |cells| > 0 && BoundsOf(cells, box) &&
    (forall i :: 0 <= i < |cells| ==> InGrid(cells[i], Width(u), Height(u)) && Differs(b, t, cells[i].x, cells[i].y)) &&
    Connected(cells) &&
    (forall i, x, y :: 0 <= i < |cells| && 0 <= x < Width(u) && 0 <= y < Height(u) &&
       Adjacent(cells[i], Cell(x, y)) && Differs(b, t, x, y)
       ==> Cell(x, y) in cells)
  }

  /** With the diff map marked, the regions of marked cells are regions of changed cells. */
  lemma RegionsChanged(b: RgbaImage, t: RgbaImage, u: Rectangle, diffMap: array2<bool>,
                       regions: seq<seq<Cell>>, boxes: seq<Box>)
    requires MapShape(diffMap, u) && Marked(b, t, diffMap, 0, diffMap.Length0)
    requires RegionsOk(diffMap, Width(u), Height(u), regions, boxes)
    ensures forall k :: 0 <= k < |regions| ==> ChangedRegion(b, t, u, regions[k], boxes[k])
  {
    forall k | 0 <= k < |regions|
      ensures ChangedRegion(b, t, u, regions[k], boxes[k])
    {
      var cells := regions[k];
      assert RegionOk(diffMap, Width(u), Height(u), cells, boxes[k]);
      forall i, x, y | 0 <= i < |cells| && 0 <= x < Width(u) && 0 <= y < Height(u) &&
                       Adjacent(cells[i], Cell(x, y)) && Differs(b, t, x, y)
        ensures Cell(x, y) in cells
      {
        assert diffMap[y, x];
      }
    }
  }

  /** A merged box grown from a big box is big. */
  lemma EnclosesBig(outer: Box, inner: Box)
    requires Encloses(outer, inner) && Big(inner)
    ensures Big(outer)
  {
  }

  /** A changed cell of a region with a big box is covered by the merged box that absorbed it. */
  lemma KeptCovered(regions: seq<seq<Cell>>, boxes: seq<Box>, kept: seq<Box>, merged: seq<Box>, owner: seq<int>,
                    k: int, x: int, y: int)
    requires |boxes| == |regions| && kept == Keep(boxes) && |owner| == |kept|
    requires forall j :: 0 <= j < |kept| ==> 0 <= owner[j] < |merged| && Encloses(merged[owner[j]], kept[j])
    requires forall j :: 0 <= j < |regions| ==> BoundsOf(regions[j], boxes[j])
    requires 0 <= k < |regions| && Big(boxes[k]) && Cell(x, y) in regions[k]
    ensures exists m :: 0 <= m < |merged| && Covers(merged[m], x, y)
  {
    KeepIsFilter(boxes, boxes[k]);
    var j :| 0 <= j < |kept| && kept[j] == boxes[k];
    RegionCovered(regions[k], boxes[k], Cell(x, y));
    EnclosesCovers(merged[owner[j]], kept[j], x, y);
  }

  /** The diff map of findRectangles: one cell per cell of the union, marked where the images differ. */
  method BuildDiffMap(b: RgbaImage, t: RgbaImage, workers: nat) returns (diffMap: array2<bool>)
    requires 0 < workers && AtOrigin(b, t)
    ensures fresh(diffMap) && MapShape(diffMap, UnionBounds(b.rect, t.rect))
    ensures Marked(b, t, diffMap, 0, diffMap.Length0)
  {
    var u := UnionBounds(b.rect, t.rect);
    diffMap := new bool[Height(u), Width(u)]((i, j) => false);
    MarkChunks(b, t, diffMap, u, workers);
  }

  /** The scan of findRectangles over a marked diff map, with its own fresh visited grid. */
  method FindRegions(b: RgbaImage, t: RgbaImage, u: Rectangle, diffMap: array2<bool>)
    returns (rects: seq<Box>, ghost regions: seq<seq<Cell>>, ghost boxes: seq<Box>)
    requires u.min == Point(0, 0) && MapShape(diffMap, u) && Marked(b, t, diffMap, 0, diffMap.Length0)
    ensures |boxes| == |regions| && rects == Keep(boxes)
    ensures forall k :: 0 <= k < |regions| ==> ChangedRegion(b, t, u, regions[k], boxes[k])
    ensures forall x, y :: Inside(u, x, y) && Differs(b, t, x, y) ==>
              exists k :: 0 <= k < |regions| && Cell(x, y) in regions[k]
    // the boxes handed on are all big, and there are none where nothing changed
    ensures forall k :: 0 <= k < |rects| ==> Big(rects[k])
    ensures (forall x, y :: Inside(u, x, y) ==> !Differs(b, t, x, y)) ==> rects == []
  {
    var width, height := Width(u), Height(u);
    var visited := new bool[height, width]((i, j) => false);
    ghost var seen;
    rects, regions, boxes, seen := Scan(diffMap, visited, width, height);
    RegionsChanged(b, t, u, diffMap, regions, boxes);
    forall x, y | Inside(u, x, y) && Differs(b, t, x, y)
      ensures exists k :: 0 <= k < |regions| && Cell(x, y) in regions[k]
    {
      ScanComplete(diffMap, visited, width, height, regions, boxes, seen, x, y);
    }
    forall k | 0 <= k < |rects|
      ensures Big(rects[k])
    {
      KeepIsFilter(boxes, rects[k]);
    }
    if |regions| > 0 && forall x, y :: Inside(u, x, y) ==> !Differs(b, t, x, y) {
      assert false;
    }
  }

  /** What the merge keeps of the regions: big merged boxes that frame every cell of a big region. */
  lemma MergedFrames(regions: seq<seq<Cell>>, boxes: seq<Box>, kept: seq<Box>, merged: seq<Box>,
                     seeds: seq<int>, owner: seq<int>)
    requires |boxes| == |regions| && kept == Keep(boxes) && |owner| == |kept| && |seeds| == |merged|
    requires forall j :: 0 <= j < |regions| ==> BoundsOf(regions[j], boxes[j])
    requires forall m :: 0 <= m < |merged| ==> 0 <= seeds[m] < |kept| && owner[seeds[m]] == m
    requires forall j :: 0 <= j < |kept| ==> 0 <= owner[j] < |merged| && Encloses(merged[owner[j]], kept[j])
    ensures forall m :: 0 <= m < |merged| ==> Big(merged[m])
    ensures forall k, x, y :: 0 <= k < |regions| && Big(boxes[k]) && Cell(x, y) in regions[k] ==>
              exists m :: 0 <= m < |merged| && Covers(merged[m], x, y)
  {
    forall m | 0 <= m < |merged|
      ensures Big(merged[m])
    {
      var j := seeds[m];
      KeepIsFilter(boxes, kept[j]);
      EnclosesBig(merged[m], kept[j]);
    }
    forall k, x, y | 0 <= k < |regions| && Big(boxes[k]) && Cell(x, y) in regions[k]
      ensures exists m :: 0 <= m < |merged| && Covers(merged[m], x, y)
    {
      KeptCovered(regions, boxes, kept, merged, owner, k, x, y);
    }
  }

  /**
   * What findRectangles finds: regions of changed cells with their bounding boxes, every
   * changed cell of the union in one of them, and merged boxes, no more than the big boxes,
   * each big itself, that cover every cell of every region whose box is big.
   */
  ghost predicate Detects(b: RgbaImage, t: RgbaImage, regions: seq<seq<Cell>>, boxes: seq<Box>, merged: seq<Box>)
  {
    var u := UnionBounds(b.rect, t.rect);
    |boxes| == |regions| && |merged| <= |Keep(boxes)| &&
    (forall k :: 0 <= k < |regions| ==> ChangedRegion(b, t, u, regions[k], boxes[k])) &&
    (forall x, y :: Inside(u, x, y) && Differs(b, t, x, y) ==> exists k :: 0 <= k < |regions| && Cell(x, y) in regions[k]) &&
    (forall m :: 0 <= m < |merged| ==> Big(merged[m])) &&
    (forall k, x, y :: 0 <= k < |regions| && Big(boxes[k]) && Cell(x, y) in regions[k] ==>
       exists m :: 0 <= m < |merged| && Covers(merged[m], x, y))
  }

  /** Where nothing changed there are no regions and no boxes. */
  lemma NothingChanged(b: RgbaImage, t: RgbaImage, regions: seq<seq<Cell>>, boxes: seq<Box>, merged: seq<Box>)
    requires Detects(b, t, regions, boxes, merged)
    requires forall x, y :: Inside(UnionBounds(b.rect, t.rect), x, y) ==> !Differs(b, t, x, y)
    ensures regions == [] && boxes == [] && merged == []
  {
    if |regions| > 0 {
      assert false;
    }
  }

  /**
   * findRectangles for two RGBA images: the diff map of the union, the scan for regions, the
   * big boxes, and mergeRectangles. The ghost results are the regions and all their boxes,
   * the big boxes handed to the merge, and the merged box that absorbed each of them.
   */
  method FindRectangles(b: RgbaImage, t: RgbaImage, workers: nat)
    returns (merged: seq<Box>, ghost regions: seq<seq<Cell>>, ghost boxes: seq<Box>, ghost kept: seq<Box>,
             ghost owner: seq<int>)
    requires 0 < workers && AtOrigin(b, t)
    ensures Detects(b, t, regions, boxes, merged) && kept == Keep(boxes)
    // each big box lies in the merged box that absorbed it
    ensures |owner| == |kept|
    ensures forall j :: 0 <= j < |kept| ==> 0 <= owner[j] < |merged| && Encloses(merged[owner[j]], kept[j])
    // and each merged box is the smallest box enclosing the big boxes it absorbed
    ensures forall m, r :: 0 <= m < |merged| && BoundsOwned(r, kept, owner, m) ==> Encloses(r, merged[m])
    // in terms of the boxes alone: all big, and none where nothing changed
    ensures forall m :: 0 <= m < |merged| ==> Big(merged[m])
    ensures (forall x, y :: Inside(UnionBounds(b.rect, t.rect), x, y) ==> !Differs(b, t, x, y)) ==> merged == []
  {
    var diffMap := BuildDiffMap(b, t, workers);
    var rects;
    rects, regions, boxes := FindRegions(b, t, UnionBounds(b.rect, t.rect), diffMap);
    kept := rects;
    ghost var seeds;
    merged, seeds, owner := MergeRectangles(rects);
    MergedFrames(regions, boxes, kept, merged, seeds, owner);
    if forall x, y :: Inside(UnionBounds(b.rect, t.rect), x, y) ==> !Differs(b, t, x, y) {
      NothingChanged(b, t, regions, boxes, merged);
    }
  }
}
