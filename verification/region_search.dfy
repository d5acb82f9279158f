/**
 * findBoundingBox: a breadth-first search over the diff map from one changed cell, through
 * the 8-connected changed cells not yet visited, marking each visited as it is queued and
 * growing the bounding box of the cells it dequeues.
 */
module RegionSearch {
  import opened Boxes

  /** A cell of the diff map, column x of row y. */
  datatype Cell = Cell(x: int, y: int)

  predicate InGrid(c: Cell, width: int, height: int)
  {
    0 <= c.x < width && 0 <= c.y < height
  }

  /** The eight neighbours: cells that differ by at most one on each axis. */
  predicate Adjacent(a: Cell, b: Cell)
  {
    a != b && -1 <= a.x - b.x <= 1 && -1 <= a.y - b.y <= 1
  }

  function GridCells(width: nat, height: nat): set<Cell>
  {
    set x, y | 0 <= x < width && 0 <= y < height :: Cell(x, y)
  }

  /** The maps: the diff map read by the search and the visited map it writes. */
  predicate Maps(diffMap: array2<bool>, visited: array2<bool>, width: int, height: int)
  {
    diffMap.Length0 == height && diffMap.Length1 == width &&
    visited.Length0 == height && visited.Length1 == width && diffMap != visited
  }

  /** A visited cell was visited before the search, or was found by it. */
  ghost predicate Tracks(visited: array2<bool>, width: int, height: int, initial: set<Cell>, order: seq<Cell>)
    requires visited.Length0 == height && visited.Length1 == width
    reads visited
  {
    forall x, y :: 0 <= x < width && 0 <= y < height ==>
      (visited[y, x] <==> Cell(x, y) in initial || Cell(x, y) in order)
  }

  /**
   * The cells found so far: distinct, inside the map, the start first, and every later one a
   * changed cell not visited before, reached from an earlier one by a single step.
   */
  ghost predicate Found(diffMap: array2<bool>, width: int, height: int, initial: set<Cell>, start: Cell,
                        order: seq<Cell>, parent: seq<int>)
    requires diffMap.Length0 == height && diffMap.Length1 == width
    reads diffMap
  {
    |order| == |parent| && 0 < |order| && order[0] == start &&
    (forall k :: 0 <= k < |order| ==> InGrid(order[k], width, height)) &&
    (forall k :: 0 < k < |order| ==> diffMap[order[k].y, order[k].x] && order[k] !in initial) &&
    (forall k, k2 :: 0 <= k < k2 < |order| ==> order[k] != order[k2]) &&
    (forall k :: 0 < k < |order| ==> 0 <= parent[k] < k && Adjacent(order[parent[k]], order[k]))
  }

  /** Every changed neighbour of the first n found cells is visited. */
  ghost predicate Closed(diffMap: array2<bool>, visited: array2<bool>, width: int, height: int, order: seq<Cell>, n: int)
    requires Maps(diffMap, visited, width, height) && n <= |order|
    reads diffMap, visited
  {
    forall k, x, y :: 0 <= k < n && 0 <= x < width && 0 <= y < height && Adjacent(order[k], Cell(x, y)) && diffMap[y, x] ==>
      visited[y, x]
  }

  /** Queues the cell (nx, ny), a neighbour of found cell from, when it is inside the map, changed and not yet visited. */
  method Enqueue(diffMap: array2<bool>, visited: array2<bool>, width: int, height: int, nx: int, ny: int,
                 queue: seq<Cell>, ghost initial: set<Cell>, ghost start: Cell,
                 ghost order: seq<Cell>, ghost parent: seq<int>, ghost from: int)
    returns (queue': seq<Cell>, ghost order': seq<Cell>, ghost parent': seq<int>)
    requires Maps(diffMap, visited, width, height)
    requires Found(diffMap, width, height, initial, start, order, parent) && Tracks(visited, width, height, initial, order)
    requires 0 <= from < |order| && Adjacent(order[from], Cell(nx, ny))
    modifies visited
    ensures Found(diffMap, width, height, initial, start, order', parent') && Tracks(visited, width, height, initial, order')
    ensures |order| <= |order'| && order'[..|order|] == order && queue' == queue + order'[|order|..]
    ensures 0 <= nx < width && 0 <= ny < height && diffMap[ny, nx] ==> visited[ny, nx]
    ensures forall y, x :: 0 <= y < height && 0 <= x < width && old(visited[y, x]) ==> visited[y, x]
  {
    queue', order', parent' := queue, order, parent;
    if nx >= 0 && nx < width && ny >= 0 && ny < height && diffMap[ny, nx] && !visited[ny, nx] {
      visited[ny, nx] := true;
      queue', order', parent' := queue + [Cell(nx, ny)], order + [Cell(nx, ny)], parent + [from];
      assert order'[|order|..] == [Cell(nx, ny)];
    }
  }

  /** The 8-neighbour loops of findBoundingBox for the dequeued cell p, the found cell at index from. */
  method VisitNeighbours(diffMap: array2<bool>, visited: array2<bool>, width: int, height: int, p: Cell,
                         queue: seq<Cell>, ghost initial: set<Cell>, ghost start: Cell,
                         ghost order: seq<Cell>, ghost parent: seq<int>, ghost from: int)
    returns (queue': seq<Cell>, ghost order': seq<Cell>, ghost parent': seq<int>)
    requires Maps(diffMap, visited, width, height)
    requires Found(diffMap, width, height, initial, start, order, parent) && Tracks(visited, width, height, initial, order)
    requires 0 <= from < |order| && order[from] == p
    modifies visited
    ensures Found(diffMap, width, height, initial, start, order', parent') && Tracks(visited, width, height, initial, order')
    ensures |order| <= |order'| && order'[..|order|] == order && queue' == queue + order'[|order|..]
    ensures forall x, y :: 0 <= x < width && 0 <= y < height && Adjacent(p, Cell(x, y)) && diffMap[y, x] ==> visited[y, x]
  {
    queue', order', parent' := queue, order, parent;
    var dy := -1;
    while dy <= 1
      invariant -1 <= dy <= 2
      invariant Found(diffMap, width, height, initial, start, order', parent') && Tracks(visited, width, height, initial, order')
      invariant |order| <= |order'| && order'[..|order|] == order && queue' == queue + order'[|order|..]
      invariant forall x, y :: 0 <= x < width && 0 <= y < height && Adjacent(p, Cell(x, y)) && y - p.y < dy && diffMap[y, x] ==>
                  visited[y, x]
    {
      ghost var before := order';
      queue', order', parent' := VisitRow(diffMap, visited, width, height, p, dy, queue', initial, start, order', parent', from);
      assert order'[|order|..] == before[|order|..] + order'[|before|..];
      dy := dy + 1;
    }
  }

  /** The inner loop over dx for one row offset dy; the cell p itself is skipped. */
  method VisitRow(diffMap: array2<bool>, visited: array2<bool>, width: int, height: int, p: Cell, dy: int,
                  queue: seq<Cell>, ghost initial: set<Cell>, ghost start: Cell,
                  ghost order: seq<Cell>, ghost parent: seq<int>, ghost from: int)
    returns (queue': seq<Cell>, ghost order': seq<Cell>, ghost parent': seq<int>)
    requires Maps(diffMap, visited, width, height)
    requires Found(diffMap, width, height, initial, start, order, parent) && Tracks(visited, width, height, initial, order)
    requires 0 <= from < |order| && order[from] == p && -1 <= dy <= 1
    modifies visited
    ensures Found(diffMap, width, height, initial, start, order', parent') && Tracks(visited, width, height, initial, order')
    ensures |order| <= |order'| && order'[..|order|] == order && queue' == queue + order'[|order|..]
    ensures forall x, y :: 0 <= x < width && 0 <= y < height && y == p.y + dy && Adjacent(p, Cell(x, y)) && diffMap[y, x] ==>
              visited[y, x]
  {
    queue', order', parent' := queue, order, parent;
    var dx := -1;
    while dx <= 1
      invariant -1 <= dx <= 2
      invariant Found(diffMap, width, height, initial, start, order', parent') && Tracks(visited, width, height, initial, order')
      invariant |order| <= |order'| && order'[..|order|] == order && queue' == queue + order'[|order|..]
      invariant forall x, y ::
                  0 <= x < width && 0 <= y < height && y == p.y + dy && Adjacent(p, Cell(x, y)) && x - p.x < dx && diffMap[y, x] ==>
                  visited[y, x]
    {
      if !(dx == 0 && dy == 0) {
        ghost var before := order';
        assert order'[from] == p;
        queue', order', parent' := Enqueue(diffMap, visited, width, height, p.x + dx, p.y + dy,
                                           queue', initial, start, order', parent', from);
        assert order'[|order|..] == before[|order|..] + order'[|before|..];
      }
      dx := dx + 1;
    }
  }

  /** The cells of the map not among the found ones. */
  ghost function NotFound(width: nat, height: nat, order: seq<Cell>): set<Cell>
  {
    GridCells(width, height) - (set c | c in order)
  }

  /** Finding one more cell shrinks the set of cells not yet found. */
  lemma FoundMore(width: nat, height: nat, order: seq<Cell>, order': seq<Cell>)
    requires |order| < |order'| && order'[..|order|] == order
    requires forall k :: 0 <= k < |order'| ==> InGrid(order'[k], width, height)
    requires forall k, k2 :: 0 <= k < k2 < |order'| ==> order'[k] != order'[k2]
    ensures NotFound(width, height, order') < NotFound(width, height, order)
  {
    var c := order'[|order|];
    assert c !in order by {
      forall k | 0 <= k < |order|
        ensures order[k] != c
      {
        assert order[k] == order'[k];
      }
    }
    assert c in GridCells(width, height) by {
      assert c == Cell(c.x, c.y);
    }
    forall d | d in order
      ensures d in order'
    {
      var k :| 0 <= k < |order| && order[k] == d;
      assert order'[k] == d;
    }
    var g, s, s' := GridCells(width, height), set d | d in order, set d | d in order';
    assert s <= s';
    assert c in s' && c !in s;
    assert g - s' <= g - s;
    assert c in g - s && c !in g - s';
  }

  /** Every changed neighbour of the first n found cells was visited before or is found. */
  ghost predicate ClosedFound(diffMap: array2<bool>, width: int, height: int, initial: set<Cell>, order: seq<Cell>, n: int)
    requires diffMap.Length0 == height && diffMap.Length1 == width && n <= |order|
    reads diffMap
  {
    forall k, x, y :: 0 <= k < n && 0 <= x < width && 0 <= y < height && Adjacent(order[k], Cell(x, y)) && diffMap[y, x] ==>
      Cell(x, y) in initial || Cell(x, y) in order
  }

  /** Handling the neighbours of found cell n extends the closure to the first n + 1 cells. */
  lemma ClosedStep(diffMap: array2<bool>, visited: array2<bool>, width: int, height: int, initial: set<Cell>,
                   order: seq<Cell>, order': seq<Cell>, n: int)
    requires Maps(diffMap, visited, width, height)
    requires 0 <= n < |order| <= |order'| && order'[..|order|] == order
    requires ClosedFound(diffMap, width, height, initial, order, n)
    requires Tracks(visited, width, height, initial, order')
    requires forall x, y :: 0 <= x < width && 0 <= y < height && Adjacent(order[n], Cell(x, y)) && diffMap[y, x] ==> visited[y, x]
    ensures ClosedFound(diffMap, width, height, initial, order', n + 1)
  {
    forall k, x, y | 0 <= k < n + 1 && 0 <= x < width && 0 <= y < height && Adjacent(order'[k], Cell(x, y)) && diffMap[y, x]
      ensures Cell(x, y) in initial || Cell(x, y) in order'
    {
      assert order'[k] == order[k];
      if k < n && Cell(x, y) in order {
        var j :| 0 <= j < |order| && order[j] == Cell(x, y);
        assert order'[j] == Cell(x, y);
      }
    }
  }

  /** Once every found cell is handled, every changed neighbour of one is visited. */
  lemma ClosedAtEnd(diffMap: array2<bool>, visited: array2<bool>, width: int, height: int, initial: set<Cell>, order: seq<Cell>)
    requires Maps(diffMap, visited, width, height)
    requires ClosedFound(diffMap, width, height, initial, order, |order|)
    requires Tracks(visited, width, height, initial, order)
    ensures Closed(diffMap, visited, width, height, order, |order|)
  {
  }

  /** minX..maxX and minY..maxY are the tight bounds of the cells: all lie within, and each bound is attained. */
  ghost predicate Spans(cells: seq<Cell>, minX: int, minY: int, maxX: int, maxY: int)
  {
    (forall c :: c in cells ==> minX <= c.x <= maxX && minY <= c.y <= maxY) &&
    (exists c :: c in cells && c.x == minX) && (exists c :: c in cells && c.x == maxX) &&
    (exists c :: c in cells && c.y == minY) && (exists c :: c in cells && c.y == maxY)
  }

  /** The bounding box of spanned cells, shifted by an offset, is at least one cell wide and high. */
  lemma SpansBox(cells: seq<Cell>, minX: int, minY: int, maxX: int, maxY: int, box: Box, offsetX: int, offsetY: int)
    requires Spans(cells, minX, minY, maxX, maxY)
    requires box == Box(minX + offsetX, minY + offsetY, maxX - minX + 1, maxY - minY + 1)
    ensures box.width >= 1 && box.height >= 1
    ensures Spans(cells, box.x - offsetX, box.y - offsetY, Right(box) - 1 - offsetX, Bottom(box) - 1 - offsetY)
  {
    var c :| c in cells && c.x == minX;
  }

  lemma SpansOne(p: Cell)
    ensures Spans([p], p.x, p.y, p.x, p.y)
  {
    assert p in [p];
  }

  /** Dequeuing p widens the bounds exactly as the four comparisons of findBoundingBox do. */
  lemma SpansAdd(cells: seq<Cell>, p: Cell, minX: int, minY: int, maxX: int, maxY: int)
    requires Spans(cells, minX, minY, maxX, maxY)
    ensures Spans(cells + [p], if p.x < minX then p.x else minX, if p.y < minY then p.y else minY,
                  if p.x > maxX then p.x else maxX, if p.y > maxY then p.y else maxY)
  {
    var cells' := cells + [p];
    assert p in cells';
    forall c | c in cells
      ensures c in cells'
    {
    }
  }

  lemma SliceSnoc(s: seq<Cell>, n: int)
    requires 0 <= n < |s|
    ensures s[..n + 1] == s[..n] + [s[n]]
  {
  }

  lemma SliceAll(s: seq<Cell>, n: int)
    requires n == |s|
    ensures s[..n] == s
  {
  }

  /** After dequeuing found cell head and queuing new cells, the queue is still the unhandled found cells. */
  lemma QueueAfterStep(order: seq<Cell>, order': seq<Cell>, head: int, queue': seq<Cell>)
    requires 0 <= head < |order| <= |order'| && order'[..|order|] == order
    requires queue' == order[head..][1..] + order'[|order|..]
    ensures queue' == order'[head + 1..] && order'[..head + 1] == order[..head + 1]
  {
    assert order'[head + 1..] == order'[head + 1..|order|] + order'[|order|..];
    assert order'[head + 1..|order|] == order[head + 1..];
  }

  /** The number of found cells already dequeued: the found cells not in the queue. */
  ghost function Head(order: seq<Cell>, queue: seq<Cell>): int
  {
    |order| - |queue|
  }

  /**
   * The state of the search: the queue is the found cells not yet dequeued, and the bounds are
   * those of the dequeued cells (of the start before any is dequeued).
   */
  ghost predicate SearchState(diffMap: array2<bool>, visited: array2<bool>, width: nat, height: nat, initial: set<Cell>,
                              start: Cell, order: seq<Cell>, parent: seq<int>, queue: seq<Cell>,
                              minX: int, minY: int, maxX: int, maxY: int)
    requires Maps(diffMap, visited, width, height)
    reads diffMap, visited
  {
    Found(diffMap, width, height, initial, start, order, parent) &&
    Tracks(visited, width, height, initial, order) &&
    0 <= Head(order, queue) && queue == order[Head(order, queue)..] &&
    ClosedFound(diffMap, width, height, initial, order, Head(order, queue)) &&
    Spans(order[..if Head(order, queue) == 0 then 1 else Head(order, queue)], minX, minY, maxX, maxY)
  }

  /**
   * The four comparisons of findBoundingBox for the cell p at the front of the queue: the
   * bounds of the dequeued cells, or of p alone when none is dequeued yet, become the bounds
   * with p dequeued too.
   */
  method WidenBounds(ghost order: seq<Cell>, ghost queue: seq<Cell>, p: Cell, minX: int, minY: int, maxX: int, maxY: int)
    returns (minX': int, minY': int, maxX': int, maxY': int)
    requires 0 < |queue| && 0 <= Head(order, queue) && queue == order[Head(order, queue)..] && p == queue[0]
    requires Spans(order[..if Head(order, queue) == 0 then 1 else Head(order, queue)], minX, minY, maxX, maxY)
    ensures Spans(order[..Head(order, queue) + 1], minX', minY', maxX', maxY')
  {
    var head := Head(order, queue);
    assert order[head] == p;
    SliceSnoc(order, head);
    if head > 0 {
      SpansAdd(order[..head], p, minX, minY, maxX, maxY);
    }
    minX', minY', maxX', maxY' := minX, minY, maxX, maxY;
    if p.x < minX' {
      minX' := p.x;
    }
    if p.x > maxX' {
      maxX' := p.x;
    }
    if p.y < minY' {
      minY' := p.y;
    }
    if p.y > maxY' {
      maxY' := p.y;
    }
  }

  /**
   * Queues the changed neighbours of point, just taken from the front of pending, which
   * closes one more found cell; the bounds, already widened by it, are those of the dequeued cells.
   */
  method HandleCell(diffMap: array2<bool>, visited: array2<bool>, width: nat, height: nat, point: Cell, queue: seq<Cell>,
                    ghost pending: seq<Cell>, ghost initial: set<Cell>, ghost start: Cell, ghost order: seq<Cell>,
                    ghost parent: seq<int>, ghost minX: int, ghost minY: int, ghost maxX: int, ghost maxY: int)
    returns (queue': seq<Cell>, ghost order': seq<Cell>, ghost parent': seq<int>)
    requires Maps(diffMap, visited, width, height)
    requires Found(diffMap, width, height, initial, start, order, parent) && Tracks(visited, width, height, initial, order)
    requires 0 < |pending| && 0 <= Head(order, pending) && pending == order[Head(order, pending)..]
    requires point == pending[0] && queue == pending[1..]
    requires ClosedFound(diffMap, width, height, initial, order, Head(order, pending))
    requires Spans(order[..Head(order, pending) + 1], minX, minY, maxX, maxY)
    modifies visited
    ensures SearchState(diffMap, visited, width, height, initial, start, order', parent', queue', minX, minY, maxX, maxY)
    ensures NotFound(width, height, order') < NotFound(width, height, order) || (order' == order && |queue'| < |pending|)
  {
    ghost var head := Head(order, pending);
    assert point == order[head];
    queue', order', parent' := VisitNeighbours(diffMap, visited, width, height, point, queue, initial, start, order, parent, head);
    ClosedStep(diffMap, visited, width, height, initial, order, order', head);
    if |order| < |order'| {
      FoundMore(width, height, order, order');
    } else {
      assert order' == order;
    }
    QueueAfterStep(order, order', head, queue');
    StateAfterStep(diffMap, visited, width, height, initial, start, order, order', parent', queue', head + 1,
                   minX, minY, maxX, maxY);
  }

  /** The facts a turn of the loop establishes make up the search state for the next turn. */
  lemma StateAfterStep(diffMap: array2<bool>, visited: array2<bool>, width: nat, height: nat, initial: set<Cell>,
                       start: Cell, order: seq<Cell>, order': seq<Cell>, parent': seq<int>, queue': seq<Cell>, head': int,
                       minX: int, minY: int, maxX: int, maxY: int)
    requires Maps(diffMap, visited, width, height)
    requires Found(diffMap, width, height, initial, start, order', parent') && Tracks(visited, width, height, initial, order')
    requires 0 < head' <= |order| <= |order'| && order'[..|order|] == order && queue' == order'[head'..]
    requires ClosedFound(diffMap, width, height, initial, order', head')
    requires Spans(order[..head'], minX, minY, maxX, maxY)
    ensures SearchState(diffMap, visited, width, height, initial, start, order', parent', queue', minX, minY, maxX, maxY)
  {
    assert Head(order', queue') == head';
    PrefixOfPrefix(order, order', head');
  }

  lemma PrefixOfPrefix<T>(a: seq<T>, b: seq<T>, m: nat)
    requires m <= |a| <= |b| && b[..|a|] == a
    ensures b[..m] == a[..m]
  {
    assert forall i :: 0 <= i < m ==> b[i] == b[..|a|][i];
  }

  /** One turn of the search loop: dequeue a cell, widen the bounds, queue its neighbours. */
  method SearchStep(diffMap: array2<bool>, visited: array2<bool>, width: nat, height: nat, ghost initial: set<Cell>,
                    ghost start: Cell, ghost order: seq<Cell>, ghost parent: seq<int>, queue: seq<Cell>,
                    minX: int, minY: int, maxX: int, maxY: int)
    returns (queue': seq<Cell>, ghost order': seq<Cell>, ghost parent': seq<int>,
             minX': int, minY': int, maxX': int, maxY': int)
    requires Maps(diffMap, visited, width, height) && |queue| > 0
    requires SearchState(diffMap, visited, width, height, initial, start, order, parent, queue, minX, minY, maxX, maxY)
    modifies visited
    ensures SearchState(diffMap, visited, width, height, initial, start, order', parent', queue', minX', minY', maxX', maxY')
    ensures NotFound(width, height, order') < NotFound(width, height, order) || (order' == order && |queue'| < |queue|)
  {
    var point := queue[0];
    queue' := queue[1..];
    minX', minY', maxX', maxY' := WidenBounds(order, queue, point, minX, minY, maxX, maxY);
    queue', order', parent' := HandleCell(diffMap, visited, width, height, point, queue', queue, initial, start, order, parent,
                                          minX', minY', maxX', maxY');
  }

  /** The loop of findBoundingBox: runs until the queue is empty, when every found cell is handled. */
  method Search(diffMap: array2<bool>, visited: array2<bool>, width: nat, height: nat, ghost initial: set<Cell>,
                ghost start: Cell, queue: seq<Cell>, ghost order: seq<Cell>, ghost parent: seq<int>,
                minX: int, minY: int, maxX: int, maxY: int)
    returns (minX': int, minY': int, maxX': int, maxY': int, ghost order': seq<Cell>, ghost parent': seq<int>)
    requires Maps(diffMap, visited, width, height)
    requires SearchState(diffMap, visited, width, height, initial, start, order, parent, queue, minX, minY, maxX, maxY)
    modifies visited
    ensures Found(diffMap, width, height, initial, start, order', parent')
    ensures Tracks(visited, width, height, initial, order')
    ensures Closed(diffMap, visited, width, height, order', |order'|)
    ensures Spans(order', minX', minY', maxX', maxY')
  {
    var queue' := queue;
    order', parent' := order, parent;
    minX', minY', maxX', maxY' := minX, minY, maxX, maxY;
    while |queue'| > 0
      invariant SearchState(diffMap, visited, width, height, initial, start, order', parent', queue', minX', minY', maxX', maxY')
      decreases NotFound(width, height, order'), |queue'|
    {
      queue', order', parent', minX', minY', maxX', maxY' :=
        SearchStep(diffMap, visited, width, height, initial, start, order', parent', queue', minX', minY', maxX', maxY');
    }
    SliceAll(order', Head(order', queue'));
    ClosedAtEnd(diffMap, visited, width, height, initial, order');
  }

  /** The start of findBoundingBox: the queue holds the start cell alone, now marked visited. */
  method StartSearch(diffMap: array2<bool>, visited: array2<bool>, width: nat, height: nat, start: Cell)
    returns (queue: seq<Cell>, ghost order: seq<Cell>, ghost parent: seq<int>, ghost initial: set<Cell>)
    requires Maps(diffMap, visited, width, height) && InGrid(start, width, height)
    modifies visited
    ensures forall x, y :: 0 <= x < width && 0 <= y < height ==> (Cell(x, y) in initial <==> old(visited[y, x]))
    ensures SearchState(diffMap, visited, width, height, initial, start, order, parent, queue, start.x, start.y, start.x, start.y)
  {
    initial := set x, y | 0 <= x < width && 0 <= y < height && visited[y, x] :: Cell(x, y);
    queue := [start];
    order, parent := [start], [0];
    visited[start.y, start.x] := true;
    forall x, y | 0 <= x < width && 0 <= y < height
      ensures visited[y, x] <==> Cell(x, y) in initial || Cell(x, y) in order
    {
      if Cell(x, y) != start {
        assert visited[y, x] == old(visited[y, x]);
        if old(visited[y, x]) {
          assert Cell(x, y) in initial;
        }
      }
    }
    SpansOne(start);
  }

  /**
   * findBoundingBox from (startX, startY): returns the bounding box, shifted by the offset,
   * of the cells it finds, which are the start and the changed cells reached from it through
   * changed cells not visited before. The ghost results are the cells in the order they were
   * queued, the earlier cell each was reached from, and the cells visited before the call.
   */
  method FindBoundingBox(diffMap: array2<bool>, visited: array2<bool>, startX: int, startY: int,
                         width: nat, height: nat, offsetX: int, offsetY: int)
    returns (box: Box, ghost order: seq<Cell>, ghost parent: seq<int>, ghost initial: set<Cell>)
    requires Maps(diffMap, visited, width, height)
    requires 0 <= startX < width && 0 <= startY < height
    modifies visited
    ensures forall x, y :: 0 <= x < width && 0 <= y < height ==> (Cell(x, y) in initial <==> old(visited[y, x]))
    ensures Found(diffMap, width, height, initial, Cell(startX, startY), order, parent)
    ensures Tracks(visited, width, height, initial, order)
    ensures Closed(diffMap, visited, width, height, order, |order|)
    ensures box.width >= 1 && box.height >= 1
    ensures Spans(order, box.x - offsetX, box.y - offsetY, Right(box) - 1 - offsetX, Bottom(box) - 1 - offsetY)
  {
    var start := Cell(startX, startY);
    var queue;
    queue, order, parent, initial := StartSearch(diffMap, visited, width, height, start);
    var minX, minY, maxRectX, maxRectY := startX, startY, startX, startY;
    minX, minY, maxRectX, maxRectY, order, parent :=
      Search(diffMap, visited, width, height, initial, start, queue, order, parent, minX, minY, maxRectX, maxRectY);
    box := Box(minX + offsetX, minY + offsetY, maxRectX - minX + 1, maxRectY - minY + 1);
    SpansBox(order, minX, minY, maxRectX, maxRectY, box, offsetX, offsetY);
  }
}
