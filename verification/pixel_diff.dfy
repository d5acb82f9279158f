/**
 * PixelDiff: compares two RGBA images pixel by pixel over the union of their bounds.
 * Equal pixels are copied, differing ones are painted red, blue or left as the baseline
 * colour by their change in brightness, and red and blue pixels are counted as added and
 * removed. The goroutine fan-out is modelled as the same row chunks processed in order.
 */
module PixelDiff {
  import opened Wrappers
  import opened Raster
  import opened Fraction

  datatype Ratio = Ratio(num: int, den: int)

  /** The float64 threshold as an exact ratio num / den. */
  type Threshold = r: Ratio | r.den > 0 witness Ratio(0, 1)

  function Brightness(c: Color): nat
  {
    c.r + c.g + c.b
  }

  /**
   * The brightness difference is a whole number, so comparing difference / 765 with the
   * threshold only depends on floor(765 * threshold).
   */
  function Level(th: Threshold): int
  {
    (th.num * 765) / th.den
  }

  /** normalizedDiff > threshold, where normalizedDiff = (target - baseline brightness) / 765. */
  predicate Brighter(th: Threshold, b: Color, t: Color)
  {
    Brightness(t) - Brightness(b) > Level(th)
  }

  /** normalizedDiff < -threshold. */
  predicate Darker(th: Threshold, b: Color, t: Color)
  {
    Brightness(t) - Brightness(b) < -Level(th)
  }

  /** The integer tests are the rational comparisons with the threshold. */
  lemma LevelIsExact(th: Threshold, d: int)
    ensures d > Level(th) <==> d * th.den > th.num * 765
    ensures d < -Level(th) <==> d * th.den < -th.num * 765
  {
    var n, q := th.num * 765, th.den;
    var l := n / q;
    assert l * q <= n < l * q + q by {
      assert n == l * q + n % q;
    }
    if d > l {
      ScaleLe(l + 1, d, q);
      assert (l + 1) * q == l * q + q;
    } else {
      ScaleLe(d, l, q);
    }
    if d < -l {
      ScaleLe(d, -l - 1, q);
      assert (-l - 1) * q == -(l * q) - q;
    } else {
      ScaleLe(-l, d, q);
      assert -l * q == -(l * q);
    }
  }

  lemma ScaleLe(a: int, b: int, q: int)
    requires 0 < q && a <= b
    ensures a * q <= b * q
  {
    assert b * q - a * q == (b - a) * q;
  }

  /** getDiffColor: red when the target is brighter beyond the threshold, blue when darker, else the baseline colour. */
  function DiffColor(th: Threshold, b: Color, t: Color): (d: Color)
    ensures Brighter(th, b, t) ==> d == Red
    ensures !Brighter(th, b, t) && Darker(th, b, t) ==> d == Blue
    ensures !Brighter(th, b, t) && !Darker(th, b, t) ==> d == b
  {
    if Brighter(th, b, t) then Red
    else if Darker(th, b, t) then Blue
    else b
  }

  /** Swapping baseline and target turns "brighter" into "darker". */
  lemma BrighterMirrorsDarker(th: Threshold, b: Color, t: Color)
    ensures Brighter(th, b, t) <==> Darker(th, t, b)
  {
  }

  /** With a non-negative threshold a change is never both brighter and darker. */
  lemma BrighterExcludesDarker(th: Threshold, b: Color, t: Color)
    requires th.num >= 0
    ensures !(Brighter(th, b, t) && Darker(th, b, t))
  {
    assert Level(th) >= 0;
  }

  /** With a non-negative threshold, two colours of equal brightness keep the baseline colour. */
  lemma EqualBrightnessKeepsBaseline(th: Threshold, b: Color, t: Color)
    requires th.num >= 0 && Brightness(b) == Brightness(t)
    ensures DiffColor(th, b, t) == b
  {
  }

  predicate IsRed(c: Color) { c.r == 255 && c.g == 0 && c.b == 0 }
  predicate IsBlue(c: Color) { c.r == 0 && c.g == 0 && c.b == 255 }

  /** What one pixel contributes: the colour written to the diff and whether it counts. */
  datatype Outcome = Outcome(color: Color, added: bool, removed: bool)

  /** The per-pixel rule: copy equal colours, otherwise paint the diff colour and count it by its colour. */
  function Judge(th: Threshold, b: Color, t: Color): (o: Outcome)
    ensures ColorsEqual(b, t) ==> o == Outcome(b, false, false)
    ensures !ColorsEqual(b, t) ==> o.color == DiffColor(th, b, t)
    ensures o.added <==> !ColorsEqual(b, t) && IsRed(o.color)
    ensures o.removed <==> !ColorsEqual(b, t) && !IsRed(o.color) && IsBlue(o.color)
    ensures !(o.added && o.removed)
  {
    if ColorsEqual(b, t) then Outcome(b, false, false)
    else
      var d := DiffColor(th, b, t);
      if IsRed(d) then Outcome(d, true, false)
      else if IsBlue(d) then Outcome(d, false, true)
      else Outcome(d, false, false)
  }

  /** With a threshold below 1, a differing pixel whose brightness moves beyond it is counted. */
  lemma JudgeCountsBeyondThreshold(th: Threshold, b: Color, t: Color)
    requires th.num >= 0
    requires Brighter(th, b, t) || Darker(th, b, t)
    ensures Brighter(th, b, t) ==> Judge(th, b, t).added
    ensures Darker(th, b, t) ==> Judge(th, b, t).removed
  {
    BrighterExcludesDarker(th, b, t);
  }

  /**
   * The counters look at the painted colour, not at the brightness test: a pure red baseline
   * pixel whose change stays inside the threshold is copied through and counted as added.
   */
  lemma RedBaselineInBandCountsAsAdded(th: Threshold)
    requires th.num >= 0
    ensures Judge(th, Red, Color(255, 0, 0, 0)).added
  {
  }

  // ---------------------------------------------------------------- one pixel of the RGBA fast path

  /**
   * processRGBA's rule for column x of row y (x counted from minX): the byte offsets are
   * checked against the buffer lengths only; a pixel with either offset outside its buffer
   * is written opaque white and not counted.
   */
  function RgbaPixel(th: Threshold, b: RgbaImage, t: RgbaImage, minX: int, x: int, y: int): (o: Outcome)
    ensures !(o.added && o.removed)
  {
    var bo := PixOffset(b, minX, y) + x * 4;
    var to := PixOffset(t, minX, y) + x * 4;
    match (ReadAt(b, bo), ReadAt(t, to))
    case (Some(bc), Some(tc)) => Judge(th, bc, tc)
    case _ => Outcome(White, false, false)
  }

  /** processGeneric's rule for pixel (x, y): colours come from getColorAt, white outside the bounds. */
  function GenericPixel(th: Threshold, b: RgbaImage, t: RgbaImage, x: int, y: int): Outcome
  {
    Judge(th, ColorAt(b, x, y), ColorAt(t, x, y))
  }

  /** Where the pixel lies inside both standard images, the fast path and getColorAt agree. */
  lemma FastPathAgreesInside(th: Threshold, b: RgbaImage, t: RgbaImage, minX: int, x: int, y: int)
    requires Standard(b) && Standard(t)
    requires Inside(b.rect, minX + x, y) && Inside(t.rect, minX + x, y)
    ensures RgbaPixel(th, b, t, minX, x, y) == GenericPixel(th, b, t, minX + x, y)
  {
    assert PixOffset(b, minX, y) + x * 4 == PixOffset(b, minX + x, y);
    assert PixOffset(t, minX, y) + x * 4 == PixOffset(t, minX + x, y);
    ColorAtStandard(b, minX + x, y);
    ColorAtStandard(t, minX + x, y);
  }

  /** Outside the baseline the corrected rule compares against opaque white. */
  lemma GenericOutsideIsWhite(th: Threshold, b: RgbaImage, t: RgbaImage, x: int, y: int)
    requires !Inside(b.rect, x, y)
    ensures GenericPixel(th, b, t, x, y) == Judge(th, White, ColorAt(t, x, y))
  {
  }

  // ---------------------------------------------------------------- counting

  datatype Tally = Tally(added: nat, removed: nat)

  function Plus(p: Tally, q: Tally): Tally
  {
    Tally(p.added + q.added, p.removed + q.removed)
  }

  function Count(o: Outcome): Tally
  {
    Tally(if o.added then 1 else 0, if o.removed then 1 else 0)
  }

  /** The sum of f over [lo, hi). */
  function Sum(f: int -> Tally, lo: int, hi: int): Tally
    decreases hi - lo
  {
    if hi <= lo then Tally(0, 0) else Plus(Sum(f, lo, hi - 1), f(hi - 1))
  }

  lemma {:induction false} SumSplit(f: int -> Tally, lo: int, mid: int, hi: int)
    requires lo <= mid <= hi
    ensures Sum(f, lo, hi) == Plus(Sum(f, lo, mid), Sum(f, mid, hi))
    decreases hi - mid
  {
    if mid < hi {
      SumSplit(f, lo, mid, hi - 1);
    }
  }

  lemma {:induction false} SumBound(f: int -> Tally, lo: int, hi: int, k: nat)
    requires lo <= hi
    requires forall i :: lo <= i < hi ==> f(i).added + f(i).removed <= k
    ensures Sum(f, lo, hi).added + Sum(f, lo, hi).removed <= (hi - lo) * k
    decreases hi - lo
  {
    if lo < hi {
      SumBound(f, lo, hi - 1, k);
      assert (hi - lo) * k == (hi - 1 - lo) * k + k;
    }
  }

  lemma {:induction false} SumExact(f: int -> Tally, lo: int, hi: int, k: nat)
    requires lo <= hi
    requires forall i :: lo <= i < hi ==> f(i).added + f(i).removed == k
    ensures Sum(f, lo, hi).added + Sum(f, lo, hi).removed == (hi - lo) * k
    decreases hi - lo
  {
    if lo < hi {
      SumExact(f, lo, hi - 1, k);
      assert (hi - lo) * k == (hi - 1 - lo) * k + k;
    }
  }

  lemma {:induction false} SumZero(f: int -> Tally, lo: int, hi: int)
    requires forall i :: lo <= i < hi ==> f(i) == Tally(0, 0)
    ensures Sum(f, lo, hi) == Tally(0, 0)
    decreases hi - lo
  {
    if lo < hi {
      SumZero(f, lo, hi - 1);
    }
  }

  /** The count of each column of row y. */
  function PixelCounts(th: Threshold, b: RgbaImage, t: RgbaImage, minX: int, y: int): int -> Tally
  {
    x => Count(RgbaPixel(th, b, t, minX, x, y))
  }

  /** The counts of columns [0, n) of row y. */
  function RowTally(th: Threshold, b: RgbaImage, t: RgbaImage, minX: int, y: int, n: nat): Tally
  {
    Sum(PixelCounts(th, b, t, minX, y), 0, n)
  }

  /** The count of each row, over the given width. */
  function RowCounts(th: Threshold, b: RgbaImage, t: RgbaImage, minX: int, width: nat): int -> Tally
  {
    y => RowTally(th, b, t, minX, y, width)
  }

  /** The counts of rows [y0, y1), each of the given width. */
  function RowsTally(th: Threshold, b: RgbaImage, t: RgbaImage, minX: int, width: nat, y0: int, y1: int): Tally
  {
    Sum(RowCounts(th, b, t, minX, width), y0, y1)
  }

  /** Counting one more column adds that column's count. */
  lemma RowTallyStep(th: Threshold, b: RgbaImage, t: RgbaImage, minX: int, y: int, n: nat)
    ensures RowTally(th, b, t, minX, y, n + 1) == Plus(RowTally(th, b, t, minX, y, n), Count(RgbaPixel(th, b, t, minX, n, y)))
  {
  }

  /** Never more pixels are counted than processed. */
  lemma RowsTallyBound(th: Threshold, b: RgbaImage, t: RgbaImage, minX: int, width: nat, y0: int, y1: int)
    requires y0 <= y1
    ensures var s := RowsTally(th, b, t, minX, width, y0, y1); s.added + s.removed <= (y1 - y0) * width
  {
    forall y | y0 <= y < y1
      ensures RowCounts(th, b, t, minX, width)(y).added + RowCounts(th, b, t, minX, width)(y).removed <= width
    {
      SumBound(PixelCounts(th, b, t, minX, y), 0, width, 1);
    }
    SumBound(RowCounts(th, b, t, minX, width), y0, y1, width);
  }

  // ---------------------------------------------------------------- processRGBA

  /** Row y of the diff holds the fast path's colours for columns [0, n). */
  ghost predicate RowPainted(th: Threshold, b: RgbaImage, t: RgbaImage, diff: array2<Color>, bounds: Rectangle, y: int, n: int)
    requires Grid(diff, bounds) && bounds.min.y <= y < bounds.max.y && n <= Width(bounds)
    reads diff
  {
    forall x :: 0 <= x < n ==> diff[y - bounds.min.y, x] == RgbaPixel(th, b, t, bounds.min.x, x, y).color
  }

  /** Rows [y0, y1) of the diff hold the fast path's colours. */
  ghost predicate RowsPainted(th: Threshold, b: RgbaImage, t: RgbaImage, diff: array2<Color>, bounds: Rectangle, y0: int, y1: int)
    requires Grid(diff, bounds) && bounds.min.y <= y0 && y1 <= bounds.max.y
    reads diff
  {
    forall y, x :: y0 <= y < y1 && 0 <= x < Width(bounds) ==>
      diff[y - bounds.min.y, x] == RgbaPixel(th, b, t, bounds.min.x, x, y).color
  }

  method ProcessRow(th: Threshold, b: RgbaImage, t: RgbaImage, diff: array2<Color>, bounds: Rectangle, y: int)
    returns (added: nat, removed: nat)
    requires Grid(diff, bounds) && bounds.min.y <= y < bounds.max.y
    modifies diff
    ensures RowPainted(th, b, t, diff, bounds, y, Width(bounds))
    ensures forall r, c :: 0 <= r < diff.Length0 && 0 <= c < diff.Length1 && r != y - bounds.min.y ==>
              diff[r, c] == old(diff[r, c])
    ensures Tally(added, removed) == RowTally(th, b, t, bounds.min.x, y, Width(bounds))
  {
    added, removed := 0, 0;
    var row := y - bounds.min.y;
    var x := 0;
    while x < Width(bounds)
      invariant 0 <= x <= Width(bounds)
      invariant RowPainted(th, b, t, diff, bounds, y, x)
      invariant forall r, c :: 0 <= r < diff.Length0 && 0 <= c < diff.Length1 && r != row ==>
                  diff[r, c] == old(diff[r, c])
      invariant Tally(added, removed) == RowTally(th, b, t, bounds.min.x, y, x)
    {
      var o := RgbaPixel(th, b, t, bounds.min.x, x, y);
      RowTallyStep(th, b, t, bounds.min.x, y, x);
      diff[row, x] := o.color;
      if o.added {
        added := added + 1;
      } else if o.removed {
        removed := removed + 1;
      }
      x := x + 1;
    }
  }

  /** processRGBA over rows [startY, endY): paints those rows and returns their counts. */
  method ProcessRGBA(th: Threshold, b: RgbaImage, t: RgbaImage, diff: array2<Color>, bounds: Rectangle, startY: int, endY: int)
    returns (added: nat, removed: nat)
    requires Grid(diff, bounds)
    requires bounds.min.y <= startY <= endY <= bounds.max.y
    modifies diff
    ensures RowsPainted(th, b, t, diff, bounds, startY, endY)
    ensures forall r, c :: 0 <= r < diff.Length0 && 0 <= c < diff.Length1 ==>
              startY - bounds.min.y <= r < endY - bounds.min.y || diff[r, c] == old(diff[r, c])
    ensures Tally(added, removed) == RowsTally(th, b, t, bounds.min.x, Width(bounds), startY, endY)
  {
    added, removed := 0, 0;
    var y := startY;
    while y < endY
      invariant startY <= y <= endY
      invariant RowsPainted(th, b, t, diff, bounds, startY, y)
      invariant forall r, c :: 0 <= r < diff.Length0 && 0 <= c < diff.Length1 ==>
                  startY - bounds.min.y <= r < y - bounds.min.y || diff[r, c] == old(diff[r, c])
      invariant Tally(added, removed) == RowsTally(th, b, t, bounds.min.x, Width(bounds), startY, y)
    {
      label before:
      var rowAdded, rowRemoved := ProcessRow(th, b, t, diff, bounds, y);
      forall yy, x | startY <= yy < y + 1 && 0 <= x < Width(bounds)
        ensures diff[yy - bounds.min.y, x] == RgbaPixel(th, b, t, bounds.min.x, x, yy).color
      {
        if yy < y {
          assert diff[yy - bounds.min.y, x] == old@before(diff[yy - bounds.min.y, x]);
        }
      }
      added, removed := added + rowAdded, removed + rowRemoved;
      y := y + 1;
    }
  }

  // ---------------------------------------------------------------- Calculate

  /** The diff amount: counted pixels over all pixels of the union bounds, 0 for an empty union. */
  function PixelAmount(th: Threshold, b: RgbaImage, t: RgbaImage): (amount: Fraction)
    ensures amount.den > 0 && amount.num <= amount.den
  {
    var u := UnionBounds(b.rect, t.rect);
    var total := (u.max.y - u.min.y) * Width(u);
    var s := RowsTally(th, b, t, u.min.x, Width(u), u.min.y, u.max.y);
    RowsTallyBound(th, b, t, u.min.x, Width(u), u.min.y, u.max.y);
    if total > 0 then Fraction(s.added + s.removed, total) else Zero
  }

  /**
   * Calculate for two RGBA images: the same instance is returned as is with amount 0;
   * otherwise a white union-sized diff is painted chunk by chunk, one chunk per worker.
   */
  method Calculate(th: Threshold, b: RgbaImage, t: RgbaImage, sameInstance: bool, workers: nat)
    returns (image: DiffImage, amount: Fraction)
    requires 0 < workers
    requires sameInstance ==> b == t
    ensures sameInstance ==> image == SameAsBaseline && amount == Zero
    ensures !sameInstance ==>
              image.Painted? && fresh(image.pixels) && Grid(image.pixels, UnionBounds(b.rect, t.rect))
    ensures !sameInstance ==> var u := UnionBounds(b.rect, t.rect);
              image.Painted? && Grid(image.pixels, u) && RowsPainted(th, b, t, image.pixels, u, u.min.y, u.max.y)
    ensures !sameInstance ==> amount == PixelAmount(th, b, t)
  {
    if sameInstance {
      return SameAsBaseline, Zero;
    }
    var u := UnionBounds(b.rect, t.rect);
    var diff := new Color[Height(u), Width(u)]((r, c) => White);
    var added, removed := PaintChunks(th, b, t, diff, u, workers);
    var total := (u.max.y - u.min.y) * Width(u);
    amount := if total > 0 then Fraction(added + removed, total) else Zero;
    image := Painted(diff);
  }

  /** The worker fan-out: each worker's chunk of rows is processed in turn, covering every row. */
  method PaintChunks(th: Threshold, b: RgbaImage, t: RgbaImage, diff: array2<Color>, u: Rectangle, workers: nat)
    returns (added: nat, removed: nat)
    requires 0 < workers && Grid(diff, u)
    modifies diff
    ensures RowsPainted(th, b, t, diff, u, u.min.y, u.max.y)
    ensures Tally(added, removed) == RowsTally(th, b, t, u.min.x, Width(u), u.min.y, u.max.y)
  {
    added, removed := 0, 0;
    var done := u.min.y;
    for i := 0 to workers
      invariant i < workers ==> done == WorkerRows(u.min.y, u.max.y, workers, i).0
      invariant i == workers ==> done == u.max.y
      invariant RowsPainted(th, b, t, diff, u, u.min.y, done)
      invariant Tally(added, removed) == RowsTally(th, b, t, u.min.x, Width(u), u.min.y, done)
    {
      done, added, removed := PaintChunk(th, b, t, diff, u, workers, i, done, added, removed);
    }
  }

  /**
   * Worker i's chunk, after the chunks before it: the painted rows and the running counts
   * reach the chunk's end, which is where the next chunk starts (or the last row).
   */
  method PaintChunk(th: Threshold, b: RgbaImage, t: RgbaImage, diff: array2<Color>, u: Rectangle, workers: nat, i: nat,
                    done: int, added0: nat, removed0: nat)
    returns (end: int, added: nat, removed: nat)
    requires i < workers && Grid(diff, u)
    requires done == WorkerRows(u.min.y, u.max.y, workers, i).0
    requires RowsPainted(th, b, t, diff, u, u.min.y, done)
    requires Tally(added0, removed0) == RowsTally(th, b, t, u.min.x, Width(u), u.min.y, done)
    modifies diff
    ensures done <= end <= u.max.y
    ensures i + 1 < workers ==> end == WorkerRows(u.min.y, u.max.y, workers, i + 1).0
    ensures i + 1 == workers ==> end == u.max.y
    ensures RowsPainted(th, b, t, diff, u, u.min.y, end)
    ensures Tally(added, removed) == RowsTally(th, b, t, u.min.x, Width(u), u.min.y, end)
  {
    var rows := WorkerRows(u.min.y, u.max.y, workers, i);
    WorkerRowsInRange(u.min.y, u.max.y, workers, i);
    if i + 1 < workers {
      WorkerRowsAdjacent(u.min.y, u.max.y, workers, i);
    }
    var a, r := ExtendPainted(th, b, t, diff, u, done, rows.1);
    SumSplit(RowCounts(th, b, t, u.min.x, Width(u)), u.min.y, done, rows.1);
    return rows.1, added0 + a, removed0 + r;
  }

  /** One worker's chunk [done, endY) after rows [min.y, done) are painted: rows [min.y, endY) end up painted. */
  method ExtendPainted(th: Threshold, b: RgbaImage, t: RgbaImage, diff: array2<Color>, u: Rectangle, done: int, endY: int)
    returns (added: nat, removed: nat)
    requires Grid(diff, u) && u.min.y <= done <= endY <= u.max.y
    requires RowsPainted(th, b, t, diff, u, u.min.y, done)
    modifies diff
    ensures RowsPainted(th, b, t, diff, u, u.min.y, endY)
    ensures Tally(added, removed) == RowsTally(th, b, t, u.min.x, Width(u), done, endY)
  {
    added, removed := ProcessRGBA(th, b, t, diff, u, done, endY);
    forall y, x | u.min.y <= y < endY && 0 <= x < Width(u)
      ensures diff[y - u.min.y, x] == RgbaPixel(th, b, t, u.min.x, x, y).color
    {
      if y < done {
        assert diff[y - u.min.y, x] == old(diff[y - u.min.y, x]);
      }
    }
  }

  // ---------------------------------------------------------------- whole-image results

  /** Comparing an image with an equal copy counts nothing, so the amount is 0. */
  lemma EqualImagesScoreZero(th: Threshold, img: RgbaImage)
    ensures PixelAmount(th, img, img).num == 0
  {
    var u := UnionBounds(img.rect, img.rect);
    forall y | u.min.y <= y < u.max.y
      ensures RowCounts(th, img, img, u.min.x, Width(u))(y) == Tally(0, 0)
    {
      SumZero(PixelCounts(th, img, img, u.min.x, y), 0, Width(u));
    }
    SumZero(RowCounts(th, img, img, u.min.x, Width(u)), u.min.y, u.max.y);
  }

  /** A white pixel against a black one is counted, whatever the threshold below 1. */
  lemma WhiteAgainstBlackPixel(th: Threshold)
    requires th.num < th.den
    ensures var o := Judge(th, White, Black); o.added || o.removed
  {
    LevelIsExact(th, -765);
  }

  /** White against black with any threshold below 1 changes every pixel: the amount is 1. */
  lemma WhiteAgainstBlackScoresOne(th: Threshold, b: RgbaImage, t: RgbaImage)
    requires th.num < th.den
    requires Filled(b, White) && Filled(t, Black) && b.rect == t.rect
    requires 0 < Width(b.rect) && 0 < Height(b.rect)
    ensures var a := PixelAmount(th, b, t); a.num == a.den
  {
    UnionBoundsSame(b.rect);
    var r := b.rect;
    forall y | r.min.y <= y < r.max.y
      ensures var s := RowCounts(th, b, t, r.min.x, Width(r))(y); s.added + s.removed == Width(r)
    {
      WhiteAgainstBlackRow(th, b, t, y);
    }
    SumExact(RowCounts(th, b, t, r.min.x, Width(r)), r.min.y, r.max.y, Width(r));
  }

  /** Every row of white against black counts all of its pixels. */
  lemma WhiteAgainstBlackRow(th: Threshold, b: RgbaImage, t: RgbaImage, y: int)
    requires th.num < th.den
    requires Filled(b, White) && Filled(t, Black) && b.rect == t.rect
    requires b.rect.min.y <= y < b.rect.max.y
    ensures var s := RowTally(th, b, t, b.rect.min.x, y, Width(b.rect)); s.added + s.removed == Width(b.rect)
  {
    var r := b.rect;
    forall x | 0 <= x < Width(r)
      ensures var s := PixelCounts(th, b, t, r.min.x, y)(x); s.added + s.removed == 1
    {
      FilledColorAt(b, White, r.min.x + x, y);
      FilledColorAt(t, Black, r.min.x + x, y);
      WhiteAgainstBlackColumn(th, b, t, r.min.x, x, y);
    }
    SumExact(PixelCounts(th, b, t, r.min.x, y), 0, Width(r), 1);
  }

  /** One pixel that reads white in the baseline and black in the target is counted by the fast path. */
  lemma WhiteAgainstBlackColumn(th: Threshold, b: RgbaImage, t: RgbaImage, minX: int, x: int, y: int)
    requires th.num < th.den
    requires Standard(b) && Standard(t)
    requires Inside(b.rect, minX + x, y) && Inside(t.rect, minX + x, y)
    requires ColorAt(b, minX + x, y) == White && ColorAt(t, minX + x, y) == Black
    ensures var o := RgbaPixel(th, b, t, minX, x, y); o.added || o.removed
  {
    FastPathAgreesInside(th, b, t, minX, x, y);
    WhiteAgainstBlackPixel(th);
  }

  // ---------------------------------------------------------------- ycbcrToRGBA

  /** An arithmetic right shift by 16 bits, which floors. */
  function Shift16(v: int): int
  {
    v / 65536
  }

  function Clamp(v: int): (c: Byte)
    ensures 0 <= v <= 255 ==> c == v
    ensures v < 0 ==> c == 0
    ensures v > 255 ==> c == 255
  {
    if v < 0 then 0 else if v > 255 then 255 else v
  }

  const CrToR: int := 91881
  const CbToG: int := 22554
  const CrToG: int := 46802
  const CbToB: int := 116130

  /** The three channels before clamping, in the code's fixed-point arithmetic. */
  function Unclamped(y: Byte, cb: Byte, cr: Byte): (int, int, int)
  {
    var yy := y * 0x10101;
    var cb1 := cb - 128;
    var cr1 := cr - 128;
    (Shift16(yy + CrToR * cr1), Shift16(yy - CbToG * cb1 - CrToG * cr1), Shift16(yy + CbToB * cb1))
  }

  /** ycbcrToRGBA: full-range BT.601 conversion in 16.16 fixed point, clamped, opaque. */
  function YCbCrToRGBA(y: Byte, cb: Byte, cr: Byte): (c: Color)
    ensures c.a == 255
    ensures var (r, g, b) := Unclamped(y, cb, cr); c.r == Clamp(r) && c.g == Clamp(g) && c.b == Clamp(b)
  {
    var (r, g, b) := Unclamped(y, cb, cr);
    Color(Clamp(r), Clamp(g), Clamp(b), 255)
  }

  /** Every intermediate value fits the int32 the code computes in. */
  lemma YCbCrFitsInt32(y: Byte, cb: Byte, cr: Byte)
    ensures var yy := y * 0x10101; var cb1 := cb - 128; var cr1 := cr - 128;
            -0x8000_0000 <= yy + CrToR * cr1 < 0x8000_0000 &&
            -0x8000_0000 <= yy - CbToG * cb1 - CrToG * cr1 < 0x8000_0000 &&
            -0x8000_0000 <= yy + CbToB * cb1 < 0x8000_0000
  {
  }

  /** Neutral chroma gives the grey of the same level: y * 0x10101 >> 16 is exactly y. */
  lemma NeutralChromaIsGrey(y: Byte)
    ensures YCbCrToRGBA(y, 128, 128) == Color(y, y, y, 255)
  {
    assert y * 0x10101 == y * 65536 + y * 257;
    assert 0 <= y * 257 < 65536;
  }

  /** The same conversion with y scaled by exactly 65536, as the formula in the comments reads. */
  function UnclampedExact(y: Byte, cb: Byte, cr: Byte): (int, int, int)
  {
    var yy := y * 65536;
    var cb1 := cb - 128;
    var cr1 := cr - 128;
    (Shift16(yy + CrToR * cr1), Shift16(yy - CbToG * cb1 - CrToG * cr1), Shift16(yy + CbToB * cb1))
  }

  lemma ShiftWithinOne(a: int, e: int)
    requires 0 <= e < 65536
    ensures Shift16(a) <= Shift16(a + e) <= Shift16(a) + 1
  {
  }

  /** Scaling y by 0x10101 instead of 65536 raises each channel by at most one step. */
  lemma FixedPointWithinOne(y: Byte, cb: Byte, cr: Byte)
    ensures var (r, g, b) := Unclamped(y, cb, cr); var (r', g', b') := UnclampedExact(y, cb, cr);
            r' <= r <= r' + 1 && g' <= g <= g' + 1 && b' <= b <= b' + 1
  {
    var cb1, cr1 := cb - 128, cr - 128;
    assert y * 0x10101 == y * 65536 + y * 257;
    ShiftWithinOne(y * 65536 + CrToR * cr1, y * 257);
    ShiftWithinOne(y * 65536 - CbToG * cb1 - CrToG * cr1, y * 257);
    ShiftWithinOne(y * 65536 + CbToB * cb1, y * 257);
  }
}
