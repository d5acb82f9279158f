/**
 * A worked case of processRGBA on images of different sizes: the byte-offset check of the
 * fast path lets it read a pixel of another row where getColorAt sees the white background.
 */
module PixelCases {
  import opened Wrappers
  import opened Raster
  import opened PixelDiff

  /**
   * The fast path checks byte offsets, not coordinates. With a 1x2 baseline (black over
   * near-black) and a 2x2 target (a white row over a black row), column 1 of row 0 lies
   * outside the baseline, yet its offset 4 is inside the baseline buffer: the fast path
   * reads the baseline's pixel (0, 1) and paints an added red pixel, where getColorAt
   * would give white against white and leave it uncounted.
   */
  lemma FastPathReadsNeighbourRow()
    ensures RgbaPixel(Ratio(1, 10), NarrowBaseline(), WideTarget(), 0, 1, 0) == Outcome(Red, true, false)
  {
    BaselineBytesFourToSeven();
    TargetBytesFourToSeven();
  }

  /** Bytes 4 to 7 of the baseline are its pixel (0, 1). */
  lemma BaselineBytesFourToSeven()
    ensures ReadAt(NarrowBaseline(), 4) == Some(Color(1, 1, 1, 255))
  {
  }

  /** Bytes 4 to 7 of the target are its pixel (1, 0). */
  lemma TargetBytesFourToSeven()
    ensures ReadAt(WideTarget(), 4) == Some(White)
  {
  }

  /** For the same pixel getColorAt compares white against white: nothing is painted or counted. */
  lemma GenericSeesWhiteThere()
    ensures GenericPixel(Ratio(1, 10), NarrowBaseline(), WideTarget(), 1, 0) == Outcome(White, false, false)
  {
    assert ColorAt(WideTarget(), 1, 0) == White;
  }

  function NarrowBaseline(): RgbaImage
  {
    RgbaImage([0, 0, 0, 255, 1, 1, 1, 255], 4, Rectangle(Point(0, 0), Point(1, 2)))
  }

  function WideTarget(): RgbaImage
  {
    RgbaImage([255, 255, 255, 255, 255, 255, 255, 255, 0, 0, 0, 255, 0, 0, 0, 255], 8, Rectangle(Point(0, 0), Point(2, 2)))
  }
}
