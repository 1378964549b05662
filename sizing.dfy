/**
 * Point-to-pixel sizing of app.py (`compute_target_pixels_for_image`).
 *
 * A rectangle measured in points (1/72 inch) is converted to the pixel box an
 * image drawn in it needs at the fixed target density of 300 dots per inch.
 * Python's `int()` truncates toward zero, which is `.Floor` on the
 * non-negative values used here. Floating-point rounding of `/ 72.0` and
 * `* TARGET_DPI` is idealised to exact real arithmetic.
 */
module Sizing {
  import opened Wrappers

  /** A length in points; PyMuPDF reports widths and heights as non-negative. */
  type Points = r: real | r >= 0.0

  /** Points per inch, the PDF user-space unit. */
  const PointsPerInch: real := 72.0

  /** `TARGET_DPI` of app.py. */
  const TargetDpi: nat := 300

  /** A page or placement rectangle: its top-left corner and its size in points. */
  datatype Rect = Rect(x0: real, y0: real, width: Points, height: Points)

  /** A pixel box (width, height). */
  datatype Box = Box(w: nat, h: nat)

  /** The physical length of `points`, expressed in target pixels (not yet truncated). */
  function ExactPixels(points: Points): real
  {
    points / PointsPerInch * TargetDpi as real
  }

  /** `int(points / 72.0 * TARGET_DPI)`: the largest whole pixel count not above the exact one. */
  function TargetPixels(points: Points): (px: nat)
    ensures px as real <= ExactPixels(points) < px as real + 1.0
  {
    ExactPixels(points).Floor
  }

  /** The pixel box of a rectangle at the target density. */
  function RectTarget(r: Rect): Box
  {
    Box(TargetPixels(r.width), TargetPixels(r.height))
  }

  /**
   * `compute_target_pixels_for_image(bbox, page_rect)`: the bbox decides the size
   * when one is given, the page rectangle otherwise.
   */
  function ComputeTargetPixels(bbox: Option<Rect>, pageRect: Rect): (t: Box)
    ensures var basis := if bbox.Some? then bbox.value else pageRect;
            t.w as real <= ExactPixels(basis.width) < t.w as real + 1.0 &&
            t.h as real <= ExactPixels(basis.height) < t.h as real + 1.0
    ensures bbox.Some? ==> t == RectTarget(bbox.value)
    ensures bbox.None? ==> t == RectTarget(pageRect)
  {
    if bbox.None? then
      RectTarget(pageRect)
    else
      RectTarget(bbox.value)
  }

  /** With a bbox, the page rectangle plays no part in the result. */
  lemma BboxIgnoresPage(bbox: Rect, page1: Rect, page2: Rect)
    ensures ComputeTargetPixels(Some(bbox), page1) == ComputeTargetPixels(Some(bbox), page2)
  {
  }

  /** A rectangle of a whole number of inches gets exactly 300 pixels per inch. */
  lemma WholeInches(inches: nat)
    ensures TargetPixels(inches as real * PointsPerInch) == inches * TargetDpi
  {
  }

  /** A larger rectangle never gets a smaller target. */
  lemma TargetMonotone(a: Points, b: Points)
    requires a <= b
    ensures TargetPixels(a) <= TargetPixels(b)
  {
  }

  /** US Letter (612 x 792 points) with no placement information: 2550 x 3300 pixels. */
  lemma LetterPageTarget(x0: real, y0: real)
    ensures ComputeTargetPixels(None, Rect(x0, y0, 612.0, 792.0)) == Box(2550, 3300)
  {
  }

  /** A 144 x 72 point placement: 600 x 300 pixels, whatever the page. */
  lemma SmallPlacementTarget(x0: real, y0: real, page: Rect)
    ensures ComputeTargetPixels(Some(Rect(x0, y0, 144.0, 72.0)), page) == Box(600, 300)
  {
  }
}
