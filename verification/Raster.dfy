/** Pixels held row by row in one run of words, as every surface and the scanout are. */
module Raster {

  const WORD: nat := 0x1_0000_0000

  /** A 32-bit pixel word. */
  type Pixel = w: nat | w < WORD

  /** Where pixel (x, y) of a surface `width` pixels wide is stored. */
  function Offset(y: int, x: int, width: int): int {
    y * width + x
  }

  lemma OffsetInRange(y: nat, x: nat, width: nat, height: nat)
    requires y < height && x < width
    ensures 0 <= Offset(y, x, width) < width * height
    ensures Offset(y, x, width) + (width - x) <= width * height
  {
    assert (y + 1) * width <= height * width;
  }

  /** A run of `n` pixels starting at (x, y) stays in row `y` and reaches no other pixel. */
  lemma RunIsInOneRow(y: nat, x: nat, n: nat, y': nat, x': nat, width: nat)
    requires x + n <= width && x' < width
    ensures Offset(y, x, width) <= Offset(y', x', width) < Offset(y, x, width) + n
       <==> y' == y && x <= x' < x + n
  {
    if y < y' {
      MoreRows(y, y', width);
    } else if y' < y {
      MoreRows(y', y, width);
    }
  }

  lemma MoreRows(y: nat, y': nat, width: nat)
    requires y < y'
    ensures y * width + width <= y' * width
  {
    assert (y + 1) * width <= y' * width;
  }

  /** Pixel (x, y) of a screen held row by row. */
  function PixelAt(screen: seq<Pixel>, width: nat, y: int, x: int): Pixel
  {
    if 0 <= Offset(y, x, width) < |screen| then screen[Offset(y, x, width)] else 0
  }
}
