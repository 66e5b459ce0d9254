/**
 The integer rectangles of the display pipeline: the compositor's signed `Rect` with its saturating
 edges, the terminal's `CellRect` in character cells, and the two clips that place a client's damage
 on the screen.
 */
module ScreenGeometry {

  const I32_MAX: int := 0x7fff_ffff
  const I32_MIN: int := -0x8000_0000
  const U32_LIMIT: nat := 0x1_0000_0000

  /** The font's fixed cell. */
  const GLYPH_W: nat := 7
  const GLYPH_H: nat := 8

  datatype Option<+T> = None | Some(value: T)

  datatype Point = Point(x: int, y: int)

  /** A 32-bit word read from a control page, taken as the signed number the compositor casts it to. */
  function AsI32(word: int): int {
    if word <= I32_MAX then word else word - U32_LIMIT
  }

  /** An unsigned extent, clamped to what a signed origin can be moved by. */
  function Extent(n: nat): nat {
    if n > I32_MAX then I32_MAX else n
  }

  function SaturatingAdd(a: int, b: nat): int {
    if a + b > I32_MAX then I32_MAX else a + b
  }

  datatype Rect = Rect(x: int, y: int, w: nat, h: nat) {

    /** The four fields are 32-bit machine words. */
    predicate Fits() {
      I32_MIN <= x <= I32_MAX && I32_MIN <= y <= I32_MAX && w < U32_LIMIT && h < U32_LIMIT
    }

    predicate IsEmpty() {
      w == 0 || h == 0
    }

    function Right(): int {
      SaturatingAdd(x, Extent(w))
    }

    function Bottom(): int {
      SaturatingAdd(y, Extent(h))
    }

    predicate Contains(p: Point) {
      x <= p.x < Right() && y <= p.y < Bottom()
    }

    function Translate(dx: int, dy: int): Rect {
      Rect(x + dx, y + dy, w, h)
    }

    function Intersect(o: Rect): Rect {
      if IsEmpty() || o.IsEmpty() then EMPTY
      else
        var left := if x > o.x then x else o.x;
        var top := if y > o.y then y else o.y;
        var right := if Right() < o.Right() then Right() else o.Right();
        var bottom := if Bottom() < o.Bottom() then Bottom() else o.Bottom();
        if right <= left || bottom <= top then EMPTY
        else Rect(left, top, right - left, bottom - top)
    }

    /** The bounding box, ignoring empties. */
    function Union(o: Rect): Rect {
      if IsEmpty() then o
      else if o.IsEmpty() then this
      else
        var left := if x < o.x then x else o.x;
        var top := if y < o.y then y else o.y;
        var right := if Right() > o.Right() then Right() else o.Right();
        var bottom := if Bottom() > o.Bottom() then Bottom() else o.Bottom();
        Rect(left, top, Length(left, right), Length(top, bottom))
    }
  }

  /** The extent of a half-open interval. */
  function Length(from: int, to: int): nat {
    if from <= to then to - from else 0
  }

  const EMPTY: Rect := Rect(0, 0, 0, 0)

  /** A window: a surface of `w` by `h` pixels whose corner lands at a possibly negative origin. */
  datatype Window = Window(ox: int, oy: int, w: nat, h: nat) {

    /** Far from the edges of the number line, as every scene is. */
    predicate Sane() {
      -0x1000_0000 <= ox <= 0x1000_0000 && -0x1000_0000 <= oy <= 0x1000_0000
      && w <= 0x1000_0000 && h <= 0x1000_0000
    }

    function OnScreen(): Rect {
      Rect(ox, oy, w, h)
    }

    function Bounds(): Rect {
      Rect(0, 0, w, h)
    }

    /** A screen point in this window's own coordinates. */
    function Local(p: Point): Point {
      Point(p.x - ox, p.y - oy)
    }
  }

  /** Clip a client's rectangle to its surface, place it, clip it to the screen. */
  function DamageToScreen(win: Window, asked: Rect, screen: Rect): Rect {
    asked.Intersect(win.Bounds()).Translate(win.ox, win.oy).Intersect(screen)
  }

  lemma IntersectPoints(a: Rect, b: Rect, p: Point)
    requires a.Fits() && b.Fits()
    ensures a.Intersect(b).Contains(p) <==> a.Contains(p) && b.Contains(p)
    ensures a.Intersect(b).Fits()
  {
    var r := a.Intersect(b);
    if !a.IsEmpty() && !b.IsEmpty() && r != EMPTY {
      assert r.Right() == if a.Right() < b.Right() then a.Right() else b.Right();
      assert r.Bottom() == if a.Bottom() < b.Bottom() then a.Bottom() else b.Bottom();
    }
  }

  lemma UnionCovers(a: Rect, b: Rect, p: Point)
    requires a.Fits() && b.Fits() && a.x >= 0 && a.y >= 0 && b.x >= 0 && b.y >= 0
    ensures a.Contains(p) || b.Contains(p) ==> a.Union(b).Contains(p)
    ensures a.Union(b).Fits() && a.Union(b).x >= 0 && a.Union(b).y >= 0
    ensures a.Union(b).Right() <= if a.Right() > b.Right() then a.Right() else b.Right()
    ensures a.Union(b).Bottom() <= if a.Bottom() > b.Bottom() then a.Bottom() else b.Bottom()
  {
  }

  /**
   The two clips are exact: whatever four words a client put in its control page, the placed rectangle
   holds a screen point precisely when the client named the pixel under it and owns that pixel.
   */
  lemma DamageToScreenPoints(win: Window, asked: Rect, screen: Rect, p: Point)
    requires win.Sane() && asked.Fits()
    requires screen.x == 0 && screen.y == 0 && screen.w <= I32_MAX && screen.h <= I32_MAX
    ensures DamageToScreen(win, asked, screen).Contains(p)
       <==> screen.Contains(p) && win.Bounds().Contains(win.Local(p)) && asked.Contains(win.Local(p))
    ensures DamageToScreen(win, asked, screen).Fits()
    ensures DamageToScreen(win, asked, screen).x >= 0 && DamageToScreen(win, asked, screen).y >= 0
  {
    var inside := asked.Intersect(win.Bounds());
    IntersectPoints(asked, win.Bounds(), win.Local(p));
    var placed := inside.Translate(win.ox, win.oy);
    assert inside.x >= 0 && inside.y >= 0 && inside.w <= win.w && inside.h <= win.h
      && inside.x <= win.w && inside.y <= win.h;
    assert placed.Contains(p) <==> inside.Contains(win.Local(p));
    IntersectPoints(placed, screen, p);
  }

  /** A rectangle of character cells, half-open in both axes. */
  datatype CellRect = CellRect(col: nat, row: nat, cols: nat, rows: nat) {

    /** The bounding box of two rectangles, empties included: this one does not skip them. */
    function Union(o: CellRect): CellRect {
      var left := if col < o.col then col else o.col;
      var top := if row < o.row then row else o.row;
      var right := if col + cols > o.col + o.cols then col + cols else o.col + o.cols;
      var bottom := if row + rows > o.row + o.rows then row + rows else o.row + o.rows;
      CellRect(left, top, right - left, bottom - top)
    }

    function ToPixels(): Rect {
      Rect(col * GLYPH_W, row * GLYPH_H, cols * GLYPH_W, rows * GLYPH_H)
    }

    predicate Has(c: int, r: int) {
      col <= c < col + cols && row <= r < row + rows
    }

    predicate Within(maxCols: nat, maxRows: nat) {
      col + cols <= maxCols && row + rows <= maxRows
    }
  }

  lemma CellUnionCovers(a: CellRect, b: CellRect, p: Point)
    requires a.Within(0x1000_0000, 0x1000_0000) && b.Within(0x1000_0000, 0x1000_0000)
    ensures a.ToPixels().Contains(p) || b.ToPixels().Contains(p) ==> a.Union(b).ToPixels().Contains(p)
  {
  }
}
