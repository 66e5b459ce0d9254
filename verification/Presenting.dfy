/**
 A terminal's `present`: take the engine's damage report, move pixels for a scroll, render the reported
 rectangle, and publish. The report's promise is a property of two pictures; presenting reproduces the
 new picture over the whole surface exactly when the promise holds.
 */
module Presenting {
  import opened ScreenGeometry
  import opened Raster
  import opened Surface
  import DisplayProtocol

  /** What changed since the last report: rows that moved, and cells to render afterwards. */
  datatype Damage = Damage(scrolled: nat, rect: CellRect) {

    /** The box for a consumer that cannot move pixels. */
    function RepaintRect(cols: nat, rows: nat): CellRect {
      if scrolled > 0 then CellRect(0, 0, cols, rows) else rect
    }
  }

  /** The surface, every pixel of it, is the picture. */
  ghost predicate Shows(mem: seq<Pixel>, stride: nat, w: nat, h: nat, pic: Picture) {
    forall y: nat, x: nat | y < h && x < w :: PixelAt(mem, stride, y, x) == pic(x, y)
  }

  /** The engine's promise: outside `rect` the new picture is the old one, moved up `px` rows. */
  ghost predicate DamageContract(was: Picture, now: Picture, w: nat, h: nat, px: nat, rect: Rect) {
    forall y: nat, x: nat | y < h && x < w && !rect.Contains(Point(x, y)) ::
      now(x, y) == was(x, if y + px < h then y + px else y)
  }

  /** Moving and rendering reproduces the new picture if and only if the report kept its promise. */
  lemma MoveThenRender(m0: seq<Pixel>, m1: seq<Pixel>, m2: seq<Pixel>, stride: nat, w: nat, h: nat, px: nat,
                       rect: Rect, was: Picture, now: Picture)
    requires w <= stride && stride * h <= |m0| == |m1| == |m2| && px <= h
    requires Shows(m0, stride, w, h, was)
    requires ScrolledTo(m1, m0, stride, w, h, px, h - px)
    requires PaintedOver(m2, m1, stride, h, now, rect)
    ensures Shows(m2, stride, w, h, now) <==> DamageContract(was, now, w, h, px, rect)
  {
    forall y: nat, x: nat | y < h && x < w
      ensures PixelAt(m2, stride, y, x) ==
        if rect.Contains(Point(x, y)) then now(x, y) else was(x, if y + px < h then y + px else y)
    {
      assert PixelPainted(m2, m1, stride, now, rect, y, x);
      if y < h - px {
        assert PixelAt(m1, stride, y, x) == PixelAt(m0, stride, y + px, x);
      } else {
        assert PixelAt(m1, stride, y, x) == PixelAt(m0, stride, y, x);
      }
    }
    if Shows(m2, stride, w, h, now) {
      forall y: nat, x: nat | y < h && x < w && !rect.Contains(Point(x, y))
        ensures now(x, y) == was(x, if y + px < h then y + px else y)
      {
        assert PixelAt(m2, stride, y, x) == now(x, y);
      }
    }
  }

  lemma NotScrolled(m: seq<Pixel>, stride: nat, w: nat, h: nat)
    requires w <= stride && stride * h <= |m|
    ensures ScrolledTo(m, m, stride, w, h, 0, h)
  {
  }

  /** No cell covers these pixels: the strips right of and below the grid. */
  predicate InStrip(x: int, y: int, cols: nat, rows: nat) {
    x >= cols * GLYPH_W || y >= rows * GLYPH_H
  }

  ghost predicate StripsAre(mem: seq<Pixel>, stride: nat, w: nat, h: nat, cols: nat, rows: nat, blank: Pixel) {
    forall y: nat, x: nat | y < h && x < w && InStrip(x, y, cols, rows) :: PixelAt(mem, stride, y, x) == blank
  }

  /** A uniform strip survives a scroll of whole cells, so no pixel outside the grid changes value. */
  lemma StripsSurviveScroll(m0: seq<Pixel>, m1: seq<Pixel>, stride: nat, w: nat, h: nat, cols: nat, rows: nat,
                            scrolled: nat, blank: Pixel, y: nat, x: nat)
    requires w <= stride && stride * h <= |m0| == |m1|
    requires rows == h / GLYPH_H && 0 < scrolled < rows
    requires ScrolledTo(m1, m0, stride, w, h, scrolled * GLYPH_H, h - scrolled * GLYPH_H)
    requires StripsAre(m0, stride, w, h, cols, rows, blank)
    requires y < h && x < w && InStrip(x, y, cols, rows)
    ensures PixelAt(m1, stride, y, x) == PixelAt(m0, stride, y, x) == blank
  {
    var px := scrolled * GLYPH_H;
    if y < h - px {
      assert InStrip(x, y + px, cols, rows);
      assert PixelAt(m1, stride, y, x) == PixelAt(m0, stride, y + px, x);
    } else {
      assert PixelAt(m1, stride, y, x) == PixelAt(m0, stride, y, x);
    }
  }

  class Wiring {
    const window: bool             // a compositor's client, as opposed to the whole scanout
    const stride: nat              // in words
    const width: nat
    const height: nat
    const surface: array<Pixel>
    var pending: Option<CellRect>
    var seqNo: nat
    var paintedAll: bool

    ghost predicate Valid()
      reads this
    {
      && GLYPH_W <= width <= stride <= 0x1000_0000 && GLYPH_H <= height <= 0x1000_0000
      && stride * height <= surface.Length
      && (window ==> (paintedAll <==> seqNo > 0))
    }

    function Cols(): nat { width / GLYPH_W }
    function Rows(): nat { height / GLYPH_H }

    constructor (window: bool, stride: nat, width: nat, height: nat, surface: array<Pixel>)
      requires GLYPH_W <= width <= stride <= 0x1000_0000 && GLYPH_H <= height <= 0x1000_0000
      requires stride * height <= surface.Length
      ensures Valid() && !paintedAll && seqNo == 0 && pending == None
      ensures this.surface == surface && this.stride == stride && this.width == width && this.height == height
    {
      this.window, this.stride, this.width, this.height, this.surface := window, stride, width, height, surface;
      pending, seqNo, paintedAll := None, 0, false;
    }

    /** Render what changed: `Rendered` says what that leaves. */
    method Render(pic: Picture, damage: Damage, ghost was: Picture, ghost blank: Pixel) returns (out: Rect)
      requires Valid() && damage.rect.Within(Cols(), Rows()) && damage.scrolled < Rows()
      requires paintedAll ==> Shows(surface[..], stride, width, height, was)
      modifies this`paintedAll, surface
      ensures paintedAll
      ensures Rendered(surface[..], old(surface[..]), stride, width, height, !old(paintedAll), damage, was, pic, blank, out)
    {
      ghost var m0 := surface[..];
      if !paintedAll {
        paintedAll := true;
        out := Rect(0, 0, width, height);
        Paint(surface, stride, height, out, pic);
        FirstFrame(m0, surface[..], stride, width, height, damage, was, pic, blank);
      } else if damage.scrolled > 0 {
        var px := damage.scrolled * GLYPH_H;
        ScrollSurface(surface, stride, width, height, px);
        ghost var m1 := surface[..];
        var r := damage.rect.ToPixels();
        Paint(surface, stride, height, r, pic);
        out := Rect(0, 0, width, height);
        ScrolledFrame(m0, m1, surface[..], stride, width, height, damage, was, pic, blank);
      } else {
        out := damage.rect.ToPixels();
        Paint(surface, stride, height, out, pic);
        DamagedFrame(m0, surface[..], stride, width, height, damage, was, pic, blank);
      }
    }

    /**
     Put whatever changed on the screen. On the whole scanout the rectangle is flushed; in a window it is
     published as the protocol's terminal does it, carrying an unacknowledged frame forward.
     */
    method Present(pic: Picture, report: Option<Damage>, acked: nat, ghost was: Picture, ghost blank: Pixel)
      returns (shown: Option<Rect>, ghost painted: Rect)
      requires Valid()
      requires report.Some? ==> report.value.rect.Within(Cols(), Rows()) && report.value.scrolled < Rows()
      requires paintedAll ==> Shows(surface[..], stride, width, height, was)
      modifies this, surface
      ensures Valid() && (shown.None? <==> report.None?)
      ensures report.None? ==> surface[..] == old(surface[..]) && unchanged(this)
      ensures report.Some? ==>
        paintedAll && Rendered(surface[..], old(surface[..]), stride, width, height, !old(paintedAll),
                               report.value, was, pic, blank, painted)
      ensures report.Some? && !window ==> shown == Some(painted) && pending == old(pending) && seqNo == old(seqNo)
      ensures report.Some? && window ==>
        var d := DisplayProtocol.Carried(old(pending), acked, old(seqNo),
          if report.value.scrolled > 0 then CellRect(0, 0, Cols(), Rows()) else report.value.rect);
        && pending == Some(d) && seqNo == old(seqNo) + 1
        && shown == Some(if old(seqNo) == 0 then Rect(0, 0, width, height) else d.ToPixels())
    {
      if report.None? { return None, EMPTY; }
      var cells := report.value.RepaintRect(Cols(), Rows());
      var out := Render(pic, report.value, was, blank);
      painted := out;
      if !window { return Some(out), out; }
      shown := Publish(cells, out, acked);
    }

    /** The window's half: union what is not acknowledged, bump the sequence. */
    method Publish(cells: CellRect, out: Rect, acked: nat) returns (shown: Option<Rect>)
      requires window
      modifies this`pending, this`seqNo
      ensures var d := DisplayProtocol.Carried(old(pending), acked, old(seqNo), cells);
        && pending == Some(d) && seqNo == old(seqNo) + 1
        && shown == Some(if old(seqNo) == 0 then out else d.ToPixels())
    {
      if acked == seqNo {
        pending := None;
      }
      var d := match pending
        case Some(p) => p.Union(cells)
        case None => cells;
      pending := Some(d);
      shown := Some(if seqNo == 0 then out else d.ToPixels());
      seqNo := seqNo + 1;
    }
  }

  ghost predicate SizesOk(stride: nat, w: nat, h: nat, m: seq<Pixel>) {
    GLYPH_W <= w <= stride <= 0x1000_0000 && GLYPH_H <= h <= 0x1000_0000 && stride * h <= |m|
  }

  /** A pixel holds the same value in both memories. */
  predicate Same(m0: seq<Pixel>, m2: seq<Pixel>, stride: nat, y: nat, x: nat) {
    PixelAt(m2, stride, y, x) == PixelAt(m0, stride, y, x)
  }

  /**
   What rendering leaves. The first frame is the whole picture. Afterwards the surface shows the new
   picture if and only if the report kept its promise about the old one. The rectangle handed onward
   holds every pixel that changed; with the strips blank, so do the reported cells; and padding never
   changes.
   */
  ghost predicate Rendered(m2: seq<Pixel>, m0: seq<Pixel>, stride: nat, w: nat, h: nat, first: bool,
                           damage: Damage, was: Picture, pic: Picture, blank: Pixel, out: Rect) {
    && (if first then Shows(m2, stride, w, h, pic) && out == Rect(0, 0, w, h)
        else Shows(m2, stride, w, h, pic)
             <==> DamageContract(was, pic, w, h, damage.scrolled * GLYPH_H, damage.rect.ToPixels()))
    && (forall y: nat, x: nat | y < h && x < w && !out.Contains(Point(x, y)) :: Same(m0, m2, stride, y, x))
    && (!first && StripsAre(m0, stride, w, h, w / GLYPH_W, h / GLYPH_H, blank) ==>
          OnlyUnder(m0, m2, stride, w, h, damage.RepaintRect(w / GLYPH_W, h / GLYPH_H).ToPixels()))
    && (forall y: nat, x: nat | y < h && w <= x < stride :: Same(m0, m2, stride, y, x))
  }

  /** Only pixels under `r` changed value. */
  ghost predicate OnlyUnder(m0: seq<Pixel>, m2: seq<Pixel>, stride: nat, w: nat, h: nat, r: Rect) {
    forall y: nat, x: nat | y < h && x < w && !r.Contains(Point(x, y)) :: Same(m0, m2, stride, y, x)
  }

  /** Pixels outside a painted rectangle are as they were. */
  lemma PaintIsConfined(m0: seq<Pixel>, m2: seq<Pixel>, stride: nat, w: nat, h: nat, pic: Picture, r: Rect)
    requires w <= stride && |m2| == |m0| && PaintedOver(m2, m0, stride, h, pic, r)
    requires r.Fits() && 0 <= r.x && r.x + r.w <= w && 0 <= r.y
    ensures OnlyUnder(m0, m2, stride, w, h, r)
    ensures forall y: nat, x: nat | y < h && w <= x < stride :: Same(m0, m2, stride, y, x)
  {
    forall y: nat, x: nat | y < h && x < stride && !r.Contains(Point(x, y)) ensures Same(m0, m2, stride, y, x) {
      assert PixelPainted(m2, m0, stride, pic, r, y, x);
    }
  }

  lemma FirstFrame(m0: seq<Pixel>, m2: seq<Pixel>, stride: nat, w: nat, h: nat, damage: Damage,
                   was: Picture, pic: Picture, blank: Pixel)
    requires SizesOk(stride, w, h, m0) && |m2| == |m0|
    requires PaintedOver(m2, m0, stride, h, pic, Rect(0, 0, w, h))
    ensures Rendered(m2, m0, stride, w, h, true, damage, was, pic, blank, Rect(0, 0, w, h))
  {
    var all := Rect(0, 0, w, h);
    PaintIsConfined(m0, m2, stride, w, h, pic, all);
    forall y: nat, x: nat | y < h && x < w ensures PixelAt(m2, stride, y, x) == pic(x, y) {
      assert PixelPainted(m2, m0, stride, pic, all, y, x);
    }
  }

  lemma DamagedFrame(m0: seq<Pixel>, m2: seq<Pixel>, stride: nat, w: nat, h: nat, damage: Damage,
                     was: Picture, pic: Picture, blank: Pixel)
    requires SizesOk(stride, w, h, m0) && |m2| == |m0| && Shows(m0, stride, w, h, was)
    requires damage.rect.Within(w / GLYPH_W, h / GLYPH_H) && damage.scrolled == 0
    requires PaintedOver(m2, m0, stride, h, pic, damage.rect.ToPixels())
    ensures Rendered(m2, m0, stride, w, h, false, damage, was, pic, blank, damage.rect.ToPixels())
  {
    NotScrolled(m0, stride, w, h);
    MoveThenRender(m0, m0, m2, stride, w, h, 0, damage.rect.ToPixels(), was, pic);
    GridFits(w, h, damage.rect);
    PaintIsConfined(m0, m2, stride, w, h, pic, damage.rect.ToPixels());
  }

  lemma GridFits(w: nat, h: nat, cells: CellRect)
    requires cells.Within(w / GLYPH_W, h / GLYPH_H) && w <= 0x1000_0000 && h <= 0x1000_0000
    ensures cells.ToPixels().Fits() && cells.ToPixels().x + cells.ToPixels().w <= w
    ensures cells.ToPixels().y + cells.ToPixels().h <= h
  {
  }

  lemma ScrolledFrame(m0: seq<Pixel>, m1: seq<Pixel>, m2: seq<Pixel>, stride: nat, w: nat, h: nat, damage: Damage,
                      was: Picture, pic: Picture, blank: Pixel)
    requires SizesOk(stride, w, h, m0) && |m2| == |m1| == |m0| && Shows(m0, stride, w, h, was)
    requires damage.rect.Within(w / GLYPH_W, h / GLYPH_H) && 0 < damage.scrolled < h / GLYPH_H
    requires ScrolledTo(m1, m0, stride, w, h, damage.scrolled * GLYPH_H, h - damage.scrolled * GLYPH_H)
    requires PaintedOver(m2, m1, stride, h, pic, damage.rect.ToPixels())
    ensures Rendered(m2, m0, stride, w, h, false, damage, was, pic, blank, Rect(0, 0, w, h))
  {
    MoveThenRender(m0, m1, m2, stride, w, h, damage.scrolled * GLYPH_H, damage.rect.ToPixels(), was, pic);
    ScrollKeepsTheRest(m0, m1, m2, stride, w, h, damage, pic, blank);
  }

  lemma OutsideTheGrid(w: nat, h: nat, damage: Damage, y: nat, x: nat)
    requires w <= 0x1000_0000 && h <= 0x1000_0000 && 0 < damage.scrolled
    requires damage.rect.Within(w / GLYPH_W, h / GLYPH_H)
    requires !damage.RepaintRect(w / GLYPH_W, h / GLYPH_H).ToPixels().Contains(Point(x, y))
    ensures InStrip(x, y, w / GLYPH_W, h / GLYPH_H) && !damage.rect.ToPixels().Contains(Point(x, y))
  {
  }

  lemma ScrollKeepsTheRest(m0: seq<Pixel>, m1: seq<Pixel>, m2: seq<Pixel>, stride: nat, w: nat, h: nat,
                           damage: Damage, pic: Picture, blank: Pixel)
    requires GLYPH_W <= w <= stride <= 0x1000_0000 && GLYPH_H <= h <= 0x1000_0000
    requires stride * h <= |m0| == |m1| == |m2|
    requires damage.rect.Within(w / GLYPH_W, h / GLYPH_H) && 0 < damage.scrolled < h / GLYPH_H
    requires ScrolledTo(m1, m0, stride, w, h, damage.scrolled * GLYPH_H, h - damage.scrolled * GLYPH_H)
    requires PaintedOver(m2, m1, stride, h, pic, damage.rect.ToPixels())
    ensures StripsAre(m0, stride, w, h, w / GLYPH_W, h / GLYPH_H, blank) ==>
      OnlyUnder(m0, m2, stride, w, h, damage.RepaintRect(w / GLYPH_W, h / GLYPH_H).ToPixels())
    ensures forall y: nat, x: nat | y < h && w <= x < stride :: Same(m0, m2, stride, y, x)
  {
    var cols, rows := w / GLYPH_W, h / GLYPH_H;
    GridFits(w, h, damage.rect);
    PaintIsConfined(m1, m2, stride, w, h, pic, damage.rect.ToPixels());
    if StripsAre(m0, stride, w, h, cols, rows, blank) {
      forall y: nat, x: nat | y < h && x < w && !damage.RepaintRect(cols, rows).ToPixels().Contains(Point(x, y))
        ensures Same(m0, m2, stride, y, x)
      {
        OutsideTheGrid(w, h, damage, y, x);
        assert Same(m1, m2, stride, y, x);
        StripsSurviveScroll(m0, m1, stride, w, h, cols, rows, damage.scrolled, blank, y, x);
      }
    }
    forall y: nat, x: nat | y < h && w <= x < stride ensures Same(m0, m2, stride, y, x) {
      assert Same(m1, m2, stride, y, x);
      assert PixelAt(m1, stride, y, x) == PixelAt(m0, stride, y, x);
    }
  }
}
