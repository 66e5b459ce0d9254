/**
 Composition into the scanout: the background over the damage, then every committed window in stacking
 order, each clipped to the damage. It is proved against the opposite definition, which asks of each
 pixel which window is on top.
 */
module Composite {
  import opened ScreenGeometry
  import opened Raster
  import DisplayProtocol

  /** Each window's surface, empty for a client that has never committed. */
  predicate SourcesOk(windows: seq<Window>, sources: seq<seq<Pixel>>) {
    |sources| == |windows|
    && forall i :: 0 <= i < |windows| ==>
         windows[i].Sane() && (sources[i] == [] || |sources[i]| == windows[i].w * windows[i].h)
  }

  predicate Shows(win: Window, source: seq<Pixel>, p: Point) {
    source != [] && win.OnScreen().Contains(p)
  }

  /** The pixel of window `win`'s surface under screen point `p`. */
  function Under(win: Window, source: seq<Pixel>, p: Point): Pixel
    requires win.Sane() && Shows(win, source, p) && |source| == win.w * win.h
  {
    OffsetInRange(p.y - win.oy, p.x - win.ox, win.w, win.h);
    source[Offset(p.y - win.oy, p.x - win.ox, win.w)]
  }

  /** What the screen must hold at `p` when the first `n` windows are considered: the topmost wins. */
  function Expected(windows: seq<Window>, sources: seq<seq<Pixel>>, background: Point -> Pixel, n: nat, p: Point): Pixel
    requires SourcesOk(windows, sources) && n <= |windows|
  {
    if n == 0 then background(p)
    else if Shows(windows[n - 1], sources[n - 1], p) then Under(windows[n - 1], sources[n - 1], p)
    else Expected(windows, sources, background, n - 1, p)
  }

  /** Overwrite consecutive pixels, left to right. */
  method PutRow(screen: array<Pixel>, at: nat, row: seq<Pixel>)
    requires at + |row| <= screen.Length
    modifies screen
    ensures forall k :: 0 <= k < screen.Length ==>
      screen[k] == if at <= k < at + |row| then row[k - at] else old(screen[k])
  {
    var x := 0;
    while x < |row|
      invariant 0 <= x <= |row|
      invariant forall k :: 0 <= k < screen.Length ==>
        screen[k] == if at <= k < at + x then row[k - at] else old(screen[k])
    {
      screen[at + x] := row[x];
      x := x + 1;
    }
  }

  /** The part of row `y` of `area` that is written: exactly those pixels, each from `row`. */
  method PutSpan(screen: array<Pixel>, width: nat, height: nat, y: nat, x0: nat, row: seq<Pixel>)
    requires screen.Length == width * height && y < height && x0 + |row| <= width
    modifies screen
    ensures forall v: nat, u: nat | v < height && u < width ::
      PixelAt(screen[..], width, v, u) ==
        if v == y && x0 <= u < x0 + |row| then row[u - x0] else PixelAt(old(screen[..]), width, v, u)
  {
    if row != [] {
      OffsetInRange(y, x0, width, height);
      PutRow(screen, Offset(y, x0, width), row);
      forall v: nat, u: nat | v < height && u < width
        ensures PixelAt(screen[..], width, v, u) ==
          if v == y && x0 <= u < x0 + |row| then row[u - x0] else PixelAt(old(screen[..]), width, v, u)
      {
        OffsetInRange(v, u, width, height);
        RunIsInOneRow(y, x0, |row|, v, u, width);
      }
    }
  }

  ghost predicate OnScreen(r: Rect, width: nat, height: nat) {
    r.Fits() && r.x >= 0 && r.y >= 0 && r.Right() <= width && r.Bottom() <= height
    && width <= I32_MAX && height <= I32_MAX
  }

  function BackgroundRow(background: Point -> Pixel, y: int, x0: int, n: nat): (row: seq<Pixel>)
    ensures |row| == n && forall k :: 0 <= k < n ==> row[k] == background(Point(x0 + k, y))
  {
    seq(n, k => background(Point(x0 + k, y)))
  }

  /** The damaged pixels above row `y` are background; every other pixel is as it was. */
  ghost predicate BackedTo(now: seq<Pixel>, was: seq<Pixel>, width: nat, height: nat, damage: Rect,
                           background: Point -> Pixel, y: int) {
    forall v: nat, u: nat | v < height && u < width :: BackedAt(now, was, width, damage, background, y, v, u)
  }

  ghost predicate BackedAt(now: seq<Pixel>, was: seq<Pixel>, width: nat, damage: Rect, background: Point -> Pixel,
                           y: int, v: nat, u: nat) {
    PixelAt(now, width, v, u) ==
      if damage.Contains(Point(u, v)) && v < y then background(Point(u, v)) else PixelAt(was, width, v, u)
  }

  /** One row of the background. */
  method BackgroundLine(screen: array<Pixel>, width: nat, height: nat, damage: Rect, background: Point -> Pixel,
                        y: nat, ghost was: seq<Pixel>)
    requires screen.Length == width * height && OnScreen(damage, width, height) && damage.y <= y < damage.Bottom()
    requires BackedTo(screen[..], was, width, height, damage, background, y)
    modifies screen
    ensures BackedTo(screen[..], was, width, height, damage, background, y + 1)
  {
    ghost var mid := screen[..];
    var n := Length(damage.x, damage.Right());
    PutSpan(screen, width, height, y, damage.x, BackgroundRow(background, y, damage.x, n));
    ghost var now, next := screen[..], y + 1;
    forall v: nat, u: nat | v < height && u < width ensures BackedAt(now, was, width, damage, background, next, v, u) {
      assert BackedAt(mid, was, width, damage, background, y, v, u);
    }
  }

  /** The background over the damage, row by row. */
  method PaintBackground(screen: array<Pixel>, width: nat, height: nat, damage: Rect, background: Point -> Pixel)
    requires screen.Length == width * height && OnScreen(damage, width, height)
    modifies screen
    ensures forall v: nat, u: nat | v < height && u < width ::
      PixelAt(screen[..], width, v, u) ==
        if damage.Contains(Point(u, v)) then background(Point(u, v)) else PixelAt(old(screen[..]), width, v, u)
  {
    var y := damage.y;
    while y < damage.Bottom()
      invariant damage.y <= y && (y <= damage.Bottom() || y == damage.y)
      invariant BackedTo(screen[..], old(screen[..]), width, height, damage, background, y)
    {
      BackgroundLine(screen, width, height, damage, background, y, old(screen[..]));
      y := y + 1;
    }
    forall v: nat, u: nat | v < height && u < width
      ensures PixelAt(screen[..], width, v, u) ==
        if damage.Contains(Point(u, v)) then background(Point(u, v)) else PixelAt(old(screen[..]), width, v, u)
    {
      assert BackedAt(screen[..], old(screen[..]), width, damage, background, y, v, u);
    }
  }

  /** One window's visible part, row by row out of its surface. */
  method BlitWindow(screen: array<Pixel>, width: nat, height: nat, win: Window, source: seq<Pixel>, vis: Rect)
    requires screen.Length == width * height && OnScreen(vis, width, height)
    requires win.Sane() && |source| == win.w * win.h && source != []
    requires forall p :: vis.Contains(p) ==> win.OnScreen().Contains(p)
    modifies screen
    ensures forall v: nat, u: nat | v < height && u < width ::
      PixelAt(screen[..], width, v, u) ==
        if vis.Contains(Point(u, v)) then Under(win, source, Point(u, v)) else PixelAt(old(screen[..]), width, v, u)
  {
    var y := vis.y;
    while y < vis.Bottom()
      invariant vis.y <= y <= vis.Bottom() || y == vis.y
      invariant forall v: nat, u: nat | v < height && u < width ::
        PixelAt(screen[..], width, v, u) ==
          if vis.Contains(Point(u, v)) && v < y then Under(win, source, Point(u, v)) else PixelAt(old(screen[..]), width, v, u)
    {
      if vis.x < vis.Right() {
        var n := vis.Right() - vis.x;
        assert vis.Contains(Point(vis.x, y)) && vis.Contains(Point(vis.x + n - 1, y));
        var from := Offset(y - win.oy, vis.x - win.ox, win.w);
        OffsetInRange(y - win.oy, vis.x - win.ox, win.w, win.h);
        PutSpan(screen, width, height, y, vis.x, source[from..from + n]);
      }
      y := y + 1;
    }
  }

  /** One committed window, clipped to the damage. */
  method DrawWindow(screen: array<Pixel>, width: nat, height: nat, win: Window, source: seq<Pixel>, damage: Rect)
    requires screen.Length == width * height && OnScreen(damage, width, height)
    requires win.Sane() && |source| == win.w * win.h && source != []
    modifies screen
    ensures forall v: nat, u: nat | v < height && u < width ::
      PixelAt(screen[..], width, v, u) ==
        if damage.Contains(Point(u, v)) && Shows(win, source, Point(u, v)) then Under(win, source, Point(u, v))
        else PixelAt(old(screen[..]), width, v, u)
  {
    var vis := win.OnScreen().Intersect(damage);
    forall p ensures vis.Contains(p) <==> win.OnScreen().Contains(p) && damage.Contains(p) {
      IntersectPoints(win.OnScreen(), damage, p);
    }
    if !vis.IsEmpty() {
      IntersectPoints(win.OnScreen(), damage, Point(0, 0));
      BlitWindow(screen, width, height, win, source, vis);
    }
  }

  /**
   Composite the windows into the screen, touching only `damage`: inside it every pixel is the topmost
   committed window's, or the background's; outside it nothing changed.
   */
  method Composite(screen: array<Pixel>, width: nat, height: nat, windows: seq<Window>,
                   sources: seq<seq<Pixel>>, background: Point -> Pixel, asked: Rect)
    requires screen.Length == width * height && width <= I32_MAX && height <= I32_MAX
    requires SourcesOk(windows, sources) && asked.Fits()
    modifies screen
    ensures forall v: nat, u: nat | v < height && u < width ::
      PixelAt(screen[..], width, v, u) ==
        if asked.Contains(Point(u, v)) then Expected(windows, sources, background, |windows|, Point(u, v))
        else PixelAt(old(screen[..]), width, v, u)
  {
    var bounds := Rect(0, 0, width, height);
    var damage := asked.Intersect(bounds);
    forall p ensures damage.Contains(p) <==> asked.Contains(p) && bounds.Contains(p) {
      IntersectPoints(asked, bounds, p);
    }
    IntersectPoints(asked, bounds, Point(0, 0));
    if damage.IsEmpty() { return; }
    PaintBackground(screen, width, height, damage, background);
    var i := 0;
    while i < |windows|
      invariant 0 <= i <= |windows|
      invariant forall v: nat, u: nat | v < height && u < width ::
        PixelAt(screen[..], width, v, u) ==
          if damage.Contains(Point(u, v)) then Expected(windows, sources, background, i, Point(u, v))
          else PixelAt(old(screen[..]), width, v, u)
    {
      if sources[i] != [] {
        DrawWindow(screen, width, height, windows[i], sources[i], damage);
      }
      i := i + 1;
    }
  }

  /** The compositor's sources: a committed client's surface row by row, nothing for the others. */
  ghost predicate SourcesOf(sc: DisplayProtocol.Scene, s: DisplayProtocol.State, sources: seq<seq<Pixel>>)
    requires DisplayProtocol.Shaped(sc, s)
  {
    && SourcesOk(sc.windows, sources)
    && forall i :: 0 <= i < |sc.windows| ==>
         && (sources[i] != [] <==> s.comp.committed[i])
         && (s.comp.committed[i] ==> forall q :: sc.windows[i].Bounds().Contains(q) ==>
               PixelAt(sources[i], sc.windows[i].w, q.y, q.x) == s.terms[i].surface[q])
  }

  lemma {:induction false} ExpectedFollowsTop(sc: DisplayProtocol.Scene, s: DisplayProtocol.State,
                                              sources: seq<seq<Pixel>>, n: nat, p: Point)
    requires DisplayProtocol.Shaped(sc, s) && SourcesOf(sc, s, sources) && n <= |sc.windows|
    ensures var top := DisplayProtocol.Top(sc, s.comp.committed, n, p);
      match top
      case None => Expected(sc.windows, sources, sc.background, n, p) == sc.background(p)
      case Some(i) =>
        && i < n && sc.windows[i].Bounds().Contains(sc.windows[i].Local(p))
        && Expected(sc.windows, sources, sc.background, n, p) == s.terms[i].surface[sc.windows[i].Local(p)]
  {
    if n > 0 {
      var win := sc.windows[n - 1];
      if Shows(win, sources[n - 1], p) {
        assert win.Bounds().Contains(win.Local(p));
        OffsetInRange(p.y - win.oy, p.x - win.ox, win.w, win.h);
      } else {
        ExpectedFollowsTop(sc, s, sources, n - 1, p);
      }
    }
  }

  /** What `Composite` writes is the full recomposition the protocol's invariant speaks of. */
  lemma ExpectedIsRecomposed(sc: DisplayProtocol.Scene, s: DisplayProtocol.State, sources: seq<seq<Pixel>>, p: Point)
    requires DisplayProtocol.Shaped(sc, s) && SourcesOf(sc, s, sources)
    ensures Expected(sc.windows, sources, sc.background, |sc.windows|, p) == DisplayProtocol.Recomposed(sc, s, p)
  {
    ExpectedFollowsTop(sc, s, sources, |sc.windows|, p);
    DisplayProtocol.TopIn(sc, s.comp.committed, |sc.windows|, p);
  }
}
