/**
 The terminal's surface: memory of 32-bit words, `stride` words a row, of which the first `width` are
 pixels and the rest padding. Scrolling moves rows in place; painting renders a rectangle of the
 engine's picture; presenting combines the two so that the surface is the whole picture again.
 */
module Surface {
  import opened ScreenGeometry
  import opened Raster

  /** A 64-bit load of two neighbouring words, low word first. */
  function Load64(a: array<Pixel>, at: nat): nat
    requires at + 1 < a.Length
    reads a
  {
    a[at] + a[at + 1] * WORD
  }

  /** A 64-bit store. */
  method Store64(a: array<Pixel>, at: nat, v: nat)
    requires at + 1 < a.Length && v < WORD * WORD
    modifies a
    ensures forall k :: 0 <= k < a.Length && k != at && k != at + 1 ==> a[k] == old(a[k])
    ensures a[at] == v % WORD && a[at + 1] == v / WORD
  {
    a[at] := v % WORD;
    a[at + 1] := v / WORD;
  }

  /** What moving `w` words from `src` to `dst` must leave. */
  ghost predicate Moved(now: seq<Pixel>, was: seq<Pixel>, dst: nat, src: nat, w: nat)
    requires |now| == |was| && dst + w <= |was| && src + w <= |was|
  {
    && (forall k :: dst <= k < dst + w ==> now[k] == was[src + (k - dst)])
    && (forall k :: 0 <= k < |was| && !(dst <= k < dst + w) ==> now[k] == was[k])
  }

  lemma HalvesOf(low: Pixel, high: Pixel)
    ensures var v := low + high * WORD; v < WORD * WORD && v % WORD == low && v / WORD == high
  {
  }

  /** The wide path: whole 64-bit words, then the odd word on the end. */
  method MoveRowWide(a: array<Pixel>, dst: nat, src: nat, w: nat)
    requires dst + w <= src || dst == src
    requires src + w <= a.Length && dst + w <= a.Length
    modifies a
    ensures Moved(a[..], old(a[..]), dst, src, w)
  {
    var qwords := w * 4 / 8;
    var q := 0;
    while q < qwords
      invariant 0 <= q <= qwords
      invariant Moved(a[..], old(a[..]), dst, src, 2 * q)
    {
      ghost var now := a[..];
      MovePair(a, dst + 2 * q, src + 2 * q);
      MovedOn(a[..], now, old(a[..]), dst, src, 2 * q, 2);
      q := q + 1;
    }
    assert 2 * qwords == w || 2 * qwords + 1 == w;
    if w % 2 == 1 {
      ghost var now := a[..];
      MoveWord(a, dst + 2 * qwords, src + 2 * qwords);
      MovedOn(a[..], now, old(a[..]), dst, src, 2 * qwords, 1);
    }
  }

  method MoveWord(a: array<Pixel>, dst: nat, src: nat)
    requires src < a.Length && dst < a.Length
    modifies a
    ensures Moved(a[..], old(a[..]), dst, src, 1)
  {
    a[dst] := a[src];
  }

  /** One 64-bit word. */
  method MovePair(a: array<Pixel>, dst: nat, src: nat)
    requires src + 2 <= a.Length && dst + 2 <= a.Length
    modifies a
    ensures Moved(a[..], old(a[..]), dst, src, 2)
  {
    var v := Load64(a, src);
    HalvesOf(a[src], a[src + 1]);
    Store64(a, dst, v);
  }

  /** Words not yet reached are still where they were, so a move goes on from them. */
  lemma MovedOn(next: seq<Pixel>, now: seq<Pixel>, was: seq<Pixel>, dst: nat, src: nat, n: nat, m: nat)
    requires |next| == |now| == |was| && dst + n + m <= |was| && src + n + m <= |was| && (dst + n <= src || dst == src)
    requires Moved(now, was, dst, src, n) && Moved(next, now, dst + n, src + n, m)
    ensures Moved(next, was, dst, src, n + m)
  {
    forall k | dst <= k < dst + (n + m) ensures next[k] == was[src + (k - dst)] {
      if k >= dst + n { assert next[k] == now[src + n + (k - (dst + n))]; }
    }
  }

  /** The narrow path: one 32-bit word at a time. */
  method MoveRowNarrow(a: array<Pixel>, dst: nat, src: nat, w: nat)
    requires dst + w <= src || dst == src
    requires src + w <= a.Length && dst + w <= a.Length
    modifies a
    ensures Moved(a[..], old(a[..]), dst, src, w)
  {
    var x := 0;
    while x < w
      invariant 0 <= x <= w
      invariant Moved(a[..], old(a[..]), dst, src, x)
    {
      assert a[..][src + x] == old(a[..])[src + x];
      a[dst + x] := a[src + x];
      x := x + 1;
    }
  }

  /** The first `upTo` rows have taken the pixels of the row `px` below; everything else is as it was. */
  ghost predicate ScrolledTo(now: seq<Pixel>, was: seq<Pixel>, stride: nat, w: nat, h: nat, px: nat, upTo: nat)
    requires w <= stride && stride * h <= |was| && |now| == |was| && upTo + px <= h
  {
    && (forall y: nat, x: nat | y < upTo && x < w :: PixelAt(now, stride, y, x) == PixelAt(was, stride, y + px, x))
    && (forall y: nat, x: nat | y < h && x < stride && !(y < upTo && x < w) ::
          PixelAt(now, stride, y, x) == PixelAt(was, stride, y, x))
    && (forall k :: stride * h <= k < |was| ==> now[k] == was[k])
  }

  /** Moving the words of one row extends a partial scroll by that row. */
  lemma OneMoreRow(now: seq<Pixel>, mid: seq<Pixel>, was: seq<Pixel>, stride: nat, w: nat, h: nat, px: nat, y: nat)
    requires 0 < w <= stride && stride * h <= |was| && |now| == |mid| == |was| && y + px < h
    requires ScrolledTo(mid, was, stride, w, h, px, y)
    requires y * stride + w <= |was| && (y + px) * stride + w <= |was|
    requires Moved(now, mid, y * stride, (y + px) * stride, w)
    ensures ScrolledTo(now, was, stride, w, h, px, y + 1)
  {
    OffsetInRange(y, 0, stride, h);
    forall v: nat, u: nat | v < h && u < stride
      ensures PixelAt(now, stride, v, u) ==
        if v == y && u < w then PixelAt(mid, stride, y + px, u) else PixelAt(mid, stride, v, u)
    {
      RowMoved(now, mid, stride, w, h, px, y, v, u);
    }
  }

  lemma RowMoved(now: seq<Pixel>, mid: seq<Pixel>, stride: nat, w: nat, h: nat, px: nat, y: nat, v: nat, u: nat)
    requires 0 < w <= stride && stride * h <= |mid| == |now| && y + px < h && v < h && u < stride
    requires y * stride + w <= |mid| && (y + px) * stride + w <= |mid|
    requires Moved(now, mid, y * stride, (y + px) * stride, w)
    ensures PixelAt(now, stride, v, u) ==
      if v == y && u < w then PixelAt(mid, stride, y + px, u) else PixelAt(mid, stride, v, u)
  {
    OffsetInRange(v, u, stride, h);
    RunIsInOneRow(y, 0, w, v, u, stride);
    if v == y && u < w {
      OffsetInRange(y + px, u, stride, h);
      assert now[y * stride + u] == mid[(y + px) * stride + u];
    }
  }

  /** A finished scroll has one solution, so any two ways of moving the rows leave the same memory. */
  lemma ScrollIsDetermined(now: seq<Pixel>, now': seq<Pixel>, was: seq<Pixel>, stride: nat, w: nat, h: nat, px: nat)
    requires w <= stride && stride * h <= |was| && |now| == |now'| == |was| && px <= h
    requires ScrolledTo(now, was, stride, w, h, px, h - px) && ScrolledTo(now', was, stride, w, h, px, h - px)
    ensures now == now'
  {
    forall k | 0 <= k < |was| ensures now[k] == now'[k] {
      if k < stride * h {
        var y, x := RowOf(k, stride, h);
        assert PixelAt(now, stride, y, x) == PixelAt(now', stride, y, x);
      }
    }
  }

  lemma RowOf(k: nat, stride: nat, h: nat) returns (y: nat, x: nat)
    requires k < stride * h
    ensures y < h && x < stride && k == Offset(y, x, stride)
  {
    assert stride > 0;
    y, x := k / stride, k % stride;
    assert k == y * stride + x;
    if y > h {
      MoreRows(h, y, stride);
    }
  }

  /**
   Move the picture up `px` rows in place, top-down. Whatever the stride, the width and the shift, the
   result is the old rows shifted up, with the bottom `px` rows, the padding of every row and anything
   past the last row as they were, on the 64-bit path and the 32-bit path alike.
   */
  method ScrollSurface(a: array<Pixel>, stride: nat, w: nat, h: nat, px: nat)
    requires w <= stride && stride * h <= a.Length && px <= h
    modifies a
    ensures ScrolledTo(a[..], old(a[..]), stride, w, h, px, h - px)
  {
    var y := 0;
    while y < h - px
      invariant 0 <= y <= h - px
      invariant ScrolledTo(a[..], old(a[..]), stride, w, h, px, y)
    {
      if w > 0 {
        ghost var mid := a[..];
        var dst, src := y * stride, (y + px) * stride;
        RowsFit(stride, h, y, px);
        if stride * 4 % 8 == 0 {
          MoveRowWide(a, dst, src, w);
        } else {
          MoveRowNarrow(a, dst, src, w);
        }
        OneMoreRow(a[..], mid, old(a[..]), stride, w, h, px, y);
      }
      y := y + 1;
    }
  }

  lemma RowsFit(stride: nat, h: nat, y: nat, px: nat)
    requires y + px < h
    ensures y * stride + stride <= stride * h && (y + px) * stride + stride <= stride * h
    ensures px > 0 ==> y * stride + stride <= (y + px) * stride
  {
    MoreRows(y, h, stride);
    MoreRows(y + px, h, stride);
    if px > 0 { MoreRows(y, y + px, stride); }
  }

  // ---- painting -----------------------------------------------------------------------------------

  /** What a terminal's engine draws: a total function of the pixel. */
  type Picture = (int, int) -> Pixel

  /** Every pixel under `r` is the picture's; every other word is as it was. */
  ghost predicate PaintedOver(now: seq<Pixel>, was: seq<Pixel>, stride: nat, h: nat, pic: Picture, r: Rect)
    requires |now| == |was|
  {
    && (forall y: nat, x: nat | y < h && x < stride :: PixelPainted(now, was, stride, pic, r, y, x))
    && (forall k :: stride * h <= k < |was| ==> now[k] == was[k])
  }

  ghost predicate PixelPainted(now: seq<Pixel>, was: seq<Pixel>, stride: nat, pic: Picture, r: Rect, y: nat, x: nat) {
    PixelAt(now, stride, y, x) == if r.Contains(Point(x, y)) then pic(x, y) else PixelAt(was, stride, y, x)
  }

  /** The words `at..at+n` hold row `y` of the picture from column `x0`; the rest are as in `mid`. */
  ghost predicate RowPainted(now: seq<Pixel>, mid: seq<Pixel>, at: nat, x0: nat, n: nat, y: nat, pic: Picture)
    requires |now| == |mid| && at + n <= |now|
  {
    && (forall k :: at <= k < at + n ==> now[k] == pic(x0 + (k - at), y))
    && (forall k :: 0 <= k < |now| && !(at <= k < at + n) ==> now[k] == mid[k])
  }

  lemma RowPaintedPixel(now: seq<Pixel>, mid: seq<Pixel>, stride: nat, h: nat, x0: nat, n: nat, row: nat, pic: Picture,
                        y: nat, x: nat)
    requires |now| == |mid| && stride * h <= |mid| && 0 < n && x0 + n <= stride && row < h && y < h && x < stride
    requires 0 <= Offset(row, x0, stride) && Offset(row, x0, stride) + n <= |mid|
    requires RowPainted(now, mid, Offset(row, x0, stride), x0, n, row, pic)
    ensures PixelAt(now, stride, y, x) ==
      if y == row && x0 <= x < x0 + n then pic(x, y) else PixelAt(mid, stride, y, x)
  {
    OffsetInRange(y, x, stride, h);
    RunIsInOneRow(row, x0, n, y, x, stride);
  }

  lemma GrowByARow(r: Rect, rows: nat, x: nat, y: nat)
    requires r.Fits() && r.x >= 0 && r.y >= 0 && r.x + r.w <= I32_MAX && r.y + r.h <= I32_MAX && rows < r.h
    ensures r.(h := rows + 1).Contains(Point(x, y))
       <==> r.(h := rows).Contains(Point(x, y)) || (y == r.y + rows && r.x <= x < r.x + r.w)
    ensures r.(h := rows).Contains(Point(x, y)) ==> y != r.y + rows
  {
  }

  lemma OneMorePaintedRow(now: seq<Pixel>, mid: seq<Pixel>, was: seq<Pixel>, stride: nat, h: nat, pic: Picture,
                          r: Rect, rows: nat)
    requires |now| == |mid| == |was| && stride * h <= |was|
    requires r.Fits() && r.x >= 0 && r.y >= 0 && r.x + r.w <= stride <= I32_MAX && r.y + r.h <= h <= I32_MAX
    requires rows < r.h && 0 < r.w
    requires PaintedOver(mid, was, stride, h, pic, r.(h := rows))
    requires 0 <= Offset(r.y + rows, r.x, stride) && Offset(r.y + rows, r.x, stride) + r.w <= |mid|
    requires RowPainted(now, mid, Offset(r.y + rows, r.x, stride), r.x, r.w, r.y + rows, pic)
    ensures PaintedOver(now, was, stride, h, pic, r.(h := rows + 1))
  {
    var r' := r.(h := rows + 1);
    forall y: nat, x: nat | y < h && x < stride ensures PixelPainted(now, was, stride, pic, r', y, x) {
      assert PixelPainted(mid, was, stride, pic, r.(h := rows), y, x);
      RowPaintedPixel(now, mid, stride, h, r.x, r.w, r.y + rows, pic, y, x);
      GrowByARow(r, rows, x, y);
    }
    OffsetInRange(r.y + rows, r.x, stride, h);
  }

  /** One row of the rectangle. */
  method PaintRow(a: array<Pixel>, at: nat, x0: nat, n: nat, y: nat, pic: Picture)
    requires at + n <= a.Length
    modifies a
    ensures RowPainted(a[..], old(a[..]), at, x0, n, y, pic)
  {
    var i := 0;
    while i < n
      invariant 0 <= i <= n
      invariant RowPainted(a[..], old(a[..]), at, x0, i, y, pic)
    {
      a[at + i] := pic(x0 + i, y);
      i := i + 1;
    }
  }

  lemma EmptyPaintsNothing(was: seq<Pixel>, stride: nat, h: nat, pic: Picture, r: Rect)
    requires r.IsEmpty()
    ensures PaintedOver(was, was, stride, h, pic, r)
  {
  }

  /** Render a rectangle of the picture. */
  method Paint(a: array<Pixel>, stride: nat, h: nat, r: Rect, pic: Picture)
    requires stride * h <= a.Length
    requires r.Fits() && r.x >= 0 && r.y >= 0 && r.x + r.w <= stride <= I32_MAX && r.y + r.h <= h <= I32_MAX
    modifies a
    ensures PaintedOver(a[..], old(a[..]), stride, h, pic, r)
  {
    EmptyPaintsNothing(a[..], stride, h, pic, r.(h := 0));
    if r.w == 0 {
      EmptyPaintsNothing(a[..], stride, h, pic, r);
      return;
    }
    var rows := 0;
    while rows < r.h
      invariant 0 <= rows <= r.h
      invariant PaintedOver(a[..], old(a[..]), stride, h, pic, r.(h := rows))
    {
      PaintNextRow(a, stride, h, r, pic, rows, old(a[..]));
      rows := rows + 1;
    }
    assert r.(h := r.h) == r;
  }

  method PaintNextRow(a: array<Pixel>, stride: nat, h: nat, r: Rect, pic: Picture, rows: nat, ghost was: seq<Pixel>)
    requires stride * h <= a.Length == |was| && rows < r.h && r.w > 0
    requires r.Fits() && r.x >= 0 && r.y >= 0 && r.x + r.w <= stride <= I32_MAX && r.y + r.h <= h <= I32_MAX
    requires PaintedOver(a[..], was, stride, h, pic, r.(h := rows))
    modifies a
    ensures PaintedOver(a[..], was, stride, h, pic, r.(h := rows + 1))
  {
    OffsetInRange(r.y + rows, r.x, stride, h);
    ghost var mid := a[..];
    PaintRow(a, Offset(r.y + rows, r.x, stride), r.x, r.w, r.y + rows, pic);
    OneMorePaintedRow(a[..], mid, was, stride, h, pic, r, rows);
  }
}
