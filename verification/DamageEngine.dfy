/**
 The terminal engine's damage report: a grid of cells, a cursor, and the bookkeeping (`dirty`, `scrolled`,
 `drawn`) that `take_damage` turns into "move your picture up this many rows, then render this box". The promise
 is stated here cell by cell, and it is false: a scroll moves the grid but not the box already recorded, and it
 leaves the rows it exposes to be compared with the wrong ones. This module proves exactly which scrolls keep the
 promise, that a run of keeping scrolls reports truly, and gives the two smallest runs that do not. A report true
 in cells can still be false in pixels, where the surface is taller than its grid; that too has its exact
 condition and a run.
 */
module DamageEngine {
  import opened ScreenGeometry
  import opened Raster
  import Presenting
  import Surface

  datatype Cell = Cell(ch: nat, attr: nat)

  const SPACE: nat := 32

  function Blank(attr: nat): Cell {
    Cell(SPACE, attr)
  }

  type Grid = seq<seq<Cell>>

  predicate GridOk(g: Grid, cols: nat, rows: nat) {
    |g| == rows && forall r :: 0 <= r < rows ==> |g[r]| == cols
  }

  datatype Spot = Spot(col: nat, row: nat)

  datatype Vt = Vt(
    cols: nat, rows: nat,
    grid: Grid,
    cursor: Spot,
    wrap: bool,
    attr: nat,
    dirty: Option<CellRect>,
    scrolled: nat,
    drawn: Option<Spot>)

  predicate OnGrid(s: Spot, cols: nat, rows: nat) {
    s.col < cols && s.row < rows
  }

  predicate BoxOk(d: Option<CellRect>, cols: nat, rows: nat) {
    d.Some? ==> d.value.Within(cols, rows) && d.value.cols > 0 && d.value.rows > 0
  }

  predicate VtOk(v: Vt) {
    && 0 < v.cols && 0 < v.rows && GridOk(v.grid, v.cols, v.rows)
    && OnGrid(v.cursor, v.cols, v.rows) && BoxOk(v.dirty, v.cols, v.rows)
    && v.scrolled < v.rows && (v.drawn.Some? ==> OnGrid(v.drawn.value, v.cols, v.rows))
  }

  predicate InBox(d: Option<CellRect>, c: int, r: int) {
    d.Some? && d.value.Has(c, r)
  }

  // ---- the bookkeeping, operation by operation ------------------------------------------------------

  function AddCell(d: Option<CellRect>, c: nat, r: nat): Option<CellRect> {
    var one := CellRect(c, r, 1, 1);
    Some(if d.Some? then d.value.Union(one) else one)
  }

  function Put(v: Vt, c: nat, r: nat, cell: Cell): (v': Vt)
    requires VtOk(v) && c < v.cols && r < v.rows
    ensures VtOk(v')
  {
    if v.grid[r][c] == cell then v
    else v.(grid := v.grid[r := v.grid[r][c := cell]], dirty := AddCell(v.dirty, c, r))
  }

  /** Columns `from..end` of row `r` become `cell`, left to right. */
  function PutRow(v: Vt, r: nat, from: nat, end: nat, cell: Cell): (v': Vt)
    requires VtOk(v) && r < v.rows && from <= end <= v.cols
    ensures VtOk(v') && v'.cols == v.cols && v'.rows == v.rows
    decreases end - from
  {
    if from == end then v else PutRow(Put(v, from, r, cell), r, from + 1, end, cell)
  }

  function DamageAll(v: Vt): Vt {
    v.(dirty := Some(CellRect(0, 0, v.cols, v.rows)), scrolled := 0)
  }

  /** The drawn cursor rides up with its row; the row it lands on must be rendered again. */
  function DrawnUp(v: Vt): Option<Spot> {
    if v.drawn.Some? && v.drawn.value.row > 0 then Some(Spot(v.drawn.value.col, v.drawn.value.row - 1)) else None
  }

  function BoxAfterDrawnUp(d: Option<CellRect>, up: Option<Spot>): Option<CellRect> {
    if up.Some? then AddCell(d, up.value.col, up.value.row) else d
  }

  function ScrollDamage(v: Vt): (v': Vt)
    requires VtOk(v)
    ensures VtOk(v') && v'.grid == v.grid
  {
    var up := DrawnUp(v);
    var v1 := v.(drawn := up, dirty := BoxAfterDrawnUp(v.dirty, up), scrolled := v.scrolled + 1);
    if v1.scrolled >= v.rows then DamageAll(v1) else v1
  }

  /** `copy_within` moves the rows up and leaves the last one where it was. */
  function MovedUp(g: Grid): Grid
    requires |g| > 0
  {
    g[1..] + [g[|g| - 1]]
  }

  /** The grid moves up a row; the bottom row is blanked by comparison; then the report is told. */
  function ScrollGrid(v: Vt): (v': Vt)
    requires VtOk(v)
    ensures VtOk(v')
  {
    ScrollDamage(PutRow(v.(grid := MovedUp(v.grid)), v.rows - 1, 0, v.cols, Blank(v.attr)))
  }

  function LineFeed(v: Vt): (v': Vt)
    requires VtOk(v)
    ensures VtOk(v')
  {
    if v.cursor.row + 1 < v.rows then v.(cursor := v.cursor.(row := v.cursor.row + 1)) else ScrollGrid(v)
  }

  datatype Op =
    | Print(ch: nat)
    | NewLine
    | MoveTo(at: Spot)
    | EraseLine(from: nat, end: nat)
    | EraseAll
    | Rendition(attr: nat)

  predicate OpOk(v: Vt, op: Op) {
    match op
    case MoveTo(at) => OnGrid(at, v.cols, v.rows)
    case EraseLine(from, end) => from <= end <= v.cols
    case _ => true
  }

  function Apply(v: Vt, op: Op): (v': Vt)
    requires VtOk(v) && OpOk(v, op)
    ensures VtOk(v')
  {
    match op
    case Print(ch) =>
      var v1 := if v.wrap then LineFeed(v.(wrap := false, cursor := v.cursor.(col := 0))) else v;
      LineFeedKeeps(v.(wrap := false, cursor := v.cursor.(col := 0)));
      var v2 := Put(v1, v1.cursor.col, v1.cursor.row, Cell(ch, v1.attr));
      if v2.cursor.col + 1 >= v2.cols then v2.(wrap := true)
      else v2.(cursor := v2.cursor.(col := v2.cursor.col + 1))
    case NewLine => LineFeed(v.(wrap := false))
    case MoveTo(at) => v.(wrap := false, cursor := at)
    case EraseLine(from, end) => PutRow(v, v.cursor.row, from, end, Blank(v.attr))
    case EraseAll => DamageAll(v.(grid := seq(v.rows, _ => seq(v.cols, _ => Blank(v.attr)))))
    case Rendition(a) => v.(attr := a)
  }

  lemma LineFeedKeeps(v: Vt)
    requires VtOk(v)
    ensures LineFeed(v).cols == v.cols && LineFeed(v).rows == v.rows
  {
  }

  /** One byte's worth: the operation, then both ends of a cursor move are dirtied. */
  function Feed(v: Vt, op: Op): (v': Vt)
    requires VtOk(v) && OpOk(v, op)
    ensures VtOk(v')
  {
    ApplyKeepsShape(v, op);
    Touched(Apply(v, op), v.cursor)
  }

  /** A cursor that moved dirties the cell it left and the one it reached. */
  function Touched(v: Vt, left: Spot): (v': Vt)
    requires VtOk(v) && OnGrid(left, v.cols, v.rows)
    ensures VtOk(v') && v'.cols == v.cols && v'.rows == v.rows
  {
    if v.cursor == left then v
    else v.(dirty := AddCell(AddCell(v.dirty, left.col, left.row), v.cursor.col, v.cursor.row))
  }

  lemma ApplyKeepsShape(v: Vt, op: Op)
    requires VtOk(v) && OpOk(v, op)
    ensures Apply(v, op).cols == v.cols && Apply(v, op).rows == v.rows
  {
  }

  // ---- the promise ------------------------------------------------------------------------------------

  /** A picture the engine has reported: its cells and where its cursor block was drawn. */
  datatype Frame = Frame(grid: Grid, cursor: Spot)

  predicate FrameOk(f: Frame, cols: nat, rows: nat) {
    GridOk(f.grid, cols, rows) && OnGrid(f.cursor, cols, rows)
  }

  /** Which old row a painter that moved up `s` rows shows at row `r`: the bottom `s` rows did not move. */
  function Source(r: nat, s: nat, rows: nat): (q: nat)
    requires r < rows
    ensures q < rows
  {
    if r + s < rows then r + s else r
  }

  /** Outside `box`, the new frame is what the painter's moved picture already shows, cursor included. */
  ghost predicate Promise(was: Frame, now: Frame, cols: nat, rows: nat, s: nat, box: CellRect)
    requires FrameOk(was, cols, rows) && FrameOk(now, cols, rows)
  {
    forall r: nat, c: nat | r < rows && c < cols && !box.Has(c, r) ::
      && now.grid[r][c] == was.grid[Source(r, s, rows)][c]
      && (now.cursor == Spot(c, r) <==> was.cursor == Spot(c, Source(r, s, rows)))
  }

  /** Outside the recorded box the grid is the moved picture: what makes the next report true. */
  ghost predicate Tracks(v: Vt, was: Grid)
    requires VtOk(v) && GridOk(was, v.cols, v.rows)
  {
    forall r: nat, c: nat | r < v.rows && c < v.cols && !InBox(v.dirty, c, r) ::
      v.grid[r][c] == was[Source(r, v.scrolled, v.rows)][c]
  }

  predicate IsFull(v: Vt) {
    v.dirty == Some(CellRect(0, 0, v.cols, v.rows))
  }

  /** The cursor block a painter holds, followed up the screen. */
  predicate TracksDrawn(v: Vt, was: Spot) {
    IsFull(v) || v.drawn == if was.row >= v.scrolled then Some(Spot(was.col, was.row - v.scrolled)) else None
  }

  predicate TracksCursor(v: Vt, was: Spot) {
    v.cursor == was || InBox(v.dirty, was.col, was.row)
  }

  ghost predicate Faithful(v: Vt, was: Frame) {
    VtOk(v) && FrameOk(was, v.cols, v.rows)
    && Tracks(v, was.grid) && TracksDrawn(v, was.cursor) && TracksCursor(v, was.cursor)
  }

  // ---- exactly when a scroll keeps it -------------------------------------------------------------------

  /** The box already recorded still covers what it covered, one row up. */
  predicate BoxFollows(v: Vt) {
    v.dirty.None? || v.dirty.value.row == 0
    || (v.drawn.Some? && 0 < v.drawn.value.row <= v.dirty.value.row)
  }

  /** A second scroll also exposes rows that nothing compared; they must be in the box already. */
  predicate ExposedCovered(v: Vt) {
    v.scrolled == 0
    || (var box := BoxAfterDrawnUp(v.dirty, DrawnUp(v));
        box.Some? && box.value.col == 0 && box.value.cols == v.cols
        && box.value.row <= v.rows - 1 - v.scrolled && box.value.row + box.value.rows >= v.rows - 1)
  }

  /** Checkable on the engine's own fields before the line feed. */
  predicate ScrollIsSafe(v: Vt) {
    v.scrolled + 1 >= v.rows || (BoxFollows(v) && ExposedCovered(v))
  }

  /** Box `d` lies inside box `d'`. */
  predicate BoxIn(d: Option<CellRect>, d': Option<CellRect>) {
    d.None? || (d'.Some? && d'.value.col <= d.value.col && d'.value.row <= d.value.row
                && d.value.col + d.value.cols <= d'.value.col + d'.value.cols
                && d.value.row + d.value.rows <= d'.value.row + d'.value.rows)
  }

  lemma PutKeeps(v: Vt, c: nat, r: nat, cell: Cell, x: nat, y: nat)
    requires VtOk(v) && c < v.cols && r < v.rows && x < v.cols && y < v.rows
    ensures var v' := Put(v, c, r, cell);
      && v'.cols == v.cols && v'.rows == v.rows && v'.scrolled == v.scrolled && v'.drawn == v.drawn
      && v'.cursor == v.cursor && v'.attr == v.attr
      && v'.grid[y][x] == (if x == c && y == r then cell else v.grid[y][x])
      && BoxIn(v.dirty, v'.dirty)
      && (v'.grid[y][x] != v.grid[y][x] ==> InBox(v'.dirty, x, y))
      && (IsFull(v) ==> IsFull(v'))
  {
  }

  lemma {:induction false} PutRowKeeps(v: Vt, r: nat, from: nat, end: nat, cell: Cell, x: nat, y: nat)
    requires VtOk(v) && r < v.rows && from <= end <= v.cols && x < v.cols && y < v.rows
    ensures var v' := PutRow(v, r, from, end, cell);
      && v'.scrolled == v.scrolled && v'.drawn == v.drawn && v'.cursor == v.cursor && v'.attr == v.attr
      && v'.grid[y][x] == (if y == r && from <= x < end then cell else v.grid[y][x])
      && BoxIn(v.dirty, v'.dirty)
      && (v'.grid[y][x] != v.grid[y][x] ==> InBox(v'.dirty, x, y))
      && (IsFull(v) ==> IsFull(v'))
    decreases end - from
  {
    if from < end {
      PutKeeps(v, from, r, cell, x, y);
      PutRowKeeps(Put(v, from, r, cell), r, from + 1, end, cell, x, y);
    }
  }

  lemma ScrollSteps(v: Vt, x: nat, y: nat)
    requires VtOk(v) && v.scrolled + 1 < v.rows && x < v.cols && y < v.rows
    ensures var v' := ScrollGrid(v);
      && v'.cols == v.cols && v'.rows == v.rows && v'.cursor == v.cursor
      && v'.scrolled == v.scrolled + 1 && v'.drawn == DrawnUp(v)
      && BoxIn(BoxAfterDrawnUp(v.dirty, DrawnUp(v)), v'.dirty)
      && v'.grid[y][x] == (if y == v.rows - 1 then Blank(v.attr) else v.grid[y + 1][x])
      && (!InBox(v'.dirty, x, y) && y == v.rows - 1 ==> v.grid[y][x] == Blank(v.attr))
  {
    var v1 := v.(grid := MovedUp(v.grid));
    PutRowKeeps(v1, v.rows - 1, 0, v.cols, Blank(v.attr), x, y);
  }

  lemma ScrollAtTheLimit(v: Vt)
    requires VtOk(v) && v.scrolled + 1 >= v.rows
    ensures IsFull(ScrollGrid(v)) && ScrollGrid(v).cols == v.cols && ScrollGrid(v).rows == v.rows
    ensures ScrollGrid(v).cursor == v.cursor
  {
    PutRowKeeps(v.(grid := MovedUp(v.grid)), v.rows - 1, 0, v.cols, Blank(v.attr), 0, 0);
  }

  /** What a safe scroll's box covers: everything it covered, moved, and every row it exposed unseen. */
  lemma SafeBoxCovers(v: Vt, c: nat, r: nat)
    requires VtOk(v) && v.scrolled + 1 < v.rows && BoxFollows(v) && ExposedCovered(v)
    requires c < v.cols && r + 1 < v.rows
    requires InBox(v.dirty, c, r + 1) || (v.scrolled > 0 && r + 1 + v.scrolled >= v.rows)
    ensures InBox(BoxAfterDrawnUp(v.dirty, DrawnUp(v)), c, r)
  {
  }

  /** One cell outside the new box shows what the moved picture shows. */
  lemma SafeScrollCell(v: Vt, was: Grid, r: nat, c: nat)
    requires VtOk(v) && GridOk(was, v.cols, v.rows) && Tracks(v, was) && BoxFollows(v) && ExposedCovered(v)
    requires v.scrolled + 1 < v.rows && r < v.rows && c < v.cols && !InBox(ScrollGrid(v).dirty, c, r)
    ensures ScrollGrid(v).grid[r][c] == was[Source(r, v.scrolled + 1, v.rows)][c]
  {
    ScrollSteps(v, c, r);
    if r + 1 < v.rows {
      if InBox(v.dirty, c, r + 1) || (v.scrolled > 0 && r + 1 + v.scrolled >= v.rows) {
        SafeBoxCovers(v, c, r);
      }
    }
  }

  lemma SafeScrollTracks(v: Vt, was: Grid)
    requires VtOk(v) && GridOk(was, v.cols, v.rows) && Tracks(v, was) && ScrollIsSafe(v)
    ensures ScrollGrid(v).cols == v.cols && ScrollGrid(v).rows == v.rows && Tracks(ScrollGrid(v), was)
  {
    var v' := ScrollGrid(v);
    if v.scrolled + 1 >= v.rows {
      ScrollAtTheLimit(v);
    } else {
      ScrollSteps(v, 0, 0);
      forall r: nat, c: nat | r < v.rows && c < v.cols && !InBox(v'.dirty, c, r)
        ensures v'.grid[r][c] == was[Source(r, v'.scrolled, v.rows)][c]
      {
        SafeScrollCell(v, was, r, c);
      }
    }
  }

  // ---- the other direction: an unsafe scroll breaks the promise for some screen ---------------------------

  /** A screen of one repeated cell, with one cell different. */
  function Uniform(cols: nat, rows: nat, cell: Cell, at: Spot, odd: Cell): (g: Grid)
    ensures GridOk(g, cols, rows)
    ensures forall r, c :: 0 <= r < rows && 0 <= c < cols ==>
      g[r][c] == if c == at.col && r == at.row then odd else cell
  {
    seq(rows, r => seq(cols, c => if c == at.col && r == at.row then odd else cell))
  }

  /** The same bookkeeping over another grid. */
  function Over(v: Vt, g: Grid): Vt {
    v.(grid := g, attr := 0)
  }

  lemma StaleBoxBreaks(v: Vt) returns (g: Grid, was: Grid)
    requires VtOk(v) && v.scrolled + 1 < v.rows && !BoxFollows(v)
    ensures GridOk(g, v.cols, v.rows) && GridOk(was, v.cols, v.rows)
    ensures Tracks(Over(v, g), was) && !Tracks(ScrollGrid(Over(v, g)), was)
  {
    var d := v.dirty.value;
    var odd := Cell(SPACE + 1, 0);
    was := Uniform(v.cols, v.rows, Blank(0), Spot(v.cols, v.rows), odd);
    g := Uniform(v.cols, v.rows, Blank(0), Spot(d.col, d.row), odd);
    var u := Over(v, g);
    ScrollSteps(u, d.col, d.row - 1);
    ScrollRowBox(u, d.row);
    assert ScrollGrid(u).grid[d.row - 1][d.col] == odd;
  }

  /** Blanking only ever adds the bottom row to the box. */
  lemma ScrollRowBox(v: Vt, top: nat)
    requires VtOk(v) && v.scrolled + 1 < v.rows && top < v.rows
    requires v.dirty.Some? && v.dirty.value.row >= top
    requires v.drawn.Some? && v.drawn.value.row > 0 ==> v.drawn.value.row - 1 >= top
    ensures ScrollGrid(v).dirty.Some? && ScrollGrid(v).dirty.value.row >= top
  {
    PutRowTop(v.(grid := MovedUp(v.grid)), v.rows - 1, 0, v.cols, Blank(v.attr), top);
    PutRowKeeps(v.(grid := MovedUp(v.grid)), v.rows - 1, 0, v.cols, Blank(v.attr), 0, 0);
  }

  lemma {:induction false} PutRowTop(v: Vt, r: nat, from: nat, end: nat, cell: Cell, top: nat)
    requires VtOk(v) && r < v.rows && from <= end <= v.cols && top <= r
    requires v.dirty.Some? && v.dirty.value.row >= top
    ensures PutRow(v, r, from, end, cell).dirty.Some? && PutRow(v, r, from, end, cell).dirty.value.row >= top
    decreases end - from
  {
    if from < end {
      PutRowTop(Put(v, from, r, cell), r, from + 1, end, cell, top);
    }
  }

  lemma {:induction false} PutRowSame(v: Vt, r: nat, from: nat, end: nat, cell: Cell)
    requires VtOk(v) && r < v.rows && from <= end <= v.cols
    requires forall c :: from <= c < end ==> v.grid[r][c] == cell
    ensures PutRow(v, r, from, end, cell) == v
    decreases end - from
  {
    if from < end { PutRowSame(v, r, from + 1, end, cell); }
  }

  /** An exposed cell outside the box, when there is one. */
  function Uncovered(v: Vt): (at: Spot)
    requires VtOk(v) && v.scrolled + 1 < v.rows && !ExposedCovered(v)
    ensures at.col < v.cols && v.rows - 1 - v.scrolled <= at.row <= v.rows - 2
    ensures !InBox(BoxAfterDrawnUp(v.dirty, DrawnUp(v)), at.col, at.row)
  {
    var box := BoxAfterDrawnUp(v.dirty, DrawnUp(v));
    if box.None? || box.value.col > 0 then Spot(0, v.rows - 2)
    else if box.value.cols < v.cols then Spot(v.cols - 1, v.rows - 2)
    else if box.value.row > v.rows - 1 - v.scrolled then Spot(0, v.rows - 1 - v.scrolled)
    else Spot(0, v.rows - 2)
  }

  /** The grid a painter's moved picture shows. */
  function MovedGrid(was: Grid, s: nat, cols: nat, rows: nat): (g: Grid)
    requires GridOk(was, cols, rows)
    ensures GridOk(g, cols, rows) && forall r :: 0 <= r < rows ==> g[r] == was[Source(r, s, rows)]
  {
    seq(rows, r requires 0 <= r < rows => was[Source(r, s, rows)])
  }

  predicate IsBlankRow(row: seq<Cell>, attr: nat) {
    forall c :: 0 <= c < |row| ==> row[c] == Blank(attr)
  }

  /** Scrolling over a blank bottom row records nothing but the cursor's move. */
  lemma BlankBottomScroll(v: Vt)
    requires VtOk(v) && v.scrolled + 1 < v.rows
    requires IsBlankRow(v.grid[v.rows - 1], v.attr)
    ensures ScrollGrid(v).dirty == BoxAfterDrawnUp(v.dirty, DrawnUp(v))
  {
    PutRowSame(v.(grid := MovedUp(v.grid)), v.rows - 1, 0, v.cols, Blank(v.attr));
  }

  lemma UnseenRowsBreak(v: Vt) returns (g: Grid, was: Grid)
    requires VtOk(v) && v.scrolled + 1 < v.rows && !ExposedCovered(v)
    ensures GridOk(g, v.cols, v.rows) && GridOk(was, v.cols, v.rows)
    ensures Tracks(Over(v, g), was) && !Tracks(ScrollGrid(Over(v, g)), was)
  {
    var at := Uncovered(v);
    var odd := Cell(SPACE + 1, 0);
    was := Uniform(v.cols, v.rows, Blank(0), at, odd);
    g := MovedGrid(was, v.scrolled, v.cols, v.rows);
    var u := Over(v, g);
    assert g[v.rows - 1] == was[v.rows - 1] && g[at.row + 1] == was[at.row + 1];
    BlankBottomScroll(u);
    ScrollSteps(u, at.col, at.row);
    assert ScrollGrid(u).grid[at.row][at.col] == Blank(0);
    assert was[Source(at.row, v.scrolled + 1, v.rows)][at.col] == odd;
  }

  /**
   A scroll keeps the promise for every screen with this bookkeeping, if and only if the bookkeeping is
   one the guard admits. The guard reads only the engine's own fields.
   */
  lemma ScrollKeepsPromiseIff(v: Vt)
    requires VtOk(v)
    ensures ScrollIsSafe(v) <==>
      forall g: Grid, was: Grid, attr: nat |
        GridOk(g, v.cols, v.rows) && GridOk(was, v.cols, v.rows) && Tracks(v.(grid := g, attr := attr), was) ::
        var v' := ScrollGrid(v.(grid := g, attr := attr));
        GridOk(was, v'.cols, v'.rows) && Tracks(v', was)
  {
    if ScrollIsSafe(v) {
      forall g: Grid, was: Grid, attr: nat |
        GridOk(g, v.cols, v.rows) && GridOk(was, v.cols, v.rows) && Tracks(v.(grid := g, attr := attr), was)
        ensures var v' := ScrollGrid(v.(grid := g, attr := attr));
          GridOk(was, v'.cols, v'.rows) && Tracks(v', was)
      {
        SafeScrollTracks(v.(grid := g, attr := attr), was);
      }
    } else {
      var g, was: Grid;
      if !BoxFollows(v) {
        g, was := StaleBoxBreaks(v);
      } else {
        g, was := UnseenRowsBreak(v);
      }
      assert Over(v, g) == v.(grid := g, attr := 0);
    }
  }

  // ---- what the operations do to the screen ---------------------------------------------------------------------

  /** A scroll moves every row up one and blanks the last, wherever the bookkeeping stands. */
  lemma ScrollMoves(v: Vt, x: nat, y: nat)
    requires VtOk(v) && x < v.cols && y < v.rows
    ensures var u := ScrollGrid(v);
      && u.cols == v.cols && u.rows == v.rows && u.cursor == v.cursor && u.attr == v.attr && u.wrap == v.wrap
      && u.grid[y][x] == if y + 1 == v.rows then Blank(v.attr) else v.grid[y + 1][x]
  {
    PutRowKeeps(v.(grid := MovedUp(v.grid)), v.rows - 1, 0, v.cols, Blank(v.attr), x, y);
    PutRowWrap(v.(grid := MovedUp(v.grid)), v.rows - 1, 0, v.cols, Blank(v.attr));
  }

  lemma {:induction false} PutRowWrap(v: Vt, r: nat, from: nat, end: nat, cell: Cell)
    requires VtOk(v) && r < v.rows && from <= end <= v.cols
    ensures PutRow(v, r, from, end, cell).wrap == v.wrap
    decreases end - from
  {
    if from < end { PutRowWrap(Put(v, from, r, cell), r, from + 1, end, cell); }
  }

  /** A line feed goes down a row, or at the bottom scrolls. */
  lemma LineFeedMoves(v: Vt, x: nat, y: nat)
    requires VtOk(v) && x < v.cols && y < v.rows
    ensures var u := LineFeed(v);
      && u.cols == v.cols && u.rows == v.rows && u.attr == v.attr && u.wrap == v.wrap && u.cursor.col == v.cursor.col
      && (v.cursor.row + 1 < v.rows ==> u.cursor.row == v.cursor.row + 1 && u.grid[y][x] == v.grid[y][x])
      && (v.cursor.row + 1 == v.rows ==>
            u.cursor.row == v.cursor.row && u.grid[y][x] == if y + 1 == v.rows then Blank(v.attr) else v.grid[y + 1][x])
  {
    if v.cursor.row + 1 == v.rows { ScrollMoves(v, x, y); }
  }

  /** Printing away from the last column: the cell at the cursor changes, the cursor goes right, nothing else. */
  lemma PrintWrites(v: Vt, ch: nat, x: nat, y: nat)
    requires VtOk(v) && !v.wrap && x < v.cols && y < v.rows
    ensures var u := Apply(v, Print(ch));
      && u.cols == v.cols && u.rows == v.rows
      && u.grid[y][x] == (if Spot(x, y) == v.cursor then Cell(ch, v.attr) else v.grid[y][x])
      && u.cursor.row == v.cursor.row && u.wrap == (v.cursor.col + 1 == v.cols)
      && u.cursor.col == if v.cursor.col + 1 == v.cols then v.cursor.col else v.cursor.col + 1
  {
    PutKeeps(v, v.cursor.col, v.cursor.row, Cell(ch, v.attr), x, y);
  }

  /** Printing after the last column: the line feed that was put off, from the first column, and then the same. */
  lemma WrapIsPutOff(v: Vt, ch: nat)
    requires VtOk(v) && v.wrap
    ensures var start := v.(wrap := false, cursor := v.cursor.(col := 0));
      VtOk(start) && !LineFeed(start).wrap && Apply(v, Print(ch)) == Apply(LineFeed(start), Print(ch))
  {
    LineFeedMoves(v.(wrap := false, cursor := v.cursor.(col := 0)), 0, 0);
  }

  /** The other operations, cell by cell. */
  lemma OthersMean(v: Vt, op: Op, x: nat, y: nat)
    requires VtOk(v) && OpOk(v, op) && !op.Print? && !op.NewLine? && x < v.cols && y < v.rows
    ensures var u := Apply(v, op);
      && u.cols == v.cols && u.rows == v.rows
      && (op.MoveTo? ==> u.cursor == op.at && !u.wrap && u.grid == v.grid)
      && (op.Rendition? ==> u.attr == op.attr && u.cursor == v.cursor && u.grid == v.grid)
      && (op.EraseLine? ==> u.cursor == v.cursor)
      && (op.EraseLine? ==> u.grid[y][x] == if y == v.cursor.row && op.from <= x < op.end then Blank(v.attr) else v.grid[y][x])
      && (op.EraseAll? ==> u.cursor == v.cursor && u.grid[y][x] == Blank(v.attr))
  {
    if op.EraseLine? { PutRowKeeps(v, v.cursor.row, op.from, op.end, Blank(v.attr), x, y); }
  }

  // ---- whole runs between two reports -----------------------------------------------------------------------

  predicate Scrolls(v: Vt, op: Op) {
    (op.NewLine? || (op.Print? && v.wrap)) && v.cursor.row + 1 >= v.rows
  }

  /** The operations that scroll are those that make a fresh report say so, on a screen with a row to move. */
  lemma ScrollsIff(v: Vt, op: Op)
    requires VtOk(v) && OpOk(v, op) && v.scrolled == 0 && v.rows > 1
    ensures Scrolls(v, op) <==> Apply(v, op).scrolled == 1
    ensures !Scrolls(v, op) <==> Apply(v, op).scrolled == 0
  {
    match op
    case NewLine => ScrollSteps(v.(wrap := false), 0, 0);
    case Print(_) => ScrollSteps(v.(wrap := false, cursor := v.cursor.(col := 0)), 0, 0);
    case EraseLine(from, end) => PutRowKeeps(v, v.cursor.row, from, end, Blank(v.attr), 0, 0);
    case _ =>
  }

  /** The two halves of faithfulness that hold in the middle of an operation too. */
  ghost predicate Following(v: Vt, was: Frame) {
    VtOk(v) && FrameOk(was, v.cols, v.rows) && Tracks(v, was.grid) && TracksDrawn(v, was.cursor)
  }

  lemma FullStaysFull(v: Vt, v': Vt)
    requires VtOk(v) && VtOk(v') && v'.cols == v.cols && v'.rows == v.rows
    requires IsFull(v) && BoxIn(v.dirty, v'.dirty)
    ensures IsFull(v')
  {
  }

  lemma ScrollFollows(v: Vt, was: Frame)
    requires Following(v, was) && ScrollIsSafe(v)
    ensures Following(ScrollGrid(v), was) && BoxIn(v.dirty, ScrollGrid(v).dirty)
    ensures ScrollGrid(v).cols == v.cols && ScrollGrid(v).rows == v.rows && ScrollGrid(v).cursor == v.cursor
  {
    SafeScrollTracks(v, was.grid);
    if v.scrolled + 1 >= v.rows {
      ScrollAtTheLimit(v);
    } else {
      ScrollSteps(v, 0, 0);
      if IsFull(v) { FullStaysFull(v, ScrollGrid(v)); }
    }
  }

  lemma PutFollows(v: Vt, c: nat, r: nat, cell: Cell, was: Frame)
    requires Following(v, was) && c < v.cols && r < v.rows
    ensures Following(Put(v, c, r, cell), was) && BoxIn(v.dirty, Put(v, c, r, cell).dirty)
    ensures Put(v, c, r, cell).cols == v.cols && Put(v, c, r, cell).rows == v.rows
  {
    forall y: nat, x: nat | y < v.rows && x < v.cols && !InBox(Put(v, c, r, cell).dirty, x, y)
      ensures Put(v, c, r, cell).grid[y][x] == was.grid[Source(y, v.scrolled, v.rows)][x]
    {
      PutKeeps(v, c, r, cell, x, y);
    }
    PutKeeps(v, c, r, cell, 0, 0);
  }

  lemma PutRowFollows(v: Vt, r: nat, from: nat, end: nat, cell: Cell, was: Frame)
    requires Following(v, was) && r < v.rows && from <= end <= v.cols
    ensures Following(PutRow(v, r, from, end, cell), was) && BoxIn(v.dirty, PutRow(v, r, from, end, cell).dirty)
  {
    forall y: nat, x: nat | y < v.rows && x < v.cols && !InBox(PutRow(v, r, from, end, cell).dirty, x, y)
      ensures PutRow(v, r, from, end, cell).grid[y][x] == was.grid[Source(y, v.scrolled, v.rows)][x]
    {
      PutRowKeeps(v, r, from, end, cell, x, y);
    }
    PutRowKeeps(v, r, from, end, cell, 0, 0);
  }

  lemma LineFeedFollows(v: Vt, was: Frame)
    requires Following(v, was) && (v.cursor.row + 1 >= v.rows ==> ScrollIsSafe(v))
    ensures Following(LineFeed(v), was) && BoxIn(v.dirty, LineFeed(v).dirty)
    ensures LineFeed(v).cols == v.cols && LineFeed(v).rows == v.rows
  {
    if v.cursor.row + 1 >= v.rows { ScrollFollows(v, was); }
  }

  /** Moving the cursor, wrapping and changing the rendition record nothing. */
  lemma QuietFollows(v: Vt, v': Vt, was: Frame)
    requires Following(v, was) && VtOk(v')
    requires v' == v.(wrap := v'.wrap, cursor := v'.cursor, attr := v'.attr)
    ensures Following(v', was)
  {
  }

  lemma PrintFollows(v: Vt, ch: nat, was: Frame)
    requires Following(v, was) && (Scrolls(v, Print(ch)) ==> ScrollIsSafe(v))
    ensures Following(Apply(v, Print(ch)), was) && BoxIn(v.dirty, Apply(v, Print(ch)).dirty)
  {
    var start := v.(wrap := false, cursor := v.cursor.(col := 0));
    QuietFollows(v, start, was);
    if v.wrap { LineFeedFollows(start, was); }
    var v1 := if v.wrap then LineFeed(start) else v;
    var v2 := Put(v1, v1.cursor.col, v1.cursor.row, Cell(ch, v1.attr));
    PutFollows(v1, v1.cursor.col, v1.cursor.row, Cell(ch, v1.attr), was);
    QuietFollows(v2, Apply(v, Print(ch)), was);
  }

  lemma ApplyFollows(v: Vt, op: Op, was: Frame)
    requires Following(v, was) && OpOk(v, op) && (Scrolls(v, op) ==> ScrollIsSafe(v))
    ensures Following(Apply(v, op), was) && BoxIn(v.dirty, Apply(v, op).dirty)
  {
    match op {
      case Print(ch) => PrintFollows(v, ch, was);
      case NewLine =>
        QuietFollows(v, v.(wrap := false), was);
        LineFeedFollows(v.(wrap := false), was);
      case MoveTo(_) => QuietFollows(v, Apply(v, op), was);
      case EraseLine(from, end) => PutRowFollows(v, v.cursor.row, from, end, Blank(v.attr), was);
      case EraseAll =>
      case Rendition(_) => QuietFollows(v, Apply(v, op), was);
    }
  }

  /** A larger box keeps every promise a smaller one did. */
  lemma WiderFollows(v: Vt, d: Option<CellRect>, was: Frame)
    requires Following(v, was) && BoxOk(d, v.cols, v.rows) && BoxIn(v.dirty, d)
    ensures Following(v.(dirty := d), was)
  {
    if IsFull(v) { FullStaysFull(v, v.(dirty := d)); }
    forall r: nat, c: nat | r < v.rows && c < v.cols && !InBox(d, c, r)
      ensures v.grid[r][c] == was.grid[Source(r, v.scrolled, v.rows)][c]
    {
      assert !InBox(v.dirty, c, r);
    }
  }

  lemma FeedIsFaithful(v: Vt, op: Op, was: Frame)
    requires Faithful(v, was) && OpOk(v, op) && (Scrolls(v, op) ==> ScrollIsSafe(v))
    ensures Faithful(Feed(v, op), was) && Feed(v, op).cols == v.cols && Feed(v, op).rows == v.rows
  {
    ApplyKeepsShape(v, op);
    ApplyFollows(v, op, was);
    TouchedIsFaithful(v, Apply(v, op), was);
  }

  /** Dirtying a cell covers it and uncovers nothing. */
  lemma AddCellCovers(d: Option<CellRect>, c: nat, r: nat)
    ensures BoxIn(d, AddCell(d, c, r)) && InBox(AddCell(d, c, r), c, r)
  {
  }

  lemma TouchedWidens(v: Vt, left: Spot)
    requires VtOk(v) && OnGrid(left, v.cols, v.rows)
    ensures BoxIn(v.dirty, Touched(v, left).dirty)
    ensures v.cursor != left ==>
      InBox(Touched(v, left).dirty, left.col, left.row) && InBox(Touched(v, left).dirty, v.cursor.col, v.cursor.row)
  {
    AddCellCovers(v.dirty, left.col, left.row);
    AddCellCovers(AddCell(v.dirty, left.col, left.row), v.cursor.col, v.cursor.row);
  }

  lemma TouchedIsFaithful(v: Vt, v1: Vt, was: Frame)
    requires Faithful(v, was) && Following(v1, was) && v1.cols == v.cols && v1.rows == v.rows
    requires BoxIn(v.dirty, v1.dirty)
    ensures Faithful(Touched(v1, v.cursor), was)
  {
    TouchedWidens(v1, v.cursor);
    WiderFollows(v1, Touched(v1, v.cursor).dirty, was);
  }

  /** Every operation is well formed, and every scroll among them is one the guard admits. */
  ghost predicate SafeRun(v: Vt, ops: seq<Op>)
    requires VtOk(v)
    decreases |ops|
  {
    ops == [] || (OpOk(v, ops[0]) && (Scrolls(v, ops[0]) ==> ScrollIsSafe(v)) && SafeRun(Feed(v, ops[0]), ops[1..]))
  }

  ghost predicate OpsOk(v: Vt, ops: seq<Op>)
    requires VtOk(v)
    decreases |ops|
  {
    ops == [] || (OpOk(v, ops[0]) && OpsOk(Feed(v, ops[0]), ops[1..]))
  }

  function FeedAll(v: Vt, ops: seq<Op>): (v': Vt)
    requires VtOk(v) && OpsOk(v, ops)
    ensures VtOk(v')
    decreases |ops|
  {
    if ops == [] then v else FeedAll(Feed(v, ops[0]), ops[1..])
  }

  lemma {:induction false} SafeRunIsFaithful(v: Vt, ops: seq<Op>, was: Frame)
    requires Faithful(v, was) && SafeRun(v, ops)
    ensures OpsOk(v, ops) && Faithful(FeedAll(v, ops), was)
    ensures FeedAll(v, ops).cols == v.cols && FeedAll(v, ops).rows == v.rows
    decreases |ops|
  {
    if ops != [] {
      FeedIsFaithful(v, ops[0], was);
      SafeRunIsFaithful(Feed(v, ops[0]), ops[1..], was);
    }
  }

  // ---- the report -----------------------------------------------------------------------------------------------

  const NO_CELLS: CellRect := CellRect(0, 0, 0, 0)

  /** The box a report names: whatever was recorded, plus both ends of the cursor's move since it was drawn. */
  function ReportBox(v: Vt): Option<CellRect>
    requires VtOk(v)
  {
    if v.drawn == Some(v.cursor) then v.dirty
    else AddCell(if v.drawn.Some? then AddCell(v.dirty, v.drawn.value.col, v.drawn.value.row) else v.dirty,
                 v.cursor.col, v.cursor.row)
  }

  function Report(v: Vt): Option<Presenting.Damage>
    requires VtOk(v)
  {
    var box := ReportBox(v);
    if box.None? && v.scrolled == 0 then None
    else Some(Presenting.Damage(v.scrolled, if box.Some? then box.value else NO_CELLS))
  }

  function Taken(v: Vt): (v': Vt)
    requires VtOk(v)
    ensures VtOk(v')
  {
    v.(dirty := None, scrolled := 0, drawn := Some(v.cursor))
  }

  /** A report is given once: taken, there is nothing to say until something changes. */
  lemma TakenOnce(v: Vt)
    requires VtOk(v)
    ensures Report(Taken(v)).None? && Now(Taken(v)) == Now(v)
  {
  }

  function Now(v: Vt): Frame {
    Frame(v.grid, v.cursor)
  }

  /** From a faithful state the report is true, and taking it starts the next faithful interval. */
  lemma ReportIsTrue(v: Vt, was: Frame)
    requires Faithful(v, was)
    ensures Report(v).None? ==> Now(v) == was
    ensures Report(v).Some? ==> Promise(was, Now(v), v.cols, v.rows, v.scrolled, Report(v).value.rect)
    ensures Faithful(Taken(v), Now(v))
  {
    var box := ReportBox(v);
    if Report(v).None? {
      forall r | 0 <= r < v.rows ensures v.grid[r] == was.grid[r] {
        forall c | 0 <= c < v.cols ensures v.grid[r][c] == was.grid[r][c] {
          assert !InBox(v.dirty, c, r);
        }
      }
    } else {
      assert BoxIn(v.dirty, box);
      var rect := Report(v).value.rect;
      forall r: nat, c: nat | r < v.rows && c < v.cols && !rect.Has(c, r)
        ensures v.grid[r][c] == was.grid[Source(r, v.scrolled, v.rows)][c]
        ensures v.cursor == Spot(c, r) <==> was.cursor == Spot(c, Source(r, v.scrolled, v.rows))
      {
        assert !InBox(box, c, r) && !InBox(v.dirty, c, r);
        CursorIsTrue(v, was, c, r);
      }
    }
  }

  lemma CursorIsTrue(v: Vt, was: Frame, c: nat, r: nat)
    requires Faithful(v, was) && r < v.rows && c < v.cols && !InBox(ReportBox(v), c, r) && !InBox(v.dirty, c, r)
    ensures v.cursor == Spot(c, r) <==> was.cursor == Spot(c, Source(r, v.scrolled, v.rows))
  {
    assert !IsFull(v);
  }

  /** The run-level result: if every scroll since the last report was safe, the next report is true. */
  lemma SafeRunReportsTruly(v: Vt, ops: seq<Op>, was: Frame)
    requires Faithful(v, was) && SafeRun(v, ops)
    ensures OpsOk(v, ops)
    ensures var v' := FeedAll(v, ops);
      && v'.cols == v.cols && v'.rows == v.rows
      && (Report(v').Some? ==> Promise(was, Now(v'), v.cols, v.rows, v'.scrolled, Report(v').value.rect))
      && Faithful(Taken(v'), Now(v'))
  {
    SafeRunIsFaithful(v, ops, was);
    ReportIsTrue(FeedAll(v, ops), was);
  }

  // ---- pixels -------------------------------------------------------------------------------------------------------

  /** How a cell is drawn, with or without the cursor block on it. */
  type Font = (Cell, bool, int, int) -> Pixel

  /** The engine's picture: a total function, blank in the default rendition outside the grid. */
  function PictureOf(f: Frame, font: Font, cols: nat, rows: nat): Surface.Picture
    requires FrameOk(f, cols, rows)
  {
    (x, y) =>
      if 0 <= x / GLYPH_W < cols && 0 <= y / GLYPH_H < rows then
        font(f.grid[y / GLYPH_H][x / GLYPH_W], f.cursor == Spot(x / GLYPH_W, y / GLYPH_H), x % GLYPH_W, y % GLYPH_H)
      else font(Blank(0), false, x % GLYPH_W, y % GLYPH_H)
  }

  /**
   A surface taller than its grid has a strip below it, and a painter that moves the whole surface up brings the
   strip's top over cell row `rows - s`. That is harmless where the row is rendered again, or looks like the strip.
   */
  ghost predicate StripHolds(now: Frame, font: Font, w: nat, h: nat, s: nat, box: CellRect)
    requires FrameOk(now, w / GLYPH_W, h / GLYPH_H)
  {
    0 < s <= h / GLYPH_H ==> RowLooksBlank(now, font, w / GLYPH_W, h / GLYPH_H - s, h % GLYPH_H, box)
  }

  /** Outside the box, the top `high` pixel rows of a cell row look like blanks of the default rendition. */
  ghost predicate RowLooksBlank(now: Frame, font: Font, cols: nat, row: nat, high: nat, box: CellRect)
    requires row < |now.grid| && |now.grid[row]| == cols
  {
    forall c: nat, i: nat, j: nat | c < cols && !box.Has(c, row) && i < GLYPH_W && j < high ::
      LooksBlank(now, font, c, row, i, j)
  }

  predicate LooksBlank(now: Frame, font: Font, c: nat, row: nat, i: nat, j: nat)
    requires row < |now.grid| && c < |now.grid[row]|
  {
    font(now.grid[row][c], now.cursor == Spot(c, row), i, j) == font(Blank(0), false, i, j)
  }

  /** What the painter's move shows at a pixel, for a report true in cells: the new picture, or the strip. */
  lemma MovedPixel(was: Frame, now: Frame, font: Font, w: nat, h: nat, s: nat, box: CellRect, x: nat, y: nat)
    requires FrameOk(was, w / GLYPH_W, h / GLYPH_H) && FrameOk(now, w / GLYPH_W, h / GLYPH_H)
    requires Promise(was, now, w / GLYPH_W, h / GLYPH_H, s, box) && s < h / GLYPH_H
    requires x < w && y < h && (x / GLYPH_W < w / GLYPH_W && y / GLYPH_H < h / GLYPH_H ==> !box.Has(x / GLYPH_W, y / GLYPH_H))
    ensures var cols, rows := w / GLYPH_W, h / GLYPH_H;
      var moved := PictureOf(was, font, cols, rows)(x, if y + s * GLYPH_H < h then y + s * GLYPH_H else y);
      if s > 0 && x / GLYPH_W < cols && y / GLYPH_H == rows - s && y % GLYPH_H < h % GLYPH_H
      then moved == font(Blank(0), false, x % GLYPH_W, y % GLYPH_H)
      else moved == PictureOf(now, font, cols, rows)(x, y)
  {
    var cols, rows := w / GLYPH_W, h / GLYPH_H;
    var c, r := x / GLYPH_W, y / GLYPH_H;
    ShiftedRow(y, h, s);
    if c < cols && r < rows && (y + s * GLYPH_H < h ==> r + s < rows) {
      assert now.grid[r][c] == was.grid[Source(r, s, rows)][c];
    }
  }

  /** Pixel row arithmetic: a shift by whole cells moves the cell row and keeps the row within it. */
  lemma ShiftedRow(y: nat, h: nat, s: nat)
    requires y < h
    ensures (y + s * GLYPH_H) / GLYPH_H == y / GLYPH_H + s && (y + s * GLYPH_H) % GLYPH_H == y % GLYPH_H
    ensures y / GLYPH_H + s < h / GLYPH_H ==> y + s * GLYPH_H < h
    ensures y / GLYPH_H + s > h / GLYPH_H ==> y + s * GLYPH_H >= h
    ensures y / GLYPH_H + s == h / GLYPH_H ==> (y + s * GLYPH_H < h <==> y % GLYPH_H < h % GLYPH_H)
  {
  }

  lemma BoxInPixels(box: CellRect, w: nat, h: nat, x: nat, y: nat)
    requires w <= 0x1000_0000 && h <= 0x1000_0000 && box.Within(w / GLYPH_W, h / GLYPH_H) && x < w && y < h
    ensures box.ToPixels().Contains(Point(x, y)) <==> box.Has(x / GLYPH_W, y / GLYPH_H)
  {
  }

  /** A promise kept cell by cell is kept pixel by pixel if and only if the strip does no harm. */
  lemma PromiseInPixels(was: Frame, now: Frame, font: Font, w: nat, h: nat, s: nat, box: CellRect)
    requires w <= 0x1000_0000 && h <= 0x1000_0000 && box.Within(w / GLYPH_W, h / GLYPH_H) && s < h / GLYPH_H
    requires FrameOk(was, w / GLYPH_W, h / GLYPH_H) && FrameOk(now, w / GLYPH_W, h / GLYPH_H)
    requires Promise(was, now, w / GLYPH_W, h / GLYPH_H, s, box)
    ensures Presenting.DamageContract(PictureOf(was, font, w / GLYPH_W, h / GLYPH_H),
                                      PictureOf(now, font, w / GLYPH_W, h / GLYPH_H),
                                      w, h, s * GLYPH_H, box.ToPixels())
            <==> StripHolds(now, font, w, h, s, box)
  {
    var cols, rows := w / GLYPH_W, h / GLYPH_H;
    var old_, new_ := PictureOf(was, font, cols, rows), PictureOf(now, font, cols, rows);
    if StripHolds(now, font, w, h, s, box) {
      forall y: nat, x: nat | y < h && x < w && !box.ToPixels().Contains(Point(x, y))
        ensures new_(x, y) == old_(x, if y + s * GLYPH_H < h then y + s * GLYPH_H else y)
      {
        BoxInPixels(box, w, h, x, y);
        MovedPixel(was, now, font, w, h, s, box, x, y);
        var c, r := x / GLYPH_W, y / GLYPH_H;
        if s > 0 && c < cols && r == rows - s && y % GLYPH_H < h % GLYPH_H {
          assert LooksBlank(now, font, c, r, x % GLYPH_W, y % GLYPH_H);
        }
      }
    }
    if Presenting.DamageContract(old_, new_, w, h, s * GLYPH_H, box.ToPixels()) && s > 0 {
      var row := rows - s;
      forall c: nat, i: nat, j: nat | c < cols && !box.Has(c, row) && i < GLYPH_W && j < h % GLYPH_H
        ensures LooksBlank(now, font, c, row, i, j)
      {
        StripPixel(was, now, font, w, h, s, box, c, i, j);
      }
    }
  }

  lemma PixelOf(c: nat, i: nat, r: nat, j: nat)
    requires i < GLYPH_W && j < GLYPH_H
    ensures (c * GLYPH_W + i) / GLYPH_W == c && (c * GLYPH_W + i) % GLYPH_W == i
    ensures (r * GLYPH_H + j) / GLYPH_H == r && (r * GLYPH_H + j) % GLYPH_H == j
  {
  }

  lemma StripPixel(was: Frame, now: Frame, font: Font, w: nat, h: nat, s: nat, box: CellRect, c: nat, i: nat, j: nat)
    requires w <= 0x1000_0000 && h <= 0x1000_0000 && box.Within(w / GLYPH_W, h / GLYPH_H) && 0 < s < h / GLYPH_H
    requires FrameOk(was, w / GLYPH_W, h / GLYPH_H) && FrameOk(now, w / GLYPH_W, h / GLYPH_H)
    requires Promise(was, now, w / GLYPH_W, h / GLYPH_H, s, box)
    requires Presenting.DamageContract(PictureOf(was, font, w / GLYPH_W, h / GLYPH_H),
                                       PictureOf(now, font, w / GLYPH_W, h / GLYPH_H), w, h, s * GLYPH_H, box.ToPixels())
    requires c < w / GLYPH_W && !box.Has(c, h / GLYPH_H - s) && i < GLYPH_W && j < h % GLYPH_H
    ensures LooksBlank(now, font, c, h / GLYPH_H - s, i, j)
  {
    var cols, rows := w / GLYPH_W, h / GLYPH_H;
    var x, y := c * GLYPH_W + i, (rows - s) * GLYPH_H + j;
    PixelOf(c, i, rows - s, j);
    assert x < w && y < h;
    BoxInPixels(box, w, h, x, y);
    MovedPixel(was, now, font, w, h, s, box, x, y);
    assert PictureOf(now, font, cols, rows)(x, y) == font(now.grid[rows - s][c], now.cursor == Spot(c, rows - s), i, j);
  }

  // ---- which reports are safe to move a surface by, whatever is on it -----------------------------------------------

  predicate CoversRow(box: CellRect, row: nat, cols: nat) {
    box.col == 0 && box.cols == cols && box.row <= row < box.row + box.rows
  }

  predicate EmptyBox(box: CellRect) {
    box.cols == 0 || box.rows == 0
  }

  /** Every report of this scroll and box that is true in cells is true in pixels. */
  ghost predicate PixelSafe(w: nat, h: nat, s: nat, box: CellRect) {
    forall was: Frame, now: Frame, font: Font |
      && FrameOk(was, w / GLYPH_W, h / GLYPH_H) && FrameOk(now, w / GLYPH_W, h / GLYPH_H)
      && Promise(was, now, w / GLYPH_W, h / GLYPH_H, s, box) ::
      Presenting.DamageContract(PictureOf(was, font, w / GLYPH_W, h / GLYPH_H),
                                PictureOf(now, font, w / GLYPH_W, h / GLYPH_H), w, h, s * GLYPH_H, box.ToPixels())
  }

  /** A screen of one cell throughout, with the cursors of a true report. */
  lemma UniformPromise(cols: nat, rows: nat, s: nat, box: CellRect, cell: Cell) returns (was: Frame, now: Frame)
    requires 0 < cols && 0 < s < rows && box.Within(cols, rows) && !(EmptyBox(box) && 2 * s == rows)
    ensures FrameOk(was, cols, rows) && FrameOk(now, cols, rows) && Promise(was, now, cols, rows, s, box)
    ensures forall r, c :: 0 <= r < rows && 0 <= c < cols ==> now.grid[r][c] == cell
  {
    var g := Uniform(cols, rows, cell, Spot(0, 0), cell);
    if !EmptyBox(box) {
      was, now := Frame(g, Spot(0, 0)), Frame(g, Spot(box.col, box.row));
    } else if 2 * s < rows {
      was, now := Frame(g, Spot(0, s)), Frame(g, Spot(0, 0));
    } else {
      was, now := Frame(g, Spot(0, rows - s)), Frame(g, Spot(0, rows - s));
    }
  }

  /** Half a screen scrolled with an empty box: the cursor is nowhere or twice on the moved picture. */
  lemma NoEmptyReportOfHalf(was: Frame, now: Frame, cols: nat, rows: nat, s: nat, box: CellRect)
    requires FrameOk(was, cols, rows) && FrameOk(now, cols, rows) && EmptyBox(box) && 0 < 2 * s == rows
    ensures !Promise(was, now, cols, rows, s, box)
  {
    var at := was.cursor;
    var here := if at.row < s then now.cursor else if now.cursor == at then Spot(at.col, at.row - s) else at;
    assert !box.Has(here.col, here.row) && here.col < |now.grid[here.row]|;
    assert !(now.cursor == here <==> was.cursor == Spot(here.col, Source(here.row, s, rows)));
  }

  /**
   The exact condition, on the report and the surface's height alone: nothing scrolled, no strip, the whole row
   the strip moves onto rendered again, or a report no screen can make true.
   */
  lemma PixelSafeIff(w: nat, h: nat, s: nat, box: CellRect)
    requires GLYPH_W <= w <= 0x1000_0000 && h <= 0x1000_0000 && box.Within(w / GLYPH_W, h / GLYPH_H) && s < h / GLYPH_H
    ensures PixelSafe(w, h, s, box) <==>
      || s == 0 || h % GLYPH_H == 0 || CoversRow(box, h / GLYPH_H - s, w / GLYPH_W)
      || (EmptyBox(box) && 2 * s == h / GLYPH_H)
  {
    var cols, rows := w / GLYPH_W, h / GLYPH_H;
    if s == 0 || h % GLYPH_H == 0 || CoversRow(box, rows - s, cols) || (EmptyBox(box) && 2 * s == rows) {
      forall was: Frame, now: Frame, font: Font |
        FrameOk(was, cols, rows) && FrameOk(now, cols, rows) && Promise(was, now, cols, rows, s, box)
        ensures Presenting.DamageContract(PictureOf(was, font, cols, rows), PictureOf(now, font, cols, rows),
                                          w, h, s * GLYPH_H, box.ToPixels())
      {
        if EmptyBox(box) && 0 < 2 * s == rows { NoEmptyReportOfHalf(was, now, cols, rows, s, box); }
        PromiseInPixels(was, now, font, w, h, s, box);
      }
    } else {
      StripBreaks(w, h, s, box);
    }
  }

  lemma StripBreaks(w: nat, h: nat, s: nat, box: CellRect)
    requires GLYPH_W <= w <= 0x1000_0000 && h <= 0x1000_0000 && box.Within(w / GLYPH_W, h / GLYPH_H) && 0 < s < h / GLYPH_H
    requires h % GLYPH_H != 0 && !CoversRow(box, h / GLYPH_H - s, w / GLYPH_W) && !(EmptyBox(box) && 2 * s == h / GLYPH_H)
    ensures !PixelSafe(w, h, s, box)
  {
    var cols, rows := w / GLYPH_W, h / GLYPH_H;
    var was, now := UniformPromise(cols, rows, s, box, X);
    var font: Font := (cell, block, i, j) => if cell == X then 1 else 0;
    StripShows(now, font, cols, rows - s, h % GLYPH_H, box);
    PromiseInPixels(was, now, font, w, h, s, box);
    assert !Presenting.DamageContract(PictureOf(was, font, cols, rows), PictureOf(now, font, cols, rows),
                                      w, h, s * GLYPH_H, box.ToPixels());
  }

  lemma StripShows(now: Frame, font: Font, cols: nat, row: nat, high: nat, box: CellRect)
    requires row < |now.grid| && |now.grid[row]| == cols && high > 0 && box.col + box.cols <= cols && cols > 0
    requires !CoversRow(box, row, cols) && font(X, true, 0, 0) == font(X, false, 0, 0) != font(Blank(0), false, 0, 0)
    requires forall c :: 0 <= c < cols ==> now.grid[row][c] == X
    ensures !RowLooksBlank(now, font, cols, row, high, box)
  {
    var c := if box.row <= row < box.row + box.rows && box.col == 0 then box.cols else 0;
    assert !box.Has(c, row) && now.grid[row][c] == X;
    assert !LooksBlank(now, font, c, row, 0, 0);
  }

  /**
   End to end: a surface that showed the last reported frame shows the current one after a present, whatever was
   printed in between and whatever the surface's height, if every scroll was safe, exactly when the strip does no
   harm; which is certain when nothing scrolled, there is no strip, or the report covers the row it moves onto.
   */
  lemma SafeRunPresentsThePicture(v: Vt, ops: seq<Op>, was: Frame, font: Font, m0: seq<Pixel>, m2: seq<Pixel>,
                                  stride: nat, w: nat, h: nat, blank: Pixel, out: Rect)
    requires Faithful(v, was) && SafeRun(v, ops) && OpsOk(v, ops)
    requires v.cols == w / GLYPH_W && v.rows == h / GLYPH_H && w <= 0x1000_0000 && h <= 0x1000_0000
    requires var v' := FeedAll(v, ops);
      FrameOk(Now(v'), v.cols, v.rows) && Report(v').Some?
      && Presenting.Rendered(m2, m0, stride, w, h, false, Report(v').value, PictureOf(was, font, v.cols, v.rows),
                             PictureOf(Now(v'), font, v.cols, v.rows), blank, out)
    ensures var v' := FeedAll(v, ops);
      && (Presenting.Shows(m2, stride, w, h, PictureOf(Now(v'), font, v.cols, v.rows))
          <==> StripHolds(Now(v'), font, w, h, v'.scrolled, Report(v').value.rect))
      && (v'.scrolled == 0 || h % GLYPH_H == 0 || CoversRow(Report(v').value.rect, v.rows - v'.scrolled, v.cols) ==>
            StripHolds(Now(v'), font, w, h, v'.scrolled, Report(v').value.rect))
  {
    SafeRunIsFaithful(v, ops, was);
    PresentedIff(FeedAll(v, ops), was, font, m0, m2, stride, w, h, blank, out);
  }

  lemma PresentedIff(v: Vt, was: Frame, font: Font, m0: seq<Pixel>, m2: seq<Pixel>, stride: nat, w: nat, h: nat,
                     blank: Pixel, out: Rect)
    requires Faithful(v, was) && Report(v).Some?
    requires v.cols == w / GLYPH_W && v.rows == h / GLYPH_H && w <= 0x1000_0000 && h <= 0x1000_0000
    requires Presenting.Rendered(m2, m0, stride, w, h, false, Report(v).value, PictureOf(was, font, v.cols, v.rows),
                                 PictureOf(Now(v), font, v.cols, v.rows), blank, out)
    ensures Presenting.Shows(m2, stride, w, h, PictureOf(Now(v), font, v.cols, v.rows))
            <==> StripHolds(Now(v), font, w, h, v.scrolled, Report(v).value.rect)
    ensures v.scrolled == 0 || h % GLYPH_H == 0 || CoversRow(Report(v).value.rect, v.rows - v.scrolled, v.cols) ==>
      StripHolds(Now(v), font, w, h, v.scrolled, Report(v).value.rect)
  {
    ReportIsTrue(v, was);
    ReportWithin(v);
    PromiseInPixels(was, Now(v), font, w, h, v.scrolled, Report(v).value.rect);
  }

  lemma ReportWithin(v: Vt)
    requires VtOk(v) && Report(v).Some?
    ensures Report(v).value.rect.Within(v.cols, v.rows) && Report(v).value.scrolled < v.rows
  {
  }

  // ---- the failing runs ------------------------------------------------------------------------------------------------

  const X: Cell := Cell(88, 0)
  const B: Cell := Blank(0)

  /** A 2 by 3 terminal just after a report, cursor on the bottom row. */
  function Settled(g: Grid): Vt {
    Vt(2, 3, g, Spot(0, 2), false, 0, None, 0, Some(Spot(0, 2)))
  }

  /** Draw in the middle, return to the bottom, feed one line: the drawn cell moves up out of its box. */
  lemma DrawThenScrollMisreports()
    ensures var v := Settled([[B, B], [B, B], [B, B]]);
      var ops := [MoveTo(Spot(1, 1)), Print(88), MoveTo(Spot(0, 2)), NewLine];
      && Faithful(v, Now(v)) && OpsOk(v, ops) && !SafeRun(v, ops)
      && var v' := FeedAll(v, ops);
         Report(v').Some? && v'.cols == 2 && v'.rows == 3
         && !Promise(Now(v), Now(v'), 2, 3, v'.scrolled, Report(v').value.rect)
  {
    var v, v1, v2, v3, v4 := Settled([[B, B], [B, B], [B, B]]), Drawn1(), Drawn2(), Drawn3(), Drawn4();
    DrawnSteps();
    var o1, o2, o3, o4 := MoveTo(Spot(1, 1)), Print(88), MoveTo(Spot(0, 2)), NewLine;
    FeedOne(v3, v4, o4, []);
    FeedOne(v2, v3, o3, [o4] + []);
    FeedOne(v1, v2, o2, [o3] + ([o4] + []));
    FeedOne(v, v1, o1, [o2] + ([o3] + ([o4] + [])));
    assert [o1] + ([o2] + ([o3] + ([o4] + []))) == [o1, o2, o3, o4];
    DrawnUnsafe();
    DrawnMisreports();
  }

  function Drawn1(): Vt {
    Settled([[B, B], [B, B], [B, B]]).(cursor := Spot(1, 1), dirty := Some(CellRect(0, 1, 2, 2)))
  }

  function Drawn2(): Vt {
    Drawn1().(grid := [[B, B], [B, X], [B, B]], wrap := true)
  }

  function Drawn3(): Vt {
    Drawn2().(wrap := false, cursor := Spot(0, 2))
  }

  function Drawn4(): Vt {
    Drawn3().(grid := [[B, X], [B, B], [B, B]], scrolled := 1, drawn := Some(Spot(0, 1)))
  }

  lemma DrawnSteps()
    ensures VtOk(Settled([[B, B], [B, B], [B, B]])) && VtOk(Drawn1()) && VtOk(Drawn2()) && VtOk(Drawn3())
    ensures Feed(Settled([[B, B], [B, B], [B, B]]), MoveTo(Spot(1, 1))) == Drawn1()
    ensures Feed(Drawn1(), Print(88)) == Drawn2() && Feed(Drawn2(), MoveTo(Spot(0, 2))) == Drawn3()
    ensures Feed(Drawn3(), NewLine) == Drawn4()
  {
    var v1, v2, v3, v4 := Drawn1(), Drawn2(), Drawn3(), Drawn4();
    assert v1.grid[1][1 := X] == [B, X] && v1.grid[1 := [B, X]] == v2.grid;
    assert Put(v1, 1, 1, X) == v2.(wrap := false);
    assert MovedUp(v3.grid) == v4.grid;
    PutRowSame(v3.(grid := v4.grid), 2, 0, 2, B);
  }

  lemma DrawnUnsafe()
    ensures var v := Settled([[B, B], [B, B], [B, B]]);
      Faithful(v, Now(v)) && !SafeRun(v, [MoveTo(Spot(1, 1)), Print(88), MoveTo(Spot(0, 2)), NewLine])
  {
    var v, v1, v2, v3 := Settled([[B, B], [B, B], [B, B]]), Drawn1(), Drawn2(), Drawn3();
    DrawnSteps();
    var o1, o2, o3, o4 := MoveTo(Spot(1, 1)), Print(88), MoveTo(Spot(0, 2)), NewLine;
    assert !ScrollIsSafe(v3) && !SafeRun(v3, [o4]);
    assert [o3, o4][1..] == [o4] && !SafeRun(v2, [o3, o4]);
    assert [o2, o3, o4][1..] == [o3, o4] && !SafeRun(v1, [o2, o3, o4]);
    assert [o1, o2, o3, o4][1..] == [o2, o3, o4];
  }

  lemma DrawnMisreports()
    ensures var v, v4 := Settled([[B, B], [B, B], [B, B]]), Drawn4();
      && VtOk(v4) && Report(v4).Some? && v4.cols == 2 && v4.rows == 3
      && !Promise(Now(v), Now(v4), 2, 3, v4.scrolled, Report(v4).value.rect)
  {
    assert Now(Drawn4()).grid[0][1] == X && !Report(Drawn4()).value.rect.Has(1, 0);
  }

  /** Three rows with text in the middle, after one line feed and after two. */
  function TextAbove(): Vt {
    Settled([[B, B], [X, X], [B, B]])
  }

  function FedOnce(): Vt {
    TextAbove().(grid := [[X, X], [B, B], [B, B]], scrolled := 1,
                 drawn := Some(Spot(0, 1)), dirty := Some(CellRect(0, 1, 1, 1)))
  }

  function FedTwice(): Vt {
    FedOnce().(grid := [[B, B], [B, B], [B, B]], scrolled := 2, drawn := Some(Spot(0, 0)), dirty := Some(CellRect(0, 0, 1, 2)))
  }

  lemma FirstFeed()
    ensures Feed(TextAbove(), NewLine) == FedOnce()
  {
    var v, v1 := TextAbove(), FedOnce();
    assert MovedUp(v.grid) == v1.grid;
    PutRowSame(v.(grid := v1.grid), 2, 0, 2, B);
  }

  lemma SecondFeed()
    ensures Feed(FedOnce(), NewLine) == FedTwice()
  {
    var v1, v2 := FedOnce(), FedTwice();
    assert MovedUp(v1.grid) == v2.grid;
    PutRowSame(v1.(grid := v2.grid), 2, 0, 2, B);
  }

  /** Feed two lines over a blank bottom row: the row above keeps its old text on the surface. */
  lemma TwoLineFeedsMisreport()
    ensures var v := TextAbove();
      var ops := [NewLine, NewLine];
      && Faithful(v, Now(v)) && OpsOk(v, ops) && !SafeRun(v, ops)
      && var v' := FeedAll(v, ops);
         Report(v').Some? && v'.cols == 2 && v'.rows == 3
         && !Promise(Now(v), Now(v'), 2, 3, v'.scrolled, Report(v').value.rect)
  {
    FirstFeed();
    SecondFeed();
    FeedOne(FedOnce(), FedTwice(), NewLine, []);
    FeedOne(TextAbove(), FedOnce(), NewLine, [NewLine] + []);
    assert [NewLine] + ([NewLine] + []) == [NewLine, NewLine];
    TwoFeedsUnsafe();
    FedTwiceMisreports();
  }

  lemma FeedOne(v: Vt, v1: Vt, op: Op, rest: seq<Op>)
    requires VtOk(v) && OpOk(v, op) && Feed(v, op) == v1 && OpsOk(v1, rest)
    ensures OpsOk(v, [op] + rest) && FeedAll(v, [op] + rest) == FeedAll(v1, rest)
  {
    var ops := [op] + rest;
    assert ops[0] == op && ops[1..] == rest;
  }

  lemma TwoFeedsUnsafe()
    requires Feed(TextAbove(), NewLine) == FedOnce()
    ensures Faithful(TextAbove(), Now(TextAbove())) && OpsOk(TextAbove(), [NewLine, NewLine])
    ensures !SafeRun(TextAbove(), [NewLine, NewLine])
  {
    assert [NewLine, NewLine][1..] == [NewLine];
  }

  lemma FedTwiceMisreports()
    ensures var v, v2 := TextAbove(), FedTwice();
      && Report(v2).Some? && v2.cols == 2 && v2.rows == 3
      && !Promise(Now(v), Now(v2), 2, 3, v2.scrolled, Report(v2).value.rect)
  {
    var v2 := FedTwice();
    assert Now(v2).grid[1][1] == B && !Report(v2).value.rect.Has(1, 1);
  }

  const TINTED: Cell := Cell(SPACE, 1)

  /** A 2 by 2 terminal cleared in another background, just after a report. */
  function Tinted(): Vt {
    Vt(2, 2, [[TINTED, TINTED], [TINTED, TINTED]], Spot(0, 1), false, 1, None, 0, Some(Spot(0, 1)))
  }

  function TintedFed(): Vt {
    Tinted().(scrolled := 1, drawn := Some(Spot(0, 0)), dirty := Some(CellRect(0, 0, 1, 1)))
  }

  lemma TintedFeed()
    ensures Feed(Tinted(), NewLine) == TintedFed()
  {
    var v := Tinted();
    assert MovedUp(v.grid) == v.grid;
    PutRowSame(v, 1, 0, 2, TINTED);
    assert ScrollGrid(v) == ScrollDamage(v);
  }

  /**
   One line feed there is a safe run, and its report is true in cells; but on a surface with a strip below the
   grid, in any font that shows the background, the right cell of the bottom row takes the strip's colour.
   */
  lemma BottomStripMisreports(font: Font, extra: nat)
    requires font(TINTED, false, 0, 0) != font(Blank(0), false, 0, 0) && 0 < extra < GLYPH_H
    ensures var v, v' := Tinted(), TintedFed();
      && Faithful(v, Now(v)) && OpsOk(v, [NewLine]) && SafeRun(v, [NewLine]) && FeedAll(v, [NewLine]) == v'
      && FrameOk(Now(v), 2, 2) && FrameOk(Now(v'), 2, 2)
      && Report(v') == Some(Presenting.Damage(1, CellRect(0, 0, 1, 2)))
      && Promise(Now(v), Now(v'), 2, 2, 1, CellRect(0, 0, 1, 2))
    ensures !Presenting.DamageContract(PictureOf(Now(Tinted()), font, 2, 2), PictureOf(Now(TintedFed()), font, 2, 2),
                                       2 * GLYPH_W, 2 * GLYPH_H + extra, GLYPH_H, CellRect(0, 0, 1, 2).ToPixels())
  {
    TintedRun();
    TintedMisreports(font, extra);
  }

  lemma TintedMisreports(font: Font, extra: nat)
    requires font(TINTED, false, 0, 0) != font(Blank(0), false, 0, 0) && 0 < extra < GLYPH_H
    requires FrameOk(Now(Tinted()), 2, 2) && FrameOk(Now(TintedFed()), 2, 2)
    ensures !Presenting.DamageContract(PictureOf(Now(Tinted()), font, 2, 2), PictureOf(Now(TintedFed()), font, 2, 2),
                                       2 * GLYPH_W, 2 * GLYPH_H + extra, GLYPH_H, CellRect(0, 0, 1, 2).ToPixels())
  {
    TintedReports();
    assert Now(TintedFed()) == Now(Tinted());
    TintedStrip(Now(Tinted()), font, 2 * GLYPH_H + extra);
  }

  lemma TintedStrip(f: Frame, font: Font, h: nat)
    requires font(TINTED, false, 0, 0) != font(Blank(0), false, 0, 0) && h / GLYPH_H == 2 && 2 * GLYPH_H < h
    requires FrameOk(f, 2, 2) && f.grid[1][1] == TINTED && f.cursor == Spot(0, 1)
    requires Promise(f, f, 2, 2, 1, CellRect(0, 0, 1, 2))
    ensures !Presenting.DamageContract(PictureOf(f, font, 2, 2), PictureOf(f, font, 2, 2),
                                       2 * GLYPH_W, h, GLYPH_H, CellRect(0, 0, 1, 2).ToPixels())
  {
    var box := CellRect(0, 0, 1, 2);
    PromiseInPixels(f, f, font, 2 * GLYPH_W, h, 1, box);
    assert !box.Has(1, 1) && !LooksBlank(f, font, 1, 1, 0, 0);
    assert !RowLooksBlank(f, font, 2, 1, h % GLYPH_H, box);
  }

  lemma TintedRun()
    ensures var v, v' := Tinted(), TintedFed();
      && Faithful(v, Now(v)) && OpsOk(v, [NewLine]) && SafeRun(v, [NewLine]) && FeedAll(v, [NewLine]) == v'
      && FrameOk(Now(v'), 2, 2) && Report(v') == Some(Presenting.Damage(1, CellRect(0, 0, 1, 2)))
      && Promise(Now(v), Now(v'), 2, 2, 1, CellRect(0, 0, 1, 2))
  {
    var v, v' := Tinted(), TintedFed();
    TintedFeed();
    TintedStarts();
    FeedOne(v, v', NewLine, []);
    assert [NewLine] + [] == [NewLine];
    TintedReports();
  }

  lemma TintedReports()
    ensures var v, v' := Tinted(), TintedFed();
      && FrameOk(Now(v), 2, 2) && FrameOk(Now(v'), 2, 2) && Report(v') == Some(Presenting.Damage(1, CellRect(0, 0, 1, 2)))
      && Promise(Now(v), Now(v'), 2, 2, 1, CellRect(0, 0, 1, 2))
  {
    assert AddCell(AddCell(TintedFed().dirty, 0, 0), 0, 1) == Some(CellRect(0, 0, 1, 2));
  }

  lemma TintedStarts()
    ensures Faithful(Tinted(), Now(Tinted())) && ScrollIsSafe(Tinted()) && SafeRun(Tinted(), [NewLine])
  {
    assert [NewLine][1..] == [];
  }

  lemma {:induction false} FeedAllKeepsShape(v: Vt, ops: seq<Op>)
    requires VtOk(v) && OpsOk(v, ops)
    ensures FeedAll(v, ops).cols == v.cols && FeedAll(v, ops).rows == v.rows
    decreases |ops|
  {
    if ops != [] {
      ApplyKeepsShape(v, ops[0]);
      FeedAllKeepsShape(Feed(v, ops[0]), ops[1..]);
    }
  }

  /** No run is past saving, so a run's safety is not necessary: clearing the screen makes the next report true again. */
  lemma ClearingRecovers(v: Vt, ops: seq<Op>, was: Frame)
    requires VtOk(v) && OpsOk(v, ops) && FrameOk(was, v.cols, v.rows)
    ensures Faithful(Feed(FeedAll(v, ops), EraseAll), was)
  {
    FeedAllKeepsShape(v, ops);
    var u := FeedAll(v, ops);
    assert Apply(u, EraseAll).cursor == u.cursor && IsFull(Apply(u, EraseAll));
  }
}
