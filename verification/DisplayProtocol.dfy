/**
 The compositor and its terminals as interleaved processes. A step is one shared-memory access: one
 pixel store, one control-page word, one composited pixel. Every order of those steps is a run, so a
 compositor may read a rectangle a terminal is half-way through storing, and `ACKED` is written before
 the pixels it acknowledges reach the screen.
 */
module DisplayProtocol {
  import opened ScreenGeometry
  import opened Raster

  /** The fixed scene: the screen's size, the windows in stacking order, and what lies beneath them. */
  datatype Scene = Scene(width: nat, height: nat, windows: seq<Window>, background: Point -> Pixel)

  predicate SceneOk(sc: Scene) {
    && sc.width <= I32_MAX && sc.height <= I32_MAX
    && forall i :: 0 <= i < |sc.windows| ==> WindowOk(sc.windows[i])
  }

  /** A terminal refuses a surface too small for one character. */
  predicate WindowOk(win: Window) {
    win.Sane() && win.w >= GLYPH_W && win.h >= GLYPH_H
  }

  function ScreenRect(sc: Scene): Rect {
    Rect(0, 0, sc.width, sc.height)
  }

  // ---- the terminal's half ----------------------------------------------------------------------

  type FourWords = ws: seq<int> | |ws| == 4 witness [0, 0, 0, 0]

  /** The words of one client's control page that both sides touch. */
  datatype Control = Control(seqWord: nat, acked: nat, damage: FourWords)

  datatype TerminalPc =
    | Idle
    | Painting(cells: CellRect)                 // damage taken, pixels being stored
    | Publishing(stored: nat, out: Rect)        // ACKED read; `stored` of the four words are out
    | Blocked                                   // in CALL(COMMIT)

  datatype Terminal = Terminal(
    pc: TerminalPc,
    surface: map<Point, Pixel>,
    seqNo: nat,
    pending: Option<CellRect>,
    ctl: Control)

  function GridCols(win: Window): nat { win.w / GLYPH_W }
  function GridRows(win: Window): nat { win.h / GLYPH_H }

  /** The cells the next publication names: a frame not yet acknowledged is carried forward. */
  function Carried(pending: Option<CellRect>, acked: nat, seqNo: nat, cells: CellRect): CellRect {
    if pending.Some? && acked != seqNo then pending.value.Union(cells) else cells
  }

  function WordsOf(r: Rect): FourWords {
    [r.x, r.y, r.w, r.h]
  }

  /** The four words as the compositor assembles them. */
  function RectOf(words: FourWords): Rect {
    Rect(AsI32(words[0]), AsI32(words[1]), Length(0, words[2]), Length(0, words[3]))
  }

  /** The rectangle the terminal's last completed publication named. */
  function Published(t: Terminal, win: Window): Rect {
    if t.seqNo <= 1 || t.pending.None? then win.Bounds() else t.pending.value.ToPixels()
  }

  predicate Resting(pc: TerminalPc) {
    !pc.Publishing?
  }

  // ---- the compositor's half --------------------------------------------------------------------

  datatype CompositorPc =
    | Waiting
    | AtClient(next: nat)                       // about to load client `next`'s sequence
    | Reading(i: nat, regs: seq<int>)           // a new sequence was seen; words loaded so far
    | Marking(j: nat)                           // damage accumulated; ACKED not yet stored
    | Compositing(todo: set<Point>)             // pixels of the frame's damage not yet copied

  datatype Compositor = Compositor(
    pc: CompositorPc,
    damage: Rect,
    lastSeq: seq<nat>,
    committed: seq<bool>,
    caller: Option<nat>,
    screen: map<Point, Pixel>)

  datatype State = State(terms: seq<Terminal>, comp: Compositor)

  /** The topmost committed window among the first `n` that covers `p`. */
  function Top(sc: Scene, committed: seq<bool>, n: nat, p: Point): Option<nat>
    requires n <= |sc.windows| && n <= |committed|
  {
    if n == 0 then None
    else if committed[n - 1] && sc.windows[n - 1].OnScreen().Contains(p) then Some(n - 1)
    else Top(sc, committed, n - 1, p)
  }

  ghost predicate Shaped(sc: Scene, s: State) {
    && SceneOk(sc)
    && |s.terms| == |sc.windows| == |s.comp.lastSeq| == |s.comp.committed|
    && (forall p :: p in s.comp.screen.Keys <==> ScreenRect(sc).Contains(p))
    && (forall i, q :: 0 <= i < |s.terms| ==>
          (q in s.terms[i].surface.Keys <==> sc.windows[i].Bounds().Contains(q)))
    && (s.comp.caller.Some? ==> s.comp.caller.value < |s.terms|)
    && match s.comp.pc
       case AtClient(n) => n <= |s.terms|
       case Reading(i, regs) => i < |s.terms| && |regs| <= 4
       case Marking(i) => i < |s.terms|
       case _ => true
  }

  /** Full recomposition: what the screen holds if every pixel is copied now. */
  ghost function Recomposed(sc: Scene, s: State, p: Point): Pixel
    requires Shaped(sc, s)
  {
    match Top(sc, s.comp.committed, |sc.windows|, p)
    case None => sc.background(p)
    case Some(i) =>
      TopIn(sc, s.comp.committed, |sc.windows|, p);
      assert sc.windows[i].Bounds().Contains(sc.windows[i].Local(p));
      s.terms[i].surface[sc.windows[i].Local(p)]
  }

  lemma TopIn(sc: Scene, committed: seq<bool>, n: nat, p: Point)
    requires SceneOk(sc) && n <= |sc.windows| && n <= |committed|
    ensures var t := Top(sc, committed, n, p);
      t.Some? ==> t.value < n && committed[t.value] && sc.windows[t.value].OnScreen().Contains(p)
  {
  }

  // ---- steps ------------------------------------------------------------------------------------

  datatype Action =
    | Take(i: nat, cells: CellRect)
    | Store(i: nat, q: Point, v: Pixel)
    | ReadAck(i: nat)
    | StoreWord(i: nat)
    | StoreSeq(i: nat, ring: bool)
    | Receive(from: Option<nat>)
    | LoadSeq
    | LoadWord
    | Accumulate
    | Acknowledge
    | EndScan
    | CopyPixel(p: Point)
    | Answer

  /** A step a terminal can take on its own. */
  ghost predicate TerminalEnabled(win: Window, t: Terminal, a: Action) {
    match a
    case Take(_, cells) =>
      t.pc.Idle? && cells.Within(GridCols(win), GridRows(win))
    // A present changes pixel values only under the cells it reports; the first one paints everything.
    case Store(_, q, v) =>
      t.pc.Painting? && q in t.surface
      && (t.seqNo == 0 || t.surface[q] == v || t.pc.cells.ToPixels().Contains(q))
    case ReadAck(_) => t.pc.Painting?
    case StoreWord(_) => t.pc.Publishing? && t.pc.stored < 4
    // The start-up present always rings.
    case StoreSeq(_, ring) => t.pc.Publishing? && t.pc.stored == 4 && (t.seqNo == 0 ==> ring)
    case _ => false
  }

  ghost function TerminalStep(win: Window, t: Terminal, a: Action): Terminal
    requires TerminalEnabled(win, t, a)
  {
    match a
    case Take(_, cells) => t.(pc := Painting(cells))
    case Store(_, q, v) => t.(surface := t.surface[q := v])
    case ReadAck(_) =>
      var d := Carried(t.pending, t.ctl.acked, t.seqNo, t.pc.cells);
      t.(pending := Some(d), pc := Publishing(0, if t.seqNo == 0 then win.Bounds() else d.ToPixels()))
    case StoreWord(_) =>
      var k := t.pc.stored;
      t.(ctl := t.ctl.(damage := t.ctl.damage[k := WordsOf(t.pc.out)[k]]), pc := t.pc.(stored := k + 1))
    case StoreSeq(_, ring) =>
      t.(seqNo := t.seqNo + 1, ctl := t.ctl.(seqWord := t.seqNo + 1), pc := if ring then Blocked else Idle)
  }

  predicate IsTerminalAction(a: Action) {
    a.Take? || a.Store? || a.ReadAck? || a.StoreWord? || a.StoreSeq?
  }

  ghost predicate Enabled(sc: Scene, s: State, a: Action)
    requires Shaped(sc, s)
  {
    if IsTerminalAction(a) then a.i < |s.terms| && TerminalEnabled(sc.windows[a.i], s.terms[a.i], a)
    else
      var c := s.comp;
      match a
      case Receive(from) =>
        c.pc.Waiting? && (from.Some? ==> from.value < |s.terms| && s.terms[from.value].pc.Blocked?)
      case LoadSeq => c.pc.AtClient? && c.pc.next < |s.terms|
      case LoadWord => c.pc.Reading? && |c.pc.regs| < 4
      case Accumulate => c.pc.Reading? && |c.pc.regs| == 4
      case Acknowledge => c.pc.Marking?
      case EndScan => c.pc.AtClient? && c.pc.next == |s.terms| && !c.damage.IsEmpty()
      case CopyPixel(p) => c.pc.Compositing? && p in c.pc.todo
      case Answer =>
        || (c.pc.AtClient? && c.pc.next == |s.terms| && c.damage.IsEmpty())
        || (c.pc.Compositing? && c.pc.todo == {})
      case _ => false
  }

  ghost function Step(sc: Scene, s: State, a: Action): State
    requires Shaped(sc, s) && Enabled(sc, s, a)
  {
    if IsTerminalAction(a) then
      s.(terms := s.terms[a.i := TerminalStep(sc.windows[a.i], s.terms[a.i], a)])
    else
      var c := s.comp;
      match a
      case Receive(from) => s.(comp := c.(pc := AtClient(0), damage := EMPTY, caller := from))
      case LoadSeq =>
        var i := c.pc.next;
        var q := s.terms[i].ctl.seqWord;
        if q == c.lastSeq[i] then s.(comp := c.(pc := AtClient(i + 1)))
        else s.(comp := c.(pc := Reading(i, []), lastSeq := c.lastSeq[i := q], committed := c.committed[i := true]))
      case LoadWord =>
        var w := s.terms[c.pc.i].ctl.damage[|c.pc.regs|];
        s.(comp := c.(pc := Reading(c.pc.i, c.pc.regs + [w])))
      case Accumulate =>
        var d := DamageToScreen(sc.windows[c.pc.i], RectOf(c.pc.regs), ScreenRect(sc));
        s.(comp := c.(pc := Marking(c.pc.i), damage := c.damage.Union(d)))
      case Acknowledge =>
        var i := c.pc.j;
        s.(comp := c.(pc := AtClient(i + 1)),
           terms := s.terms[i := s.terms[i].(ctl := s.terms[i].ctl.(acked := c.lastSeq[i]))])
      case EndScan => s.(comp := c.(pc := Compositing(set p | p in c.screen.Keys && c.damage.Contains(p))))
      case CopyPixel(p) =>
        s.(comp := c.(screen := c.screen[p := Recomposed(sc, s, p)], pc := Compositing(c.pc.todo - {p})))
      case Answer =>
        s.(comp := c.(pc := Waiting, damage := EMPTY, caller := None),
           terms := if c.caller.Some? then
                      s.terms[c.caller.value := s.terms[c.caller.value].(pc := Idle)]
                    else s.terms)
  }

  // ---- the start state: everything published, the whole screen painted once -----------------------

  ghost predicate Init(sc: Scene, s: State) {
    && Shaped(sc, s)
    && s.comp.pc == Waiting && s.comp.damage == EMPTY && s.comp.caller == None
    && (forall i :: 0 <= i < |s.terms| ==>
          && s.comp.lastSeq[i] == 0 && !s.comp.committed[i]
          && s.terms[i].pc == Idle && s.terms[i].seqNo == 0 && s.terms[i].pending == None
          && s.terms[i].ctl.seqWord == 0 && s.terms[i].ctl.acked == 0)
    && (forall p :: p in s.comp.screen.Keys ==> s.comp.screen[p] == sc.background(p))
  }

  ghost predicate IsRun(sc: Scene, states: seq<State>, actions: seq<Action>) {
    && |states| == |actions| + 1
    && Init(sc, states[0])
    && (forall k :: 0 <= k < |actions| ==>
          && Shaped(sc, states[k]) && Enabled(sc, states[k], actions[k])
          && states[k + 1] == Step(sc, states[k], actions[k]))
  }

  // ---- the invariant ------------------------------------------------------------------------------

  /** Terminal `i`'s pixels that may be newer than the screen and are still its own or unscanned work. */
  predicate InTerminalWork(win: Window, t: Terminal, q: Point) {
    match t.pc
    case Painting(cells) =>
      cells.ToPixels().Contains(q) || (t.ctl.acked != t.seqNo && Published(t, win).Contains(q))
    case Publishing(_, out) => out.Contains(q)
    case _ => t.ctl.acked != t.seqNo && Published(t, win).Contains(q)
  }

  predicate InCompositorWork(c: Compositor, p: Point) {
    match c.pc
    case Waiting => false
    case Compositing(todo) => p in todo
    case _ => c.damage.Contains(p)
  }

  /** Where the screen differs from full recomposition, somebody still has it on a list. */
  ghost predicate Accounted(sc: Scene, s: State, p: Point)
    requires Shaped(sc, s)
  {
    && p in s.comp.screen
    && (s.comp.screen[p] == Recomposed(sc, s, p)
        || InCompositorWork(s.comp, p)
        || (var t := Top(sc, s.comp.committed, |sc.windows|, p);
            TopIn(sc, s.comp.committed, |sc.windows|, p);
            t.Some? && InTerminalWork(sc.windows[t.value], s.terms[t.value], sc.windows[t.value].Local(p))))
  }

  /** What one terminal keeps about its own control page. */
  predicate TerminalOk(win: Window, t: Terminal) {
    && t.ctl.seqWord == t.seqNo && t.ctl.acked <= t.seqNo
    && (t.pending.Some? ==> t.pending.value.Within(GridCols(win), GridRows(win)))
    && (t.seqNo >= 1 ==> t.pending.Some?)
    && (t.seqNo >= 1 && Resting(t.pc) ==> t.ctl.damage == WordsOf(Published(t, win)))
    && (t.pc.Painting? ==> t.pc.cells.Within(GridCols(win), GridRows(win)))
    && (t.pc.Publishing? ==>
          && t.pending.Some? && t.pc.stored <= 4
          && t.pc.out == (if t.seqNo == 0 then win.Bounds() else t.pending.value.ToPixels())
          && t.ctl.damage[..t.pc.stored] == WordsOf(t.pc.out)[..t.pc.stored])
    // The first frame is acknowledged before the terminal moves on, because it rang and waited.
    && (t.seqNo == 1 && !t.pc.Blocked? ==> t.ctl.acked == 1)
    && (t.pc.Blocked? ==> t.seqNo >= 1)
  }

  /** The client whose page is between its sequence load and its ACKED store, if any. */
  function MidScan(c: Compositor): Option<nat> {
    match c.pc
    case Reading(i, _) => Some(i)
    case Marking(j) => Some(j)
    case _ => None
  }

  /** How the compositor's view of one client relates to that client. */
  predicate ViewOk(win: Window, t: Terminal, lastSeq: nat, committed: bool, mid: bool) {
    && lastSeq <= t.seqNo
    && (committed <==> lastSeq >= 1)
    && (if mid then t.ctl.acked < lastSeq else t.ctl.acked == lastSeq)
    && (lastSeq == 0 ==> t.seqNo == 0 || (t.seqNo == 1 && t.pc.Blocked?))
  }

  ghost predicate ScanOk(sc: Scene, s: State)
    requires Shaped(sc, s)
  {
    var c := s.comp;
    match c.pc
    case Reading(i, regs) =>
      && (s.terms[i].seqNo == c.lastSeq[i] && Resting(s.terms[i].pc)
          ==> regs == WordsOf(Published(s.terms[i], sc.windows[i]))[..|regs|])
      && (forall k :: 0 <= k < |regs| ==> 0 <= regs[k] < U32_LIMIT)
    case Marking(i) =>
      s.terms[i].seqNo == c.lastSeq[i] && Resting(s.terms[i].pc) ==>
        forall p | ScreenRect(sc).Contains(p) && Named(sc.windows[i], Published(s.terms[i], sc.windows[i]), p) ::
          c.damage.Contains(p)
    case Compositing(todo) => todo <= c.screen.Keys
    case _ => true
  }

  /** Clients before this index have been scanned in the current frame. */
  function Scanned(c: Compositor, n: nat): nat {
    match c.pc
    case Waiting => 0
    case AtClient(k) => k
    case Reading(i, _) => i
    case Marking(i) => i
    case Compositing(_) => n
  }

  ghost predicate CallerOk(s: State) {
    var c := s.comp;
    c.caller.Some? ==>
      && c.caller.value < |s.terms| && !c.pc.Waiting?
      && s.terms[c.caller.value].pc.Blocked?
      && (c.caller.value < Scanned(c, |s.terms|) ==>
            s.terms[c.caller.value].ctl.acked == s.terms[c.caller.value].seqNo)
      && (MidScan(c) == c.caller && |c.lastSeq| == |s.terms| ==>
            c.lastSeq[c.caller.value] == s.terms[c.caller.value].seqNo)
  }

  ghost predicate DamageOk(sc: Scene, c: Compositor) {
    c.damage.Fits() && c.damage.x >= 0 && c.damage.y >= 0
  }

  /** Every word on a control page is a 32-bit one. */
  ghost predicate WordsOk(t: Terminal) {
    forall k :: 0 <= k < |t.ctl.damage| && t.seqNo >= 1 ==> 0 <= t.ctl.damage[k] < U32_LIMIT
  }

  ghost predicate Book(sc: Scene, s: State) {
    && Shaped(sc, s)
    && (forall i :: 0 <= i < |s.terms| ==>
          && TerminalOk(sc.windows[i], s.terms[i])
          && ViewOk(sc.windows[i], s.terms[i], s.comp.lastSeq[i], s.comp.committed[i], MidScan(s.comp) == Some(i)))
    && (forall i :: 0 <= i < |s.terms| ==> WordsOk(s.terms[i]))
    && ScanOk(sc, s) && CallerOk(s) && DamageOk(sc, s.comp)
  }

  ghost predicate Inv(sc: Scene, s: State) {
    && Book(sc, s)
    && (forall p :: p in s.comp.screen.Keys ==> Accounted(sc, s, p))
  }

  // ---- one step keeps the books -------------------------------------------------------------------

  lemma GridInBounds(win: Window, cells: CellRect)
    requires WindowOk(win) && cells.Within(GridCols(win), GridRows(win))
    ensures var r := cells.ToPixels();
      r.Fits() && r.x + r.w <= win.w && r.y + r.h <= win.h
  {
  }

  lemma TerminalKeepsItsPage(win: Window, t: Terminal, a: Action)
    requires WindowOk(win) && TerminalOk(win, t) && WordsOk(t)
    requires TerminalEnabled(win, t, a)
    ensures TerminalOk(win, TerminalStep(win, t, a)) && WordsOk(TerminalStep(win, t, a))
    ensures TerminalStep(win, t, a).surface.Keys == t.surface.Keys
    ensures TerminalStep(win, t, a).ctl.acked == t.ctl.acked
  {
    var t' := TerminalStep(win, t, a);
    match a {
      case Take(_, _) =>
      case Store(_, _, _) =>
      case ReadAck(_) =>
        assert t'.pending.value.Within(GridCols(win), GridRows(win));
      case StoreWord(_) =>
        GridInBounds(win, t.pending.value);
        var k := t.pc.stored;
        assert t'.ctl.damage[..k + 1] == t.ctl.damage[..k] + [WordsOf(t.pc.out)[k]];
        assert WordsOf(t.pc.out)[..k + 1] == WordsOf(t.pc.out)[..k] + [WordsOf(t.pc.out)[k]];
      case StoreSeq(_, _) =>
        GridInBounds(win, t.pending.value);
        assert t.ctl.damage == t.ctl.damage[..4] == WordsOf(t.pc.out)[..4] == WordsOf(t.pc.out);
    }
  }

  lemma TerminalActionShape(sc: Scene, s: State, a: Action)
    requires Shaped(sc, s) && IsTerminalAction(a) && Enabled(sc, s, a)
    requires TerminalStep(sc.windows[a.i], s.terms[a.i], a).surface.Keys == s.terms[a.i].surface.Keys
    ensures Shaped(sc, Step(sc, s, a))
  {
  }

  lemma TerminalActionBook(sc: Scene, s: State, a: Action)
    requires Book(sc, s) && IsTerminalAction(a) && Enabled(sc, s, a)
    ensures Book(sc, Step(sc, s, a))
  {
    var s' := Step(sc, s, a);
    var i := a.i;
    TerminalKeepsItsPage(sc.windows[i], s.terms[i], a);
    assert forall j :: 0 <= j < |s.terms| && j != i ==> s'.terms[j] == s.terms[j];
    TerminalActionShape(sc, s, a);
    assert ViewOk(sc.windows[i], s'.terms[i], s.comp.lastSeq[i], s.comp.committed[i], MidScan(s.comp) == Some(i));
    assert ScanOk(sc, s');
  }

  lemma LoadSeqBook(sc: Scene, s: State)
    requires Book(sc, s) && Enabled(sc, s, LoadSeq)
    ensures Book(sc, Step(sc, s, LoadSeq))
  {
    var s' := Step(sc, s, LoadSeq);
    var i := s.comp.pc.next;
    assert ViewOk(sc.windows[i], s.terms[i], s.comp.lastSeq[i], s.comp.committed[i], false);
    assert TerminalOk(sc.windows[i], s.terms[i]);
    assert forall j :: 0 <= j < |s.terms| && j != i ==>
      s'.comp.lastSeq[j] == s.comp.lastSeq[j] && s'.comp.committed[j] == s.comp.committed[j];
  }

  lemma LoadWordBook(sc: Scene, s: State)
    requires Book(sc, s) && Enabled(sc, s, LoadWord)
    ensures Book(sc, Step(sc, s, LoadWord))
  {
    var i := s.comp.pc.i;
    var k := |s.comp.pc.regs|;
    assert TerminalOk(sc.windows[i], s.terms[i]) && WordsOk(s.terms[i]);
    assert ViewOk(sc.windows[i], s.terms[i], s.comp.lastSeq[i], s.comp.committed[i], true);
    if s.terms[i].seqNo == s.comp.lastSeq[i] && Resting(s.terms[i].pc) {
      var words := WordsOf(Published(s.terms[i], sc.windows[i]));
      assert words[..k + 1] == words[..k] + [words[k]];
    }
  }

  lemma AcknowledgeBook(sc: Scene, s: State)
    requires Book(sc, s) && Enabled(sc, s, Acknowledge)
    ensures Book(sc, Step(sc, s, Acknowledge))
  {
    var s' := Step(sc, s, Acknowledge);
    var i := s.comp.pc.j;
    assert ViewOk(sc.windows[i], s.terms[i], s.comp.lastSeq[i], s.comp.committed[i], true);
    assert TerminalOk(sc.windows[i], s.terms[i]) && WordsOk(s.terms[i]);
    assert TerminalOk(sc.windows[i], s'.terms[i]) && WordsOk(s'.terms[i]);
    assert forall j :: 0 <= j < |s.terms| && j != i ==> s'.terms[j] == s.terms[j];
  }

  lemma AnswerBook(sc: Scene, s: State)
    requires Book(sc, s) && Enabled(sc, s, Answer)
    ensures Book(sc, Step(sc, s, Answer))
  {
    var s' := Step(sc, s, Answer);
    if s.comp.caller.Some? {
      var i := s.comp.caller.value;
      assert TerminalOk(sc.windows[i], s.terms[i]) && WordsOk(s.terms[i]);
      assert TerminalOk(sc.windows[i], s'.terms[i]) && WordsOk(s'.terms[i]);
      assert ViewOk(sc.windows[i], s.terms[i], s.comp.lastSeq[i], s.comp.committed[i], false);
      assert ViewOk(sc.windows[i], s'.terms[i], s'.comp.lastSeq[i], s'.comp.committed[i], false);
      assert forall j :: 0 <= j < |s.terms| && j != i ==> s'.terms[j] == s.terms[j];
    }
  }

  lemma CopyPixelBook(sc: Scene, s: State, p: Point)
    requires Book(sc, s) && Enabled(sc, s, CopyPixel(p))
    ensures Book(sc, Step(sc, s, CopyPixel(p)))
  {
    assert Step(sc, s, CopyPixel(p)).comp.screen.Keys == s.comp.screen.Keys;
  }

  lemma StepKeepsBook(sc: Scene, s: State, a: Action)
    requires Book(sc, s) && Enabled(sc, s, a)
    ensures Book(sc, Step(sc, s, a))
  {
    if IsTerminalAction(a) {
      TerminalActionBook(sc, s, a);
    } else {
      match a {
        case Receive(_) =>
        case LoadSeq => LoadSeqBook(sc, s);
        case LoadWord => LoadWordBook(sc, s);
        case Accumulate => AccumulateBook(sc, s);
        case Acknowledge => AcknowledgeBook(sc, s);
        case EndScan =>
        case CopyPixel(p) => CopyPixelBook(sc, s, p);
        case Answer => AnswerBook(sc, s);
      }
    }
  }

  /** Screen point `p` lies under a pixel the client owns and named. */
  predicate Named(win: Window, asked: Rect, p: Point) {
    win.Bounds().Contains(win.Local(p)) && asked.Contains(win.Local(p))
  }

  /** Accumulating only grows the frame's damage, and adds the whole of the placed rectangle. */
  lemma AccumulateGrows(sc: Scene, s: State)
    requires Shaped(sc, s) && DamageOk(sc, s.comp) && ScanOk(sc, s) && Enabled(sc, s, Accumulate)
    ensures var s' := Step(sc, s, Accumulate);
      && DamageOk(sc, s'.comp)
      && (forall p :: s.comp.damage.Contains(p) ==> s'.comp.damage.Contains(p))
      && (forall p | ScreenRect(sc).Contains(p) && Named(sc.windows[s.comp.pc.i], RectOf(s.comp.pc.regs), p) ::
            s'.comp.damage.Contains(p))
  {
    var win, asked, screen := sc.windows[s.comp.pc.i], RectOf(s.comp.pc.regs), ScreenRect(sc);
    var d := DamageToScreen(win, asked, screen);
    DamageToScreenPoints(win, asked, screen, Point(0, 0));
    UnionCovers(s.comp.damage, d, Point(0, 0));
    forall p ensures s.comp.damage.Contains(p) || d.Contains(p) ==> s.comp.damage.Union(d).Contains(p) {
      UnionCovers(s.comp.damage, d, p);
    }
    forall p | screen.Contains(p) && Named(win, asked, p)
      ensures d.Contains(p)
    {
      DamageToScreenPoints(win, asked, screen, p);
    }
  }

  /** If the terminal has not started republishing, the words read are the rectangle it published. */
  lemma WordsReadAreThePublication(win: Window, t: Terminal, regs: FourWords)
    requires WindowOk(win) && TerminalOk(win, t) && t.seqNo >= 1
    requires regs == WordsOf(Published(t, win))
    ensures RectOf(regs) == Published(t, win)
  {
    GridInBounds(win, t.pending.value);
  }

  lemma AccumulateBook(sc: Scene, s: State)
    requires Book(sc, s) && Enabled(sc, s, Accumulate)
    ensures Book(sc, Step(sc, s, Accumulate))
  {
    var s' := Step(sc, s, Accumulate);
    var i := s.comp.pc.i;
    var win := sc.windows[i];
    AccumulateGrows(sc, s);
    assert TerminalOk(win, s.terms[i]) && ViewOk(win, s.terms[i], s.comp.lastSeq[i], s.comp.committed[i], true);
    if s.terms[i].seqNo == s.comp.lastSeq[i] && Resting(s.terms[i].pc) {
      assert WordsOf(Published(s.terms[i], win))[..4] == WordsOf(Published(s.terms[i], win));
      WordsReadAreThePublication(win, s.terms[i], s.comp.pc.regs);
    }
    assert ScanOk(sc, s');
  }

  // ---- one step loses no damage -------------------------------------------------------------------

  /** Once a terminal has published, its own steps neither drop work nor change a pixel outside it. */
  lemma TerminalKeepsItsWork(win: Window, t: Terminal, a: Action, q: Point)
    requires WindowOk(win) && TerminalOk(win, t) && t.seqNo >= 1 && q in t.surface
    requires TerminalEnabled(win, t, a)
    ensures var t' := TerminalStep(win, t, a);
      q in t'.surface
      && (InTerminalWork(win, t, q) || t'.surface[q] != t.surface[q] ==> InTerminalWork(win, t', q))
  {
    match a {
      case Take(_, _) =>
      case Store(_, _, _) =>
      case ReadAck(_) =>
        if InTerminalWork(win, t, q) { CarriedForward(win, t, q); }
      case StoreWord(_) =>
      case StoreSeq(_, _) =>
    }
  }

  /** A pixel store shows through only where its window is on top, and then it is the terminal's work. */
  lemma TerminalActionAccounts(sc: Scene, s: State, a: Action, p: Point)
    requires Inv(sc, s) && IsTerminalAction(a) && Enabled(sc, s, a)
    requires Shaped(sc, Step(sc, s, a)) && p in s.comp.screen
    ensures Accounted(sc, Step(sc, s, a), p)
  {
    var i := a.i;
    assert Accounted(sc, s, p);
    TopIn(sc, s.comp.committed, |sc.windows|, p);
    if Top(sc, s.comp.committed, |sc.windows|, p) == Some(i) {
      var win, t := sc.windows[i], s.terms[i];
      assert TerminalOk(win, t) && ViewOk(win, t, s.comp.lastSeq[i], s.comp.committed[i], MidScan(s.comp) == Some(i));
      assert win.Bounds().Contains(win.Local(p));
      TerminalKeepsItsWork(win, t, a, win.Local(p));
    }
  }

  /** Reading an unacknowledged sequence carries the whole of the last rectangle into the next one. */
  lemma CarriedForward(win: Window, t: Terminal, q: Point)
    requires WindowOk(win) && TerminalOk(win, t) && t.pc.Painting? && t.seqNo >= 1
    requires InTerminalWork(win, t, q)
    ensures InTerminalWork(win, TerminalStep(win, t, ReadAck(0)), q)
  {
    if t.ctl.acked != t.seqNo {
      assert t.seqNo != 1;
      CellUnionCovers(t.pending.value, t.pc.cells, q);
    }
  }

  /** A step that touches neither a surface nor the screen only has to keep the compositor's list. */
  lemma OnlyTheListMoved(sc: Scene, s: State, s': State, p: Point)
    requires Shaped(sc, s) && Shaped(sc, s') && Accounted(sc, s, p)
    requires s'.terms == s.terms && s'.comp.committed == s.comp.committed && s'.comp.screen == s.comp.screen
    requires InCompositorWork(s.comp, p) ==> InCompositorWork(s'.comp, p)
    ensures Accounted(sc, s', p)
  {
    TopIn(sc, s.comp.committed, |sc.windows|, p);
  }

  /** Waking a blocked caller moves no pixel on or off anybody's list. */
  lemma WakingAccounts(sc: Scene, s: State, s': State, p: Point)
    requires Shaped(sc, s) && Shaped(sc, s') && Accounted(sc, s, p) && !InCompositorWork(s.comp, p)
    requires s'.comp.committed == s.comp.committed && s'.comp.screen == s.comp.screen
    requires forall i :: 0 <= i < |s.terms| ==>
      s'.terms[i] == s.terms[i] || (s.terms[i].pc.Blocked? && s'.terms[i] == s.terms[i].(pc := Idle))
    ensures Accounted(sc, s', p)
  {
    TopIn(sc, s.comp.committed, |sc.windows|, p);
  }

  lemma AnswerAccounts(sc: Scene, s: State, p: Point)
    requires Inv(sc, s) && Enabled(sc, s, Answer)
    requires Shaped(sc, Step(sc, s, Answer)) && p in s.comp.screen
    ensures Accounted(sc, Step(sc, s, Answer), p)
  {
    assert Accounted(sc, s, p) && !InCompositorWork(s.comp, p);
    WakingAccounts(sc, s, Step(sc, s, Answer), p);
  }

  lemma CompositorActionAccounts(sc: Scene, s: State, a: Action, p: Point)
    requires Inv(sc, s) && !IsTerminalAction(a) && Enabled(sc, s, a)
    requires Shaped(sc, Step(sc, s, a)) && p in s.comp.screen
    ensures Accounted(sc, Step(sc, s, a), p)
  {
    var s' := Step(sc, s, a);
    match a {
      case LoadSeq => LoadSeqAccounts(sc, s, p);
      case Acknowledge => AcknowledgeAccounts(sc, s, p);
      case Answer => AnswerAccounts(sc, s, p);
      case CopyPixel(q) =>
        assert Accounted(sc, s, p);
        if p != q { CopyElsewhere(sc, s, p, q); }
      case Accumulate =>
        AccumulateGrows(sc, s);
        OnlyTheListMoved(sc, s, s', p);
      case _ => OnlyTheListMoved(sc, s, s', p);
    }
  }

  lemma CopyElsewhere(sc: Scene, s: State, p: Point, q: Point)
    requires Inv(sc, s) && Enabled(sc, s, CopyPixel(q)) && p in s.comp.screen && p != q
    requires Shaped(sc, Step(sc, s, CopyPixel(q)))
    ensures Accounted(sc, Step(sc, s, CopyPixel(q)), p)
  {
    assert Accounted(sc, s, p);
    TopIn(sc, s.comp.committed, |sc.windows|, p);
  }

  /** A client's first scanned sequence puts its window on top; its whole surface is still unscanned. */
  lemma LoadSeqAccounts(sc: Scene, s: State, p: Point)
    requires Inv(sc, s) && Enabled(sc, s, LoadSeq)
    requires Shaped(sc, Step(sc, s, LoadSeq)) && p in s.comp.screen
    ensures Accounted(sc, Step(sc, s, LoadSeq), p)
  {
    var s' := Step(sc, s, LoadSeq);
    var i := s.comp.pc.next;
    assert Accounted(sc, s, p);
    TopAfterCommit(sc, s.comp.committed, i, |sc.windows|, p);
    TopIn(sc, s.comp.committed, |sc.windows|, p);
    TopIn(sc, s'.comp.committed, |sc.windows|, p);
    if Top(sc, s'.comp.committed, |sc.windows|, p) != Top(sc, s.comp.committed, |sc.windows|, p) {
      assert ViewOk(sc.windows[i], s.terms[i], s.comp.lastSeq[i], s.comp.committed[i], false);
      assert s.terms[i].seqNo == 1 && s.terms[i].pc.Blocked? && s.terms[i].ctl.acked == 0;
      assert InTerminalWork(sc.windows[i], s.terms[i], sc.windows[i].Local(p));
    }
  }

  lemma {:induction false} TopAfterCommit(sc: Scene, committed: seq<bool>, i: nat, n: nat, p: Point)
    requires n <= |sc.windows| && n <= |committed| && i < |committed|
    ensures Top(sc, committed[i := true], n, p) == Top(sc, committed, n, p)
         || (!committed[i] && i < n && Top(sc, committed[i := true], n, p) == Some(i)
             && sc.windows[i].OnScreen().Contains(p))
  {
    if n > 0 { TopAfterCommit(sc, committed, i, n - 1, p); }
  }

  /** Storing ACKED early is safe because the rectangle is already in the frame's damage. */
  lemma AcknowledgeAccounts(sc: Scene, s: State, p: Point)
    requires Inv(sc, s) && Enabled(sc, s, Acknowledge)
    requires Shaped(sc, Step(sc, s, Acknowledge)) && p in s.comp.screen
    ensures Accounted(sc, Step(sc, s, Acknowledge), p)
  {
    var s' := Step(sc, s, Acknowledge);
    var i := s.comp.pc.j;
    assert Accounted(sc, s, p);
    var top := Top(sc, s.comp.committed, |sc.windows|, p);
    TopIn(sc, s.comp.committed, |sc.windows|, p);
    if top == Some(i) {
      var win, t := sc.windows[i], s.terms[i];
      assert ViewOk(win, t, s.comp.lastSeq[i], s.comp.committed[i], true);
      if InTerminalWork(win, t, win.Local(p)) && !InTerminalWork(win, s'.terms[i], win.Local(p)) {
        assert s.comp.lastSeq[i] == t.seqNo && Resting(t.pc);
        assert s.comp.damage.Contains(p);
      }
    }
  }

  lemma StepKeepsInv(sc: Scene, s: State, a: Action)
    requires Inv(sc, s) && Enabled(sc, s, a)
    ensures Inv(sc, Step(sc, s, a))
  {
    var s' := Step(sc, s, a);
    StepKeepsBook(sc, s, a);
    forall p | p in s'.comp.screen.Keys ensures Accounted(sc, s', p) {
      assert p in s.comp.screen.Keys;
      if IsTerminalAction(a) {
        TerminalActionAccounts(sc, s, a, p);
      } else {
        CompositorActionAccounts(sc, s, a, p);
      }
    }
  }

  // ---- every run ------------------------------------------------------------------------------------

  lemma NothingCommitted(sc: Scene, committed: seq<bool>, n: nat, p: Point)
    requires n <= |sc.windows| && n <= |committed|
    requires forall i :: 0 <= i < |committed| ==> !committed[i]
    ensures Top(sc, committed, n, p) == None
  {
  }

  lemma InitHasInv(sc: Scene, s: State)
    requires Init(sc, s)
    ensures Inv(sc, s)
  {
    forall p | p in s.comp.screen.Keys ensures Accounted(sc, s, p) {
      NothingCommitted(sc, s.comp.committed, |sc.windows|, p);
    }
  }

  /**
   No damage is ever lost. In every state of every interleaving, a screen pixel that differs from full
   recomposition is in the top window's unpublished or unscanned work, or in the damage the compositor
   has yet to copy.
   */
  lemma {:induction false} NoDamageIsLost(sc: Scene, states: seq<State>, actions: seq<Action>, k: nat)
    requires IsRun(sc, states, actions) && k < |states|
    ensures Inv(sc, states[k])
    decreases k
  {
    if k == 0 {
      InitHasInv(sc, states[0]);
    } else {
      NoDamageIsLost(sc, states, actions, k - 1);
      StepKeepsInv(sc, states[k - 1], actions[k - 1]);
    }
  }

  /** Nobody is painting or publishing, and every published frame has been acknowledged. */
  ghost predicate Quiescent(s: State) {
    && s.comp.pc.Waiting?
    && forall i :: 0 <= i < |s.terms| ==>
         !s.terms[i].pc.Painting? && !s.terms[i].pc.Publishing? && s.terms[i].ctl.acked == s.terms[i].ctl.seqWord
  }

  /** The incremental screen never drifts: at rest it is the full recomposition, pixel for pixel. */
  lemma QuiescentScreenIsExact(sc: Scene, states: seq<State>, actions: seq<Action>, k: nat, p: Point)
    requires IsRun(sc, states, actions) && k < |states|
    requires Quiescent(states[k]) && Shaped(sc, states[k]) && ScreenRect(sc).Contains(p)
    ensures p in states[k].comp.screen && states[k].comp.screen[p] == Recomposed(sc, states[k], p)
  {
    NoDamageIsLost(sc, states, actions, k);
    assert Accounted(sc, states[k], p);
    TopIn(sc, states[k].comp.committed, |sc.windows|, p);
  }

  /** A COMMIT is answered only after the caller's last frame has been scanned. */
  lemma AnsweredMeansAcknowledged(sc: Scene, states: seq<State>, actions: seq<Action>, k: nat)
    requires IsRun(sc, states, actions) && k < |actions|
    requires actions[k] == Answer && states[k].comp.caller.Some?
    ensures var i := states[k].comp.caller.value;
      i < |states[k].terms| == |states[k + 1].terms|
      && states[k].terms[i].pc.Blocked? && states[k + 1].terms[i].pc.Idle?
      && states[k + 1].terms[i].ctl.acked == states[k + 1].terms[i].ctl.seqWord
  {
    NoDamageIsLost(sc, states, actions, k);
    NoDamageIsLost(sc, states, actions, k + 1);
  }

  // ---- every frame ends -----------------------------------------------------------------------------

  /** What was acknowledged is not named again. */
  lemma AcknowledgedIsForgotten(pending: Option<CellRect>, acked: nat, seqNo: nat, cells: CellRect)
    requires acked == seqNo || pending.None?
    ensures Carried(pending, acked, seqNo, cells) == cells
  {
  }

  /** How many steps of its own the compositor can still take before it waits again. */
  function StepsLeft(s: State): nat {
    var n, pixels := |s.terms|, |s.comp.screen|;
    match s.comp.pc
    case Waiting => 0
    case AtClient(k) => 7 * Length(k, n) + pixels + 2
    case Reading(i, regs) => 7 * Length(i + 1, n) + Length(|regs|, 6) + pixels + 2
    case Marking(j) => 7 * Length(j + 1, n) + 1 + pixels + 2
    case Compositing(todo) => |todo| + 1
  }

  /** A step of the compositor's other than starting a frame. */
  predicate InFrame(a: Action) {
    !IsTerminalAction(a) && !a.Receive?
  }

  lemma SubsetSize(a: set<Point>, b: set<Point>)
    requires a <= b
    ensures |a| <= |b|
  {
    var rest := b - a;
    assert b == a + rest;
  }

  lemma KeysSize(m: map<Point, Pixel>)
    ensures |m.Keys| == |m|
  {
  }

  /** Each of them brings the end nearer, whatever the terminals do; and theirs do not put it off. */
  lemma StepsCount(sc: Scene, s: State, a: Action)
    requires Book(sc, s) && Enabled(sc, s, a) && !a.Receive?
    ensures if IsTerminalAction(a) then StepsLeft(Step(sc, s, a)) == StepsLeft(s) else StepsLeft(Step(sc, s, a)) < StepsLeft(s)
  {
    if a.EndScan? {
      KeysSize(s.comp.screen);
      SubsetSize(Step(sc, s, a).comp.pc.todo, s.comp.screen.Keys);
    }
    if a.CopyPixel? { assert s.comp.pc.todo == (s.comp.pc.todo - {a.p}) + {a.p}; }
  }

  /** A compositor in a frame always has a step to take. */
  lemma NeverStuck(sc: Scene, s: State) returns (a: Action)
    requires Book(sc, s) && !s.comp.pc.Waiting?
    ensures InFrame(a) && Enabled(sc, s, a)
  {
    match s.comp.pc
    case AtClient(k) =>
      a := if k < |s.terms| then LoadSeq else if s.comp.damage.IsEmpty() then Answer else EndScan;
    case Reading(_, regs) => a := if |regs| < 4 then LoadWord else Accumulate;
    case Marking(_) => a := Acknowledge;
    case Compositing(todo) =>
      if todo == {} {
        a := Answer;
      } else {
        var p :| p in todo;
        a := CopyPixel(p);
      }
  }

  function FrameSteps(actions: seq<Action>): nat {
    if actions == [] then 0
    else FrameSteps(actions[..|actions| - 1]) + if InFrame(actions[|actions| - 1]) then 1 else 0
  }

  lemma RunCounts(sc: Scene, states: seq<State>, actions: seq<Action>, j: nat)
    requires IsRun(sc, states, actions) && j < |actions| && !actions[j].Receive?
    ensures StepsLeft(states[j + 1]) + (if InFrame(actions[j]) then 1 else 0) <= StepsLeft(states[j])
  {
    NoDamageIsLost(sc, states, actions, j);
    StepsCount(sc, states[j], actions[j]);
  }

  /** A count that each step in a frame brings down bounds them. */
  lemma {:induction false} CountDown(left: seq<nat>, actions: seq<Action>, k: nat, j: nat)
    requires |left| == |actions| + 1 && k <= j < |left|
    requires forall i :: k <= i < j ==> left[i + 1] + (if InFrame(actions[i]) then 1 else 0) <= left[i]
    ensures FrameSteps(actions[k..j]) + left[j] <= left[k]
    decreases j
  {
    if k < j {
      CountDown(left, actions, k, j - 1);
      assert left[(j - 1) + 1] + (if InFrame(actions[j - 1]) then 1 else 0) <= left[j - 1];
      assert actions[k..j][..j - 1 - k] == actions[k..j - 1] && actions[k..j][j - 1 - k] == actions[j - 1];
    }
  }

  lemma FrameCounts(sc: Scene, states: seq<State>, actions: seq<Action>, k: nat, j: nat)
    requires IsRun(sc, states, actions) && k <= j < |states| && forall i :: k <= i < j ==> !actions[i].Receive?
    ensures FrameSteps(actions[k..j]) + StepsLeft(states[j]) <= StepsLeft(states[k])
  {
    var left := seq(|states|, i requires 0 <= i < |states| => StepsLeft(states[i]));
    forall i | k <= i < j ensures left[i + 1] + (if InFrame(actions[i]) then 1 else 0) <= left[i] {
      RunCounts(sc, states, actions, i);
    }
    CountDown(left, actions, k, j);
  }

  /**
   Every frame ends: however the terminals interleave, the compositor takes at most seven steps for each client, one
   for each pixel and two more before it waits again, and it never lacks a step to take; so a blocked caller is
   always answered.
   */
  lemma EveryFrameEnds(sc: Scene, states: seq<State>, actions: seq<Action>, k: nat, j: nat)
    requires IsRun(sc, states, actions) && k <= j < |states| && forall i :: k <= i < j ==> !actions[i].Receive?
    ensures FrameSteps(actions[k..j]) + StepsLeft(states[j]) <= 7 * |states[k].terms| + |states[k].comp.screen| + 2
    ensures !states[j].comp.pc.Waiting? ==> Shaped(sc, states[j]) && exists a :: InFrame(a) && Enabled(sc, states[j], a)
  {
    FrameCounts(sc, states, actions, k, j);
    NoDamageIsLost(sc, states, actions, k);
    BoundedLeft(sc, states[k]);
    if !states[j].comp.pc.Waiting? {
      NoDamageIsLost(sc, states, actions, j);
      var a := NeverStuck(sc, states[j]);
    }
  }

  lemma BoundedLeft(sc: Scene, s: State)
    requires Book(sc, s)
    ensures StepsLeft(s) <= 7 * |s.terms| + |s.comp.screen| + 2
  {
    if s.comp.pc.Compositing? {
      KeysSize(s.comp.screen);
      SubsetSize(s.comp.pc.todo, s.comp.screen.Keys);
    }
  }
}
