/**
 One frame as the compositor serves it: scan every client's control page, gather the damage of those with a
 new sequence, acknowledge, and composite exactly that. Where `DisplayProtocol` lets the two sides interleave
 word by word, this is the loop itself, over its own arrays and the pages it shares.
 */
module Frame {
  import opened ScreenGeometry
  import opened Raster
  import opened Composite
  import DisplayProtocol

  /** A client's control page, as the scan reads and writes it. */
  datatype Page = Page(seqWord: nat, damage: DisplayProtocol.FourWords, acked: nat, clipped: bool)

  predicate PageOk(p: Page) {
    forall k :: 0 <= k < 4 ==> 0 <= p.damage[k] < U32_LIMIT
  }

  function Asked(p: Page): Rect {
    DisplayProtocol.RectOf(p.damage)
  }

  /** The rectangle of the screen a page's damage lands on. */
  function Placed(win: Window, p: Page, width: nat, height: nat): Rect {
    DamageToScreen(win, Asked(p), Rect(0, 0, width, height))
  }

  lemma PlacedPoints(win: Window, page: Page, width: nat, height: nat, p: Point)
    requires win.Sane() && PageOk(page) && width <= I32_MAX && height <= I32_MAX
    ensures Placed(win, page, width, height).Contains(p) <==>
      Rect(0, 0, width, height).Contains(p) && win.Bounds().Contains(win.Local(p)) && Asked(page).Contains(win.Local(p))
    ensures OnScreen(Placed(win, page, width, height), width, height)
  {
    DamageToScreenPoints(win, Asked(page), Rect(0, 0, width, height), p);
  }

  /** The rectangle lies on the surface as its four numbers say, or is the one empty rectangle a clip gives. */
  predicate Inside(win: Window, r: Rect) {
    r == EMPTY || (0 <= r.x && 0 <= r.y && 0 < r.w && 0 < r.h && r.x + r.w <= win.w && r.y + r.h <= win.h)
  }

  /** A rectangle is its own clip exactly when it lies on the surface. */
  lemma InsideIsUnclipped(win: Window, r: Rect)
    requires win.Sane() && r.Fits()
    ensures r.Intersect(win.Bounds()) == r <==> Inside(win, r)
  {
  }

  /** Of the rectangles that name any point, those inside are the ones whose every point is on the surface. */
  lemma InsidePoints(win: Window, r: Rect)
    requires win.Sane() && r.Fits() && r.Contains(Point(r.x, r.y))
    ensures Inside(win, r) <==> forall q :: r.Contains(q) ==> win.Bounds().Contains(q)
  {
    if !Inside(win, r) {
      var first, last := Point(r.x, r.y), Point(r.Right() - 1, r.Bottom() - 1);
      assert r.Contains(first) && r.Contains(last);
      assert !win.Bounds().Contains(first) || !win.Bounds().Contains(last);
    }
  }

  /**
   What a scan writes on a page. One with the sequence last seen is left alone. On any other the sequence is
   acknowledged, and the status says whether the rectangle left the surface; the client's own words stay.
   */
  ghost predicate Answered(win: Window, was: Page, last: nat, now: Page) {
    && now.seqWord == was.seqWord && now.damage == was.damage
    && (was.seqWord == last ==> now.acked == was.acked && now.clipped == was.clipped)
    && (was.seqWord != last ==> now.acked == was.seqWord && (now.clipped <==> !Inside(win, Asked(was))))
  }

  /** A client that has never committed contributes nothing. */
  function Sources(committed: seq<bool>, surfaces: seq<seq<Pixel>>): (s: seq<seq<Pixel>>)
    requires |committed| == |surfaces|
    ensures |s| == |surfaces| && forall i :: 0 <= i < |s| ==> s[i] == if committed[i] then surfaces[i] else []
  {
    seq(|surfaces|, i requires 0 <= i < |surfaces| => if committed[i] then surfaces[i] else [])
  }

  predicate SurfacesOk(windows: seq<Window>, surfaces: seq<seq<Pixel>>) {
    |surfaces| == |windows|
    && forall i :: 0 <= i < |windows| ==> windows[i].Sane() && |surfaces[i]| == windows[i].w * windows[i].h
  }

  /** Everything the clients before `n` with a new sequence placed on the screen is in the damage. */
  ghost predicate Gathered(windows: seq<Window>, pages: seq<Page>, lastSeq: seq<nat>, width: nat, height: nat,
                           n: nat, damage: Rect)
    requires |pages| == |windows| == |lastSeq| && n <= |windows|
  {
    && OnScreen(damage, width, height)
    && forall i, p ::
         0 <= i < n && pages[i].seqWord != lastSeq[i] && Placed(windows[i], pages[i], width, height).Contains(p) ==>
           damage.Contains(p)
  }

  lemma GatherOne(windows: seq<Window>, pages: seq<Page>, lastSeq: seq<nat>, width: nat, height: nat, n: nat, damage: Rect)
    requires |pages| == |windows| == |lastSeq| && n < |windows| && windows[n].Sane() && PageOk(pages[n])
    requires Gathered(windows, pages, lastSeq, width, height, n, damage)
    ensures Gathered(windows, pages, lastSeq, width, height, n + 1,
                     if pages[n].seqWord == lastSeq[n] then damage
                     else damage.Union(Placed(windows[n], pages[n], width, height)))
  {
    var more := Placed(windows[n], pages[n], width, height);
    PlacedPoints(windows[n], pages[n], width, height, Point(0, 0));
    UnionCovers(damage, more, Point(0, 0));
    forall p ensures damage.Contains(p) || more.Contains(p) ==> damage.Union(more).Contains(p) { UnionCovers(damage, more, p); }
  }

  /**
   What a client owes: pixels of a committed surface change only under the rectangle of a new sequence, and
   the first frame names the whole surface.
   */
  ghost predicate Honest(win: Window, page: Page, last: nat, committed: bool, was: seq<Pixel>, now: seq<Pixel>, q: Point)
    requires win.Sane() && |was| == |now| == win.w * win.h && win.Bounds().Contains(q)
  {
    || (page.seqWord != last && Asked(page).Contains(q))
    || (page.seqWord == last && !committed)
    || (committed && PixelAt(was, win.w, q.y, q.x) == PixelAt(now, win.w, q.y, q.x))
  }

  ghost predicate AllHonest(windows: seq<Window>, pages: seq<Page>, lastSeq: seq<nat>, committed: seq<bool>,
                            was: seq<seq<Pixel>>, now: seq<seq<Pixel>>)
    requires |pages| == |windows| == |lastSeq| == |committed| && SurfacesOk(windows, was) && SurfacesOk(windows, now)
  {
    forall i, q :: 0 <= i < |windows| && windows[i].Bounds().Contains(q) ==>
      Honest(windows[i], pages[i], lastSeq[i], committed[i], was[i], now[i], q)
  }

  /** Committed after the scan: before it, or by a new sequence. */
  function CommittedAfter(pages: seq<Page>, lastSeq: seq<nat>, committed: seq<bool>): (c: seq<bool>)
    requires |pages| == |lastSeq| == |committed|
    ensures |c| == |committed|
    ensures forall i :: 0 <= i < |c| ==> c[i] == (committed[i] || pages[i].seqWord != lastSeq[i])
  {
    seq(|committed|, i requires 0 <= i < |committed| => committed[i] || pages[i].seqWord != lastSeq[i])
  }

  lemma SourcesFit(windows: seq<Window>, committed: seq<bool>, surfaces: seq<seq<Pixel>>)
    requires SurfacesOk(windows, surfaces) && |committed| == |windows|
    ensures SourcesOk(windows, Sources(committed, surfaces))
  {
  }

  /** A window shows the same thing at `p` from either source. */
  predicate SameAt(win: Window, s1: seq<Pixel>, s2: seq<Pixel>, p: Point)
    requires win.Sane() && (s1 == [] || |s1| == win.w * win.h) && (s2 == [] || |s2| == win.w * win.h)
  {
    (Shows(win, s1, p) <==> Shows(win, s2, p)) && (Shows(win, s1, p) ==> Under(win, s1, p) == Under(win, s2, p))
  }

  lemma {:induction false} ExpectedSame(windows: seq<Window>, s1: seq<seq<Pixel>>, s2: seq<seq<Pixel>>,
                                        background: Point -> Pixel, n: nat, p: Point)
    requires SourcesOk(windows, s1) && SourcesOk(windows, s2) && n <= |windows|
    requires forall i :: 0 <= i < n ==> SameAt(windows[i], s1[i], s2[i], p)
    ensures Expected(windows, s1, background, n, p) == Expected(windows, s2, background, n, p)
  {
    if n > 0 { ExpectedSame(windows, s1, s2, background, n - 1, p); }
  }

  /** Outside what a client placed on the screen its window shows what it showed. */
  lemma WindowSame(win: Window, page: Page, last: nat, committed: bool, was: seq<Pixel>, now: seq<Pixel>,
                   width: nat, height: nat, p: Point)
    requires win.Sane() && PageOk(page) && |was| == |now| == win.w * win.h && width <= I32_MAX && height <= I32_MAX
    requires forall q :: win.Bounds().Contains(q) ==> Honest(win, page, last, committed, was, now, q)
    requires Rect(0, 0, width, height).Contains(p)
    requires page.seqWord != last ==> !Placed(win, page, width, height).Contains(p)
    ensures SameAt(win, if committed then was else [], if committed || page.seqWord != last then now else [], p)
  {
    if win.OnScreen().Contains(p) {
      var q := win.Local(p);
      assert win.Bounds().Contains(q);
      PlacedPoints(win, page, width, height, p);
      assert Honest(win, page, last, committed, was, now, q);
      OffsetInRange(q.y, q.x, win.w, win.h);
    }
  }

  /** Outside the gathered damage nothing the composition could show has changed. */
  lemma OutsideIsSame(windows: seq<Window>, pages: seq<Page>, lastSeq: seq<nat>, committed: seq<bool>,
                      was: seq<seq<Pixel>>, now: seq<seq<Pixel>>, background: Point -> Pixel,
                      width: nat, height: nat, damage: Rect, p: Point)
    requires |pages| == |windows| == |lastSeq| == |committed| && SurfacesOk(windows, was) && SurfacesOk(windows, now)
    requires (forall i :: 0 <= i < |pages| ==> PageOk(pages[i])) && AllHonest(windows, pages, lastSeq, committed, was, now)
    requires Gathered(windows, pages, lastSeq, width, height, |windows|, damage)
    requires Rect(0, 0, width, height).Contains(p) && !damage.Contains(p)
    ensures SourcesOk(windows, Sources(committed, was))
    ensures SourcesOk(windows, Sources(CommittedAfter(pages, lastSeq, committed), now))
    ensures Expected(windows, Sources(committed, was), background, |windows|, p)
         == Expected(windows, Sources(CommittedAfter(pages, lastSeq, committed), now), background, |windows|, p)
  {
    var after := CommittedAfter(pages, lastSeq, committed);
    SourcesFit(windows, committed, was);
    SourcesFit(windows, after, now);
    forall i | 0 <= i < |windows| ensures SameAt(windows[i], Sources(committed, was)[i], Sources(after, now)[i], p) {
      WindowSame(windows[i], pages[i], lastSeq[i], committed[i], was[i], now[i], width, height, p);
    }
    ExpectedSame(windows, Sources(committed, was), Sources(after, now), background, |windows|, p);
  }

  // ---- the scan is the protocol's ---------------------------------------------------------------------------

  /** What the loop holds between clients is what the protocol's compositor and control pages hold. */
  predicate Mirrors(s: DisplayProtocol.State, lastSeq: seq<nat>, committed: seq<bool>, pages: seq<Page>, damage: Rect, next: nat) {
    && s.comp.pc == DisplayProtocol.AtClient(next) && s.comp.damage == damage
    && s.comp.lastSeq == lastSeq && s.comp.committed == committed && |pages| == |s.terms|
    && forall j :: 0 <= j < |pages| ==>
         DisplayProtocol.Control(pages[j].seqWord, pages[j].acked, pages[j].damage) == s.terms[j].ctl
  }

  /** These steps, one after another, lead from one state to the other. */
  ghost predicate Leads(sc: DisplayProtocol.Scene, s: DisplayProtocol.State, actions: seq<DisplayProtocol.Action>,
                        t: DisplayProtocol.State)
    decreases |actions|
  {
    if actions == [] then s == t
    else DisplayProtocol.Shaped(sc, s) && DisplayProtocol.Enabled(sc, s, actions[0])
         && Leads(sc, DisplayProtocol.Step(sc, s, actions[0]), actions[1..], t)
  }

  lemma LeadsOn(sc: DisplayProtocol.Scene, s: DisplayProtocol.State, a: DisplayProtocol.Action,
                rest: seq<DisplayProtocol.Action>, t: DisplayProtocol.State)
    requires DisplayProtocol.Shaped(sc, s) && DisplayProtocol.Enabled(sc, s, a)
    requires Leads(sc, DisplayProtocol.Step(sc, s, a), rest, t)
    ensures Leads(sc, s, [a] + rest, t)
  {
    assert ([a] + rest)[0] == a && ([a] + rest)[1..] == rest;
  }

  /** The words still to load, one step each. */
  lemma {:induction false} LoadsTheWords(sc: DisplayProtocol.Scene, s: DisplayProtocol.State, i: nat, k: nat)
    returns (actions: seq<DisplayProtocol.Action>, t: DisplayProtocol.State)
    requires DisplayProtocol.Shaped(sc, s) && i < |s.terms| && k <= 4
    requires s.comp.pc == DisplayProtocol.Reading(i, s.terms[i].ctl.damage[..k])
    ensures Leads(sc, s, actions, t) && DisplayProtocol.Shaped(sc, t)
    ensures t == s.(comp := s.comp.(pc := DisplayProtocol.Reading(i, s.terms[i].ctl.damage)))
    decreases 4 - k
  {
    var words := s.terms[i].ctl.damage;
    if k == 4 {
      assert words[..4] == words;
      actions, t := [], s;
    } else {
      var s1 := DisplayProtocol.Step(sc, s, DisplayProtocol.LoadWord);
      assert words[..k] + [words[k]] == words[..k + 1];
      var rest;
      rest, t := LoadsTheWords(sc, s1, i, k + 1);
      LeadsOn(sc, s, DisplayProtocol.LoadWord, rest, t);
      actions := [DisplayProtocol.LoadWord] + rest;
    }
  }

  lemma {:induction false} LeadsThen(sc: DisplayProtocol.Scene, s: DisplayProtocol.State, a1: seq<DisplayProtocol.Action>,
                                     t: DisplayProtocol.State, a2: seq<DisplayProtocol.Action>, u: DisplayProtocol.State)
    requires Leads(sc, s, a1, t) && Leads(sc, t, a2, u)
    ensures Leads(sc, s, a1 + a2, u)
    decreases |a1|
  {
    if a1 == [] {
      assert a1 + a2 == a2;
    } else {
      LeadsThen(sc, DisplayProtocol.Step(sc, s, a1[0]), a1[1..], t, a2, u);
      assert (a1 + a2)[0] == a1[0] && (a1 + a2)[1..] == a1[1..] + a2;
    }
  }

  /** A new sequence taken up by the protocol's compositor, left undisturbed: loaded, read, accumulated, acknowledged. */
  lemma ProtocolTakesUp(sc: DisplayProtocol.Scene, s: DisplayProtocol.State, i: nat)
    returns (actions: seq<DisplayProtocol.Action>, t: DisplayProtocol.State)
    requires DisplayProtocol.Shaped(sc, s) && s.comp.pc == DisplayProtocol.AtClient(i) && i < |s.terms|
    requires s.terms[i].ctl.seqWord != s.comp.lastSeq[i]
    ensures Leads(sc, s, actions, t)
    ensures var ctl := s.terms[i].ctl;
      && t.terms == s.terms[i := s.terms[i].(ctl := ctl.(acked := ctl.seqWord))]
      && t.comp == s.comp.(pc := DisplayProtocol.AtClient(i + 1), lastSeq := s.comp.lastSeq[i := ctl.seqWord],
                           committed := s.comp.committed[i := true],
                           damage := s.comp.damage.Union(DamageToScreen(sc.windows[i], DisplayProtocol.RectOf(ctl.damage),
                                                                        DisplayProtocol.ScreenRect(sc))))
  {
    var s1 := DisplayProtocol.Step(sc, s, DisplayProtocol.LoadSeq);
    assert s.terms[i].ctl.damage[..0] == [];
    var words, s2 := LoadsTheWords(sc, s1, i, 0);
    var s3 := DisplayProtocol.Step(sc, s2, DisplayProtocol.Accumulate);
    t := DisplayProtocol.Step(sc, s3, DisplayProtocol.Acknowledge);
    assert Leads(sc, t, [], t);
    LeadsOn(sc, s3, DisplayProtocol.Acknowledge, [], t);
    LeadsOn(sc, s2, DisplayProtocol.Accumulate, [DisplayProtocol.Acknowledge] + [], t);
    var last := [DisplayProtocol.Accumulate] + ([DisplayProtocol.Acknowledge] + []);
    LeadsThen(sc, s1, words, s2, last, t);
    LeadsOn(sc, s, DisplayProtocol.LoadSeq, words + last, t);
    actions := [DisplayProtocol.LoadSeq] + (words + last);
  }

  /** What one turn of the loop leaves, as `ScanOne` states it. */
  ghost predicate ScannedOne(win: Window, width: nat, height: nat, i: nat,
                             last0: seq<nat>, committed0: seq<bool>, pages0: seq<Page>, damage0: Rect,
                             last1: seq<nat>, committed1: seq<bool>, pages1: seq<Page>, damage1: Rect)
    requires i < |last0| == |committed0| == |pages0| && i < |pages1|
  {
    var fresh_ := pages0[i].seqWord != last0[i];
    && pages1 == pages0[i := pages1[i]] && Answered(win, pages0[i], last0[i], pages1[i])
    && last1 == last0[i := pages0[i].seqWord] && committed1 == committed0[i := committed0[i] || fresh_]
    && damage1 == if fresh_ then damage0.Union(Placed(win, pages0[i], width, height)) else damage0
  }

  /**
   One turn of the loop is a run of the interleaving protocol's compositor, so the theorems about every
   interleaving speak of this loop.
   */
  lemma ScanIsTheProtocols(sc: DisplayProtocol.Scene, s: DisplayProtocol.State, i: nat,
                           last0: seq<nat>, committed0: seq<bool>, pages0: seq<Page>, damage0: Rect,
                           last1: seq<nat>, committed1: seq<bool>, pages1: seq<Page>, damage1: Rect)
    returns (actions: seq<DisplayProtocol.Action>, t: DisplayProtocol.State)
    requires DisplayProtocol.Shaped(sc, s) && i < |s.terms| && Mirrors(s, last0, committed0, pages0, damage0, i)
    requires i < |pages1| && ScannedOne(sc.windows[i], sc.width, sc.height, i, last0, committed0, pages0, damage0,
                                        last1, committed1, pages1, damage1)
    ensures Leads(sc, s, actions, t) && Mirrors(t, last1, committed1, pages1, damage1, i + 1)
  {
    var ctl := s.terms[i].ctl;
    assert DisplayProtocol.Control(pages0[i].seqWord, pages0[i].acked, pages0[i].damage) == ctl;
    if ctl.seqWord == last0[i] {
      actions := [DisplayProtocol.LoadSeq];
      t := DisplayProtocol.Step(sc, s, DisplayProtocol.LoadSeq);
      assert Leads(sc, t, [], t);
      LeadsOn(sc, s, DisplayProtocol.LoadSeq, [], t);
      assert [DisplayProtocol.LoadSeq] + [] == actions;
    } else {
      actions, t := ProtocolTakesUp(sc, s, i);
    }
  }

  /** The compositor's own state, and the pages and screen it shares. */
  class Compositor {
    const windows: seq<Window>
    const background: Point -> Pixel
    const width: nat
    const height: nat
    const lastSeq: array<nat>
    const committed: array<bool>
    const pages: array<Page>
    const screen: array<Pixel>

    ghost predicate Valid()
      reads this, pages
    {
      && lastSeq.Length == committed.Length == pages.Length == |windows|
      && screen.Length == width * height && width <= I32_MAX && height <= I32_MAX
      && (forall i :: 0 <= i < |windows| ==> windows[i].Sane())
      && forall i :: 0 <= i < pages.Length ==> PageOk(pages[i])
    }

    /** Everywhere on the screen, what full recomposition of the committed surfaces would put there. */
    ghost predicate Exact(surfaces: seq<seq<Pixel>>)
      requires Valid() && SurfacesOk(windows, surfaces)
      reads this, committed, pages, screen
    {
      SourcesFit(windows, committed[..], surfaces);
      forall v: nat, u: nat | v < height && u < width ::
        PixelAt(screen[..], width, v, u)
          == Expected(windows, Sources(committed[..], surfaces), background, |windows|, Point(u, v))
    }

    /** Every sequence the compositor has seen is acknowledged on its page. */
    ghost predicate Settled()
      requires Valid()
      reads this, lastSeq, pages
    {
      forall i :: 0 <= i < |windows| ==> pages[i].acked == lastSeq[i]
    }

    /** Nobody has committed and the whole screen is the background, painted once. */
    constructor (windows: seq<Window>, background: Point -> Pixel, width: nat, height: nat, pages: array<Page>,
                 screen: array<Pixel>)
      requires pages.Length == |windows| && screen.Length == width * height && width <= I32_MAX && height <= I32_MAX
      requires forall i :: 0 <= i < |windows| ==> windows[i].Sane()
      requires forall i :: 0 <= i < pages.Length ==> PageOk(pages[i])
      modifies screen
      ensures Valid() && fresh(lastSeq) && fresh(committed) && this.pages == pages && this.screen == screen
      ensures this.windows == windows && this.background == background && this.width == width && this.height == height
      ensures forall i :: 0 <= i < |windows| ==> lastSeq[i] == 0 && !committed[i]
      ensures forall surfaces :: SurfacesOk(windows, surfaces) ==> Exact(surfaces)
    {
      this.windows, this.background, this.width, this.height := windows, background, width, height;
      this.pages, this.screen := pages, screen;
      lastSeq := new nat[|windows|](_ => 0);
      committed := new bool[|windows|](_ => false);
      new;
      var nothing: seq<seq<Pixel>> := seq(|windows|, _ => []);
      Composite.Composite(screen, width, height, windows, nothing, background, Rect(0, 0, width, height));
      forall surfaces | SurfacesOk(windows, surfaces) ensures Exact(surfaces) {
        assert Sources(committed[..], surfaces) == nothing;
      }
    }

    /** One client's page: nothing if its sequence is the one last seen. */
    method ScanOne(i: nat, damage: Rect) returns (grown: Rect)
      requires Valid() && i < |windows|
      modifies lastSeq, committed, pages
      ensures Valid() && pages[..] == old(pages[..])[i := pages[i]]
      ensures Answered(windows[i], old(pages[i]), old(lastSeq[i]), pages[i])
      ensures lastSeq[..] == old(lastSeq[..])[i := old(pages[i]).seqWord]
      ensures committed[..] == old(committed[..])[i := old(committed[i]) || old(pages[i]).seqWord != old(lastSeq[i])]
      ensures grown == if old(pages[i]).seqWord == old(lastSeq[i]) then damage
                       else damage.Union(Placed(windows[i], old(pages[i]), width, height))
      ensures ScannedOne(windows[i], width, height, i, old(lastSeq[..]), old(committed[..]), old(pages[..]), damage,
                         lastSeq[..], committed[..], pages[..], grown)
    {
      var page := pages[i];
      if page.seqWord == lastSeq[i] { return damage; }
      lastSeq[i] := page.seqWord;
      committed[i] := true;
      var asked := Asked(page);
      var inside := asked.Intersect(windows[i].Bounds());
      grown := damage.Union(Placed(windows[i], page, width, height));
      InsideIsUnclipped(windows[i], asked);
      pages[i] := page.(clipped := inside != asked, acked := page.seqWord);
    }

    /** Look at every client's page: note new sequences, gather their damage, acknowledge them. */
    method Scan() returns (damage: Rect)
      requires Valid()
      modifies lastSeq, committed, pages
      ensures Valid()
      ensures forall i :: 0 <= i < |windows| ==> lastSeq[i] == old(pages[i]).seqWord
      ensures committed[..] == CommittedAfter(old(pages[..]), old(lastSeq[..]), old(committed[..]))
      ensures forall i :: 0 <= i < |windows| ==> Answered(windows[i], old(pages[i]), old(lastSeq[i]), pages[i])
      ensures Gathered(windows, old(pages[..]), old(lastSeq[..]), width, height, |windows|, damage)
    {
      damage := EMPTY;
      ghost var ps, ls, cs := pages[..], lastSeq[..], committed[..];
      var i := 0;
      while i < |windows|
        invariant 0 <= i <= |windows| && Valid()
        invariant forall j :: 0 <= j < |windows| ==> lastSeq[j] == if j < i then ps[j].seqWord else ls[j]
        invariant forall j :: 0 <= j < |windows| ==>
          committed[j] == if j < i then cs[j] || ps[j].seqWord != ls[j] else cs[j]
        invariant forall j :: 0 <= j < i ==> Answered(windows[j], ps[j], ls[j], pages[j])
        invariant forall j :: i <= j < |windows| ==> pages[j] == ps[j]
        invariant Gathered(windows, ps, ls, width, height, i, damage)
      {
        GatherOne(windows, ps, ls, width, height, i, damage);
        damage := ScanOne(i, damage);
        i := i + 1;
      }
    }

    /**
     One frame. If the screen was exact for the surfaces as they were and every client kept its contract, it is
     exact for the surfaces as they are: compositing only the damage never drifts from compositing everything.
     */
    method ServeFrame(surfaces: seq<seq<Pixel>>, ghost was: seq<seq<Pixel>>)
      requires Valid() && SurfacesOk(windows, surfaces) && SurfacesOk(windows, was)
      modifies lastSeq, committed, pages, screen
      ensures Valid()
      ensures forall i :: 0 <= i < |windows| ==> lastSeq[i] == old(pages[i]).seqWord
      ensures forall i :: 0 <= i < |windows| ==> Answered(windows[i], old(pages[i]), old(lastSeq[i]), pages[i])
      ensures committed[..] == CommittedAfter(old(pages[..]), old(lastSeq[..]), old(committed[..]))
      ensures old(Settled()) ==> Settled() && forall i :: 0 <= i < |windows| ==> pages[i].acked == pages[i].seqWord
      ensures old(Exact(was)) && AllHonest(windows, old(pages[..]), old(lastSeq[..]), old(committed[..]), was, surfaces)
        ==> Exact(surfaces)
    {
      var damage := Scan();
      ghost var before := screen[..];
      if !damage.IsEmpty() {
        var sources := Sources(committed[..], surfaces);
        SourcesFit(windows, committed[..], surfaces);
        Composite.Composite(screen, width, height, windows, sources, background, damage);
      }
      ghost var ps, ls, cs := old(pages[..]), old(lastSeq[..]), old(committed[..]);
      if old(Exact(was)) && AllHonest(windows, ps, ls, cs, was, surfaces) {
        SourcesFit(windows, committed[..], surfaces);
        forall v: nat, u: nat | v < height && u < width
          ensures PixelAt(screen[..], width, v, u)
               == Expected(windows, Sources(committed[..], surfaces), background, |windows|, Point(u, v))
        {
          if !damage.Contains(Point(u, v)) {
            OutsideIsSame(windows, ps, ls, cs, was, surfaces, background, width, height, damage, Point(u, v));
            assert PixelAt(screen[..], width, v, u) == PixelAt(old(screen[..]), width, v, u);
          }
        }
      }
    }
  }
}
