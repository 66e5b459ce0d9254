/**
 Every run of the nameset caretaker. Between requests the client may put anything in the shared page;
 during one it is blocked. What goes upstream is a trace, and the claims are about all of it.
 */
module CaretakerRuns {
  import opened ServerTree
  import opened NamesetCaretaker

  datatype Event = Stage(page: Page) | Call(ask: Ask)

  datatype System = System(ct: Caretaker, fs: Fs, page: Page, trace: seq<Sent>)

  function After(s: System, e: Event): System {
    match e
    case Stage(p) => s.(page := p)
    case Call(ask) =>
      var out := Respond(s.ct, s.fs, s.page, ask);
      System(out.ct, out.fs, out.page, s.trace + out.sent)
  }

  function Run(s: System, events: seq<Event>): System
    decreases |events|
  {
    if events == [] then s else Run(After(s, events[0]), events[1..])
  }

  // ---- the filter ---------------------------------------------------------------------------------------

  /** The name a request designates in its directory, by the bytes the server reads. */
  function Designated(req: Request, page: Page): Name
    requires req.len <= PAGE
  {
    if req.op == OPEN || req.op == OPENDIR then Split(page[..req.len])[0] else page[..req.len]
  }

  /** A request sent upstream stays inside the set wherever it touches the granted directory. */
  predicate Confined(names: seq<SetName>, dir: nat, req: Request, page: Page) {
    && (req.handle == dir ==>
          && req.op != READDIR && req.op != CLOSE
          && (OperandOf(req.op) == NameOperand || req.op == RENAME ==>
                req.len <= PAGE && InSet(names, Designated(req, page))))
    && (req.op == RENAME && req.dst == dir ==>
          req.len + req.dstLen <= PAGE && InSet(names, page[req.len..req.len + req.dstLen]))
  }

  lemma {:induction false} SplitFirst(path: Name, n: nat)
    requires n <= |path| && SLASH !in path[..n] && (n == |path| || path[n] == SLASH)
    ensures Split(path)[0] == path[..n]
  {
    if n > 0 {
      assert path[..n][0] == path[0];
      assert path[1..][..n - 1] == path[..n][1..];
      SplitFirst(path[1..], n - 1);
      assert [path[0]] + path[1..][..n - 1] == path[..n];
    }
  }

  lemma {:induction false} FirstLenFinds(page: Page, len: nat, i: nat)
    requires len <= PAGE && i <= Min(len, MAX_NAME + 1) && SLASH !in page[..i]
    ensures var n := FirstLen(page, len, i);
      n <= MAX_NAME ==> SLASH !in page[..n] && (n == len || page[n] == SLASH)
    decreases MAX_NAME + 1 - i
  {
    if i < Min(len, MAX_NAME + 1) && page[i] != SLASH {
      assert page[..i + 1] == page[..i] + [page[i]];
      FirstLenFinds(page, len, i + 1);
    }
  }

  /** What the filter approved is what the staged page designates. */
  lemma CheckedIsDesignated(op: Operation, page: Page, len: nat, w1: nat, handle: nat)
    requires len <= PAGE && OperandOf(op) == NameOperand && Checked(op, page, len) != []
    ensures PutAt(page, 0, Checked(op, page, len)) == page
    ensures Designated(Request(op, handle, len, w1, 0, 0), page) == Checked(op, page, len)
  {
    var n := if op == OPEN || op == OPENDIR then FirstLen(page, len, 0) else len;
    assert Checked(op, page, len) == page[0..n] == page[..n];
    assert page[..n] + page[n..] == page;
    if op == OPEN || op == OPENDIR {
      FirstLenFinds(page, len, 0);
      assert page[..len][..n] == page[..n];
      SplitFirst(page[..len], n);
    }
  }

  /** Writing a name back where it was read changes nothing. */
  lemma PutBack(page: Page, off: nat, len: nat)
    requires off <= PAGE
    ensures PutAt(page, off, NameAt(page, off, len)) == page
  {
    var name := NameAt(page, off, len);
    if name == [] {
      assert page[..off] + page[off..] == page;
    } else {
      assert page[..off] + page[off..off + len] + page[off + len..] == page;
    }
  }

  lemma StagingKeepsNames(page: Page, len: nat, dstLen: nat)
    requires len <= PAGE
    ensures PutAt(PutAt(page, 0, NameAt(page, 0, len)), len, NameAt(page, len, dstLen)) == page
  {
    PutBack(page, 0, len);
    PutBack(page, len, dstLen);
  }

  /** Slot 0 holds the granted directory, and no other slot does or shares a handle. */
  predicate SlotsOk(ct: Caretaker, nextHandle: nat) {
    && ct.table[0] == Some(ct.dir) && ct.dir < nextHandle && SetOk(ct.names)
    && (forall i :: 0 <= i < SLOTS && ct.table[i].Some? ==> ct.table[i].value < nextHandle)
    && (forall i, j :: 0 <= i < j < SLOTS && ct.table[i].Some? && ct.table[j].Some? ==> ct.table[i] != ct.table[j])
  }

  /** What holds of every plan: a passed request is confined and closes nothing; a shut slot is not the first. */
  predicate PlanOk(ct: Caretaker, plan: Plan) {
    match plan
    case Shut(slot, server, _) => 0 < slot < SLOTS && ct.table[slot] == Some(server)
    case Pass(req, page) => req.op != CLOSE && Confined(ct.names, ct.dir, req, page)
    case _ => true
  }

  /** A plan for a verb that names something in the granted directory. */
  lemma NamingPlanIsConfined(ct: Caretaker, page: Page, ask: Ask, nextHandle: nat)
    requires SlotsOk(ct, nextHandle) && ask.op.Some? && ask.handle == ROOT && OperandOf(ask.op.value) == NameOperand
    ensures PlanOk(ct, PlanOf(ct, page, ask))
  {
    var op, len := ask.op.value, Min(ask.len, PAGE);
    if InSet(ct.names, Checked(op, page, len)) {
      CheckedIsDesignated(op, page, len, if CarriesW1(op) then ask.w1 else 0, ct.dir);
    }
  }

  lemma PlanIsRename(ct: Caretaker, page: Page, ask: Ask)
    requires Get(ct.table, ask.handle).Some? && ask.op == Some(RENAME)
    ensures PlanOf(ct, page, ask) == PlanRename(ct, page, ask, Get(ct.table, ask.handle).value)
  {
    assert ask.op.value == RENAME && OperandOf(RENAME) == TwoNames;
  }

  lemma RenamePlanIsConfined(ct: Caretaker, page: Page, ask: Ask, nextHandle: nat)
    requires SlotsOk(ct, nextHandle) && Get(ct.table, ask.handle).Some?
    ensures PlanOk(ct, PlanRename(ct, page, ask, Get(ct.table, ask.handle).value))
  {
    var len := Min(ask.len, PAGE);
    StagingKeepsNames(page, len, Min(ask.dstLen, PAGE));
    assert page[0..len] == page[..len];
    assert Get(ct.table, ask.handle) == Some(ct.dir) ==> ask.handle == ROOT;
  }

  lemma EveryPlanIsConfined(ct: Caretaker, page: Page, ask: Ask, nextHandle: nat)
    requires SlotsOk(ct, nextHandle)
    ensures PlanOk(ct, PlanOf(ct, page, ask))
  {
    var server := Get(ct.table, ask.handle);
    if server.Some? && ask.op.Some? {
      assert server.value == ct.dir ==> ask.handle == ROOT;
      if ask.handle == ROOT && OperandOf(ask.op.value) == NameOperand {
        NamingPlanIsConfined(ct, page, ask, nextHandle);
      } else if ask.op.value == RENAME {
        RenamePlanIsConfined(ct, page, ask, nextHandle);
      }
    }
  }

  // ---- the handle books -----------------------------------------------------------------------------------

  predicate MintsIt(s: Sent, h: nat) {
    MintsHandle(s.req.op) && s.r0 == h
  }

  predicate ClosesIt(s: Sent, h: nat) {
    s.req.op == CLOSE && s.req.handle == h
  }

  /** How many times a trace minted server handle `h`, and how many times it closed it. */
  function Mints(trace: seq<Sent>, h: nat): nat {
    if trace == [] then 0
    else Mints(trace[..|trace| - 1], h) + if MintsIt(trace[|trace| - 1], h) then 1 else 0
  }

  function Closes(trace: seq<Sent>, h: nat): nat {
    if trace == [] then 0
    else Closes(trace[..|trace| - 1], h) + if ClosesIt(trace[|trace| - 1], h) then 1 else 0
  }

  /** How many of the slots `from..` hold `h`. */
  function Live(table: Table, from: nat, h: nat): nat
    requires from <= SLOTS
    decreases SLOTS - from, |table|
  {
    if from == SLOTS then 0 else Live(table, from + 1, h) + if table[from] == Some(h) then 1 else 0
  }

  function One(slot: Option<nat>, h: nat): nat {
    if slot == Some(h) then 1 else 0
  }

  lemma {:induction false} LiveUpdate(table: Table, from: nat, i: nat, slot: Option<nat>, h: nat)
    requires from <= SLOTS && i < SLOTS
    ensures Live(table[i := slot], from, h) ==
      Live(table, from, h) + if from <= i then One(slot, h) - One(table[i], h) else 0
    decreases SLOTS - from
  {
    if from < SLOTS { LiveUpdate(table, from + 1, i, slot, h); }
  }

  lemma BooksAppend(trace: seq<Sent>, s: Sent, h: nat)
    ensures Mints(trace + [s], h) == Mints(trace, h) + if MintsIt(s, h) then 1 else 0
    ensures Closes(trace + [s], h) == Closes(trace, h) + if ClosesIt(s, h) then 1 else 0
  {
    assert (trace + [s])[..|trace|] == trace;
  }

  lemma {:induction false} BooksConcat(trace: seq<Sent>, more: seq<Sent>, h: nat)
    ensures Mints(trace + more, h) == Mints(trace, h) + Mints(more, h)
    ensures Closes(trace + more, h) == Closes(trace, h) + Closes(more, h)
  {
    if more == [] {
      assert trace + more == trace;
    } else {
      var n := |more| - 1;
      assert trace + more == (trace + more[..n]) + [more[n]];
      BooksAppend(trace + more[..n], more[n], h);
      BooksConcat(trace, more[..n], h);
    }
  }

  /**
   The books for one handle: minted at most once, and then either in exactly one slot or closed exactly
   once. A handle never minted through the caretaker is in no slot and was never closed through it.
   */
  predicate Balanced(table: Table, trace: seq<Sent>, nextHandle: nat, h: nat) {
    && Mints(trace, h) == Live(table, 1, h) + Closes(trace, h) <= 1
    && (Mints(trace, h) > 0 ==> h < nextHandle)
  }

  ghost predicate Inv(s: System) {
    && SlotsOk(s.ct, s.fs.nextHandle)
    && (forall h: nat :: Balanced(s.ct.table, s.trace, s.fs.nextHandle, h))
    && forall k :: 0 <= k < |s.trace| ==> Confined(s.ct.names, s.ct.dir, s.trace[k].req, s.trace[k].page)
  }

  /** What one request does to the books of one handle: what it mints it installs or closes. */
  predicate Settles(ct: Caretaker, next: nat, out: Out, h: nat) {
    && Mints(out.sent, h) + Live(ct.table, 1, h) == Live(out.ct.table, 1, h) + Closes(out.sent, h)
    && next <= out.fs.nextHandle
    && (Mints(out.sent, h) > 0 ==> next <= h < out.fs.nextHandle && Mints(out.sent, h) == 1)
  }

  lemma OneSent(s: Sent, h: nat)
    ensures Mints([s], h) == if MintsIt(s, h) then 1 else 0
    ensures Closes([s], h) == if ClosesIt(s, h) then 1 else 0
  {
    BooksAppend([], s, h);
    assert [] + [s] == [s];
  }

  /** What a forwarded request leaves, as far as handles go. */
  predicate FreshOut(ct: Caretaker, next: nat, req: Request, page: Page, out: Out) {
    && out.ct == ct && out.sent == [Sent(req, page, out.r0)]
    && (if MintsHandle(req.op) && out.r0 >= 0 then out.r0 == next && out.fs.nextHandle == next + 1
        else out.fs.nextHandle == next)
  }

  lemma ForwardIsFresh(ct: Caretaker, fs: Fs, page: Page, req: Request)
    ensures FreshOut(ct, fs.nextHandle, req, page, Forward(ct, fs, page, req))
  {
    HandlesAreFresh(fs, req, page);
  }

  /** What installing a minted handle leaves: it has a slot, or it has been closed again. */
  predicate InstalledAs(mid: Out, inst: Out) {
    var slot := FreeSlot(mid.ct.table, 1);
    if mid.r0 < 0 then inst == mid
    else if slot.Some? then
      && inst.ct == mid.ct.(table := mid.ct.table[slot.value := Some(mid.r0)]) && inst.sent == mid.sent
      && inst.fs.nextHandle == mid.fs.nextHandle
    else
      && inst.ct == mid.ct && inst.fs.nextHandle == mid.fs.nextHandle
      && |inst.sent| == |mid.sent| + 1 && inst.sent[..|mid.sent|] == mid.sent
      && inst.sent[|mid.sent|].req == Request(CLOSE, mid.r0, 0, 0, 0, 0)
  }

  lemma InstalledShape(mid: Out)
    ensures InstalledAs(mid, Installed(mid))
  {
    if mid.r0 >= 0 && FreeSlot(mid.ct.table, 1).None? {
      ForwardIsFresh(mid.ct, mid.fs, mid.page, Request(CLOSE, mid.r0, 0, 0, 0, 0));
    }
  }

  lemma SlottedSettles(ct: Caretaker, next: nat, mid: Out, inst: Out, slot: nat, h: nat)
    requires SlotsOk(ct, next) && 0 < slot < SLOTS && ct.table[slot].None? && mid.r0 == next && |mid.sent| == 1
    requires MintsHandle(mid.sent[0].req.op) && mid.sent == [Sent(mid.sent[0].req, mid.sent[0].page, mid.r0)]
    requires inst.ct == ct.(table := ct.table[slot := Some(mid.r0)]) && inst.sent == mid.sent
    requires inst.fs.nextHandle == next + 1
    ensures Settles(ct, next, inst, h)
  {
    OneSent(mid.sent[0], h);
    LiveUpdate(ct.table, 1, slot, Some(mid.r0), h);
  }

  lemma InstalledSettles(ct: Caretaker, next: nat, req: Request, page: Page, mid: Out, inst: Out, h: nat)
    requires SlotsOk(ct, next) && MintsHandle(req.op) && FreshOut(ct, next, req, page, mid) && InstalledAs(mid, inst)
    ensures Settles(ct, next, inst, h)
  {
    OneSent(mid.sent[0], h);
    if mid.r0 >= 0 {
      var slot := FreeSlot(ct.table, 1);
      if slot.Some? {
        SlottedSettles(ct, next, mid, inst, slot.value, h);
      } else {
        assert inst.sent == mid.sent + [inst.sent[1]];
        BooksAppend(mid.sent, inst.sent[1], h);
      }
    }
  }

  lemma InstalledKeepsSlots(ct: Caretaker, next: nat, req: Request, page: Page, mid: Out, inst: Out)
    requires SlotsOk(ct, next) && MintsHandle(req.op) && FreshOut(ct, next, req, page, mid) && InstalledAs(mid, inst)
    ensures SlotsOk(inst.ct, inst.fs.nextHandle) && inst.ct.names == ct.names && inst.ct.dir == ct.dir
    ensures forall k :: 0 <= k < |inst.sent| ==>
      (k == 0 && inst.sent[k] == mid.sent[0]) || inst.sent[k].req == Request(CLOSE, next, 0, 0, 0, 0)
  {
  }

  lemma QuietSettles(ct: Caretaker, next: nat, req: Request, page: Page, out: Out, h: nat)
    requires !MintsHandle(req.op) && req.op != CLOSE && FreshOut(ct, next, req, page, out)
    ensures Settles(ct, next, out, h)
  {
    OneSent(out.sent[0], h);
  }

  lemma ShutSettles(ct: Caretaker, next: nat, slot: nat, page: Page, out: Out, h: nat)
    requires SlotsOk(ct, next) && 0 < slot < SLOTS && ct.table[slot].Some?
    requires FreshOut(ct.(table := ct.table[slot := None]), next, Request(CLOSE, ct.table[slot].value, 0, 0, 0, 0), page, out)
    ensures Settles(ct, next, out, h) && SlotsOk(out.ct, out.fs.nextHandle)
  {
    OneSent(out.sent[0], h);
    LiveUpdate(ct.table, 1, slot, None, h);
  }

  lemma ActSettles(ct: Caretaker, fs: Fs, plan: Plan, h: nat)
    requires SlotsOk(ct, fs.nextHandle) && PlanOk(ct, plan)
    ensures Settles(ct, fs.nextHandle, Act(ct, fs, plan), h)
  {
    match plan {
      case Deny(_, _) =>
      case Reveal(_, _) =>
      case Shut(slot, server, page) =>
        var req := Request(CLOSE, server, 0, 0, 0, 0);
        ForwardIsFresh(ct.(table := ct.table[slot := None]), fs, page, req);
        ShutSettles(ct, fs.nextHandle, slot, page, Act(ct, fs, plan), h);
      case Pass(req, page) =>
        ForwardIsFresh(ct, fs, page, req);
        if MintsHandle(req.op) {
          InstalledShape(Forward(ct, fs, page, req));
          InstalledSettles(ct, fs.nextHandle, req, page, Forward(ct, fs, page, req), Act(ct, fs, plan), h);
        } else {
          QuietSettles(ct, fs.nextHandle, req, page, Forward(ct, fs, page, req), h);
        }
    }
  }

  lemma ActKeeps(ct: Caretaker, fs: Fs, plan: Plan)
    requires SlotsOk(ct, fs.nextHandle) && PlanOk(ct, plan)
    ensures var out := Act(ct, fs, plan);
      && SlotsOk(out.ct, out.fs.nextHandle) && out.ct.names == ct.names && out.ct.dir == ct.dir
      && forall k :: 0 <= k < |out.sent| ==> Confined(ct.names, ct.dir, out.sent[k].req, out.sent[k].page)
  {
    match plan {
      case Deny(_, _) =>
      case Reveal(_, _) =>
      case Shut(slot, server, page) =>
        var req := Request(CLOSE, server, 0, 0, 0, 0);
        ForwardIsFresh(ct.(table := ct.table[slot := None]), fs, page, req);
        ShutSettles(ct, fs.nextHandle, slot, page, Act(ct, fs, plan), 0);
      case Pass(req, page) =>
        ForwardIsFresh(ct, fs, page, req);
        if MintsHandle(req.op) {
          InstalledShape(Forward(ct, fs, page, req));
          InstalledKeepsSlots(ct, fs.nextHandle, req, page, Forward(ct, fs, page, req), Act(ct, fs, plan));
        }
    }
  }

  lemma EventKeepsInv(s: System, e: Event)
    requires Inv(s)
    ensures Inv(After(s, e)) && After(s, e).ct.names == s.ct.names && After(s, e).ct.dir == s.ct.dir
  {
    if e.Call? {
      var plan := PlanOf(s.ct, s.page, e.ask);
      EveryPlanIsConfined(s.ct, s.page, e.ask, s.fs.nextHandle);
      CallKeepsInv(s, plan);
    }
  }

  lemma CallKeepsInv(s: System, plan: Plan)
    requires Inv(s) && PlanOk(s.ct, plan)
    ensures var out := Act(s.ct, s.fs, plan);
      Inv(System(out.ct, out.fs, out.page, s.trace + out.sent)) && out.ct.names == s.ct.names && out.ct.dir == s.ct.dir
  {
    var out := Act(s.ct, s.fs, plan);
    ActKeeps(s.ct, s.fs, plan);
    forall h: nat ensures Balanced(out.ct.table, s.trace + out.sent, out.fs.nextHandle, h) {
      ActSettles(s.ct, s.fs, plan, h);
      BooksConcat(s.trace, out.sent, h);
      assert Balanced(s.ct.table, s.trace, s.fs.nextHandle, h);
    }
  }

  /** A caretaker as it starts: the granted directory in slot 0, nothing sent yet. */
  predicate Fresh(s: System) {
    && s.trace == [] && SetOk(s.ct.names) && s.ct.dir < s.fs.nextHandle
    && s.ct.table[0] == Some(s.ct.dir) && forall i :: 1 <= i < SLOTS ==> s.ct.table[i].None?
  }

  lemma {:induction false} NothingLive(table: Table, from: nat, h: nat)
    requires 1 <= from <= SLOTS && forall i :: 1 <= i < SLOTS ==> table[i].None?
    ensures Live(table, from, h) == 0
    decreases SLOTS - from
  {
    if from < SLOTS { NothingLive(table, from + 1, h); }
  }

  /**
   In every run: whatever was sent against the granted directory named something in the set, by the
   bytes the server read; slot 0 still holds that directory; and every server handle minted through the
   caretaker is in exactly one slot or has been closed exactly once.
   */
  lemma {:induction false} EveryRunIsConfined(s: System, events: seq<Event>)
    requires Inv(s)
    ensures Inv(Run(s, events)) && Run(s, events).ct.names == s.ct.names && Run(s, events).ct.dir == s.ct.dir
    decreases |events|
  {
    if events != [] {
      EventKeepsInv(s, events[0]);
      EveryRunIsConfined(After(s, events[0]), events[1..]);
    }
  }

  lemma FreshRunIsConfined(s: System, events: seq<Event>)
    requires Fresh(s)
    ensures Inv(Run(s, events)) && Run(s, events).ct.names == s.ct.names && Run(s, events).ct.dir == s.ct.dir
  {
    forall h: nat ensures Balanced(s.ct.table, s.trace, s.fs.nextHandle, h) {
      NothingLive(s.ct.table, 1, h);
    }
    EveryRunIsConfined(s, events);
  }
}
