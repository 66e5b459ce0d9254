/**
 The file caretaker: a directory capability attenuated to one file. Its client sees one name and one
 handle; a request that gets through is sent on the handle opened at start-up, and a grant without the
 write direction sends nothing that mutates.
 */
module FileCaretaker {
  import opened ServerTree
  import opened TreeLaws

  /** The client's one handle. */
  const HANDLE: nat := 0
  const MAX_NAME: nat := 16

  datatype Policy = Local | Forwarded | Declined(errno: Errno)

  /** What a file capability answers for each verb. */
  function PolicyOf(op: Operation): Policy {
    match op
    case OPEN => Local
    case CLOSE => Local
    case READ => Forwarded
    case WRITE => Forwarded
    case FSTAT => Forwarded
    case TRUNCATE => Forwarded
    case GETXATTR => Forwarded
    case SETXATTR => Forwarded
    case LISTXATTR => Forwarded
    case REMOVEXATTR => Forwarded
    case STATFS => Forwarded
    case SYNC => Forwarded
    case _ => Declined(ENOTDIR)
  }

  /** `handle` is the server's handle for the granted file, fixed for life. */
  datatype Grant = Grant(handle: nat, name: Name, writable: bool)

  datatype Ask = Ask(op: Option<Operation>, handle: nat, len: nat, w1: nat)

  datatype Verdict = Reply(r0: int) | Send(req: Request)

  /** The one decision: an answer given here, or the request to send. */
  function Decide(g: Grant, page: Page, ask: Ask): Verdict {
    if ask.op.None? then Reply(-(EBADF as int))
    else
      var op, len := ask.op.value, Min(ask.len, PAGE);
      match PolicyOf(op)
      case Local =>
        if op == OPEN then
          if len == |g.name| && page[..len] == g.name then Reply(HANDLE) else Reply(-(ENOENT as int))
        else if ask.handle == HANDLE then Reply(0)
        else Reply(-(EBADF as int))
      case Forwarded =>
        if ask.handle != HANDLE then Reply(-(EBADF as int))
        else if Mutates(op) && !g.writable then Reply(-(EROFS as int))
        else Send(Request(op, g.handle, if CarriesLen(op) then len else 0, if CarriesW1(op) then ask.w1 else 0, 0, 0))
      case Declined(errno) => Reply(-(errno as int))
  }

  /** Between requests the client stages anything, and the server's other clients do anything. */
  datatype Event = Stage(page: Page) | Others(fs: Fs) | Call(ask: Ask)

  datatype System = System(fs: Fs, page: Page, trace: seq<Request>)

  datatype Out = Out(s: System, r0: int)

  function Respond(g: Grant, s: System, ask: Ask): Out {
    match Decide(g, s.page, ask)
    case Reply(r0) => Out(s, r0)
    case Send(req) =>
      var a := Serve(s.fs, req, s.page);
      Out(System(a.fs, a.page, s.trace + [req]), a.r0)
  }

  function After(g: Grant, s: System, e: Event): System {
    match e
    case Stage(p) => s.(page := p)
    case Others(fs) => s.(fs := fs)
    case Call(ask) => Respond(g, s, ask).s
  }

  function Run(g: Grant, s: System, events: seq<Event>): System
    decreases |events|
  {
    if events == [] then s else Run(g, After(g, s, events[0]), events[1..])
  }

  // ---- what goes upstream ---------------------------------------------------------------------------------

  /** A request this grant may send: its own handle, never a close, no mutation without the direction. */
  predicate Allowed(g: Grant, req: Request) {
    && req.handle == g.handle && req.op !in {OPEN, CLOSE} && OperandOf(req.op) !in {NameOperand, TwoNames}
    && !MintsHandle(req.op) && (Mutates(req.op) ==> g.writable)
  }

  /**
   In every run, whatever the client stages and asks and whatever the server's other clients do, only the
   granted handle is sent upstream and it is never closed there.
   */
  lemma {:induction false} OnlyTheGrantedHandle(g: Grant, s: System, events: seq<Event>)
    requires forall k :: 0 <= k < |s.trace| ==> Allowed(g, s.trace[k])
    ensures forall k :: 0 <= k < |Run(g, s, events).trace| ==> Allowed(g, Run(g, s, events).trace[k])
    decreases |events|
  {
    if events != [] { OnlyTheGrantedHandle(g, After(g, s, events[0]), events[1..]); }
  }

  // ---- what the client gets -----------------------------------------------------------------------------------

  /** OPEN of the granted name is handle 0, and no other name exists; CLOSE is good on that handle alone. */
  lemma OpenAndClose(g: Grant, s: System, ask: Ask)
    requires ask.len <= PAGE
    ensures ask.op == Some(OPEN) ==>
      Respond(g, s, ask) == Out(s, if s.page[..ask.len] == g.name then 0 else -(ENOENT as int))
    ensures ask.op == Some(CLOSE) ==> Respond(g, s, ask) == Out(s, if ask.handle == 0 then 0 else -(EBADF as int))
  {
  }

  /** The verbs of a file: everything that neither names nor makes nor lists something. */
  predicate OfAFile(op: Operation) {
    op in {READ, WRITE, FSTAT, TRUNCATE, GETXATTR, SETXATTR, LISTXATTR, REMOVEXATTR, STATFS, SYNC}
  }

  /** Those that change the file or act on the device. */
  predicate Changing(op: Operation) {
    op in {WRITE, TRUNCATE, SETXATTR, REMOVEXATTR, SYNC}
  }

  /**
   A verb of a file on handle 0, within the grant's direction, is the server's own answer to the client's own
   request on the granted handle: the reply, the page and the tree.
   */
  lemma AnsweredAsAsked(g: Grant, s: System, ask: Ask)
    requires ask.op.Some? && OfAFile(ask.op.value) && ask.handle == 0 && ask.len <= PAGE
    requires Changing(ask.op.value) ==> g.writable
    ensures var out, a := Respond(g, s, ask), Serve(s.fs, Request(ask.op.value, g.handle, ask.len, ask.w1, 0, 0), s.page);
      out.r0 == a.r0 && out.s.page == a.page && out.s.fs == a.fs && |out.s.trace| == |s.trace| + 1
  {
    ChangingMutates(ask.op.value);
    ServeReadsWhatItCarries(s.fs, Request(ask.op.value, g.handle, ask.len, ask.w1, 0, 0), s.page);
  }

  /** Everything else is refused here: another handle, a change without the direction, a directory's verb, no verb. */
  lemma RefusedHere(g: Grant, s: System, ask: Ask)
    ensures ask.op.None? ==> Respond(g, s, ask) == Out(s, -(EBADF as int))
    ensures ask.op.Some? && OfAFile(ask.op.value) && ask.handle != 0 ==> Respond(g, s, ask) == Out(s, -(EBADF as int))
    ensures ask.op.Some? && Changing(ask.op.value) && ask.handle == 0 && !g.writable ==>
      Respond(g, s, ask) == Out(s, -(EROFS as int))
    ensures ask.op.Some? && !OfAFile(ask.op.value) && ask.op.value != OPEN && ask.op.value != CLOSE ==>
      Respond(g, s, ask) == Out(s, -(ENOTDIR as int))
  {
    if ask.op.Some? && OfAFile(ask.op.value) { ChangingMutates(ask.op.value); }
  }

  lemma ChangingMutates(op: Operation)
    requires OfAFile(op)
    ensures Mutates(op) <==> Changing(op)
  {
    assert Write in NeedsAll(WRITE) * {Write, Create, Remove} && Write in NeedsAll(TRUNCATE) * {Write, Create, Remove};
    assert Write in NeedsAll(SETXATTR) * {Write, Create, Remove} && Write in NeedsAll(REMOVEXATTR) * {Write, Create, Remove};
    assert Write in NeedsAll(SYNC) * {Write, Create, Remove};
  }

  // ---- what it does to the server ------------------------------------------------------------------------------

  /** A verb that does not mutate, sent on any handle, leaves the server exactly as it was. */
  lemma ReadOnlyIsPure(fs: Fs, req: Request, page: Page)
    requires PolicyOf(req.op) == Forwarded && !Mutates(req.op)
    ensures Serve(fs, req, page).fs == fs
  {
    assert Write in NeedsAll(WRITE) * {Write, Create, Remove} && Write in NeedsAll(TRUNCATE) * {Write, Create, Remove};
    assert Write in NeedsAll(SETXATTR) * {Write, Create, Remove} && Write in NeedsAll(REMOVEXATTR) * {Write, Create, Remove};
    assert Write in NeedsAll(SYNC) * {Write, Create, Remove};
  }

  /** Only the node behind the handle differs, it is still a file or still a directory, and no handle moved. */
  predicate OnlyNode(f: Fs, f': Fs, n: nat) {
    && f'.handles == f.handles && f'.nextHandle == f.nextHandle && f'.nodes.Keys == f.nodes.Keys
    && (forall m :: m in f.nodes && m != n ==> f'.nodes[m] == f.nodes[m])
    && (n in f.nodes ==> (f'.nodes[n].body.Dir? ==> f'.nodes[n].body == f.nodes[n].body))
  }

  lemma ForwardedStaysOnTheFile(fs: Fs, req: Request, page: Page)
    requires PolicyOf(req.op) == Forwarded
    ensures req.handle in fs.handles ==> OnlyNode(fs, Serve(fs, req, page).fs, fs.handles[req.handle].node)
    ensures req.handle !in fs.handles ==> Serve(fs, req, page).fs == fs
  {
  }

  /** The server as its other clients left it: the last word any of them had. */
  function Left(fs: Fs, events: seq<Event>): Fs {
    if events == [] then fs
    else
      match events[|events| - 1]
      case Others(f) => f
      case _ => Left(fs, events[..|events| - 1])
  }

  lemma LeftStep(fs: Fs, e: Event, rest: seq<Event>)
    ensures Left(fs, [e] + rest) == Left(match e case Others(f) => f case _ => fs, rest)
    decreases |rest|
  {
    var n := |rest|;
    if n > 0 {
      assert ([e] + rest)[n] == rest[n - 1];
      assert ([e] + rest)[..n] == [e] + rest[..n - 1];
      LeftStep(fs, e, rest[..n - 1]);
    }
  }

  /** Under a read-only grant no request sequence changes anything: the server is what the others left. */
  lemma {:induction false} ReadOnlyChangesNothing(g: Grant, s: System, events: seq<Event>)
    requires !g.writable
    ensures Run(g, s, events).fs == Left(s.fs, events)
    decreases |events|
  {
    if events != [] {
      var e, rest := events[0], events[1..];
      assert events == [e] + rest;
      LeftStep(s.fs, e, rest);
      if e.Call? {
        var v := Decide(g, s.page, e.ask);
        if v.Send? { ReadOnlyIsPure(s.fs, v.req, s.page); }
      }
      ReadOnlyChangesNothing(g, After(g, s, e), rest);
    }
  }

  /** With the write direction, requests alone touch no node but the granted file's, and no handle. */
  lemma {:induction false} RequestsStayOnTheFile(g: Grant, s: System, events: seq<Event>, n: nat)
    requires g.handle in s.fs.handles && s.fs.handles[g.handle].node == n
    requires forall k :: 0 <= k < |events| ==> !events[k].Others?
    ensures OnlyNode(s.fs, Run(g, s, events).fs, n)
    decreases |events|
  {
    if events != [] {
      var s1 := After(g, s, events[0]);
      if events[0].Call? {
        var v := Decide(g, s.page, events[0].ask);
        if v.Send? { ForwardedStaysOnTheFile(s.fs, v.req, s.page); }
      }
      RequestsStayOnTheFile(g, s1, events[1..], n);
    }
  }

  // ---- the running program ------------------------------------------------------------------------------------

  /** The request that opens the granted name, once, through the directory capability. */
  function OpenOnce(root: nat, name: Name): Request {
    Request(OPEN, root, |name|, 0, 0, 0)
  }

  /** The new handle stands on the file that the name is in the directory behind `root`. */
  predicate NamesTheFile(fs: Fs, fs': Fs, root: nat, name: Name, handle: nat) {
    && root in fs.handles && fs.handles[root].node in fs.nodes && fs.nodes[fs.handles[root].node].body.Dir?
    && handle in fs'.handles && fs'.handles[handle].node in fs.nodes
    && Lookup(fs.nodes[fs.handles[root].node].body.entries, name) == Some(fs'.handles[handle].node)
    && fs.nodes[fs'.handles[handle].node].body.File? && fs'.nodes == fs.nodes
  }

  /** A name without a slash is its own only component. */
  lemma {:induction false} SplitWhole(name: Name)
    requires SLASH !in name
    ensures Split(name) == [name]
  {
    if name != [] {
      SplitWhole(name[1..]);
      assert [name[0]] + name[1..] == name;
    }
  }

  lemma OpeningNamesTheFile(fs: Fs, root: nat, name: Name, page: Page)
    requires SLASH !in name && |name| <= PAGE && page[..|name|] == name
    requires Serve(fs, OpenOnce(root, name), page).r0 >= 0
    ensures NamesTheFile(fs, Serve(fs, OpenOnce(root, name), page).fs, root, name, fs.nextHandle)
  {
    SplitWhole(name);
    assert Split(name)[..0] == [];
  }

  class Caretaker {
    const grant: Grant
    const page: array<Byte>
    var fs: Fs
    ghost var trace: seq<Request>

    ghost predicate Valid()
      reads this
    {
      page.Length == PAGE
    }

    ghost function State(): System
      requires Valid()
      reads this, page
    {
      System(fs, page[..], trace)
    }

    constructor (grant: Grant, page: array<Byte>, fs: Fs)
      requires page.Length == PAGE
      ensures Valid() && this.page == page && this.grant == grant && State() == System(fs, page[..], [])
    {
      this.grant, this.page, this.fs, trace := grant, page, fs, [];
    }

    /** Whether the page starts with the granted name. */
    method NameMatches(len: nat) returns (same: bool)
      requires Valid() && len <= PAGE
      ensures same == (len == |grant.name| && page[..len] == grant.name)
    {
      if len != |grant.name| { return false; }
      var i := 0;
      while i < len
        invariant i <= len && page[..i] == grant.name[..i]
      {
        if page[i] != grant.name[i] {
          assert page[..len][i] != grant.name[i];
          return false;
        }
        i := i + 1;
      }
      return true;
    }

    /** One turn of the loop. */
    method ServeOne(ask: Ask) returns (r0: int)
      requires Valid()
      modifies this, page
      ensures State() == After(grant, old(State()), Call(ask))
      ensures r0 == Respond(grant, old(State()), ask).r0
    {
      if ask.op.None? { return -(EBADF as int); }
      var op, len := ask.op.value, Min(ask.len, PAGE);
      match PolicyOf(op) {
        case Local =>
          if op == OPEN {
            var same := NameMatches(len);
            return if same then HANDLE else -(ENOENT as int);
          }
          return if ask.handle == HANDLE then 0 else -(EBADF as int);
        case Forwarded =>
          if ask.handle != HANDLE { return -(EBADF as int); }
          if Mutates(op) && !grant.writable { return -(EROFS as int); }
          var req := Request(op, grant.handle, if CarriesLen(op) then len else 0, if CarriesW1(op) then ask.w1 else 0, 0, 0);
          var a := Serve(fs, req, page[..]);
          fs, r0, trace := a.fs, a.r0, trace + [req];
          CopyPage(page, a.page);
        case Declined(errno) =>
          return -(errno as int);
      }
    }
  }

  method CopyPage(page: array<Byte>, bytes: Page)
    requires page.Length == PAGE
    modifies page
    ensures page[..] == bytes
  {
    forall i | 0 <= i < PAGE { page[i] := bytes[i]; }
  }

  /** Copy the name to the start of the page. */
  method Put(page: array<Byte>, name: Name)
    requires page.Length == PAGE && |name| <= PAGE
    modifies page
    ensures page[..|name|] == name && page[|name|..] == old(page[|name|..])
  {
    var i := 0;
    while i < |name|
      invariant i <= |name| && page[..i] == name[..i] && page[|name|..] == old(page[|name|..])
    {
      page[i] := name[i];
      i := i + 1;
    }
  }

  /**
   Start-up: open the granted name through the directory capability and never again. With nothing to serve
   there is no caretaker; otherwise its handle is new, and stands on the file the name meant in that directory.
   */
  method Start(root: nat, name: Name, writable: bool, page: array<Byte>, fs: Fs) returns (c: Caretaker?)
    requires page.Length == PAGE && |name| <= MAX_NAME
    modifies page
    ensures c == null <==> Serve(fs, OpenOnce(root, name), Fill(old(page[..]), name)).r0 < 0
    ensures c != null ==>
      && fresh(c) && c.Valid() && c.page == page && c.grant == Grant(fs.nextHandle, name, writable) && c.trace == []
      && c.grant.handle in c.fs.handles && (SLASH !in name ==> NamesTheFile(fs, c.fs, root, name, c.grant.handle))
  {
    Put(page, name);
    assert page[..] == Fill(old(page[..]), name);
    var req := OpenOnce(root, name);
    var staged: Page := page[..];
    HandlesAreFresh(fs, req, staged);
    var a := Serve(fs, req, staged);
    CopyPage(page, a.page);
    if a.r0 < 0 { return null; }
    if SLASH !in name { OpeningNamesTheFile(fs, root, name, staged); }
    c := new Caretaker(Grant(a.r0, name, writable), page, a.fs);
  }
}
