/**
 The nameset caretaker as it runs: a table of sixteen slots and one shared page, both changed in place by
 the serve loop, and a file server reached only through the page. Each operation is proved to do what the
 request function of `NamesetCaretaker` says, so the claims about every run are claims about this code.
 */
module NamesetProxy {
  import opened ServerTree
  import opened NamesetCaretaker
  import opened CaretakerRuns

  /** The listing, one record on: it either does not fit and ends there, or comes next. */
  lemma ListedNext(names: seq<SetName>, i: nat, room: nat, done: seq<Byte>)
    requires i < |names|
    ensures var rec := Record(names[i].name, names[i].isDir);
      if |rec| > room then done + Listed(names[i..], room) == done
      else done + Listed(names[i..], room) == (done + rec) + Listed(names[i + 1..], room - |rec|)
  {
    assert names[i..][0] == names[i] && names[i..][1..] == names[i + 1..];
  }

  lemma PutNext(was: Page, done: seq<Byte>, rec: seq<Byte>)
    requires |done| + |rec| <= PAGE
    ensures PutAt(PutAt(was, 0, done), |done|, rec) == PutAt(was, 0, done + rec)
  {
  }

  lemma PutNothing(was: Page)
    ensures PutAt(was, 0, []) == was
  {
  }

  class Proxy {
    const dir: nat
    const names: seq<SetName>
    const table: array<Option<nat>>
    const page: array<Byte>
    var fs: Fs
    ghost var trace: seq<Sent>

    ghost predicate Valid()
      reads this
    {
      table.Length == SLOTS && page.Length == PAGE
    }

    ghost function Ct(): Caretaker
      requires Valid()
      reads this, table
    {
      Caretaker(table[..], dir, names)
    }

    ghost function Shared(): Page
      requires Valid()
      reads this, page
    {
      page[..]
    }

    ghost function State(): System
      requires Valid()
      reads this, table, page
    {
      System(Ct(), fs, Shared(), trace)
    }

    /** Slot 0 is the granted directory; the page is as the wiring left it. */
    constructor (dir: nat, names: seq<SetName>, fs: Fs, page: array<Byte>)
      requires page.Length == PAGE && SetOk(names) && dir < fs.nextHandle
      ensures Valid() && Fresh(State()) && fresh(table) && this.page == page
      ensures Ct().dir == dir && Ct().names == names && this.fs == fs
    {
      this.dir, this.names, this.fs, this.page := dir, names, fs, page;
      trace := [];
      var t: array<Option<nat>> := new Option<nat>[SLOTS](i => if i == 0 then Some(dir) else None);
      table := t;
    }

    /** Copy bytes into the page, stopping at its end. */
    method PutBytes(off: nat, bytes: seq<Byte>)
      requires Valid() && off <= PAGE
      modifies page
      ensures Shared() == PutAt(old(Shared()), off, bytes)
    {
      ghost var was := Shared();
      var i := 0;
      while i < |bytes| && off + i < PAGE
        invariant i <= |bytes| && off + i <= PAGE
        invariant page[..] == was[..off] + bytes[..i] + was[off + i..]
      {
        page[off + i] := bytes[i];
        i := i + 1;
        assert bytes[..i] == bytes[..i - 1] + [bytes[i - 1]];
      }
    }

    /** Where the first component of the staged name ends. */
    method FirstComponent(len: nat) returns (n: nat)
      requires Valid() && len <= PAGE
      ensures n == FirstLen(Shared(), len, 0)
    {
      var i := 0;
      while i < len && i < MAX_NAME + 1
        invariant i <= Min(len, MAX_NAME + 1)
        invariant FirstLen(Shared(), len, 0) == FirstLen(Shared(), len, i)
      {
        if page[i] == SLASH { return i; }
        i := i + 1;
      }
      return len;
    }

    /** The first free slot after the granted directory's takes the handle. */
    method Install(server: nat) returns (client: Option<nat>)
      requires Valid()
      modifies table
      ensures client == FreeSlot(old(Ct()).table, 1)
      ensures Ct().table == match client case None => old(Ct()).table case Some(i) => old(Ct()).table[i := Some(server)]
    {
      ghost var was: Table := table[..];
      var i := 1;
      while i < SLOTS
        invariant 1 <= i <= SLOTS && table[..] == was
        invariant FreeSlot(was, 1) == FreeSlot(was, i)
      {
        if table[i].None? {
          table[i] := Some(server);
          return Some(i);
        }
        i := i + 1;
      }
      return None;
    }

    /** One request to the file server, which reads and writes the same page. */
    method CallServer(req: Request) returns (r0: int, r1: nat)
      requires Valid()
      modifies this, page
      ensures table[..] == old(table[..])
      ensures var a := Serve(old(fs), req, old(Shared())); fs == a.fs && Shared() == a.page && r0 == a.r0 && r1 == a.r1
      ensures trace == old(trace) + [Sent(req, old(Shared()), r0)]
    {
      var staged: Page := page[..];
      var a := Serve(fs, req, staged);
      fs, r0, r1 := a.fs, a.r0, a.r1;
      trace := trace + [Sent(req, staged, r0)];
      forall i | 0 <= i < PAGE { page[i] := a.page[i]; }
      assert page[..] == a.page;
    }

    method Contains(name: Name) returns (found: bool)
      ensures found == InSet(names, name)
    {
      var i := 0;
      while i < |names|
        invariant i <= |names| && forall k :: 0 <= k < i ==> names[k].name != name
      {
        if names[i].name == name { return true; }
        i := i + 1;
      }
      return false;
    }

    method ReadName(off: nat, len: nat) returns (name: Name)
      requires Valid()
      ensures name == NameAt(Shared(), off, len)
    {
      if len == 0 || len > MAX_NAME || off + len > PAGE { return []; }
      name := [];
      var i := 0;
      while i < len
        invariant i <= len && name == page[off..off + i]
      {
        name := name + [page[off + i]];
        i := i + 1;
      }
    }

    /** The one question, asked of the name in the page; an approved name is written back. */
    method Filter(op: Operation, len: nat) returns (ok: bool)
      requires Valid() && len <= PAGE
      modifies page
      ensures ok == InSet(names, Checked(op, old(Shared()), len))
      ensures Shared() == if ok then PutAt(old(Shared()), 0, Checked(op, old(Shared()), len)) else old(Shared())
    {
      var first := len;
      if op == OPEN || op == OPENDIR { first := FirstComponent(len); }
      var name := ReadName(0, first);
      ok := Contains(name);
      if ok { PutBytes(0, name); }
    }

    /** The set as directory records, from the cursor, whole records only. */
    method List(cursor: nat) returns (n: nat)
      requires Valid()
      modifies page
      ensures var bytes := Listed(if cursor <= |names| then names[cursor..] else [], PAGE);
        n == |bytes| && Shared() == PutAt(old(Shared()), 0, bytes)
    {
      n := 0;
      ghost var was := Shared();
      PutNothing(was);
      if cursor > |names| { return; }
      ghost var done: seq<Byte> := [];
      var i := cursor;
      while i < |names|
        invariant cursor <= i <= |names| && n == |done| <= PAGE
        invariant Shared() == PutAt(was, 0, done)
        invariant done + Listed(names[i..], PAGE - n) == Listed(names[cursor..], PAGE)
      {
        var rec := Record(names[i].name, names[i].isDir);
        ListedNext(names, i, PAGE - n, done);
        if n + |rec| > PAGE { break; }
        PutBytes(n, rec);
        PutNext(was, done, rec);
        done := done + rec;
        n, i := n + |rec|, i + 1;
      }
    }

    /** What a reply and the new state must be for a plan carried out. */
    twostate predicate Did(plan: Plan, r0: int, r1: nat)
      requires old(Valid()) && Valid()
      reads this, table, page
    {
      var out := Act(old(Ct()), old(fs), plan);
      Ct() == out.ct && fs == out.fs && Shared() == out.page && r0 == out.r0 && r1 == out.r1 && trace == old(trace) + out.sent
    }

    /** RENAME's question: both names where they touch the granted directory; approved, both are written back. */
    method FilterRename(filtered: bool, to: Option<nat>, len: nat, dstLen: nat) returns (ok: bool)
      requires Valid() && len <= PAGE
      modifies page
      ensures var src, dst := NameAt(old(Shared()), 0, len), NameAt(old(Shared()), len, dstLen);
        && ok == ((!filtered || InSet(names, src)) && (to != Some(dir) || InSet(names, dst)))
        && Shared() == if ok then PutAt(PutAt(old(Shared()), 0, src), len, dst) else old(Shared())
    {
      var src := ReadName(0, len);
      var dst := ReadName(len, dstLen);
      var srcOk, dstOk := !filtered, to != Some(dir);
      if !srcOk { srcOk := Contains(src); }
      if !dstOk { dstOk := Contains(dst); }
      ok := srcOk && dstOk;
      if ok {
        PutBytes(0, src);
        PutBytes(len, dst);
      }
    }

    method Rename(ask: Ask, server: nat) returns (r0: int)
      requires Valid()
      modifies this, page
      ensures Did(PlanRename(old(Ct()), old(Shared()), ask, server), r0, 0)
    {
      var len, dstLen := Min(ask.len, PAGE), Min(ask.dstLen, PAGE);
      var to: Option<nat> := if ask.dst < SLOTS then table[ask.dst] else None;
      var ok := FilterRename(ask.handle == ROOT, to, len, dstLen);
      if !ok { return -(ENOENT as int); }
      if to.None? { return -(EBADF as int); }
      var second;
      r0, second := CallServer(Request(RENAME, server, len, 0, to.value, dstLen));
    }

    /** A minted handle gets a slot, or is closed again when none is free. */
    method InstallOrClose(minted: nat, ghost before: seq<Sent>, ghost sent: seq<Sent>, ghost size: nat) returns (r0: int)
      requires Valid() && trace == before + sent
      modifies this, page, table
      ensures var out := Installed(Out(old(Ct()), old(fs), old(Shared()), minted, size, sent));
        Ct() == out.ct && fs == out.fs && Shared() == out.page && r0 == out.r0 && out.r1 == size && trace == before + out.sent
    {
      var client := Install(minted);
      if client.Some? { return client.value; }
      var gone, zero := CallServer(Request(CLOSE, minted, 0, 0, 0, 0));
      return -(EMFILE as int);
    }

    /** Every other verb: one request, and a minted handle gets a slot or is closed again. */
    method Relay(req: Request) returns (r0: int, r1: nat)
      requires Valid() && req.op != RENAME && req.op != CLOSE
      modifies this, page, table
      ensures Did(Pass(req, old(Shared())), r0, r1)
      ensures MintsHandle(req.op) && r0 >= 0 ==>
        && 0 < r0 < SLOTS && old(table[..])[r0].None? && |trace| == |old(trace)| + 1
        && trace[|old(trace)|].r0 >= 0 && table[..] == old(table[..])[r0 := Some(trace[|old(trace)|].r0 as nat)]
    {
      r1 := 0;
      var size;
      ghost var staged := Shared();
      r0, size := CallServer(req);
      if req.op == OPEN { r1 := size; }
      if MintsHandle(req.op) && r0 >= 0 {
        r0 := InstallOrClose(r0, old(trace), [Sent(req, staged, r0)], r1);
      }
    }

    /** A slot is emptied and its handle closed. */
    method ShutSlot(slot: nat, server: nat) returns (r0: int)
      requires Valid() && slot < SLOTS
      modifies this, page, table
      ensures Did(Shut(slot, server, old(Shared())), r0, 0)
    {
      table[slot] := None;
      var second;
      r0, second := CallServer(Request(CLOSE, server, 0, 0, 0, 0));
    }

    /** One request, as the loop handles it: the reply and the new state are the request function's. */
    method ServeOne(ask: Ask) returns (r0: int, r1: nat)
      requires Valid()
      modifies this, page, table
      ensures State() == After(old(State()), Call(ask))
      ensures var out := Respond(old(Ct()), old(fs), old(Shared()), ask); r0 == out.r0 && r1 == out.r1
    {
      r1 := 0;
      var server: Option<nat> := if ask.handle < SLOTS then table[ask.handle] else None;
      if server.None? { return -(EBADF as int), 0; }
      if ask.op.None? { return -(EINVAL as int), 0; }
      var op, len := ask.op.value, Min(ask.len, PAGE);
      var filtered := ask.handle == ROOT;
      if filtered && OperandOf(op) == NameOperand {
        var ok := Filter(op, len);
        if !ok { return -(ENOENT as int), 0; }
      }
      if op == CLOSE {
        if filtered { return -(EINVAL as int), 0; }
        r0 := ShutSlot(ask.handle, server.value);
      } else if op == READDIR && filtered {
        r0 := List(ask.w1);
      } else if op == RENAME {
        r0 := Rename(ask, server.value);
      } else {
        r0, r1 := Relay(Request(op, server.value, if CarriesLen(op) then len else 0,
                                if CarriesW1(op) then ask.w1 else 0, 0, 0));
      }
    }

    /** The serve loop over any history of stagings and requests: the run the theorems are about. */
    method ServeAll(events: seq<Event>)
      requires Valid()
      modifies this, page, table
      ensures State() == Run(old(State()), events)
    {
      var i := 0;
      while i < |events|
        invariant i <= |events| && Run(State(), events[i..]) == Run(old(State()), events)
      {
        assert events[i..][0] == events[i] && events[i..][1..] == events[i + 1..];
        ghost var was := State();
        match events[i] {
          case Stage(p) =>
            PutBytes(0, p);
            assert Shared() == p;
          case Call(ask) => var r0, r1 := ServeOne(ask);
        }
        assert State() == After(was, events[i]);
        i := i + 1;
      }
    }
  }
}
