/**
 The nameset caretaker: a directory capability attenuated to a set of names. It renumbers handles, asks
 one question of every name offered against the granted directory, and answers a listing of that
 directory from the set itself. This module is the request as a function of the state; the class that
 works on the table and the shared page in place is proved against it.
 */
module NamesetCaretaker {
  import opened ServerTree

  const SLOTS: nat := 16
  const MAX_NAME: nat := 16
  const ROOT: nat := 0

  datatype SetName = SetName(name: Name, isDir: bool)

  type Table = t: seq<Option<nat>> | |t| == SLOTS witness seq(SLOTS, _ => None)

  /** `dir` is the server's handle for the granted directory; `names` is the set, fixed for life. */
  datatype Caretaker = Caretaker(table: Table, dir: nat, names: seq<SetName>)

  predicate InSet(names: seq<SetName>, name: Name) {
    exists i :: 0 <= i < |names| && names[i].name == name
  }

  /** The encoding has no empty names: a zero length ends the set. */
  predicate SetOk(names: seq<SetName>) {
    forall i :: 0 <= i < |names| ==> names[i].name != []
  }

  function Get(table: Table, client: nat): Option<nat> {
    if client < SLOTS then table[client] else None
  }

  /** The first free slot at or after `from`. */
  function FreeSlot(table: Table, from: nat): (r: Option<nat>)
    requires from <= SLOTS
    ensures r.Some? ==> from <= r.value < SLOTS && table[r.value].None?
    ensures r.None? ==> forall i :: from <= i < SLOTS ==> table[i].Some?
    decreases SLOTS - from, |table|
  {
    if from == SLOTS then None
    else if table[from].None? then Some(from)
    else FreeSlot(table, from + 1)
  }

  /** A client's request; `op` is absent for an opcode the contract does not carry. */
  datatype Ask = Ask(op: Option<Operation>, handle: nat, len: nat, w1: nat, dst: nat, dstLen: nat)

  /** A request that went upstream, with the page the server read and what it answered. */
  datatype Sent = Sent(req: Request, page: Page, r0: int)

  datatype Out = Out(ct: Caretaker, fs: Fs, page: Page, r0: int, r1: nat, sent: seq<Sent>)

  /** How many of the first `len` bytes come before a slash, looking no further than a name can reach. */
  function FirstLen(page: Page, len: nat, i: nat): (n: nat)
    requires len <= PAGE && i <= Min(len, MAX_NAME + 1)
    ensures n <= len
    decreases MAX_NAME + 1 - i, |page|
  {
    if i == Min(len, MAX_NAME + 1) then len
    else if page[i] == SLASH then i
    else FirstLen(page, len, i + 1)
  }

  /** A name too long to be granted reads as no name at all, never as a prefix of one. */
  function NameAt(page: Page, off: nat, len: nat): (name: Name)
    ensures |name| <= MAX_NAME && (name != [] ==> len <= MAX_NAME && off + len <= PAGE && name == page[off..off + len])
  {
    if len == 0 || len > MAX_NAME || off + len > PAGE then [] else page[off..off + len]
  }

  /** Bytes laid over the page at `off`, as far as the page goes. */
  function PutAt(page: Page, off: nat, bytes: seq<Byte>): (r: Page)
    requires off <= PAGE
    ensures off + |bytes| <= PAGE ==> r == page[..off] + bytes + page[off + |bytes|..]
  {
    var n := if off + |bytes| <= PAGE then |bytes| else PAGE - off;
    page[..off] + bytes[..n] + page[off + n..]
  }

  /** The name the filter looks at, for a verb whose operand is one directory name. */
  function Checked(op: Operation, page: Page, len: nat): Name
    requires len <= PAGE
  {
    NameAt(page, 0, if op == OPEN || op == OPENDIR then FirstLen(page, len, 0) else len)
  }

  /** The set as directory records from `cursor`, whole records only. */
  function Listed(names: seq<SetName>, room: nat): (bytes: seq<Byte>)
    ensures |bytes| <= room
  {
    if names == [] then []
    else
      var rec := Record(names[0].name, names[0].isDir);
      if |rec| > room then [] else rec + Listed(names[1..], room - |rec|)
  }

  /** What a request comes to, before the server is asked anything. The page is as the server will read it. */
  datatype Plan =
    | Deny(errno: Errno, page: Page)
    | Reveal(bytes: seq<Byte>, page: Page)       // the listing of the granted directory, from the set
    | Shut(slot: nat, server: nat, page: Page)
    | Pass(req: Request, page: Page)

  function PlanRename(ct: Caretaker, page: Page, ask: Ask, server: nat): Plan {
    var len, dstLen := Min(ask.len, PAGE), Min(ask.dstLen, PAGE);
    var src, dst := NameAt(page, 0, len), NameAt(page, len, dstLen);
    var to := Get(ct.table, ask.dst);
    var ok := (ask.handle != ROOT || InSet(ct.names, src)) && (to != Some(ct.dir) || InSet(ct.names, dst));
    if !ok then Deny(ENOENT, page)
    else
      var staged := PutAt(PutAt(page, 0, src), len, dst);
      if to.None? then Deny(EBADF, staged)
      else Pass(Request(RENAME, server, len, 0, to.value, dstLen), staged)
  }

  function PlanOf(ct: Caretaker, page: Page, ask: Ask): Plan {
    var server := Get(ct.table, ask.handle);
    if server.None? then Deny(EBADF, page)
    else if ask.op.None? then Deny(EINVAL, page)
    else
      var op, len := ask.op.value, Min(ask.len, PAGE);
      var filtered := ask.handle == ROOT;
      if filtered && OperandOf(op) == NameOperand && !InSet(ct.names, Checked(op, page, len)) then Deny(ENOENT, page)
      else
        var staged := if filtered && OperandOf(op) == NameOperand then PutAt(page, 0, Checked(op, page, len)) else page;
        if op == CLOSE then
          if filtered then Deny(EINVAL, staged) else Shut(ask.handle, server.value, staged)
        else if op == READDIR && filtered then
          var bytes := Listed(if ask.w1 <= |ct.names| then ct.names[ask.w1..] else [], PAGE);
          Reveal(bytes, PutAt(staged, 0, bytes))
        else if op == RENAME then PlanRename(ct, staged, ask, server.value)
        else Pass(Request(op, server.value, if CarriesLen(op) then len else 0,
                          if CarriesW1(op) then ask.w1 else 0, 0, 0), staged)
  }

  /** One request forwarded. OPEN's second reply word is the file's size; every other verb's is zero. */
  function Forward(ct: Caretaker, fs: Fs, page: Page, req: Request): Out {
    var a := Serve(fs, req, page);
    Out(ct, a.fs, a.page, a.r0, if req.op == OPEN then a.r1 else 0, [Sent(req, page, a.r0)])
  }

  /** A minted handle goes into the first free slot; with none free it is closed again at once. */
  function Installed(out: Out): Out {
    var slot := FreeSlot(out.ct.table, 1);
    if out.r0 < 0 then out
    else if slot.Some? then
      out.(ct := out.ct.(table := out.ct.table[slot.value := Some(out.r0)]), r0 := slot.value)
    else
      var close := Forward(out.ct, out.fs, out.page, Request(CLOSE, out.r0, 0, 0, 0, 0));
      Out(out.ct, close.fs, close.page, -(EMFILE as int), out.r1, out.sent + close.sent)
  }

  function Act(ct: Caretaker, fs: Fs, plan: Plan): Out {
    match plan
    case Deny(errno, page) => Out(ct, fs, page, -(errno as int), 0, [])
    case Reveal(bytes, page) => Out(ct, fs, page, |bytes|, 0, [])
    case Shut(slot, server, page) =>
      Forward(if slot < SLOTS then ct.(table := ct.table[slot := None]) else ct, fs, page, Request(CLOSE, server, 0, 0, 0, 0))
    case Pass(req, page) =>
      var out := Forward(ct, fs, page, req);
      if MintsHandle(req.op) then Installed(out) else out
  }

  /** One turn of the serve loop. */
  function Respond(ct: Caretaker, fs: Fs, page: Page, ask: Ask): Out {
    Act(ct, fs, PlanOf(ct, page, ask))
  }
}
