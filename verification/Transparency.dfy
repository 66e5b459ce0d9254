/**
 What a client of the nameset caretaker gets. Confinement says what never goes upstream; this says that what is
 permitted does, unchanged: the server is asked the client's own request on the slot's own handle, and its answer
 comes back, a minted handle as the number of the slot that now holds it. What is not permitted is refused without
 asking the server anything.
 */
module Transparency {
  import opened ServerTree
  import opened TreeLaws
  import opened NamesetCaretaker
  import opened CaretakerRuns

  // ---- what is permitted ----------------------------------------------------------------------------------------

  predicate Live(ct: Caretaker, slot: nat) {
    slot < SLOTS && ct.table[slot].Some?
  }

  /** The name a request puts to its directory, as the server will resolve it. */
  function NameOf(op: Operation, page: Page, len: nat): Name
    requires len <= PAGE
  {
    if op == OPEN || op == OPENDIR then Split(page[..len])[0] else page[..len]
  }

  /** A name in the set; the encoding holds none longer than 16 bytes. */
  predicate Granted(ct: Caretaker, name: Name) {
    |name| <= MAX_NAME && InSet(ct.names, name)
  }

  /** A request of the client's own words on a live slot, for a name it was granted wherever it stands on the directory. */
  predicate Permitted(ct: Caretaker, page: Page, ask: Ask) {
    && Live(ct, ask.handle) && ask.op.Some? && ask.len <= PAGE
    && var op := ask.op.value;
       && (ask.handle == ROOT ==> op != READDIR && op != CLOSE)
       && (ask.handle == ROOT && OperandOf(op) == NameOperand ==> Granted(ct, NameOf(op, page, ask.len)))
       && (op == RENAME ==>
             && ask.len + ask.dstLen <= PAGE && Live(ct, ask.dst)
             && (ask.handle == ROOT ==> Granted(ct, page[..ask.len]))
             && (ask.dst == ROOT ==> Granted(ct, page[ask.len..ask.len + ask.dstLen])))
  }

  /** The client's request with the slots' handles in place of its own numbers. */
  function Translated(ct: Caretaker, ask: Ask): Request
    requires Live(ct, ask.handle) && ask.op.Some? && (ask.op.value == RENAME ==> Live(ct, ask.dst))
  {
    Request(ask.op.value, ct.table[ask.handle].value, ask.len, ask.w1,
            if ask.op.value == RENAME then ct.table[ask.dst].value else 0, ask.dstLen)
  }

  // ---- the filter lets it through --------------------------------------------------------------------------------

  lemma {:induction false} SplitHead(path: Name)
    ensures var n := |Split(path)[0]|; n <= |path| && Split(path)[0] == path[..n] && SLASH !in path[..n] && (n == |path| || path[n] == SLASH)
  {
    if path != [] && path[0] != SLASH {
      SplitHead(path[1..]);
      var n := |Split(path[1..])[0]|;
      assert Split(path)[0] == [path[0]] + path[1..][..n] == path[..n + 1];
    }
  }

  lemma {:induction false} FirstLenAt(page: Page, len: nat, i: nat, n: nat)
    requires len <= PAGE && i <= n <= len && n <= MAX_NAME && SLASH !in page[..n] && (n == len || page[n] == SLASH)
    requires i <= Min(len, MAX_NAME + 1)
    ensures FirstLen(page, len, i) == n
    decreases n - i
  {
    if i < n {
      assert page[..n][i] == page[i];
      FirstLenAt(page, len, i + 1, n);
    }
  }

  /** The name the filter looks at is the name the server will resolve, when that is one the set could hold. */
  lemma ChecksTheName(op: Operation, page: Page, len: nat)
    requires len <= PAGE && NameOf(op, page, len) != [] && |NameOf(op, page, len)| <= MAX_NAME
    ensures Checked(op, page, len) == NameOf(op, page, len)
  {
    var name := NameOf(op, page, len);
    if op == OPEN || op == OPENDIR {
      SplitHead(page[..len]);
      var n := |name|;
      assert page[..len][..n] == page[..n];
      FirstLenAt(page, len, 0, n);
    }
    assert page[0..|name|] == page[..|name|];
  }

  lemma GrantedIsNamed(ct: Caretaker, next: nat, name: Name)
    requires SlotsOk(ct, next) && Granted(ct, name)
    ensures name != []
  {
    var i :| 0 <= i < |ct.names| && ct.names[i].name == name;
  }

  /** What a permitted request comes to: itself, on the slot's handle, with the page as the client staged it. */
  lemma PermittedPasses(ct: Caretaker, next: nat, page: Page, ask: Ask)
    requires SlotsOk(ct, next) && Permitted(ct, page, ask) && ask.op.value != CLOSE && ask.op.value != RENAME
    ensures PlanOf(ct, page, ask) ==
      var op := ask.op.value;
      Pass(Request(op, ct.table[ask.handle].value, if CarriesLen(op) then ask.len else 0,
                   if CarriesW1(op) then ask.w1 else 0, 0, 0), page)
  {
    var op := ask.op.value;
    if ask.handle == ROOT && OperandOf(op) == NameOperand {
      GrantedIsNamed(ct, next, NameOf(op, page, ask.len));
      ChecksTheName(op, page, ask.len);
      CheckedIsDesignated(op, page, ask.len, 0, 0);
    }
  }

  lemma RenamePasses(ct: Caretaker, next: nat, page: Page, ask: Ask)
    requires SlotsOk(ct, next) && Permitted(ct, page, ask) && ask.op.value == RENAME
    ensures PlanOf(ct, page, ask) ==
      Pass(Request(RENAME, ct.table[ask.handle].value, ask.len, 0, ct.table[ask.dst].value, ask.dstLen), page)
  {
    StagingKeepsNames(page, ask.len, ask.dstLen);
    assert page[0..ask.len] == page[..ask.len];
    if ask.handle == ROOT { GrantedIsNamed(ct, next, page[..ask.len]); }
    if ask.dst == ROOT { GrantedIsNamed(ct, next, page[ask.len..ask.len + ask.dstLen]); }
    assert Get(ct.table, ask.dst) == Some(ct.dir) ==> ask.dst == ROOT;
  }

  /** Either way the server's answer is its answer to the client's own request, every word of it. */
  lemma SentIsTheClients(ct: Caretaker, next: nat, fs: Fs, page: Page, ask: Ask)
    requires SlotsOk(ct, next) && Permitted(ct, page, ask) && ask.op.value != CLOSE
    ensures var plan := PlanOf(ct, page, ask);
      && plan.Pass? && plan.page == page && plan.req.op == ask.op.value && plan.req.handle == ct.table[ask.handle].value
      && Serve(fs, plan.req, page) == Serve(fs, Translated(ct, ask), page)
  {
    ServeReadsWhatItCarries(fs, Translated(ct, ask), page);
    if ask.op.value == RENAME {
      RenamePasses(ct, next, page, ask);
      RenameNeedsNoWord(fs, Translated(ct, ask), page);
    } else {
      PermittedPasses(ct, next, page, ask);
    }
  }

  lemma RenameNeedsNoWord(fs: Fs, q: Request, page: Page)
    requires q.op == RENAME
    ensures Serve(fs, q.(w1 := 0), page) == Serve(fs, q, page)
  {
  }

  // ---- the reply ---------------------------------------------------------------------------------------------------

  /** Only OPEN's second reply word says anything. */
  lemma SecondWord(fs: Fs, q: Request, page: Page)
    requires q.op != OPEN
    ensures Serve(fs, q, page).r1 == 0
  {
  }

  /**
   A permitted request that makes no handle is answered exactly as the server answers the client's own request on
   the slot's handle: both words, the page and the tree, and the table stays.
   */
  lemma AnsweredAsAsked(ct: Caretaker, fs: Fs, page: Page, ask: Ask)
    requires SlotsOk(ct, fs.nextHandle) && Permitted(ct, page, ask) && ask.op.value != CLOSE && !MintsHandle(ask.op.value)
    ensures var out, a := Respond(ct, fs, page, ask), Serve(fs, Translated(ct, ask), page);
      && out.r0 == a.r0 && out.r1 == a.r1 && out.page == a.page && out.fs == a.fs && out.ct == ct
      && |out.sent| == 1 && out.sent[0].req.handle == ct.table[ask.handle].value
  {
    SentIsTheClients(ct, fs.nextHandle, fs, page, ask);
    SecondWord(fs, Translated(ct, ask), page);
  }

  /** The handle a minting request's answer names, and the slot it is given. */
  ghost predicate Slotted(ct: Caretaker, out: Out, minted: nat) {
    && 0 < out.r0 < SLOTS && ct.table[out.r0].None? && out.ct.table[out.r0] == Some(minted)
    && (forall i :: 0 <= i < SLOTS && i != out.r0 ==> out.ct.table[i] == ct.table[i])
  }

  /**
   A permitted request that makes a handle: the server's refusal is the reply; a handle it minted is in a slot that
   was empty and the reply is that slot, or there was none and it was closed again at once.
   */
  lemma MintedIsSlotted(ct: Caretaker, fs: Fs, page: Page, ask: Ask)
    requires SlotsOk(ct, fs.nextHandle) && Permitted(ct, page, ask) && MintsHandle(ask.op.value)
    ensures var out, a := Respond(ct, fs, page, ask), Serve(fs, Translated(ct, ask), page);
      && |out.sent| >= 1 && out.sent[0].r0 == a.r0 && out.sent[0].req.handle == ct.table[ask.handle].value
      && (a.r0 < 0 ==> out.r0 == a.r0 && out.page == a.page && out.fs == a.fs && out.ct == ct)
      && (a.r0 >= 0 && (exists i :: 0 < i < SLOTS && ct.table[i].None?) ==>
            && Slotted(ct, out, a.r0) && out.r1 == a.r1 && out.page == a.page && out.fs == a.fs && |out.sent| == 1)
      && (a.r0 >= 0 && !(exists i :: 0 < i < SLOTS && ct.table[i].None?) ==>
            && out.r0 == -(EMFILE as int) && out.ct == ct && |out.sent| == 2 && ClosesIt(out.sent[1], a.r0)
            && a.r0 !in out.fs.handles)
  {
    SentIsTheClients(ct, fs.nextHandle, fs, page, ask);
    if ask.op.value != OPEN { SecondWord(fs, Translated(ct, ask), page); }
    var plan := PlanOf(ct, page, ask);
    var mid := Forward(ct, fs, page, plan.req);
    InstalledHow(mid);
  }

  lemma InstalledHow(mid: Out)
    requires |mid.sent| == 1
    ensures var out, some := Installed(mid), exists i :: 0 < i < SLOTS && mid.ct.table[i].None?;
      && |out.sent| >= 1 && out.sent[0] == mid.sent[0]
      && (mid.r0 < 0 ==> out == mid)
      && (mid.r0 >= 0 && some ==>
            Slotted(mid.ct, out, mid.r0) && out.r1 == mid.r1 && out.page == mid.page && out.fs == mid.fs && |out.sent| == 1)
      && (mid.r0 >= 0 && !some ==>
            && out.r0 == -(EMFILE as int) && out.ct == mid.ct && |out.sent| == 2 && ClosesIt(out.sent[1], mid.r0)
            && mid.r0 !in out.fs.handles)
  {
    var slot := FreeSlot(mid.ct.table, 1);
    if mid.r0 >= 0 && slot.Some? { assert 0 < slot.value < SLOTS && mid.ct.table[slot.value].None?; }
  }

  /** CLOSE of a slot other than the directory's empties it and closes its handle upstream, and nothing else. */
  lemma CloseIsPassedOn(ct: Caretaker, fs: Fs, page: Page, ask: Ask)
    requires SlotsOk(ct, fs.nextHandle) && Live(ct, ask.handle) && ask.op == Some(CLOSE) && ask.handle != ROOT
    ensures var out, h := Respond(ct, fs, page, ask), ct.table[ask.handle].value;
      && out.ct == ct.(table := ct.table[ask.handle := None]) && |out.sent| == 1 && ClosesIt(out.sent[0], h)
      && out.fs == fs.(handles := fs.handles - {h}) && out.page == page && out.r1 == 0
      && out.r0 == (if h in fs.handles then 0 else -(EBADF as int))
  {
  }

  // ---- what is refused ------------------------------------------------------------------------------------------------

  /** Nothing was sent and nothing changed but what the client may see of its own page. */
  predicate Untouched(ct: Caretaker, fs: Fs, out: Out) {
    out.ct == ct && out.fs == fs && out.sent == [] && out.r1 == 0
  }

  /** A slot that holds nothing is a bad handle; a verb the contract lacks and a close of the directory are invalid. */
  lemma BadRequestsAreRefused(ct: Caretaker, fs: Fs, page: Page, ask: Ask)
    requires SlotsOk(ct, fs.nextHandle)
    ensures var out := Respond(ct, fs, page, ask);
      && (!Live(ct, ask.handle) ==> Untouched(ct, fs, out) && out.r0 == -(EBADF as int))
      && (Live(ct, ask.handle) && ask.op.None? ==> Untouched(ct, fs, out) && out.r0 == -(EINVAL as int))
      && (ask.handle == ROOT && ask.op == Some(CLOSE) ==> Untouched(ct, fs, out) && out.r0 == -(EINVAL as int))
  {
  }

  /** A name the filter would approve is a granted one. */
  lemma ApprovedIsGranted(ct: Caretaker, next: nat, op: Operation, page: Page, len: nat)
    requires SlotsOk(ct, next) && len <= PAGE && OperandOf(op) == NameOperand && InSet(ct.names, Checked(op, page, len))
    ensures Granted(ct, NameOf(op, page, len))
  {
    assert |Checked(op, page, len)| <= MAX_NAME;
    GrantedIsNamed(ct, next, Checked(op, page, len));
    CheckedIsDesignated(op, page, len, 0, 0);
  }

  lemma NameIsDenied(ct: Caretaker, page: Page, ask: Ask)
    requires ct.table[0].Some? && ask.handle == ROOT && ask.op.Some? && OperandOf(ask.op.value) == NameOperand
    requires !InSet(ct.names, Checked(ask.op.value, page, Min(ask.len, PAGE)))
    ensures PlanOf(ct, page, ask) == Deny(ENOENT, page)
  {
  }

  /** A name outside the set does not exist, whatever the server has under it. */
  lemma OtherNamesDoNotExist(ct: Caretaker, fs: Fs, page: Page, ask: Ask)
    requires SlotsOk(ct, fs.nextHandle) && ask.handle == ROOT && ask.op.Some? && ask.len <= PAGE
    requires OperandOf(ask.op.value) == NameOperand && !Granted(ct, NameOf(ask.op.value, page, ask.len))
    ensures var out := Respond(ct, fs, page, ask); Untouched(ct, fs, out) && out.r0 == -(ENOENT as int) && out.page == page
  {
    if InSet(ct.names, Checked(ask.op.value, page, ask.len)) {
      ApprovedIsGranted(ct, fs.nextHandle, ask.op.value, page, ask.len);
    }
    NameIsDenied(ct, page, ask);
  }

  lemma ReadNameIsGranted(ct: Caretaker, next: nat, page: Page, off: nat, len: nat)
    requires SlotsOk(ct, next) && off + len <= PAGE && InSet(ct.names, NameAt(page, off, len))
    ensures Granted(ct, page[off..off + len])
  {
    GrantedIsNamed(ct, next, NameAt(page, off, len));
  }

  lemma RenameIsDenied(ct: Caretaker, page: Page, ask: Ask)
    requires Live(ct, ask.handle) && ask.op == Some(RENAME) && ask.len <= PAGE && ask.dstLen <= PAGE
    requires || (ask.handle == ROOT && !InSet(ct.names, NameAt(page, 0, ask.len)))
             || (Get(ct.table, ask.dst) == Some(ct.dir) && !InSet(ct.names, NameAt(page, ask.len, ask.dstLen)))
    ensures PlanOf(ct, page, ask) == Deny(ENOENT, page)
  {
    PlanIsRename(ct, page, ask);
    RenameDenies(ct, page, ask, Get(ct.table, ask.handle).value);
  }

  lemma RenameDenies(ct: Caretaker, page: Page, ask: Ask, server: nat)
    requires ask.len <= PAGE && ask.dstLen <= PAGE
    requires || (ask.handle == ROOT && !InSet(ct.names, NameAt(page, 0, ask.len)))
             || (Get(ct.table, ask.dst) == Some(ct.dir) && !InSet(ct.names, NameAt(page, ask.len, ask.dstLen)))
    ensures PlanRename(ct, page, ask, server) == Deny(ENOENT, page)
  {
    assert Min(ask.len, PAGE) == ask.len && Min(ask.dstLen, PAGE) == ask.dstLen;
  }

  /** The same for either name of a RENAME, where it stands on the directory. */
  lemma OtherNamesAreNotRenamed(ct: Caretaker, fs: Fs, page: Page, ask: Ask)
    requires SlotsOk(ct, fs.nextHandle) && Live(ct, ask.handle) && ask.op == Some(RENAME) && ask.len + ask.dstLen <= PAGE
    requires (ask.handle == ROOT && !Granted(ct, page[0..ask.len]))
             || (ask.dst == ROOT && !Granted(ct, page[ask.len..ask.len + ask.dstLen]))
    ensures var out := Respond(ct, fs, page, ask); Untouched(ct, fs, out) && out.r0 == -(ENOENT as int) && out.page == page
  {
    if InSet(ct.names, NameAt(page, 0, ask.len)) { ReadNameIsGranted(ct, fs.nextHandle, page, 0, ask.len); }
    if InSet(ct.names, NameAt(page, ask.len, ask.dstLen)) { ReadNameIsGranted(ct, fs.nextHandle, page, ask.len, ask.dstLen); }
    RenameIsDenied(ct, page, ask);
  }

  // ---- the listing of the granted directory ---------------------------------------------------------------------------

  /** Every name's record, one behind another. */
  function Records(names: seq<SetName>): seq<Byte> {
    if names == [] then [] else Record(names[0].name, names[0].isDir) + Records(names[1..])
  }

  /** A listing is the records of the first names, as many as fit whole. */
  lemma {:induction false} ListedHow(names: seq<SetName>, room: nat) returns (k: nat)
    ensures k <= |names| && Listed(names, room) == Records(names[..k]) && |Records(names[..k])| <= room
    ensures k < |names| ==> |Records(names[..k + 1])| > room
    decreases |names|
  {
    if names == [] {
      k := 0;
    } else {
      var rec := Record(names[0].name, names[0].isDir);
      if |rec| > room {
        k := 0;
        assert names[..1][0] == names[0] && names[..1][1..] == [];
      } else {
        var j := ListedHow(names[1..], room - |rec|);
        k := j + 1;
        assert names[..k][1..] == names[1..][..j] && names[..k][0] == names[0];
        if k < |names| {
          assert names[..k + 1][1..] == names[1..][..j + 1] && names[..k + 1][0] == names[0];
        }
      }
    }
  }

  /**
   READDIR of the granted directory shows the set and not the directory: from the cursor on, the records of as many
   names as fit the page, whether or not the server has them, and the server is not asked.
   */
  lemma ListingIsTheSet(ct: Caretaker, fs: Fs, page: Page, ask: Ask) returns (k: nat)
    requires SlotsOk(ct, fs.nextHandle) && ask.handle == ROOT && ask.op == Some(READDIR)
    ensures var from := if ask.w1 <= |ct.names| then ct.names[ask.w1..] else [];
      && k <= |from| && (k < |from| ==> |Records(from[..k + 1])| > PAGE)
      && var out := Respond(ct, fs, page, ask);
      && Untouched(ct, fs, out) && out.r0 == |Records(from[..k])| <= PAGE && out.page[..out.r0] == Records(from[..k])
  {
    var from := if ask.w1 <= |ct.names| then ct.names[ask.w1..] else [];
    k := ListedHow(from, PAGE);
  }

  // ---- a file opened and read through the caretaker --------------------------------------------------------------------

  /** A handle on a file with these bytes. */
  predicate HoldsFile(fs: Fs, h: nat, data: seq<Byte>) {
    && h in fs.handles && Read in fs.handles[h].rights && fs.handles[h].node in fs.nodes
    && fs.nodes[fs.handles[h].node].body == File(data)
  }

  /** A reply to READ: as many of the file's bytes from the offset on as were asked for and there are. */
  predicate Brings(out: Out, data: seq<Byte>, len: nat, off: nat) {
    && out.r0 == Min(len, if off < |data| then |data| - off else 0) && out.r0 <= PAGE
    && forall i :: 0 <= i < out.r0 ==> out.page[i] == data[off + i]
  }

  /** READ on a slot brings the file's bytes at the client's own offset. */
  lemma ReadThroughASlot(ct: Caretaker, fs: Fs, page: Page, slot: nat, len: nat, off: nat, data: seq<Byte>)
    requires SlotsOk(ct, fs.nextHandle) && 0 < slot && Live(ct, slot) && len <= PAGE
    requires HoldsFile(fs, ct.table[slot].value, data)
    ensures var out := Respond(ct, fs, page, Ask(Some(READ), slot, len, off, 0, 0));
      out.ct == ct && out.fs == fs && Brings(out, data, len, off)
  {
    var ask := Ask(Some(READ), slot, len, off, 0, 0);
    AnsweredAsAsked(ct, fs, page, ask);
    ReadBrings(fs, Translated(ct, ask), page);
  }

  /** An OPEN that succeeds is on a file that is there, with the data rights it was opened with. */
  lemma OpenMintsAFile(fs: Fs, q: Request, page: Page)
    requires q.op == OPEN && Serve(fs, q, page).r0 >= 0
    ensures var a := Serve(fs, q, page);
      && a.r0 in a.fs.handles && a.fs.handles[a.r0].node in a.fs.nodes && a.fs.nodes[a.fs.handles[a.r0].node].body.File?
      && a.fs.nodes == fs.nodes && a.r1 == |a.fs.nodes[a.fs.handles[a.r0].node].body.data|
  {
    var h, path := fs.handles[q.handle], page[..q.len];
    assert Serve(fs, q, page) == OpenVerb(fs, h, path, q.w1, page);
    var comps := Split(path);
    var r := Walk(fs, h.node, h.rights, comps[..|comps| - 1], {Descend} + RightsOf(q.w1), q.w1 < 128);
    if r.At? { OpensAFile(fs, r.node, r.rights, comps[|comps| - 1], page); }
  }

  lemma OpensAFile(fs: Fs, at: nat, rights: set<Right>, name: Name, page: Page)
    ensures var a := OpenIn(fs, at, rights, name, page);
      a.r0 >= 0 ==>
        && a.r0 in a.fs.handles && a.fs.handles[a.r0].node in a.fs.nodes && a.fs.nodes[a.fs.handles[a.r0].node].body.File?
        && a.fs.nodes == fs.nodes && a.r1 == |a.fs.nodes[a.fs.handles[a.r0].node].body.data|
  {
  }

  /**
   A granted file opened, then read on the number the client was given: the reply to OPEN says its size, and READ
   brings its bytes at the client's offset.
   */
  lemma OpenThenRead(ct: Caretaker, fs: Fs, page: Page, blank: Page, ask: Ask, len: nat, off: nat, data: seq<Byte>)
    requires SlotsOk(ct, fs.nextHandle) && Permitted(ct, page, ask) && ask.op == Some(OPEN) && len <= PAGE
    requires Respond(ct, fs, page, ask).r0 >= 0
    requires var a := Serve(fs, Translated(ct, ask), page); a.r0 >= 0 && HoldsFile(a.fs, a.r0, data)
    ensures Respond(ct, fs, page, ask).r1 == |data|
    ensures var out := Respond(ct, fs, page, ask);
      Brings(Respond(out.ct, out.fs, blank, Ask(Some(READ), out.r0, len, off, 0, 0)), data, len, off)
  {
    MintedIsSlotted(ct, fs, page, ask);
    OpenMintsAFile(fs, Translated(ct, ask), page);
    StillSlotted(ct, fs, page, ask);
    ReadTheSlotted(ct, Respond(ct, fs, page, ask), Serve(fs, Translated(ct, ask), page).r0, blank, len, off, data);
  }

  lemma ReadTheSlotted(ct: Caretaker, out: Out, minted: nat, blank: Page, len: nat, off: nat, data: seq<Byte>)
    requires SlotsOk(out.ct, out.fs.nextHandle) && Slotted(ct, out, minted) && HoldsFile(out.fs, minted, data) && len <= PAGE
    ensures Brings(Respond(out.ct, out.fs, blank, Ask(Some(READ), out.r0, len, off, 0, 0)), data, len, off)
  {
    ReadThroughASlot(out.ct, out.fs, blank, out.r0, len, off, data);
  }

  lemma StillSlotted(ct: Caretaker, fs: Fs, page: Page, ask: Ask)
    requires SlotsOk(ct, fs.nextHandle)
    ensures var out := Respond(ct, fs, page, ask); SlotsOk(out.ct, out.fs.nextHandle)
  {
    EveryPlanIsConfined(ct, page, ask, fs.nextHandle);
    ActKeeps(ct, fs, PlanOf(ct, page, ask));
  }
}
