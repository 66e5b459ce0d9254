/**
 What a holder of a handle may rely on: the file service's verbs by what they leave behind, rather than by how they
 do it. What was written is read back, a name made is found and a name removed is not, an attribute set is the one
 got, and no verb does anything its handle lacks the right for.
 */
module TreeLaws {
  import opened ServerTree

  // ---- names and attributes in a list -----------------------------------------------------------------------

  lemma {:induction false} LookupWithout(entries: seq<Entry>, gone: Name, name: Name)
    ensures Lookup(Without(entries, gone), name) == if name == gone then None else Lookup(entries, name)
  {
    if entries != [] {
      LookupWithout(entries[1..], gone, name);
      var rest := Without(entries[1..], gone);
      if entries[0].name != gone {
        assert ([entries[0]] + rest)[1..] == rest;
      }
    }
  }

  lemma {:induction false} LookupAppend(entries: seq<Entry>, e: Entry, name: Name)
    ensures Lookup(entries + [e], name) ==
      if Lookup(entries, name).Some? then Lookup(entries, name)
      else if e.name == name then Some(e.node) else None
  {
    if entries != [] {
      assert (entries + [e])[1..] == entries[1..] + [e];
      if entries[0].name != name { LookupAppend(entries[1..], e, name); }
    }
  }

  predicate Has(attrs: seq<Attr>, name: Name) {
    FindAttr(attrs, name).Some?
  }

  lemma {:induction false} FindWithout(attrs: seq<Attr>, gone: Name, name: Name)
    ensures FindAttr(WithoutAttr(attrs, gone), name) == if name == gone then None else FindAttr(attrs, name)
  {
    if attrs != [] {
      FindWithout(attrs[1..], gone, name);
      var rest := WithoutAttr(attrs[1..], gone);
      if attrs[0].name != gone { assert ([attrs[0]] + rest)[1..] == rest; }
    }
  }

  lemma {:induction false} FindAppend(attrs: seq<Attr>, a: Attr, name: Name)
    ensures FindAttr(attrs + [a], name) ==
      if Has(attrs, name) then FindAttr(attrs, name) else if name == a.name then Some(a) else None
  {
    if attrs == [] {
      assert attrs + [a] == [a] && [a][1..] == [];
    } else {
      FindAppend(attrs[1..], a, name);
      assert (attrs + [a])[1..] == attrs[1..] + [a];
    }
  }

  lemma {:induction false} FindReplaced(attrs: seq<Attr>, a: Attr, name: Name)
    ensures FindAttr(Replaced(attrs, a), name) ==
      if Has(attrs, name) then (if name == a.name then Some(a) else FindAttr(attrs, name)) else None
  {
    if attrs != [] {
      FindReplaced(attrs[1..], a, name);
      assert Replaced(attrs, a)[1..] == Replaced(attrs[1..], a);
    }
  }

  /** After an attribute is set it is the one found under its name, and every other name is as it was. */
  lemma FindSet(attrs: seq<Attr>, a: Attr, name: Name)
    ensures FindAttr(WithAttr(attrs, a), name) == if name == a.name then Some(a) else FindAttr(attrs, name)
  {
    FindReplaced(attrs, a, name);
    FindAppend(attrs, a, name);
  }

  // ---- reading and writing ------------------------------------------------------------------------------------

  /** The words a verb carries are all it reads: the others may be anything. */
  lemma ServeReadsWhatItCarries(fs: Fs, q: Request, page: Page)
    requires q.len <= PAGE
    ensures var bare := Request(q.op, q.handle, if CarriesLen(q.op) then q.len else 0, if CarriesW1(q.op) then q.w1 else 0,
                                if q.op == RENAME then q.dst else 0, if q.op == RENAME then q.dstLen else 0);
      Serve(fs, bare, page) == Serve(fs, q, page)
  {
    CarriedWords(q.op);
  }

  /** Which verbs carry a length and a second word, one by one. */
  lemma CarriedWords(op: Operation)
    ensures !CarriesLen(op) <==> op in {CLOSE, FSTAT, TRUNCATE, READDIR, LISTXATTR, STATFS, SYNC}
    ensures !CarriesW1(op) <==>
      op in {CLOSE, FSTAT, CREATE, UNLINK, RMDIR, GETXATTR, LISTXATTR, REMOVEXATTR, STATFS, SYNC, GETMTIME, SETMTIME}
  {
  }

  /** READ at an offset brings the file's bytes from there, as many as were asked for and there are. */
  lemma ReadBrings(fs: Fs, q: Request, page: Page)
    requires q.op == READ && q.len <= PAGE && q.handle in fs.handles && Read in fs.handles[q.handle].rights
    requires fs.handles[q.handle].node in fs.nodes && fs.nodes[fs.handles[q.handle].node].body.File?
    ensures var a, data := Serve(fs, q, page), fs.nodes[fs.handles[q.handle].node].body.data;
      && a.fs == fs && a.r0 == Min(q.len, if q.w1 < |data| then |data| - q.w1 else 0)
      && forall i :: 0 <= i < PAGE ==> a.page[i] == if i < a.r0 then data[q.w1 + i] else page[i]
  {
  }

  /** WRITE at an offset puts the page's bytes there, zeros before them if the file was shorter, and moves nothing else. */
  lemma WritePuts(fs: Fs, q: Request, page: Page)
    requires q.op == WRITE && q.len <= PAGE && q.handle in fs.handles && Write in fs.handles[q.handle].rights
    requires fs.handles[q.handle].node in fs.nodes && fs.nodes[fs.handles[q.handle].node].body.File?
    ensures var a, n := Serve(fs, q, page), fs.handles[q.handle].node;
      && a.r0 == q.len && a.page == page && a.fs.handles == fs.handles && n in a.fs.nodes && a.fs.nodes[n].body.File?
      && var old_, new_ := fs.nodes[n].body.data, a.fs.nodes[n].body.data;
      && |new_| == (if |old_| > q.w1 + q.len then |old_| else q.w1 + q.len)
      && forall i :: 0 <= i < |new_| ==>
           new_[i] == if q.w1 <= i < q.w1 + q.len then page[i - q.w1] else if i < |old_| then old_[i] else 0
  {
    var n := fs.handles[q.handle].node;
    SpliceBytes(fs.nodes[n].body.data, q.w1, page[..q.len]);
    assert Serve(fs, q, page) == WriteVerb(fs, fs.handles[q.handle], q.len, q.w1, page);
  }

  lemma SpliceBytes(data: seq<Byte>, off: nat, bytes: seq<Byte>)
    ensures var r := Splice(data, off, bytes);
      && |r| == (if |data| > off + |bytes| then |data| else off + |bytes|)
      && forall i :: 0 <= i < |r| ==>
           r[i] == if off <= i < off + |bytes| then bytes[i - off] else if i < |data| then data[i] else 0
  {
  }

  /** So what was written is what is read back. */
  lemma WriteThenRead(fs: Fs, h: nat, len: nat, off: nat, page: Page, blank: Page)
    requires len <= PAGE && h in fs.handles && Write in fs.handles[h].rights && Read in fs.handles[h].rights
    requires fs.handles[h].node in fs.nodes && fs.nodes[fs.handles[h].node].body.File?
    ensures var a := Serve(fs, Request(WRITE, h, len, off, 0, 0), page);
      var b := Serve(a.fs, Request(READ, h, len, off, 0, 0), blank);
      b.r0 == len && b.page[..len] == page[..len]
  {
    WritePuts(fs, Request(WRITE, h, len, off, 0, 0), page);
    var a := Serve(fs, Request(WRITE, h, len, off, 0, 0), page);
    ReadBrings(a.fs, Request(READ, h, len, off, 0, 0), blank);
  }

  // ---- names --------------------------------------------------------------------------------------------------

  /** A directory a handle stands on. */
  predicate OnDir(fs: Fs, h: Handle) {
    h.node in fs.nodes && fs.nodes[h.node].body.Dir?
  }

  function NameIn(fs: Fs, dir: nat, name: Name): Option<nat>
    requires dir in fs.nodes && fs.nodes[dir].body.Dir?
  {
    Lookup(fs.nodes[dir].body.entries, name)
  }

  /** Every node but these two is as it was. */
  ghost predicate OnlyNodes(f: Fs, g: Fs, a: nat, b: nat) {
    forall n :: n in f.nodes && n != a && n != b ==> n in g.nodes && g.nodes[n] == f.nodes[n]
  }

  /** CREATE succeeds exactly for a valid new name under the right; the name is then a new empty file and no other moved. */
  lemma CreateMakes(fs: Fs, h: Handle, name: Name, page: Page, x: Name)
    requires OnDir(fs, h) && h.node < fs.nextNode && fs.nextNode !in fs.nodes
    ensures var a := CreateVerb(fs, h, name, page);
      && (a.r0 >= 0 <==> Create in h.rights && ValidName(name) && NameIn(fs, h.node, name).None?)
      && (a.r0 < 0 ==> a.fs == fs)
      && (a.r0 >= 0 ==>
            && h.node in a.fs.nodes && a.fs.nodes[h.node].body.Dir?
            && NameIn(a.fs, h.node, x) == (if x == name then Some(fs.nextNode) else NameIn(fs, h.node, x))
            && fs.nextNode in a.fs.nodes && a.fs.nodes[fs.nextNode].body == File([]) && a.fs.nodes[fs.nextNode].attrs == []
            && OnlyNodes(fs, a.fs, h.node, fs.nextNode)
            && a.r0 in a.fs.handles && a.fs.handles[a.r0] == Handle(fs.nextNode, h.rights * {Read, Write}))
  {
    LookupAppend(fs.nodes[h.node].body.entries, Entry(name, fs.nextNode), x);
  }

  /** MKDIR the same, with an empty directory and the rights asked for, which the handle must have. */
  lemma MkdirMakes(fs: Fs, h: Handle, name: Name, w1: nat, page: Page, x: Name)
    requires OnDir(fs, h) && h.node < fs.nextNode && fs.nextNode !in fs.nodes
    ensures var a := MkdirVerb(fs, h, name, w1, page);
      && (a.r0 >= 0 <==> {Create, Descend} <= h.rights && ValidName(name) && NameIn(fs, h.node, name).None?
                         && w1 < 128 && RightsOf(w1) <= h.rights)
      && (a.r0 < 0 ==> a.fs == fs)
      && (a.r0 >= 0 ==>
            && h.node in a.fs.nodes && a.fs.nodes[h.node].body.Dir?
            && NameIn(a.fs, h.node, x) == (if x == name then Some(fs.nextNode) else NameIn(fs, h.node, x))
            && fs.nextNode in a.fs.nodes && a.fs.nodes[fs.nextNode].body == Dir([])
            && OnlyNodes(fs, a.fs, h.node, fs.nextNode)
            && a.r0 in a.fs.handles && a.fs.handles[a.r0] == Handle(fs.nextNode, RightsOf(w1)))
  {
    LookupAppend(fs.nodes[h.node].body.entries, Entry(name, fs.nextNode), x);
  }

  /** UNLINK takes a file's name and RMDIR an empty directory's; the name is gone, no other is, and the node stays. */
  lemma RemoveTakes(fs: Fs, h: Handle, name: Name, wantDir: bool, page: Page, x: Name)
    requires OnDir(fs, h)
    ensures var a, child := RemoveVerb(fs, h, name, wantDir, page), NameIn(fs, h.node, name);
      && (a.r0 >= 0 <==>
            && Remove in h.rights && ValidName(name) && child.Some? && child.value in fs.nodes
            && (if wantDir then fs.nodes[child.value].body == Dir([]) else fs.nodes[child.value].body.File?))
      && (a.r0 < 0 ==> a.fs == fs)
      && (a.r0 >= 0 ==>
            && h.node in a.fs.nodes && a.fs.nodes[h.node].body.Dir? && a.fs.nodes.Keys == fs.nodes.Keys
            && NameIn(a.fs, h.node, x) == (if x == name then None else NameIn(fs, h.node, x))
            && OnlyNodes(fs, a.fs, h.node, h.node) && a.fs.handles == fs.handles)
  {
    LookupWithout(fs.nodes[h.node].body.entries, name, x);
  }

  /** A file takes a file's place and a directory an empty directory's; a free name is anyone's. */
  predicate MayTake(fs: Fs, src: nat, dst: Option<nat>)
    requires src in fs.nodes
  {
    dst.Some? && dst.value in fs.nodes ==>
      && (fs.nodes[src].body.File? <==> fs.nodes[dst.value].body.File?)
      && (fs.nodes[dst.value].body.Dir? ==> fs.nodes[dst.value].body.entries == [])
  }

  /**
   RENAME to another name: it succeeds exactly when both rights and both names are good, the source is there, a
   directory stays in its directory and may take the place. Then the new name means what the old one did, the old one
   means nothing, and no other name moved.
   */
  lemma RenameMoves(fs: Fs, h: Handle, name: Name, to: Handle, name': Name, page: Page, x: Name)
    requires OnDir(fs, h) && OnDir(fs, to) && !(h.node == to.node && name == name')
    ensures var a := RenameVerb(fs, h, name, to, name', page);
      && (a.r0 >= 0 <==>
            && Remove in h.rights && Create in to.rights && ValidName(name) && ValidName(name')
            && NameIn(fs, h.node, name).Some? && NameIn(fs, h.node, name).value in fs.nodes
            && (fs.nodes[NameIn(fs, h.node, name).value].body.Dir? ==> h.node == to.node)
            && MayTake(fs, NameIn(fs, h.node, name).value, NameIn(fs, to.node, name')))
      && (a.r0 < 0 ==> a.fs == fs)
      && (a.r0 >= 0 ==>
            && h.node in a.fs.nodes && a.fs.nodes[h.node].body.Dir? && to.node in a.fs.nodes && a.fs.nodes[to.node].body.Dir?
            && NameIn(a.fs, to.node, name') == NameIn(fs, h.node, name) && NameIn(a.fs, h.node, name).None?
            && (x != name && (h.node == to.node ==> x != name') ==> NameIn(a.fs, h.node, x) == NameIn(fs, h.node, x))
            && (x != name' && (h.node == to.node ==> x != name) ==> NameIn(a.fs, to.node, x) == NameIn(fs, to.node, x))
            && OnlyNodes(fs, a.fs, h.node, to.node) && a.fs.handles == fs.handles)
  {
    var a := RenameVerb(fs, h, name, to, name', page);
    if a.r0 >= 0 {
      var node := NameIn(fs, h.node, name).value;
      assert a.fs == Renamed(fs, h.node, name, to.node, name', node);
      RenamedNames(fs, h.node, name, to.node, name', node, x);
      RenamedNames(fs, h.node, name, to.node, name', node, name);
      RenamedNames(fs, h.node, name, to.node, name', node, name');
    }
  }

  lemma RenamedNames(fs: Fs, from: nat, name: Name, to: nat, name': Name, node: nat, x: Name)
    requires from in fs.nodes && fs.nodes[from].body.Dir? && to in fs.nodes && fs.nodes[to].body.Dir?
    ensures var g := Renamed(fs, from, name, to, name', node);
      && from in g.nodes && g.nodes[from].body.Dir? && to in g.nodes && g.nodes[to].body.Dir?
      && NameIn(g, to, x) == (if x == name' then Some(node) else if from == to && x == name then None else NameIn(fs, to, x))
      && (from != to ==> NameIn(g, from, x) == if x == name then None else NameIn(fs, from, x))
  {
    var g1 := Unnamed(fs, from, name);
    LookupWithout(fs.nodes[from].body.entries, name, x);
    LookupWithout(g1.nodes[to].body.entries, name', x);
    LookupAppend(Without(g1.nodes[to].body.entries, name'), Entry(name', node), x);
  }

  /** The records of these entries, end to end. */
  function AllRecords(fs: Fs, entries: seq<Entry>): seq<Byte> {
    if entries == [] then []
    else
      var e := entries[0];
      [if e.node in fs.nodes && fs.nodes[e.node].body.Dir? then 1 else 0, Min(|e.name|, 255)] + e.name
      + AllRecords(fs, entries[1..])
  }

  /** A listing is whole records, in order, and stops only where the next one would not fit. */
  lemma {:induction false} ListsWhatFits(fs: Fs, entries: seq<Entry>, room: nat) returns (k: nat)
    ensures k <= |entries| && Listing(fs, entries, room) == AllRecords(fs, entries[..k])
    ensures |AllRecords(fs, entries[..k])| <= room && (k < |entries| ==> |AllRecords(fs, entries[..k + 1])| > room)
  {
    k := 0;
    if entries != [] {
      var e := entries[0];
      var rec := Record(e.name, e.node in fs.nodes && fs.nodes[e.node].body.Dir?);
      if |rec| <= room {
        var j := ListsWhatFits(fs, entries[1..], room - |rec|);
        k := j + 1;
        FirstRecord(fs, entries, k);
        if k < |entries| { FirstRecord(fs, entries, k + 1); }
      } else {
        FirstRecord(fs, entries, 1);
      }
    }
  }

  lemma FirstRecord(fs: Fs, entries: seq<Entry>, k: nat)
    requires 0 < k <= |entries|
    ensures AllRecords(fs, entries[..k]) ==
      Record(entries[0].name, entries[0].node in fs.nodes && fs.nodes[entries[0].node].body.Dir?)
      + AllRecords(fs, entries[1..][..k - 1])
  {
    assert entries[..k][1..] == entries[1..][..k - 1];
  }

  /** READDIR answers from the entry asked for on. */
  lemma ReadDirLists(fs: Fs, h: Handle, w1: nat, page: Page) returns (k: nat)
    requires OnDir(fs, h) && Enumerate in h.rights
    ensures var a, es := ReadDirVerb(fs, h, w1, page), fs.nodes[h.node].body.entries;
      && a.fs == fs && (w1 >= |es| ==> a.r0 == 0)
      && (w1 < |es| ==>
            && w1 + k <= |es| && a.r0 == |AllRecords(fs, es[w1..][..k])| <= PAGE
            && a.page[..a.r0] == AllRecords(fs, es[w1..][..k])
            && (w1 + k < |es| ==> |AllRecords(fs, es[w1..][..k + 1])| > PAGE))
  {
    var es := fs.nodes[h.node].body.entries;
    k := 0;
    if w1 < |es| { k := ListsWhatFits(fs, es[w1..], PAGE); }
  }

  // ---- attributes, times, length ------------------------------------------------------------------------------

  /** SETXATTR that succeeds makes this the attribute found under its name, on this node, and touches no other. */
  lemma SetThenGet(fs: Fs, h: Handle, len: nat, w1: nat, page: Page, blank: Page, name: Name)
    requires h.node in fs.nodes && Read in h.rights && SetAttrVerb(fs, h, len, w1, page).r0 >= 0
    ensures var a := SetAttrVerb(fs, h, len, w1, page); var vlen := w1 % 0x1_0000_0000;
      && Write in h.rights && len + vlen <= PAGE && h.node in a.fs.nodes && a.fs.nodes[h.node].body == fs.nodes[h.node].body
      && (name != page[..len] ==> FindAttr(a.fs.nodes[h.node].attrs, name) == FindAttr(fs.nodes[h.node].attrs, name))
      && OnlyNodes(fs, a.fs, h.node, h.node)
      && var g := GetAttrVerb(a.fs, h, page[..len], blank);
         g.r0 == w1 / 0x1_0000_0000 * 0x1_0000_0000 + vlen && g.page[..vlen] == page[len..len + vlen]
  {
    var vlen := w1 % 0x1_0000_0000;
    var x := Attr(page[..len], w1 / 0x1_0000_0000, page[len..len + vlen]);
    FindSet(fs.nodes[h.node].attrs, x, name);
    FindSet(fs.nodes[h.node].attrs, x, x.name);
  }

  /** REMOVEXATTR succeeds exactly on a name that is set, which then is not; the other names stay. */
  lemma RemoveUnsets(fs: Fs, h: Handle, gone: Name, page: Page, name: Name)
    requires h.node in fs.nodes && Write in h.rights && AttrNameOk(gone)
    ensures var a := RemoveAttrVerb(fs, h, gone, page);
      && (a.r0 >= 0 <==> Has(fs.nodes[h.node].attrs, gone))
      && (a.r0 < 0 ==> a.fs == fs)
      && (a.r0 >= 0 ==>
            && h.node in a.fs.nodes && OnlyNodes(fs, a.fs, h.node, h.node)
            && FindAttr(a.fs.nodes[h.node].attrs, name) == if name == gone then None else FindAttr(fs.nodes[h.node].attrs, name))
  {
    FindWithout(fs.nodes[h.node].attrs, gone, name);
  }

  /** A time set is the time got: now, or the one given. */
  lemma SetThenGetTime(fs: Fs, op: Operation, h: Handle, name: Name, w1: nat, page: Page)
    requires OnDir(fs, h) && {Read, Write, SetTime} <= h.rights && ValidName(name) && (op == SETMTIME || op == SETMTIME_AT)
    requires NameIn(fs, h.node, name).Some? && NameIn(fs, h.node, name).value in fs.nodes
    requires NameIn(fs, h.node, name).value != h.node
    ensures var a := TimeVerb(fs, op, h, name, w1, page);
      a.r0 == 0 && TimeVerb(a.fs, GETMTIME, h, name, 0, page).r0 == if op == SETMTIME then fs.clock else w1
  {
  }

  /** TRUNCATE leaves a file of just that length: its first bytes, and zeros past its old end. */
  lemma TruncateLeaves(fs: Fs, h: Handle, w1: nat, page: Page)
    requires h.node in fs.nodes && fs.nodes[h.node].body.File? && Write in h.rights
    ensures var a := TruncateVerb(fs, h, w1, page);
      && a.r0 == 0 && h.node in a.fs.nodes && a.fs.nodes[h.node].body.File? && OnlyNodes(fs, a.fs, h.node, h.node)
      && var old_, new_ := fs.nodes[h.node].body.data, a.fs.nodes[h.node].body.data;
         |new_| == w1 && forall i :: 0 <= i < w1 ==> new_[i] == if i < |old_| then old_[i] else 0
  {
  }

  // ---- rights -------------------------------------------------------------------------------------------------

  /** The rights a verb must find on its handle; RENAME needs one on each of its two, and OPEN a data right. */
  function Needed(op: Operation): set<Right> {
    match op
    case OPENDIR => {Descend}
    case CREATE => {Create}
    case MKDIR => {Create, Descend}
    case RENAME => {Remove}
    case UNLINK => {Remove}
    case RMDIR => {Remove}
    case READ => {Read}
    case WRITE => {Write}
    case TRUNCATE => {Write}
    case READDIR => {Enumerate}
    case GETXATTR => {Read}
    case LISTXATTR => {Read}
    case SETXATTR => {Write}
    case REMOVEXATTR => {Write}
    case SYNC => {Write}
    case GETMTIME => {Read}
    case SETMTIME => {Write}
    case SETMTIME_AT => {Write, SetTime}
    case _ => {}
  }

  /** A verb whose handle lacks a right it needs is refused, and changes nothing. */
  lemma RightsAreNeeded(fs: Fs, q: Request, page: Page)
    requires q.handle in fs.handles && !(Needed(q.op) <= fs.handles[q.handle].rights)
    ensures Serve(fs, q, page).r0 < 0 && Serve(fs, q, page).fs == fs
  {
    if q.op == OPENDIR && q.len <= PAGE {
      var h, comps := fs.handles[q.handle], Split(page[..q.len]);
      if |comps| > 1 { assert comps[..|comps| - 1][0] == comps[0]; }
    }
  }

  /** A minted handle never has a right the one it came from lacks. */
  lemma RightsOnlyShrink(fs: Fs, q: Request, page: Page)
    requires q.handle in fs.handles && MintsHandle(q.op) && Serve(fs, q, page).r0 >= 0
    ensures var a := Serve(fs, q, page); a.r0 in a.fs.handles && a.fs.handles[a.r0].rights <= fs.handles[q.handle].rights
  {
    var h := fs.handles[q.handle];
    if q.op == OPEN || q.op == OPENDIR {
      var path := page[..q.len];
      var comps := Split(path);
      WalkShrinks(fs, h.node, h.rights, comps[..|comps| - 1], {Descend} + RightsOf(q.w1), q.w1 < 128);
      if q.op == OPEN {
        assert Serve(fs, q, page) == OpenVerb(fs, h, path, q.w1, page);
      } else {
        assert Serve(fs, q, page) == OpenDirVerb(fs, h, path, q.w1, page);
      }
    }
  }

  lemma {:induction false} WalkShrinks(fs: Fs, at: nat, rights: set<Right>, comps: seq<Name>, asked: set<Right>, ok: bool)
    ensures var r := Walk(fs, at, rights, comps, asked, ok); r.At? ==> r.rights <= rights
    decreases |comps|
  {
    if comps != [] {
      var r := DescendStep(fs, at, rights, comps[0], asked, ok);
      if r.At? { WalkShrinks(fs, r.node, r.rights, comps[1..], asked, ok); }
    }
  }
}
