/**
 The file service a caretaker stands in front of: a tree of nodes, handles that carry rights, and names
 that resolve strictly downward from a directory handle. The verbs, their rights and their refusals are
 the contract's; the byte layouts are the shared page's.
 */
module ServerTree {

  type Byte = b: nat | b < 256
  type Name = seq<Byte>

  const PAGE: nat := 4096
  type Page = p: seq<Byte> | |p| == PAGE witness seq(PAGE, _ => 0)

  const SLASH: Byte := 47
  const DOT: Byte := 46

  type Errno = e: nat | e > 0 witness 1

  const EPERM: Errno := 1
  const ENOENT: Errno := 2
  const E2BIG: Errno := 7
  const EBADF: Errno := 9
  const EEXIST: Errno := 17
  const ENOTDIR: Errno := 20
  const EISDIR: Errno := 21
  const EINVAL: Errno := 22
  const EMFILE: Errno := 24
  const ENOSPC: Errno := 28
  const EROFS: Errno := 30
  const ERANGE: Errno := 34
  const ENOTEMPTY: Errno := 39
  const ENODATA: Errno := 61

  datatype Option<+T> = None | Some(value: T)

  // ---- the verb table ---------------------------------------------------------------------------------

  datatype Operation =
    | OPEN | READ | WRITE | CLOSE | FSTAT | CREATE | TRUNCATE | OPENDIR | READDIR | MKDIR | RENAME
    | UNLINK | RMDIR | GETXATTR | SETXATTR | LISTXATTR | REMOVEXATTR | STATFS | SYNC
    | GETMTIME | SETMTIME | SETMTIME_AT

  datatype Operand = NoOperand | NameOperand | Payload | TwoNames

  datatype Right = Enumerate | Read | Write | Create | Remove | Descend | SetTime

  function OperandOf(op: Operation): Operand {
    match op
    case OPEN => NameOperand
    case CREATE => NameOperand
    case OPENDIR => NameOperand
    case MKDIR => NameOperand
    case UNLINK => NameOperand
    case RMDIR => NameOperand
    case GETMTIME => NameOperand
    case SETMTIME => NameOperand
    case SETMTIME_AT => NameOperand
    case RENAME => TwoNames
    case READ => Payload
    case WRITE => Payload
    case GETXATTR => Payload
    case SETXATTR => Payload
    case REMOVEXATTR => Payload
    case _ => NoOperand
  }

  predicate CarriesLen(op: Operation) {
    OperandOf(op) != NoOperand
  }

  predicate CarriesW1(op: Operation) {
    op in {OPEN, READ, WRITE, TRUNCATE, OPENDIR, READDIR, MKDIR, RENAME, SETXATTR, SETMTIME_AT}
  }

  predicate MintsHandle(op: Operation) {
    op in {OPEN, CREATE, OPENDIR, MKDIR}
  }

  function NeedsAll(op: Operation): set<Right> {
    match op
    case READ => {Read}
    case WRITE => {Write}
    case CREATE => {Create}
    case TRUNCATE => {Write}
    case OPENDIR => {Descend}
    case READDIR => {Enumerate}
    case MKDIR => {Create, Descend}
    case RENAME => {Remove, Create}
    case UNLINK => {Remove}
    case RMDIR => {Remove}
    case GETXATTR => {Read}
    case SETXATTR => {Write}
    case LISTXATTR => {Read}
    case REMOVEXATTR => {Write}
    case SYNC => {Write}
    case GETMTIME => {Read}
    case SETMTIME => {Write}
    case SETMTIME_AT => {Write, SetTime}
    case _ => {}
  }

  /** A verb that changes what it is pointed at: the one question a read-only grant asks. */
  predicate Mutates(op: Operation) {
    NeedsAll(op) * {Write, Create, Remove} != {}
  }

  // ---- the tree ---------------------------------------------------------------------------------------

  datatype Entry = Entry(name: Name, node: nat)
  datatype Attr = Attr(name: Name, kind: nat, value: seq<Byte>)
  datatype Body = File(data: seq<Byte>) | Dir(entries: seq<Entry>)
  datatype Node = Node(body: Body, attrs: seq<Attr>, mtime: nat)
  datatype Handle = Handle(node: nat, rights: set<Right>)

  datatype Fs = Fs(
    nodes: map<nat, Node>,
    handles: map<nat, Handle>,
    nextNode: nat,
    nextHandle: nat,
    clock: nat,
    flushes: nat,
    volume: Volume)

  /** What STATFS says of the storage: block size, total and free blocks. */
  const STATFS_LEN: nat := 24
  type Volume = v: seq<Byte> | |v| == STATFS_LEN witness seq(STATFS_LEN, _ => 0)

  function Lookup(entries: seq<Entry>, name: Name): Option<nat> {
    if entries == [] then None
    else if entries[0].name == name then Some(entries[0].node)
    else Lookup(entries[1..], name)
  }

  function Without(entries: seq<Entry>, name: Name): seq<Entry> {
    if entries == [] then []
    else if entries[0].name == name then Without(entries[1..], name)
    else [entries[0]] + Without(entries[1..], name)
  }

  function FindAttr(attrs: seq<Attr>, name: Name): Option<Attr> {
    if attrs == [] then None
    else if attrs[0].name == name then Some(attrs[0])
    else FindAttr(attrs[1..], name)
  }

  const MAX_ATTR_NAME: nat := 255
  const MAX_VALUE: nat := 3072
  const MAX_COUNT: nat := 16
  const MAX_KIND: nat := 0x7fff_ffff

  predicate AttrNameOk(name: Name) {
    name != [] && |name| <= MAX_ATTR_NAME && 0 !in name
  }

  /** Every attribute of this name becomes `a`, where it stands. */
  function Replaced(attrs: seq<Attr>, a: Attr): (r: seq<Attr>)
    ensures |r| == |attrs|
  {
    if attrs == [] then [] else [if attrs[0].name == a.name then a else attrs[0]] + Replaced(attrs[1..], a)
  }

  /** Create and replace are one operation; a replaced attribute keeps its place in the listing. */
  function WithAttr(attrs: seq<Attr>, a: Attr): seq<Attr> {
    if FindAttr(attrs, a.name).Some? then Replaced(attrs, a) else attrs + [a]
  }

  function WithoutAttr(attrs: seq<Attr>, name: Name): seq<Attr> {
    if attrs == [] then []
    else if attrs[0].name == name then WithoutAttr(attrs[1..], name)
    else [attrs[0]] + WithoutAttr(attrs[1..], name)
  }

  // ---- names and pages --------------------------------------------------------------------------------

  /** Split at slashes: `a/b` is two components, `/a` starts with an empty one. */
  function Split(path: Name): (comps: seq<Name>)
    ensures |comps| >= 1
  {
    if path == [] then [[]]
    else
      var rest := Split(path[1..]);
      if path[0] == SLASH then [[]] + rest else [[path[0]] + rest[0]] + rest[1..]
  }

  predicate ValidName(name: Name) {
    name != [] && name != [DOT] && name != [DOT, DOT] && SLASH !in name
  }

  /** Bytes laid over the start of the page, as much as fits. */
  function Fill(page: Page, bytes: seq<Byte>): (r: Page)
    ensures |bytes| <= PAGE ==> r[..|bytes|] == bytes
  {
    if |bytes| <= PAGE then bytes + page[|bytes|..] else bytes[..PAGE]
  }

  /** A rights mask from the second word; a bit outside the ladder cannot be granted. */
  function RightsOf(w1: nat): set<Right> {
    (if w1 % 2 == 1 then {Enumerate} else {}) + (if w1 / 2 % 2 == 1 then {Read} else {})
    + (if w1 / 4 % 2 == 1 then {Write} else {}) + (if w1 / 8 % 2 == 1 then {Create} else {})
    + (if w1 / 16 % 2 == 1 then {Remove} else {}) + (if w1 / 32 % 2 == 1 then {Descend} else {})
    + (if w1 / 64 % 2 == 1 then {SetTime} else {})
  }

  predicate Grantable(have: set<Right>, w1: nat) {
    w1 < 128 && RightsOf(w1) <= have
  }

  // ---- resolution -------------------------------------------------------------------------------------

  datatype Reached = At(node: nat, rights: set<Right>) | Refused(errno: Errno)

  /** One descent: the child's rights are what was asked, which the parent must hold. */
  function DescendStep(fs: Fs, at: nat, rights: set<Right>, name: Name, asked: set<Right>, grantable: bool): Reached {
    if at !in fs.nodes || !fs.nodes[at].body.Dir? then Refused(ENOTDIR)
    else if Descend !in rights then Refused(ENOENT)
    else
      var child := Lookup(fs.nodes[at].body.entries, name);
      if child.None? then Refused(ENOENT)
      else if child.value !in fs.nodes || !fs.nodes[child.value].body.Dir? then Refused(ENOTDIR)
      else if !grantable || !(asked <= rights) then Refused(EPERM)
      else At(child.value, asked)
  }

  /** The directories on the way, each asking for `asked`. */
  function Walk(fs: Fs, at: nat, rights: set<Right>, comps: seq<Name>, asked: set<Right>, grantable: bool): Reached
    decreases |comps|
  {
    if comps == [] then At(at, rights)
    else
      match DescendStep(fs, at, rights, comps[0], asked, grantable)
      case Refused(e) => Refused(e)
      case At(n, r) => Walk(fs, n, r, comps[1..], asked, grantable)
  }

  // ---- the verbs --------------------------------------------------------------------------------------

  datatype Answer = Answer(fs: Fs, r0: int, r1: nat, page: Page)

  /** No handle came or went. */
  predicate SameHandles(fs: Fs, a: Answer) {
    a.fs.handles == fs.handles && a.fs.nextHandle == fs.nextHandle
  }

  /** One new handle, numbered by the counter. */
  predicate Minted(fs: Fs, a: Answer) {
    && a.r0 == fs.nextHandle && a.fs.nextHandle == fs.nextHandle + 1
    && a.fs.handles.Keys == fs.handles.Keys + {fs.nextHandle}
    && forall h :: h in fs.handles && h != fs.nextHandle ==> a.fs.handles[h] == fs.handles[h]
  }

  function Fail(fs: Fs, page: Page, errno: Errno): (a: Answer)
    ensures a.fs == fs && a.page == page && a.r0 < 0
  {
    Answer(fs, -(errno as int), 0, page)
  }

  function Mint(fs: Fs, page: Page, node: nat, rights: set<Right>, size: nat): (a: Answer)
    ensures Minted(fs, a)
  {
    Answer(fs.(handles := fs.handles[fs.nextHandle := Handle(node, rights)], nextHandle := fs.nextHandle + 1),
           fs.nextHandle, size, page)
  }

  /** The last component of an OPEN: a file, with the directory's data rights. */
  function OpenIn(fs: Fs, at: nat, rights: set<Right>, name: Name, page: Page): (a: Answer)
    ensures Minted(fs, a) || (SameHandles(fs, a) && a.r0 < 0)
  {
    if at !in fs.nodes || !fs.nodes[at].body.Dir? then Fail(fs, page, ENOTDIR)
    else if rights * {Read, Write} == {} then Fail(fs, page, ENOENT)
    else
      var child := Lookup(fs.nodes[at].body.entries, name);
      if child.None? || child.value !in fs.nodes then Fail(fs, page, ENOENT)
      else
        match fs.nodes[child.value].body
        case Dir(_) => Fail(fs, page, EISDIR)
        case File(data) => Mint(fs, page, child.value, rights * {Read, Write}, |data|)
  }

  function OpenVerb(fs: Fs, h: Handle, path: Name, w1: nat, page: Page): (a: Answer)
    ensures Minted(fs, a) || (SameHandles(fs, a) && a.r0 < 0)
  {
    var comps := Split(path);
    if exists i :: 0 <= i < |comps| && !ValidName(comps[i]) then Fail(fs, page, EINVAL)
    else
      match Walk(fs, h.node, h.rights, comps[..|comps| - 1], {Descend} + RightsOf(w1), w1 < 128)
      case Refused(e) => Fail(fs, page, e)
      case At(at, rights) => OpenIn(fs, at, rights, comps[|comps| - 1], page)
  }

  function OpenDirVerb(fs: Fs, h: Handle, path: Name, w1: nat, page: Page): (a: Answer)
    ensures Minted(fs, a) || (SameHandles(fs, a) && a.r0 < 0)
  {
    var comps := Split(path);
    if exists i :: 0 <= i < |comps| && !ValidName(comps[i]) then Fail(fs, page, EINVAL)
    else
      match Walk(fs, h.node, h.rights, comps[..|comps| - 1], {Descend} + RightsOf(w1), w1 < 128)
      case Refused(e) => Fail(fs, page, e)
      case At(at, rights) =>
        match DescendStep(fs, at, rights, comps[|comps| - 1], RightsOf(w1), w1 < 128)
        case Refused(e) => Fail(fs, page, e)
        case At(node, got) => Mint(fs, page, node, got, 0)
  }

  /** A new node under a directory, and a handle to it. */
  function AddChild(fs: Fs, page: Page, dir: nat, name: Name, body: Body, rights: set<Right>): (a: Answer)
    requires dir in fs.nodes && fs.nodes[dir].body.Dir?
    ensures Minted(fs, a)
  {
    var d := fs.nodes[dir];
    var id := fs.nextNode;
    var fs1 := fs.(nodes := fs.nodes[id := Node(body, [], fs.clock)]
                                    [dir := d.(body := Dir(d.body.entries + [Entry(name, id)]))],
                   nextNode := id + 1, clock := fs.clock + 1);
    Mint(fs1, page, id, rights, 0)
  }

  function CreateVerb(fs: Fs, h: Handle, name: Name, page: Page): (a: Answer)
    ensures Minted(fs, a) || (SameHandles(fs, a) && a.r0 < 0)
  {
    if h.node !in fs.nodes || !fs.nodes[h.node].body.Dir? then Fail(fs, page, ENOTDIR)
    else if Create !in h.rights then Fail(fs, page, EROFS)
    else if !ValidName(name) then Fail(fs, page, EINVAL)
    else if Lookup(fs.nodes[h.node].body.entries, name).Some? then Fail(fs, page, EEXIST)
    else AddChild(fs, page, h.node, name, File([]), h.rights * {Read, Write})
  }

  function MkdirVerb(fs: Fs, h: Handle, name: Name, w1: nat, page: Page): (a: Answer)
    ensures Minted(fs, a) || (SameHandles(fs, a) && a.r0 < 0)
  {
    if h.node !in fs.nodes || !fs.nodes[h.node].body.Dir? then Fail(fs, page, ENOTDIR)
    else if Create !in h.rights then Fail(fs, page, EROFS)
    else if Descend !in h.rights then Fail(fs, page, ENOENT)
    else if !ValidName(name) then Fail(fs, page, EINVAL)
    else if Lookup(fs.nodes[h.node].body.entries, name).Some? then Fail(fs, page, EEXIST)
    else if !Grantable(h.rights, w1) then Fail(fs, page, EPERM)
    else AddChild(fs, page, h.node, name, Dir([]), RightsOf(w1))
  }

  function Unnamed(fs: Fs, dir: nat, name: Name): Fs
    requires dir in fs.nodes && fs.nodes[dir].body.Dir?
  {
    var d := fs.nodes[dir];
    fs.(nodes := fs.nodes[dir := d.(body := Dir(Without(d.body.entries, name)))])
  }

  /** UNLINK and RMDIR: a name goes away; the node stays for whoever holds it open. */
  function RemoveVerb(fs: Fs, h: Handle, name: Name, wantDir: bool, page: Page): (a: Answer)
    ensures SameHandles(fs, a)
  {
    if h.node !in fs.nodes || !fs.nodes[h.node].body.Dir? then Fail(fs, page, ENOTDIR)
    else if Remove !in h.rights then Fail(fs, page, EROFS)
    else if !ValidName(name) then Fail(fs, page, EINVAL)
    else
      var child := Lookup(fs.nodes[h.node].body.entries, name);
      if child.None? || child.value !in fs.nodes then Fail(fs, page, ENOENT)
      else
        match fs.nodes[child.value].body
        case File(_) =>
          if wantDir then Fail(fs, page, ENOTDIR) else Answer(Unnamed(fs, h.node, name), 0, 0, page)
        case Dir(entries) =>
          if !wantDir then Fail(fs, page, EISDIR)
          else if entries != [] then Fail(fs, page, ENOTEMPTY)
          else Answer(Unnamed(fs, h.node, name), 0, 0, page)
  }

  /** Whether `src` may replace what the destination name holds. */
  function ReplaceErrno(fs: Fs, src: nat, dst: Option<nat>): Option<Errno> {
    if dst.None? || dst.value !in fs.nodes || src !in fs.nodes then None
    else
      match (fs.nodes[src].body, fs.nodes[dst.value].body)
      case (File(_), Dir(_)) => Some(EISDIR)
      case (Dir(_), File(_)) => Some(ENOTDIR)
      case (Dir(_), Dir(entries)) => if entries != [] then Some(ENOTEMPTY) else None
      case (File(_), File(_)) => None
  }

  function Renamed(fs: Fs, from: nat, name: Name, to: nat, name': Name, node: nat): Fs
    requires from in fs.nodes && fs.nodes[from].body.Dir? && to in fs.nodes && fs.nodes[to].body.Dir?
  {
    var fs1 := Unnamed(fs, from, name);
    var d := fs1.nodes[to];
    fs1.(nodes := fs1.nodes[to := d.(body := Dir(Without(d.body.entries, name') + [Entry(name', node)]))])
  }

  /** The source is found: the same name is a no-op, a directory stays in its directory. */
  function RenameNode(fs: Fs, from: nat, name: Name, to: nat, name': Name, node: nat, page: Page): (a: Answer)
    requires from in fs.nodes && fs.nodes[from].body.Dir? && to in fs.nodes && fs.nodes[to].body.Dir?
    requires node in fs.nodes
    ensures SameHandles(fs, a)
  {
    if fs.nodes[node].body.Dir? && from != to then Fail(fs, page, EINVAL)
    else if from == to && name == name' then Answer(fs, 0, 0, page)
    else
      var e := ReplaceErrno(fs, node, Lookup(fs.nodes[to].body.entries, name'));
      if e.Some? then Fail(fs, page, e.value) else Answer(Renamed(fs, from, name, to, name', node), 0, 0, page)
  }

  function RenameIn(fs: Fs, from: nat, name: Name, to: nat, name': Name, page: Page): (a: Answer)
    requires from in fs.nodes && fs.nodes[from].body.Dir? && to in fs.nodes && fs.nodes[to].body.Dir?
    ensures SameHandles(fs, a)
  {
    var src := Lookup(fs.nodes[from].body.entries, name);
    if src.None? || src.value !in fs.nodes then Fail(fs, page, ENOENT)
    else RenameNode(fs, from, name, to, name', src.value, page)
  }

  function RenameVerb(fs: Fs, h: Handle, name: Name, to: Handle, name': Name, page: Page): (a: Answer)
    ensures SameHandles(fs, a)
  {
    if h.node !in fs.nodes || !fs.nodes[h.node].body.Dir? then Fail(fs, page, ENOTDIR)
    else if to.node !in fs.nodes || !fs.nodes[to.node].body.Dir? then Fail(fs, page, ENOTDIR)
    else if Remove !in h.rights || Create !in to.rights then Fail(fs, page, EROFS)
    else if !ValidName(name) || !ValidName(name') then Fail(fs, page, EINVAL)
    else RenameIn(fs, h.node, name, to.node, name', page)
  }

  function Min(a: nat, b: nat): nat {
    if a < b then a else b
  }

  function ReadVerb(fs: Fs, h: Handle, len: nat, w1: nat, page: Page): (a: Answer)
    ensures SameHandles(fs, a)
  {
    if h.node !in fs.nodes || !fs.nodes[h.node].body.File? || Read !in h.rights then Fail(fs, page, EBADF)
    else
      var data := fs.nodes[h.node].body.data;
      var n := if w1 >= |data| then 0 else Min(Min(len, PAGE), |data| - w1);
      Answer(fs, n, 0, if n == 0 then page else Fill(page, data[w1..w1 + n]))
  }

  function Zeros(n: nat): seq<Byte> {
    seq(n, _ => 0 as Byte)
  }

  /** Write `bytes` at `off`, extending with zeros if the file ends before it. */
  function Splice(data: seq<Byte>, off: nat, bytes: seq<Byte>): seq<Byte> {
    var base := if |data| < off then data + Zeros(off - |data|) else data;
    base[..off] + bytes + if |base| > off + |bytes| then base[off + |bytes|..] else []
  }

  function Store(fs: Fs, n: nat, node: Node): Fs {
    fs.(nodes := fs.nodes[n := node.(mtime := fs.clock)], clock := fs.clock + 1)
  }

  function WriteVerb(fs: Fs, h: Handle, len: nat, w1: nat, page: Page): (a: Answer)
    ensures SameHandles(fs, a)
  {
    if h.node !in fs.nodes || !fs.nodes[h.node].body.File? then Fail(fs, page, EBADF)
    else if Write !in h.rights then Fail(fs, page, EROFS)
    else
      var node := fs.nodes[h.node];
      var n := Min(len, PAGE);
      Answer(Store(fs, h.node, node.(body := File(Splice(node.body.data, w1, page[..n])))), n, 0, page)
  }

  function TruncateVerb(fs: Fs, h: Handle, w1: nat, page: Page): (a: Answer)
    ensures SameHandles(fs, a)
  {
    if h.node !in fs.nodes || !fs.nodes[h.node].body.File? then Fail(fs, page, EBADF)
    else if Write !in h.rights then Fail(fs, page, EROFS)
    else
      var node := fs.nodes[h.node];
      var d := node.body.data;
      Answer(Store(fs, h.node, node.(body := File(if |d| >= w1 then d[..w1] else d + Zeros(w1 - |d|)))), 0, 0, page)
  }

  function StatVerb(fs: Fs, h: Handle, page: Page): (a: Answer)
    ensures SameHandles(fs, a)
  {
    if h.node !in fs.nodes then Fail(fs, page, EBADF)
    else
      match fs.nodes[h.node].body
      case Dir(_) => Fail(fs, page, EISDIR)
      case File(data) => Answer(fs, |data|, 0, page)
  }

  /** A listing record: flags, length, name. Names here are at most 255 bytes. */
  function Record(name: Name, isDir: bool): seq<Byte> {
    [if isDir then 1 else 0, if |name| < 256 then |name| else 255] + name
  }

  function Listing(fs: Fs, entries: seq<Entry>, room: nat): seq<Byte> {
    if entries == [] then []
    else
      var e := entries[0];
      var rec := Record(e.name, e.node in fs.nodes && fs.nodes[e.node].body.Dir?);
      if |rec| > room then [] else rec + Listing(fs, entries[1..], room - |rec|)
  }

  function ReadDirVerb(fs: Fs, h: Handle, w1: nat, page: Page): (a: Answer)
    ensures SameHandles(fs, a)
  {
    if h.node !in fs.nodes || !fs.nodes[h.node].body.Dir? then Fail(fs, page, ENOTDIR)
    else if Enumerate !in h.rights then Fail(fs, page, EPERM)
    else
      var es := fs.nodes[h.node].body.entries;
      var bytes := if w1 >= |es| then [] else Listing(fs, es[w1..], PAGE);
      Answer(fs, |bytes|, 0, Fill(page, bytes))
  }

  function GetAttrVerb(fs: Fs, h: Handle, name: Name, page: Page): (a: Answer)
    ensures SameHandles(fs, a)
  {
    if h.node !in fs.nodes || Read !in h.rights then Fail(fs, page, EBADF)
    else
      match FindAttr(fs.nodes[h.node].attrs, name)
      case None => Fail(fs, page, ENODATA)
      case Some(a) => Answer(fs, a.kind * 0x1_0000_0000 + |a.value|, 0, Fill(page, a.value))
  }

  function SetAttrVerb(fs: Fs, h: Handle, len: nat, w1: nat, page: Page): (a: Answer)
    ensures SameHandles(fs, a)
  {
    var vlen := w1 % 0x1_0000_0000;
    if h.node !in fs.nodes then Fail(fs, page, EBADF)
    else if Write !in h.rights then Fail(fs, page, EROFS)
    else if len + vlen > PAGE then Fail(fs, page, EINVAL)
    else
      var a := Attr(page[..len], w1 / 0x1_0000_0000, page[len..len + vlen]);
      var node := fs.nodes[h.node];
      var e := SetAttrErrno(node.attrs, a);
      if e.Some? then Fail(fs, page, e.value)
      else Answer(Store(fs, h.node, node.(attrs := WithAttr(node.attrs, a))), 0, 0, page)
  }

  /** What a node's store refuses: a name or value it cannot hold, or one attribute too many. */
  function SetAttrErrno(attrs: seq<Attr>, a: Attr): Option<Errno> {
    if !AttrNameOk(a.name) then Some(ERANGE)
    else if |a.value| > MAX_VALUE then Some(E2BIG)
    else if a.kind > MAX_KIND then Some(EINVAL)
    else if FindAttr(attrs, a.name).None? && |attrs| >= MAX_COUNT then Some(ENOSPC)
    else None
  }

  /** A listing record: one length byte, then the name. */
  function AttrNames(attrs: seq<Attr>): seq<Byte> {
    if attrs == [] then []
    else [if |attrs[0].name| < 256 then |attrs[0].name| else 255] + attrs[0].name + AttrNames(attrs[1..])
  }

  function ListAttrVerb(fs: Fs, h: Handle, page: Page): (a: Answer)
    ensures SameHandles(fs, a)
  {
    if h.node !in fs.nodes || Read !in h.rights then Fail(fs, page, EBADF)
    else
      var bytes := AttrNames(fs.nodes[h.node].attrs);
      Answer(fs, |bytes|, 0, Fill(page, bytes))
  }

  function RemoveAttrVerb(fs: Fs, h: Handle, name: Name, page: Page): (a: Answer)
    ensures SameHandles(fs, a)
  {
    if h.node !in fs.nodes then Fail(fs, page, EBADF)
    else if Write !in h.rights then Fail(fs, page, EROFS)
    else
      var node := fs.nodes[h.node];
      if !AttrNameOk(name) then Fail(fs, page, ERANGE)
      else if FindAttr(node.attrs, name).None? then Fail(fs, page, ENODATA)
      else Answer(Store(fs, h.node, node.(attrs := WithoutAttr(node.attrs, name))), 0, 0, page)
  }

  /** The three mtime verbs resolve a name under a directory handle. */
  function TimeVerb(fs: Fs, op: Operation, h: Handle, name: Name, w1: nat, page: Page): (a: Answer)
    ensures SameHandles(fs, a)
  {
    if h.node !in fs.nodes || !fs.nodes[h.node].body.Dir? then Fail(fs, page, ENOTDIR)
    else if !(NeedsAll(op) <= h.rights) then Fail(fs, page, if op == GETMTIME then ENOENT else EROFS)
    else if !ValidName(name) then Fail(fs, page, EINVAL)
    else
      var child := Lookup(fs.nodes[h.node].body.entries, name);
      if child.None? || child.value !in fs.nodes then Fail(fs, page, ENOENT)
      else
        var node := fs.nodes[child.value];
        match op
        case GETMTIME => Answer(fs, node.mtime, 0, page)
        case SETMTIME => Answer(Store(fs, child.value, node), 0, 0, page)
        case _ => Answer(fs.(nodes := fs.nodes[child.value := node.(mtime := w1)]), 0, 0, page)
  }

  /**
   A request as the server reads it. RENAME's second word is a second handle and length; every other
   verb's is `w1`. Handles are the numbers themselves, not their 16-bit packing.
   */
  datatype Request = Request(op: Operation, handle: nat, len: nat, w1: nat, dst: nat, dstLen: nat)

  /** One request, run to completion. */
  function Serve(fs: Fs, req: Request, page: Page): Answer
  {
    if req.handle !in fs.handles then Fail(fs, page, EBADF)
    else if req.len > PAGE && CarriesLen(req.op) then Fail(fs, page, EINVAL)
    else
      var h := fs.handles[req.handle];
      var name := if req.len <= PAGE then page[..req.len] else [];
      match req.op
      case OPEN => OpenVerb(fs, h, name, req.w1, page)
      case OPENDIR => OpenDirVerb(fs, h, name, req.w1, page)
      case CREATE => CreateVerb(fs, h, name, page)
      case MKDIR => MkdirVerb(fs, h, name, req.w1, page)
      case UNLINK => RemoveVerb(fs, h, name, false, page)
      case RMDIR => RemoveVerb(fs, h, name, true, page)
      case RENAME =>
        if req.dst !in fs.handles then Fail(fs, page, EBADF)
        else if req.len + req.dstLen > PAGE then Fail(fs, page, EINVAL)
        else RenameVerb(fs, h, name, fs.handles[req.dst], page[req.len..req.len + req.dstLen], page)
      case READ => ReadVerb(fs, h, req.len, req.w1, page)
      case WRITE => WriteVerb(fs, h, req.len, req.w1, page)
      case TRUNCATE => TruncateVerb(fs, h, req.w1, page)
      case FSTAT => StatVerb(fs, h, page)
      case READDIR => ReadDirVerb(fs, h, req.w1, page)
      case GETXATTR => GetAttrVerb(fs, h, name, page)
      case SETXATTR => SetAttrVerb(fs, h, req.len, req.w1, page)
      case LISTXATTR => ListAttrVerb(fs, h, page)
      case REMOVEXATTR => RemoveAttrVerb(fs, h, name, page)
      case CLOSE => Answer(fs.(handles := fs.handles - {req.handle}), 0, 0, page)
      case STATFS => Answer(fs, |fs.volume|, 0, Fill(page, fs.volume))
      case SYNC =>
        if Write !in h.rights then Fail(fs, page, EROFS)
        else Answer(fs.(flushes := fs.flushes + 1), fs.flushes + 1, 0, page)
      case _ => TimeVerb(fs, req.op, h, name, req.w1, page)
  }

  /** A minting verb answers with a handle nobody holds; no verb frees one but CLOSE. */
  lemma HandlesAreFresh(fs: Fs, req: Request, page: Page)
    ensures var a := Serve(fs, req, page);
      && (MintsHandle(req.op) && a.r0 >= 0 ==> Minted(fs, a))
      && (MintsHandle(req.op) && a.r0 < 0 ==> SameHandles(fs, a))
      && (!MintsHandle(req.op) && req.op != CLOSE ==> SameHandles(fs, a))
      && (req.op == CLOSE ==> a.fs.handles == fs.handles - {req.handle} && a.fs.nextHandle == fs.nextHandle)
  {
  }
}
