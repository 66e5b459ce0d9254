/**
 What a nameset grant shows of the world outside it, exactly. Attribute verbs on the granted directory, STATFS and
 SYNC are forwarded unfiltered, and time stamps carry the clock; so two trees alike in the granted names and
 everything below them can be told apart by some run if and only if they differ in one of those, where the grant's
 rights let the client ask.
 */
module Visibility {
  import opened ServerTree
  import opened TreeLaws
  import opened NamesetCaretaker
  import opened CaretakerRuns
  import opened Confinement

  // ---- the statement ------------------------------------------------------------------------------------------

  /** What a node's store can hold. */
  predicate AttrOk(a: Attr) {
    AttrNameOk(a.name) && |a.value| <= MAX_VALUE && a.kind <= MAX_KIND
  }

  predicate AttrsOk(attrs: seq<Attr>) {
    Distinct(attrs) && |attrs| <= MAX_COUNT && forall i :: 0 <= i < |attrs| ==> AttrOk(attrs[i])
  }

  /** A caretaker just started on a granted directory. */
  predicate StartedOn(s: System, g: nat, rights: set<Right>) {
    && Fresh(s) && s.ct.dir in s.fs.handles && s.fs.handles[s.ct.dir] == Handle(g, rights)
    && g in s.fs.nodes && g < s.fs.nextNode && s.fs.nodes[g].body.Dir? && AttrsOk(s.fs.nodes[g].attrs)
  }

  /** Two such, over trees that agree on the granted names and everything below them; nothing else is asked. */
  ghost predicate AlikeWithin(s1: System, s2: System, sc: Scope) {
    && StartedOn(s1, sc.g1, sc.rights) && StartedOn(s2, sc.g2, sc.rights)
    && s1.page == s2.page && s1.ct.names == s2.ct.names == sc.names && ScopeOk(sc) && sc.times.Seen?
    && LikeNames(sc, s1.fs.nodes[sc.g1].body.entries, s2.fs.nodes[sc.g2].body.entries)
    && forall n :: n in sc.pair ==> PairedNode(s1.fs.nodes, s1.fs.nextNode, s2.fs.nodes, s2.fs.nextNode, sc, n)
  }

  /** A grant that can both set and read time stamps. */
  predicate ShowsTime(rights: set<Right>) {
    Read in rights && (Write in rights || Create in rights)
  }

  /** What the rights show of the storage and of the granted directory's attributes is the same. */
  ghost predicate AlikeAtRest(s1: System, s2: System, sc: Scope)
    requires sc.g1 in s1.fs.nodes && sc.g2 in s2.fs.nodes
  {
    var a1, a2 := s1.fs.nodes[sc.g1].attrs, s2.fs.nodes[sc.g2].attrs;
    && s1.fs.volume == s2.fs.volume
    && (Write in sc.rights ==> s1.fs.flushes == s2.fs.flushes)
    && (Read in sc.rights ==> a1 == a2) && (Write in sc.rights ==> forall name :: Has(a1, name) <==> Has(a2, name))
  }

  /** And of the clock. */
  ghost predicate AlikeOutside(s1: System, s2: System, sc: Scope)
    requires sc.g1 in s1.fs.nodes && sc.g2 in s2.fs.nodes
  {
    AlikeAtRest(s1, s2, sc) && (ShowsTime(sc.rights) ==> s1.fs.clock == s2.fs.clock)
  }

  predicate Usable(name: Name) {
    ValidName(name) && |name| <= MAX_NAME
  }

  /** Some granted name is there to be touched, or free to be created, as the rights allow. */
  ghost predicate Stampable(s: System, g: nat, rights: set<Right>)
    requires g in s.fs.nodes && s.fs.nodes[g].body.Dir?
  {
    exists x :: InSet(s.ct.names, x) && CanStamp(s, g, rights, x)
  }

  predicate CanStamp(s: System, g: nat, rights: set<Right>, x: Name)
    requires g in s.fs.nodes && s.fs.nodes[g].body.Dir?
  {
    Usable(x) && if Lookup(s.fs.nodes[g].body.entries, x).Some? then Write in rights else Create in rights
  }

  ghost predicate Indistinguishable(s1: System, s2: System) {
    forall events :: Replies(s1, events) == Replies(s2, events)
  }

  // ---- enough: nothing else shows ------------------------------------------------------------------------------

  /** The scope with what this grant can learn of time. */
  function Timed(sc: Scope): Scope {
    sc.(times := if Read !in sc.rights then Unseen else if ShowsTime(sc.rights) then Seen else Frozen)
  }

  lemma StartedAgree(s1: System, s2: System, sc: Scope)
    requires AlikeWithin(s1, s2, sc) && AlikeOutside(s1, s2, sc)
    ensures Agree(s1.fs, s2.fs, Timed(sc)) && Held(s1.ct, s2.ct, s1.fs, s2.fs, Timed(sc))
  {
    var ts := Timed(sc);
    forall n | n in ts.pair ensures PairedNode(s1.fs.nodes, s1.fs.nextNode, s2.fs.nodes, s2.fs.nextNode, ts, n) {
      assert PairedNode(s1.fs.nodes, s1.fs.nextNode, s2.fs.nodes, s2.fs.nextNode, sc, n);
    }
    forall i | 0 <= i < SLOTS ensures SlotTwins(s1.ct, s2.ct, s1.fs, s2.fs, ts, i) { }
  }

  lemma AlikeIsEnough(s1: System, s2: System, sc: Scope)
    requires AlikeWithin(s1, s2, sc) && AlikeOutside(s1, s2, sc)
    ensures Indistinguishable(s1, s2)
  {
    StartedAgree(s1, s2, sc);
    forall events ensures Replies(s1, events) == Replies(s2, events) {
      OutsideIsInvisible(s1, s2, Timed(sc), events);
    }
  }

  // ---- necessary: each of them shows ----------------------------------------------------------------------------

  /** A page that starts with these bytes. */
  function Bearing(bytes: seq<Byte>): (p: Page)
    ensures |bytes| <= PAGE ==> p[..|bytes|] == bytes
  {
    Fill(seq(PAGE, _ => 0), bytes)
  }

  function RootAsk(op: Operation, len: nat): Ask {
    Ask(Some(op), ROOT, len, 0, 0, 0)
  }

  /** What the server is sent for a request on the granted directory. */
  function RootRequest(s: System, op: Operation, len: nat): Request {
    Request(op, s.ct.dir, if CarriesLen(op) then len else 0, 0, 0, 0)
  }

  function OneRun(page: Page, ask: Ask): seq<Event> {
    [Stage(page), Call(ask)]
  }

  lemma OneReply(s: System, page: Page, ask: Ask)
    ensures Replies(s, OneRun(page, ask)) ==
      [Reply(Respond(s.ct, s.fs, page, ask).r0, Respond(s.ct, s.fs, page, ask).r1, Respond(s.ct, s.fs, page, ask).page)]
  {
    var e := OneRun(page, ask);
    var s' := After(s, e[0]);
    assert e[1..] == [Call(ask)] && [Call(ask)][1..] == [];
    assert Replies(s', [Call(ask)]) ==
      [Reply(Respond(s.ct, s.fs, page, ask).r0, Respond(s.ct, s.fs, page, ask).r1, Respond(s.ct, s.fs, page, ask).page)] + [];
  }

  /** A verb that takes no name from the granted directory is forwarded as it is. */
  lemma RootForward(s: System, op: Operation, len: nat, page: Page)
    requires s.ct.table[0] == Some(s.ct.dir) && len <= PAGE && op in {STATFS, SYNC, LISTXATTR, GETXATTR, REMOVEXATTR}
    ensures Respond(s.ct, s.fs, page, RootAsk(op, len)) == Forward(s.ct, s.fs, page, RootRequest(s, op, len))
  {
  }

  /** Such a verb's answer is in the reply: were the answers different, one run would show it. */
  lemma AnswersShow(s1: System, s2: System, op: Operation, len: nat, page: Page)
    requires Indistinguishable(s1, s2) && s1.ct.table[0] == Some(s1.ct.dir) && s2.ct.table[0] == Some(s2.ct.dir)
    requires len <= PAGE && op in {STATFS, SYNC, LISTXATTR, GETXATTR, REMOVEXATTR}
    ensures Serve(s1.fs, RootRequest(s1, op, len), page).r0 == Serve(s2.fs, RootRequest(s2, op, len), page).r0
    ensures Serve(s1.fs, RootRequest(s1, op, len), page).page == Serve(s2.fs, RootRequest(s2, op, len), page).page
  {
    var e := OneRun(page, RootAsk(op, len));
    assert Replies(s1, e) == Replies(s2, e);
    OneReply(s1, page, RootAsk(op, len));
    OneReply(s2, page, RootAsk(op, len));
    RootForward(s1, op, len, page);
    RootForward(s2, op, len, page);
    assert Replies(s1, e)[0] == Replies(s2, e)[0];
  }

  /** A run that looks outside the grant: the volume's size and free space. */
  lemma SpaceLeaks(s: System, page: Page)
    requires s.ct.table[0] == Some(s.ct.dir) && s.ct.dir in s.fs.handles
    ensures Replies(s, OneRun(page, RootAsk(STATFS, 0))) == [Reply(STATFS_LEN, 0, Fill(page, s.fs.volume))]
  {
    RootReply(s, STATFS, page);
  }

  /** Another: the names of the granted directory's own attributes. */
  lemma AttributesLeak(s: System, g: nat, rights: set<Right>, page: Page)
    requires StartedOn(s, g, rights) && Read in rights
    ensures var names := AttrNames(s.fs.nodes[g].attrs);
      Replies(s, OneRun(page, RootAsk(LISTXATTR, 0))) == [Reply(|names|, 0, Fill(page, names))]
  {
    RootReply(s, LISTXATTR, page);
  }

  lemma ServesSync(fs: Fs, dir: nat, page: Page)
    requires dir in fs.handles && Write in fs.handles[dir].rights
    ensures var a := Serve(fs, Request(SYNC, dir, 0, 0, 0, 0), page); a.r0 == fs.flushes + 1 && a.page == page
  {
  }

  /** Another: how often anyone has synced the device. */
  lemma SyncsLeak(s: System, g: nat, rights: set<Right>, page: Page)
    requires StartedOn(s, g, rights) && Write in rights
    ensures Replies(s, OneRun(page, RootAsk(SYNC, 0))) == [Reply(s.fs.flushes + 1, 0, page)]
  {
    RootReply(s, SYNC, page);
    ServesSync(s.fs, s.ct.dir, page);
  }

  lemma RootReply(s: System, op: Operation, page: Page)
    requires s.ct.table[0] == Some(s.ct.dir) && op in {STATFS, SYNC, LISTXATTR}
    ensures var a := Serve(s.fs, Request(op, s.ct.dir, 0, 0, 0, 0), page);
      Replies(s, OneRun(page, RootAsk(op, 0))) == [Reply(a.r0, 0, a.page)]
  {
    OneReply(s, page, RootAsk(op, 0));
    RootForward(s, op, 0, page);
  }

  lemma VolumeShows(s1: System, s2: System, sc: Scope)
    requires AlikeWithin(s1, s2, sc) && Indistinguishable(s1, s2)
    ensures s1.fs.volume == s2.fs.volume
  {
    var p := Bearing([]);
    AnswersShow(s1, s2, STATFS, 0, p);
    assert Fill(p, s1.fs.volume)[..STATFS_LEN] == Fill(p, s2.fs.volume)[..STATFS_LEN];
  }

  lemma FlushesShow(s1: System, s2: System, sc: Scope)
    requires AlikeWithin(s1, s2, sc) && Indistinguishable(s1, s2) && Write in sc.rights
    ensures s1.fs.flushes == s2.fs.flushes
  {
    AnswersShow(s1, s2, SYNC, 0, Bearing([]));
  }

  lemma {:induction false} HasIsOk(attrs: seq<Attr>, name: Name)
    requires Has(attrs, name) && forall i :: 0 <= i < |attrs| ==> AttrOk(attrs[i])
    ensures AttrNameOk(name)
  {
    assert AttrOk(attrs[0]);
    if attrs[0].name != name {
      forall i | 0 <= i < |attrs[1..]| ensures AttrOk(attrs[1..][i]) { assert AttrOk(attrs[i + 1]); }
      HasIsOk(attrs[1..], name);
    }
  }

  /** A writer learns which attributes the granted directory has, by removing them. */
  lemma AttrNamesShow(s1: System, s2: System, sc: Scope, name: Name)
    requires AlikeWithin(s1, s2, sc) && Indistinguishable(s1, s2) && Write in sc.rights
    ensures Has(s1.fs.nodes[sc.g1].attrs, name) <==> Has(s2.fs.nodes[sc.g2].attrs, name)
  {
    var a1, a2 := s1.fs.nodes[sc.g1].attrs, s2.fs.nodes[sc.g2].attrs;
    if Has(a1, name) { HasIsOk(a1, name); }
    if Has(a2, name) { HasIsOk(a2, name); }
    if AttrNameOk(name) {
      AnswersShow(s1, s2, REMOVEXATTR, |name|, Bearing(name));
      RemoveTells(s1, sc.g1, sc.rights, name);
      RemoveTells(s2, sc.g2, sc.rights, name);
    }
  }

  lemma RemoveTells(s: System, g: nat, rights: set<Right>, name: Name)
    requires StartedOn(s, g, rights) && Write in rights && AttrNameOk(name)
    ensures Serve(s.fs, RootRequest(s, REMOVEXATTR, |name|), Bearing(name)).r0 == 0 <==> Has(s.fs.nodes[g].attrs, name)
  {
  }

  // ---- a reader learns every attribute ---------------------------------------------------------------------------

  lemma {:induction false} NamesFit(attrs: seq<Attr>)
    requires forall i :: 0 <= i < |attrs| ==> AttrOk(attrs[i])
    ensures |AttrNames(attrs)| <= |attrs| * (1 + MAX_ATTR_NAME)
  {
    if attrs != [] {
      assert AttrOk(attrs[0]);
      forall i | 0 <= i < |attrs[1..]| ensures AttrOk(attrs[1..][i]) { assert AttrOk(attrs[i + 1]); }
      NamesFit(attrs[1..]);
    }
  }

  predicate SameNameAt(a1: seq<Attr>, a2: seq<Attr>, i: nat)
    requires i < |a1| == |a2|
  {
    a1[i].name == a2[i].name
  }

  /** A listing tells the names and their order. */
  lemma {:induction false} ListingTells(a1: seq<Attr>, a2: seq<Attr>)
    requires forall i :: 0 <= i < |a1| ==> AttrOk(a1[i])
    requires forall i :: 0 <= i < |a2| ==> AttrOk(a2[i])
    requires AttrNames(a1) == AttrNames(a2)
    ensures |a1| == |a2| && forall i :: 0 <= i < |a1| ==> SameNameAt(a1, a2, i)
    decreases |a1|
  {
    if a1 != [] && a2 != [] {
      assert AttrOk(a1[0]) && AttrOk(a2[0]);
      var n1, n2 := a1[0].name, a2[0].name;
      var b := AttrNames(a1);
      assert b[0] == |n1| == |n2|;
      assert b[1..1 + |n1|] == n1 && b[1..1 + |n2|] == n2;
      assert b[1 + |n1|..] == AttrNames(a1[1..]) && b[1 + |n2|..] == AttrNames(a2[1..]);
      forall i | 0 <= i < |a1[1..]| ensures AttrOk(a1[1..][i]) { assert AttrOk(a1[i + 1]); }
      forall i | 0 <= i < |a2[1..]| ensures AttrOk(a2[1..][i]) { assert AttrOk(a2[i + 1]); }
      ListingTells(a1[1..], a2[1..]);
      forall i | 0 <= i < |a1| ensures SameNameAt(a1, a2, i) {
        if i > 0 { assert SameNameAt(a1[1..], a2[1..], i - 1); }
      }
    }
  }

  lemma {:induction false} FindsItself(attrs: seq<Attr>, i: nat)
    requires Distinct(attrs) && i < |attrs|
    ensures FindAttr(attrs, attrs[i].name) == Some(attrs[i])
  {
    if i > 0 {
      FindsItself(attrs[1..], i - 1);
      assert attrs[1..][i - 1] == attrs[i];
    }
  }

  lemma ListShows(s: System, g: nat, rights: set<Right>, page: Page)
    requires StartedOn(s, g, rights) && Read in rights
    ensures var a := Serve(s.fs, RootRequest(s, LISTXATTR, 0), page);
      && a.r0 == |AttrNames(s.fs.nodes[g].attrs)| <= PAGE && a.page[..a.r0] == AttrNames(s.fs.nodes[g].attrs)
  {
    NamesFit(s.fs.nodes[g].attrs);
  }

  lemma GetShows(s: System, g: nat, rights: set<Right>, i: nat)
    requires StartedOn(s, g, rights) && Read in rights && i < |s.fs.nodes[g].attrs|
    ensures var x := s.fs.nodes[g].attrs[i];
      && AttrOk(x)
      && var a := Serve(s.fs, RootRequest(s, GETXATTR, |x.name|), Bearing(x.name));
      a.r0 == x.kind * 0x1_0000_0000 + |x.value| && a.page[..|x.value|] == x.value
  {
    var x := s.fs.nodes[g].attrs[i];
    assert AttrOk(x);
    FindsItself(s.fs.nodes[g].attrs, i);
  }

  /** The reply word tells the kind and the length apart. */
  lemma KindAndLength(k1: nat, n1: nat, k2: nat, n2: nat)
    requires n1 < 0x1_0000_0000 && n2 < 0x1_0000_0000 && k1 * 0x1_0000_0000 + n1 == k2 * 0x1_0000_0000 + n2
    ensures k1 == k2 && n1 == n2
  {
  }

  lemma AttrsShow(s1: System, s2: System, sc: Scope)
    requires AlikeWithin(s1, s2, sc) && Indistinguishable(s1, s2) && Read in sc.rights
    ensures s1.fs.nodes[sc.g1].attrs == s2.fs.nodes[sc.g2].attrs
  {
    var a1, a2 := s1.fs.nodes[sc.g1].attrs, s2.fs.nodes[sc.g2].attrs;
    var p := Bearing([]);
    AnswersShow(s1, s2, LISTXATTR, 0, p);
    ListShows(s1, sc.g1, sc.rights, p);
    ListShows(s2, sc.g2, sc.rights, p);
    ListingTells(a1, a2);
    forall i | 0 <= i < |a1| ensures a1[i] == a2[i] { AttrShows(s1, s2, sc, i); }
  }

  lemma AttrShows(s1: System, s2: System, sc: Scope, i: nat)
    requires AlikeWithin(s1, s2, sc) && Indistinguishable(s1, s2) && Read in sc.rights
    requires i < |s1.fs.nodes[sc.g1].attrs| == |s2.fs.nodes[sc.g2].attrs|
    requires SameNameAt(s1.fs.nodes[sc.g1].attrs, s2.fs.nodes[sc.g2].attrs, i)
    ensures s1.fs.nodes[sc.g1].attrs[i] == s2.fs.nodes[sc.g2].attrs[i]
  {
    var x1, x2 := s1.fs.nodes[sc.g1].attrs[i], s2.fs.nodes[sc.g2].attrs[i];
    GetShows(s1, sc.g1, sc.rights, i);
    GetShows(s2, sc.g2, sc.rights, i);
    AnswersShow(s1, s2, GETXATTR, |x1.name|, Bearing(x1.name));
    KindAndLength(x1.kind, |x1.value|, x2.kind, |x2.value|);
  }

  // ---- a client that can set and read time stamps reads the clock ---------------------------------------------------

  /** Stamp a granted name, then ask for its time. */
  function ClockRun(stamp: Operation, x: Name): seq<Event> {
    [Stage(Bearing(x)), Call(RootAsk(stamp, |x|)), Stage(Bearing(x)), Call(RootAsk(GETMTIME, |x|))]
  }

  function Stamped(s: System, stamp: Operation, x: Name): System {
    After(After(s, Stage(Bearing(x))), Call(RootAsk(stamp, |x|)))
  }

  lemma TwoReplies(s: System, stamp: Operation, x: Name)
    ensures var r := Replies(s, ClockRun(stamp, x)); var t := Stamped(s, stamp, x);
      |r| == 2 && r[1].r0 == Respond(t.ct, t.fs, Bearing(x), RootAsk(GETMTIME, |x|)).r0
  {
    var e := ClockRun(stamp, x);
    var t := Stamped(s, stamp, x);
    assert e[1..][0] == Call(RootAsk(stamp, |x|)) && e[1..][1..] == OneRun(Bearing(x), RootAsk(GETMTIME, |x|));
    OneReply(t, Bearing(x), RootAsk(GETMTIME, |x|));
  }

  /** A granted name against the granted directory passes as it is. */
  lemma NamePasses(ct: Caretaker, op: Operation, x: Name)
    requires ct.table[0] == Some(ct.dir) && InSet(ct.names, x) && Usable(x) && op in {SETMTIME, GETMTIME, CREATE}
    ensures PlanOf(ct, Bearing(x), RootAsk(op, |x|)) == Pass(Request(op, ct.dir, |x|, 0, 0, 0), Bearing(x))
  {
    NameStands(op, x);
    PlanPasses(ct, Bearing(x), op, |x|);
  }

  lemma PlanPasses(ct: Caretaker, page: Page, op: Operation, len: nat)
    requires ct.table[0] == Some(ct.dir) && OperandOf(op) == NameOperand && len <= PAGE
    requires InSet(ct.names, Checked(op, page, len)) && PutAt(page, 0, Checked(op, page, len)) == page
    ensures PlanOf(ct, page, RootAsk(op, len)) == Pass(Request(op, ct.dir, len, 0, 0, 0), page)
  {
    assert Get(ct.table, ROOT) == Some(ct.dir) && Min(len, PAGE) == len && CarriesLen(op);
  }

  lemma NameStands(op: Operation, x: Name)
    requires Usable(x) && op in {SETMTIME, GETMTIME, CREATE}
    ensures Checked(op, Bearing(x), |x|) == x && PutAt(Bearing(x), 0, x) == Bearing(x)
  {
    var page := Bearing(x);
    assert NameAt(page, 0, |x|) == page[0..|x|] == page[..|x|] == x;
    PutBack(page, 0, |x|);
  }

  /** Slot 0 and its handle are as they were, and the name's node carries this time. */
  predicate Carries(s: System, g: nat, rights: set<Right>, names: seq<SetName>, x: Name, time: nat) {
    && s.ct.table[0] == Some(s.ct.dir) && s.ct.names == names
    && s.ct.dir in s.fs.handles && s.fs.handles[s.ct.dir] == Handle(g, rights)
    && g in s.fs.nodes && s.fs.nodes[g].body.Dir?
    && var child := Lookup(s.fs.nodes[g].body.entries, x);
       child.Some? && child.value in s.fs.nodes && s.fs.nodes[child.value].mtime == time
  }

  lemma NameForwards(ct: Caretaker, fs: Fs, op: Operation, x: Name)
    requires ct.table[0] == Some(ct.dir) && InSet(ct.names, x) && Usable(x) && (op == SETMTIME || op == GETMTIME)
    ensures Respond(ct, fs, Bearing(x), RootAsk(op, |x|)) == Forward(ct, fs, Bearing(x), Request(op, ct.dir, |x|, 0, 0, 0))
  {
    NamePasses(ct, op, x);
  }

  lemma ServesTime(fs: Fs, op: Operation, dir: nat, x: Name)
    requires dir in fs.handles && Usable(x) && (op == SETMTIME || op == GETMTIME)
    ensures Serve(fs, Request(op, dir, |x|, 0, 0, 0), Bearing(x)) == TimeVerb(fs, op, fs.handles[dir], x, 0, Bearing(x))
  {
    assert Bearing(x)[..|x|] == x;
  }

  lemma ServesCreate(fs: Fs, dir: nat, x: Name)
    requires dir in fs.handles && Usable(x)
    ensures Serve(fs, Request(CREATE, dir, |x|, 0, 0, 0), Bearing(x)) == CreateVerb(fs, fs.handles[dir], x, Bearing(x))
  {
    assert Bearing(x)[..|x|] == x;
  }

  lemma TimeReads(s: System, g: nat, rights: set<Right>, x: Name, time: nat)
    requires Carries(s, g, rights, s.ct.names, x, time) && Read in rights && InSet(s.ct.names, x) && Usable(x)
    ensures Respond(s.ct, s.fs, Bearing(x), RootAsk(GETMTIME, |x|)).r0 == time
  {
    NameForwards(s.ct, s.fs, GETMTIME, x);
    ServesTime(s.fs, GETMTIME, s.ct.dir, x);
    Timestamped(s.fs, g, rights, x);
  }

  lemma Timestamped(fs: Fs, g: nat, rights: set<Right>, x: Name)
    requires g in fs.nodes && fs.nodes[g].body.Dir? && Usable(x) && Read in rights
    requires var child := Lookup(fs.nodes[g].body.entries, x); child.Some? && child.value in fs.nodes
    ensures TimeVerb(fs, GETMTIME, Handle(g, rights), x, 0, Bearing(x)).r0
         == fs.nodes[Lookup(fs.nodes[g].body.entries, x).value].mtime
  {
  }

  lemma TouchStamps(s: System, g: nat, rights: set<Right>, x: Name)
    requires StartedOn(s, g, rights) && InSet(s.ct.names, x) && Usable(x) && Write in rights
    requires Lookup(s.fs.nodes[g].body.entries, x).Some? && Lookup(s.fs.nodes[g].body.entries, x).value in s.fs.nodes
    requires Lookup(s.fs.nodes[g].body.entries, x).value != g
    ensures Carries(Stamped(s, SETMTIME, x), g, rights, s.ct.names, x, s.fs.clock)
  {
    NameForwards(s.ct, s.fs, SETMTIME, x);
    ServesTime(s.fs, SETMTIME, s.ct.dir, x);
    Touched(s.fs, g, rights, x);
  }

  lemma Touched(fs: Fs, g: nat, rights: set<Right>, x: Name)
    requires g in fs.nodes && fs.nodes[g].body.Dir? && Usable(x) && Write in rights
    requires var child := Lookup(fs.nodes[g].body.entries, x); child.Some? && child.value in fs.nodes && child.value != g
    ensures var a, n := TimeVerb(fs, SETMTIME, Handle(g, rights), x, 0, Bearing(x)), Lookup(fs.nodes[g].body.entries, x).value;
      && a.fs.handles == fs.handles && g in a.fs.nodes && a.fs.nodes[g] == fs.nodes[g]
      && n in a.fs.nodes && a.fs.nodes[n].mtime == fs.clock
  {
  }

  lemma CreateStamps(s: System, g: nat, rights: set<Right>, x: Name)
    requires StartedOn(s, g, rights) && InSet(s.ct.names, x) && Usable(x) && Create in rights
    requires Lookup(s.fs.nodes[g].body.entries, x).None?
    ensures Carries(Stamped(s, CREATE, x), g, rights, s.ct.names, x, s.fs.clock)
  {
    NamePasses(s.ct, CREATE, x);
    ServesCreate(s.fs, s.ct.dir, x);
    Created(s.fs, g, rights, x);
    assert FreeSlot(s.ct.table, 1) == Some(1);
  }

  lemma Created(fs: Fs, g: nat, rights: set<Right>, x: Name)
    requires g in fs.nodes && g < fs.nextNode && fs.nodes[g].body.Dir? && Usable(x) && Create in rights
    requires Lookup(fs.nodes[g].body.entries, x).None?
    ensures var a := CreateVerb(fs, Handle(g, rights), x, Bearing(x));
      && a.r0 >= 0 && Minted(fs, a) && g in a.fs.nodes && a.fs.nodes[g].body.Dir?
      && Lookup(a.fs.nodes[g].body.entries, x) == Some(fs.nextNode)
      && fs.nextNode in a.fs.nodes && a.fs.nodes[fs.nextNode].mtime == fs.clock
  {
    LookupAppend(fs.nodes[g].body.entries, Entry(x, fs.nextNode), x);
  }

  /** With a name to stamp, the clock is in the second reply. */
  lemma ClockReads(s: System, g: nat, rights: set<Right>, x: Name)
    requires StartedOn(s, g, rights) && InSet(s.ct.names, x) && CanStamp(s, g, rights, x) && Read in rights
    requires var child := Lookup(s.fs.nodes[g].body.entries, x);
      child.Some? ==> child.value in s.fs.nodes && child.value != g
    ensures var stamp := if Lookup(s.fs.nodes[g].body.entries, x).Some? then SETMTIME else CREATE;
      var r := Replies(s, ClockRun(stamp, x));
      |r| == 2 && r[1].r0 == s.fs.clock
  {
    var stamp := if Lookup(s.fs.nodes[g].body.entries, x).Some? then SETMTIME else CREATE;
    TwoReplies(s, stamp, x);
    if stamp == SETMTIME { TouchStamps(s, g, rights, x); } else { CreateStamps(s, g, rights, x); }
    TimeReads(Stamped(s, stamp, x), g, rights, x, s.fs.clock);
  }

  lemma ClockShows(s1: System, s2: System, sc: Scope)
    requires AlikeWithin(s1, s2, sc) && Indistinguishable(s1, s2) && Read in sc.rights && Stampable(s1, sc.g1, sc.rights)
    ensures s1.fs.clock == s2.fs.clock
  {
    var x :| InSet(s1.ct.names, x) && CanStamp(s1, sc.g1, sc.rights, x);
    var e1, e2 := s1.fs.nodes[sc.g1].body.entries, s2.fs.nodes[sc.g2].body.entries;
    assert LikeName(sc.pair, e1, e2, x);
    if Lookup(e1, x).Some? {
      assert PairedNode(s1.fs.nodes, s1.fs.nextNode, s2.fs.nodes, s2.fs.nextNode, sc, Lookup(e1, x).value);
    }
    ClockReads(s1, sc.g1, sc.rights, x);
    ClockReads(s2, sc.g2, sc.rights, x);
    var stamp := if Lookup(e1, x).Some? then SETMTIME else CREATE;
    assert Replies(s1, ClockRun(stamp, x)) == Replies(s2, ClockRun(stamp, x));
  }

  // ---- the exact condition -----------------------------------------------------------------------------------------

  /**
   Two trees alike in the granted names and everything below them give every run the same replies, if and only if
   what the grant's rights show of the outside is the same: the volume's numbers to anyone; the flush count and the
   names of the granted directory's attributes to a writer; those attributes in full to a reader; and the clock to
   whoever can both set and read a stamp, where there is a granted name to do it on.
   */
  lemma IndistinguishableIff(s1: System, s2: System, sc: Scope)
    requires AlikeWithin(s1, s2, sc)
    ensures AlikeOutside(s1, s2, sc) ==> Indistinguishable(s1, s2)
    ensures Indistinguishable(s1, s2) ==> AlikeAtRest(s1, s2, sc)
    ensures (ShowsTime(sc.rights) ==> Stampable(s1, sc.g1, sc.rights)) ==>
      (Indistinguishable(s1, s2) <==> AlikeOutside(s1, s2, sc))
  {
    if AlikeOutside(s1, s2, sc) { AlikeIsEnough(s1, s2, sc); }
    if Indistinguishable(s1, s2) {
      VolumeShows(s1, s2, sc);
      if Write in sc.rights {
        FlushesShow(s1, s2, sc);
        forall name ensures Has(s1.fs.nodes[sc.g1].attrs, name) <==> Has(s2.fs.nodes[sc.g2].attrs, name) {
          AttrNamesShow(s1, s2, sc, name);
        }
      }
      if Read in sc.rights { AttrsShow(s1, s2, sc); }
      if ShowsTime(sc.rights) && Stampable(s1, sc.g1, sc.rights) { ClockShows(s1, s2, sc); }
    }
  }
}
