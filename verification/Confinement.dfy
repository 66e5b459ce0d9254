/**
 Two-run confinement: what a client of the nameset caretaker can tell of the tree around the granted names. Two
 trees that agree on the granted names and everything below them, however their nodes and handles are numbered
 and whatever else they hold, give the same replies to every run, except for what four verbs say of the outside:
 the granted directory's own attributes, the volume's free space, the device's flush count and the clock. This
 module proves which of those a grant shows, and that nothing else is shown.
 */
module Confinement {
  import opened ServerTree
  import opened TreeLaws
  import opened NamesetCaretaker
  import opened CaretakerRuns

  /** What a grant lets its client learn of time: stamps and clock, neither, or stamps that cannot change. */
  datatype Times = Seen | Unseen | Frozen

  /**
   Two trees side by side: the granted directory's node in each, which node below the granted names in the second
   stands for which in the first, and the rights of the grant.
   */
  datatype Scope = Scope(g1: nat, g2: nat, names: seq<SetName>, pair: map<nat, nat>, rights: set<Right>, times: Times)

  predicate ScopeOk(sc: Scope) {
    && (forall a, b :: a in sc.pair && b in sc.pair && sc.pair[a] == sc.pair[b] ==> a == b)
    && sc.g1 !in sc.pair && (forall a :: a in sc.pair ==> sc.pair[a] != sc.g2)
    && (sc.times.Unseen? ==> Read !in sc.rights)
    && (sc.times.Frozen? ==> Write !in sc.rights && Create !in sc.rights)
  }

  /** A node a confined request can stand on. */
  predicate Known(sc: Scope, at: nat) {
    at == sc.g1 || at in sc.pair
  }

  function Twin(sc: Scope, at: nat): nat
    requires Known(sc, at)
  {
    if at in sc.pair then sc.pair[at] else sc.g2
  }

  lemma TwinIsUnique(sc: Scope, a: nat, b: nat)
    requires ScopeOk(sc) && Known(sc, a) && Known(sc, b)
    ensures Twin(sc, a) == Twin(sc, b) <==> a == b
  {
  }

  // ---- what it means to agree -------------------------------------------------------------------------------

  predicate LikeEntry(pair: map<nat, nat>, a: Entry, b: Entry) {
    a.name == b.name && a.node in pair && pair[a.node] == b.node
  }

  predicate LikeEntries(pair: map<nat, nat>, e1: seq<Entry>, e2: seq<Entry>) {
    |e1| == |e2| && forall i :: 0 <= i < |e1| ==> LikeEntry(pair, e1[i], e2[i])
  }

  predicate LikeBody(pair: map<nat, nat>, b1: Body, b2: Body) {
    match (b1, b2)
    case (File(d1), File(d2)) => d1 == d2
    case (Dir(e1), Dir(e2)) => LikeEntries(pair, e1, e2)
    case _ => false
  }

  predicate LikeNode(sc: Scope, n1: Node, n2: Node) {
    n1.attrs == n2.attrs && (!sc.times.Unseen? ==> n1.mtime == n2.mtime) && LikeBody(sc.pair, n1.body, n2.body)
  }

  /** The nodes below the granted names: present in both trees, and alike. */
  predicate PairedNode(m1: map<nat, Node>, k1: nat, m2: map<nat, Node>, k2: nat, sc: Scope, n: nat)
    requires n in sc.pair
  {
    n in m1 && n < k1 && sc.pair[n] in m2 && sc.pair[n] < k2 && LikeNode(sc, m1[n], m2[sc.pair[n]])
  }

  /** A granted name means paired nodes, or nothing in either directory. */
  predicate LikeName(pair: map<nat, nat>, e1: seq<Entry>, e2: seq<Entry>, name: Name) {
    match (Lookup(e1, name), Lookup(e2, name))
    case (None, None) => true
    case (Some(a), Some(b)) => a in pair && pair[a] == b
    case _ => false
  }

  ghost predicate LikeNames(sc: Scope, e1: seq<Entry>, e2: seq<Entry>) {
    forall name | InSet(sc.names, name) :: LikeName(sc.pair, e1, e2, name)
  }

  /** A node's store holds no name twice. */
  predicate Distinct(attrs: seq<Attr>) {
    attrs == [] || (!Has(attrs[1..], attrs[0].name) && Distinct(attrs[1..]))
  }

  ghost predicate SameAttrNames(a1: seq<Attr>, a2: seq<Attr>) {
    Distinct(a1) && Distinct(a2) && forall name :: Has(a1, name) <==> Has(a2, name)
  }

  /** What a grant shows of the granted directory's own attributes: all to a reader, their names to a writer. */
  ghost predicate LikeAttrs(rights: set<Right>, a1: seq<Attr>, a2: seq<Attr>) {
    (Read in rights ==> a1 == a2) && (Write in rights ==> SameAttrNames(a1, a2))
  }

  /** The granted directories: alike in the granted names, and in what the grant shows of their attributes. */
  ghost predicate LikeGranted(sc: Scope, n1: Node, n2: Node) {
    && n1.body.Dir? && n2.body.Dir? && LikeAttrs(sc.rights, n1.attrs, n2.attrs)
    && LikeNames(sc, n1.body.entries, n2.body.entries)
  }

  /** What is shown of the storage and the clock. */
  predicate LikeWorld(sc: Scope, f1: Fs, f2: Fs) {
    f1.volume == f2.volume && (Write in sc.rights ==> f1.flushes == f2.flushes) && (sc.times.Seen? ==> f1.clock == f2.clock)
  }

  /** Handles, numbering, the granted directory's time stamp and everything outside are left open. */
  ghost predicate Agree(f1: Fs, f2: Fs, sc: Scope) {
    && ScopeOk(sc) && LikeWorld(sc, f1, f2)
    && sc.g1 in f1.nodes && sc.g1 < f1.nextNode && sc.g2 in f2.nodes && sc.g2 < f2.nextNode
    && LikeGranted(sc, f1.nodes[sc.g1], f2.nodes[sc.g2])
    && forall n :: n in sc.pair ==> PairedNode(f1.nodes, f1.nextNode, f2.nodes, f2.nextNode, sc, n)
  }

  /** A place and a name a confined request may use: anything below, or a granted name at the top. */
  predicate Here(sc: Scope, at: nat, name: Name) {
    at in sc.pair || (at == sc.g1 && InSet(sc.names, name))
  }

  // ---- directory entries ------------------------------------------------------------------------------------

  lemma {:induction false} LookupLike(pair: map<nat, nat>, e1: seq<Entry>, e2: seq<Entry>, name: Name)
    requires LikeEntries(pair, e1, e2)
    ensures LikeName(pair, e1, e2, name)
  {
    if e1 != [] {
      assert LikeEntry(pair, e1[0], e2[0]);
      if e1[0].name != name {
        forall i | 0 <= i < |e1[1..]| ensures LikeEntry(pair, e1[1..][i], e2[1..][i]) {
          assert LikeEntry(pair, e1[i + 1], e2[i + 1]);
        }
        LookupLike(pair, e1[1..], e2[1..], name);
      }
    }
  }

  lemma {:induction false} WithoutLike(pair: map<nat, nat>, e1: seq<Entry>, e2: seq<Entry>, gone: Name)
    requires LikeEntries(pair, e1, e2)
    ensures LikeEntries(pair, Without(e1, gone), Without(e2, gone))
  {
    if e1 != [] {
      assert LikeEntry(pair, e1[0], e2[0]);
      forall i | 0 <= i < |e1[1..]| ensures LikeEntry(pair, e1[1..][i], e2[1..][i]) {
        assert LikeEntry(pair, e1[i + 1], e2[i + 1]);
      }
      WithoutLike(pair, e1[1..], e2[1..], gone);
    }
  }

  // ---- attributes -------------------------------------------------------------------------------------------

  lemma {:induction false} ReplacedDistinct(attrs: seq<Attr>, a: Attr)
    requires Distinct(attrs)
    ensures Distinct(Replaced(attrs, a))
  {
    if attrs != [] {
      ReplacedDistinct(attrs[1..], a);
      FindReplaced(attrs[1..], a, attrs[0].name);
      assert Replaced(attrs, a)[1..] == Replaced(attrs[1..], a);
    }
  }

  lemma {:induction false} AppendDistinct(attrs: seq<Attr>, a: Attr)
    requires Distinct(attrs) && !Has(attrs, a.name)
    ensures Distinct(attrs + [a])
  {
    if attrs == [] {
      assert attrs + [a] == [a] && [a][1..] == [];
    } else {
      AppendDistinct(attrs[1..], a);
      FindAppend(attrs[1..], a, attrs[0].name);
      assert (attrs + [a])[1..] == attrs[1..] + [a];
    }
  }

  lemma {:induction false} WithoutDistinct(attrs: seq<Attr>, gone: Name)
    requires Distinct(attrs)
    ensures Distinct(WithoutAttr(attrs, gone))
    ensures |WithoutAttr(attrs, gone)| == |attrs| - if Has(attrs, gone) then 1 else 0
  {
    if attrs != [] {
      WithoutDistinct(attrs[1..], gone);
      FindWithout(attrs[1..], gone, attrs[0].name);
      var rest := WithoutAttr(attrs[1..], gone);
      if attrs[0].name != gone { assert ([attrs[0]] + rest)[1..] == rest; }
    }
  }

  /** Two stores with the same names hold equally many. */
  lemma {:induction false} SameCount(a1: seq<Attr>, a2: seq<Attr>)
    requires SameAttrNames(a1, a2)
    ensures |a1| == |a2|
    decreases |a1|
  {
    if a1 == [] {
      assert a2 == [] || Has(a2, a2[0].name);
    } else {
      var n := a1[0].name;
      WithoutDistinct(a2, n);
      assert Has(a1, n);
      forall name ensures Has(a1[1..], name) <==> Has(WithoutAttr(a2, n), name) {
        FindWithout(a2, n, name);
        assert Has(a1, name) <==> Has(a2, name);
      }
      SameCount(a1[1..], WithoutAttr(a2, n));
    }
  }

  lemma WithAttrLike(rights: set<Right>, a1: seq<Attr>, a2: seq<Attr>, a: Attr)
    requires LikeAttrs(rights, a1, a2) && Write in rights
    ensures SetAttrErrno(a1, a) == SetAttrErrno(a2, a)
    ensures LikeAttrs(rights, WithAttr(a1, a), WithAttr(a2, a))
  {
    SameCount(a1, a2);
    assert Has(a1, a.name) <==> Has(a2, a.name);
    WithAttrDistinct(a1, a);
    WithAttrDistinct(a2, a);
    forall name ensures Has(WithAttr(a1, a), name) <==> Has(WithAttr(a2, a), name) {
      WithAttrNames(a1, a, name);
      WithAttrNames(a2, a, name);
      assert Has(a1, name) <==> Has(a2, name);
    }
  }

  lemma WithAttrDistinct(attrs: seq<Attr>, a: Attr)
    requires Distinct(attrs)
    ensures Distinct(WithAttr(attrs, a))
  {
    if Has(attrs, a.name) { ReplacedDistinct(attrs, a); } else { AppendDistinct(attrs, a); }
  }

  lemma WithAttrNames(attrs: seq<Attr>, a: Attr, name: Name)
    ensures Has(WithAttr(attrs, a), name) <==> name == a.name || Has(attrs, name)
  {
    FindReplaced(attrs, a, name);
    FindAppend(attrs, a, name);
  }

  lemma WithoutAttrLike(rights: set<Right>, a1: seq<Attr>, a2: seq<Attr>, gone: Name)
    requires LikeAttrs(rights, a1, a2) && Write in rights
    ensures Has(a1, gone) <==> Has(a2, gone)
    ensures LikeAttrs(rights, WithoutAttr(a1, gone), WithoutAttr(a2, gone))
  {
    WithoutDistinct(a1, gone);
    WithoutDistinct(a2, gone);
    forall name ensures Has(WithoutAttr(a1, gone), name) <==> Has(WithoutAttr(a2, gone), name) {
      FindWithout(a1, gone, name);
      FindWithout(a2, gone, name);
      assert Has(a1, name) <==> Has(a2, name);
    }
  }

  // ---- reading: the same answers ------------------------------------------------------------------------------

  /** What stands at a known place in both trees: the same kind, and the same meaning of a name it may use. */
  lemma SameNode(f1: Fs, f2: Fs, sc: Scope, at: nat, name: Name)
    requires Agree(f1, f2, sc) && Here(sc, at, name)
    ensures at in f1.nodes && Twin(sc, at) in f2.nodes
    ensures f1.nodes[at].body.Dir? <==> f2.nodes[Twin(sc, at)].body.Dir?
    ensures f1.nodes[at].body.Dir? ==>
      LikeName(sc.pair, f1.nodes[at].body.entries, f2.nodes[Twin(sc, at)].body.entries, name)
  {
    if at in sc.pair {
      assert PairedNode(f1.nodes, f1.nextNode, f2.nodes, f2.nextNode, sc, at);
      if f1.nodes[at].body.Dir? { LookupLike(sc.pair, f1.nodes[at].body.entries, f2.nodes[sc.pair[at]].body.entries, name); }
    } else {
      assert LikeName(sc.pair, f1.nodes[sc.g1].body.entries, f2.nodes[sc.g2].body.entries, name);
    }
  }

  predicate LikeReached(r1: Reached, r2: Reached, sc: Scope) {
    match (r1, r2)
    case (Refused(a), Refused(b)) => a == b
    case (At(n, a), At(m, b)) => n in sc.pair && sc.pair[n] == m && a == b && a <= sc.rights
    case _ => false
  }

  lemma SameDescent(f1: Fs, f2: Fs, sc: Scope, at: nat, rights: set<Right>, name: Name, asked: set<Right>, ok: bool)
    requires Agree(f1, f2, sc) && Here(sc, at, name) && rights <= sc.rights
    ensures LikeReached(DescendStep(f1, at, rights, name, asked, ok), DescendStep(f2, Twin(sc, at), rights, name, asked, ok), sc)
  {
    SameNode(f1, f2, sc, at, name);
    if f1.nodes[at].body.Dir? {
      var child := Lookup(f1.nodes[at].body.entries, name);
      if child.Some? { assert PairedNode(f1.nodes, f1.nextNode, f2.nodes, f2.nextNode, sc, child.value); }
    }
  }

  /** Downward resolution goes the same way through both trees. */
  lemma {:induction false} SameWalk(f1: Fs, f2: Fs, sc: Scope, at: nat, rights: set<Right>, comps: seq<Name>,
                                    asked: set<Right>, ok: bool)
    requires Agree(f1, f2, sc) && rights <= sc.rights && comps != [] && Here(sc, at, comps[0])
    ensures LikeReached(Walk(f1, at, rights, comps, asked, ok), Walk(f2, Twin(sc, at), rights, comps, asked, ok), sc)
    decreases |comps|
  {
    SameDescent(f1, f2, sc, at, rights, comps[0], asked, ok);
    var r := DescendStep(f1, at, rights, comps[0], asked, ok);
    if r.At? && |comps| > 1 { SameWalk(f1, f2, sc, r.node, r.rights, comps[1..], asked, ok); }
  }

  // ---- writing: the agreement survives ----------------------------------------------------------------------------

  /** The clocks after a change, if the grant shows them. */
  predicate Clocks(sc: Scope, c1: nat, c2: nat) {
    sc.times.Seen? ==> c1 == c2
  }

  lemma PutPaired(f1: Fs, f2: Fs, sc: Scope, n: nat, n1: Node, n2: Node, c1: nat, c2: nat)
    requires Agree(f1, f2, sc) && n in sc.pair && LikeNode(sc, n1, n2) && Clocks(sc, c1, c2)
    ensures Agree(f1.(nodes := f1.nodes[n := n1], clock := c1), f2.(nodes := f2.nodes[sc.pair[n] := n2], clock := c2), sc)
  {
    var g1, g2 := f1.(nodes := f1.nodes[n := n1], clock := c1), f2.(nodes := f2.nodes[sc.pair[n] := n2], clock := c2);
    forall m | m in sc.pair ensures PairedNode(g1.nodes, g1.nextNode, g2.nodes, g2.nextNode, sc, m) {
      assert PairedNode(f1.nodes, f1.nextNode, f2.nodes, f2.nextNode, sc, m);
      assert PairedNode(f1.nodes, f1.nextNode, f2.nodes, f2.nextNode, sc, n);
    }
  }

  lemma PutGranted(f1: Fs, f2: Fs, sc: Scope, n1: Node, n2: Node, c1: nat, c2: nat)
    requires Agree(f1, f2, sc) && LikeGranted(sc, n1, n2) && Clocks(sc, c1, c2)
    ensures Agree(f1.(nodes := f1.nodes[sc.g1 := n1], clock := c1), f2.(nodes := f2.nodes[sc.g2 := n2], clock := c2), sc)
  {
    var g1, g2 := f1.(nodes := f1.nodes[sc.g1 := n1], clock := c1), f2.(nodes := f2.nodes[sc.g2 := n2], clock := c2);
    forall m | m in sc.pair ensures PairedNode(g1.nodes, g1.nextNode, g2.nodes, g2.nextNode, sc, m) {
      assert PairedNode(f1.nodes, f1.nextNode, f2.nodes, f2.nextNode, sc, m);
    }
  }

  /** A directory with its entries changed. */
  function Relisted(fs: Fs, at: nat, entries: seq<Entry>, clock: nat): Fs
    requires at in fs.nodes
  {
    fs.(nodes := fs.nodes[at := fs.nodes[at].(body := Dir(entries))], clock := clock)
  }

  /** Change one directory's entries alike in both trees. */
  lemma PutEntries(f1: Fs, f2: Fs, sc: Scope, at: nat, e1: seq<Entry>, e2: seq<Entry>, c1: nat, c2: nat)
    requires Agree(f1, f2, sc) && Known(sc, at) && Clocks(sc, c1, c2)
    requires if at in sc.pair then LikeEntries(sc.pair, e1, e2) else LikeNames(sc, e1, e2)
    ensures at in f1.nodes && Twin(sc, at) in f2.nodes
    ensures Agree(Relisted(f1, at, e1, c1), Relisted(f2, Twin(sc, at), e2, c2), sc)
  {
    if at in sc.pair {
      assert PairedNode(f1.nodes, f1.nextNode, f2.nodes, f2.nextNode, sc, at);
      PutPaired(f1, f2, sc, at, f1.nodes[at].(body := Dir(e1)), f2.nodes[sc.pair[at]].(body := Dir(e2)), c1, c2);
    } else {
      PutGranted(f1, f2, sc, f1.nodes[at].(body := Dir(e1)), f2.nodes[sc.g2].(body := Dir(e2)), c1, c2);
    }
  }

  lemma UnnamedAgrees(f1: Fs, f2: Fs, sc: Scope, at: nat, name: Name)
    requires Agree(f1, f2, sc) && Here(sc, at, name) && at in f1.nodes && f1.nodes[at].body.Dir?
    ensures Twin(sc, at) in f2.nodes && f2.nodes[Twin(sc, at)].body.Dir?
    ensures Agree(Unnamed(f1, at, name), Unnamed(f2, Twin(sc, at), name), sc)
  {
    SameNode(f1, f2, sc, at, name);
    var o1, o2 := f1.nodes[at].body.entries, f2.nodes[Twin(sc, at)].body.entries;
    var e1, e2 := Without(o1, name), Without(o2, name);
    if at in sc.pair {
      assert PairedNode(f1.nodes, f1.nextNode, f2.nodes, f2.nextNode, sc, at);
      WithoutLike(sc.pair, o1, o2, name);
    } else {
      forall x | InSet(sc.names, x) ensures LikeName(sc.pair, e1, e2, x) {
        LookupWithout(o1, name, x);
        LookupWithout(o2, name, x);
        assert LikeName(sc.pair, o1, o2, x);
      }
    }
    PutEntries(f1, f2, sc, at, e1, e2, f1.clock, f2.clock);
  }

  /** Append a name for paired nodes. */
  lemma NamedAgrees(f1: Fs, f2: Fs, sc: Scope, at: nat, name: Name, node: nat, c1: nat, c2: nat)
    requires Agree(f1, f2, sc) && Here(sc, at, name) && node in sc.pair && Clocks(sc, c1, c2)
    requires at in f1.nodes && f1.nodes[at].body.Dir?
    ensures Twin(sc, at) in f2.nodes && f2.nodes[Twin(sc, at)].body.Dir?
    ensures Agree(Relisted(f1, at, f1.nodes[at].body.entries + [Entry(name, node)], c1),
                  Relisted(f2, Twin(sc, at), f2.nodes[Twin(sc, at)].body.entries + [Entry(name, sc.pair[node])], c2), sc)
  {
    SameNode(f1, f2, sc, at, name);
    var o1, o2 := f1.nodes[at].body.entries, f2.nodes[Twin(sc, at)].body.entries;
    var x1, x2 := Entry(name, node), Entry(name, sc.pair[node]);
    if at in sc.pair {
      assert PairedNode(f1.nodes, f1.nextNode, f2.nodes, f2.nextNode, sc, at);
      forall i | 0 <= i < |o1 + [x1]| ensures LikeEntry(sc.pair, (o1 + [x1])[i], (o2 + [x2])[i]) {
        if i < |o1| { assert LikeEntry(sc.pair, o1[i], o2[i]); }
      }
    } else {
      forall x | InSet(sc.names, x) ensures LikeName(sc.pair, o1 + [x1], o2 + [x2], x) {
        LookupAppend(o1, x1, x);
        LookupAppend(o2, x2, x);
        assert LikeName(sc.pair, o1, o2, x);
      }
    }
    PutEntries(f1, f2, sc, at, o1 + [x1], o2 + [x2], c1, c2);
  }

  /** A tree with one more node, new in it. */
  function WithNode(fs: Fs, body: Body): Fs {
    fs.(nodes := fs.nodes[fs.nextNode := Node(body, [], fs.clock)], nextNode := fs.nextNode + 1)
  }

  function Paired(sc: Scope, n1: nat, n2: nat): Scope {
    sc.(pair := sc.pair[n1 := n2])
  }

  /** What was alike stays alike when another pair joins. */
  lemma WiderEntries(sc: Scope, n1: nat, n2: nat, e1: seq<Entry>, e2: seq<Entry>)
    requires LikeEntries(sc.pair, e1, e2) && n1 !in sc.pair
    ensures LikeEntries(Paired(sc, n1, n2).pair, e1, e2)
  {
    forall i | 0 <= i < |e1| ensures LikeEntry(Paired(sc, n1, n2).pair, e1[i], e2[i]) {
      assert LikeEntry(sc.pair, e1[i], e2[i]);
    }
  }

  /** A node made in both runs is a new pair, whatever numbers it gets. */
  lemma NewNodeAgrees(f1: Fs, f2: Fs, sc: Scope, body: Body)
    requires Agree(f1, f2, sc) && body in {File([]), Dir([])} && !sc.times.Frozen?
    ensures f1.nextNode !in sc.pair
    ensures Agree(WithNode(f1, body), WithNode(f2, body), Paired(sc, f1.nextNode, f2.nextNode))
  {
    var k1, k2 := f1.nextNode, f2.nextNode;
    var sc' := Paired(sc, k1, k2);
    var g1, g2 := WithNode(f1, body), WithNode(f2, body);
    forall n | n in sc.pair ensures n < k1 && sc.pair[n] < k2 {
      assert PairedNode(f1.nodes, k1, f2.nodes, k2, sc, n);
    }
    forall m | m in sc'.pair ensures PairedNode(g1.nodes, g1.nextNode, g2.nodes, g2.nextNode, sc', m) {
      if m != k1 {
        assert PairedNode(f1.nodes, k1, f2.nodes, k2, sc, m);
        if f1.nodes[m].body.Dir? { WiderEntries(sc, k1, k2, f1.nodes[m].body.entries, f2.nodes[sc.pair[m]].body.entries); }
      }
    }
    forall x | InSet(sc'.names, x)
      ensures LikeName(sc'.pair, g1.nodes[sc.g1].body.entries, g2.nodes[sc.g2].body.entries, x)
    {
      assert LikeName(sc.pair, f1.nodes[sc.g1].body.entries, f2.nodes[sc.g2].body.entries, x);
    }
  }

  // ---- verb by verb ---------------------------------------------------------------------------------------------------

  /** Handles with the same rights on nodes that stand for each other. */
  predicate Meets(sc: Scope, h1: Handle, h2: Handle) {
    Known(sc, h1.node) && h2.node == Twin(sc, h1.node) && h1.rights == h2.rights <= sc.rights
  }

  /** The two answers look the same to whoever reads them, and the trees still agree. */
  ghost predicate SameAnswer(a1: Answer, a2: Answer, sc: Scope) {
    a1.r0 == a2.r0 && a1.r1 == a2.r1 && a1.page == a2.page && Agree(a1.fs, a2.fs, sc)
  }

  /** The same, except that a minted handle may have any number: it is on paired nodes, with the same rights. */
  ghost predicate LikeAnswer(a1: Answer, a2: Answer, sc: Scope) {
    && a1.r1 == a2.r1 && a1.page == a2.page && Agree(a1.fs, a2.fs, sc)
    && if a1.r0 < 0 then a2.r0 == a1.r0
       else a2.r0 >= 0 && a1.r0 in a1.fs.handles && a2.r0 in a2.fs.handles
            && a1.fs.handles[a1.r0].node in sc.pair && Meets(sc, a1.fs.handles[a1.r0], a2.fs.handles[a2.r0])
  }

  /** More pairs, and otherwise the same scope. */
  predicate Grew(sc: Scope, sc': Scope) {
    sc' == sc.(pair := sc'.pair) && forall n :: n in sc.pair ==> n in sc'.pair && sc'.pair[n] == sc.pair[n]
  }

  lemma MintAgrees(f1: Fs, f2: Fs, sc: Scope, page: Page, node: nat, rights: set<Right>, size: nat)
    requires Agree(f1, f2, sc) && node in sc.pair && rights <= sc.rights
    ensures LikeAnswer(Mint(f1, page, node, rights, size), Mint(f2, page, sc.pair[node], rights, size), sc)
  {
  }

  lemma OpenInAgrees(f1: Fs, f2: Fs, sc: Scope, at: nat, rights: set<Right>, name: Name, page: Page)
    requires Agree(f1, f2, sc) && Here(sc, at, name) && rights <= sc.rights
    ensures LikeAnswer(OpenIn(f1, at, rights, name, page), OpenIn(f2, Twin(sc, at), rights, name, page), sc)
  {
    SameNode(f1, f2, sc, at, name);
    if f1.nodes[at].body.Dir? {
      var child := Lookup(f1.nodes[at].body.entries, name);
      if child.Some? {
        assert PairedNode(f1.nodes, f1.nextNode, f2.nodes, f2.nextNode, sc, child.value);
        if f1.nodes[child.value].body.File? {
          MintAgrees(f1, f2, sc, page, child.value, rights * {Read, Write}, |f1.nodes[child.value].body.data|);
        }
      }
    }
  }

  /** Where the directories of a path lead in both trees, with the last component still to look up there. */
  predicate Stand(r1: Reached, r2: Reached, sc: Scope, name: Name) {
    match (r1, r2)
    case (Refused(a), Refused(b)) => a == b
    case (At(n, a), At(m, b)) => Here(sc, n, name) && m == Twin(sc, n) && a == b && a <= sc.rights
    case _ => false
  }

  lemma WalkStands(f1: Fs, f2: Fs, sc: Scope, h1: Handle, h2: Handle, comps: seq<Name>, asked: set<Right>, ok: bool)
    requires Agree(f1, f2, sc) && Meets(sc, h1, h2) && comps != [] && Here(sc, h1.node, comps[0])
    ensures Stand(Walk(f1, h1.node, h1.rights, comps[..|comps| - 1], asked, ok),
                  Walk(f2, h2.node, h2.rights, comps[..|comps| - 1], asked, ok), sc, comps[|comps| - 1])
  {
    if |comps| > 1 { SameWalk(f1, f2, sc, h1.node, h1.rights, comps[..|comps| - 1], asked, ok); }
  }

  function Opened(fs: Fs, r: Reached, name: Name, page: Page): Answer {
    match r
    case Refused(e) => Fail(fs, page, e)
    case At(at, rights) => OpenIn(fs, at, rights, name, page)
  }

  lemma OpenedAgrees(f1: Fs, f2: Fs, sc: Scope, r1: Reached, r2: Reached, name: Name, page: Page)
    requires Agree(f1, f2, sc) && Stand(r1, r2, sc, name)
    ensures LikeAnswer(Opened(f1, r1, name, page), Opened(f2, r2, name, page), sc)
  {
    if r1.At? { OpenInAgrees(f1, f2, sc, r1.node, r1.rights, name, page); }
  }

  lemma OpenAgrees(f1: Fs, f2: Fs, sc: Scope, h1: Handle, h2: Handle, path: Name, w1: nat, page: Page)
    requires Agree(f1, f2, sc) && Meets(sc, h1, h2) && Here(sc, h1.node, Split(path)[0])
    ensures LikeAnswer(OpenVerb(f1, h1, path, w1, page), OpenVerb(f2, h2, path, w1, page), sc)
  {
    var comps := Split(path);
    var asked := {Descend} + RightsOf(w1);
    WalkStands(f1, f2, sc, h1, h2, comps, asked, w1 < 128);
    OpenedAgrees(f1, f2, sc, Walk(f1, h1.node, h1.rights, comps[..|comps| - 1], asked, w1 < 128),
                 Walk(f2, h2.node, h2.rights, comps[..|comps| - 1], asked, w1 < 128), comps[|comps| - 1], page);
  }

  function Entered(fs: Fs, r: Reached, name: Name, w1: nat, page: Page): Answer {
    match r
    case Refused(e) => Fail(fs, page, e)
    case At(at, rights) =>
      match DescendStep(fs, at, rights, name, RightsOf(w1), w1 < 128)
      case Refused(e) => Fail(fs, page, e)
      case At(node, got) => Mint(fs, page, node, got, 0)
  }

  lemma EnteredAgrees(f1: Fs, f2: Fs, sc: Scope, r1: Reached, r2: Reached, name: Name, w1: nat, page: Page)
    requires Agree(f1, f2, sc) && Stand(r1, r2, sc, name)
    ensures LikeAnswer(Entered(f1, r1, name, w1, page), Entered(f2, r2, name, w1, page), sc)
  {
    if r1.At? {
      SameDescent(f1, f2, sc, r1.node, r1.rights, name, RightsOf(w1), w1 < 128);
      var d := DescendStep(f1, r1.node, r1.rights, name, RightsOf(w1), w1 < 128);
      if d.At? { MintAgrees(f1, f2, sc, page, d.node, d.rights, 0); }
    }
  }

  lemma OpenDirAgrees(f1: Fs, f2: Fs, sc: Scope, h1: Handle, h2: Handle, path: Name, w1: nat, page: Page)
    requires Agree(f1, f2, sc) && Meets(sc, h1, h2) && Here(sc, h1.node, Split(path)[0])
    ensures LikeAnswer(OpenDirVerb(f1, h1, path, w1, page), OpenDirVerb(f2, h2, path, w1, page), sc)
  {
    var comps := Split(path);
    var asked := {Descend} + RightsOf(w1);
    WalkStands(f1, f2, sc, h1, h2, comps, asked, w1 < 128);
    EnteredAgrees(f1, f2, sc, Walk(f1, h1.node, h1.rights, comps[..|comps| - 1], asked, w1 < 128),
                  Walk(f2, h2.node, h2.rights, comps[..|comps| - 1], asked, w1 < 128), comps[|comps| - 1], w1, page);
  }

  /** Adding a child is: a new node, a name for it, a handle on it. */
  lemma AddChildInSteps(fs: Fs, page: Page, at: nat, name: Name, body: Body, rights: set<Right>)
    requires at in fs.nodes && fs.nodes[at].body.Dir? && at != fs.nextNode
    ensures var g := WithNode(fs, body);
      && at in g.nodes && g.nodes[at] == fs.nodes[at]
      && AddChild(fs, page, at, name, body, rights)
         == Mint(Naming(g, at, name, fs.nextNode, fs.clock + 1), page, fs.nextNode, rights, 0)
  {
  }

  /** A directory with a name more. */
  function Naming(fs: Fs, at: nat, name: Name, node: nat, clock: nat): Fs
    requires at in fs.nodes && fs.nodes[at].body.Dir?
  {
    Relisted(fs, at, fs.nodes[at].body.entries + [Entry(name, node)], clock)
  }

  lemma NamedAndMinted(f1: Fs, f2: Fs, sc: Scope, page: Page, at: nat, name: Name, node: nat, rights: set<Right>, c1: nat, c2: nat)
    requires Agree(f1, f2, sc) && Here(sc, at, name) && node in sc.pair && Clocks(sc, c1, c2) && rights <= sc.rights
    requires at in f1.nodes && f1.nodes[at].body.Dir?
    ensures Twin(sc, at) in f2.nodes && f2.nodes[Twin(sc, at)].body.Dir?
    ensures LikeAnswer(Mint(Naming(f1, at, name, node, c1), page, node, rights, 0),
                       Mint(Naming(f2, Twin(sc, at), name, sc.pair[node], c2), page, sc.pair[node], rights, 0), sc)
  {
    NamedAgrees(f1, f2, sc, at, name, node, c1, c2);
    MintAgrees(Naming(f1, at, name, node, c1), Naming(f2, Twin(sc, at), name, sc.pair[node], c2), sc, page, node, rights, 0);
  }

  lemma AddChildAgrees(f1: Fs, f2: Fs, sc: Scope, page: Page, at: nat, name: Name, body: Body, rights: set<Right>)
    returns (sc': Scope)
    requires Agree(f1, f2, sc) && Here(sc, at, name) && body in {File([]), Dir([])} && !sc.times.Frozen?
    requires at in f1.nodes && f1.nodes[at].body.Dir? && rights <= sc.rights
    ensures Twin(sc, at) in f2.nodes && f2.nodes[Twin(sc, at)].body.Dir? && Grew(sc, sc')
    ensures LikeAnswer(AddChild(f1, page, at, name, body, rights), AddChild(f2, page, Twin(sc, at), name, body, rights), sc')
  {
    var t := Twin(sc, at);
    SameNode(f1, f2, sc, at, name);
    KnownIsOld(f1, f2, sc, at);
    NewNodeAgrees(f1, f2, sc, body);
    sc' := Paired(sc, f1.nextNode, f2.nextNode);
    PairedKeeps(sc, f1.nextNode, f2.nextNode, at, name);
    AddChildInSteps(f1, page, at, name, body, rights);
    AddChildInSteps(f2, page, t, name, body, rights);
    var g1, g2 := WithNode(f1, body), WithNode(f2, body);
    NamedAndMinted(g1, g2, sc', page, at, name, f1.nextNode, rights, f1.clock + 1, f2.clock + 1);
  }

  lemma PairedKeeps(sc: Scope, n1: nat, n2: nat, at: nat, name: Name)
    requires n1 !in sc.pair && Here(sc, at, name) && n1 != at
    ensures var sc' := Paired(sc, n1, n2);
      Grew(sc, sc') && Here(sc', at, name) && Twin(sc', at) == Twin(sc, at) && n1 in sc'.pair && sc'.pair[n1] == n2
  {
  }

  lemma KnownIsOld(f1: Fs, f2: Fs, sc: Scope, at: nat)
    requires Agree(f1, f2, sc) && Known(sc, at)
    ensures at < f1.nextNode && Twin(sc, at) < f2.nextNode
  {
    if at in sc.pair { assert PairedNode(f1.nodes, f1.nextNode, f2.nodes, f2.nextNode, sc, at); }
  }

  lemma CreateAgrees(f1: Fs, f2: Fs, sc: Scope, h1: Handle, h2: Handle, name: Name, page: Page) returns (sc': Scope)
    requires Agree(f1, f2, sc) && Meets(sc, h1, h2) && Here(sc, h1.node, name)
    ensures Grew(sc, sc') && LikeAnswer(CreateVerb(f1, h1, name, page), CreateVerb(f2, h2, name, page), sc')
  {
    sc' := sc;
    SameNode(f1, f2, sc, h1.node, name);
    if f1.nodes[h1.node].body.Dir? && Create in h1.rights && ValidName(name)
       && Lookup(f1.nodes[h1.node].body.entries, name).None? {
      sc' := AddChildAgrees(f1, f2, sc, page, h1.node, name, File([]), h1.rights * {Read, Write});
    }
  }

  lemma MkdirAgrees(f1: Fs, f2: Fs, sc: Scope, h1: Handle, h2: Handle, name: Name, w1: nat, page: Page) returns (sc': Scope)
    requires Agree(f1, f2, sc) && Meets(sc, h1, h2) && Here(sc, h1.node, name)
    ensures Grew(sc, sc') && LikeAnswer(MkdirVerb(f1, h1, name, w1, page), MkdirVerb(f2, h2, name, w1, page), sc')
  {
    sc' := sc;
    SameNode(f1, f2, sc, h1.node, name);
    if f1.nodes[h1.node].body.Dir? && Create in h1.rights && Descend in h1.rights && ValidName(name)
       && Lookup(f1.nodes[h1.node].body.entries, name).None? && Grantable(h1.rights, w1) {
      sc' := AddChildAgrees(f1, f2, sc, page, h1.node, name, Dir([]), RightsOf(w1));
    }
  }

  lemma RemoveAgrees(f1: Fs, f2: Fs, sc: Scope, h1: Handle, h2: Handle, name: Name, wantDir: bool, page: Page)
    requires Agree(f1, f2, sc) && Meets(sc, h1, h2) && Here(sc, h1.node, name)
    ensures SameAnswer(RemoveVerb(f1, h1, name, wantDir, page), RemoveVerb(f2, h2, name, wantDir, page), sc)
  {
    SameNode(f1, f2, sc, h1.node, name);
    if f1.nodes[h1.node].body.Dir? {
      var child := Lookup(f1.nodes[h1.node].body.entries, name);
      if child.Some? {
        assert PairedNode(f1.nodes, f1.nextNode, f2.nodes, f2.nextNode, sc, child.value);
        UnnamedAgrees(f1, f2, sc, h1.node, name);
      }
    }
  }

  lemma RenamedAgrees(f1: Fs, f2: Fs, sc: Scope, at: nat, name: Name, at': nat, name': Name, node: nat)
    requires Agree(f1, f2, sc) && Here(sc, at, name) && Here(sc, at', name') && node in sc.pair
    requires at in f1.nodes && f1.nodes[at].body.Dir? && at' in f1.nodes && f1.nodes[at'].body.Dir?
    requires Twin(sc, at) in f2.nodes && f2.nodes[Twin(sc, at)].body.Dir?
    requires Twin(sc, at') in f2.nodes && f2.nodes[Twin(sc, at')].body.Dir?
    ensures Agree(Renamed(f1, at, name, at', name', node),
                  Renamed(f2, Twin(sc, at), name, Twin(sc, at'), name', sc.pair[node]), sc)
  {
    var t, t' := Twin(sc, at), Twin(sc, at');
    UnnamedAgrees(f1, f2, sc, at, name);
    var g1, g2 := Unnamed(f1, at, name), Unnamed(f2, t, name);
    UnnamedAgrees(g1, g2, sc, at', name');
    var k1, k2 := Unnamed(g1, at', name'), Unnamed(g2, t', name');
    NamedAgrees(k1, k2, sc, at', name', node, k1.clock, k2.clock);
    RenamedInSteps(f1, at, name, at', name', node);
    RenamedInSteps(f2, t, name, t', name', sc.pair[node]);
  }

  /** A rename is: the old name goes, what the new name held goes, the new name comes. */
  lemma RenamedInSteps(fs: Fs, at: nat, name: Name, at': nat, name': Name, node: nat)
    requires at in fs.nodes && fs.nodes[at].body.Dir? && at' in fs.nodes && fs.nodes[at'].body.Dir?
    ensures var k := Unnamed(Unnamed(fs, at, name), at', name');
      Renamed(fs, at, name, at', name', node) == Relisted(k, at', k.nodes[at'].body.entries + [Entry(name', node)], k.clock)
  {
    var g := Unnamed(fs, at, name);
    var d := g.nodes[at'];
    var e := Without(d.body.entries, name');
    assert g.nodes[at' := d.(body := Dir(e))][at' := d.(body := Dir(e + [Entry(name', node)]))]
        == g.nodes[at' := d.(body := Dir(e + [Entry(name', node)]))];
  }

  lemma RenameNodeAgrees(f1: Fs, f2: Fs, sc: Scope, at: nat, name: Name, at': nat, name': Name, node: nat, page: Page)
    requires Agree(f1, f2, sc) && Here(sc, at, name) && Here(sc, at', name') && node in sc.pair
    requires at in f1.nodes && f1.nodes[at].body.Dir? && at' in f1.nodes && f1.nodes[at'].body.Dir?
    requires Twin(sc, at) in f2.nodes && f2.nodes[Twin(sc, at)].body.Dir?
    requires Twin(sc, at') in f2.nodes && f2.nodes[Twin(sc, at')].body.Dir?
    ensures node in f1.nodes && sc.pair[node] in f2.nodes
    ensures SameAnswer(RenameNode(f1, at, name, at', name', node, page),
                       RenameNode(f2, Twin(sc, at), name, Twin(sc, at'), name', sc.pair[node], page), sc)
  {
    TwinIsUnique(sc, at, at');
    assert PairedNode(f1.nodes, f1.nextNode, f2.nodes, f2.nextNode, sc, node);
    SameReplaceErrno(f1, f2, sc, at', name', node);
    RenamedAgrees(f1, f2, sc, at, name, at', name', node);
  }

  lemma SameReplaceErrno(f1: Fs, f2: Fs, sc: Scope, at: nat, name: Name, node: nat)
    requires Agree(f1, f2, sc) && Here(sc, at, name) && node in sc.pair
    requires at in f1.nodes && f1.nodes[at].body.Dir? && Twin(sc, at) in f2.nodes && f2.nodes[Twin(sc, at)].body.Dir?
    ensures ReplaceErrno(f1, node, Lookup(f1.nodes[at].body.entries, name))
         == ReplaceErrno(f2, sc.pair[node], Lookup(f2.nodes[Twin(sc, at)].body.entries, name))
  {
    assert PairedNode(f1.nodes, f1.nextNode, f2.nodes, f2.nextNode, sc, node);
    SameNode(f1, f2, sc, at, name);
    var dst := Lookup(f1.nodes[at].body.entries, name);
    if dst.Some? { assert PairedNode(f1.nodes, f1.nextNode, f2.nodes, f2.nextNode, sc, dst.value); }
  }

  lemma RenameInAgrees(f1: Fs, f2: Fs, sc: Scope, at: nat, name: Name, at': nat, name': Name, page: Page)
    requires Agree(f1, f2, sc) && Here(sc, at, name) && Here(sc, at', name')
    requires at in f1.nodes && f1.nodes[at].body.Dir? && at' in f1.nodes && f1.nodes[at'].body.Dir?
    requires Twin(sc, at) in f2.nodes && f2.nodes[Twin(sc, at)].body.Dir?
    requires Twin(sc, at') in f2.nodes && f2.nodes[Twin(sc, at')].body.Dir?
    ensures SameAnswer(RenameIn(f1, at, name, at', name', page), RenameIn(f2, Twin(sc, at), name, Twin(sc, at'), name', page), sc)
  {
    SameNode(f1, f2, sc, at, name);
    var src := Lookup(f1.nodes[at].body.entries, name);
    if src.Some? { RenameNodeAgrees(f1, f2, sc, at, name, at', name', src.value, page); }
  }

  lemma RenameAgrees(f1: Fs, f2: Fs, sc: Scope, h1: Handle, h2: Handle, name: Name, to1: Handle, to2: Handle, name': Name,
                     page: Page)
    requires Agree(f1, f2, sc) && Meets(sc, h1, h2) && Meets(sc, to1, to2)
    requires Here(sc, h1.node, name) && Here(sc, to1.node, name')
    ensures SameAnswer(RenameVerb(f1, h1, name, to1, name', page), RenameVerb(f2, h2, name, to2, name', page), sc)
  {
    SameNode(f1, f2, sc, h1.node, name);
    SameNode(f1, f2, sc, to1.node, name');
    if f1.nodes[h1.node].body.Dir? && f1.nodes[to1.node].body.Dir? {
      RenameInAgrees(f1, f2, sc, h1.node, name, to1.node, name', page);
    }
  }

  /** A node below with its contents changed alike, and its time set, by a verb that needs Write. */
  lemma StoreAgrees(f1: Fs, f2: Fs, sc: Scope, n: nat, n1: Node, n2: Node)
    requires Agree(f1, f2, sc) && n in sc.pair && n1.attrs == n2.attrs && LikeBody(sc.pair, n1.body, n2.body)
    requires Write in sc.rights
    ensures Agree(Store(f1, n, n1), Store(f2, sc.pair[n], n2), sc)
  {
    PutPaired(f1, f2, sc, n, n1.(mtime := f1.clock), n2.(mtime := f2.clock), f1.clock + 1, f2.clock + 1);
  }

  /** A handle on a paired node or on the granted directory sees the same kind, and paired files the same contents. */
  lemma SameMeta(f1: Fs, f2: Fs, sc: Scope, n: nat)
    requires Agree(f1, f2, sc) && Known(sc, n)
    ensures n in f1.nodes && Twin(sc, n) in f2.nodes
    ensures f1.nodes[n].body.Dir? <==> f2.nodes[Twin(sc, n)].body.Dir?
    ensures LikeAttrs(sc.rights, f1.nodes[n].attrs, f2.nodes[Twin(sc, n)].attrs) || n in sc.pair
    ensures n in sc.pair ==> LikeNode(sc, f1.nodes[n], f2.nodes[Twin(sc, n)])
    ensures f1.nodes[n].body.File? ==> n in sc.pair
  {
    if n in sc.pair { assert PairedNode(f1.nodes, f1.nextNode, f2.nodes, f2.nextNode, sc, n); }
  }

  lemma ReadAgrees(f1: Fs, f2: Fs, sc: Scope, h1: Handle, h2: Handle, len: nat, w1: nat, page: Page)
    requires Agree(f1, f2, sc) && Meets(sc, h1, h2)
    ensures SameAnswer(ReadVerb(f1, h1, len, w1, page), ReadVerb(f2, h2, len, w1, page), sc)
    ensures SameAnswer(StatVerb(f1, h1, page), StatVerb(f2, h2, page), sc)
  {
    SameMeta(f1, f2, sc, h1.node);
  }

  lemma WriteAgrees(f1: Fs, f2: Fs, sc: Scope, h1: Handle, h2: Handle, len: nat, w1: nat, page: Page)
    requires Agree(f1, f2, sc) && Meets(sc, h1, h2)
    ensures SameAnswer(WriteVerb(f1, h1, len, w1, page), WriteVerb(f2, h2, len, w1, page), sc)
  {
    SameMeta(f1, f2, sc, h1.node);
    if f1.nodes[h1.node].body.File? && Write in h1.rights {
      var data := Splice(f1.nodes[h1.node].body.data, w1, page[..Min(len, PAGE)]);
      StoreAgrees(f1, f2, sc, h1.node, f1.nodes[h1.node].(body := File(data)), f2.nodes[h2.node].(body := File(data)));
    }
  }

  lemma TruncateAgrees(f1: Fs, f2: Fs, sc: Scope, h1: Handle, h2: Handle, w1: nat, page: Page)
    requires Agree(f1, f2, sc) && Meets(sc, h1, h2)
    ensures SameAnswer(TruncateVerb(f1, h1, w1, page), TruncateVerb(f2, h2, w1, page), sc)
  {
    SameMeta(f1, f2, sc, h1.node);
    if f1.nodes[h1.node].body.File? && Write in h1.rights {
      var d := f1.nodes[h1.node].body.data;
      var data := if |d| >= w1 then d[..w1] else d + Zeros(w1 - |d|);
      StoreAgrees(f1, f2, sc, h1.node, f1.nodes[h1.node].(body := File(data)), f2.nodes[h2.node].(body := File(data)));
    }
  }

  lemma GetAttrAgrees(f1: Fs, f2: Fs, sc: Scope, h1: Handle, h2: Handle, name: Name, page: Page)
    requires Agree(f1, f2, sc) && Meets(sc, h1, h2)
    ensures SameAnswer(GetAttrVerb(f1, h1, name, page), GetAttrVerb(f2, h2, name, page), sc)
    ensures SameAnswer(ListAttrVerb(f1, h1, page), ListAttrVerb(f2, h2, page), sc)
  {
    SameMeta(f1, f2, sc, h1.node);
  }

  /** New attributes for a node, alike in both trees. */
  lemma PutAttrs(f1: Fs, f2: Fs, sc: Scope, n: nat, a1: seq<Attr>, a2: seq<Attr>)
    requires Agree(f1, f2, sc) && Known(sc, n) && Write in sc.rights
    requires if n in sc.pair then a1 == a2 else LikeAttrs(sc.rights, a1, a2)
    ensures n in f1.nodes && Twin(sc, n) in f2.nodes
    ensures Agree(Store(f1, n, f1.nodes[n].(attrs := a1)), Store(f2, Twin(sc, n), f2.nodes[Twin(sc, n)].(attrs := a2)), sc)
  {
    SameMeta(f1, f2, sc, n);
    if n in sc.pair {
      StoreAgrees(f1, f2, sc, n, f1.nodes[n].(attrs := a1), f2.nodes[sc.pair[n]].(attrs := a2));
    } else {
      PutGranted(f1, f2, sc, f1.nodes[n].(attrs := a1, mtime := f1.clock), f2.nodes[sc.g2].(attrs := a2, mtime := f2.clock),
                 f1.clock + 1, f2.clock + 1);
    }
  }

  lemma RemoveAttrAgrees(f1: Fs, f2: Fs, sc: Scope, h1: Handle, h2: Handle, name: Name, page: Page)
    requires Agree(f1, f2, sc) && Meets(sc, h1, h2)
    ensures SameAnswer(RemoveAttrVerb(f1, h1, name, page), RemoveAttrVerb(f2, h2, name, page), sc)
  {
    SameMeta(f1, f2, sc, h1.node);
    if Write in h1.rights {
      var a1, a2 := f1.nodes[h1.node].attrs, f2.nodes[h2.node].attrs;
      if h1.node !in sc.pair { WithoutAttrLike(sc.rights, a1, a2, name); }
      PutAttrs(f1, f2, sc, h1.node, WithoutAttr(a1, name), WithoutAttr(a2, name));
    }
  }

  lemma SetAttrAgrees(f1: Fs, f2: Fs, sc: Scope, h1: Handle, h2: Handle, len: nat, w1: nat, page: Page)
    requires Agree(f1, f2, sc) && Meets(sc, h1, h2)
    ensures SameAnswer(SetAttrVerb(f1, h1, len, w1, page), SetAttrVerb(f2, h2, len, w1, page), sc)
  {
    SameMeta(f1, f2, sc, h1.node);
    var vlen := w1 % 0x1_0000_0000;
    if Write in h1.rights && len + vlen <= PAGE {
      var a := Attr(page[..len], w1 / 0x1_0000_0000, page[len..len + vlen]);
      var a1, a2 := f1.nodes[h1.node].attrs, f2.nodes[h2.node].attrs;
      if h1.node !in sc.pair { WithAttrLike(sc.rights, a1, a2, a); }
      PutAttrs(f1, f2, sc, h1.node, WithAttr(a1, a), WithAttr(a2, a));
    }
  }

  lemma {:induction false} SameListing(f1: Fs, f2: Fs, sc: Scope, e1: seq<Entry>, e2: seq<Entry>, room: nat)
    requires Agree(f1, f2, sc) && LikeEntries(sc.pair, e1, e2)
    ensures Listing(f1, e1, room) == Listing(f2, e2, room)
    decreases |e1|
  {
    if e1 != [] {
      assert LikeEntry(sc.pair, e1[0], e2[0]);
      assert PairedNode(f1.nodes, f1.nextNode, f2.nodes, f2.nextNode, sc, e1[0].node);
      var rec := Record(e1[0].name, f1.nodes[e1[0].node].body.Dir?);
      if |rec| <= room {
        TailLike(sc.pair, e1, e2, 1);
        SameListing(f1, f2, sc, e1[1..], e2[1..], room - |rec|);
      }
    }
  }

  lemma TailLike(pair: map<nat, nat>, e1: seq<Entry>, e2: seq<Entry>, k: nat)
    requires LikeEntries(pair, e1, e2) && k <= |e1|
    ensures LikeEntries(pair, e1[k..], e2[k..])
  {
    forall i | 0 <= i < |e1[k..]| ensures LikeEntry(pair, e1[k..][i], e2[k..][i]) {
      assert LikeEntry(pair, e1[k + i], e2[k + i]);
    }
  }

  lemma ReadDirAgrees(f1: Fs, f2: Fs, sc: Scope, h1: Handle, h2: Handle, w1: nat, page: Page)
    requires Agree(f1, f2, sc) && Meets(sc, h1, h2) && h1.node in sc.pair
    ensures SameAnswer(ReadDirVerb(f1, h1, w1, page), ReadDirVerb(f2, h2, w1, page), sc)
  {
    SameMeta(f1, f2, sc, h1.node);
    if f1.nodes[h1.node].body.Dir? && w1 < |f1.nodes[h1.node].body.entries| {
      var e1, e2 := f1.nodes[h1.node].body.entries, f2.nodes[h2.node].body.entries;
      TailLike(sc.pair, e1, e2, w1);
      SameListing(f1, f2, sc, e1[w1..], e2[w1..], PAGE);
    }
  }

  lemma TimeAgrees(f1: Fs, f2: Fs, sc: Scope, op: Operation, h1: Handle, h2: Handle, name: Name, w1: nat, page: Page)
    requires Agree(f1, f2, sc) && Meets(sc, h1, h2) && Here(sc, h1.node, name) && op in {GETMTIME, SETMTIME, SETMTIME_AT}
    ensures SameAnswer(TimeVerb(f1, op, h1, name, w1, page), TimeVerb(f2, op, h2, name, w1, page), sc)
  {
    SameNode(f1, f2, sc, h1.node, name);
    if f1.nodes[h1.node].body.Dir? && NeedsAll(op) <= h1.rights {
      var child := Lookup(f1.nodes[h1.node].body.entries, name);
      if child.Some? && ValidName(name) { ChildTimeAgrees(f1, f2, sc, op, child.value, w1, page); }
      TimeIs(f1, op, h1, name, w1, page);
      TimeIs(f2, op, h2, name, w1, page);
    }
  }

  function Timed(fs: Fs, op: Operation, n: nat, w1: nat, page: Page): Answer
    requires n in fs.nodes
  {
    var node := fs.nodes[n];
    match op
    case GETMTIME => Answer(fs, node.mtime, 0, page)
    case SETMTIME => Answer(Store(fs, n, node), 0, 0, page)
    case _ => Answer(fs.(nodes := fs.nodes[n := node.(mtime := w1)]), 0, 0, page)
  }

  lemma TimeIs(fs: Fs, op: Operation, h: Handle, name: Name, w1: nat, page: Page)
    requires h.node in fs.nodes && fs.nodes[h.node].body.Dir? && NeedsAll(op) <= h.rights
    ensures var child := Lookup(fs.nodes[h.node].body.entries, name);
      TimeVerb(fs, op, h, name, w1, page) ==
        if !ValidName(name) then Fail(fs, page, EINVAL)
        else if child.None? || child.value !in fs.nodes then Fail(fs, page, ENOENT)
        else Timed(fs, op, child.value, w1, page)
  {
  }

  lemma ChildTimeAgrees(f1: Fs, f2: Fs, sc: Scope, op: Operation, n: nat, w1: nat, page: Page)
    requires Agree(f1, f2, sc) && n in sc.pair && NeedsAll(op) <= sc.rights && op in {GETMTIME, SETMTIME, SETMTIME_AT}
    ensures n in f1.nodes && sc.pair[n] in f2.nodes
    ensures SameAnswer(Timed(f1, op, n, w1, page), Timed(f2, op, sc.pair[n], w1, page), sc)
  {
    assert PairedNode(f1.nodes, f1.nextNode, f2.nodes, f2.nextNode, sc, n);
    if op == SETMTIME {
      StoreAgrees(f1, f2, sc, n, f1.nodes[n], f2.nodes[sc.pair[n]]);
    } else if op == SETMTIME_AT {
      SetTimeAgrees(f1, f2, sc, n, w1);
    }
  }

  lemma SetTimeAgrees(f1: Fs, f2: Fs, sc: Scope, n: nat, w1: nat)
    requires Agree(f1, f2, sc) && n in sc.pair
    ensures n in f1.nodes && sc.pair[n] in f2.nodes
    ensures Agree(f1.(nodes := f1.nodes[n := f1.nodes[n].(mtime := w1)]),
                  f2.(nodes := f2.nodes[sc.pair[n] := f2.nodes[sc.pair[n]].(mtime := w1)]), sc)
  {
    assert PairedNode(f1.nodes, f1.nextNode, f2.nodes, f2.nextNode, sc, n);
    PutPaired(f1, f2, sc, n, f1.nodes[n].(mtime := w1), f2.nodes[sc.pair[n]].(mtime := w1), f1.clock, f2.clock);
  }

  // ---- any confined request ------------------------------------------------------------------------------------------

  /** Server handles that stand for each other: the granted directory's, or on paired nodes, or gone in both trees. */
  predicate Twins(f1: Fs, f2: Fs, sc: Scope, d1: nat, h1: nat, d2: nat, h2: nat) {
    && (h1 == d1 <==> h2 == d2) && (h1 in f1.handles <==> h2 in f2.handles)
    && (h1 in f1.handles ==>
          && Meets(sc, f1.handles[h1], f2.handles[h2])
          && (if h1 == d1 then f1.handles[h1].node == sc.g1 else f1.handles[h1].node in sc.pair))
  }

  /** The same request against the two trees, through handles that stand for each other. */
  predicate TwinRequests(f1: Fs, f2: Fs, sc: Scope, d1: nat, q1: Request, d2: nat, q2: Request) {
    && q2 == q1.(handle := q2.handle, dst := q2.dst) && Twins(f1, f2, sc, d1, q1.handle, d2, q2.handle)
    && (q1.op == RENAME ==> Twins(f1, f2, sc, d1, q1.dst, d2, q2.dst))
  }

  ghost predicate LikeServed(f1: Fs, f2: Fs, sc: Scope, q1: Request, q2: Request, page: Page) {
    if MintsHandle(q1.op) then LikeAnswer(Serve(f1, q1, page), Serve(f2, q2, page), sc)
    else SameAnswer(Serve(f1, q1, page), Serve(f2, q2, page), sc)
  }

  lemma MintingAgrees(f1: Fs, f2: Fs, sc: Scope, d1: nat, q1: Request, d2: nat, q2: Request, page: Page) returns (sc': Scope)
    requires Agree(f1, f2, sc) && Confined(sc.names, d1, q1, page) && TwinRequests(f1, f2, sc, d1, q1, d2, q2)
    requires MintsHandle(q1.op)
    ensures Grew(sc, sc') && LikeServed(f1, f2, sc', q1, q2, page)
  {
    sc' := sc;
    if q1.handle in f1.handles && q1.len <= PAGE {
      var h1, h2 := f1.handles[q1.handle], f2.handles[q2.handle];
      var name := page[..q1.len];
      match q1.op
      case OPEN => OpenAgrees(f1, f2, sc, h1, h2, name, q1.w1, page);
      case OPENDIR => OpenDirAgrees(f1, f2, sc, h1, h2, name, q1.w1, page);
      case CREATE => sc' := CreateAgrees(f1, f2, sc, h1, h2, name, page);
      case MKDIR => sc' := MkdirAgrees(f1, f2, sc, h1, h2, name, q1.w1, page);
    }
  }

  lemma RemovingAgrees(f1: Fs, f2: Fs, sc: Scope, d1: nat, q1: Request, d2: nat, q2: Request, page: Page)
    requires Agree(f1, f2, sc) && Confined(sc.names, d1, q1, page) && TwinRequests(f1, f2, sc, d1, q1, d2, q2)
    requires q1.op == UNLINK || q1.op == RMDIR
    ensures LikeServed(f1, f2, sc, q1, q2, page)
  {
    if q1.handle in f1.handles && q1.len <= PAGE {
      RemoveAgrees(f1, f2, sc, f1.handles[q1.handle], f2.handles[q2.handle], page[..q1.len], q1.op == RMDIR, page);
    }
  }

  predicate RenameReaches(f: Fs, q: Request) {
    q.handle in f.handles && q.len <= PAGE && q.dst in f.handles && q.len + q.dstLen <= PAGE
  }

  function RenameOf(f: Fs, q: Request, page: Page): Answer
    requires RenameReaches(f, q)
  {
    RenameVerb(f, f.handles[q.handle], page[..q.len], f.handles[q.dst], page[q.len..q.len + q.dstLen], page)
  }

  lemma RenameServed(f1: Fs, f2: Fs, sc: Scope, q1: Request, q2: Request, page: Page)
    requires q1.op == q2.op == RENAME && RenameReaches(f1, q1) && RenameReaches(f2, q2)
    requires SameAnswer(RenameOf(f1, q1, page), RenameOf(f2, q2, page), sc)
    ensures LikeServed(f1, f2, sc, q1, q2, page)
  {
    assert Serve(f1, q1, page) == RenameOf(f1, q1, page);
    assert Serve(f2, q2, page) == RenameOf(f2, q2, page);
  }

  lemma RenameRefused(f1: Fs, f2: Fs, sc: Scope, q1: Request, q2: Request, page: Page)
    requires q1.op == RENAME && !RenameReaches(f1, q1) && Agree(f1, f2, sc) && q2 == q1.(handle := q2.handle, dst := q2.dst)
    requires (q1.handle in f1.handles <==> q2.handle in f2.handles) && (q1.dst in f1.handles <==> q2.dst in f2.handles)
    ensures LikeServed(f1, f2, sc, q1, q2, page)
  {
  }

  function TimeOf(f: Fs, q: Request, page: Page): Answer
    requires q.handle in f.handles && q.len <= PAGE
  {
    TimeVerb(f, q.op, f.handles[q.handle], page[..q.len], q.w1, page)
  }

  lemma TimeServed(f1: Fs, f2: Fs, sc: Scope, q1: Request, q2: Request, page: Page)
    requires q1.op == q2.op && q1.op in {GETMTIME, SETMTIME, SETMTIME_AT} && q1.len == q2.len <= PAGE
    requires q1.handle in f1.handles && q2.handle in f2.handles
    requires SameAnswer(TimeOf(f1, q1, page), TimeOf(f2, q2, page), sc)
    ensures LikeServed(f1, f2, sc, q1, q2, page)
  {
    assert Serve(f1, q1, page) == TimeOf(f1, q1, page);
    assert Serve(f2, q2, page) == TimeOf(f2, q2, page);
  }

  lemma TimeRefused(f1: Fs, f2: Fs, sc: Scope, q1: Request, q2: Request, page: Page)
    requires q1.op == q2.op && q1.op in {GETMTIME, SETMTIME, SETMTIME_AT} && q1.len == q2.len && Agree(f1, f2, sc)
    requires (q1.handle in f1.handles <==> q2.handle in f2.handles) && !(q1.handle in f1.handles && q1.len <= PAGE)
    ensures LikeServed(f1, f2, sc, q1, q2, page)
  {
  }

  lemma RenameIsHere(f1: Fs, f2: Fs, sc: Scope, d1: nat, q1: Request, d2: nat, q2: Request, page: Page)
    requires Confined(sc.names, d1, q1, page) && TwinRequests(f1, f2, sc, d1, q1, d2, q2)
    requires q1.op == RENAME && RenameReaches(f1, q1)
    ensures RenameReaches(f2, q2)
    ensures Meets(sc, f1.handles[q1.handle], f2.handles[q2.handle]) && Meets(sc, f1.handles[q1.dst], f2.handles[q2.dst])
    ensures Here(sc, f1.handles[q1.handle].node, page[..q1.len])
    ensures Here(sc, f1.handles[q1.dst].node, page[q1.len..q1.len + q1.dstLen])
  {
  }

  lemma RenamingAgrees(f1: Fs, f2: Fs, sc: Scope, d1: nat, q1: Request, d2: nat, q2: Request, page: Page)
    requires Agree(f1, f2, sc) && Confined(sc.names, d1, q1, page) && TwinRequests(f1, f2, sc, d1, q1, d2, q2)
    requires q1.op == RENAME
    ensures LikeServed(f1, f2, sc, q1, q2, page)
  {
    if RenameReaches(f1, q1) {
      RenameIsHere(f1, f2, sc, d1, q1, d2, q2, page);
      RenameAgrees(f1, f2, sc, f1.handles[q1.handle], f2.handles[q2.handle], page[..q1.len],
                   f1.handles[q1.dst], f2.handles[q2.dst], page[q1.len..q1.len + q1.dstLen], page);
      RenameServed(f1, f2, sc, q1, q2, page);
    } else {
      RenameRefused(f1, f2, sc, q1, q2, page);
    }
  }

  lemma TimingAgrees(f1: Fs, f2: Fs, sc: Scope, d1: nat, q1: Request, d2: nat, q2: Request, page: Page)
    requires Agree(f1, f2, sc) && Confined(sc.names, d1, q1, page) && TwinRequests(f1, f2, sc, d1, q1, d2, q2)
    requires q1.op in {GETMTIME, SETMTIME, SETMTIME_AT}
    ensures LikeServed(f1, f2, sc, q1, q2, page)
  {
    if q1.handle in f1.handles && q1.len <= PAGE {
      TimeAgrees(f1, f2, sc, q1.op, f1.handles[q1.handle], f2.handles[q2.handle], page[..q1.len], q1.w1, page);
      TimeServed(f1, f2, sc, q1, q2, page);
    } else {
      TimeRefused(f1, f2, sc, q1, q2, page);
    }
  }

  lemma ReadVerbAgrees(f1: Fs, f2: Fs, sc: Scope, d1: nat, q1: Request, d2: nat, q2: Request, page: Page)
    requires Agree(f1, f2, sc) && TwinRequests(f1, f2, sc, d1, q1, d2, q2) && (q1.op == READ || q1.op == FSTAT)
    ensures LikeServed(f1, f2, sc, q1, q2, page)
  {
    if q1.handle in f1.handles && (q1.len <= PAGE || !CarriesLen(q1.op)) {
      ReadAgrees(f1, f2, sc, f1.handles[q1.handle], f2.handles[q2.handle], q1.len, q1.w1, page);
    }
  }

  lemma WriteVerbAgrees(f1: Fs, f2: Fs, sc: Scope, d1: nat, q1: Request, d2: nat, q2: Request, page: Page)
    requires Agree(f1, f2, sc) && TwinRequests(f1, f2, sc, d1, q1, d2, q2) && q1.op == WRITE
    ensures LikeServed(f1, f2, sc, q1, q2, page)
  {
    if q1.handle in f1.handles && q1.len <= PAGE {
      WriteAgrees(f1, f2, sc, f1.handles[q1.handle], f2.handles[q2.handle], q1.len, q1.w1, page);
    }
  }

  lemma TruncateVerbAgrees(f1: Fs, f2: Fs, sc: Scope, d1: nat, q1: Request, d2: nat, q2: Request, page: Page)
    requires Agree(f1, f2, sc) && TwinRequests(f1, f2, sc, d1, q1, d2, q2) && q1.op == TRUNCATE
    ensures LikeServed(f1, f2, sc, q1, q2, page)
  {
    if q1.handle in f1.handles { TruncateAgrees(f1, f2, sc, f1.handles[q1.handle], f2.handles[q2.handle], q1.w1, page); }
  }

  lemma AttrVerbAgrees(f1: Fs, f2: Fs, sc: Scope, d1: nat, q1: Request, d2: nat, q2: Request, page: Page)
    requires Agree(f1, f2, sc) && TwinRequests(f1, f2, sc, d1, q1, d2, q2)
    requires q1.op in {GETXATTR, LISTXATTR, SETXATTR, REMOVEXATTR}
    ensures LikeServed(f1, f2, sc, q1, q2, page)
  {
    if q1.handle in f1.handles && (q1.len <= PAGE || !CarriesLen(q1.op)) {
      var h1, h2 := f1.handles[q1.handle], f2.handles[q2.handle];
      var name := if q1.len <= PAGE then page[..q1.len] else [];
      match q1.op
      case SETXATTR => SetAttrAgrees(f1, f2, sc, h1, h2, q1.len, q1.w1, page);
      case REMOVEXATTR => RemoveAttrAgrees(f1, f2, sc, h1, h2, name, page);
      case _ => GetAttrAgrees(f1, f2, sc, h1, h2, name, page);
    }
  }

  lemma PlainAgrees(f1: Fs, f2: Fs, sc: Scope, d1: nat, q1: Request, d2: nat, q2: Request, page: Page)
    requires Agree(f1, f2, sc) && Confined(sc.names, d1, q1, page) && TwinRequests(f1, f2, sc, d1, q1, d2, q2)
    requires q1.op in {READDIR, CLOSE, STATFS, SYNC}
    ensures LikeServed(f1, f2, sc, q1, q2, page)
  {
    if q1.handle in f1.handles && q1.op == READDIR {
      ReadDirAgrees(f1, f2, sc, f1.handles[q1.handle], f2.handles[q2.handle], q1.w1, page);
    }
  }

  /** A confined request is answered alike from both trees. */
  lemma ServeAgrees(f1: Fs, f2: Fs, sc: Scope, d1: nat, q1: Request, d2: nat, q2: Request, page: Page) returns (sc': Scope)
    requires Agree(f1, f2, sc) && Confined(sc.names, d1, q1, page) && TwinRequests(f1, f2, sc, d1, q1, d2, q2)
    ensures Grew(sc, sc') && LikeServed(f1, f2, sc', q1, q2, page)
  {
    sc' := sc;
    if MintsHandle(q1.op) {
      sc' := MintingAgrees(f1, f2, sc, d1, q1, d2, q2, page);
    } else if q1.op == READ || q1.op == FSTAT {
      ReadVerbAgrees(f1, f2, sc, d1, q1, d2, q2, page);
    } else if q1.op == WRITE {
      WriteVerbAgrees(f1, f2, sc, d1, q1, d2, q2, page);
    } else if q1.op == TRUNCATE {
      TruncateVerbAgrees(f1, f2, sc, d1, q1, d2, q2, page);
    } else if q1.op in {GETXATTR, LISTXATTR, SETXATTR, REMOVEXATTR} {
      AttrVerbAgrees(f1, f2, sc, d1, q1, d2, q2, page);
    } else if q1.op in {READDIR, CLOSE, STATFS, SYNC} {
      PlainAgrees(f1, f2, sc, d1, q1, d2, q2, page);
    } else if q1.op == RENAME {
      RenamingAgrees(f1, f2, sc, d1, q1, d2, q2, page);
    } else if q1.op in {UNLINK, RMDIR} {
      RemovingAgrees(f1, f2, sc, d1, q1, d2, q2, page);
    } else {
      TimingAgrees(f1, f2, sc, d1, q1, d2, q2, page);
    }
  }

  // ---- any run ----------------------------------------------------------------------------------------------------------

  /** Slot for slot, the two tables hold handles that stand for each other. */
  predicate SlotTwins(c1: Caretaker, c2: Caretaker, f1: Fs, f2: Fs, sc: Scope, i: nat)
    requires i < SLOTS
  {
    && (c1.table[i].Some? <==> c2.table[i].Some?)
    && (c1.table[i].Some? ==> Twins(f1, f2, sc, c1.dir, c1.table[i].value, c2.dir, c2.table[i].value))
  }

  predicate Held(c1: Caretaker, c2: Caretaker, f1: Fs, f2: Fs, sc: Scope) {
    && SlotsOk(c1, f1.nextHandle) && SlotsOk(c2, f2.nextHandle) && sc.names == c1.names == c2.names
    && forall i :: 0 <= i < SLOTS ==> SlotTwins(c1, c2, f1, f2, sc, i)
  }

  /** Handles that were there stay what they were, except one that may have been closed. */
  ghost predicate KeptBut(f: Fs, f': Fs, closed: Option<nat>) {
    && f.nextHandle <= f'.nextHandle
    && forall h: nat :: h < f.nextHandle && Some(h) != closed ==>
         (h in f'.handles <==> h in f.handles) && (h in f.handles ==> f'.handles[h] == f.handles[h])
  }

  lemma ServeKeepsHandles(f: Fs, q: Request, page: Page)
    ensures KeptBut(f, Serve(f, q, page).fs, if q.op == CLOSE then Some(q.handle) else None)
  {
    HandlesAreFresh(f, q, page);
  }

  /** No slot holds this handle. */
  predicate NewIn(ct: Caretaker, h: nat) {
    forall i :: 0 <= i < SLOTS && ct.table[i].Some? ==> ct.table[i].value != h
  }

  predicate Misses(ct: Caretaker, closed: Option<nat>) {
    closed.Some? ==> NewIn(ct, closed.value)
  }

  /** Tables whose handles were all kept still hold each other's twins. */
  lemma HeldAfter(c1: Caretaker, c2: Caretaker, f1: Fs, f2: Fs, sc: Scope, x1: Option<nat>, x2: Option<nat>,
                  g1: Fs, g2: Fs, sc': Scope)
    requires Held(c1, c2, f1, f2, sc) && KeptBut(f1, g1, x1) && KeptBut(f2, g2, x2) && Grew(sc, sc') && ScopeOk(sc')
    requires Misses(c1, x1) && Misses(c2, x2)
    ensures Held(c1, c2, g1, g2, sc')
  {
    forall i | 0 <= i < SLOTS ensures SlotTwins(c1, c2, g1, g2, sc', i) {
      assert SlotTwins(c1, c2, f1, f2, sc, i);
    }
  }

  /** What the client and the next request see of a turn. */
  ghost predicate SameOut(o1: Out, o2: Out, sc: Scope) {
    o1.page == o2.page && o1.r0 == o2.r0 && o1.r1 == o2.r1 && Agree(o1.fs, o2.fs, sc) && Held(o1.ct, o2.ct, o1.fs, o2.fs, sc)
  }

  /** A forwarded request that mints, before its handle has a slot. */
  ghost predicate LikeOut(o1: Out, o2: Out, sc: Scope) {
    && o1.page == o2.page && o1.r1 == o2.r1 && Agree(o1.fs, o2.fs, sc) && Held(o1.ct, o2.ct, o1.fs, o2.fs, sc)
    && if o1.r0 < 0 then o2.r0 == o1.r0
       else o2.r0 >= 0 && o1.r0 in o1.fs.handles && o2.r0 in o2.fs.handles
            && o1.fs.handles[o1.r0].node in sc.pair && Meets(sc, o1.fs.handles[o1.r0], o2.fs.handles[o2.r0])
  }

  lemma ForwardAgrees(c1: Caretaker, c2: Caretaker, f1: Fs, f2: Fs, sc: Scope, q1: Request, q2: Request, page: Page)
    returns (sc': Scope)
    requires Agree(f1, f2, sc) && Held(c1, c2, f1, f2, sc) && Confined(sc.names, c1.dir, q1, page) && q1.op != CLOSE
    requires TwinRequests(f1, f2, sc, c1.dir, q1, c2.dir, q2)
    ensures Grew(sc, sc')
    ensures if MintsHandle(q1.op) then LikeOut(Forward(c1, f1, page, q1), Forward(c2, f2, page, q2), sc')
            else SameOut(Forward(c1, f1, page, q1), Forward(c2, f2, page, q2), sc')
  {
    sc' := ServeAgrees(f1, f2, sc, c1.dir, q1, c2.dir, q2, page);
    ServeKeepsHandles(f1, q1, page);
    ServeKeepsHandles(f2, q2, page);
    HeldAfter(c1, c2, f1, f2, sc, None, None, Serve(f1, q1, page).fs, Serve(f2, q2, page).fs, sc');
  }

  /** Closing handles that no slot holds any more. */
  lemma ClosedAgrees(c1: Caretaker, c2: Caretaker, f1: Fs, f2: Fs, sc: Scope, h1: nat, h2: nat, page: Page)
    requires Agree(f1, f2, sc) && Held(c1, c2, f1, f2, sc) && (h1 in f1.handles <==> h2 in f2.handles)
    requires NewIn(c1, h1) && NewIn(c2, h2)
    ensures var q1, q2 := Request(CLOSE, h1, 0, 0, 0, 0), Request(CLOSE, h2, 0, 0, 0, 0);
      SameOut(Forward(c1, f1, page, q1), Forward(c2, f2, page, q2), sc)
  {
    var q1, q2 := Request(CLOSE, h1, 0, 0, 0, 0), Request(CLOSE, h2, 0, 0, 0, 0);
    ServeKeepsHandles(f1, q1, page);
    ServeKeepsHandles(f2, q2, page);
    HeldAfter(c1, c2, f1, f2, sc, Some(h1), Some(h2), Serve(f1, q1, page).fs, Serve(f2, q2, page).fs, sc);
  }

  /** Tables with a free slot have the same one free. */
  lemma {:induction false} SameFreeSlot(c1: Caretaker, c2: Caretaker, f1: Fs, f2: Fs, sc: Scope, from: nat)
    requires Held(c1, c2, f1, f2, sc) && from <= SLOTS
    ensures FreeSlot(c1.table, from) == FreeSlot(c2.table, from)
    decreases SLOTS - from
  {
    if from < SLOTS {
      assert SlotTwins(c1, c2, f1, f2, sc, from);
      SameFreeSlot(c1, c2, f1, f2, sc, from + 1);
    }
  }

  lemma SlottedAgrees(c1: Caretaker, c2: Caretaker, f1: Fs, f2: Fs, sc: Scope, slot: nat, h1: nat, h2: nat)
    requires Held(c1, c2, f1, f2, sc) && 0 < slot < SLOTS && c1.table[slot].None? && c2.table[slot].None?
    requires NewIn(c1, h1) && NewIn(c2, h2) && h1 < f1.nextHandle && h2 < f2.nextHandle
    requires h1 in f1.handles && h2 in f2.handles && f1.handles[h1].node in sc.pair && Meets(sc, f1.handles[h1], f2.handles[h2])
    ensures Held(c1.(table := c1.table[slot := Some(h1)]), c2.(table := c2.table[slot := Some(h2)]), f1, f2, sc)
  {
    var e1, e2 := c1.(table := c1.table[slot := Some(h1)]), c2.(table := c2.table[slot := Some(h2)]);
    assert c1.table[0] == Some(c1.dir) && c2.table[0] == Some(c2.dir);
    forall i | 0 <= i < SLOTS ensures SlotTwins(e1, e2, f1, f2, sc, i) {
      assert SlotTwins(c1, c2, f1, f2, sc, i);
    }
  }

  lemma InstalledAgrees(o1: Out, o2: Out, sc: Scope)
    requires LikeOut(o1, o2, sc)
    requires o1.r0 >= 0 ==> NewIn(o1.ct, o1.r0) && NewIn(o2.ct, o2.r0) && o1.r0 < o1.fs.nextHandle && o2.r0 < o2.fs.nextHandle
    ensures SameOut(Installed(o1), Installed(o2), sc)
  {
    if o1.r0 >= 0 {
      SameFreeSlot(o1.ct, o2.ct, o1.fs, o2.fs, sc, 1);
      var slot := FreeSlot(o1.ct.table, 1);
      if slot.None? {
        ClosedAgrees(o1.ct, o2.ct, o1.fs, o2.fs, sc, o1.r0, o2.r0, o1.page);
      } else {
        SlottedAgrees(o1.ct, o2.ct, o1.fs, o2.fs, sc, slot.value, o1.r0, o2.r0);
      }
    }
  }

  lemma ShutAgrees(c1: Caretaker, c2: Caretaker, f1: Fs, f2: Fs, sc: Scope, slot: nat, page: Page)
    requires Agree(f1, f2, sc) && Held(c1, c2, f1, f2, sc) && 0 < slot < SLOTS && c1.table[slot].Some?
    ensures c2.table[slot].Some?
    ensures var e1, e2 := c1.(table := c1.table[slot := None]), c2.(table := c2.table[slot := None]);
      SameOut(Forward(e1, f1, page, Request(CLOSE, c1.table[slot].value, 0, 0, 0, 0)),
              Forward(e2, f2, page, Request(CLOSE, c2.table[slot].value, 0, 0, 0, 0)), sc)
  {
    assert SlotTwins(c1, c2, f1, f2, sc, slot);
    var e1, e2 := c1.(table := c1.table[slot := None]), c2.(table := c2.table[slot := None]);
    forall i | 0 <= i < SLOTS ensures SlotTwins(e1, e2, f1, f2, sc, i) {
      assert SlotTwins(c1, c2, f1, f2, sc, i);
    }
    ClosedAgrees(e1, e2, f1, f2, sc, c1.table[slot].value, c2.table[slot].value, page);
  }

  /** The freshly minted handle is new to the table it was minted through. */
  lemma MintIsNew(ct: Caretaker, f: Fs, q: Request, page: Page)
    requires SlotsOk(ct, f.nextHandle) && MintsHandle(q.op)
    ensures var o := Forward(ct, f, page, q); o.r0 >= 0 ==> NewIn(ct, o.r0) && o.r0 < o.fs.nextHandle
  {
    HandlesAreFresh(f, q, page);
  }

  lemma PassAgrees(c1: Caretaker, c2: Caretaker, f1: Fs, f2: Fs, sc: Scope, q1: Request, q2: Request, page: Page)
    returns (sc': Scope)
    requires Agree(f1, f2, sc) && Held(c1, c2, f1, f2, sc) && Confined(sc.names, c1.dir, q1, page) && q1.op != CLOSE
    requires TwinRequests(f1, f2, sc, c1.dir, q1, c2.dir, q2)
    ensures Grew(sc, sc') && SameOut(Act(c1, f1, Pass(q1, page)), Act(c2, f2, Pass(q2, page)), sc')
  {
    sc' := ForwardAgrees(c1, c2, f1, f2, sc, q1, q2, page);
    if MintsHandle(q1.op) {
      MintIsNew(c1, f1, q1, page);
      MintIsNew(c2, f2, q2, page);
      InstalledAgrees(Forward(c1, f1, page, q1), Forward(c2, f2, page, q2), sc');
    }
  }

  /** What the two caretakers make of one request: the same, through handles that stand for each other. */
  predicate LikePlan(c1: Caretaker, c2: Caretaker, f1: Fs, f2: Fs, sc: Scope, p1: Plan, p2: Plan) {
    match (p1, p2)
    case (Deny(e1, g1), Deny(e2, g2)) => p1 == p2
    case (Reveal(b1, g1), Reveal(b2, g2)) => p1 == p2
    case (Shut(s1, h1, g1), Shut(s2, h2, g2)) =>
      s1 == s2 && g1 == g2 && 0 < s1 < SLOTS && c1.table[s1] == Some(h1) && c2.table[s1] == Some(h2)
    case (Pass(q1, g1), Pass(q2, g2)) =>
      && g1 == g2 && q1.op != CLOSE && TwinRequests(f1, f2, sc, c1.dir, q1, c2.dir, q2)
      && Confined(sc.names, c1.dir, q1, g1)
    case _ => false
  }

  lemma RenamePlansAgree(c1: Caretaker, c2: Caretaker, f1: Fs, f2: Fs, sc: Scope, page: Page, ask: Ask)
    requires Held(c1, c2, f1, f2, sc) && Get(c1.table, ask.handle).Some? && Get(c2.table, ask.handle).Some?
    ensures LikePlan(c1, c2, f1, f2, sc, PlanRename(c1, page, ask, Get(c1.table, ask.handle).value),
                     PlanRename(c2, page, ask, Get(c2.table, ask.handle).value))
  {
    RenamePlanIsConfined(c1, page, ask, f1.nextHandle);
    assert SlotTwins(c1, c2, f1, f2, sc, ask.handle);
    if ask.dst < SLOTS { assert SlotTwins(c1, c2, f1, f2, sc, ask.dst); }
  }

  lemma TopPlansAgree(c1: Caretaker, c2: Caretaker, f1: Fs, f2: Fs, sc: Scope, page: Page, ask: Ask)
    requires Held(c1, c2, f1, f2, sc) && ask.handle == ROOT && ask.op.Some? && ask.op.value != RENAME
    ensures LikePlan(c1, c2, f1, f2, sc, PlanOf(c1, page, ask), PlanOf(c2, page, ask))
  {
    EveryPlanIsConfined(c1, page, ask, f1.nextHandle);
    assert SlotTwins(c1, c2, f1, f2, sc, 0);
  }

  lemma LowerPlansAgree(c1: Caretaker, c2: Caretaker, f1: Fs, f2: Fs, sc: Scope, page: Page, ask: Ask)
    requires Held(c1, c2, f1, f2, sc) && 0 < ask.handle < SLOTS && c1.table[ask.handle].Some?
    requires ask.op.Some? && ask.op.value != RENAME
    ensures LikePlan(c1, c2, f1, f2, sc, PlanOf(c1, page, ask), PlanOf(c2, page, ask))
  {
    EveryPlanIsConfined(c1, page, ask, f1.nextHandle);
    assert SlotTwins(c1, c2, f1, f2, sc, ask.handle);
  }

  lemma PlansAgree(c1: Caretaker, c2: Caretaker, f1: Fs, f2: Fs, sc: Scope, page: Page, ask: Ask)
    requires Held(c1, c2, f1, f2, sc)
    ensures LikePlan(c1, c2, f1, f2, sc, PlanOf(c1, page, ask), PlanOf(c2, page, ask))
  {
    if ask.handle >= SLOTS || c1.table[ask.handle].None? || ask.op.None? {
      assert ask.handle < SLOTS ==> SlotTwins(c1, c2, f1, f2, sc, ask.handle);
    } else {
      assert SlotTwins(c1, c2, f1, f2, sc, ask.handle);
      if ask.op.value == RENAME {
        PlanIsRename(c1, page, ask);
        PlanIsRename(c2, page, ask);
        RenamePlansAgree(c1, c2, f1, f2, sc, page, ask);
      } else if ask.handle == ROOT {
        TopPlansAgree(c1, c2, f1, f2, sc, page, ask);
      } else {
        LowerPlansAgree(c1, c2, f1, f2, sc, page, ask);
      }
    }
  }

  lemma RespondAgrees(c1: Caretaker, c2: Caretaker, f1: Fs, f2: Fs, sc: Scope, page: Page, ask: Ask) returns (sc': Scope)
    requires Agree(f1, f2, sc) && Held(c1, c2, f1, f2, sc)
    ensures Grew(sc, sc') && SameOut(Respond(c1, f1, page, ask), Respond(c2, f2, page, ask), sc')
  {
    PlansAgree(c1, c2, f1, f2, sc, page, ask);
    sc' := ActsAgree(c1, c2, f1, f2, sc, PlanOf(c1, page, ask), PlanOf(c2, page, ask));
  }

  lemma ActsAgree(c1: Caretaker, c2: Caretaker, f1: Fs, f2: Fs, sc: Scope, p1: Plan, p2: Plan) returns (sc': Scope)
    requires Agree(f1, f2, sc) && Held(c1, c2, f1, f2, sc) && LikePlan(c1, c2, f1, f2, sc, p1, p2)
    ensures Grew(sc, sc') && SameOut(Act(c1, f1, p1), Act(c2, f2, p2), sc')
  {
    sc' := sc;
    match p1 {
      case Deny(_, _) =>
      case Reveal(_, _) =>
      case Shut(slot, _, staged) => ShutAgrees(c1, c2, f1, f2, sc, slot, staged);
      case Pass(q1, staged) => sc' := PassAgrees(c1, c2, f1, f2, sc, q1, p2.req, staged);
    }
  }

  datatype Reply = Reply(r0: int, r1: nat, page: Page)

  /** What the client sees of a run: each reply with the page it comes back to. */
  function Replies(s: System, events: seq<Event>): seq<Reply>
    decreases |events|
  {
    if events == [] then []
    else
      match events[0]
      case Stage(_) => Replies(After(s, events[0]), events[1..])
      case Call(ask) =>
        var out := Respond(s.ct, s.fs, s.page, ask);
        [Reply(out.r0, out.r1, out.page)] + Replies(After(s, events[0]), events[1..])
  }

  /**
   The two-run theorem: over two trees that agree on the granted names and everything below them, and in what the
   grant shows of the world, no client can tell which it has, whatever it stages and asks and for however long.
   */
  lemma {:induction false} OutsideIsInvisible(s1: System, s2: System, sc: Scope, events: seq<Event>)
    requires s1.page == s2.page && Agree(s1.fs, s2.fs, sc) && Held(s1.ct, s2.ct, s1.fs, s2.fs, sc)
    ensures Replies(s1, events) == Replies(s2, events)
    decreases |events|
  {
    if events != [] {
      var sc' := sc;
      if events[0].Call? { sc' := RespondAgrees(s1.ct, s2.ct, s1.fs, s2.fs, sc, s1.page, events[0].ask); }
      OutsideIsInvisible(After(s1, events[0]), After(s2, events[0]), sc', events[1..]);
    }
  }
}
