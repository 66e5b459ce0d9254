/**
 The module walk: from every build-target root, follow the declarations that name other source files, and
 report the files of a package that nothing reaches. A file resolves its children from its own directory or
 from one named for its stem, depending on how it was itself declared.
 */
module Orphans {
  import opened PathText

  datatype Option<+T> = None | Some(value: T)

  /** A tracked path, component by component. */
  type Path = seq<string>

  /** A declaration as read from a file: an include, a module with explicit paths, or a module by name. */
  datatype Declaration =
    | Include(name: string, inline: seq<string>)
    | PathModule(paths: seq<string>, inline: seq<string>)
    | Module(name: string, inline: seq<string>)

  /** `roots` are the build-target roots that exist, sorted; `scoped` the files some package's directory holds. */
  datatype Tree = Tree(files: set<Path>, roots: seq<Path>, scoped: set<Path>, declarations: Path -> seq<Declaration>)

  /** A file and whether it resolves its children from its own directory. */
  datatype Node = Node(file: Path, modRs: bool)

  // ---- path arithmetic -----------------------------------------------------------------------------------------

  function Dir(f: Path): Path {
    if f == [] then [] else f[..|f| - 1]
  }

  function LastDot(name: string): (d: int)
    ensures -1 <= d < |name| && (d >= 0 ==> name[d] == '.') && forall i :: d < i < |name| ==> name[i] != '.'
  {
    if name == "" then -1 else if name[|name| - 1] == '.' then |name| - 1 else LastDot(name[..|name| - 1])
  }

  /** A file name without its extension; leading dots do not start one. */
  function Stem(name: string): string {
    var d := LastDot(name);
    if exists i :: 0 <= i < d && name[i] != '.' then name[..d] else name
  }

  /** The directory named for a file's stem. */
  function StemDir(f: Path): Path {
    if f == [] then [] else Dir(f) + [Stem(f[|f| - 1])]
  }

  /** Relative texts laid one behind another; an absolute one leaves the tree. */
  function Joined(base: Path, texts: seq<string>): Option<Path>
    decreases |texts|
  {
    if texts == [] then Some(base)
    else if "/" <= texts[0] then None
    else Joined(base + Split(texts[0]), texts[1..])
  }

  /** Empty and dot components dropped, and each parent component taken back with what it leaves. */
  function Normal(parts: Path): Path {
    if parts == [] then []
    else
      var front, c := Normal(parts[..|parts| - 1]), parts[|parts| - 1];
      if c == "" || c == "." then front
      else if c != ".." || front == [] || front[|front| - 1] == ".." then front + [c]
      else front[..|front| - 1]
  }

  function At(base: Path, texts: seq<string>, modRs: bool): seq<Node> {
    match Joined(base, texts)
    case None => []
    case Some(parts) => [Node(Normal(parts), modRs)]
  }

  /** A component that stands for itself. */
  predicate Plain(c: string) {
    c !in ["", ".", ".."] && '/' !in c
  }

  lemma {:induction false} NormalPlain(parts: Path)
    requires forall i :: 0 <= i < |parts| ==> Plain(parts[i])
    ensures Normal(parts) == parts
  {
    if parts != [] {
      NormalPlain(parts[..|parts| - 1]);
      assert Plain(parts[|parts| - 1]);
    }
  }

  lemma {:induction false} JoinedPlain(base: Path, texts: seq<string>)
    requires forall i :: 0 <= i < |texts| ==> Plain(texts[i])
    ensures Joined(base, texts) == Some(base + texts)
    decreases |texts|
  {
    if texts != [] {
      assert Plain(texts[0]);
      SplitWhole(texts[0]);
      forall i | 0 <= i < |texts[1..]| ensures Plain(texts[1..][i]) { assert Plain(texts[i + 1]); }
      JoinedPlain(base + [texts[0]], texts[1..]);
      assert base + [texts[0]] + texts[1..] == base + texts;
    } else {
      assert base + texts == base;
    }
  }

  /** Plain names behind a plain directory resolve to just that. */
  lemma AtPlain(base: Path, texts: seq<string>, modRs: bool)
    requires forall i :: 0 <= i < |base| ==> Plain(base[i])
    requires forall i :: 0 <= i < |texts| ==> Plain(texts[i])
    ensures At(base, texts, modRs) == [Node(base + texts, modRs)]
  {
    JoinedPlain(base, texts);
    NormalPlain(base + texts);
  }

  /** Only the last extension goes: what is before the last dot, if that is more than dots. */
  lemma StemOf(name: string, d: nat)
    requires d < |name| && name[d] == '.' && (forall i :: d < i < |name| ==> name[i] != '.')
    requires d > 0 && name[0] != '.'
    ensures Stem(name) == name[..d]
  {
    assert LastDot(name) == d;
  }

  // ---- what a file declares ------------------------------------------------------------------------------------

  function Kept(t: Tree, nodes: seq<Node>): seq<Node> {
    if nodes == [] then [] else (if nodes[0].file in t.files then [nodes[0]] else []) + Kept(t, nodes[1..])
  }

  function AtPaths(base: Path, inline: seq<string>, paths: seq<string>): seq<Node> {
    if paths == [] then [] else At(base, inline + [paths[0]], true) + AtPaths(base, inline, paths[1..])
  }

  predicate IsRust(name: string) {
    |name| >= 3 && name[|name| - 3..] == ".rs"
  }

  /** What one declaration in a file can mean, before asking which of it exists. */
  function Candidates(n: Node, d: Declaration): seq<Node> {
    var own := if n.modRs then Dir(n.file) else StemDir(n.file);
    match d
    case Include(name, inline) => if IsRust(name) then At(Dir(n.file), inline + [name], true) else []
    case PathModule(paths, inline) => AtPaths(if inline == [] then Dir(n.file) else own, inline, paths)
    case Module(name, inline) => At(own, inline + [name + ".rs"], false) + At(own, inline + [name, "mod.rs"], true)
  }

  function TargetsOf(t: Tree, n: Node, ds: seq<Declaration>): seq<Node> {
    if ds == [] then [] else Kept(t, Candidates(n, ds[0])) + TargetsOf(t, n, ds[1..])
  }

  /** The files a node declares that are in the tree. */
  function Targets(t: Tree, n: Node): seq<Node> {
    TargetsOf(t, n, t.declarations(n.file))
  }

  lemma {:induction false} KeptInTree(t: Tree, nodes: seq<Node>, n: Node)
    ensures n in Kept(t, nodes) ==> n.file in t.files
  {
    if nodes != [] { KeptInTree(t, nodes[1..], n); }
  }

  lemma {:induction false} TargetsInTree(t: Tree, n: Node, ds: seq<Declaration>, m: Node)
    ensures m in TargetsOf(t, n, ds) ==> m.file in t.files
  {
    if ds != [] {
      KeptInTree(t, Candidates(n, ds[0]), m);
      TargetsInTree(t, n, ds[1..], m);
    }
  }

  // ---- the graph the walk is over ------------------------------------------------------------------------------

  datatype Graph = Graph(files: set<Path>, roots: seq<Path>, scoped: set<Path>, targets: Node -> seq<Node>)

  /** Only files of the tree are declared. */
  predicate Closed(g: Graph, n: Node) {
    InTree(g, g.targets(n))
  }

  ghost predicate GraphOk(g: Graph) {
    && g.scoped <= g.files && (forall i :: 0 <= i < |g.roots| ==> g.roots[i] in g.files)
    && forall n :: Closed(g, n)
  }

  function GraphOf(t: Tree): Graph {
    Graph(t.files, t.roots, t.scoped, n => Targets(t, n))
  }

  lemma TreesAreGraphs(t: Tree)
    requires t.scoped <= t.files && forall i :: 0 <= i < |t.roots| ==> t.roots[i] in t.files
    ensures GraphOk(GraphOf(t))
  {
    forall n ensures Closed(GraphOf(t), n) {
      forall i | 0 <= i < |Targets(t, n)| ensures Targets(t, n)[i].file in t.files {
        TargetsInTree(t, n, t.declarations(n.file), Targets(t, n)[i]);
      }
    }
  }

  // ---- reachability --------------------------------------------------------------------------------------------

  /** A chain of declarations from a build-target root. */
  predicate Chain(g: Graph, chain: seq<Node>) {
    && chain != [] && chain[0].file in g.roots && chain[0].modRs
    && forall k :: 0 <= k < |chain| - 1 ==> chain[k + 1] in g.targets(chain[k])
  }

  ghost predicate Reachable(g: Graph, n: Node) {
    exists chain :: Chain(g, chain) && chain[|chain| - 1] == n
  }

  ghost predicate FileReachable(g: Graph, f: Path) {
    Reachable(g, Node(f, true)) || Reachable(g, Node(f, false))
  }

  /** A chain that goes through every file before its last in the mode the walk did. */
  predicate KeepsTo(chain: seq<Node>, seen: map<Path, bool>) {
    forall k :: 0 <= k < |chain| - 1 ==> chain[k].file in seen && seen[chain[k].file] == chain[k].modRs
  }

  ghost predicate Via(g: Graph, seen: map<Path, bool>, n: Node) {
    exists chain :: Chain(g, chain) && chain[|chain| - 1] == n && KeepsTo(chain, seen)
  }

  lemma ViaReaches(g: Graph, seen: map<Path, bool>, n: Node)
    requires Via(g, seen, n)
    ensures Reachable(g, n)
  {
  }

  lemma RootVia(g: Graph, seen: map<Path, bool>, r: Path)
    requires r in g.roots
    ensures Via(g, seen, Node(r, true))
  {
    var chain := [Node(r, true)];
    assert Chain(g, chain) && chain[|chain| - 1] == Node(r, true) && KeepsTo(chain, seen);
  }

  /** Modes once settled stay, so a chain that kept to them still does. */
  lemma ViaGrows(g: Graph, seen: map<Path, bool>, now: map<Path, bool>, n: Node)
    requires Via(g, seen, n) && forall f :: f in seen ==> f in now && now[f] == seen[f]
    ensures Via(g, now, n)
  {
    var chain :| Chain(g, chain) && chain[|chain| - 1] == n && KeepsTo(chain, seen);
    assert KeepsTo(chain, now);
  }

  lemma TargetVia(g: Graph, seen: map<Path, bool>, n: Node, m: Node)
    requires Via(g, seen, n) && n.file in seen && seen[n.file] == n.modRs && m in g.targets(n)
    ensures Via(g, seen, m)
  {
    var chain :| Chain(g, chain) && chain[|chain| - 1] == n && KeepsTo(chain, seen);
    var longer := chain + [m];
    forall k | 0 <= k < |longer| - 1 ensures longer[k + 1] in g.targets(longer[k]) { }
    assert Chain(g, longer) && longer[|longer| - 1] == m && KeepsTo(longer, seen);
  }

  /** Whatever a file declares in both modes, it declares alike: then once through it is enough. */
  ghost predicate ModesAgree(g: Graph, f: Path) {
    Reachable(g, Node(f, true)) && Reachable(g, Node(f, false)) ==>
      forall m :: m in g.targets(Node(f, true)) <==> m in g.targets(Node(f, false))
  }

  /** No file is reached in both modes. */
  ghost predicate OneModeEach(g: Graph) {
    forall f :: !(Reachable(g, Node(f, true)) && Reachable(g, Node(f, false)))
  }

  // ---- the worklist --------------------------------------------------------------------------------------------

  predicate InTree(g: Graph, work: seq<Node>) {
    forall i :: 0 <= i < |work| ==> work[i].file in g.files
  }

  function RootNodes(g: Graph): (work: seq<Node>)
    requires GraphOk(g)
    ensures InTree(g, work)
  {
    seq(|g.roots|, i requires 0 <= i < |g.roots| => Node(g.roots[i], true))
  }

  lemma FewerLeft(files: set<Path>, seen: map<Path, bool>, n: Node)
    requires n.file in files && n.file !in seen
    ensures |files - seen[n.file := n.modRs].Keys| < |files - seen.Keys|
  {
    assert files - seen.Keys == (files - seen[n.file := n.modRs].Keys) + {n.file};
  }

  /**
   Take the last node of the worklist; a file already gone through is skipped, in whichever mode it comes. The
   result is every file gone through, with the mode it was gone through in.
   */
  function Walked(g: Graph, work: seq<Node>, seen: map<Path, bool>): (last: map<Path, bool>)
    requires GraphOk(g) && InTree(g, work) && seen.Keys <= g.files
    decreases |g.files - seen.Keys|, |work|
  {
    if work == [] then seen
    else
      var n, rest := work[|work| - 1], work[..|work| - 1];
      if n.file in seen then Walked(g, rest, seen)
      else
        assert Closed(g, n);
        FewerLeft(g.files, seen, n);
        Walked(g, rest + g.targets(n), seen[n.file := n.modRs])
  }

  /** What the walk marks, from the roots. */
  function Marked(g: Graph): map<Path, bool>
    requires GraphOk(g)
  {
    Walked(g, RootNodes(g), map[])
  }

  lemma WalkedStep(g: Graph, work: seq<Node>, seen: map<Path, bool>)
    requires GraphOk(g) && InTree(g, work) && seen.Keys <= g.files && work != []
    ensures var n, rest := work[|work| - 1], work[..|work| - 1];
      if n.file in seen then InTree(g, rest) && Walked(g, work, seen) == Walked(g, rest, seen)
      else
        var now := seen[n.file := n.modRs];
        && InTree(g, rest + g.targets(n)) && now.Keys <= g.files
        && |g.files - now.Keys| < |g.files - seen.Keys|
        && Walked(g, work, seen) == Walked(g, rest + g.targets(n), now)
  {
    var n := work[|work| - 1];
    if n.file !in seen {
      assert Closed(g, n);
      FewerLeft(g.files, seen, n);
    }
  }

  /** Already gone through, or still to come. */
  predicate Due(seen: map<Path, bool>, work: seq<Node>, n: Node) {
    n.file in seen || n in work
  }

  /** Nothing a file declares, in the mode it was gone through, has been dropped. */
  ghost predicate Followed(g: Graph, seen: map<Path, bool>, work: seq<Node>, f: Path)
    requires f in seen
  {
    forall m {:trigger Due(seen, work, m)} :: m in g.targets(Node(f, seen[f])) ==> Due(seen, work, m)
  }

  /**
   How far the walk is: everything seen or to come is reachable in the modes settled so far, and no root or
   declaration has been dropped.
   */
  ghost predicate Progress(g: Graph, seen: map<Path, bool>, work: seq<Node>) {
    && (forall n {:trigger Via(g, seen, n)} :: n in work ==> Via(g, seen, n))
    && (forall f {:trigger Via(g, seen, Node(f, seen[f]))} :: f in seen ==> Via(g, seen, Node(f, seen[f])))
    && (forall r {:trigger Due(seen, work, Node(r, true))} :: r in g.roots ==> Due(seen, work, Node(r, true)))
    && (forall f {:trigger Followed(g, seen, work, f)} :: f in seen ==> Followed(g, seen, work, f))
  }

  /** What was due stays due when the worklist loses only a node that is seen. */
  lemma StillDue(seen: map<Path, bool>, work: seq<Node>, seen': map<Path, bool>, work': seq<Node>, m: Node)
    requires Due(seen, work, m) && work != []
    requires seen.Keys <= seen'.Keys && work[|work| - 1].file in seen'
    requires forall n :: n in work[..|work| - 1] ==> n in work'
    ensures Due(seen', work', m)
  {
    assert work == work[..|work| - 1] + [work[|work| - 1]];
  }

  lemma ProgressSkips(g: Graph, seen: map<Path, bool>, work: seq<Node>)
    requires Progress(g, seen, work) && work != [] && work[|work| - 1].file in seen
    ensures Progress(g, seen, work[..|work| - 1])
  {
    var rest := work[..|work| - 1];
    forall r | r in g.roots ensures Due(seen, rest, Node(r, true)) {
      assert Due(seen, work, Node(r, true));
      StillDue(seen, work, seen, rest, Node(r, true));
    }
    forall f | f in seen ensures Followed(g, seen, rest, f) {
      assert Followed(g, seen, work, f);
      forall m | m in g.targets(Node(f, seen[f])) ensures Due(seen, rest, m) {
        assert Due(seen, work, m);
        StillDue(seen, work, seen, rest, m);
      }
    }
  }

  lemma ProgressExplores(g: Graph, seen: map<Path, bool>, work: seq<Node>)
    requires Progress(g, seen, work) && work != [] && work[|work| - 1].file !in seen
    ensures var n := work[|work| - 1];
      Progress(g, seen[n.file := n.modRs], work[..|work| - 1] + g.targets(n))
  {
    var n, rest := work[|work| - 1], work[..|work| - 1];
    var more := g.targets(n);
    var now, todo := seen[n.file := n.modRs], rest + more;
    assert Via(g, seen, n);
    ViaGrows(g, seen, now, n);
    forall m | m in todo ensures Via(g, now, m) {
      if m in more { TargetVia(g, now, n, m); } else { assert m in work; ViaGrows(g, seen, now, m); }
    }
    forall f | f in now ensures Via(g, now, Node(f, now[f])) {
      if f != n.file { assert Via(g, seen, Node(f, seen[f])); ViaGrows(g, seen, now, Node(f, seen[f])); }
      else { assert Node(f, now[f]) == n; }
    }
    forall r | r in g.roots ensures Due(now, todo, Node(r, true)) {
      assert Due(seen, work, Node(r, true));
      StillDue(seen, work, now, todo, Node(r, true));
    }
    forall f | f in now ensures Followed(g, now, todo, f) {
      forall m | m in g.targets(Node(f, now[f])) ensures Due(now, todo, m) {
        if f == n.file {
          assert m in more;
        } else {
          assert Followed(g, seen, work, f) && Due(seen, work, m);
          StillDue(seen, work, now, todo, m);
        }
      }
    }
  }

  /** At the end every file seen is reachable, and what each declares, in the mode it was gone through, is seen. */
  lemma {:induction false} WalkedProgress(g: Graph, work: seq<Node>, seen: map<Path, bool>)
    requires GraphOk(g) && InTree(g, work) && seen.Keys <= g.files && Progress(g, seen, work)
    ensures Progress(g, Walked(g, work, seen), [])
    decreases |g.files - seen.Keys|, |work|
  {
    if work != [] {
      var n, rest := work[|work| - 1], work[..|work| - 1];
      WalkedStep(g, work, seen);
      if n.file in seen {
        ProgressSkips(g, seen, work);
        WalkedProgress(g, rest, seen);
      } else {
        ProgressExplores(g, seen, work);
        WalkedProgress(g, rest + g.targets(n), seen[n.file := n.modRs]);
      }
    }
  }

  lemma Started(g: Graph)
    requires GraphOk(g)
    ensures Progress(g, map[], RootNodes(g))
  {
    var work := RootNodes(g);
    forall n | n in work ensures Via(g, map[], n) { RootVia(g, map[], n.file); }
    forall r | r in g.roots ensures Due(map[], work, Node(r, true)) {
      var i :| 0 <= i < |g.roots| && g.roots[i] == r;
      assert work[i] == Node(r, true);
    }
  }

  lemma WalkEnds(g: Graph)
    requires GraphOk(g)
    ensures Progress(g, Marked(g), [])
  {
    Started(g);
    WalkedProgress(g, RootNodes(g), map[]);
  }

  // ---- exactly what is marked ------------------------------------------------------------------------------------

  lemma ChainFront(g: Graph, chain: seq<Node>)
    requires Chain(g, chain) && |chain| > 1
    ensures Chain(g, chain[..|chain| - 1]) && chain[|chain| - 1] in g.targets(chain[|chain| - 2])
  {
    var front := chain[..|chain| - 1];
    forall k | 0 <= k < |front| - 1 ensures front[k + 1] in g.targets(front[k]) {
      assert chain[k + 1] in g.targets(chain[k]);
    }
    assert chain[(|chain| - 2) + 1] in g.targets(chain[|chain| - 2]);
  }

  /** The chain needs some file's declarations in the mode the walk did not go through it in. */
  predicate Overtaken(chain: seq<Node>, seen: map<Path, bool>) {
    exists k :: 0 <= k < |chain| - 1 && chain[k].file in seen && seen[chain[k].file] != chain[k].modRs
  }

  /** Along a chain that is not overtaken everything is seen. */
  lemma {:induction false} ChainSeen(g: Graph, seen: map<Path, bool>, chain: seq<Node>)
    requires Progress(g, seen, []) && Chain(g, chain) && !Overtaken(chain, seen)
    ensures chain[|chain| - 1].file in seen
    decreases |chain|
  {
    if |chain| > 1 {
      var front, prev := chain[..|chain| - 1], chain[|chain| - 2];
      ChainFront(g, chain);
      ChainSeen(g, seen, front);
      assert seen[prev.file] == prev.modRs && Node(prev.file, seen[prev.file]) == prev;
      assert Followed(g, seen, [], prev.file) && Due(seen, [], chain[|chain| - 1]);
    } else {
      assert Due(seen, [], Node(chain[0].file, true));
    }
  }

  /** Some chain of declarations from a root ends at the file. */
  predicate ChainTo(g: Graph, chain: seq<Node>, f: Path) {
    Chain(g, chain) && chain[|chain| - 1].file == f
  }

  lemma ReachableByChain(g: Graph, f: Path)
    ensures FileReachable(g, f) <==> exists chain :: ChainTo(g, chain, f)
  {
    if chain :| ChainTo(g, chain, f) {
      var n := chain[|chain| - 1];
      assert n == Node(f, true) || n == Node(f, false);
      assert Reachable(g, n);
    }
    if Reachable(g, Node(f, true)) {
      var chain :| Chain(g, chain) && chain[|chain| - 1] == Node(f, true);
      assert ChainTo(g, chain, f);
    } else if Reachable(g, Node(f, false)) {
      var chain :| Chain(g, chain) && chain[|chain| - 1] == Node(f, false);
      assert ChainTo(g, chain, f);
    }
  }

  /**
   Exactly what the walk marks: the files some chain reaches without needing another file's declarations in the
   mode the walk skipped. So a declared file is reported as an orphan if and only if every chain to it does.
   */
  lemma MarkedIff(g: Graph, f: Path)
    requires GraphOk(g)
    ensures f in Marked(g) <==> exists chain :: ChainTo(g, chain, f) && !Overtaken(chain, Marked(g))
    ensures f in Marked(g) ==> FileReachable(g, f)
  {
    var last := Marked(g);
    WalkEnds(g);
    ReachableByChain(g, f);
    if f in last {
      assert Via(g, last, Node(f, last[f]));
      var chain :| Chain(g, chain) && chain[|chain| - 1] == Node(f, last[f]) && KeepsTo(chain, last);
      assert ChainTo(g, chain, f) && !Overtaken(chain, last);
    }
    if chain :| ChainTo(g, chain, f) && !Overtaken(chain, last) { ChainSeen(g, last, chain); }
  }

  /** A chain needs what some file declares in one mode. */
  predicate Needs(chain: seq<Node>, n: Node) {
    exists k :: 0 <= k < |chain| - 1 && chain[k] == n
  }

  ghost predicate OnlyThrough(g: Graph, f: Path, n: Node) {
    forall chain :: ChainTo(g, chain, f) ==> Needs(chain, n)
  }

  /**
   Whatever order the declarations come in: a file that is the only way to one file in one mode and to another
   in the other costs the walk at least one of the two.
   */
  lemma OneOfTwoIsMissed(g: Graph, h: Path, x: Path, y: Path)
    requires GraphOk(g) && OnlyThrough(g, x, Node(h, true)) && OnlyThrough(g, y, Node(h, false))
    ensures x !in Marked(g) || y !in Marked(g)
  {
    MarkedIff(g, x);
    MarkedIff(g, y);
    if x in Marked(g) && y in Marked(g) {
      var cx :| ChainTo(g, cx, x) && !Overtaken(cx, Marked(g));
      var cy :| ChainTo(g, cy, y) && !Overtaken(cy, Marked(g));
      NeededMode(g, cx, Node(h, true));
      NeededMode(g, cy, Node(h, false));
      assert false;
    }
  }

  lemma NeededMode(g: Graph, chain: seq<Node>, n: Node)
    requires GraphOk(g) && Chain(g, chain) && !Overtaken(chain, Marked(g)) && Needs(chain, n)
    ensures n.file in Marked(g) && Marked(g)[n.file] == n.modRs
  {
    var k :| 0 <= k < |chain| - 1 && chain[k] == n;
    var part := chain[..k + 1];
    forall j | 0 <= j < |part| - 1 ensures part[j + 1] in g.targets(part[j]) {
      assert chain[j + 1] in g.targets(chain[j]);
    }
    assert Chain(g, part) && !Overtaken(part, Marked(g));
    WalkEnds(g);
    ChainSeen(g, Marked(g), part);
  }

  /** Every file the walk marks has a declaration chain from a build-target root, whatever cycles there are. */
  lemma WalkIsSound(g: Graph, f: Path)
    requires GraphOk(g) && f in Marked(g)
    ensures FileReachable(g, f)
  {
    MarkedIff(g, f);
  }

  /** When no file declares differently in its two modes, the walk marks every file that has a chain. */
  lemma WalkIsExact(g: Graph, f: Path)
    requires GraphOk(g) && forall h :: ModesAgree(g, h)
    ensures f in Marked(g) <==> FileReachable(g, f)
  {
    MarkedIff(g, f);
    ReachableByChain(g, f);
    if chain :| ChainTo(g, chain, f) {
      WalkEnds(g);
      AgreeingChainSeen(g, Marked(g), chain);
    }
  }

  lemma {:induction false} AgreeingChainSeen(g: Graph, seen: map<Path, bool>, chain: seq<Node>)
    requires Progress(g, seen, []) && Chain(g, chain) && forall f :: ModesAgree(g, f)
    ensures chain[|chain| - 1].file in seen
    decreases |chain|
  {
    if |chain| > 1 {
      var front, prev, m := chain[..|chain| - 1], chain[|chain| - 2], chain[|chain| - 1];
      ChainFront(g, chain);
      AgreeingChainSeen(g, seen, front);
      assert Via(g, seen, Node(prev.file, seen[prev.file]));
      ViaReaches(g, seen, Node(prev.file, seen[prev.file]));
      assert front[|front| - 1] == prev && Reachable(g, prev) && ModesAgree(g, prev.file);
      assert m in g.targets(Node(prev.file, seen[prev.file]));
      assert Followed(g, seen, [], prev.file) && Due(seen, [], m);
    } else {
      assert Due(seen, [], Node(chain[0].file, true));
    }
  }

  /** In particular when no file is declared in both modes: the report is exactly the unreachable scoped files. */
  lemma OneModeMeansExact(g: Graph, f: Path)
    requires GraphOk(g) && OneModeEach(g)
    ensures f in g.scoped - Marked(g).Keys <==> f in g.scoped && !FileReachable(g, f)
  {
    forall h ensures ModesAgree(g, h) { }
    WalkIsExact(g, f);
  }

  /** The worklist loop, and the report: the scoped files it did not mark. It ends on every tree. */
  method FindOrphans(g: Graph) returns (orphans: set<Path>)
    requires GraphOk(g)
    ensures orphans == g.scoped - Marked(g).Keys
  {
    var work := RootNodes(g);
    var reached: set<Path> := {};
    ghost var seen: map<Path, bool> := map[];
    while work != []
      invariant InTree(g, work) && reached == seen.Keys <= g.files
      invariant Walked(g, work, seen) == Marked(g)
      decreases |g.files - seen.Keys|, |work|
    {
      WalkedStep(g, work, seen);
      var n := work[|work| - 1];
      work := work[..|work| - 1];
      if n.file !in reached {
        reached := reached + {n.file};
        seen := seen[n.file := n.modRs];
        work := work + g.targets(n);
      }
    }
    orphans := g.scoped - reached;
  }

  // ---- what each declaration means, in plain names -----------------------------------------------------------------

  predicate AllPlain(names: seq<string>) {
    forall i :: 0 <= i < |names| ==> Plain(names[i])
  }

  /**
   A module by name, inside the inline modules around it: a file of its name or a directory's `mod.rs`, looked for
   in the file's own directory or, for a file that was itself a module by name, in the one named for its stem.
   */
  lemma ModuleIn(n: Node, own: Path, name: string, inline: seq<string>)
    requires own == if n.modRs then Dir(n.file) else StemDir(n.file)
    requires AllPlain(own) && AllPlain(inline) && Plain(name) && Plain(name + ".rs")
    ensures Candidates(n, Module(name, inline)) ==
      [Node(own + inline + [name + ".rs"], false), Node(own + inline + [name, "mod.rs"], true)]
  {
    AtPlain(own, inline + [name + ".rs"], false);
    AtPlain(own, inline + [name, "mod.rs"], true);
    assert own + (inline + [name + ".rs"]) == own + inline + [name + ".rs"];
    assert own + (inline + [name, "mod.rs"]) == own + inline + [name, "mod.rs"];
  }

  /**
   A module by path: the file named, from the file's own directory, or from where its modules are looked for when
   inline modules are around it.
   */
  lemma PathIn(n: Node, base: Path, text: string, inline: seq<string>)
    requires base == if inline == [] || n.modRs then Dir(n.file) else StemDir(n.file)
    requires AllPlain(base) && AllPlain(inline) && Plain(text)
    ensures Candidates(n, PathModule([text], inline)) == [Node(base + inline + [text], true)]
  {
    assert [text][1..] == [];
    AtPlain(base, inline + [text], true);
    assert base + (inline + [text]) == base + inline + [text];
    assert AtPaths(base, inline, [text]) == At(base, inline + [text], true) + AtPaths(base, inline, []);
  }

  /** An include: the Rust file named, always from the file's own directory; any other file is no source. */
  lemma IncludeIn(n: Node, text: string, inline: seq<string>)
    requires AllPlain(Dir(n.file)) && AllPlain(inline) && Plain(text)
    ensures Candidates(n, Include(text, inline)) ==
      if |text| >= 3 && text[|text| - 3..] == ".rs" then [Node(Dir(n.file) + inline + [text], true)] else []
  {
    AtPlain(Dir(n.file), inline + [text], true);
    assert Dir(n.file) + (inline + [text]) == Dir(n.file) + inline + [text];
  }

  /** A step up from a plain directory is its parent. */
  lemma UpOne(base: Path, name: string)
    requires base != [] && AllPlain(base) && Plain(name)
    ensures Normal(base + ["..", name]) == base[..|base| - 1] + [name]
  {
    NormalPlain(base);
    assert Plain(base[|base| - 1]);
    NormalNext(base, "..");
    assert Normal(base + [".."]) == base[..|base| - 1];
    NormalNext(base + [".."], name);
    assert base + ["..", name] == base + [".."] + [name];
  }

  lemma NormalNext(parts: Path, c: string)
    ensures var front := Normal(parts);
      Normal(parts + [c]) ==
        if c == "" || c == "." then front
        else if c != ".." || front == [] || front[|front| - 1] == ".." then front + [c]
        else front[..|front| - 1]
  {
    assert (parts + [c])[..|parts|] == parts && (parts + [c])[|parts|] == c;
  }

  /** What a file declares and the tree has, declaration by declaration and candidate by candidate. */
  lemma {:induction false} TargetsHave(t: Tree, n: Node, ds: seq<Declaration>, m: Node)
    ensures m in TargetsOf(t, n, ds) <==> m.file in t.files && exists k :: 0 <= k < |ds| && m in Candidates(n, ds[k])
  {
    if ds != [] {
      TargetsHave(t, n, ds[1..], m);
      KeptHas(t, Candidates(n, ds[0]), m);
      if k :| 0 <= k < |ds[1..]| && m in Candidates(n, ds[1..][k]) { assert ds[1..][k] == ds[k + 1]; }
      if k :| 0 <= k < |ds| && m in Candidates(n, ds[k]) {
        if k > 0 { assert ds[1..][k - 1] == ds[k]; }
      }
    }
  }

  lemma {:induction false} KeptHas(t: Tree, nodes: seq<Node>, m: Node)
    ensures m in Kept(t, nodes) <==> m in nodes && m.file in t.files
  {
    if nodes != [] {
      KeptHas(t, nodes[1..], m);
      assert nodes == [nodes[0]] + nodes[1..];
    }
  }

  // ---- a file declared both ways ---------------------------------------------------------------------------------

  const LIB: Path := ["src", "lib.rs"]
  const A: Path := ["src", "a.rs"]
  const B: Path := ["src", "b.rs"]
  const AB: Path := ["src", "a", "b.rs"]

  /** `src/lib.rs` declares `src/a.rs` as module `a` and by path as another; `src/a.rs` declares a module `b`. */
  function TwoWays(): Tree {
    Tree({LIB, A, B, AB}, [LIB], {LIB, A, B, AB},
         f => if f == LIB then [Module("a", []), PathModule(["a.rs"], [])]
              else if f == A then [Module("b", [])] else [])
  }


  lemma TwoWaysRoot()
    ensures Targets(TwoWays(), Node(LIB, true)) == [Node(A, false), Node(A, true)]
  {
    var t, r := TwoWays(), Node(LIB, true);
    assert Dir(LIB) == ["src"] && "a" + ".rs" == "a.rs";
    ModuleIn(r, ["src"], "a", []);
    PathIn(r, ["src"], "a.rs", []);
    assert ["src"] + [] == ["src"] && ["src"] + ["a.rs"] == A && ["src"] + ["a", "mod.rs"] == ["src", "a", "mod.rs"];
    KeptTwo(t, Node(A, false), Node(["src", "a", "mod.rs"], true));
    KeptOne(t, Node(A, true));
    TargetsTwo(t, r, Module("a", []), PathModule(["a.rs"], []));
  }

  /** By path, `src/a.rs` looks for its modules beside itself. */
  lemma TwoWaysByPath()
    ensures Targets(TwoWays(), Node(A, true)) == [Node(B, false)]
  {
    var t, n := TwoWays(), Node(A, true);
    assert Dir(A) == ["src"] && "b" + ".rs" == "b.rs";
    ModuleIn(n, ["src"], "b", []);
    assert ["src"] + [] == ["src"] && ["src"] + ["b.rs"] == B && ["src"] + ["b", "mod.rs"] == ["src", "b", "mod.rs"];
    KeptTwo(t, Node(B, false), Node(["src", "b", "mod.rs"], true));
    assert A != LIB;
    TargetsOne(t, n, Module("b", []));
  }

  /** By name, it looks in the directory named for its stem. */
  lemma TwoWaysByName()
    ensures Targets(TwoWays(), Node(A, false)) == [Node(AB, false)]
  {
    var t, n := TwoWays(), Node(A, false);
    StemOf("a.rs", 1);
    assert "a.rs"[..1] == "a" && Dir(A) == ["src"] && StemDir(A) == ["src", "a"] && "b" + ".rs" == "b.rs";
    ModuleIn(n, ["src", "a"], "b", []);
    assert ["src", "a"] + [] == ["src", "a"] && ["src", "a"] + ["b.rs"] == AB && ["src", "a"] + ["b", "mod.rs"] == ["src", "a", "b", "mod.rs"];
    KeptTwo(t, Node(AB, false), Node(["src", "a", "b", "mod.rs"], true));
    assert A != LIB;
    TargetsOne(t, n, Module("b", []));
  }

  lemma FourFiles()
    ensures LIB != A && LIB != B && LIB != AB && A != B && A != AB && B != AB
    ensures Targets(TwoWays(), Node(B, false)) == []
  {
    assert LIB[1] == "lib.rs" && A[1] == "a.rs" && B[1] == "b.rs" && |AB| == 3;
    assert "lib.rs"[0] == 'l' && "a.rs"[0] == 'a' && "b.rs"[0] == 'b';
  }

  lemma KeptOne(t: Tree, x: Node)
    ensures Kept(t, [x]) == if x.file in t.files then [x] else []
  {
    assert [x][1..] == [];
  }

  lemma KeptTwo(t: Tree, x: Node, y: Node)
    ensures Kept(t, [x, y]) == (if x.file in t.files then [x] else []) + (if y.file in t.files then [y] else [])
  {
    assert [x, y][1..] == [y];
    KeptOne(t, y);
  }

  lemma TargetsOne(t: Tree, n: Node, d: Declaration)
    ensures TargetsOf(t, n, [d]) == Kept(t, Candidates(n, d))
  {
    assert [d][1..] == [];
  }

  lemma TargetsTwo(t: Tree, n: Node, d: Declaration, e: Declaration)
    ensures TargetsOf(t, n, [d, e]) == Kept(t, Candidates(n, d)) + Kept(t, Candidates(n, e))
  {
    assert [d, e][1..] == [e];
    TargetsOne(t, n, e);
  }

  /** A root declares one file in both modes, the second popped first; the other mode's target is never looked at. */
  lemma SecondModeIsSkipped(g: Graph, r: Node, other: Node, first: Node, b: Node)
    requires GraphOk(g) && {r.file, first.file, b.file} <= g.files && first.file == other.file
    requires r.file != first.file && b.file != r.file && b.file != first.file
    requires g.targets(r) == [other, first] && g.targets(first) == [b] && g.targets(b) == []
    ensures Walked(g, [r], map[]).Keys == {r.file, first.file, b.file}
  {
    var s1: map<Path, bool> := map[r.file := r.modRs];
    var s2 := s1[first.file := first.modRs];
    WalkedStep(g, [r], map[]);
    assert [r][..0] + [other, first] == [other, first];
    WalkedStep(g, [other, first], s1);
    assert [other, first][..1] + [b] == [other, b];
    LastTwo(g, other, b, s2);
  }

  lemma LastTwo(g: Graph, other: Node, b: Node, seen: map<Path, bool>)
    requires GraphOk(g) && seen.Keys <= g.files && b.file in g.files && other.file in seen && b.file !in seen
    requires g.targets(b) == []
    ensures Walked(g, [other, b], seen) == seen[b.file := b.modRs]
  {
    WalkedStep(g, [other, b], seen);
    assert [other, b][..1] + [] == [other];
    WalkedStep(g, [other], seen[b.file := b.modRs]);
    assert [other][..0] == [];
  }

  /** A tree shaped like that one, with the other mode's target among its files, misses it. */
  lemma MissedBySkipping(g: Graph, r: Node, other: Node, first: Node, b: Node, missed: Node)
    requires GraphOk(g) && g.roots == [r.file] && r.modRs && {r.file, first.file, b.file} <= g.files
    requires first.file == other.file && r.file != first.file && b.file != r.file && b.file != first.file
    requires g.targets(r) == [other, first] && g.targets(first) == [b] && g.targets(b) == [] && g.targets(other) == [missed]
    requires missed.file in g.scoped && missed.file !in [r.file, first.file, b.file]
    ensures missed.file in g.scoped - Marked(g).Keys && FileReachable(g, missed.file)
  {
    assert RootNodes(g) == [r];
    SecondModeIsSkipped(g, r, other, first, b);
    var chain := [r, other, missed];
    assert Chain(g, chain) && chain[|chain| - 1] == missed;
    assert missed == Node(missed.file, true) || missed == Node(missed.file, false);
  }

  /** The walk goes through `src/a.rs` by path alone, and reports `src/a/b.rs`, which module `a` declares. */
  lemma TwoWaysIsMissed()
    ensures var g := GraphOf(TwoWays());
      GraphOk(g) && AB in g.scoped - Marked(g).Keys && FileReachable(g, AB)
  {
    TwoWaysGraph();
    FourFiles();
    MissedBySkipping(GraphOf(TwoWays()), Node(LIB, true), Node(A, false), Node(A, true), Node(B, false), Node(AB, false));
  }

  lemma TwoWaysGraph()
    ensures var g := GraphOf(TwoWays());
      && GraphOk(g) && g.roots == [LIB] && {LIB, A, B} <= g.files && AB in g.scoped
      && g.targets(Node(LIB, true)) == [Node(A, false), Node(A, true)] && g.targets(Node(A, true)) == [Node(B, false)]
      && g.targets(Node(B, false)) == [] && g.targets(Node(A, false)) == [Node(AB, false)]
  {
    TwoWaysRoot();
    TwoWaysByPath();
    TwoWaysByName();
    FourFiles();
    TreesAreGraphs(TwoWays());
  }
}
