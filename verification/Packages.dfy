/**
 The package checker: who owns each crate, program and path, which links may cross a boundary, and what a
 package may depend on. A tree it reports no error for has the structure its definitions promise.
 */
module Packages {
  import opened PathText

  type Name = string
  type Path = string

  datatype Option<+T> = None | Some(value: T)
  datatype Kind = Base | Optional | Sdk | Test

  datatype Excuse = Excuse(member: Name, crate: Name)

  /** `grants` says that the package declares a file server that enforces subtree grants itself. */
  datatype Package = Package(
    name: Name, file: Path, kind: Kind,
    crates: seq<Name>, programs: seq<Name>, paths: seq<Path>,
    interfaces: set<Name>, depends: set<Name>, exceptions: seq<Excuse>, grants: bool)

  /** A binary target: its source, and the linked crates that source names. */
  datatype Bin = Bin(source: Path, mentions: set<Name>)

  /**
   A crate's claim is its directory, or its manifest at the root; `links` are the crates its manifest links, and
   `carries` whether it carries the subtree-grants note.
   */
  datatype Crate = Crate(home: Path, links: set<Name>, bins: map<Name, Bin>, carries: bool)

  /** `order` is the order the crates' manifests were read in. */
  datatype Input = Input(packages: seq<Package>, crates: map<Name, Crate>, order: seq<Name>,
                         homes: seq<Path>, tracked: set<Path>)

  const SUBTREE_SCOPE: Name := "subtree_scope"

  /** Package names are the names of their files, so no two are the same; each crate is read once. */
  predicate InputOk(inp: Input) {
    && (forall i, j :: 0 <= i < j < |inp.packages| ==> inp.packages[i].name != inp.packages[j].name)
    && (forall i :: 0 <= i < |inp.order| ==> inp.order[i] in inp.crates) && forall c :: c in inp.crates ==> c in inp.order
  }

  predicate HasBin(inp: Input, c: Name, b: Name) {
    c in inp.crates && b in inp.crates[c].bins
  }

  /** Every binary's name, whichever crates have it. */
  function BinNames(inp: Input): set<Name> {
    set c, b | c in inp.crates && b in inp.crates[c].bins :: b
  }

  /** The source of a binary by name: of several crates that have one, the last read. */
  function SourceOf(inp: Input, n: nat, b: Name): Option<Path>
    requires n <= |inp.order|
  {
    if n == 0 then None
    else if HasBin(inp, inp.order[n - 1], b) then Some(inp.crates[inp.order[n - 1]].bins[b].source)
    else SourceOf(inp, n - 1, b)
  }

  // ---- a path's claims: split at slashes, joined back ------------------------------------------------------------

  function Join(parts: seq<Path>): Path
    requires |parts| >= 1
  {
    if |parts| == 1 then parts[0] else parts[0] + "/" + Join(parts[1..])
  }

  /** The prefixes that can claim a path: each of its directories, then the path itself. */
  function Prefixes(path: Path): (ps: seq<Path>)
    ensures |ps| >= 1
  {
    var parts := Split(path);
    seq(|parts| - 1, i requires 0 <= i < |parts| - 1 => Join(parts[..i + 1]) + "/") + [path]
  }

  /** A prefix claims a path that is it, or that lies under it when it is a directory. */
  predicate Claims(prefix: Path, path: Path) {
    prefix == path || (prefix <= path && prefix != "" && prefix[|prefix| - 1] == '/')
  }

  function SlashAt(path: Path, i: nat): (at: nat)
    requires i + 1 < |Split(path)|
    ensures at < |path| && path[at] == '/'
    decreases |path|
  {
    if path[0] == '/' then if i == 0 then 0 else 1 + SlashAt(path[1..], i - 1) else 1 + SlashAt(path[1..], i)
  }

  lemma JoinAfterSlash(rest: seq<Path>)
    requires |rest| >= 1
    ensures Join([""] + rest) == "/" + Join(rest)
  {
    assert ([""] + rest)[1..] == rest;
    assert "" + "/" + Join(rest) == "/" + Join(rest);
  }

  /** A slash in front: one more part, one more character. */
  lemma JoinGrowsSlash(parts: seq<Path>, rest: seq<Path>, path: Path, i: nat, k: nat)
    requires parts == [""] + rest && 0 < i <= |rest| && path != "" && path[0] == '/' && k < |path| - 1
    requires Join(rest[..i]) + "/" == path[1..][..k + 1]
    ensures Join(parts[..i + 1]) + "/" == path[..k + 2]
  {
    assert parts[..i + 1] == [""] + rest[..i];
    JoinAfterSlash(rest[..i]);
    assert path[..k + 2] == [path[0]] + path[1..][..k + 1];
    assert ("/" + Join(rest[..i])) + "/" == "/" + (Join(rest[..i]) + "/");
  }

  /** Any other character in front: the first part and the whole both grow by it. */
  lemma JoinGrowsChar(parts: seq<Path>, rest: seq<Path>, path: Path, i: nat, k: nat)
    requires 0 < i <= |rest| && path != "" && parts == [[path[0]] + rest[0]] + rest[1..] && k < |path| - 1
    requires Join(rest[..i]) + "/" == path[1..][..k + 1]
    ensures Join(parts[..i]) + "/" == path[..k + 2]
  {
    var c := path[0];
    assert parts[..i] == [[c] + rest[..i][0]] + rest[..i][1..];
    JoinFirst(rest[..i], c);
    assert path[..k + 2] == [c] + path[1..][..k + 1];
    assert ([c] + Join(rest[..i])) + "/" == [c] + (Join(rest[..i]) + "/");
  }

  /** The i-th directory prefix is everything up to and including the i-th slash. */
  lemma {:induction false} JoinIsPrefix(path: Path, i: nat)
    requires i + 1 < |Split(path)|
    ensures Join(Split(path)[..i + 1]) + "/" == path[..SlashAt(path, i) + 1]
    decreases |path|
  {
    if path[0] != '/' {
      JoinIsPrefix(path[1..], i);
      JoinGrowsChar(Split(path), Split(path[1..]), path, i + 1, SlashAt(path[1..], i));
    } else if i > 0 {
      JoinIsPrefix(path[1..], i - 1);
      JoinGrowsSlash(Split(path), Split(path[1..]), path, i, SlashAt(path[1..], i - 1));
    } else {
      assert Split(path)[..1] == [""] && path[..1] == "/";
    }
  }

  lemma {:induction false} JoinFirst(parts: seq<Path>, c: char)
    requires |parts| >= 1
    ensures Join([[c] + parts[0]] + parts[1..]) == [c] + Join(parts)
  {
    var longer := [[c] + parts[0]] + parts[1..];
    assert |longer| == |parts| && longer[0] == [c] + parts[0] && longer[1..] == parts[1..];
    if |parts| > 1 {
      var rest := Join(parts[1..]);
      assert ([c] + parts[0]) + "/" + rest == [c] + (parts[0] + "/" + rest);
    }
  }

  /** Every slash of a path ends one of its directory prefixes. */
  lemma {:induction false} SlashHasIndex(path: Path, at: nat) returns (i: nat)
    requires at < |path| && path[at] == '/'
    ensures i + 1 < |Split(path)| && SlashAt(path, i) == at
    decreases |path|
  {
    if at == 0 {
      i := 0;
    } else {
      var k := SlashHasIndex(path[1..], at - 1);
      i := if path[0] == '/' then k + 1 else k;
    }
  }

  lemma {:induction false} SlashesRise(path: Path, i: nat, j: nat)
    requires i < j && j + 1 < |Split(path)|
    ensures SlashAt(path, i) < SlashAt(path, j)
    decreases |path|
  {
    if path[0] == '/' {
      if i > 0 { SlashesRise(path[1..], i - 1, j - 1); }
    } else {
      SlashesRise(path[1..], i, j);
    }
  }

  /** The generated prefixes are exactly those that claim the path, shortest first. */
  lemma PrefixesAreTheClaims(path: Path, p: Path)
    ensures p in Prefixes(path) <==> Claims(p, path)
  {
    var ps, parts := Prefixes(path), Split(path);
    if p in ps {
      var k :| 0 <= k < |ps| && ps[k] == p;
      if k < |parts| - 1 { JoinIsPrefix(path, k); }
    }
    if Claims(p, path) {
      if p == path {
        assert ps[|ps| - 1] == p;
      } else {
        var at := |p| - 1;
        var i := SlashHasIndex(path, at);
        JoinIsPrefix(path, i);
        assert ps[i] == path[..at + 1] == p;
      }
    }
  }

  lemma PrefixesGrow(path: Path, i: nat, j: nat)
    requires i < j < |Prefixes(path)|
    ensures |Prefixes(path)[i]| <= |Prefixes(path)[j]|
  {
    var n := |Split(path)| - 1;
    JoinIsPrefix(path, i);
    if j < n {
      JoinIsPrefix(path, j);
      SlashesRise(path, i, j);
    }
  }

  /** The claim of greatest length; no two claims of a path have the same length. */
  ghost predicate Longest(claims: set<Path>, path: Path, best: Path) {
    && best in claims && Claims(best, path)
    && forall p :: p in claims && Claims(p, path) && p != best ==> |p| < |best|
  }

  lemma SameLengthSameClaim(path: Path, p: Path, q: Path)
    requires Claims(p, path) && Claims(q, path) && |p| == |q|
    ensures p == q
  {
    assert p == path[..|p|] && q == path[..|q|];
  }

  /** The last prefix with a claim wins, and it is the longest. */
  method OwnerOf(claims: set<Path>, path: Path) returns (best: Option<Path>)
    ensures best.None? <==> forall p :: p in claims ==> !Claims(p, path)
    ensures best.Some? ==> Longest(claims, path, best.value)
  {
    best := None;
    var ps := Prefixes(path);
    var k := 0;
    while k < |ps|
      invariant 0 <= k <= |ps|
      invariant best.None? ==> forall j :: 0 <= j < k ==> ps[j] !in claims
      invariant best.Some? ==> best.value in claims && best.value in ps
      invariant best.Some? ==> forall j :: 0 <= j < k && ps[j] in claims ==> |ps[j]| <= |best.value|
    {
      if ps[k] in claims {
        best := Some(ps[k]);
        forall j | 0 <= j < k ensures |ps[j]| <= |ps[k]| { PrefixesGrow(path, j, k); }
      }
      k := k + 1;
    }
    forall p | p in claims ensures Claims(p, path) <==> p in ps { PrefixesAreTheClaims(path, p); }
    if best.Some? {
      PrefixesAreTheClaims(path, best.value);
      forall p | p in claims && Claims(p, path) && p != best.value ensures |p| < |best.value| {
        if |p| == |best.value| { SameLengthSameClaim(path, p, best.value); }
      }
    }
  }

  // ---- membership -----------------------------------------------------------------------------------------------

  datatype Entry = Entry(pkg: nat, item: Name)

  /** Every listing of every package, in order. */
  function Flatten(lists: seq<seq<Name>>): seq<Entry> {
    if lists == [] then []
    else
      var n := |lists| - 1;
      Flatten(lists[..n]) + seq(|lists[n]|, j requires 0 <= j < |lists[n]| => Entry(n, lists[n][j]))
  }

  lemma {:induction false} FlattenHas(lists: seq<seq<Name>>, i: nat, x: Name)
    ensures Entry(i, x) in Flatten(lists) <==> i < |lists| && x in lists[i]
  {
    if lists != [] {
      var n := |lists| - 1;
      FlattenHas(lists[..n], i, x);
      var last := seq(|lists[n]|, j requires 0 <= j < |lists[n]| => Entry(n, lists[n][j]));
      assert Entry(i, x) in last <==> i == n && x in lists[n] by {
        if i == n && x in lists[n] {
          var j :| 0 <= j < |lists[n]| && lists[n][j] == x;
          assert last[j] == Entry(n, x);
        }
      }
    }
  }

  function CrateLists(inp: Input): seq<seq<Name>> {
    seq(|inp.packages|, i requires 0 <= i < |inp.packages| => inp.packages[i].crates)
  }

  function ProgramLists(inp: Input): seq<seq<Name>> {
    seq(|inp.packages|, i requires 0 <= i < |inp.packages| => inp.packages[i].programs)
  }

  datatype Problem =
    | Unknown(item: Name)
    | TwoPackages(item: Name)
    | NoPackage(item: Name)
    | ClaimedTwice(prefix: Path)
    | ClaimsNothing(prefix: Path)
    | NoHome(path: Path)
    | Violation(member: Name, crate: Name)
    | UnusedExcuse(excuse: Excuse)
    | DependsOnNothing(name: Name)
    | DependsOnTest(name: Name)
    | BaseDependsOnOptional(name: Name)
    | NoteWithoutScope(crate: Name)
    | NoteUndeclared(crate: Name)
    | GrantsWithoutNote(name: Name)

  /** Neither a violation nor an unused exception. */
  predicate NoneAboutLinks(errors: seq<Problem>) {
    forall k :: 0 <= k < |errors| ==> !errors[k].Violation? && !errors[k].UnusedExcuse?
  }

  predicate Distinct(entries: seq<Entry>) {
    forall a, b :: 0 <= a < b < |entries| ==> entries[a].item != entries[b].item
  }

  predicate AllKnown(entries: seq<Entry>, known: set<Name>) {
    forall a :: 0 <= a < |entries| ==> entries[a].item in known
  }

  /** Put each listed item in its package; an unknown item or a second listing is an error. */
  method Place(entries: seq<Entry>, known: set<Name>) returns (owner: map<Name, nat>, errors: seq<Problem>)
    ensures (errors == [] <==> AllKnown(entries, known) && Distinct(entries)) && NoneAboutLinks(errors)
    ensures forall x :: x in owner ==> x in known && Entry(owner[x], x) in entries
    ensures forall e :: e in entries && e.item in known ==> e.item in owner
  {
    owner, errors := map[], [];
    var k := 0;
    while k < |entries|
      invariant 0 <= k <= |entries|
      invariant (errors == [] <==> AllKnown(entries[..k], known) && Distinct(entries[..k])) && NoneAboutLinks(errors)
      invariant forall x :: x in owner ==> x in known && Entry(owner[x], x) in entries[..k]
      invariant forall a :: 0 <= a < k && entries[a].item in known ==> entries[a].item in owner
    {
      var e := entries[k];
      assert entries[..k + 1] == entries[..k] + [e];
      if e.item !in known {
        assert entries[..k + 1][k].item !in known;
        errors := errors + [Unknown(e.item)];
      } else if e.item in owner {
        var a :| 0 <= a < k && entries[a] == Entry(owner[e.item], e.item);
        assert entries[..k + 1][a].item == entries[..k + 1][k].item;
        errors := errors + [TwoPackages(e.item)];
      } else {
        owner := owner[e.item := e.pkg];
      }
      k := k + 1;
    }
    assert entries[..k] == entries;
  }

  /** Exactly one package lists it, and the map says which. */
  predicate OnlyIn(lists: seq<seq<Name>>, owner: map<Name, nat>, x: Name) {
    && x in owner && owner[x] < |lists| && x in lists[owner[x]]
    && forall i :: 0 <= i < |lists| && x in lists[i] ==> i == owner[x]
  }

  lemma DistinctMeansOne(lists: seq<seq<Name>>, owner: map<Name, nat>, x: Name)
    requires Distinct(Flatten(lists)) && x in owner && Entry(owner[x], x) in Flatten(lists)
    ensures OnlyIn(lists, owner, x)
  {
    FlattenHas(lists, owner[x], x);
    forall i | 0 <= i < |lists| && x in lists[i] ensures i == owner[x] {
      FlattenHas(lists, i, x);
      var all := Flatten(lists);
      var a :| 0 <= a < |all| && all[a] == Entry(i, x);
      var b :| 0 <= b < |all| && all[b] == Entry(owner[x], x);
    }
  }

  function Get<K, V>(m: map<K, V>, k: K): Option<V> {
    if k in m then Some(m[k]) else None
  }

  /** Where programs are, by name, while the crates are gone through. */
  type Placing = map<Name, Option<nat>>

  /** A crate with a program already placed outside the crate's own package. */
  predicate Scattered(bins: set<Name>, placed: Placing, own: Option<nat>) {
    exists b :: b in bins && b in placed && placed[b] != own
  }

  /** A crate's unplaced programs go with it, unless its programs are scattered. */
  function PlaceWith(bins: set<Name>, placed: Placing, own: Option<nat>): Placing {
    if Scattered(bins, placed, own) then placed
    else map b | b in bins + placed.Keys :: if b in placed then placed[b] else own
  }

  /** The listed programs, then `n` crates' programs after them. */
  function PlacedUpTo(inp: Input, cratePkg: map<Name, nat>, listed: map<Name, nat>, n: nat): Placing
    requires InputOk(inp) && n <= |inp.order|
  {
    if n == 0 then map b | b in listed :: Some(listed[b])
    else
      var c := inp.order[n - 1];
      PlaceWith(inp.crates[c].bins.Keys, PlacedUpTo(inp, cratePkg, listed, n - 1), Get(cratePkg, c))
  }

  /** The scattered crate at this place leaves a program in no package. */
  predicate Strands(inp: Input, cratePkg: map<Name, nat>, listed: map<Name, nat>, n: nat)
    requires InputOk(inp) && n < |inp.order|
  {
    var c, placed := inp.order[n], PlacedUpTo(inp, cratePkg, listed, n);
    Scattered(inp.crates[c].bins.Keys, placed, Get(cratePkg, c)) && exists b :: b in inp.crates[c].bins && b !in placed
  }

  predicate NoneStranded(inp: Input, cratePkg: map<Name, nat>, listed: map<Name, nat>, n: nat)
    requires InputOk(inp) && n <= |inp.order|
  {
    forall k :: 0 <= k < n ==> !Strands(inp, cratePkg, listed, k)
  }

  /** One crate more: its turn decides the places and whether it strands a program. */
  lemma PlacedOneMore(inp: Input, cratePkg: map<Name, nat>, listed: map<Name, nat>, n: nat)
    requires InputOk(inp) && n < |inp.order|
    ensures var bins, own := inp.crates[inp.order[n]].bins.Keys, Get(cratePkg, inp.order[n]);
      var placed := PlacedUpTo(inp, cratePkg, listed, n);
      && PlacedUpTo(inp, cratePkg, listed, n + 1) == PlaceWith(bins, placed, own)
      && (NoneStranded(inp, cratePkg, listed, n + 1) <==>
            NoneStranded(inp, cratePkg, listed, n) && !(Scattered(bins, placed, own) && !(bins <= placed.Keys)))
  {
    var c, placed := inp.order[n], PlacedUpTo(inp, cratePkg, listed, n);
    assert Strands(inp, cratePkg, listed, n) <==>
      Scattered(inp.crates[c].bins.Keys, placed, Get(cratePkg, c)) && !(inp.crates[c].bins.Keys <= placed.Keys)
    by {
      if !(inp.crates[c].bins.Keys <= placed.Keys) {
        var b :| b in inp.crates[c].bins.Keys && b !in placed.Keys;
        assert b in inp.crates[c].bins && b !in placed;
      }
    }
  }

  method ReportUnplaced(bins: set<Name>, placed: Placing) returns (errors: seq<Problem>)
    ensures (errors == [] <==> bins <= placed.Keys) && NoneAboutLinks(errors)
  {
    errors := [];
    var todo := bins - placed.Keys;
    while todo != {}
      invariant todo <= bins - placed.Keys && (errors == [] <==> bins - placed.Keys <= todo) && NoneAboutLinks(errors)
      decreases |todo|
    {
      var b :| b in todo;
      errors := errors + [NoPackage(b)];
      todo := todo - {b};
    }
  }

  /** One crate's turn: its unplaced programs go with it, or are reported. */
  method PlaceCrate(inp: Input, cratePkg: map<Name, nat>, listed: map<Name, nat>, n: nat, placed: Placing)
    returns (next: Placing, errors: seq<Problem>)
    requires InputOk(inp) && n < |inp.order| && placed == PlacedUpTo(inp, cratePkg, listed, n)
    ensures next == PlacedUpTo(inp, cratePkg, listed, n + 1) && NoneAboutLinks(errors)
    ensures NoneStranded(inp, cratePkg, listed, n + 1) <==> NoneStranded(inp, cratePkg, listed, n) && errors == []
  {
    var bins, own := inp.crates[inp.order[n]].bins.Keys, Get(cratePkg, inp.order[n]);
    PlacedOneMore(inp, cratePkg, listed, n);
    errors := [];
    if Scattered(bins, placed, own) { errors := ReportUnplaced(bins, placed); }
    next := PlaceWith(bins, placed, own);
  }

  /** Each program in its package, or reported. */
  method PlacePrograms(inp: Input, cratePkg: map<Name, nat>, listed: map<Name, nat>) returns (homes: Placing, errors: seq<Problem>)
    requires InputOk(inp)
    ensures homes == PlacedUpTo(inp, cratePkg, listed, |inp.order|)
    ensures (errors == [] <==> NoneStranded(inp, cratePkg, listed, |inp.order|)) && NoneAboutLinks(errors)
  {
    homes, errors := map b | b in listed :: Some(listed[b]), [];
    var n := 0;
    while n < |inp.order|
      invariant 0 <= n <= |inp.order| && homes == PlacedUpTo(inp, cratePkg, listed, n)
      invariant (errors == [] <==> NoneStranded(inp, cratePkg, listed, n)) && NoneAboutLinks(errors)
    {
      var next, more := PlaceCrate(inp, cratePkg, listed, n, homes);
      homes, errors := next, errors + more;
      n := n + 1;
    }
  }

  method Unplaced(crates: set<Name>, cratePkg: map<Name, nat>) returns (errors: seq<Problem>)
    ensures (errors == [] <==> crates <= cratePkg.Keys) && NoneAboutLinks(errors)
  {
    errors := [];
    var todo := crates - cratePkg.Keys;
    while todo != {}
      invariant (errors == [] <==> crates - cratePkg.Keys <= todo) && NoneAboutLinks(errors)
      invariant todo <= crates - cratePkg.Keys
      decreases |todo|
    {
      var c :| c in todo;
      errors := errors + [NoPackage(c)];
      todo := todo - {c};
    }
  }

  // ---- claims and homes -----------------------------------------------------------------------------------------

  /** A prefix and the package that owns what lies under it; a home outside every package has no owner. */
  datatype Claim = Claim(prefix: Path, owner: Option<nat>)

  function CrateClaims(inp: Input, i: nat, names: seq<Name>): seq<Claim> {
    if names == [] then []
    else (if names[0] in inp.crates then [Claim(inp.crates[names[0]].home, Some(i))] else []) + CrateClaims(inp, i, names[1..])
  }

  function ProgramClaims(inp: Input, i: nat, names: seq<Name>): seq<Claim> {
    if names == [] then []
    else
      var source := SourceOf(inp, |inp.order|, names[0]);
      var first := if source.Some? then [Claim(source.value, Some(i))] else [];
      first + ProgramClaims(inp, i, names[1..])
  }

  function PathClaims(owner: Option<nat>, paths: seq<Path>): seq<Claim> {
    seq(|paths|, j requires 0 <= j < |paths| => Claim(paths[j], owner))
  }

  /** Everything a package claims: its crates, its programs, its paths and its own definition. */
  function PackageClaims(inp: Input, i: nat): seq<Claim>
    requires i < |inp.packages|
  {
    var pkg := inp.packages[i];
    CrateClaims(inp, i, pkg.crates) + ProgramClaims(inp, i, pkg.programs)
    + PathClaims(Some(i), pkg.paths) + [Claim(pkg.file, Some(i))]
  }

  /** The packages' claims in order, then the homes outside every package. */
  function AllClaims(inp: Input, i: nat): seq<Claim>
    requires i <= |inp.packages|
    decreases |inp.packages| - i
  {
    if i == |inp.packages| then PathClaims(None, inp.homes) else PackageClaims(inp, i) + AllClaims(inp, i + 1)
  }

  predicate DistinctClaims(claims: seq<Claim>) {
    forall a, b :: 0 <= a < b < |claims| ==> claims[a].prefix != claims[b].prefix
  }

  lemma DistinctNext(list: seq<Claim>, k: nat)
    requires k < |list|
    ensures DistinctClaims(list[..k + 1]) <==>
      DistinctClaims(list[..k]) && forall a :: 0 <= a < k ==> list[a].prefix != list[k].prefix
  {
    var longer := list[..k + 1];
    assert forall a :: 0 <= a < k ==> longer[a] == list[..k][a] == list[a];
    assert longer[k] == list[k];
  }

  /** The claims as a map; a prefix claimed twice is an error. */
  method GatherClaims(list: seq<Claim>) returns (claims: map<Path, Option<nat>>, errors: seq<Problem>)
    ensures (errors == [] <==> DistinctClaims(list)) && NoneAboutLinks(errors)
    ensures forall p :: p in claims ==> Claim(p, claims[p]) in list
    ensures forall c :: c in list ==> c.prefix in claims
  {
    claims, errors := map[], [];
    ghost var first: map<Path, nat> := map[];
    var k := 0;
    while k < |list|
      invariant 0 <= k <= |list| && first.Keys == claims.Keys
      invariant (errors == [] <==> DistinctClaims(list[..k])) && NoneAboutLinks(errors)
      invariant forall p :: p in first ==> first[p] < k && list[first[p]] == Claim(p, claims[p])
      invariant forall a :: 0 <= a < k ==> list[a].prefix in claims
    {
      var c := list[k];
      DistinctNext(list, k);
      if c.prefix in claims {
        assert list[first[c.prefix]].prefix == c.prefix;
        errors := errors + [ClaimedTwice(c.prefix)];
      } else {
        claims := claims[c.prefix := c.owner];
        first := first[c.prefix := k];
      }
      k := k + 1;
    }
    assert list[..k] == list;
    forall p | p in claims ensures Claim(p, claims[p]) in list { assert p in first; }
  }

  predicate Claimed(claims: set<Path>, path: Path) {
    exists p :: p in claims && Claims(p, path)
  }

  ghost predicate Used(claims: set<Path>, tracked: set<Path>, p: Path) {
    exists path :: path in tracked && Longest(claims, path, p)
  }

  /** Every tracked path has a claim, and every claim is the longest one of some tracked path. */
  ghost predicate Housed(claims: set<Path>, tracked: set<Path>) {
    AllClaimed(claims, tracked) && AllUsed(claims, tracked)
  }

  predicate AllClaimed(claims: set<Path>, tracked: set<Path>) {
    forall path {:trigger Claimed(claims, path)} :: path in tracked ==> Claimed(claims, path)
  }

  ghost predicate AllUsed(claims: set<Path>, tracked: set<Path>) {
    forall p {:trigger Used(claims, tracked, p)} :: p in claims ==> Used(claims, tracked, p)
  }

  lemma LongestIsOne(claims: set<Path>, path: Path, p: Path, q: Path)
    requires Longest(claims, path, p) && Longest(claims, path, q)
    ensures p == q
  {
  }

  /** Each path that any claim holds is owned by its longest one. */
  ghost predicate OwnedByLongest(claims: set<Path>, tracked: set<Path>, owned: map<Path, Path>) {
    && (forall path :: path in owned <==> path in tracked && Claimed(claims, path))
    && forall path :: path in owned ==> Longest(claims, path, owned[path])
  }

  method OwnPaths(claims: set<Path>, tracked: set<Path>) returns (owned: map<Path, Path>, errors: seq<Problem>)
    ensures OwnedByLongest(claims, tracked, owned)
    ensures (errors == [] <==> AllClaimed(claims, tracked)) && NoneAboutLinks(errors)
  {
    owned, errors := map[], [];
    var todo := tracked;
    while todo != {}
      invariant todo <= tracked
      invariant OwnedByLongest(claims, tracked - todo, owned)
      invariant (errors == [] <==> AllClaimed(claims, tracked - todo)) && NoneAboutLinks(errors)
      decreases |todo|
    {
      var path :| path in todo;
      var best := OwnerOf(claims, path);
      ghost var done := tracked - todo;
      todo := todo - {path};
      assert tracked - todo == done + {path};
      if best.None? {
        assert !Claimed(claims, path);
        errors := errors + [NoHome(path)];
      } else {
        assert Claims(best.value, path) && Claimed(claims, path);
        owned := owned[path := best.value];
      }
    }
    assert tracked - todo == tracked;
  }

  method IdleClaims(claims: set<Path>, used: set<Path>) returns (errors: seq<Problem>)
    ensures (errors == [] <==> claims <= used) && NoneAboutLinks(errors)
  {
    errors := [];
    var todo := claims;
    while todo != {}
      invariant todo <= claims && (errors == [] <==> claims - todo <= used) && NoneAboutLinks(errors)
      decreases |todo|
    {
      var p :| p in todo;
      if p !in used { errors := errors + [ClaimsNothing(p)]; }
      todo := todo - {p};
    }
  }

  /** Each tracked path gets its longest claim; a path with none, or a claim that wins nothing, is an error. */
  method CheckHomes(claims: set<Path>, tracked: set<Path>) returns (owned: map<Path, Path>, errors: seq<Problem>)
    ensures OwnedByLongest(claims, tracked, owned)
    ensures (errors == [] <==> Housed(claims, tracked)) && NoneAboutLinks(errors)
  {
    var pathErrors;
    owned, pathErrors := OwnPaths(claims, tracked);
    var used := set path | path in owned :: owned[path];
    var claimErrors := IdleClaims(claims, used);
    UsedWhen(claims, tracked, owned, used);
    errors := pathErrors + claimErrors;
  }

  lemma UsedWhen(claims: set<Path>, tracked: set<Path>, owned: map<Path, Path>, used: set<Path>)
    requires OwnedByLongest(claims, tracked, owned) && used == set path | path in owned :: owned[path]
    ensures AllUsed(claims, tracked) <==> claims <= used
  {
    forall p | p in claims ensures p in used <==> Used(claims, tracked, p) {
      if Used(claims, tracked, p) {
        var path :| path in tracked && Longest(claims, path, p);
        assert Claimed(claims, path);
        LongestIsOne(claims, path, p, owned[path]);
      }
    }
  }

  // ---- links across a boundary ----------------------------------------------------------------------------------

  datatype Edge = Edge(pkg: nat, member: Name, crate: Name)

  function HomeOf(homes: Placing, b: Name): Option<nat> {
    if b in homes then homes[b] else None
  }

  /** A crate some of whose programs live elsewhere is judged program by program, by what their sources name. */
  predicate SplitCrate(inp: Input, cratePkg: map<Name, nat>, homes: Placing, c: Name)
    requires c in inp.crates
  {
    exists b :: b in inp.crates[c].bins && HomeOf(homes, b) != Get(cratePkg, c)
  }

  predicate ProgramEdgeOf(inp: Input, cratePkg: map<Name, nat>, homes: Placing, c: Name, e: Edge) {
    && HasBin(inp, c, e.member) && HomeOf(homes, e.member) == Some(e.pkg) && SplitCrate(inp, cratePkg, homes, c)
    && e.crate in inp.crates[c].bins[e.member].mentions && e.crate != c
  }

  ghost predicate ProgramEdge(inp: Input, cratePkg: map<Name, nat>, homes: Placing, e: Edge) {
    exists c :: ProgramEdgeOf(inp, cratePkg, homes, c, e)
  }

  predicate CrateEdge(inp: Input, cratePkg: map<Name, nat>, homes: Placing, e: Edge) {
    && e.member in inp.crates && Get(cratePkg, e.member) == Some(e.pkg) && !SplitCrate(inp, cratePkg, homes, e.member)
    && e.crate in inp.crates[e.member].links && e.crate != e.member
  }

  ghost predicate IsEdge(inp: Input, cratePkg: map<Name, nat>, homes: Placing, e: Edge) {
    ProgramEdge(inp, cratePkg, homes, e) || CrateEdge(inp, cratePkg, homes, e)
  }

  /** Every link a member makes, by the package the member is in. */
  method GatherEdges(inp: Input, cratePkg: map<Name, nat>, homes: Placing) returns (edges: set<Edge>)
    ensures forall e :: e in edges <==> IsEdge(inp, cratePkg, homes, e)
  {
    var programEdges := GatherProgramEdges(inp, cratePkg, homes);
    var crateEdges := GatherCrateEdges(inp, cratePkg, homes);
    edges := programEdges + crateEdges;
  }

  method GatherProgramEdges(inp: Input, cratePkg: map<Name, nat>, homes: Placing) returns (edges: set<Edge>)
    ensures forall e :: e in edges <==> ProgramEdge(inp, cratePkg, homes, e)
  {
    edges := {};
    var todo := inp.crates.Keys;
    while todo != {}
      invariant todo <= inp.crates.Keys
      invariant forall e :: e in edges <==> exists c :: c !in todo && ProgramEdgeOf(inp, cratePkg, homes, c, e)
      decreases |todo|
    {
      var c :| c in todo;
      ghost var before := edges;
      var bins := inp.crates[c].bins;
      var more: set<Edge> := {};
      if SplitCrate(inp, cratePkg, homes, c) {
        more := set b, d | b in bins && HomeOf(homes, b).Some? && d in bins[b].mentions && d != c :: Edge(HomeOf(homes, b).value, b, d);
      }
      EdgesOfOne(inp, cratePkg, homes, c, more);
      edges := edges + more;
      todo := todo - {c};
      forall e ensures e in edges <==> exists x :: x !in todo && ProgramEdgeOf(inp, cratePkg, homes, x, e) {
        if e in before {
          var x :| x !in todo + {c} && ProgramEdgeOf(inp, cratePkg, homes, x, e);
        } else if e in more {
          assert ProgramEdgeOf(inp, cratePkg, homes, c, e);
        }
      }
    }
  }

  lemma EdgesOfOne(inp: Input, cratePkg: map<Name, nat>, homes: Placing, c: Name, more: set<Edge>)
    requires c in inp.crates
    requires var bins := inp.crates[c].bins;
      more == if SplitCrate(inp, cratePkg, homes, c)
              then set b, d | b in bins && HomeOf(homes, b).Some? && d in bins[b].mentions && d != c :: Edge(HomeOf(homes, b).value, b, d)
              else {}
    ensures forall e :: e in more <==> ProgramEdgeOf(inp, cratePkg, homes, c, e)
  {
  }

  method GatherCrateEdges(inp: Input, cratePkg: map<Name, nat>, homes: Placing) returns (edges: set<Edge>)
    ensures forall e :: e in edges <==> CrateEdge(inp, cratePkg, homes, e)
  {
    edges := {};
    var todo := inp.crates.Keys;
    while todo != {}
      invariant todo <= inp.crates.Keys
      invariant forall e :: e in edges <==> CrateEdge(inp, cratePkg, homes, e) && e.member !in todo
      decreases |todo|
    {
      var c :| c in todo;
      if c in cratePkg && !SplitCrate(inp, cratePkg, homes, c) {
        edges := edges + set d | d in inp.crates[c].links && d != c :: Edge(cratePkg[c], c, d);
      }
      todo := todo - {c};
    }
  }

  /** A link from a member of one package to a crate of another. */
  predicate Crosses(inp: Input, cratePkg: map<Name, nat>, e: Edge) {
    e.pkg < |inp.packages| && e.crate in cratePkg && cratePkg[e.crate] < |inp.packages| && cratePkg[e.crate] != e.pkg
  }

  /** The crate is an interface of its package, or the linking package declares that it depends on that package. */
  predicate Open(inp: Input, cratePkg: map<Name, nat>, e: Edge)
    requires Crosses(inp, cratePkg, e)
  {
    var target := inp.packages[cratePkg[e.crate]];
    e.crate in target.interfaces || target.name in inp.packages[e.pkg].depends
  }

  /** A link that nothing allows. */
  predicate Illegal(inp: Input, cratePkg: map<Name, nat>, e: Edge) {
    && Crosses(inp, cratePkg, e) && !Open(inp, cratePkg, e)
    && Excuse(e.member, e.crate) !in inp.packages[e.pkg].exceptions
  }

  datatype UsedExcuse = UsedExcuse(pkg: nat, index: nat)

  /** The first exception of the linking package that names a link nothing else allows. */
  predicate Rescues(inp: Input, cratePkg: map<Name, nat>, e: Edge, u: UsedExcuse) {
    && Crosses(inp, cratePkg, e) && !Open(inp, cratePkg, e) && u.pkg == e.pkg
    && var xs := inp.packages[e.pkg].exceptions;
       && u.index < |xs| && xs[u.index] == Excuse(e.member, e.crate)
       && forall j :: 0 <= j < u.index ==> xs[j] != Excuse(e.member, e.crate)
  }

  method FirstExcuse(exceptions: seq<Excuse>, x: Excuse) returns (hit: Option<nat>)
    ensures hit.None? <==> x !in exceptions
    ensures hit.Some? ==> hit.value < |exceptions| && exceptions[hit.value] == x && forall j :: 0 <= j < hit.value ==> exceptions[j] != x
  {
    var k := 0;
    while k < |exceptions|
      invariant 0 <= k <= |exceptions| && forall j :: 0 <= j < k ==> exceptions[j] != x
    {
      if exceptions[k] == x { return Some(k); }
      k := k + 1;
    }
    return None;
  }

  /** One link: the violation it is, or the exception it uses. */
  method CheckLink(inp: Input, cratePkg: map<Name, nat>, e: Edge) returns (used: set<UsedExcuse>, errors: seq<Problem>)
    ensures errors == if Illegal(inp, cratePkg, e) then [Violation(e.member, e.crate)] else []
    ensures forall u :: u in used <==> Rescues(inp, cratePkg, e, u)
  {
    used, errors := {}, [];
    if e.pkg >= |inp.packages| || e.crate !in cratePkg || cratePkg[e.crate] >= |inp.packages| { return; }
    var target, pkg := inp.packages[cratePkg[e.crate]], inp.packages[e.pkg];
    if cratePkg[e.crate] == e.pkg || e.crate in target.interfaces || target.name in pkg.depends { return; }
    var hit := FirstExcuse(pkg.exceptions, Excuse(e.member, e.crate));
    if hit.Some? {
      used := {UsedExcuse(e.pkg, hit.value)};
    } else {
      errors := [Violation(e.member, e.crate)];
    }
  }

  /** A violation of this member and crate is among the links. */
  ghost predicate Offends(inp: Input, cratePkg: map<Name, nat>, edges: set<Edge>, member: Name, crate: Name) {
    exists e :: e in edges && Illegal(inp, cratePkg, e) && e.member == member && e.crate == crate
  }

  ghost predicate UsedAmong(inp: Input, cratePkg: map<Name, nat>, edges: set<Edge>, u: UsedExcuse) {
    exists e :: e in edges && Rescues(inp, cratePkg, e, u)
  }

  lemma OffendsMore(inp: Input, cratePkg: map<Name, nat>, edges: set<Edge>, e: Edge, member: Name, crate: Name)
    ensures Offends(inp, cratePkg, edges + {e}, member, crate) <==>
      Offends(inp, cratePkg, edges, member, crate) || (Illegal(inp, cratePkg, e) && e.member == member && e.crate == crate)
  {
    if Offends(inp, cratePkg, edges, member, crate) {
      var x :| x in edges && Illegal(inp, cratePkg, x) && x.member == member && x.crate == crate;
      assert x in edges + {e};
    }
    if Illegal(inp, cratePkg, e) && e.member == member && e.crate == crate { assert e in edges + {e}; }
  }

  lemma UsedMore(inp: Input, cratePkg: map<Name, nat>, edges: set<Edge>, e: Edge, u: UsedExcuse)
    ensures UsedAmong(inp, cratePkg, edges + {e}, u) <==> UsedAmong(inp, cratePkg, edges, u) || Rescues(inp, cratePkg, e, u)
  {
    if UsedAmong(inp, cratePkg, edges, u) {
      var x :| x in edges && Rescues(inp, cratePkg, x, u);
      assert x in edges + {e};
    }
    if Rescues(inp, cratePkg, e, u) { assert e in edges + {e}; }
  }

  /** Exactly the illegal links are reported, and exactly the exceptions that rescue a link are used. */
  method CheckLinks(inp: Input, cratePkg: map<Name, nat>, edges: set<Edge>)
    returns (used: set<UsedExcuse>, errors: seq<Problem>)
    ensures forall pr :: pr in errors <==> pr.Violation? && Offends(inp, cratePkg, edges, pr.member, pr.crate)
    ensures forall u :: u in used <==> UsedAmong(inp, cratePkg, edges, u)
  {
    used, errors := {}, [];
    var todo := edges;
    ghost var done: set<Edge> := {};
    while todo != {}
      invariant todo <= edges && done == edges - todo
      invariant forall pr :: pr in errors <==> pr.Violation? && Offends(inp, cratePkg, done, pr.member, pr.crate)
      invariant forall u :: u in used <==> UsedAmong(inp, cratePkg, done, u)
      decreases |todo|
    {
      var e :| e in todo;
      var more, wrong := CheckLink(inp, cratePkg, e);
      forall pr ensures pr in errors + wrong <==> pr.Violation? && Offends(inp, cratePkg, done + {e}, pr.member, pr.crate) {
        if pr.Violation? { OffendsMore(inp, cratePkg, done, e, pr.member, pr.crate); }
      }
      forall u ensures u in used + more <==> UsedAmong(inp, cratePkg, done + {e}, u) { UsedMore(inp, cratePkg, done, e, u); }
      used, errors := used + more, errors + wrong;
      todo, done := todo - {e}, done + {e};
    }
    assert done == edges;
  }

  // ---- what a package may depend on -----------------------------------------------------------------------------

  function Find(packages: seq<Package>, name: Name): (r: Option<nat>)
    ensures r.Some? ==> r.value < |packages| && packages[r.value].name == name
    ensures r.None? ==> forall i :: 0 <= i < |packages| ==> packages[i].name != name
  {
    if packages == [] then None
    else
      var n := |packages| - 1;
      if packages[n].name == name then Some(n) else Find(packages[..n], name)
  }

  /** A declared dependency that is a package of a kind this one may depend on. */
  predicate MayDepend(inp: Input, i: nat, d: Name)
    requires i < |inp.packages|
  {
    var j := Find(inp.packages, d);
    && j.Some?
    && (inp.packages[j.value].kind == Test ==> inp.packages[i].kind == Test)
    && !(inp.packages[i].kind == Base && inp.packages[j.value].kind == Optional)
  }

  predicate KindsOk(inp: Input, i: nat)
    requires i < |inp.packages|
  {
    forall d :: d in inp.packages[i].depends ==> MayDepend(inp, i, d)
  }

  predicate ExcusesUsed(inp: Input, used: set<UsedExcuse>, i: nat)
    requires i < |inp.packages|
  {
    forall k :: 0 <= k < |inp.packages[i].exceptions| ==> UsedExcuse(i, k) in used
  }

  /** One of the first `n` exceptions of a package says this and is not used. */
  ghost predicate IdleIn(inp: Input, used: set<UsedExcuse>, i: nat, n: nat, x: Excuse)
    requires i < |inp.packages| && n <= |inp.packages[i].exceptions|
  {
    exists k :: 0 <= k < n && IdleAt(inp, used, i, k, x)
  }

  predicate IdleAt(inp: Input, used: set<UsedExcuse>, i: nat, k: nat, x: Excuse)
    requires i < |inp.packages| && k < |inp.packages[i].exceptions|
  {
    inp.packages[i].exceptions[k] == x && UsedExcuse(i, k) !in used
  }

  lemma IdleMore(inp: Input, used: set<UsedExcuse>, i: nat, n: nat)
    requires i < |inp.packages| && n < |inp.packages[i].exceptions|
    ensures forall x :: IdleIn(inp, used, i, n + 1, x) <==> IdleIn(inp, used, i, n, x) || IdleAt(inp, used, i, n, x)
  {
    forall x ensures IdleIn(inp, used, i, n + 1, x) <==> IdleIn(inp, used, i, n, x) || IdleAt(inp, used, i, n, x) {
      if IdleIn(inp, used, i, n, x) {
        var k :| 0 <= k < n && IdleAt(inp, used, i, k, x);
        assert 0 <= k < n + 1 && IdleAt(inp, used, i, k, x);
      }
    }
  }

  method CheckExcuses(inp: Input, used: set<UsedExcuse>, i: nat) returns (errors: seq<Problem>)
    requires i < |inp.packages|
    ensures errors == [] <==> ExcusesUsed(inp, used, i)
    ensures forall pr :: pr in errors <==> pr.UnusedExcuse? && IdleIn(inp, used, i, |inp.packages[i].exceptions|, pr.excuse)
  {
    errors := [];
    var xs := inp.packages[i].exceptions;
    var k := 0;
    while k < |xs|
      invariant 0 <= k <= |xs| && (errors == [] <==> forall j :: 0 <= j < k ==> UsedExcuse(i, j) in used)
      invariant forall pr :: pr in errors <==> pr.UnusedExcuse? && IdleIn(inp, used, i, k, pr.excuse)
    {
      IdleMore(inp, used, i, k);
      if UsedExcuse(i, k) !in used { errors := errors + [UnusedExcuse(xs[k])]; }
      k := k + 1;
    }
  }

  method CheckDepend(inp: Input, i: nat, d: Name) returns (errors: seq<Problem>)
    requires i < |inp.packages|
    ensures errors == [] <==> MayDepend(inp, i, d)
    ensures NoneAboutLinks(errors)
  {
    errors := [];
    var j := Find(inp.packages, d);
    if j.None? { return [DependsOnNothing(d)]; }
    var k, dk := inp.packages[i].kind, inp.packages[j.value].kind;
    if dk == Test && k != Test { errors := errors + [DependsOnTest(d)]; }
    if k == Base && dk == Optional { errors := errors + [BaseDependsOnOptional(d)]; }
  }

  method CheckKinds(inp: Input, i: nat) returns (errors: seq<Problem>)
    requires i < |inp.packages|
    ensures errors == [] <==> KindsOk(inp, i)
    ensures NoneAboutLinks(errors)
  {
    errors := [];
    var todo := inp.packages[i].depends;
    while todo != {}
      invariant todo <= inp.packages[i].depends
      invariant errors == [] <==> forall d :: d in inp.packages[i].depends - todo ==> MayDepend(inp, i, d)
      invariant NoneAboutLinks(errors)
      decreases |todo|
    {
      var d :| d in todo;
      var more := CheckDepend(inp, i, d);
      errors := errors + more;
      todo := todo - {d};
    }
    assert inp.packages[i].depends - todo == inp.packages[i].depends;
  }

  /** One of the first `n` packages has an unused exception that says this. */
  ghost predicate IdleUpTo(inp: Input, used: set<UsedExcuse>, n: nat, x: Excuse)
    requires n <= |inp.packages|
  {
    exists i :: 0 <= i < n && IdleIn(inp, used, i, |inp.packages[i].exceptions|, x)
  }

  lemma IdlePackage(inp: Input, used: set<UsedExcuse>, n: nat)
    requires n < |inp.packages|
    ensures forall x :: IdleUpTo(inp, used, n + 1, x) <==>
      IdleUpTo(inp, used, n, x) || IdleIn(inp, used, n, |inp.packages[n].exceptions|, x)
  {
    forall x ensures IdleUpTo(inp, used, n + 1, x) <==>
      IdleUpTo(inp, used, n, x) || IdleIn(inp, used, n, |inp.packages[n].exceptions|, x)
    {
      if IdleUpTo(inp, used, n, x) {
        var i :| 0 <= i < n && IdleIn(inp, used, i, |inp.packages[i].exceptions|, x);
        assert 0 <= i < n + 1 && IdleIn(inp, used, i, |inp.packages[i].exceptions|, x);
      }
    }
  }

  method CheckPackages(inp: Input, used: set<UsedExcuse>) returns (errors: seq<Problem>)
    ensures errors == [] <==> forall i :: 0 <= i < |inp.packages| ==> ExcusesUsed(inp, used, i) && KindsOk(inp, i)
    ensures forall pr :: pr in errors ==> !pr.Violation?
    ensures forall x :: UnusedExcuse(x) in errors <==> IdleUpTo(inp, used, |inp.packages|, x)
  {
    errors := [];
    var i := 0;
    while i < |inp.packages|
      invariant 0 <= i <= |inp.packages|
      invariant errors == [] <==> forall j :: 0 <= j < i ==> ExcusesUsed(inp, used, j) && KindsOk(inp, j)
      invariant forall pr :: pr in errors ==> !pr.Violation?
      invariant forall x :: UnusedExcuse(x) in errors <==> IdleUpTo(inp, used, i, x)
    {
      IdlePackage(inp, used, i);
      var excuses := CheckExcuses(inp, used, i);
      var kinds := CheckKinds(inp, i);
      errors := errors + excuses + kinds;
      i := i + 1;
    }
  }

  // ---- the whole evaluation ---------------------------------------------------------------------------------------

  /** Where crates and programs were put, whatever was reported. */
  ghost predicate MembersPlaced(inp: Input, cratePkg: map<Name, nat>, listed: map<Name, nat>, homes: Placing)
    requires InputOk(inp)
  {
    && (forall c :: c in cratePkg ==> c in inp.crates && Entry(cratePkg[c], c) in Flatten(CrateLists(inp)))
    && (forall b :: b in listed ==> b in BinNames(inp) && Entry(listed[b], b) in Flatten(ProgramLists(inp)))
    && (forall e :: e in Flatten(ProgramLists(inp)) && e.item in BinNames(inp) ==> e.item in listed)
    && homes == PlacedUpTo(inp, cratePkg, listed, |inp.order|)
  }

  ghost predicate MembersOk(inp: Input, cratePkg: map<Name, nat>, listed: map<Name, nat>)
    requires InputOk(inp)
  {
    && AllKnown(Flatten(CrateLists(inp)), inp.crates.Keys) && Distinct(Flatten(CrateLists(inp)))
    && AllKnown(Flatten(ProgramLists(inp)), BinNames(inp)) && Distinct(Flatten(ProgramLists(inp)))
    && inp.crates.Keys <= cratePkg.Keys && NoneStranded(inp, cratePkg, listed, |inp.order|)
  }

  method CheckMembers(inp: Input)
    returns (cratePkg: map<Name, nat>, listed: map<Name, nat>, homes: Placing, errors: seq<Problem>)
    requires InputOk(inp)
    ensures MembersPlaced(inp, cratePkg, listed, homes)
    ensures (errors == [] <==> MembersOk(inp, cratePkg, listed)) && NoneAboutLinks(errors)
  {
    var e1, e2, e4;
    cratePkg, e1 := Place(Flatten(CrateLists(inp)), inp.crates.Keys);
    listed, e2 := Place(Flatten(ProgramLists(inp)), BinNames(inp));
    var e3 := Unplaced(inp.crates.Keys, cratePkg);
    homes, e4 := PlacePrograms(inp, cratePkg, listed);
    errors := e1 + e2 + e3 + e4;
  }

  /** Each claim is one that was made, and each path a claim holds is owned by the longest. */
  ghost predicate ClaimsPlaced(inp: Input, claims: map<Path, Option<nat>>, owned: map<Path, Path>) {
    && (forall p :: p in claims ==> Claim(p, claims[p]) in AllClaims(inp, 0))
    && (forall c :: c in AllClaims(inp, 0) ==> c.prefix in claims)
    && OwnedByLongest(claims.Keys, inp.tracked, owned)
  }

  ghost predicate HomesOk(inp: Input, claims: map<Path, Option<nat>>) {
    DistinctClaims(AllClaims(inp, 0)) && Housed(claims.Keys, inp.tracked)
  }

  method CheckClaims(inp: Input) returns (claims: map<Path, Option<nat>>, owned: map<Path, Path>, errors: seq<Problem>)
    ensures ClaimsPlaced(inp, claims, owned)
    ensures (errors == [] <==> HomesOk(inp, claims)) && NoneAboutLinks(errors)
  {
    var e1, e2;
    claims, e1 := GatherClaims(AllClaims(inp, 0));
    owned, e2 := CheckHomes(claims.Keys, inp.tracked);
    errors := e1 + e2;
  }

  ghost predicate LinksOk(inp: Input, cratePkg: map<Name, nat>, homes: Placing) {
    forall e :: IsEdge(inp, cratePkg, homes, e) ==> !Illegal(inp, cratePkg, e)
  }

  /** The exception at this place excuses a link there is. */
  ghost predicate InUse(inp: Input, cratePkg: map<Name, nat>, homes: Placing, u: UsedExcuse) {
    exists e :: IsEdge(inp, cratePkg, homes, e) && Rescues(inp, cratePkg, e, u)
  }

  ghost predicate PackagesOk(inp: Input, cratePkg: map<Name, nat>, homes: Placing) {
    forall i :: 0 <= i < |inp.packages| ==> KindsOk(inp, i) && AllInUse(inp, cratePkg, homes, i)
  }

  ghost predicate AllInUse(inp: Input, cratePkg: map<Name, nat>, homes: Placing, i: nat)
    requires i < |inp.packages|
  {
    forall k :: 0 <= k < |inp.packages[i].exceptions| ==> InUse(inp, cratePkg, homes, UsedExcuse(i, k))
  }

  /** A link nothing allows is reported by the member and the crate it joins. */
  ghost predicate LinkReported(inp: Input, cratePkg: map<Name, nat>, homes: Placing, member: Name, crate: Name) {
    exists e :: IsEdge(inp, cratePkg, homes, e) && Illegal(inp, cratePkg, e) && e.member == member && e.crate == crate
  }

  /** An exception that rescues no link is reported by what it says. */
  ghost predicate IdleReported(inp: Input, cratePkg: map<Name, nat>, homes: Placing, x: Excuse) {
    exists i: nat, k: nat :: IdlePlace(inp, cratePkg, homes, i, k, x)
  }

  ghost predicate IdlePlace(inp: Input, cratePkg: map<Name, nat>, homes: Placing, i: nat, k: nat, x: Excuse) {
    && i < |inp.packages| && k < |inp.packages[i].exceptions| && inp.packages[i].exceptions[k] == x
    && !InUse(inp, cratePkg, homes, UsedExcuse(i, k))
  }

  method CheckBoundaries(inp: Input, cratePkg: map<Name, nat>, homes: Placing) returns (errors: seq<Problem>)
    ensures errors == [] <==> LinksOk(inp, cratePkg, homes) && PackagesOk(inp, cratePkg, homes)
    ensures forall m, c :: Violation(m, c) in errors <==> LinkReported(inp, cratePkg, homes, m, c)
    ensures forall x :: UnusedExcuse(x) in errors <==> IdleReported(inp, cratePkg, homes, x)
  {
    var edges := GatherEdges(inp, cratePkg, homes);
    var used, e1 := CheckLinks(inp, cratePkg, edges);
    var e2 := CheckPackages(inp, used);
    errors := e1 + e2;
    UsedIsInUse(inp, cratePkg, homes, edges, used);
    OffendsIsReported(inp, cratePkg, homes, edges);
    IdleIsReported(inp, cratePkg, homes, used);
    NoErrorsNoOffence(inp, cratePkg, homes, edges, e1);
  }

  lemma NoErrorsNoOffence(inp: Input, cratePkg: map<Name, nat>, homes: Placing, edges: set<Edge>, errors: seq<Problem>)
    requires forall e :: e in edges <==> IsEdge(inp, cratePkg, homes, e)
    requires forall pr :: pr in errors <==> pr.Violation? && Offends(inp, cratePkg, edges, pr.member, pr.crate)
    ensures errors == [] <==> LinksOk(inp, cratePkg, homes)
  {
    if errors == [] {
      forall e | IsEdge(inp, cratePkg, homes, e) ensures !Illegal(inp, cratePkg, e) {
        assert Violation(e.member, e.crate) !in errors;
        assert !Offends(inp, cratePkg, edges, e.member, e.crate);
        assert e in edges;
      }
    } else {
      var pr := errors[0];
      assert pr in errors;
      var e :| e in edges && Illegal(inp, cratePkg, e) && e.member == pr.member && e.crate == pr.crate;
    }
  }

  lemma OffendsIsReported(inp: Input, cratePkg: map<Name, nat>, homes: Placing, edges: set<Edge>)
    requires forall e :: e in edges <==> IsEdge(inp, cratePkg, homes, e)
    ensures forall m, c :: Offends(inp, cratePkg, edges, m, c) <==> LinkReported(inp, cratePkg, homes, m, c)
  {
    forall m, c ensures Offends(inp, cratePkg, edges, m, c) <==> LinkReported(inp, cratePkg, homes, m, c) {
      if LinkReported(inp, cratePkg, homes, m, c) {
        var e :| IsEdge(inp, cratePkg, homes, e) && Illegal(inp, cratePkg, e) && e.member == m && e.crate == c;
        assert e in edges;
      }
    }
  }

  lemma IdleIsReported(inp: Input, cratePkg: map<Name, nat>, homes: Placing, used: set<UsedExcuse>)
    requires forall u :: u in used <==> InUse(inp, cratePkg, homes, u)
    ensures forall x :: IdleUpTo(inp, used, |inp.packages|, x) <==> IdleReported(inp, cratePkg, homes, x)
  {
    forall x ensures IdleUpTo(inp, used, |inp.packages|, x) <==> IdleReported(inp, cratePkg, homes, x) {
      if IdleUpTo(inp, used, |inp.packages|, x) {
        var i :| 0 <= i < |inp.packages| && IdleIn(inp, used, i, |inp.packages[i].exceptions|, x);
        var k :| 0 <= k < |inp.packages[i].exceptions| && IdleAt(inp, used, i, k, x);
        assert IdlePlace(inp, cratePkg, homes, i, k, x);
      }
      if IdleReported(inp, cratePkg, homes, x) {
        var i: nat, k: nat :| IdlePlace(inp, cratePkg, homes, i, k, x);
        assert IdleAt(inp, used, i, k, x);
        assert IdleIn(inp, used, i, |inp.packages[i].exceptions|, x);
      }
    }
  }

  lemma UsedIsInUse(inp: Input, cratePkg: map<Name, nat>, homes: Placing, edges: set<Edge>, used: set<UsedExcuse>)
    requires forall e :: e in edges <==> IsEdge(inp, cratePkg, homes, e)
    requires forall u :: u in used <==> UsedAmong(inp, cratePkg, edges, u)
    ensures forall u :: u in used <==> InUse(inp, cratePkg, homes, u)
    ensures forall i :: 0 <= i < |inp.packages| ==> (ExcusesUsed(inp, used, i) <==> AllInUse(inp, cratePkg, homes, i))
  {
    forall u ensures u in used <==> InUse(inp, cratePkg, homes, u) {
      if InUse(inp, cratePkg, homes, u) {
        var e :| IsEdge(inp, cratePkg, homes, e) && Rescues(inp, cratePkg, e, u);
        assert e in edges;
      }
    }
  }

  // ---- the subtree-grants note --------------------------------------------------------------------------------------

  /** A crate that carries the note links the scope crate, and its package says so. */
  predicate NoteOk(inp: Input, cratePkg: map<Name, nat>, c: Name)
    requires c in inp.crates
  {
    inp.crates[c].carries ==>
      && SUBTREE_SCOPE in inp.crates[c].links
      && (c in cratePkg && cratePkg[c] < |inp.packages| ==> inp.packages[cratePkg[c]].grants)
  }

  /** A package that says so has a crate that carries it. */
  predicate GrantOk(inp: Input, cratePkg: map<Name, nat>, i: nat)
    requires i < |inp.packages|
  {
    inp.packages[i].grants ==> exists c :: c in inp.crates && inp.crates[c].carries && Get(cratePkg, c) == Some(i)
  }

  ghost predicate NotesOk(inp: Input, cratePkg: map<Name, nat>) {
    && (forall c :: c in inp.crates ==> NoteOk(inp, cratePkg, c))
    && forall i :: 0 <= i < |inp.packages| ==> GrantOk(inp, cratePkg, i)
  }

  method CheckNote(inp: Input, cratePkg: map<Name, nat>, c: Name) returns (errors: seq<Problem>)
    requires c in inp.crates
    ensures (errors == [] <==> NoteOk(inp, cratePkg, c)) && NoneAboutLinks(errors)
  {
    errors := [];
    if inp.crates[c].carries {
      if SUBTREE_SCOPE !in inp.crates[c].links { errors := errors + [NoteWithoutScope(c)]; }
      if c in cratePkg && cratePkg[c] < |inp.packages| && !inp.packages[cratePkg[c]].grants {
        errors := errors + [NoteUndeclared(c)];
      }
    }
  }

  method CheckNotes(inp: Input, cratePkg: map<Name, nat>) returns (errors: seq<Problem>)
    ensures (errors == [] <==> NotesOk(inp, cratePkg)) && NoneAboutLinks(errors)
  {
    errors := [];
    var todo := inp.crates.Keys;
    while todo != {}
      invariant todo <= inp.crates.Keys
      invariant (errors == [] <==> forall c :: c in inp.crates && c !in todo ==> NoteOk(inp, cratePkg, c)) && NoneAboutLinks(errors)
      decreases |todo|
    {
      var c :| c in todo;
      var more := CheckNote(inp, cratePkg, c);
      errors := errors + more;
      todo := todo - {c};
    }
    var i := 0;
    while i < |inp.packages|
      invariant 0 <= i <= |inp.packages|
      invariant NoneAboutLinks(errors)
      invariant errors == [] <==>
        && (forall c :: c in inp.crates ==> NoteOk(inp, cratePkg, c))
        && forall j :: 0 <= j < i ==> GrantOk(inp, cratePkg, j)
    {
      if !GrantOk(inp, cratePkg, i) { errors := errors + [GrantsWithoutNote(inp.packages[i].name)]; }
      i := i + 1;
    }
  }

  datatype Result = Result(
    errors: seq<Problem>, cratePkg: map<Name, nat>, listed: map<Name, nat>, homes: Placing,
    claims: map<Path, Option<nat>>, owned: map<Path, Path>)

  ghost predicate Computed(inp: Input, r: Result)
    requires InputOk(inp)
  {
    MembersPlaced(inp, r.cratePkg, r.listed, r.homes) && ClaimsPlaced(inp, r.claims, r.owned)
  }

  ghost predicate Clean(inp: Input, r: Result)
    requires InputOk(inp)
  {
    && MembersOk(inp, r.cratePkg, r.listed) && HomesOk(inp, r.claims)
    && LinksOk(inp, r.cratePkg, r.homes) && PackagesOk(inp, r.cratePkg, r.homes) && NotesOk(inp, r.cratePkg)
  }

  /**
   No error is reported exactly when membership, homes, links, dependencies and notes are all in order; and then
   the tree has the structure the checker's definitions promise.
   */
  method Evaluate(inp: Input) returns (r: Result)
    requires InputOk(inp)
    ensures Computed(inp, r) && (r.errors == [] <==> Clean(inp, r))
    ensures r.errors == [] ==> forall c :: c in inp.crates ==> OnlyIn(CrateLists(inp), r.cratePkg, c)
    ensures r.errors == [] ==> forall c, b :: HasBin(inp, c, b) ==> ProgramHoused(inp, r, b)
    ensures r.errors == [] ==> forall path :: path in inp.tracked ==> path in r.owned && Longest(r.claims.Keys, path, r.owned[path])
    ensures r.errors == [] ==> forall e :: CrossLink(inp, r, e) ==> LinkAllowed(inp, r, e)
    ensures forall m, c :: Violation(m, c) in r.errors <==>
      exists e :: CrossLink(inp, r, e) && !LinkAllowed(inp, r, e) && e.member == m && e.crate == c
    ensures forall x :: UnusedExcuse(x) in r.errors <==> IdleReported(inp, r.cratePkg, r.homes, x)
    ensures r.errors == [] ==> forall i :: 0 <= i < |inp.packages| ==> (inp.packages[i].grants <==> CarriesNote(inp, r, i))
  {
    var cratePkg, listed, homes, e1 := CheckMembers(inp);
    var claims, owned, e2 := CheckClaims(inp);
    var e3 := CheckBoundaries(inp, cratePkg, homes);
    var e4 := CheckNotes(inp, cratePkg);
    r := Result(e1 + e2 + e3 + e4, cratePkg, listed, homes, claims, owned);
    if r.errors == [] { CleanMeans(inp, r); }
    AboutLinksAre(e1, e2, e3, e4);
    ReportedIsForbidden(inp, r);
  }

  lemma AboutLinksAre(e1: seq<Problem>, e2: seq<Problem>, e3: seq<Problem>, e4: seq<Problem>)
    requires NoneAboutLinks(e1) && NoneAboutLinks(e2) && NoneAboutLinks(e4)
    ensures forall pr: Problem :: pr.Violation? || pr.UnusedExcuse? ==> (pr in e1 + e2 + e3 + e4 <==> pr in e3)
  {
  }

  /** What is illegal is a cross link that is not allowed. */
  lemma ReportedIsForbidden(inp: Input, r: Result)
    requires InputOk(inp) && MembersPlaced(inp, r.cratePkg, r.listed, r.homes)
    ensures forall m, c :: LinkReported(inp, r.cratePkg, r.homes, m, c) <==>
      exists e :: CrossLink(inp, r, e) && !LinkAllowed(inp, r, e) && e.member == m && e.crate == c
  {
    forall e | IsEdge(inp, r.cratePkg, r.homes, e)
      ensures Illegal(inp, r.cratePkg, e) <==> CrossLink(inp, r, e) && !LinkAllowed(inp, r, e)
    {
      if e.crate in r.cratePkg { FlattenHas(CrateLists(inp), r.cratePkg[e.crate], e.crate); }
    }
    forall m, c ensures LinkReported(inp, r.cratePkg, r.homes, m, c) <==>
      exists e :: CrossLink(inp, r, e) && !LinkAllowed(inp, r, e) && e.member == m && e.crate == c
    {
      if LinkReported(inp, r.cratePkg, r.homes, m, c) {
        var e :| IsEdge(inp, r.cratePkg, r.homes, e) && Illegal(inp, r.cratePkg, e) && e.member == m && e.crate == c;
        assert CrossLink(inp, r, e) && !LinkAllowed(inp, r, e);
      }
    }
  }

  lemma CleanMeans(inp: Input, r: Result)
    requires InputOk(inp) && Computed(inp, r) && Clean(inp, r)
    ensures forall c :: c in inp.crates ==> OnlyIn(CrateLists(inp), r.cratePkg, c)
    ensures forall c, b :: HasBin(inp, c, b) ==> ProgramHoused(inp, r, b)
    ensures forall path :: path in inp.tracked ==> path in r.owned && Longest(r.claims.Keys, path, r.owned[path])
    ensures forall e :: CrossLink(inp, r, e) ==> LinkAllowed(inp, r, e)
    ensures forall i :: 0 <= i < |inp.packages| ==> (inp.packages[i].grants <==> CarriesNote(inp, r, i))
  {
    forall c | c in inp.crates ensures OnlyIn(CrateLists(inp), r.cratePkg, c) { EveryCrateHasOnePackage(inp, r, c); }
    forall c, b | HasBin(inp, c, b) ensures ProgramHoused(inp, r, b) { EveryProgramHasOnePackage(inp, r, c, b); }
    forall path | path in inp.tracked ensures path in r.owned && Longest(r.claims.Keys, path, r.owned[path]) {
      EveryPathHasItsLongestClaim(inp, r, path);
    }
    forall e | CrossLink(inp, r, e) ensures LinkAllowed(inp, r, e) { EveryCrossLinkIsAllowed(inp, r, e); }
    forall i | 0 <= i < |inp.packages| ensures inp.packages[i].grants <==> CarriesNote(inp, r, i) {
      GrantsMatchNotes(inp, r, i);
    }
  }

  // ---- what a clean tree has -----------------------------------------------------------------------------------------

  /** Every crate is listed by exactly one package. */
  lemma EveryCrateHasOnePackage(inp: Input, r: Result, c: Name)
    requires InputOk(inp) && Computed(inp, r) && Clean(inp, r) && c in inp.crates
    ensures OnlyIn(CrateLists(inp), r.cratePkg, c)
  {
    DistinctMeansOne(CrateLists(inp), r.cratePkg, c);
  }

  /** A program nobody lists is in no package's list. */
  lemma ListedNowhere(lists: seq<seq<Name>>, listed: map<Name, nat>, known: set<Name>, b: Name, i: nat)
    requires forall e :: e in Flatten(lists) && e.item in known ==> e.item in listed
    requires b in known && b !in listed && i < |lists|
    ensures b !in lists[i]
  {
    FlattenHas(lists, i, b);
  }

  lemma NotInAnyList(inp: Input, listed: map<Name, nat>, b: Name)
    requires forall e :: e in Flatten(ProgramLists(inp)) && e.item in BinNames(inp) ==> e.item in listed
    requires b in BinNames(inp) && b !in listed
    ensures forall i :: 0 <= i < |inp.packages| ==> b !in inp.packages[i].programs
  {
    forall i | 0 <= i < |inp.packages| ensures b !in inp.packages[i].programs {
      ListedNowhere(ProgramLists(inp), listed, BinNames(inp), b, i);
    }
  }

  /** The place of the first crate read that has a program of this name. */
  function FirstWith(inp: Input, b: Name, from: nat): (n: nat)
    requires InputOk(inp) && from <= |inp.order|
    ensures from <= n <= |inp.order| && (n < |inp.order| ==> HasBin(inp, inp.order[n], b))
    ensures forall k :: from <= k < n ==> !HasBin(inp, inp.order[k], b)
    decreases |inp.order| - from
  {
    if from == |inp.order| || HasBin(inp, inp.order[from], b) then from else FirstWith(inp, b, from + 1)
  }

  /** What is placed stays where it is. */
  lemma {:induction false} PlacedStays(inp: Input, cratePkg: map<Name, nat>, listed: map<Name, nat>, n: nat, m: nat, b: Name)
    requires InputOk(inp) && n <= m <= |inp.order| && b in PlacedUpTo(inp, cratePkg, listed, n)
    ensures b in PlacedUpTo(inp, cratePkg, listed, m)
    ensures PlacedUpTo(inp, cratePkg, listed, m)[b] == PlacedUpTo(inp, cratePkg, listed, n)[b]
    decreases m
  {
    if n < m { PlacedStays(inp, cratePkg, listed, n, m - 1, b); }
  }

  lemma {:induction false} NotYetPlaced(inp: Input, cratePkg: map<Name, nat>, listed: map<Name, nat>, n: nat, b: Name)
    requires InputOk(inp) && n <= |inp.order| && b !in listed && forall k :: 0 <= k < n ==> !HasBin(inp, inp.order[k], b)
    ensures b !in PlacedUpTo(inp, cratePkg, listed, n)
    decreases n
  {
    if n > 0 {
      NotYetPlaced(inp, cratePkg, listed, n - 1, b);
      assert !HasBin(inp, inp.order[n - 1], b);
    }
  }

  /** A program's package: the only one that lists it, or that of the first crate read that has one of its name. */
  ghost predicate ProgramHoused(inp: Input, r: Result, b: Name)
    requires InputOk(inp)
  {
    && b in r.homes
    && if b in r.listed then OnlyIn(ProgramLists(inp), r.listed, b) && r.homes[b] == Some(r.listed[b])
       else
         && (forall i :: 0 <= i < |inp.packages| ==> b !in inp.packages[i].programs)
         && FirstWith(inp, b, 0) < |inp.order|
         && var c := inp.order[FirstWith(inp, b, 0)];
            OnlyIn(CrateLists(inp), r.cratePkg, c) && r.homes[b] == Some(r.cratePkg[c])
  }

  lemma FirstWithExists(inp: Input, c: Name, b: Name)
    requires InputOk(inp) && HasBin(inp, c, b)
    ensures FirstWith(inp, b, 0) < |inp.order|
  {
    var k :| 0 <= k < |inp.order| && inp.order[k] == c;
  }

  /** Every program name is in exactly one package. */
  lemma EveryProgramHasOnePackage(inp: Input, r: Result, c: Name, b: Name)
    requires InputOk(inp) && MembersPlaced(inp, r.cratePkg, r.listed, r.homes) && MembersOk(inp, r.cratePkg, r.listed)
    requires HasBin(inp, c, b)
    ensures ProgramHoused(inp, r, b)
  {
    if b in r.listed {
      DistinctMeansOne(ProgramLists(inp), r.listed, b);
      PlacedStays(inp, r.cratePkg, r.listed, 0, |inp.order|, b);
    } else {
      FirstWithExists(inp, c, b);
      NotInAnyList(inp, r.listed, b);
      DistinctMeansOne(CrateLists(inp), r.cratePkg, inp.order[FirstWith(inp, b, 0)]);
      UnlistedIsFirsts(inp, r.cratePkg, r.listed, b);
    }
  }

  lemma UnlistedIsFirsts(inp: Input, cratePkg: map<Name, nat>, listed: map<Name, nat>, b: Name)
    requires InputOk(inp) && NoneStranded(inp, cratePkg, listed, |inp.order|)
    requires b !in listed && FirstWith(inp, b, 0) < |inp.order|
    ensures var homes := PlacedUpTo(inp, cratePkg, listed, |inp.order|);
      b in homes && homes[b] == Get(cratePkg, inp.order[FirstWith(inp, b, 0)])
  {
    var n := FirstWith(inp, b, 0);
    FirstPlaces(inp, cratePkg, listed, n, b);
    PlacedStays(inp, cratePkg, listed, n + 1, |inp.order|, b);
  }

  lemma FirstPlaces(inp: Input, cratePkg: map<Name, nat>, listed: map<Name, nat>, n: nat, b: Name)
    requires InputOk(inp) && NoneStranded(inp, cratePkg, listed, |inp.order|) && b !in listed
    requires n < |inp.order| && HasBin(inp, inp.order[n], b) && forall k :: 0 <= k < n ==> !HasBin(inp, inp.order[k], b)
    ensures var placed := PlacedUpTo(inp, cratePkg, listed, n + 1);
      b in placed && placed[b] == Get(cratePkg, inp.order[n])
  {
    NotYetPlaced(inp, cratePkg, listed, n, b);
    assert !Strands(inp, cratePkg, listed, n);
  }

  /**
   So an unlisted program is in its own crate's package if and only if that is also the package of the first crate
   read with a program of its name; in particular when no other crate has one.
   */
  lemma OwnPackageIff(inp: Input, r: Result, c: Name, b: Name)
    requires InputOk(inp) && ProgramHoused(inp, r, b) && HasBin(inp, c, b) && b !in r.listed
    ensures FirstWith(inp, b, 0) < |inp.order|
    ensures var first := inp.order[FirstWith(inp, b, 0)];
      r.homes[b] == Get(r.cratePkg, c) <==> Get(r.cratePkg, c) == Get(r.cratePkg, first)
    ensures (forall x :: HasBin(inp, x, b) ==> x == c) ==> r.homes[b] == Get(r.cratePkg, c)
  {
    var first := inp.order[FirstWith(inp, b, 0)];
    assert HasBin(inp, first, b) && r.homes[b] == Some(r.cratePkg[first]) == Get(r.cratePkg, first);
  }

  /** A crate some of whose programs another package lists, while nobody lists another of them. */
  predicate LeftBehind(inp: Input, cratePkg: map<Name, nat>, listed: map<Name, nat>, c: Name)
    requires c in inp.crates
  {
    && (exists b :: b in inp.crates[c].bins && b in listed && Some(listed[b]) != Get(cratePkg, c))
    && exists b :: b in inp.crates[c].bins && b !in listed
  }

  /** Where no two crates have a program of one name, a program is stranded exactly in a crate left behind. */
  lemma StrandedIff(inp: Input, cratePkg: map<Name, nat>, listed: map<Name, nat>)
    requires InputOk(inp) && forall c, d, b :: HasBin(inp, c, b) && HasBin(inp, d, b) ==> c == d
    requires forall i, j :: 0 <= i < j < |inp.order| ==> inp.order[i] != inp.order[j]
    ensures NoneStranded(inp, cratePkg, listed, |inp.order|) <==>
      forall c :: c in inp.crates ==> !LeftBehind(inp, cratePkg, listed, c)
  {
    forall n | 0 <= n < |inp.order|
      ensures Strands(inp, cratePkg, listed, n) <==> LeftBehind(inp, cratePkg, listed, inp.order[n])
    {
      StrandsIff(inp, cratePkg, listed, n);
    }
    StrandedByCrate(inp, cratePkg, listed);
  }

  lemma StrandedByCrate(inp: Input, cratePkg: map<Name, nat>, listed: map<Name, nat>)
    requires InputOk(inp)
    requires forall n :: 0 <= n < |inp.order| ==>
      (Strands(inp, cratePkg, listed, n) <==> LeftBehind(inp, cratePkg, listed, inp.order[n]))
    ensures NoneStranded(inp, cratePkg, listed, |inp.order|) <==>
      forall c :: c in inp.crates ==> !LeftBehind(inp, cratePkg, listed, c)
  {
    forall c | c in inp.crates && NoneStranded(inp, cratePkg, listed, |inp.order|)
      ensures !LeftBehind(inp, cratePkg, listed, c)
    {
      var n :| 0 <= n < |inp.order| && inp.order[n] == c;
      assert !Strands(inp, cratePkg, listed, n);
    }
  }

  lemma StrandsIff(inp: Input, cratePkg: map<Name, nat>, listed: map<Name, nat>, n: nat)
    requires InputOk(inp) && n < |inp.order|
    requires forall c, d, b :: HasBin(inp, c, b) && HasBin(inp, d, b) ==> c == d
    requires forall i, j :: 0 <= i < j < |inp.order| ==> inp.order[i] != inp.order[j]
    ensures Strands(inp, cratePkg, listed, n) <==> LeftBehind(inp, cratePkg, listed, inp.order[n])
  {
    var c, placed := inp.order[n], PlacedUpTo(inp, cratePkg, listed, n);
    forall b | b in inp.crates[c].bins
      ensures b in placed <==> b in listed
      ensures b in listed ==> placed[b] == Some(listed[b])
    {
      assert HasBin(inp, c, b);
      if b in listed {
        PlacedStays(inp, cratePkg, listed, 0, n, b);
      } else {
        NotYetPlaced(inp, cratePkg, listed, n, b);
      }
    }
  }

  /** Two packages of one crate each, and both crates build a program of the same name, which nobody lists. */
  function SharedName(): Input {
    var x := Crate("x/", {}, map["t" := Bin("x/t.rs", {})], false);
    var y := Crate("y/", {}, map["t" := Bin("y/t.rs", {})], false);
    Input([Package("p", "packages/p", Base, ["x"], [], [], {}, {}, [], false),
           Package("q", "packages/q", Base, ["y"], [], [], {}, {}, [], false)],
          map["x" := x, "y" := y], ["x", "y"], [], {"x/t.rs", "y/t.rs", "packages/p", "packages/q"})
  }

  /** The second crate's program is put in the first crate's package, and nothing is reported. */
  lemma SharedNameMisplaces()
    ensures var inp, crates, listed := SharedName(), map["x" := 0, "y" := 1], map[];
      && InputOk(inp) && NoneStranded(inp, crates, listed, |inp.order|)
      && HasBin(inp, "y", "t") && HomeOf(PlacedUpTo(inp, crates, listed, |inp.order|), "t") == Some(0)
  {
    var inp, crates: map<Name, nat>, listed: map<Name, nat> := SharedName(), map["x" := 0, "y" := 1], map[];
    assert "x"[0] != "y"[0] && "p"[0] != "q"[0];
    assert PlacedUpTo(inp, crates, listed, 0) == map[];
    assert PlacedUpTo(inp, crates, listed, 1) == map["t" := Some(0)];
    assert Scattered({"t"}, map["t" := Some(0)], Some(1)) by { assert "t" in {"t"}; }
    assert PlacedUpTo(inp, crates, listed, 2) == map["t" := Some(0)];
  }

  /** The last crate read with a program of this name is the one whose source is meant. */
  lemma {:induction false} SourceIsTheLast(inp: Input, n: nat, b: Name, path: Path)
    requires InputOk(inp) && n <= |inp.order|
    ensures SourceOf(inp, n, b) == Some(path) <==>
      exists k :: 0 <= k < n && HasBin(inp, inp.order[k], b) && inp.crates[inp.order[k]].bins[b].source == path
                  && forall j :: k < j < n ==> !HasBin(inp, inp.order[j], b)
  {
    if n > 0 { SourceIsTheLast(inp, n - 1, b, path); }
  }

  /** This name is one of the list, and its source is this path. */
  predicate Sourced(inp: Input, names: seq<Name>, b: Name, path: Path) {
    b in names && SourceOf(inp, |inp.order|, b) == Some(path)
  }

  /** What a package owns by naming it: a crate's home, a program's source, a path, its definition. */
  ghost predicate Names(inp: Input, pkg: Package, path: Path) {
    || (exists c :: c in pkg.crates && c in inp.crates && inp.crates[c].home == path)
    || (exists b :: Sourced(inp, pkg.programs, b, path))
    || path in pkg.paths || path == pkg.file
  }

  lemma {:induction false} CrateClaimsAre(inp: Input, i: nat, names: seq<Name>, c: Claim)
    ensures c in CrateClaims(inp, i, names) <==>
      c.owner == Some(i) && exists n :: n in names && n in inp.crates && inp.crates[n].home == c.prefix
  {
    if names != [] {
      CrateClaimsAre(inp, i, names[1..], c);
      assert forall n :: n in names <==> n == names[0] || n in names[1..];
    }
  }

  lemma {:induction false} ProgramClaimsAre(inp: Input, i: nat, names: seq<Name>, c: Claim)
    ensures c in ProgramClaims(inp, i, names) <==>
      c.owner == Some(i) && exists b :: Sourced(inp, names, b, c.prefix)
  {
    if names != [] {
      var rest := names[1..];
      ProgramClaimsAre(inp, i, rest, c);
      assert forall b :: Sourced(inp, names, b, c.prefix) <==> Sourced(inp, [names[0]], b, c.prefix) || Sourced(inp, rest, b, c.prefix)
      by {
        assert forall n :: n in names <==> n == names[0] || n in rest;
      }
      assert Sourced(inp, [names[0]], names[0], c.prefix) <==> SourceOf(inp, |inp.order|, names[0]) == Some(c.prefix);
      assert Sourced(inp, names, names[0], c.prefix) <==> SourceOf(inp, |inp.order|, names[0]) == Some(c.prefix);
    }
  }

  lemma PathClaimsAre(owner: Option<nat>, paths: seq<Path>, c: Claim)
    ensures c in PathClaims(owner, paths) <==> c.owner == owner && c.prefix in paths
  {
    var claims := PathClaims(owner, paths);
    assert forall j :: 0 <= j < |paths| ==> claims[j] == Claim(paths[j], owner);
  }

  lemma PackageClaimsAre(inp: Input, i: nat, c: Claim)
    requires i < |inp.packages|
    ensures c in PackageClaims(inp, i) <==> c.owner == Some(i) && Names(inp, inp.packages[i], c.prefix)
  {
    var pkg := inp.packages[i];
    CrateClaimsAre(inp, i, pkg.crates, c);
    ProgramClaimsAre(inp, i, pkg.programs, c);
    PathClaimsAre(Some(i), pkg.paths, c);
  }

  /** The claims are exactly what some package names, for that package, and the homes outside every package. */
  lemma {:induction false} ClaimsAre(inp: Input, i: nat, c: Claim)
    requires i <= |inp.packages|
    ensures c in AllClaims(inp, i) <==>
      || (c.owner.None? && c.prefix in inp.homes)
      || (c.owner.Some? && i <= c.owner.value < |inp.packages| && Names(inp, inp.packages[c.owner.value], c.prefix))
    decreases |inp.packages| - i
  {
    if i == |inp.packages| {
      PathClaimsAre(None, inp.homes, c);
    } else {
      PackageClaimsAre(inp, i, c);
      ClaimsAre(inp, i + 1, c);
    }
  }

  /** Every tracked path is owned by its longest claiming prefix, and no prefix is claimed twice. */
  lemma EveryPathHasItsLongestClaim(inp: Input, r: Result, path: Path)
    requires InputOk(inp) && Computed(inp, r) && Clean(inp, r) && path in inp.tracked
    ensures path in r.owned && Longest(r.claims.Keys, path, r.owned[path])
    ensures DistinctClaims(AllClaims(inp, 0))
  {
    assert Claimed(r.claims.Keys, path);
  }

  /** A link from a member of one package to another package's crate. */
  ghost predicate CrossLink(inp: Input, r: Result, e: Edge) {
    && IsEdge(inp, r.cratePkg, r.homes, e) && e.pkg < |inp.packages|
    && e.crate in r.cratePkg && r.cratePkg[e.crate] != e.pkg
  }

  /** It is to an interface, under a declared dependency, or excused. */
  predicate LinkAllowed(inp: Input, r: Result, e: Edge)
    requires e.pkg < |inp.packages| && e.crate in r.cratePkg
  {
    && r.cratePkg[e.crate] < |inp.packages|
    && var target := inp.packages[r.cratePkg[e.crate]];
       || e.crate in target.interfaces
       || target.name in inp.packages[e.pkg].depends
       || Excuse(e.member, e.crate) in inp.packages[e.pkg].exceptions
  }

  lemma EveryCrossLinkIsAllowed(inp: Input, r: Result, e: Edge)
    requires InputOk(inp) && Computed(inp, r) && Clean(inp, r) && CrossLink(inp, r, e)
    ensures LinkAllowed(inp, r, e)
  {
    FlattenHas(CrateLists(inp), r.cratePkg[e.crate], e.crate);
    assert !Illegal(inp, r.cratePkg, e);
  }

  /** Some crate of the package carries the subtree-grants note, and links the scope crate. */
  predicate CarriesNote(inp: Input, r: Result, i: nat) {
    exists c :: c in inp.crates && inp.crates[c].carries && SUBTREE_SCOPE in inp.crates[c].links && Get(r.cratePkg, c) == Some(i)
  }

  lemma GrantsMatchNotes(inp: Input, r: Result, i: nat)
    requires InputOk(inp) && Clean(inp, r) && i < |inp.packages|
    ensures inp.packages[i].grants <==> CarriesNote(inp, r, i)
  {
    assert GrantOk(inp, r.cratePkg, i);
    if inp.packages[i].grants {
      var c :| c in inp.crates && inp.crates[c].carries && Get(r.cratePkg, c) == Some(i);
      assert NoteOk(inp, r.cratePkg, c);
    }
    if CarriesNote(inp, r, i) {
      var c :| c in inp.crates && inp.crates[c].carries && Get(r.cratePkg, c) == Some(i);
      assert NoteOk(inp, r.cratePkg, c);
    }
  }

  /** The kinds are in order exactly when every dependency is a package, none a test's but of a test, none optional of a base. */
  lemma KindsOkIff(inp: Input, i: nat)
    requires InputOk(inp) && i < |inp.packages|
    ensures KindsOk(inp, i) <==>
      forall d :: d in inp.packages[i].depends ==>
        exists j :: 0 <= j < |inp.packages| && inp.packages[j].name == d
          && inp.packages[j].kind in (match inp.packages[i].kind
                                      case Base => {Base, Sdk}
                                      case Optional => {Base, Optional, Sdk}
                                      case Sdk => {Base, Optional, Sdk}
                                      case Test => {Base, Optional, Sdk, Test})
  {
    forall d | d in inp.packages[i].depends
      ensures MayDepend(inp, i, d) <==>
        exists j :: 0 <= j < |inp.packages| && inp.packages[j].name == d
          && inp.packages[j].kind in (match inp.packages[i].kind
                                      case Base => {Base, Sdk}
                                      case Optional => {Base, Optional, Sdk}
                                      case Sdk => {Base, Optional, Sdk}
                                      case Test => {Base, Optional, Sdk, Test})
    {
      var k := Find(inp.packages, d);
      assert k.Some? ==> forall j :: 0 <= j < |inp.packages| && inp.packages[j].name == d ==> j == k.value;
    }
  }

  /** A crate all of whose programs are in its own package makes its links as one member, and its programs none. */
  lemma WholeCrateLinks(inp: Input, cratePkg: map<Name, nat>, homes: Placing, c: Name, i: nat, d: Name)
    requires c in inp.crates && Get(cratePkg, c) == Some(i) && d != c
    requires forall b :: b in inp.crates[c].bins ==> b in homes && homes[b] == Some(i)
    ensures CrateEdge(inp, cratePkg, homes, Edge(i, c, d)) <==> d in inp.crates[c].links
    ensures forall e :: !ProgramEdgeOf(inp, cratePkg, homes, c, e)
  {
  }

  /** A crate with a program in another package makes none itself; each of its programs links what its source mentions. */
  lemma SplitCrateLinks(inp: Input, cratePkg: map<Name, nat>, homes: Placing, c: Name, far: Name, e: Edge)
    requires HasBin(inp, c, far) && far in homes && homes[far] != Get(cratePkg, c)
    ensures e.member == c ==> !CrateEdge(inp, cratePkg, homes, e)
    ensures ProgramEdgeOf(inp, cratePkg, homes, c, e) <==>
      && e.member in inp.crates[c].bins && e.member in homes && homes[e.member] == Some(e.pkg)
      && e.crate in inp.crates[c].bins[e.member].mentions && e.crate != c
  {
    assert SplitCrate(inp, cratePkg, homes, c) by { assert far in inp.crates[c].bins && HomeOf(homes, far) != Get(cratePkg, c); }
  }

  /** A chain of declared dependencies. */
  predicate Chain(inp: Input, chain: seq<nat>) {
    && (forall k :: 0 <= k < |chain| ==> chain[k] < |inp.packages|)
    && forall k :: 0 <= k < |chain| - 1 ==> inp.packages[chain[k + 1]].name in inp.packages[chain[k]].depends
  }

  /** No chain of declared dependencies, however long, leads from a package that is not a test to one that is. */
  lemma {:induction false} NoChainReachesATest(inp: Input, r: Result, chain: seq<nat>)
    requires InputOk(inp) && Clean(inp, r) && Chain(inp, chain) && chain != []
    requires inp.packages[chain[0]].kind != Test
    ensures inp.packages[chain[|chain| - 1]].kind != Test
    decreases |chain|
  {
    if |chain| > 1 {
      var n := |chain| - 1;
      var front := chain[..n];
      assert Chain(inp, front) by {
        forall k | 0 <= k < |front| - 1 ensures inp.packages[front[k + 1]].name in inp.packages[front[k]].depends {
          assert front[k] == chain[k] && front[k + 1] == chain[k + 1];
        }
      }
      NoChainReachesATest(inp, r, front);
      var i, j := chain[n - 1], chain[n];
      assert inp.packages[chain[(n - 1) + 1]].name in inp.packages[chain[n - 1]].depends;
      assert KindsOk(inp, i) && MayDepend(inp, i, inp.packages[j].name);
      var k := Find(inp.packages, inp.packages[j].name).value;
      assert k == j;
    }
  }
}
