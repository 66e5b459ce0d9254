/**
 The prose ratchet: documents are measured against limits, those already over are held to a recorded
 ceiling, and the record may only go down, through renames too, except where a change of measurement resets it.
 The measures themselves are taken as given; this is what the check, the bank and a whole history of trees make
 of them.
 */
module Ratchet {

  type Path = string

  const WORDS_LIMIT: nat := 3000
  const MEDIAN_LIMIT: real := 20.0
  const LONGEST_LIMIT: nat := 40
  const BOLD_PER_1000: nat := 4
  const SMALL_DOCUMENT: nat := 200

  datatype Column = Words | Median | Longest | BoldLead | BoldInline
  datatype Family = Budget | Standards

  function FamilyOf(c: Column): Family {
    if c == Words then Budget else Standards
  }

  datatype Measure = Measure(words: nat, median: real, longest: nat, boldLead: nat, boldInline: nat)

  type Row = map<Column, real>
  type Baseline = map<Path, Row>

  function Value(m: Measure, c: Column): real {
    match c
    case Words => m.words as real
    case Median => m.median
    case Longest => m.longest as real
    case BoldLead => m.boldLead as real
    case BoldInline => m.boldInline as real
  }

  // ---- the limits --------------------------------------------------------------------------------------------

  function BoldAllowed(words: nat): nat {
    words * BOLD_PER_1000 / 1000
  }

  function BoldExcess(m: Measure): nat {
    var spans := m.boldLead + m.boldInline;
    if m.words < SMALL_DOCUMENT || spans <= BoldAllowed(m.words) then 0 else spans - BoldAllowed(m.words)
  }

  predicate TooBold(words: nat, spans: nat) {
    words >= SMALL_DOCUMENT && spans * 1000 > BOLD_PER_1000 * words
  }

  predicate IsOver(m: Measure, c: Column) {
    match c
    case Words => m.words > WORDS_LIMIT
    case Median => m.words >= SMALL_DOCUMENT && m.median > MEDIAN_LIMIT
    case Longest => m.longest > LONGEST_LIMIT
    case BoldLead => TooBold(m.words, m.boldLead + m.boldInline)
    case BoldInline => TooBold(m.words, m.boldLead + m.boldInline)
  }

  const COLUMNS: set<Column> := {Words, Median, Longest, BoldLead, BoldInline}

  /** The measures over their limit, as the baseline records them. */
  function Over(m: Measure): Row {
    map c | c in COLUMNS && IsOver(m, c) :: Value(m, c)
  }

  /** The excess is the least removal that meets the density limit: any fewer spans removed is still too bold. */
  lemma BoldExcessIsLeast(m: Measure, k: nat)
    requires k <= m.boldLead + m.boldInline
    ensures !TooBold(m.words, m.boldLead + m.boldInline - k) <==> BoldExcess(m) <= k
  {
    var n := m.words * BOLD_PER_1000;
    assert n == n / 1000 * 1000 + n % 1000;
  }

  // ---- trees ---------------------------------------------------------------------------------------------------

  /** A document: its measure, the families its markers excuse, and whether a marker is malformed or outgrown. */
  datatype Doc = Doc(measure: Measure, excused: set<Family>, badMarker: bool, pastGrant: bool)

  /** The baseline file: its rows, and which way of measuring wrote them. */
  datatype Record = Record(rows: Baseline, version: nat)

  /** `tracked` is every path in the tree, documents included; `unlinked` the appendices nothing links to. */
  datatype Tree = Tree(docs: map<Path, Doc>, tracked: set<Path>, unlinked: set<Path>, record: Option<Record>)

  predicate TreeOk(t: Tree) {
    t.docs.Keys <= t.tracked
  }

  function Rows(t: Tree): Baseline {
    if t.record.Some? then t.record.value.rows else map[]
  }

  datatype Option<T> = None | Some(value: T)

  /**
   The tree a change started from, if there is one; `changed` differ from it at all, `touched` in their own prose,
   `renames` gives the old path of a renamed document, and `version` is how the code of the change measures.
   */
  datatype Change = Change(base: Option<Tree>, changed: set<Path>, touched: set<Path>, renames: map<Path, Path>, version: nat)

  datatype Problem =
    | RowAdded(path: Path)
    | Raised(path: Path, column: Column)
    | RowGone(path: Path)
    | Unlinked(path: Path)
    | BadMarker(path: Path)
    | PastGrant(path: Path)
    | TouchedBold(path: Path)
    | NoCeiling(path: Path, column: Column)
    | OverCeiling(path: Path, column: Column)
    | GotWorse(path: Path, column: Column)

  /** A measure that is over and that nothing excuses. */
  predicate Held(t: Tree, p: Path, c: Column) {
    p in t.docs && c in Over(t.docs[p].measure) && FamilyOf(c) !in t.docs[p].excused
  }

  predicate TouchedIsBold(ch: Change, t: Tree, p: Path) {
    p in ch.touched && Held(t, p, BoldLead)
  }

  predicate IsBold(c: Column) {
    c == BoldLead || c == BoldInline
  }

  /** A measure held to its ceiling; a touched document's bold is held to the limit instead. */
  predicate Judged(ch: Change, t: Tree, p: Path, c: Column) {
    Held(t, p, c) && !(IsBold(c) && TouchedIsBold(ch, t, p))
  }

  predicate HasCeiling(t: Tree, p: Path, c: Column) {
    p in Rows(t) && c in Rows(t)[p]
  }

  const ROADMAP: Path := "design/roadmap/"

  /** There is a baseline file to compare with. */
  predicate Compared(ch: Change) {
    ch.base.Some? && ch.base.value.record.Some?
  }

  /** This change moved the measure and re-measured the rows with it: the roadmap's may then rise or appear. */
  predicate Remeasured(ch: Change, t: Tree) {
    && Compared(ch) && ch.base.value.record.value.version < ch.version
    && t.record.Some? && t.record.value.version == ch.version
  }

  predicate Exempt(ch: Change, t: Tree, p: Path) {
    Remeasured(ch, t) && ROADMAP <= p
  }

  /** The path whose old row a row is compared with: its own, or the one its document was renamed from. */
  function Prior(ch: Change, p: Path): Option<Path>
    requires Compared(ch)
  {
    var was := Rows(ch.base.value);
    if p in was then Some(p)
    else if p in ch.renames && ch.renames[p] in was then Some(ch.renames[p])
    else None
  }

  /** A row the check compares with the base's. */
  predicate RowJudged(ch: Change, t: Tree, p: Path) {
    p in Rows(t) && Compared(ch) && !Exempt(ch, t, p)
  }

  /** A number where the prior row had none, or a greater one. */
  predicate Rose(ch: Change, t: Tree, p: Path, q: Path, c: Column)
    requires Compared(ch)
  {
    HasCeiling(t, p, c) && (HasCeiling(ch.base.value, q, c) ==> Rows(t)[p][c] > Rows(ch.base.value)[q][c])
  }

  /** What is wrong with a tree, given the change that made it. */
  predicate Wrong(ch: Change, t: Tree, pr: Problem) {
    match pr
    case RowAdded(p) => RowJudged(ch, t, p) && Prior(ch, p).None?
    case Raised(p, c) => RowJudged(ch, t, p) && Prior(ch, p).Some? && Rose(ch, t, p, Prior(ch, p).value, c)
    case RowGone(p) => p in Rows(t) && p !in t.tracked
    case Unlinked(p) => p in t.unlinked
    case BadMarker(p) => p in t.docs && t.docs[p].badMarker
    case PastGrant(p) => p in t.docs && t.docs[p].pastGrant
    case TouchedBold(p) => TouchedIsBold(ch, t, p)
    case NoCeiling(p, c) => Judged(ch, t, p, c) && !HasCeiling(t, p, c)
    case OverCeiling(p, c) => Judged(ch, t, p, c) && HasCeiling(t, p, c) && Value(t.docs[p].measure, c) > Rows(t)[p][c]
    case GotWorse(p, c) =>
      && Judged(ch, t, p, c) && HasCeiling(t, p, c) && Value(t.docs[p].measure, c) <= Rows(t)[p][c]
      && ch.base.Some? && p in ch.changed && p in ch.base.value.docs
      && Value(t.docs[p].measure, c) > Value(ch.base.value.docs[p].measure, c)
  }

  ghost predicate Passes(ch: Change, t: Tree) {
    forall pr :: !Wrong(ch, t, pr)
  }

  // ---- the ratchet over histories ------------------------------------------------------------------------------

  /** Every ceiling of row `p` now was a ceiling of row `q` then, no lower. */
  predicate Lowered(was: Tree, q: Path, now: Tree, p: Path) {
    forall c :: HasCeiling(now, p, c) ==> HasCeiling(was, q, c) && Rows(now)[p][c] <= Rows(was)[q][c]
  }

  /** Against its base, every judged row of a passing tree comes from a row there, and none of its numbers rose. */
  lemma PassingLowers(ch: Change, t: Tree, p: Path)
    requires Passes(ch, t) && RowJudged(ch, t, p)
    ensures Prior(ch, p).Some? && Lowered(ch.base.value, Prior(ch, p).value, t, p)
  {
    assert !Wrong(ch, t, RowAdded(p));
    forall c | HasCeiling(t, p, c)
      ensures HasCeiling(ch.base.value, Prior(ch, p).value, c)
      ensures Rows(t)[p][c] <= Rows(ch.base.value)[Prior(ch, p).value][c]
    {
      assert !Wrong(ch, t, Raised(p, c));
    }
  }

  /** In a passing tree everything held is at or under its ceiling. */
  lemma PassingHolds(ch: Change, t: Tree, p: Path, c: Column)
    requires Passes(ch, t) && Held(t, p, c)
    ensures HasCeiling(t, p, c) && Value(t.docs[p].measure, c) <= Rows(t)[p][c]
  {
    assert !Wrong(ch, t, TouchedBold(p)) && !Wrong(ch, t, NoCeiling(p, c)) && !Wrong(ch, t, OverCeiling(p, c));
  }

  /** A held measure escapes its ceiling only if it is one of the two bold counts of a touched, too bold document. */
  lemma OnlyTouchedBoldEscapes(ch: Change, t: Tree, p: Path, c: Column)
    requires Held(t, p, c)
    ensures var m := t.docs[p].measure;
      !Judged(ch, t, p, c) <==>
        c in {BoldLead, BoldInline} && p in ch.touched && TooBold(m.words, m.boldLead + m.boldInline)
  {
  }

  // ---- what passing means, measure by measure -------------------------------------------------------------------

  /** A document's value, held down by its ceiling and, if this change touched the file, by what it was before. */
  predicate HeldDown(ch: Change, t: Tree, p: Path, c: Column)
    requires p in t.docs
  {
    var v := Value(t.docs[p].measure, c);
    && HasCeiling(t, p, c) && v <= Rows(t)[p][c]
    && (ch.base.Some? && p in ch.changed && p in ch.base.value.docs ==> v <= Value(ch.base.value.docs[p].measure, c))
  }

  predicate DocumentOk(ch: Change, t: Tree, p: Path)
    requires p in t.docs
  {
    var d := t.docs[p];
    && !d.badMarker && !d.pastGrant
    && (p in ch.touched && Standards !in d.excused ==> !TooBold(d.measure.words, d.measure.boldLead + d.measure.boldInline))
    && (d.measure.words > 3000 && Budget !in d.excused ==> HeldDown(ch, t, p, Words))
    && (Standards !in d.excused ==>
          && (d.measure.words >= 200 && d.measure.median > 20.0 ==> HeldDown(ch, t, p, Median))
          && (d.measure.longest > 40 ==> HeldDown(ch, t, p, Longest))
          && (TooBold(d.measure.words, d.measure.boldLead + d.measure.boldInline) ==>
                HeldDown(ch, t, p, BoldLead) && HeldDown(ch, t, p, BoldInline)))
  }

  predicate RowOk(ch: Change, t: Tree, p: Path)
    requires p in Rows(t)
  {
    && p in t.tracked
    && (Compared(ch) && !(ch.base.value.record.value.version < ch.version && t.record.Some?
                          && t.record.value.version == ch.version && "design/roadmap/" <= p)
        ==> Prior(ch, p).Some? && Lowered(ch.base.value, Prior(ch, p).value, t, p))
  }

  lemma RowOkIff(ch: Change, t: Tree, p: Path)
    requires p in Rows(t)
    ensures RowOk(ch, t, p) <==>
      && !Wrong(ch, t, RowGone(p)) && !Wrong(ch, t, RowAdded(p)) && forall c :: !Wrong(ch, t, Raised(p, c))
  {
    if RowJudged(ch, t, p) && Prior(ch, p).Some? {
      var q := Prior(ch, p).value;
      forall c ensures Wrong(ch, t, Raised(p, c)) <==>
        HasCeiling(t, p, c) && !(HasCeiling(ch.base.value, q, c) && Rows(t)[p][c] <= Rows(ch.base.value)[q][c]) { }
    }
  }

  /** One measure is in order when none of the three errors about it is there. */
  predicate NoneAbout(ch: Change, t: Tree, p: Path, c: Column) {
    !Wrong(ch, t, NoCeiling(p, c)) && !Wrong(ch, t, OverCeiling(p, c)) && !Wrong(ch, t, GotWorse(p, c))
  }

  lemma NoneAboutIff(ch: Change, t: Tree, p: Path, c: Column)
    requires p in t.docs
    ensures NoneAbout(ch, t, p, c) <==> (Judged(ch, t, p, c) ==> HeldDown(ch, t, p, c))
  {
  }

  lemma DocumentOkIff(ch: Change, t: Tree, p: Path)
    requires p in t.docs
    ensures DocumentOk(ch, t, p) <==>
      && !Wrong(ch, t, BadMarker(p)) && !Wrong(ch, t, PastGrant(p)) && !Wrong(ch, t, TouchedBold(p))
      && forall c :: NoneAbout(ch, t, p, c)
  {
    var m := t.docs[p].measure;
    assert Held(t, p, Words) <==> m.words > 3000 && Budget !in t.docs[p].excused;
    assert Held(t, p, Median) <==> m.words >= 200 && m.median > 20.0 && Standards !in t.docs[p].excused;
    assert Held(t, p, Longest) <==> m.longest > 40 && Standards !in t.docs[p].excused;
    assert Held(t, p, BoldLead) <==> TooBold(m.words, m.boldLead + m.boldInline) && Standards !in t.docs[p].excused;
    assert Held(t, p, BoldInline) <==> TooBold(m.words, m.boldLead + m.boldInline) && Standards !in t.docs[p].excused;
    NoneAboutIff(ch, t, p, Words);
    NoneAboutIff(ch, t, p, Median);
    NoneAboutIff(ch, t, p, Longest);
    NoneAboutIff(ch, t, p, BoldLead);
    NoneAboutIff(ch, t, p, BoldInline);
    EveryColumn(ch, t, p);
  }

  lemma EveryColumn(ch: Change, t: Tree, p: Path)
    ensures (forall c :: NoneAbout(ch, t, p, c)) <==>
      && NoneAbout(ch, t, p, Words) && NoneAbout(ch, t, p, Median) && NoneAbout(ch, t, p, Longest)
      && NoneAbout(ch, t, p, BoldLead) && NoneAbout(ch, t, p, BoldInline)
  {
    forall c | NoneAbout(ch, t, p, Words) && NoneAbout(ch, t, p, Median) && NoneAbout(ch, t, p, Longest)
      && NoneAbout(ch, t, p, BoldLead) && NoneAbout(ch, t, p, BoldInline)
      ensures NoneAbout(ch, t, p, c)
    {
      match c
      case Words =>
      case Median =>
      case Longest =>
      case BoldLead =>
      case BoldInline =>
    }
  }

  lemma UnlinkedIsWrong(ch: Change, t: Tree)
    ensures t.unlinked != {} ==> exists pr :: Wrong(ch, t, pr)
  {
    if t.unlinked != {} {
      var p :| p in t.unlinked;
      assert Wrong(ch, t, Unlinked(p));
    }
  }

  /**
   A tree passes if and only if: every appendix is linked; every row is in the tree, and unless this change measures
   it anew it comes from a row of the base, its own or its renamed document's, with no number risen; and every
   document is well marked and within its grant, and under each limit, or excused, or held down by its ceiling and by
   what it was; and one whose prose was touched is within the bold limit outright, unless excused.
   */
  lemma PassesIff(ch: Change, t: Tree)
    ensures Passes(ch, t) <==>
      && t.unlinked == {}
      && (forall p :: p in Rows(t) ==> RowOk(ch, t, p))
      && (forall p :: p in t.docs ==> DocumentOk(ch, t, p))
  {
    if Passes(ch, t) {
      assert t.unlinked == {} by { UnlinkedIsWrong(ch, t); }
      forall p | p in Rows(t) ensures RowOk(ch, t, p) { RowOkIff(ch, t, p); }
      forall p | p in t.docs ensures DocumentOk(ch, t, p) { DocumentOkIff(ch, t, p); }
    }
    if t.unlinked == {} && (forall p :: p in Rows(t) ==> RowOk(ch, t, p)) && (forall p :: p in t.docs ==> DocumentOk(ch, t, p)) {
      forall pr ensures !Wrong(ch, t, pr) {
        if pr.path in Rows(t) { RowOkIff(ch, t, pr.path); }
        if pr.path in t.docs {
          DocumentOkIff(ch, t, pr.path);
          if AboutMeasure(pr) { assert NoneAbout(ch, t, pr.path, pr.column); }
        }
      }
    }
  }

  /** In particular a passing change never raises a held measure of a document it changed. */
  lemma ChangedNeverRises(ch: Change, t: Tree, p: Path, c: Column)
    requires Passes(ch, t) && Held(t, p, c) && ch.base.Some? && p in ch.changed && p in ch.base.value.docs
    ensures Value(t.docs[p].measure, c) <= Value(ch.base.value.docs[p].measure, c)
  {
    PassingHolds(ch, t, p, c);
    assert !Wrong(ch, t, TouchedBold(p)) && !Wrong(ch, t, GotWorse(p, c));
  }

  /** Each tree passes against the one before it. */
  ghost predicate History(trees: seq<Tree>, changes: seq<Change>) {
    && |trees| == |changes| + 1
    && forall i :: 0 <= i < |changes| ==> changes[i].base == Some(trees[i]) && Passes(changes[i], trees[i + 1])
  }

  /** Where a row comes from: the earliest tree it can be followed to, and its path there. */
  datatype Origin = Origin(at: nat, path: Path)

  /** Follow a row back through its renames, to the first tree, or to the change that measured it anew. */
  function OriginOf(trees: seq<Tree>, changes: seq<Change>, i: nat, p: Path): Origin
    requires i < |trees| == |changes| + 1
    decreases i
  {
    if i == 0 || !RowJudged(changes[i - 1], trees[i], p) then Origin(i, p)
    else
      match Prior(changes[i - 1], p)
      case None => Origin(i, p)
      case Some(q) => OriginOf(trees, changes, i - 1, q)
  }

  /** A row that nothing earlier limits: in the first tree, or with no baseline file before it, or re-measured. */
  predicate FirstRecorded(trees: seq<Tree>, changes: seq<Change>, o: Origin)
    requires |trees| == |changes| + 1 && o.at < |trees|
  {
    o.at == 0 || !Compared(changes[o.at - 1]) || Exempt(changes[o.at - 1], trees[o.at], o.path)
  }

  /** Along any history a row can be followed back, through renames, to where it was first recorded, only ever going down. */
  lemma {:induction false} HistoryLowers(trees: seq<Tree>, changes: seq<Change>, i: nat, p: Path)
    requires History(trees, changes) && i < |trees| && p in Rows(trees[i])
    ensures var o := OriginOf(trees, changes, i, p);
      && o.at <= i && o.path in Rows(trees[o.at]) && FirstRecorded(trees, changes, o)
      && Lowered(trees[o.at], o.path, trees[i], p)
    decreases i
  {
    if i > 0 && RowJudged(changes[i - 1], trees[i], p) {
      assert changes[i - 1].base == Some(trees[i - 1]) && Passes(changes[i - 1], trees[i]);
      PassingLowers(changes[i - 1], trees[i], p);
      var q := Prior(changes[i - 1], p).value;
      HistoryLowers(trees, changes, i - 1, q);
    }
  }

  /**
   Along any history of passing changes, no unexcused measure over its limit is ever above the value first
   recorded for its document, under whatever name it then had.
   */
  lemma NothingEverGetsWorse(trees: seq<Tree>, changes: seq<Change>, i: nat, p: Path, c: Column)
    requires History(trees, changes) && 0 < i < |trees| && Held(trees[i], p, c)
    ensures var o := OriginOf(trees, changes, i, p);
      && o.at <= i && FirstRecorded(trees, changes, o) && HasCeiling(trees[o.at], o.path, c)
      && Value(trees[i].docs[p].measure, c) <= Rows(trees[o.at])[o.path][c]
  {
    assert Passes(changes[i - 1], trees[(i - 1) + 1]);
    PassingHolds(changes[i - 1], trees[i], p, c);
    HistoryLowers(trees, changes, i, p);
  }

  /** Without renames and re-measurement a row's origin is itself, in the first tree. */
  lemma {:induction false} OwnOrigin(trees: seq<Tree>, changes: seq<Change>, i: nat, p: Path)
    requires History(trees, changes) && i < |trees| && p in Rows(trees[i]) && trees[0].record.Some?
    requires forall k :: 0 <= k < |changes| ==>
      changes[k].renames == map[] && !Remeasured(changes[k], trees[k + 1]) && trees[k].record.Some?
    ensures OriginOf(trees, changes, i, p) == Origin(0, p)
    decreases i
  {
    if i > 0 {
      assert changes[i - 1].base == Some(trees[i - 1]) && Passes(changes[i - 1], trees[(i - 1) + 1]);
      assert changes[i - 1].renames == map[] && !Remeasured(changes[i - 1], trees[(i - 1) + 1]) && trees[i - 1].record.Some?;
      PassingLowers(changes[i - 1], trees[i], p);
      OwnOrigin(trees, changes, i - 1, p);
    }
  }

  // ---- banking ------------------------------------------------------------------------------------------------

  function Lesser(a: real, b: real): real {
    if a < b then a else b
  }

  function KeptRow(t: Tree, p: Path): Row
    requires p in t.docs && p in Rows(t)
  {
    KeptOf(t.docs[p], Rows(t)[p])
  }

  /** A row banked against its document: what is over, unexcused and has a ceiling, at the lesser number. */
  function KeptOf(d: Doc, row: Row): Row {
    map c | c in COLUMNS && c in Over(d.measure) && FamilyOf(c) !in d.excused && c in row :: Lesser(Value(d.measure, c), row[c])
  }

  lemma KeptTwice(d: Doc, row: Row)
    ensures KeptOf(d, KeptOf(d, row)) == KeptOf(d, row)
  {
  }

  /** The baseline after a shrink is banked: never a row added, never a number raised. */
  function Banked(t: Tree): Baseline {
    BankedFor(t, t.docs.Keys)
  }

  function BankedFor(t: Tree, paths: set<Path>): Baseline {
    map p | p in paths && p in t.docs && p in Rows(t) && KeptRow(t, p) != map[] :: KeptRow(t, p)
  }

  lemma BankedCeiling(t: Tree, p: Path, c: Column)
    ensures p in Banked(t) && c in Banked(t)[p] <==> Held(t, p, c) && HasCeiling(t, p, c)
    ensures p in Banked(t) && c in Banked(t)[p] ==> Banked(t)[p][c] == Lesser(Value(t.docs[p].measure, c), Rows(t)[p][c])
  {
    if p in t.docs && p in Rows(t) && c in KeptRow(t, p) { assert KeptRow(t, p) != map[]; }
  }

  /** The tree with the banked file, which says how the code that wrote it measures. */
  function After(t: Tree, version: nat): Tree {
    t.(record := Some(Record(Banked(t), version)))
  }

  /** Banking twice is banking once. */
  lemma BankIsIdempotent(t: Tree, version: nat)
    ensures After(After(t, version), version) == After(t, version)
  {
    var a := After(t, version);
    forall p | p in Banked(t) ensures p in Banked(a) && Banked(a)[p] == Banked(t)[p] {
      KeptTwice(t.docs[p], Rows(t)[p]);
      assert KeptRow(a, p) == KeptRow(t, p);
    }
    SameMap(Banked(a), Banked(t));
  }

  lemma SameMap(a: Baseline, b: Baseline)
    requires a.Keys <= b.Keys && forall p :: p in b ==> p in a && a[p] == b[p]
    ensures a == b
  {
  }

  /** Banking keeps a judged row's prior and raises nothing. */
  lemma BankedRow(ch: Change, t: Tree, p: Path)
    requires RowJudged(ch, After(t, ch.version), p)
    ensures RowJudged(ch, t, p)
    ensures forall q, c :: Rose(ch, After(t, ch.version), p, q, c) ==> Rose(ch, t, p, q, c)
  {
    forall q, c | Rose(ch, After(t, ch.version), p, q, c) ensures Rose(ch, t, p, q, c) { BankedCeiling(t, p, c); }
  }

  /** Banking a passing tree leaves it passing. */
  lemma BankPreservesPassing(ch: Change, t: Tree)
    requires TreeOk(t) && Passes(ch, t)
    ensures Passes(ch, After(t, ch.version))
  {
    var a := After(t, ch.version);
    forall pr ensures !Wrong(ch, a, pr) {
      assert !Wrong(ch, t, pr);
      match pr {
        case RowAdded(p) => if RowJudged(ch, a, p) { BankedRow(ch, t, p); }
        case Raised(p, c) => if RowJudged(ch, a, p) { BankedRow(ch, t, p); }
        case RowGone(p) =>
        case NoCeiling(p, c) => BankedCeiling(t, p, c);
        case OverCeiling(p, c) => BankedCeiling(t, p, c);
        case GotWorse(p, c) => BankedCeiling(t, p, c);
        case _ =>
      }
    }
  }

  // ---- the check and the bank as they run --------------------------------------------------------------------------

  predicate AboutRow(pr: Problem) {
    pr.RowAdded? || pr.Raised?
  }

  predicate AboutDoc(pr: Problem) {
    !AboutRow(pr) && !pr.RowGone? && !pr.Unlinked?
  }

  predicate AboutFile(pr: Problem) {
    AboutRow(pr) || pr.RowGone?
  }

  const ORDER: seq<Column> := [Words, Median, Longest, BoldLead, BoldInline]

  /** One row of the baseline against the base's. */
  method CheckRow(ch: Change, t: Tree, p: Path) returns (bad: seq<Problem>)
    requires p in Rows(t) && Compared(ch)
    ensures forall pr :: pr in bad <==> Wrong(ch, t, pr) && AboutRow(pr) && pr.path == p
  {
    if Exempt(ch, t, p) { return []; }
    var prior := Prior(ch, p);
    if prior.None? { return [RowAdded(p)]; }
    bad := [];
    var was, now := Rows(ch.base.value)[prior.value], Rows(t)[p];
    var i := 0;
    while i < |ORDER|
      invariant i <= |ORDER|
      invariant forall pr :: pr in bad <==> Wrong(ch, t, pr) && pr.Raised? && pr.path == p && pr.column in ORDER[..i]
    {
      var c := ORDER[i];
      if c in now && (c !in was || now[c] > was[c]) { bad := bad + [Raised(p, c)]; }
      i := i + 1;
      assert ORDER[..i] == ORDER[..i - 1] + [c];
    }
    forall c: Column ensures c in ORDER[..i] {
      assert c == ORDER[0] || c == ORDER[1] || c == ORDER[2] || c == ORDER[3] || c == ORDER[4];
    }
  }

  /** One measure of one document: the error that decides it, if any. */
  method CheckMeasure(ch: Change, t: Tree, p: Path, c: Column) returns (bad: seq<Problem>)
    requires p in t.docs
    ensures forall pr :: pr in bad <==> Wrong(ch, t, pr) && AboutMeasure(pr) && pr.path == p && pr.column == c
  {
    var m := t.docs[p].measure;
    if !Judged(ch, t, p, c) { return []; }
    if !HasCeiling(t, p, c) { return [NoCeiling(p, c)]; }
    if Value(m, c) > Rows(t)[p][c] { return [OverCeiling(p, c)]; }
    if ch.base.Some? && p in ch.changed && p in ch.base.value.docs && Value(m, c) > Value(ch.base.value.docs[p].measure, c) {
      return [GotWorse(p, c)];
    }
    return [];
  }

  predicate AboutMeasure(pr: Problem) {
    pr.NoCeiling? || pr.OverCeiling? || pr.GotWorse?
  }

  method CheckDoc(ch: Change, t: Tree, p: Path) returns (bad: seq<Problem>)
    requires p in t.docs
    ensures forall pr :: pr in bad <==> Wrong(ch, t, pr) && AboutDoc(pr) && pr.path == p
  {
    bad := [];
    if t.docs[p].badMarker { bad := bad + [BadMarker(p)]; }
    if t.docs[p].pastGrant { bad := bad + [PastGrant(p)]; }
    if TouchedIsBold(ch, t, p) { bad := bad + [TouchedBold(p)]; }
    ghost var general := bad;
    assert forall pr :: pr in general <==> Wrong(ch, t, pr) && AboutDoc(pr) && !AboutMeasure(pr) && pr.path == p;
    var i := 0;
    while i < |ORDER|
      invariant i <= |ORDER|
      invariant forall pr ::
        pr in bad <==> pr in general || (Wrong(ch, t, pr) && AboutMeasure(pr) && pr.path == p && pr.column in ORDER[..i])
    {
      var more := CheckMeasure(ch, t, p, ORDER[i]);
      bad := bad + more;
      i := i + 1;
      assert ORDER[..i] == ORDER[..i - 1] + [ORDER[i - 1]];
    }
    forall c: Column ensures c in ORDER[..i] {
      assert c == ORDER[0] || c == ORDER[1] || c == ORDER[2] || c == ORDER[3] || c == ORDER[4];
    }
  }

  /** The baseline file: every row against the base's, and against the tree. */
  method CheckFile(ch: Change, t: Tree) returns (bad: seq<Problem>)
    ensures forall pr :: pr in bad <==> Wrong(ch, t, pr) && AboutFile(pr)
  {
    bad := [];
    var rows := Rows(t).Keys;
    while rows != {}
      invariant rows <= Rows(t).Keys
      invariant forall pr :: pr in bad <==> Wrong(ch, t, pr) && AboutFile(pr) && pr.path in Rows(t).Keys - rows
      decreases |rows|
    {
      var p :| p in rows;
      if Compared(ch) {
        var more := CheckRow(ch, t, p);
        bad := bad + more;
      }
      if p !in t.tracked { bad := bad + [RowGone(p)]; }
      rows := rows - {p};
    }
  }

  method CheckDocs(ch: Change, t: Tree) returns (bad: seq<Problem>)
    ensures forall pr :: pr in bad <==> Wrong(ch, t, pr) && AboutDoc(pr)
  {
    bad := [];
    var docs := t.docs.Keys;
    while docs != {}
      invariant docs <= t.docs.Keys
      invariant forall pr :: pr in bad <==> Wrong(ch, t, pr) && AboutDoc(pr) && pr.path in t.docs.Keys - docs
      decreases |docs|
    {
      var p :| p in docs;
      var more := CheckDoc(ch, t, p);
      bad := bad + more;
      docs := docs - {p};
    }
  }

  method CheckLinks(ch: Change, t: Tree) returns (bad: seq<Problem>)
    ensures forall pr :: pr in bad <==> Wrong(ch, t, pr) && pr.Unlinked?
  {
    bad := [];
    var left := t.unlinked;
    while left != {}
      invariant left <= t.unlinked
      invariant forall pr :: pr in bad <==> pr.Unlinked? && pr.path in t.unlinked - left
      decreases |left|
    {
      var p :| p in left;
      bad := bad + [Unlinked(p)];
      left := left - {p};
    }
  }

  /** The whole check: every problem of the tree is reported, and nothing else. */
  method Check(ch: Change, t: Tree) returns (bad: seq<Problem>)
    ensures forall pr :: pr in bad <==> Wrong(ch, t, pr)
    ensures bad == [] <==> Passes(ch, t)
  {
    var file := CheckFile(ch, t);
    var docs := CheckDocs(ch, t);
    var links := CheckLinks(ch, t);
    bad := file + docs + links;
    assert forall pr :: pr in bad <==> Wrong(ch, t, pr);
    if bad != [] { assert bad[0] in bad; }
  }

  lemma BankStep(t: Tree, done: set<Path>, p: Path)
    requires p in t.docs
    ensures BankedFor(t, done + {p}) ==
      if p in Rows(t) && KeptRow(t, p) != map[] then BankedFor(t, done)[p := KeptRow(t, p)] else BankedFor(t, done)
  {
  }

  /** The bank as a loop over the documents, building the rows. */
  method Bank(t: Tree) returns (rows: Baseline)
    ensures rows == Banked(t)
  {
    rows := map[];
    var docs := t.docs.Keys;
    ghost var done: set<Path> := {};
    while docs != {}
      invariant docs <= t.docs.Keys && done == t.docs.Keys - docs
      invariant rows == BankedFor(t, done)
      decreases |docs|
    {
      var p :| p in docs;
      BankStep(t, done, p);
      if p in Rows(t) {
        var kept := BankRow(t, p);
        if kept != map[] { rows := rows[p := kept]; }
      }
      docs := docs - {p};
      done := done + {p};
    }
  }

  /** The first `n` columns of a banked row. */
  function KeptUpTo(d: Doc, row: Row, n: nat): Row
    requires n <= |ORDER|
  {
    map c | c in ORDER[..n] && c in KeptOf(d, row) :: KeptOf(d, row)[c]
  }

  lemma KeptNext(d: Doc, row: Row, n: nat)
    requires n < |ORDER|
    ensures var c := ORDER[n];
      KeptUpTo(d, row, n + 1) ==
        if c in KeptOf(d, row) then KeptUpTo(d, row, n)[c := KeptOf(d, row)[c]] else KeptUpTo(d, row, n)
  {
    assert ORDER[..n + 1] == ORDER[..n] + [ORDER[n]];
  }

  lemma KeptWhole(d: Doc, row: Row)
    ensures KeptUpTo(d, row, |ORDER|) == KeptOf(d, row)
  {
    forall c: Column ensures c in ORDER[..|ORDER|] {
      assert c == ORDER[0] || c == ORDER[1] || c == ORDER[2] || c == ORDER[3] || c == ORDER[4];
    }
  }

  method BankRow(t: Tree, p: Path) returns (kept: Row)
    requires p in t.docs && p in Rows(t)
    ensures kept == KeptRow(t, p)
  {
    kept := map[];
    var d, row := t.docs[p], Rows(t)[p];
    var i := 0;
    while i < |ORDER|
      invariant i <= |ORDER| && kept == KeptUpTo(d, row, i)
    {
      var c := ORDER[i];
      KeptNext(d, row, i);
      if Held(t, p, c) && c in row { kept := kept[c := Lesser(Value(d.measure, c), row[c])]; }
      i := i + 1;
    }
    KeptWhole(d, row);
  }
}
