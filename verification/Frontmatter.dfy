/**
 A milestone block's frontmatter: flat `key: value` lines between two fences, printed in the schema's order
 and read back. What the printer writes the reader returns, and exactly when the other way round holds too.
 */
module Frontmatter {

  datatype Option<+T> = None | Some(value: T)

  const FENCE := "---"

  /** The schema's keys, in the order they are written. */
  const ORDER: seq<string> := [
    "status", "raised", "built", "branch", "promoted_from", "superseded_by", "refused_by",
    "milestone_dependencies", "decision_dependencies", "machine_requirements", "specific_machine", "needs_person"]

  type Fields = map<string, string>

  // ---- characters and lines ------------------------------------------------------------------------------------

  predicate KeyChar(c: char) {
    'a' <= c <= 'z' || c == '_'
  }

  /** What trimming removes. */
  predicate Space(c: char) {
    var n := c as int;
    9 <= n <= 13 || 28 <= n <= 32 || 0x2000 <= n <= 0x200A || n in {0x85, 0xA0, 0x1680, 0x2028, 0x2029, 0x202F, 0x205F, 0x3000}
  }

  predicate Blank(line: string) {
    forall i :: 0 <= i < |line| ==> Space(line[i])
  }

  function Stripped(s: string): (r: string)
    ensures r == "" || (!Space(r[0]) && !Space(r[|r| - 1]))
    ensures r == "" <==> Blank(s)
    decreases |s|
  {
    if s == "" then ""
    else if Space(s[0]) then Stripped(s[1..])
    else if Space(s[|s| - 1]) then Stripped(s[..|s| - 1])
    else s
  }

  /** Trimming takes only spaces, and only from the ends. */
  lemma {:induction false} StrippedWithin(s: string) returns (a: string, b: string)
    ensures s == a + Stripped(s) + b && Blank(a) && Blank(b)
    decreases |s|
  {
    a, b := "", "";
    if s != "" && Space(s[0]) {
      var x, y := StrippedWithin(s[1..]);
      assert s == [s[0]] + s[1..];
      BlankAround(s[0], x, Stripped(s[1..]), y);
      a, b := [s[0]] + x, y;
    } else if s != "" && Space(s[|s| - 1]) {
      var x, y := StrippedWithin(s[..|s| - 1]);
      assert s == s[..|s| - 1] + [s[|s| - 1]];
      BlankAround(s[|s| - 1], x, Stripped(s[..|s| - 1]), y);
      a, b := x, y + [s[|s| - 1]];
    }
  }

  lemma BlankAround(c: char, x: string, m: string, y: string)
    requires Space(c) && Blank(x) && Blank(y)
    ensures [c] + (x + m + y) == [c] + x + m + y && x + m + y + [c] == x + m + (y + [c])
    ensures Blank([c] + x) && Blank(y + [c])
  {
  }

  predicate Trimmed(s: string) {
    s != "" && !Space(s[0]) && !Space(s[|s| - 1])
  }

  predicate Holds(s: string, a: char, b: char) {
    exists i :: 0 <= i < |s| - 1 && s[i] == a && s[i + 1] == b
  }

  /** A value YAML would not read as a string: it carries `: ` or ` #`. */
  predicate Ambiguous(v: string) {
    Holds(v, ':', ' ') || Holds(v, ' ', '#')
  }

  /** How many key characters a line opens with. */
  function KeyLen(line: string): (k: nat)
    ensures k <= |line| && (forall i :: 0 <= i < k ==> KeyChar(line[i])) && (k < |line| ==> !KeyChar(line[k]))
  {
    if line == "" || !KeyChar(line[0]) then 0 else 1 + KeyLen(line[1..])
  }

  datatype Pair = Pair(key: string, value: string)

  /** A line that is wholly a key, a colon and a space, and at least one more character. */
  function Match(line: string): Option<Pair> {
    var k := KeyLen(line);
    if k == 0 || |line| <= k + 2 || line[k] != ':' || line[k + 1] != ' ' || '\n' in line[k + 2..] then None
    else Some(Pair(line[..k], line[k + 2..]))
  }

  // ---- reading ---------------------------------------------------------------------------------------------------

  datatype Kind = Unclosed | NotAPair | NotInSchema | Twice | WouldNotBeAString
  datatype Problem = Problem(line: nat, kind: Kind)

  datatype Scanned = Scanned(fields: Fields, problems: seq<Problem>)

  /** One line of the frontmatter; `n` is its number in the file. */
  function ScanLine(schema: seq<string>, s: Scanned, line: string, n: nat): Scanned {
    var m := Match(line);
    if m.None? then s.(problems := s.problems + [Problem(n, NotAPair)])
    else
      var key, value := m.value.key, Stripped(m.value.value);
      if key !in schema then s.(problems := s.problems + [Problem(n, NotInSchema)])
      else if key in s.fields then s.(problems := s.problems + [Problem(n, Twice)])
      else if Ambiguous(value) then
        Scanned(s.fields[key := value], s.problems + [Problem(n, WouldNotBeAString)])
      else s.(fields := s.fields[key := value])
  }

  function Scan(schema: seq<string>, s: Scanned, lines: seq<string>, n: nat): Scanned
    decreases |lines|
  {
    if lines == [] then s else Scan(schema, ScanLine(schema, s, lines[0], n), lines[1..], n + 1)
  }

  /** Where the second fence is, or the end. */
  function FenceAt(lines: seq<string>, i: nat): (k: nat)
    requires i <= |lines|
    ensures i <= k <= |lines| && (k < |lines| ==> lines[k] == FENCE) && forall j :: i <= j < k ==> lines[j] != FENCE
    decreases |lines| - i
  {
    if i == |lines| || lines[i] == FENCE then i else FenceAt(lines, i + 1)
  }

  /** The first line from `i` on that is not blank. */
  function BodyAt(lines: seq<string>, i: nat): (k: nat)
    requires i <= |lines|
    ensures i <= k <= |lines| && (k < |lines| ==> !Blank(lines[k])) && forall j :: i <= j < k ==> Blank(lines[j])
    decreases |lines| - i
  {
    if i == |lines| || !Blank(lines[i]) then i else BodyAt(lines, i + 1)
  }

  datatype Parsed = Prose | Parsed(fields: Fields, body: nat, problems: seq<Problem>)

  function Parse(schema: seq<string>, lines: seq<string>): Parsed {
    if lines == [] || lines[0] != FENCE then Prose
    else
      var end := FenceAt(lines, 1);
      if end == |lines| then Parsed(map[], |lines|, [Problem(1, Unclosed)])
      else
        var s := Scan(schema, Scanned(map[], []), lines[1..end], 2);
        Parsed(s.fields, BodyAt(lines, end + 1), s.problems)
  }

  /** The reader as it runs: find the fence, go through the lines, skip the blanks. */
  method ReadFrontmatter(schema: seq<string>, lines: seq<string>) returns (p: Parsed)
    ensures p == Parse(schema, lines)
  {
    if |lines| == 0 || lines[0] != FENCE { return Prose; }
    var end := 1;
    while end < |lines| && lines[end] != FENCE
      invariant 1 <= end <= |lines| && FenceAt(lines, 1) == FenceAt(lines, end)
    {
      end := end + 1;
    }
    if end == |lines| { return Parsed(map[], |lines|, [Problem(1, Unclosed)]); }
    var s := Scanned(map[], []);
    var i := 1;
    while i < end
      invariant 1 <= i <= end
      invariant Scan(schema, s, lines[i..end], i + 1) == Scan(schema, Scanned(map[], []), lines[1..end], 2)
    {
      assert lines[i..end][0] == lines[i] && lines[i..end][1..] == lines[i + 1..end];
      s := ScanLine(schema, s, lines[i], i + 1);
      i := i + 1;
    }
    var start := end + 1;
    while start < |lines| && Blank(lines[start])
      invariant end + 1 <= start <= |lines| && BodyAt(lines, end + 1) == BodyAt(lines, start)
    {
      start := start + 1;
    }
    return Parsed(s.fields, start, s.problems);
  }

  // ---- what reading means, for any lines ---------------------------------------------------------------------------

  /** A line is a pair exactly when it is a key of key characters, a colon and a space, and a value on the same line. */
  lemma MatchIff(line: string, key: string, value: string)
    ensures Match(line) == Some(Pair(key, value)) <==>
      KeyOk(key) && value != "" && '\n' !in value && line == key + ": " + value
  {
    if KeyOk(key) && value != "" && '\n' !in value && line == key + ": " + value {
      LineMatches(key, value);
    }
    if Match(line) == Some(Pair(key, value)) {
      var k := KeyLen(line);
      assert line == line[..k] + [line[k]] + [line[k + 1]] + line[k + 2..];
    }
  }

  /** The schema's key a line is for, if any. */
  function KeyOn(schema: seq<string>, line: string): Option<string> {
    match Match(line)
    case None => None
    case Some(p) => if p.key in schema then Some(p.key) else None
  }

  /** No line before this one is for its key. */
  predicate First(schema: seq<string>, lines: seq<string>, j: nat)
    requires j < |lines|
  {
    forall k :: 0 <= k < j ==> KeyOn(schema, lines[k]) != KeyOn(schema, lines[j])
  }

  /** What is wrong with a line where it stands. */
  function KindAt(schema: seq<string>, lines: seq<string>, j: nat): Option<Kind>
    requires j < |lines|
  {
    match Match(lines[j])
    case None => Some(NotAPair)
    case Some(p) =>
      if p.key !in schema then Some(NotInSchema)
      else if !First(schema, lines, j) then Some(Twice)
      else if Ambiguous(Stripped(p.value)) then Some(WouldNotBeAString)
      else None
  }

  lemma {:induction false} ScanSnoc(schema: seq<string>, s: Scanned, lines: seq<string>, line: string, n: nat)
    ensures Scan(schema, s, lines + [line], n) == ScanLine(schema, Scan(schema, s, lines, n), line, n + |lines|)
    decreases |lines|
  {
    if lines == [] {
      assert lines + [line] == [line] && [line][1..] == [];
    } else {
      assert (lines + [line])[0] == lines[0] && (lines + [line])[1..] == lines[1..] + [line];
      ScanSnoc(schema, ScanLine(schema, s, lines[0], n), lines[1..], line, n + 1);
    }
  }

  /** Some line is for this key. */
  ghost predicate Mentioned(schema: seq<string>, lines: seq<string>, key: string) {
    exists j :: 0 <= j < |lines| && KeyOn(schema, lines[j]) == Some(key)
  }

  /** A key's first line gives its value. */
  predicate FirstValue(schema: seq<string>, lines: seq<string>, fields: Fields, j: nat)
    requires j < |lines|
  {
    KeyOn(schema, lines[j]).Some? && First(schema, lines, j) ==>
      KeyOn(schema, lines[j]).value in fields
      && fields[KeyOn(schema, lines[j]).value] == Stripped(Match(lines[j]).value.value)
  }

  ghost predicate Reported(schema: seq<string>, lines: seq<string>, n: nat, pr: Problem) {
    exists j :: 0 <= j < |lines| && pr.line == n + j && KindAt(schema, lines, j) == Some(pr.kind)
  }

  /** What scanning these lines leaves: each key's first value, and each line's own problem. */
  ghost predicate Reads(schema: seq<string>, lines: seq<string>, n: nat, r: Scanned) {
    && (forall key :: key in r.fields <==> Mentioned(schema, lines, key))
    && (forall j :: 0 <= j < |lines| ==> FirstValue(schema, lines, r.fields, j))
    && (forall pr :: pr in r.problems <==> Reported(schema, lines, n, pr))
  }

  lemma MentionedNext(schema: seq<string>, lines: seq<string>, line: string, key: string)
    ensures Mentioned(schema, lines + [line], key) <==> Mentioned(schema, lines, key) || KeyOn(schema, line) == Some(key)
  {
    var all := lines + [line];
    assert all[|lines|] == line;
    if Mentioned(schema, lines, key) {
      var j :| 0 <= j < |lines| && KeyOn(schema, lines[j]) == Some(key);
      assert all[j] == lines[j];
    }
    if Mentioned(schema, all, key) {
      var j :| 0 <= j < |all| && KeyOn(schema, all[j]) == Some(key);
      if j < |lines| { assert all[j] == lines[j]; }
    }
  }

  lemma KindStays(schema: seq<string>, lines: seq<string>, line: string, j: nat)
    requires j < |lines|
    ensures (lines + [line])[j] == lines[j] && First(schema, lines + [line], j) == First(schema, lines, j)
    ensures KindAt(schema, lines + [line], j) == KindAt(schema, lines, j)
  {
    var all := lines + [line];
    assert forall k :: 0 <= k < j ==> all[k] == lines[k];
  }

  /** One line's turn leaves a new key with its value, and every other field as it was. */
  lemma LineFields(schema: seq<string>, s: Scanned, line: string, n: nat)
    ensures var r, key := ScanLine(schema, s, line, n).fields, KeyOn(schema, line);
      r == if key.Some? && key.value !in s.fields then s.fields[key.value := Stripped(Match(line).value.value)] else s.fields
  {
  }

  lemma KeysNext(schema: seq<string>, lines: seq<string>, line: string, n: nat, s: Scanned)
    requires Reads(schema, lines, n, s)
    ensures forall key :: key in ScanLine(schema, s, line, n + |lines|).fields <==> Mentioned(schema, lines + [line], key)
  {
    LineFields(schema, s, line, n + |lines|);
    forall key ensures key in ScanLine(schema, s, line, n + |lines|).fields <==> Mentioned(schema, lines + [line], key) {
      MentionedNext(schema, lines, line, key);
    }
  }

  lemma ValuesNext(schema: seq<string>, lines: seq<string>, line: string, n: nat, s: Scanned, j: nat)
    requires Reads(schema, lines, n, s) && j <= |lines|
    ensures FirstValue(schema, lines + [line], ScanLine(schema, s, line, n + |lines|).fields, j)
  {
    LineFields(schema, s, line, n + |lines|);
    if j < |lines| {
      KindStays(schema, lines, line, j);
      assert FirstValue(schema, lines, s.fields, j);
    } else {
      assert (lines + [line])[j] == line;
      if KeyOn(schema, line).Some? { TwiceIff(schema, lines, line, n, s); }
    }
  }

  lemma TwiceIff(schema: seq<string>, lines: seq<string>, line: string, n: nat, s: Scanned)
    requires Reads(schema, lines, n, s) && KeyOn(schema, line).Some?
    ensures First(schema, lines + [line], |lines|) <==> KeyOn(schema, line).value !in s.fields
  {
    var all, m := lines + [line], |lines|;
    assert all[m] == line;
    var key := KeyOn(schema, line).value;
    if key in s.fields {
      assert Mentioned(schema, lines, key);
      var k :| 0 <= k < m && KeyOn(schema, lines[k]) == Some(key);
      assert all[k] == lines[k];
    } else {
      assert !Mentioned(schema, lines, key);
      forall k | 0 <= k < m ensures KeyOn(schema, all[k]) != KeyOn(schema, all[m]) { assert all[k] == lines[k]; }
    }
  }

  /** One line's turn reports exactly that line's problem. */
  lemma LineReports(schema: seq<string>, lines: seq<string>, line: string, n: nat, s: Scanned)
    requires Reads(schema, lines, n, s)
    ensures var kind := KindAt(schema, lines + [line], |lines|);
      ScanLine(schema, s, line, n + |lines|).problems ==
        if kind.Some? then s.problems + [Problem(n + |lines|, kind.value)] else s.problems
  {
    assert (lines + [line])[|lines|] == line;
    if KeyOn(schema, line).Some? { TwiceIff(schema, lines, line, n, s); }
  }

  lemma ReportedNext(schema: seq<string>, lines: seq<string>, line: string, n: nat, pr: Problem)
    ensures Reported(schema, lines + [line], n, pr) <==>
      Reported(schema, lines, n, pr)
      || (pr.line == n + |lines| && KindAt(schema, lines + [line], |lines|) == Some(pr.kind))
  {
    var all, m := lines + [line], |lines|;
    if Reported(schema, lines, n, pr) {
      var j :| 0 <= j < m && pr.line == n + j && KindAt(schema, lines, j) == Some(pr.kind);
      KindStays(schema, lines, line, j);
    }
    if Reported(schema, all, n, pr) {
      var j :| 0 <= j < |all| && pr.line == n + j && KindAt(schema, all, j) == Some(pr.kind);
      if j < m { KindStays(schema, lines, line, j); }
    }
  }

  lemma ProblemsNext(schema: seq<string>, lines: seq<string>, line: string, n: nat, s: Scanned)
    requires Reads(schema, lines, n, s)
    ensures forall pr :: pr in ScanLine(schema, s, line, n + |lines|).problems <==> Reported(schema, lines + [line], n, pr)
  {
    LineReports(schema, lines, line, n, s);
    forall pr ensures pr in ScanLine(schema, s, line, n + |lines|).problems <==> Reported(schema, lines + [line], n, pr) {
      ReportedNext(schema, lines, line, n, pr);
    }
  }

  /**
   What reading gives, for any lines: a key has the value of its first line; a line that is no pair, is for a key
   outside the schema, repeats a key, or would not be a string to YAML is reported by its number, and nothing else is.
   */
  lemma {:induction false} ScanMeans(schema: seq<string>, lines: seq<string>, n: nat)
    ensures Reads(schema, lines, n, Scan(schema, Scanned(map[], []), lines, n))
    decreases |lines|
  {
    if lines != [] {
      var front, line := lines[..|lines| - 1], lines[|lines| - 1];
      assert lines == front + [line];
      ScanMeans(schema, front, n);
      ScanSnoc(schema, Scanned(map[], []), front, line, n);
      var s := Scan(schema, Scanned(map[], []), front, n);
      KeysNext(schema, front, line, n, s);
      forall j | 0 <= j < |lines| ensures FirstValue(schema, lines, Scan(schema, Scanned(map[], []), lines, n).fields, j) {
        ValuesNext(schema, front, line, n, s, j);
      }
      ProblemsNext(schema, front, line, n, s);
    }
  }

  /** A line for a key of the schema that no line before it is for, with a value that is a string to YAML. */
  predicate GoodLine(schema: seq<string>, lines: seq<string>, j: nat)
    requires j < |lines|
  {
    KeyOn(schema, lines[j]).Some? && First(schema, lines, j) && !Ambiguous(Stripped(Match(lines[j]).value.value))
  }

  lemma GoodLineIff(schema: seq<string>, lines: seq<string>, j: nat)
    requires j < |lines|
    ensures GoodLine(schema, lines, j) <==> KindAt(schema, lines, j).None?
  {
  }

  /** So a reading without problems has only the schema's keys on its lines, each once, and each a string to YAML. */
  lemma CleanReadingIff(schema: seq<string>, lines: seq<string>, n: nat)
    ensures Scan(schema, Scanned(map[], []), lines, n).problems == [] <==>
      forall j :: 0 <= j < |lines| ==> GoodLine(schema, lines, j)
  {
    var r := Scan(schema, Scanned(map[], []), lines, n);
    ScanMeans(schema, lines, n);
    if r.problems != [] {
      assert r.problems[0] in r.problems && Reported(schema, lines, n, r.problems[0]);
      var j :| 0 <= j < |lines| && KindAt(schema, lines, j) == Some(r.problems[0].kind);
      GoodLineIff(schema, lines, j);
    }
    if j :| 0 <= j < |lines| && !GoodLine(schema, lines, j) {
      GoodLineIff(schema, lines, j);
      var pr := Problem(n + j, KindAt(schema, lines, j).value);
      assert Reported(schema, lines, n, pr) && pr in r.problems;
    }
  }

  // ---- writing ---------------------------------------------------------------------------------------------------

  function Line(key: string, value: string): string {
    key + ": " + value
  }

  /** The lines for the schema's keys that have a value, in its order. */
  function FieldLines(schema: seq<string>, fields: Fields): seq<string> {
    if schema == [] then []
    else (if schema[0] in fields then [Line(schema[0], fields[schema[0]])] else []) + FieldLines(schema[1..], fields)
  }

  function Render(schema: seq<string>, fields: Fields): seq<string> {
    [FENCE] + FieldLines(schema, fields) + [FENCE]
  }

  // ---- the round trip --------------------------------------------------------------------------------------------

  predicate KeyOk(key: string) {
    key != "" && forall i :: 0 <= i < |key| ==> KeyChar(key[i])
  }

  /** Keys are words of key characters, each once. */
  predicate SchemaOk(schema: seq<string>) {
    && (forall i :: 0 <= i < |schema| ==> KeyOk(schema[i]))
    && forall i, j :: 0 <= i < j < |schema| ==> schema[i] != schema[j]
  }

  /** A value the format can carry: trimmed, not empty, on one line, and a string to YAML. */
  predicate Carried(v: string) {
    Trimmed(v) && '\n' !in v && !Ambiguous(v)
  }

  predicate AllCarried(schema: seq<string>, fields: Fields) {
    forall k :: k in fields ==> k in schema && Carried(fields[k])
  }

  lemma {:induction false} KeyLenOf(key: string, rest: string)
    requires (forall i :: 0 <= i < |key| ==> KeyChar(key[i])) && (rest == "" || !KeyChar(rest[0]))
    ensures KeyLen(key + rest) == |key|
  {
    if key != "" {
      KeyLenOf(key[1..], rest);
      assert (key + rest)[1..] == key[1..] + rest;
    } else {
      assert key + rest == rest;
    }
  }

  /** A written line reads back as its key and its value. */
  lemma LineMatches(key: string, value: string)
    requires KeyOk(key) && '\n' !in value
    ensures Match(Line(key, value)) == if value == "" then None else Some(Pair(key, value))
  {
    var line := Line(key, value);
    assert line == key + (": " + value);
    KeyLenOf(key, ": " + value);
    assert line[|key|] == ':' && line[|key| + 1] == ' ' && line[..|key|] == key && line[|key| + 2..] == value;
  }

  /** A written line is never a fence. */
  lemma LineIsNoFence(key: string, value: string)
    requires KeyOk(key)
    ensures Line(key, value) != FENCE
  {
    assert Line(key, value)[0] == key[0] && FENCE[0] == '-';
  }

  lemma TrimmedStays(v: string)
    requires Trimmed(v)
    ensures Stripped(v) == v
  {
  }

  // What scanning written lines gives, for any values at all.

  /** A value whose line is still a pair. */
  predicate Readable(v: string) {
    v != "" && '\n' !in v
  }

  predicate Clean(v: string) {
    Readable(v) && !Ambiguous(Stripped(v))
  }

  function ReadBack(keys: seq<string>, fields: Fields): Fields {
    map k | k in keys && k in fields && Readable(fields[k]) :: Stripped(fields[k])
  }

  predicate AllClean(keys: seq<string>, fields: Fields) {
    forall k :: k in keys && k in fields ==> Clean(fields[k])
  }

  lemma ScanWrittenLine(schema: seq<string>, s: Scanned, key: string, value: string, n: nat)
    requires key in schema && KeyOk(key) && key !in s.fields
    ensures var r := ScanLine(schema, s, Line(key, value), n);
      && r.fields == (if Readable(value) then s.fields[key := Stripped(value)] else s.fields)
      && (r.problems == [] <==> s.problems == [] && Clean(value))
  {
    if '\n' in value {
      NewlineIsNoPair(key, value);
    } else {
      LineMatches(key, value);
    }
  }

  lemma NewlineIsNoPair(key: string, value: string)
    requires KeyOk(key) && '\n' in value
    ensures Match(Line(key, value)).None?
  {
    var line := Line(key, value);
    assert line == key + (": " + value);
    KeyLenOf(key, ": " + value);
    assert line[|key| + 2..] == value;
  }

  lemma {:induction false} ScanWritten(schema: seq<string>, i: nat, fields: Fields, s: Scanned, n: nat)
    requires SchemaOk(schema) && i <= |schema| && forall k :: k in s.fields ==> k !in schema[i..]
    ensures var r := Scan(schema, s, FieldLines(schema[i..], fields), n);
      && r.fields == s.fields + ReadBack(schema[i..], fields)
      && (r.problems == [] <==> s.problems == [] && AllClean(schema[i..], fields))
    decreases |schema| - i
  {
    var keys := schema[i..];
    if keys == [] {
      assert ReadBack(keys, fields) == map[];
    } else {
      var key, rest := keys[0], schema[i + 1..];
      assert keys == [key] + rest && keys[1..] == rest;
      assert key !in rest;
      if key in fields {
        var line := Line(key, fields[key]);
        var s1 := ScanLine(schema, s, line, n);
        ScanWrittenLine(schema, s, key, fields[key], n);
        ScanWritten(schema, i + 1, fields, s1, n + 1);
        var lines := FieldLines(keys, fields);
        assert lines[0] == line && lines[1..] == FieldLines(rest, fields);
        ReadBackFirst(key, rest, fields, s, s1);
      } else {
        ScanWritten(schema, i + 1, fields, s, n);
        assert FieldLines(keys, fields) == FieldLines(rest, fields);
        assert ReadBack(keys, fields) == ReadBack(rest, fields);
      }
    }
  }

  lemma ReadBackFirst(key: string, rest: seq<string>, fields: Fields, s: Scanned, s1: Scanned)
    requires key in fields && key !in rest
    requires s1.fields == if Readable(fields[key]) then s.fields[key := Stripped(fields[key])] else s.fields
    ensures s1.fields + ReadBack(rest, fields) == s.fields + ReadBack([key] + rest, fields)
    ensures AllClean([key] + rest, fields) <==> Clean(fields[key]) && AllClean(rest, fields)
  {
    var all := [key] + rest;
    forall k ensures k in all <==> k == key || k in rest { }
    ReadBackSplit(key, rest, fields);
    if Readable(fields[key]) {
      assert s1.fields + ReadBack(rest, fields) == s.fields + (ReadBack(rest, fields)[key := Stripped(fields[key])]);
    }
  }

  lemma ReadBackSplit(key: string, rest: seq<string>, fields: Fields)
    requires key in fields && key !in rest
    ensures ReadBack([key] + rest, fields) ==
      if Readable(fields[key]) then ReadBack(rest, fields)[key := Stripped(fields[key])] else ReadBack(rest, fields)
  {
  }

  /** Every written line but the fences is a key's, so the second fence is the last line written. */
  lemma {:induction false} NoFenceWithin(schema: seq<string>, fields: Fields, i: nat)
    requires (forall j :: 0 <= j < |schema| ==> KeyOk(schema[j])) && i < |FieldLines(schema, fields)|
    ensures FieldLines(schema, fields)[i] != FENCE
  {
    if schema[0] in fields {
      if i == 0 { LineIsNoFence(schema[0], fields[schema[0]]); } else { NoFenceWithin(schema[1..], fields, i - 1); }
    } else {
      NoFenceWithin(schema[1..], fields, i);
    }
  }

  lemma {:induction false} FenceAfter(lines: seq<string>, i: nat, end: nat)
    requires i <= end < |lines| && lines[end] == FENCE && forall j :: i <= j < end ==> lines[j] != FENCE
    ensures FenceAt(lines, i) == end
    decreases end - i
  {
    if i < end { FenceAfter(lines, i + 1, end); }
  }

  /** Parsing what was written finds the written lines, and the body at its first line that is not blank. */
  lemma ParseWritten(schema: seq<string>, fields: Fields, body: seq<string>)
    requires SchemaOk(schema)
    ensures var lines := Render(schema, fields) + body;
      var s := Scan(schema, Scanned(map[], []), FieldLines(schema, fields), 2);
      var end := |FieldLines(schema, fields)| + 1;
      end < |lines| && Parse(schema, lines) == Parsed(s.fields, BodyAt(lines, end + 1), s.problems)
  {
    var mid := FieldLines(schema, fields);
    var lines := Render(schema, fields) + body;
    var end := |mid| + 1;
    assert lines[end] == FENCE && lines[1..end] == mid;
    forall j | 1 <= j < end ensures lines[j] != FENCE {
      assert lines[j] == mid[j - 1];
      NoFenceWithin(schema, fields, j - 1);
    }
    FenceAfter(lines, 1, end);
  }

  lemma StrippedIsSame(v: string)
    ensures Stripped(v) == v && v != "" <==> Trimmed(v)
  {
    if !Trimmed(v) && v != "" { assert |Stripped(v)| < |v| by { StrippedShorter(v); } }
  }

  lemma {:induction false} StrippedShorter(v: string)
    ensures |Stripped(v)| <= |v| && (v != "" && !Trimmed(v) ==> |Stripped(v)| < |v|)
    decreases |v|
  {
    if v != "" {
      if Space(v[0]) { StrippedShorter(v[1..]); } else if Space(v[|v| - 1]) { StrippedShorter(v[..|v| - 1]); }
    }
  }

  /** The written fields come back unchanged and unremarked exactly when the format can carry every value. */
  lemma RoundTripIff(schema: seq<string>, fields: Fields, body: seq<string>)
    requires SchemaOk(schema) && forall k :: k in fields ==> k in schema
    ensures var p := Parse(schema, Render(schema, fields) + body);
      && p.Parsed? && (p.fields == fields && p.problems == [] <==> AllCarried(schema, fields))
  {
    ParseWritten(schema, fields, body);
    assert schema[0..] == schema;
    ScanWritten(schema, 0, fields, Scanned(map[], []), 2);
    assert map[] + ReadBack(schema, fields) == ReadBack(schema, fields);
    SameBackIff(schema, fields);
  }

  lemma SameBackIff(schema: seq<string>, fields: Fields)
    requires forall k :: k in fields ==> k in schema
    ensures ReadBack(schema, fields) == fields && AllClean(schema, fields) <==> AllCarried(schema, fields)
  {
    var back := ReadBack(schema, fields);
    if back == fields {
      forall k | k in fields ensures Trimmed(fields[k]) { StrippedIsSame(fields[k]); assert back[k] == fields[k]; }
    }
    if AllCarried(schema, fields) {
      forall k | k in fields ensures k in back && back[k] == fields[k] { TrimmedStays(fields[k]); }
    }
  }

  // ---- the body ------------------------------------------------------------------------------------------------------

  /** A body without its leading blank lines. */
  function Unpadded(body: seq<string>): seq<string> {
    if body != [] && Blank(body[0]) then Unpadded(body[1..]) else body
  }

  lemma {:induction false} BodyAtIsUnpadded(lines: seq<string>, i: nat)
    requires i <= |lines|
    ensures lines[BodyAt(lines, i)..] == Unpadded(lines[i..])
    decreases |lines| - i
  {
    if i < |lines| && Blank(lines[i]) {
      BodyAtIsUnpadded(lines, i + 1);
      assert lines[i..][1..] == lines[i + 1..];
    }
  }

  lemma {:induction false} UnpaddedShorter(body: seq<string>)
    ensures |Unpadded(body)| <= |body| && (Unpadded(body) == body <==> body == [] || !Blank(body[0]))
  {
    if body != [] && Blank(body[0]) { UnpaddedShorter(body[1..]); }
  }

  /** The body comes back without its leading blank lines, so unchanged exactly when it has none. */
  lemma BodyRoundTrip(schema: seq<string>, fields: Fields, body: seq<string>)
    requires SchemaOk(schema)
    ensures var lines := Render(schema, fields) + body;
      var p := Parse(schema, lines);
      && p.Parsed? && p.body <= |lines| && lines[p.body..] == Unpadded(body)
      && (lines[p.body..] == body <==> body == [] || !Blank(body[0]))
  {
    ParseWritten(schema, fields, body);
    var lines, end := Render(schema, fields) + body, |FieldLines(schema, fields)| + 1;
    assert lines[end + 1..] == body;
    BodyAtIsUnpadded(lines, end + 1);
    UnpaddedShorter(body);
  }

  // ---- the other way round -------------------------------------------------------------------------------------------

  /** What a field read without a problem can be: trimmed or empty, on one line, a string to YAML, in the schema. */
  predicate ReadField(schema: seq<string>, k: string, v: string) {
    k in schema && (v == "" || Trimmed(v)) && '\n' !in v && !Ambiguous(v)
  }

  predicate AllRead(schema: seq<string>, fields: Fields) {
    forall k :: k in fields ==> ReadField(schema, k, fields[k])
  }

  lemma {:induction false} StrippedPart(v: string, c: char)
    requires c !in v
    ensures c !in Stripped(v)
    decreases |v|
  {
    if v != "" {
      if Space(v[0]) { StrippedPart(v[1..], c); } else if Space(v[|v| - 1]) { StrippedPart(v[..|v| - 1], c); }
    }
  }

  lemma ScanLineReads(schema: seq<string>, s: Scanned, line: string, n: nat)
    requires AllRead(schema, s.fields)
    ensures var r := ScanLine(schema, s, line, n);
      |s.problems| <= |r.problems| && (r.problems == [] ==> AllRead(schema, r.fields))
  {
    var m := Match(line);
    if m.Some? { StrippedPart(m.value.value, '\n'); }
  }

  lemma {:induction false} ProblemsStay(schema: seq<string>, s: Scanned, lines: seq<string>, n: nat)
    ensures |s.problems| <= |Scan(schema, s, lines, n).problems|
    decreases |lines|
  {
    if lines != [] { ProblemsStay(schema, ScanLine(schema, s, lines[0], n), lines[1..], n + 1); }
  }

  lemma {:induction false} ScanReads(schema: seq<string>, s: Scanned, lines: seq<string>, n: nat)
    requires AllRead(schema, s.fields) && Scan(schema, s, lines, n).problems == []
    ensures AllRead(schema, Scan(schema, s, lines, n).fields)
    decreases |lines|
  {
    if lines != [] {
      var s1 := ScanLine(schema, s, lines[0], n);
      ScanLineReads(schema, s, lines[0], n);
      ProblemsStay(schema, s1, lines[1..], n + 1);
      ScanReads(schema, s1, lines[1..], n + 1);
    }
  }

  /** Frontmatter read without a problem prints and reads back the same exactly when none of its values is empty. */
  lemma ReprintIff(schema: seq<string>, lines: seq<string>, body: seq<string>)
    requires SchemaOk(schema) && Parse(schema, lines).Parsed? && Parse(schema, lines).problems == []
    ensures var fields := Parse(schema, lines).fields;
      var again := Parse(schema, Render(schema, fields) + body);
      again.Parsed? && (again.fields == fields && again.problems == [] <==> forall k :: k in fields ==> fields[k] != "")
  {
    var fields := Parse(schema, lines).fields;
    var end := FenceAt(lines, 1);
    ScanReads(schema, Scanned(map[], []), lines[1..end], 2);
    RoundTripIff(schema, fields, body);
  }

  lemma BlankStrips(v: string)
    requires Blank(v)
    ensures Stripped(v) == "" && !Ambiguous("")
  {
  }

  /** A value of nothing but spaces reads without a problem, as nothing; printed, its line is no pair. */
  lemma BlankValueIsLost(schema: seq<string>, key: string, spaces: string)
    requires SchemaOk(schema) && key in schema && KeyOk(key) && spaces != "" && Blank(spaces) && '\n' !in spaces
    ensures var p := Parse(schema, [FENCE, Line(key, spaces), FENCE]);
      && p == Parsed(map[key := ""], 3, [])
      && var again := Parse(schema, Render(schema, p.fields));
      again.Parsed? && !(again.fields == p.fields && again.problems == [])
  {
    var line := Line(key, spaces);
    var lines := [FENCE, line, FENCE];
    LineIsNoFence(key, spaces);
    FenceAfter(lines, 1, 2);
    assert lines[1..2] == [line] && [line][1..] == [];
    var start := Scanned(map[], []);
    ScanWrittenLine(schema, start, key, spaces, 2);
    BlankStrips(spaces);
    var s := ScanLine(schema, start, line, 2);
    assert Scan(schema, start, [line], 2) == Scan(schema, s, [], 3) == s;
    assert s == Scanned(map[key := ""], []);
    ReprintIff(schema, lines, []);
    assert Render(schema, s.fields) + [] == Render(schema, s.fields);
    assert s.fields[key] == "";
  }

  lemma BlankStatusIsLost()
    ensures var p := Parse(ORDER, [FENCE, Line("status", "   "), FENCE]);
      && p == Parsed(map["status" := ""], 3, [])
      && var again := Parse(ORDER, Render(ORDER, p.fields));
      again.Parsed? && !(again.fields == p.fields && again.problems == [])
  {
    OrderOk();
    assert ORDER[0] == "status";
    BlankValueIsLost(ORDER, "status", "   ");
  }

  // ---- the schema as it is ---------------------------------------------------------------------------------------------

  lemma ShortKeys()
    ensures KeyOk("status") && KeyOk("raised") && KeyOk("built") && KeyOk("branch")
  {
  }

  lemma MiddleKeys()
    ensures KeyOk("promoted_from") && KeyOk("superseded_by") && KeyOk("refused_by") && KeyOk("needs_person")
  {
  }

  lemma LongKeys()
    ensures KeyOk("milestone_dependencies") && KeyOk("decision_dependencies")
    ensures KeyOk("machine_requirements") && KeyOk("specific_machine")
  {
  }

  lemma OrderDistinct(i: nat, j: nat)
    requires i < j < |ORDER|
    ensures ORDER[i] != ORDER[j]
  {
    assert |ORDER[i]| != |ORDER[j]| || ORDER[i][0] != ORDER[j][0];
  }

  /** The schema's keys meet what the round trip asks of any schema. */
  lemma OrderOk()
    ensures SchemaOk(ORDER)
  {
    ShortKeys();
    MiddleKeys();
    LongKeys();
    forall i, j | 0 <= i < j < |ORDER| ensures ORDER[i] != ORDER[j] { OrderDistinct(i, j); }
  }
}
