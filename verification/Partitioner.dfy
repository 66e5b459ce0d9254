/**
 The partition writer: four GUIDs drawn before anything is written, then the five regions of a GUID
 Partition Table laid over the disk, and a separate read-back that finds them again. The layout is that of
 section 5.3 of the UEFI Specification, with the protective MBR of section 5.2.3. What the header and entry
 bytes say is the table crate's business; where they go and come from is this module's.
 */
module Partitioner {
  import opened WrapArithmetic
  import opened Blocks

  const ARRAY_BYTES: nat := 16384
  const ARRAY_BLOCKS: nat := 32
  const PRIMARY_BUFFER: nat := 20480
  const BACKUP_BUFFER: nat := 24576

  /** The primary table, one usable block, the backup array and the backup header. */
  const SMALLEST: nat := 68

  type Guid = g: seq<Byte> | |g| == 16 witness seq(16, _ => 0)

  datatype RawImage = Image(mbr: seq<Byte>, header: seq<Byte>, entries: seq<Byte>, backup: seq<Byte>)

  predicate ImageOk(im: RawImage) {
    |im.mbr| == LBA && |im.header| == LBA && |im.entries| == ARRAY_BYTES && |im.backup| == LBA
  }

  type TableImage = im: RawImage | ImageOk(im)
    witness Image(seq(LBA, _ => 0), seq(LBA, _ => 0), seq(ARRAY_BYTES, _ => 0), seq(LBA, _ => 0))

  /** What the table crate makes of the GUIDs and the disk's size, or its refusal. */
  type Builder = (seq<Guid>, nat) -> Option<TableImage>

  function Create(build: Builder, guids: seq<Guid>, blockCount: nat): Option<TableImage> {
    if blockCount < SMALLEST then None else build(guids, blockCount)
  }

  // ---- the entropy draws --------------------------------------------------------------------------------------

  /** One answer of the entropy service: no service, or `n` meaningful bytes of a word. */
  datatype Draw = NoService | Gave(n: nat, word: seq<Byte>)

  predicate Full(d: Draw) {
    d.Gave? && d.n == 8 && |d.word| == 8
  }

  /** The version and variant bits stamped where a reader looks for them; the other 122 bits are the caller's. */
  function Stamped(bytes: Guid): (g: Guid)
    ensures g[7] / 16 == 4 && g[7] % 16 == bytes[7] % 16
    ensures g[8] / 64 == 2 && g[8] % 64 == bytes[8] % 64
    ensures forall i :: 0 <= i < 16 && i != 7 && i != 8 ==> g[i] == bytes[i]
  {
    bytes[7 := bytes[7] % 16 + 0x40][8 := bytes[8] % 64 + 0x80]
  }

  function GuidOf(draws: nat -> Draw, k: nat): Guid
    requires Full(draws(2 * k)) && Full(draws(2 * k + 1))
  {
    Stamped(draws(2 * k).word + draws(2 * k + 1).word)
  }

  /** The sixteen bytes of a drawn GUID: the first word's eight, then the second's, but for the stamped bits. */
  lemma GuidBytes(draws: nat -> Draw, k: nat, i: nat)
    requires Full(draws(2 * k)) && Full(draws(2 * k + 1)) && i < 16
    ensures var drawn := if i < 8 then draws(2 * k).word[i] else draws(2 * k + 1).word[i - 8];
      GuidOf(draws, k)[i] == if i == 7 then 0x40 + drawn % 16 else if i == 8 then 0x80 + drawn % 64 else drawn
  {
  }

  /** Every one of the eight answers was a full word. */
  ghost predicate Drawn(draws: nat -> Draw, n: nat) {
    forall k: nat :: k < n ==> Full(draws(k))
  }

  method DrawGuids(draws: nat -> Draw) returns (guids: Option<seq<Guid>>)
    ensures guids.Some? <==> Drawn(draws, 8)
    ensures guids.Some? ==> |guids.value| == 4 && forall k :: 0 <= k < 4 ==> guids.value[k] == GuidOf(draws, k)
  {
    var drawn: seq<Guid> := [];
    var k := 0;
    while k < 4
      invariant 0 <= k <= 4 && |drawn| == k && Drawn(draws, 2 * k)
      invariant forall j :: 0 <= j < k ==> drawn[j] == GuidOf(draws, j)
    {
      var lo := draws(2 * k);
      if !Full(lo) { return None; }
      var hi := draws(2 * k + 1);
      if !Full(hi) { return None; }
      drawn := drawn + [Stamped(lo.word + hi.word)];
      k := k + 1;
    }
    return Some(drawn);
  }

  // ---- the five writes ----------------------------------------------------------------------------------------

  datatype Step = Step(lba: nat, data: seq<Byte>)

  function Steps(im: TableImage, blockCount: nat): (steps: seq<Step>)
    requires blockCount >= SMALLEST
    ensures |steps| == 5
  {
    [Step(0, im.mbr), Step(1, im.header), Step(2, im.entries),
     Step(blockCount - 1 - ARRAY_BLOCKS, im.entries), Step(blockCount - 1, im.backup)]
  }

  function Laid(disk: seq<Byte>, steps: seq<Step>): (r: seq<Byte>)
    ensures |r| == |disk|
  {
    if steps == [] then disk
    else
      var n := |steps| - 1;
      Spliced(Laid(disk, steps[..n]), steps[n].lba * LBA, steps[n].data)
  }

  /** The bytes the two table copies and the protective MBR occupy. */
  predicate InTables(blockCount: nat, i: nat) {
    i < (2 + ARRAY_BLOCKS) * LBA || (blockCount >= SMALLEST && (blockCount - 1 - ARRAY_BLOCKS) * LBA <= i)
  }

  predicate Spared(old_: seq<Byte>, now: seq<Byte>, blockCount: nat) {
    |now| == |old_| && forall i :: 0 <= i < |now| && !InTables(blockCount, i) ==> now[i] == old_[i]
  }

  lemma StepInTables(im: TableImage, blockCount: nat, k: nat, i: nat)
    requires blockCount >= SMALLEST && k < 5
    ensures var s := Steps(im, blockCount)[k]; s.lba * LBA <= i < s.lba * LBA + |s.data| ==> InTables(blockCount, i)
  {
  }

  /** A write within one step's range spares everything outside the tables. */
  lemma SparedByStep(d0: seq<Byte>, d1: seq<Byte>, d2: seq<Byte>, im: TableImage, blockCount: nat, k: nat)
    requires blockCount >= SMALLEST && k < 5 && Spared(d0, d1, blockCount)
    requires Within(d1, d2, Steps(im, blockCount)[k].lba * LBA, Steps(im, blockCount)[k].data)
    ensures Spared(d0, d2, blockCount)
  {
    var s := Steps(im, blockCount)[k];
    forall i | 0 <= i < |d2| && !InTables(blockCount, i) ensures d2[i] == d0[i] {
      StepInTables(im, blockCount, k, i);
      assert OldOrNew(d1, d2, s.lba * LBA, s.data, i);
    }
  }

  datatype Verdict = NoEntropy | DiskFailed(step: nat) | Partitioned

  /** The block calls the five writes make on a disk of whole transfer blocks: two for each block touched. */
  const WRITE_CALLS: nat := 26

  /** Calls made before write `k`, on a disk of whole transfer blocks. */
  function CallsBefore(k: nat): nat
    requires k <= 5
  {
    [0, 2, 4, 14, 24, WRITE_CALLS][k]
  }

  /**
   What becomes of a run, from what is known before it: full draws, a size in logical blocks, a table that
   fits, a size in whole transfer blocks, and no failing call among the 26.
   */
  ghost function VerdictOf(size: nat, script: nat -> Outcome, calls: nat, draws: nat -> Draw, build: Builder): Verdict {
    if !Drawn(draws, 8) then NoEntropy
    else if size == 0 || size % LBA != 0 then DiskFailed(2)
    else if Create(build, Guids(draws), size / LBA).None? then DiskFailed(3)
    else if size % TRANSFER == 0 && AllWork(script, calls, WRITE_CALLS) then Partitioned
    else DiskFailed(5)
  }

  /**
   A run partitions exactly when each of eight draws is a whole word, the disk holds at least 68 logical blocks in
   whole transfer blocks, the table can be built for it, and none of the 26 calls fails.
   */
  lemma PartitionedIff(size: nat, script: nat -> Outcome, calls: nat, draws: nat -> Draw, build: Builder)
    ensures VerdictOf(size, script, calls, draws, build) == Partitioned <==>
      && (forall k: nat :: k < 8 ==> draws(k).Gave? && draws(k).n == 8 && |draws(k).word| == 8)
      && size >= 68 * 512 && size % 4096 == 0 && build(Guids(draws), size / 512).Some?
      && AllWork(script, calls, 26)
  {
    assert Drawn(draws, 8) <==> forall k: nat :: k < 8 ==> draws(k).Gave? && draws(k).n == 8 && |draws(k).word| == 8 by {
      assert forall k: nat :: k < 8 ==> (Full(draws(k)) <==> draws(k).Gave? && draws(k).n == 8 && |draws(k).word| == 8);
    }
  }

  ghost function Guids(draws: nat -> Draw): seq<Guid>
    requires Drawn(draws, 8)
  {
    [GuidOf(draws, 0), GuidOf(draws, 1), GuidOf(draws, 2), GuidOf(draws, 3)]
  }

  /**
   The partition role. A missing draw leaves the disk untouched and unasked; a failed write has changed
   nothing outside the two copies; success is the five regions laid over the old disk.
   */
  method Partition(svc: Service, draws: nat -> Draw, build: Builder) returns (verdict: Verdict)
    requires svc.Valid()
    modifies svc`disk, svc`calls, svc.page
    ensures verdict == VerdictOf(|old(svc.disk)|, svc.script, old(svc.calls), draws, build)
    ensures verdict !in {Partitioned, DiskFailed(5)} ==> svc.disk == old(svc.disk) && svc.calls == old(svc.calls)
    ensures Spared(old(svc.disk), svc.disk, |old(svc.disk)| / LBA)
    ensures verdict == Partitioned ==>
      && svc.calls == old(svc.calls) + WRITE_CALLS
      && svc.disk == Laid(old(svc.disk), Steps(build(Guids(draws), |svc.disk| / LBA).value, |svc.disk| / LBA))
  {
    var drawn := DrawGuids(draws);
    if drawn.None? { return NoEntropy; }
    var guids := drawn.value;
    assert guids == Guids(draws);
    var size := |svc.disk|;
    if size == 0 || size % LBA != 0 { return DiskFailed(2); }
    var blockCount := size / LBA;
    var made := Create(build, guids, blockCount);
    if made.None? { return DiskFailed(3); }
    var ok := WriteTables(svc, made.value, blockCount);
    return if ok then Partitioned else DiskFailed(5);
  }

  /** All five writes succeed exactly when the disk is whole transfer blocks and no call fails. */
  method WriteTables(svc: Service, im: TableImage, blockCount: nat) returns (ok: bool)
    requires svc.Valid() && blockCount >= SMALLEST && |svc.disk| == blockCount * LBA
    modifies svc`disk, svc`calls, svc.page
    ensures ok <==> blockCount * LBA % TRANSFER == 0 && AllWork(svc.script, old(svc.calls), WRITE_CALLS)
    ensures ok ==> svc.calls == old(svc.calls) + WRITE_CALLS
    ensures ok ==> svc.disk == Laid(old(svc.disk), Steps(im, blockCount))
    ensures Spared(old(svc.disk), svc.disk, blockCount)
  {
    var steps := Steps(im, blockCount);
    var k := 0;
    ghost var c0, whole := svc.calls, blockCount * LBA % TRANSFER == 0;
    while k < 5
      invariant 0 <= k <= 5 && |svc.disk| == blockCount * LBA && (k == 5 ==> whole)
      invariant whole ==> Reached(svc.script, c0, svc.calls, k)
      invariant svc.disk == Laid(old(svc.disk), steps[..k]) && Spared(old(svc.disk), svc.disk, blockCount)
    {
      ghost var was, c := svc.disk, svc.calls;
      ok := WriteAt(svc, steps[k].lba, steps[k].data);
      StepGoes(svc.script, c0, c, im, blockCount, k);
      SparedByStep(old(svc.disk), was, svc.disk, im, blockCount, k);
      if !ok { return false; }
      assert steps[..k + 1][..k] == steps[..k];
      k := k + 1;
    }
    assert steps[..5] == steps;
    return true;
  }

  /** The writes before `k` were made without a failing call. */
  ghost predicate Reached(script: nat -> Outcome, c0: nat, c: nat, k: nat)
    requires k <= 5
  {
    c == c0 + CallsBefore(k) && AllWork(script, c0, CallsBefore(k))
  }

  lemma StepGoes(script: nat -> Outcome, c0: nat, c: nat, im: TableImage, blockCount: nat, k: nat)
    requires blockCount >= SMALLEST && k < 5 && (blockCount * LBA % TRANSFER == 0 ==> Reached(script, c0, c, k))
    ensures var whole, s := blockCount * LBA % TRANSFER == 0, Steps(im, blockCount)[k];
      var n := 2 * Touched(s.lba * LBA, |s.data|);
      if OnDisk(blockCount * LBA, s.lba * LBA, |s.data|) && AllWork(script, c, n)
      then (whole ==> Reached(script, c0, c + n, k + 1)) && (k == 4 ==> whole)
      else !(whole && AllWork(script, c0, WRITE_CALLS))
  {
    StepCost(im, blockCount, k);
    CallsSplit(script, c0, CallsBefore(k), CallsBefore(k + 1) - CallsBefore(k));
    CallsSplit(script, c0, CallsBefore(k + 1), WRITE_CALLS - CallsBefore(k + 1));
  }

  /** What each write costs on a disk of whole transfer blocks; on any other the last one is not on the disk. */
  lemma StepCost(im: TableImage, blockCount: nat, k: nat)
    requires blockCount >= SMALLEST && k < 5
    ensures var s := Steps(im, blockCount)[k];
      && (blockCount * LBA % TRANSFER == 0 ==>
            && OnDisk(blockCount * LBA, s.lba * LBA, |s.data|)
            && CallsBefore(k) + 2 * Touched(s.lba * LBA, |s.data|) == CallsBefore(k + 1))
      && (k == 4 && OnDisk(blockCount * LBA, s.lba * LBA, |s.data|) ==> blockCount * LBA % TRANSFER == 0)
  {
  }

  // ---- what the five writes leave -----------------------------------------------------------------------------

  predicate Region(disk: seq<Byte>, s: Step) {
    s.lba * LBA + |s.data| <= |disk| && disk[s.lba * LBA..s.lba * LBA + |s.data|] == s.data
  }

  predicate Apart(a: Step, b: Step) {
    a.lba * LBA + |a.data| <= b.lba * LBA || b.lba * LBA + |b.data| <= a.lba * LBA
  }

  /** A later write that misses a region leaves it. */
  lemma RegionSurvives(disk: seq<Byte>, s: Step, later: Step)
    requires Region(disk, s) && Apart(s, later)
    ensures Region(Spliced(disk, later.lba * LBA, later.data), s)
  {
    var r := Spliced(disk, later.lba * LBA, later.data);
    var lo, hi := s.lba * LBA, s.lba * LBA + |s.data|;
    forall i | lo <= i < hi ensures r[i] == disk[i] { }
  }

  lemma RegionWritten(disk: seq<Byte>, s: Step)
    requires s.lba * LBA + |s.data| <= |disk|
    ensures Region(Spliced(disk, s.lba * LBA, s.data), s)
  {
  }

  /** The five regions lie on the disk, and no two overlap. */
  lemma StepsApart(im: TableImage, blockCount: nat, j: nat, k: nat)
    requires blockCount >= SMALLEST && j < k < 5
    ensures Apart(Steps(im, blockCount)[j], Steps(im, blockCount)[k])
    ensures Steps(im, blockCount)[k].lba * LBA + |Steps(im, blockCount)[k].data| <= blockCount * LBA
  {
  }

  predicate RegionsUpTo(disk: seq<Byte>, steps: seq<Step>, n: nat)
    requires n <= |steps|
  {
    forall j :: 0 <= j < n ==> Region(disk, steps[j])
  }

  lemma StepHolds(disk: seq<Byte>, im: TableImage, blockCount: nat, n: nat)
    requires blockCount >= SMALLEST && |disk| == blockCount * LBA && n < 5
    requires RegionsUpTo(disk, Steps(im, blockCount), n)
    ensures var s := Steps(im, blockCount)[n];
      RegionsUpTo(Spliced(disk, s.lba * LBA, s.data), Steps(im, blockCount), n + 1)
  {
    var steps := Steps(im, blockCount);
    RegionWritten(disk, steps[n]);
    forall j | 0 <= j < n ensures Region(Spliced(disk, steps[n].lba * LBA, steps[n].data), steps[j]) {
      StepsApart(im, blockCount, j, n);
      RegionSurvives(disk, steps[j], steps[n]);
    }
  }

  /** Because the regions do not overlap, every one of them ends up with its own bytes. */
  lemma {:induction false} FiveWritesHold(disk: seq<Byte>, im: TableImage, blockCount: nat, n: nat)
    requires blockCount >= SMALLEST && |disk| == blockCount * LBA && n <= 5
    ensures RegionsUpTo(Laid(disk, Steps(im, blockCount)[..n]), Steps(im, blockCount), n)
  {
    if n > 0 {
      FiveWritesHold(disk, im, blockCount, n - 1);
      var steps := Steps(im, blockCount);
      assert steps[..n][..n - 1] == steps[..n - 1];
      StepHolds(Laid(disk, steps[..n - 1]), im, blockCount, n - 1);
    }
  }

  // ---- the read-back -------------------------------------------------------------------------------------------

  /** What the primary table says of itself: the logical block its backup array starts at, or no table. */
  type Parser = (seq<Byte>, seq<Byte>) -> Option<nat>

  datatype Backup = NotRead | Found(entries: seq<Byte>, header: seq<Byte>)

  datatype Readback =
    | Unreadable
    | NoTable(mbr: seq<Byte>)
    | Table(mbr: seq<Byte>, header: seq<Byte>, rest: seq<Byte>, backup: Backup)

  /** The five-block head can be read: a size in logical blocks, long enough, and none of five calls fails. */
  ghost predicate HeadReadable(size: nat, script: nat -> Outcome, calls: nat) {
    size % LBA == 0 && PRIMARY_BUFFER <= size && AllWork(script, calls, PRIMARY_BUFFER / TRANSFER)
  }

  /** The first byte of the transfer block a claimed backup array starts in. */
  function TailStart(claimed: nat): (at: nat)
    ensures at % TRANSFER == 0 && at <= claimed * LBA < at + TRANSFER
  {
    claimed * LBA / TRANSFER * TRANSFER
  }

  /**
   The tail can be read from a claimed start: it leaves a block for the header, the six-block buffer reaches
   back to it, the disk is whole transfer blocks, and no call fails.
   */
  ghost predicate TailReadable(size: nat, claimed: nat, script: nat -> Outcome, calls: nat) {
    && (claimed + 1) * LBA < size <= TailStart(claimed) + BACKUP_BUFFER && size % TRANSFER == 0
    && AllWork(script, calls, (size - TailStart(claimed)) / TRANSFER)
  }

  /** The backup as read from the claimed start: found exactly when it can be, and then the disk's bytes. */
  ghost predicate IsBackup(b: Backup, disk: seq<Byte>, claimed: nat, script: nat -> Outcome, calls: nat) {
    && (b.Found? <==> TailReadable(|disk|, claimed, script, calls))
    && (b.Found? ==>
          && (claimed + 1) * LBA < |disk|
          && b == Found(disk[claimed * LBA..|disk| - LBA], disk[|disk| - LBA..]))
  }

  /** A read-back of this disk: how far it got is decided by the calls, and every piece is the disk's own bytes. */
  ghost predicate IsReadBack(r: Readback, disk: seq<Byte>, parse: Parser, script: nat -> Outcome, calls: nat) {
    if !HeadReadable(|disk|, script, calls) then r == Unreadable
    else
      var mbr, header, rest := disk[..LBA], disk[LBA..2 * LBA], disk[2 * LBA..PRIMARY_BUFFER];
      if parse(header, rest).None? then r == NoTable(mbr)
      else
        && r.Table? && r.mbr == mbr && r.header == header && r.rest == rest
        && IsBackup(r.backup, disk, parse(header, rest).value, script, calls + PRIMARY_BUFFER / TRANSFER)
  }

  /**
   The verify role's reads, for any disk and whatever its header claims: no slice leaves its buffer, each
   piece handed on is the disk's bytes at that place, and none is withheld that could be read.
   */
  method ReadTables(svc: Service, parse: Parser, head: array<Byte>, tail: array<Byte>) returns (r: Readback)
    requires svc.Valid() && head.Length == PRIMARY_BUFFER && tail.Length == BACKUP_BUFFER
    requires head != svc.page && tail != svc.page && head != tail && |svc.disk| < U64
    modifies svc`calls, svc.page, head, tail
    ensures IsReadBack(r, svc.disk, parse, svc.script, old(svc.calls))
  {
    var size := |svc.disk|;
    if size == 0 || size % LBA != 0 { return Unreadable; }
    var blockCount := size / LBA;
    var ok := ReadAt(svc, 0, head);
    if !ok { return Unreadable; }
    var mbr, header, rest := head[..LBA], head[LBA..2 * LBA], head[2 * LBA..];
    assert head[..] == svc.disk[0..PRIMARY_BUFFER];
    assert mbr == svc.disk[..LBA] && header == svc.disk[LBA..2 * LBA] && rest == svc.disk[2 * LBA..PRIMARY_BUFFER];
    var found := parse(header, rest);
    if found.None? { return NoTable(mbr); }
    var backup := ReadBackup(svc, found.value, blockCount, tail);
    return Table(mbr, header, rest, backup);
  }

  method ReadBackup(svc: Service, claimed: nat, blockCount: nat, tail: array<Byte>) returns (b: Backup)
    requires svc.Valid() && tail.Length == BACKUP_BUFFER && tail != svc.page
    requires |svc.disk| == blockCount * LBA < U64
    modifies svc`calls, svc.page, tail
    ensures IsBackup(b, svc.disk, claimed, svc.script, old(svc.calls))
  {
    var blocks := if blockCount > claimed then blockCount - claimed else 0;
    if blocks <= 1 { return NotRead; }
    var span := Covering(claimed * LBA, blocks * LBA, TRANSFER);
    TailSpan(claimed, blocks);
    if span.value.blocks * TRANSFER > BACKUP_BUFFER { return NotRead; }
    var ok := ReadSpan(svc, span.value, tail);
    if !ok { return NotRead; }
    SpanRecovers(svc.disk, claimed * LBA, blocks * LBA, span.value, tail[..]);
    var back := span.value.offset;
    var header := back + (blocks - 1) * LBA;
    CutInTwo(svc.disk, claimed * LBA, tail[..], back, (blocks - 1) * LBA);
    return Found(tail[back..header], tail[header..header + LBA]);
  }

  /** The tail's span never overflows, and it can be read exactly when the disk ends on a transfer block in reach. */
  lemma TailSpan(claimed: nat, blocks: nat)
    requires blocks > 1 && (claimed + blocks) * LBA < U64
    ensures Covering(claimed * LBA, blocks * LBA, TRANSFER).Some?
    ensures var s, size := Covering(claimed * LBA, blocks * LBA, TRANSFER).value, (claimed + blocks) * LBA;
      && (SpanReadable(size, s, BACKUP_BUFFER) <==> size % TRANSFER == 0 && size <= TailStart(claimed) + BACKUP_BUFFER)
      && (size % TRANSFER == 0 ==> s.blocks == (size - TailStart(claimed)) / TRANSFER)
  {
    NoOverflow(claimed * LBA, blocks * LBA);
    CoveringIsTight(claimed * LBA, blocks * LBA, TRANSFER);
    var s := Covering(claimed * LBA, blocks * LBA, TRANSFER).value;
    SpanEnd(s.first, s.blocks, s.offset + blocks * LBA, (claimed + blocks) * LBA);
  }

  /** The last block of a tight span ends where the range does, exactly when that is a transfer block's end. */
  lemma SpanEnd(first: nat, blocks: nat, n: nat, end: nat)
    requires first * TRANSFER + n == end && (blocks - 1) * TRANSFER < n <= blocks * TRANSFER
    ensures (first + blocks) * TRANSFER <= end <==> end % TRANSFER == 0
    ensures end % TRANSFER == 0 ==> blocks * TRANSFER == end - first * TRANSFER
  {
    if end % TRANSFER == 0 {
      var q := end / TRANSFER - first;
      assert q * TRANSFER == n;
      assert q == blocks;
    }
  }

  /** A range that matches the end of the disk matches in both parts: all but the last block, and the last block. */
  lemma CutInTwo(disk: seq<Byte>, at: nat, tail: seq<Byte>, off: nat, n: nat)
    requires at + n + LBA == |disk| && off + n + LBA <= |tail| && tail[off..off + (n + LBA)] == disk[at..at + (n + LBA)]
    ensures tail[off..off + n] == disk[at..|disk| - LBA] && tail[off + n..off + n + LBA] == disk[|disk| - LBA..]
  {
    assert tail[off..off + n] == tail[off..off + (n + LBA)][..n];
    assert tail[off + n..off + n + LBA] == tail[off..off + (n + LBA)][n..];
  }

  lemma NoOverflow(at: nat, len: nat)
    requires len > 0 && at + len < U64
    ensures Covering(at, len, TRANSFER).Some?
  {
    DivModOf(at, TRANSFER);
    DivModOf(at % TRANSFER + (len - 1), TRANSFER);
  }

  // ---- partition, then verify ------------------------------------------------------------------------------------

  lemma LaidHolds(disk: seq<Byte>, im: TableImage, blockCount: nat, now: seq<Byte>)
    requires blockCount >= SMALLEST && |disk| == blockCount * LBA && now == Laid(disk, Steps(im, blockCount))
    ensures RegionsUpTo(now, Steps(im, blockCount), 5)
  {
    FiveWritesHold(disk, im, blockCount, 5);
    assert Steps(im, blockCount)[..5] == Steps(im, blockCount);
  }

  /** The places a read-back looks at hold the image's pieces. */
  lemma PiecesAreTheImage(now: seq<Byte>, im: TableImage, blockCount: nat)
    requires blockCount >= SMALLEST && |now| == blockCount * LBA && RegionsUpTo(now, Steps(im, blockCount), 5)
    ensures now[..LBA] == im.mbr && now[LBA..2 * LBA] == im.header
    ensures now[2 * LBA..PRIMARY_BUFFER][..ARRAY_BYTES] == im.entries
    ensures now[(blockCount - 1 - ARRAY_BLOCKS) * LBA..|now| - LBA] == im.entries && now[|now| - LBA..] == im.backup
  {
    var steps := Steps(im, blockCount);
    assert Region(now, steps[0]) && Region(now, steps[1]) && Region(now, steps[2]);
    assert Region(now, steps[3]) && Region(now, steps[4]);
    assert now[2 * LBA..PRIMARY_BUFFER][..ARRAY_BYTES] == now[2 * LBA..2 * LBA + ARRAY_BYTES];
    assert now[|now| - LBA..] == now[|now| - LBA..|now|];
  }

  /** The calls a read-back of a table of this layout makes: five for the head and five for the tail. */
  const READ_CALLS: nat := 10

  /**
   The backup of a table of this size is always five transfer blocks, wherever the disk's size puts its start,
   so on a disk of whole transfer blocks the six-block buffer always reaches it.
   */
  lemma BackupIsFiveBlocks(blockCount: nat, script: nat -> Outcome, calls: nat)
    requires SMALLEST <= blockCount && blockCount * LBA % TRANSFER == 0
    ensures TailReadable(blockCount * LBA, blockCount - 1 - ARRAY_BLOCKS, script, calls) <==> AllWork(script, calls, 5)
  {
    var start := TailStart(blockCount - 1 - ARRAY_BLOCKS);
    assert blockCount * LBA - start == 5 * TRANSFER;
  }

  lemma BackupRecovered(now: seq<Byte>, im: TableImage, blockCount: nat, script: nat -> Outcome, calls: nat, b: Backup)
    requires blockCount >= SMALLEST && |now| == blockCount * LBA && |now| % TRANSFER == 0
    requires RegionsUpTo(now, Steps(im, blockCount), 5)
    requires IsBackup(b, now, blockCount - 1 - ARRAY_BLOCKS, script, calls)
    ensures b == if AllWork(script, calls, 5) then Found(im.entries, im.backup) else NotRead
  {
    PiecesAreTheImage(now, im, blockCount);
    BackupIsFiveBlocks(blockCount, script, calls);
  }

  /**
   The round trip: on a disk the five writes completed, the read-back recovers the MBR, the header, the array
   and both parts of the backup exactly when none of its ten calls fails; a failure among the first five leaves
   it nothing, and one among the last five costs it only the backup.
   */
  lemma PartitionThenVerify(disk: seq<Byte>, im: TableImage, blockCount: nat, now: seq<Byte>, parse: Parser,
                            script: nat -> Outcome, calls: nat, r: Readback)
    requires blockCount >= SMALLEST && |disk| == blockCount * LBA && |disk| % TRANSFER == 0
    requires now == Laid(disk, Steps(im, blockCount))
    requires parse(im.header, now[2 * LBA..PRIMARY_BUFFER]) == Some(blockCount - 1 - ARRAY_BLOCKS)
    requires IsReadBack(r, now, parse, script, calls)
    ensures var rest := now[2 * LBA..PRIMARY_BUFFER];
      && rest[..ARRAY_BYTES] == im.entries
      && r == (if !AllWork(script, calls, 5) then Unreadable
               else if !AllWork(script, calls + 5, 5) then Table(im.mbr, im.header, rest, NotRead)
               else Table(im.mbr, im.header, rest, Found(im.entries, im.backup)))
  {
    LaidHolds(disk, im, blockCount, now);
    TablesReadBack(now, im, blockCount, parse, script, calls, r);
  }

  lemma TablesReadBack(now: seq<Byte>, im: TableImage, blockCount: nat, parse: Parser, script: nat -> Outcome,
                       calls: nat, r: Readback)
    requires blockCount >= SMALLEST && |now| == blockCount * LBA && |now| % TRANSFER == 0
    requires RegionsUpTo(now, Steps(im, blockCount), 5)
    requires parse(im.header, now[2 * LBA..PRIMARY_BUFFER]) == Some(blockCount - 1 - ARRAY_BLOCKS)
    requires IsReadBack(r, now, parse, script, calls)
    ensures now[2 * LBA..PRIMARY_BUFFER][..ARRAY_BYTES] == im.entries
    ensures r == if !AllWork(script, calls, 5) then Unreadable
                 else Table(im.mbr, im.header, now[2 * LBA..PRIMARY_BUFFER],
                            if AllWork(script, calls + 5, 5) then Found(im.entries, im.backup) else NotRead)
  {
    PiecesAreTheImage(now, im, blockCount);
    assert HeadReadable(|now|, script, calls) <==> AllWork(script, calls, 5);
    if r.Table? { BackupRecovered(now, im, blockCount, script, calls + 5, r.backup); }
  }

  /**
   Both roles one after the other on one disk: a run that partitioned, read back over a device that fails
   none of the ten reads, gives the image built from the drawn GUIDs.
   */
  method PartitionAndVerify(svc: Service, draws: nat -> Draw, build: Builder, parse: Parser, head: array<Byte>,
                            tail: array<Byte>) returns (verdict: Verdict, r: Readback)
    requires svc.Valid() && head.Length == PRIMARY_BUFFER && tail.Length == BACKUP_BUFFER
    requires head != svc.page && tail != svc.page && head != tail && |svc.disk| < U64
    requires ParsesWhatIsBuilt(build, parse)
    modifies svc`disk, svc`calls, svc.page, head, tail
    ensures verdict == VerdictOf(|svc.disk|, svc.script, old(svc.calls), draws, build)
    ensures verdict == Partitioned ==>
      var im: TableImage := build(Guids(draws), |svc.disk| / LBA).value;
      var rest := svc.disk[2 * LBA..PRIMARY_BUFFER];
      && rest[..ARRAY_BYTES] == im.entries
      && (r == Table(im.mbr, im.header, rest, Found(im.entries, im.backup))
          <==> AllWork(svc.script, old(svc.calls) + WRITE_CALLS, READ_CALLS))
  {
    ghost var was := svc.disk;
    verdict := Partition(svc, draws, build);
    ghost var calls := svc.calls;
    r := ReadTables(svc, parse, head, tail);
    if verdict == Partitioned {
      ghost var blockCount := |svc.disk| / LBA;
      ghost var im: TableImage := build(Guids(draws), blockCount).value;
      LaidHolds(was, im, blockCount, svc.disk);
      PiecesAreTheImage(svc.disk, im, blockCount);
      PartitionThenVerify(was, im, blockCount, svc.disk, parse, svc.script, calls, r);
      CallsSplit(svc.script, calls, 5, 5);
    }
  }

  /** The parser reads back where a built table says its backup array starts, whatever follows the array. */
  ghost predicate ParsesWhatIsBuilt(build: Builder, parse: Parser) {
    forall guids, blockCount: nat, rest: seq<Byte> {:trigger build(guids, blockCount), parse(build(guids, blockCount).value.header, rest)} ::
      build(guids, blockCount).Some? && |rest| >= ARRAY_BYTES && rest[..ARRAY_BYTES] == build(guids, blockCount).value.entries
        && blockCount >= SMALLEST
      ==> parse(build(guids, blockCount).value.header, rest) == Some(blockCount - 1 - ARRAY_BLOCKS)
  }
}
