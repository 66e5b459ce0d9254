/**
 A disk reached one 4096-byte block at a time through a shared page, and the partitioner's unaligned
 writes and reads over it. A block call may fail at any moment, and a failed one may have moved any part
 of its block.
 */
module Blocks {
  import opened WrapArithmetic

  type Byte = b: nat | b < 256

  const TRANSFER: nat := 4096
  const LBA: nat := 512
  const U64: nat := 0x1_0000_0000_0000_0000

  datatype Option<+T> = None | Some(value: T)

  // ---- laying bytes over a disk ---------------------------------------------------------------------------

  /** The disk with `data` laid over it at byte `at`. */
  function Spliced(disk: seq<Byte>, at: nat, data: seq<Byte>): (r: seq<Byte>)
    ensures |r| == |disk|
  {
    if at + |data| <= |disk| then disk[..at] + data + disk[at + |data|..] else disk
  }

  /** A byte of a disk that some writes may have reached: the old byte, or the one laid there. */
  predicate OldOrNew(old_: seq<Byte>, now: seq<Byte>, at: nat, data: seq<Byte>, i: nat)
    requires |old_| == |now| && i < |now|
  {
    now[i] == old_[i] || (at <= i < at + |data| && now[i] == data[i - at])
  }

  /** Nothing outside the range changed, and inside it nothing but the data has appeared. */
  predicate Within(old_: seq<Byte>, now: seq<Byte>, at: nat, data: seq<Byte>) {
    |now| == |old_| && forall i :: 0 <= i < |now| ==> OldOrNew(old_, now, at, data, i)
  }

  lemma SplicedWithin(disk: seq<Byte>, at: nat, data: seq<Byte>, n: nat)
    requires n <= |data|
    ensures Within(disk, Spliced(disk, at, data[..n]), at, data)
  {
  }

  lemma SplicedOn(disk: seq<Byte>, at: nat, data: seq<Byte>, n: nat, m: nat)
    requires n <= m <= |data| && at + m <= |disk|
    ensures Spliced(Spliced(disk, at, data[..n]), at + n, data[n..m]) == Spliced(disk, at, data[..m])
  {
    assert data[..n] + data[n..m] == data[..m];
  }

  /** One block read, patched and written back is the patch laid over the disk. */
  lemma PatchedBlock(disk: seq<Byte>, base: nat, off: nat, patch: seq<Byte>)
    requires base + TRANSFER <= |disk| && off + |patch| <= TRANSFER
    ensures var block := disk[base..base + TRANSFER];
      Spliced(disk, base, Spliced(block, off, patch)) == Spliced(disk, base + off, patch)
  {
    var block := disk[base..base + TRANSFER];
    var left, right := Spliced(disk, base, Spliced(block, off, patch)), Spliced(disk, base + off, patch);
    forall i | 0 <= i < |disk| ensures left[i] == right[i] {
      if base <= i < base + TRANSFER { assert block[i - base] == disk[i]; }
    }
  }

  // ---- the block service -------------------------------------------------------------------------------------

  /** What the device makes of one call; a failure may have moved the bytes whose offsets are in `moved`. */
  datatype Outcome = Works | Fails(moved: set<nat>)

  function Torn(disk: seq<Byte>, base: nat, page: seq<Byte>, moved: set<nat>): (r: seq<Byte>)
    requires |page| == TRANSFER
    ensures |r| == |disk|
  {
    seq(|disk|, i requires 0 <= i < |disk| =>
      if base <= i < base + TRANSFER && i - base in moved then page[i - base] else disk[i])
  }

  /** A write torn anywhere still leaves only old bytes and patched ones, in the patch's range. */
  lemma TornWithin(disk: seq<Byte>, base: nat, off: nat, patch: seq<Byte>, moved: set<nat>)
    requires base + TRANSFER <= |disk| && off + |patch| <= TRANSFER
    ensures var block := disk[base..base + TRANSFER];
      Within(disk, Torn(disk, base, Spliced(block, off, patch), moved), base + off, patch)
  {
  }

  lemma WithinTwice(d0: seq<Byte>, d1: seq<Byte>, d2: seq<Byte>, at: nat, data: seq<Byte>, n: nat, m: nat)
    requires n <= m <= |data| && Within(d0, d1, at, data) && Within(d1, d2, at + n, data[n..m])
    ensures Within(d0, d2, at, data)
  {
    forall i | 0 <= i < |d2| ensures OldOrNew(d0, d2, at, data, i) {
      assert OldOrNew(d0, d1, at, data, i) && OldOrNew(d1, d2, at + n, data[n..m], i);
    }
  }

  class Service {
    var disk: seq<Byte>
    var calls: nat
    const page: array<Byte>
    /** The device's behaviour, call by call: any of them at all. */
    const script: nat -> Outcome

    ghost predicate Valid()
      reads this
    {
      page.Length == TRANSFER
    }

    constructor (disk: seq<Byte>, page: array<Byte>, script: nat -> Outcome)
      requires page.Length == TRANSFER
      ensures Valid() && this.disk == disk && this.page == page && this.script == script && calls == 0
    {
      this.disk, this.page, this.script, calls := disk, page, script, 0;
    }

    /** READ: the block lands in the page, or the call fails and the page holds anything of the two. */
    method Read(block: nat) returns (ok: bool)
      requires Valid()
      modifies page, this`calls
      ensures calls == old(calls) + 1
      ensures ok <==> script(old(calls)).Works? && block * TRANSFER + TRANSFER <= |disk|
      ensures ok ==> page[..] == disk[block * TRANSFER..block * TRANSFER + TRANSFER]
    {
      var out := script(calls);
      calls := calls + 1;
      ok := out.Works? && block * TRANSFER + TRANSFER <= |disk|;
      if ok {
        forall i | 0 <= i < TRANSFER { page[i] := disk[block * TRANSFER + i]; }
      } else if out.Fails? && block * TRANSFER + TRANSFER <= |disk| {
        forall i | 0 <= i < TRANSFER && i in out.moved { page[i] := disk[block * TRANSFER + i]; }
      }
    }

    /** WRITE: the page replaces the block, or the call fails having written any part of it. */
    method Write(block: nat) returns (ok: bool)
      requires Valid()
      modifies this`disk, this`calls
      ensures calls == old(calls) + 1
      ensures ok <==> script(old(calls)).Works? && block * TRANSFER + TRANSFER <= |old(disk)|
      ensures ok ==> disk == Spliced(old(disk), block * TRANSFER, page[..])
      ensures !ok ==>
        || disk == old(disk)
        || (script(old(calls)).Fails? && disk == Torn(old(disk), block * TRANSFER, page[..], script(old(calls)).moved))
    {
      var out := script(calls);
      calls := calls + 1;
      var base := block * TRANSFER;
      ok := out.Works? && base + TRANSFER <= |disk|;
      if ok {
        disk := Spliced(disk, base, page[..]);
      } else if out.Fails? && base + TRANSFER <= |disk| {
        disk := Torn(disk, base, page[..], out.moved);
      }
    }
  }

  // ---- unaligned writes and reads ---------------------------------------------------------------------------

  /** The next block a write touches: which, where in it, and how much. */
  lemma BlockOf(at: nat)
    ensures var b, off := at / TRANSFER, at % TRANSFER; b * TRANSFER + off == at && off < TRANSFER
  {
    DivModOf(at, TRANSFER);
  }

  /** How many transfer blocks hold any of `len` bytes at `at`. */
  function Touched(at: nat, len: nat): nat {
    if len == 0 then 0 else (at + len - 1) / TRANSFER - at / TRANSFER + 1
  }

  /** Every block a range touches is wholly on a disk of this size. */
  predicate OnDisk(size: nat, at: nat, len: nat) {
    len == 0 || (at + len - 1) / TRANSFER * TRANSFER + TRANSFER <= size
  }

  /** The device fails none of `n` calls from call `from` on. */
  ghost predicate AllWork(script: nat -> Outcome, from: nat, n: nat) {
    forall i {:trigger script(i)} :: from <= i < from + n ==> script(i).Works?
  }

  /** As much of `data` as one block takes: read the block, patch it in the page, write it back. */
  method WriteBlock(svc: Service, at: nat, data: seq<Byte>) returns (ok: bool, n: nat)
    requires svc.Valid() && data != []
    modifies svc`disk, svc`calls, svc.page
    ensures 0 < n <= |data| && n == (if TRANSFER - at % TRANSFER < |data| then TRANSFER - at % TRANSFER else |data|)
    ensures |svc.disk| == |old(svc.disk)|
    ensures ok <==> AllWork(svc.script, old(svc.calls), 2) && at / TRANSFER * TRANSFER + TRANSFER <= |svc.disk|
    ensures ok ==> svc.calls == old(svc.calls) + 2 && svc.disk == Spliced(old(svc.disk), at, data[..n])
    ensures !ok ==> Within(old(svc.disk), svc.disk, at, data[..n])
  {
    var block, offset := at / TRANSFER, at % TRANSFER;
    BlockOf(at);
    n := if TRANSFER - offset < |data| then TRANSFER - offset else |data|;
    ghost var was, base, patch, c := svc.disk, block * TRANSFER, data[..n], svc.calls;
    TwoCalls(svc.script, c);
    ok := svc.Read(block);
    if !ok { return; }
    ghost var read := was[base..base + TRANSFER];
    Patch(svc.page, offset, data, n);
    ghost var patched := svc.page[..];
    assert patched == Spliced(read, offset, patch);
    ok := svc.Write(block);
    if ok {
      PatchedBlock(was, base, offset, patch);
    } else if svc.script(c + 1).Fails? {
      TornWithin(was, base, offset, patch, svc.script(c + 1).moved);
    }
  }

  lemma TwoCalls(script: nat -> Outcome, c: nat)
    ensures AllWork(script, c, 2) <==> script(c).Works? && script(c + 1).Works?
  {
  }

  /**
   Lay `data` over the disk from a logical block on, preserving everything else in the blocks it touches.
   Success means exactly that, and comes exactly when every block touched is on the disk and the device
   fails none of the two calls each takes; a failure part-way has changed nothing outside the range and put
   nothing but the data inside it.
   */
  method WriteAt(svc: Service, first: nat, data: seq<Byte>) returns (ok: bool)
    requires svc.Valid()
    modifies svc`disk, svc`calls, svc.page
    ensures ok <==> OnDisk(|old(svc.disk)|, first * LBA, |data|)
                    && AllWork(svc.script, old(svc.calls), 2 * Touched(first * LBA, |data|))
    ensures ok ==> svc.calls == old(svc.calls) + 2 * Touched(first * LBA, |data|)
    ensures ok ==> svc.disk == Spliced(old(svc.disk), first * LBA, data)
    ensures Within(old(svc.disk), svc.disk, first * LBA, data)
  {
    var at := first * LBA;
    var done := 0;
    ghost var size, c0 := |svc.disk|, svc.calls;
    while done < |data|
      invariant |svc.disk| == size && done <= |data|
      invariant Going(svc.script, c0, svc.calls, size, at, done, |data|)
      invariant svc.disk == Spliced(old(svc.disk), at, data[..done])
    {
      ghost var was, c := svc.disk, svc.calls;
      var wrote, n := WriteBlock(svc, at + done, data[done..]);
      GoesOn(svc.script, c0, c, size, at, done, n, |data|, wrote);
      if !wrote {
        BlockFailed(old(svc.disk), was, svc.disk, at, data, done, n);
        return false;
      }
      BlockWritten(old(svc.disk), was, svc.disk, at, data, done, n);
      done := done + n;
    }
    AllWritten(old(svc.disk), at, data, done);
    return true;
  }

  /** A write that has come `done` bytes without a failure, at a block boundary unless at either end. */
  ghost predicate Going(script: nat -> Outcome, c0: nat, c: nat, size: nat, at: nat, done: nat, len: nat) {
    && c == c0 + 2 * Touched(at, done) && AllWork(script, c0, 2 * Touched(at, done)) && OnDisk(size, at, done)
    && (0 < done < len ==> (at + done) % TRANSFER == 0)
  }

  lemma GoesOn(script: nat -> Outcome, c0: nat, c: nat, size: nat, at: nat, done: nat, n: nat, len: nat, ok: bool)
    requires Going(script, c0, c, size, at, done, len) && done + n <= len && n > 0
    requires n == if TRANSFER - (at + done) % TRANSFER < len - done then TRANSFER - (at + done) % TRANSFER else len - done
    requires ok <==> AllWork(script, c, 2) && (at + done) / TRANSFER * TRANSFER + TRANSFER <= size
    ensures ok ==> Going(script, c0, c + 2, size, at, done + n, len) && at + done + n <= size
    ensures !ok ==> !(OnDisk(size, at, len) && AllWork(script, c0, 2 * Touched(at, len)))
  {
    TouchedNext(at, done, n, len, size);
    CallsSplit(script, c0, 2 * Touched(at, done), 2);
    CallsSplit(script, c0, 2 * Touched(at, done + n), 2 * Touched(at, len) - 2 * Touched(at, done + n));
  }

  lemma CallsSplit(script: nat -> Outcome, from: nat, n: nat, m: nat)
    ensures AllWork(script, from, n + m) <==> AllWork(script, from, n) && AllWork(script, from + n, m)
  {
  }

  /** A write that goes on to the end of its block or its data touches one block more, and never one it need not. */
  lemma TouchedNext(at: nat, done: nat, n: nat, len: nat, size: nat)
    requires done + n <= len && n > 0 && (done > 0 ==> (at + done) % TRANSFER == 0)
    requires n == if TRANSFER - (at + done) % TRANSFER < len - done then TRANSFER - (at + done) % TRANSFER else len - done
    ensures Touched(at, done + n) == Touched(at, done) + 1 <= Touched(at, len)
    ensures done + n < len ==> (at + done + n) % TRANSFER == 0
    ensures OnDisk(size, at, done + n) <==> (at + done) / TRANSFER * TRANSFER + TRANSFER <= size
    ensures OnDisk(size, at, len) ==> OnDisk(size, at, done + n)
    ensures OnDisk(size, at, done + n) ==> at + done + n <= size
  {
  }

  lemma AllWritten(disk: seq<Byte>, at: nat, data: seq<Byte>, done: nat)
    requires done == |data|
    ensures Spliced(disk, at, data[..done]) == Spliced(disk, at, data)
    ensures Within(disk, Spliced(disk, at, data), at, data)
  {
    assert data[..done] == data;
    SplicedWithin(disk, at, data, done);
  }

  lemma BlockWritten(d0: seq<Byte>, d1: seq<Byte>, d2: seq<Byte>, at: nat, data: seq<Byte>, done: nat, n: nat)
    requires done + n <= |data| && d1 == Spliced(d0, at, data[..done]) && d2 == Spliced(d1, at + done, data[done..][..n])
    requires at + done + n <= |d0|
    ensures d2 == Spliced(d0, at, data[..done + n])
  {
    assert data[done..][..n] == data[done..done + n];
    SplicedOn(d0, at, data, done, done + n);
  }

  lemma BlockFailed(d0: seq<Byte>, d1: seq<Byte>, d2: seq<Byte>, at: nat, data: seq<Byte>, done: nat, n: nat)
    requires done + n <= |data| && d1 == Spliced(d0, at, data[..done]) && Within(d1, d2, at + done, data[done..][..n])
    ensures Within(d0, d2, at, data)
  {
    assert data[done..][..n] == data[done..done + n];
    SplicedWithin(d0, at, data, done);
    WithinTwice(d0, d1, d2, at, data, done, done + n);
  }

  /** Copy part of the data into the page, leaving the rest of the block as read. */
  method Patch(page: array<Byte>, offset: nat, data: seq<Byte>, n: nat)
    requires page.Length == TRANSFER && offset + n <= TRANSFER && n <= |data|
    modifies page
    ensures page[..] == Spliced(old(page[..]), offset, data[..n])
  {
    var i := 0;
    while i < n
      invariant i <= n && page[..] == old(page[..])[..offset] + data[..i] + old(page[..])[offset + i..]
    {
      page[offset + i] := data[i];
      i := i + 1;
    }
  }

  /** A run of transfer blocks holding a wanted byte range, and where in them it starts. */
  datatype Span = Span(first: nat, blocks: nat, offset: nat)

  function Quotient(n: nat, d: nat): nat
    requires d > 0
  {
    n / d
  }

  /** The blocks covering `len` bytes at `at`; arithmetic that would leave 64 bits is refused. */
  function Covering(at: nat, len: nat, transfer: nat): Option<Span> {
    if transfer == 0 || len == 0 then None
    else
      var first, offset := Quotient(at, transfer), at % transfer;
      var last := offset + (len - 1);
      if last >= U64 then None
      else
        var blocks := Quotient(last, transfer) + 1;
        if first + blocks >= U64 then None else Some(Span(first, blocks, offset))
  }

  /** The wanted bytes are inside the span, at its offset, and one block fewer would not hold them. */
  lemma CoveringIsTight(at: nat, len: nat, transfer: nat)
    requires Covering(at, len, transfer).Some?
    ensures var s := Covering(at, len, transfer).value;
      && s.first * transfer + s.offset == at && s.offset < transfer
      && (s.blocks - 1) * transfer < s.offset + len <= s.blocks * transfer
  {
    DivModOf(at, transfer);
    DivModOf(at % transfer + (len - 1), transfer);
    var s := Covering(at, len, transfer).value;
    var last := s.offset + (len - 1);
    assert (s.blocks - 1) * transfer == last / transfer * transfer;
    assert s.blocks * transfer == last / transfer * transfer + transfer;
  }

  lemma SliceOfSlice(s: seq<Byte>, base: nat, n: nat, off: nat, len: nat)
    requires base + n <= |s| && off + len <= n
    ensures s[base..base + n][off..off + len] == s[base + off..base + off + len]
  {
    var inner := s[base..base + n];
    var left, right := inner[off..off + len], s[base + off..base + off + len];
    forall i | 0 <= i < len ensures left[i] == right[i] {
      assert left[i] == inner[off + i];
    }
  }

  /** What a span read brings in, cut at the offset, is the wanted range of the disk. */
  lemma SpanRecovers(disk: seq<Byte>, at: nat, len: nat, s: Span, tail: seq<Byte>)
    requires Covering(at, len, TRANSFER) == Some(s) && (s.first + s.blocks) * TRANSFER <= |disk|
    requires |tail| >= s.blocks * TRANSFER
    requires tail[..s.blocks * TRANSFER] == disk[s.first * TRANSFER..(s.first + s.blocks) * TRANSFER]
    ensures s.offset + len <= |tail| && at + len <= |disk|
    ensures tail[s.offset..s.offset + len] == disk[at..at + len]
  {
    CoveringIsTight(at, len, TRANSFER);
    var base, n := s.first * TRANSFER, s.blocks * TRANSFER;
    assert (s.first + s.blocks) * TRANSFER == base + n;
    SliceOfSlice(tail, 0, n, s.offset, len);
    SliceOfSlice(disk, base, n, s.offset, len);
    assert tail[..n] == tail[0..n];
  }

  /**
   Fetch a span into a buffer, block by block; the rest of the buffer is left alone. It succeeds exactly when
   the span fits the buffer and the disk and no call fails.
   */
  method ReadSpan(svc: Service, span: Span, into: array<Byte>) returns (ok: bool)
    requires svc.Valid() && into != svc.page
    modifies svc`calls, svc.page, into
    ensures ok <==> SpanReadable(|svc.disk|, span, into.Length) && AllWork(svc.script, old(svc.calls), span.blocks)
    ensures ok ==> svc.calls == old(svc.calls) + span.blocks
    ensures ok && span.blocks > 0 ==>
      into[..span.blocks * TRANSFER] == svc.disk[span.first * TRANSFER..(span.first + span.blocks) * TRANSFER]
    ensures ok ==> into[span.blocks * TRANSFER..] == old(into[..])[span.blocks * TRANSFER..]
  {
    var i := 0;
    ghost var base, c0 := span.first * TRANSFER, svc.calls;
    while i < span.blocks
      invariant i <= span.blocks && i * TRANSFER <= into.Length
      invariant svc.calls == c0 + i && AllWork(svc.script, c0, i)
      invariant i > 0 ==> base + i * TRANSFER <= |svc.disk|
      invariant i > 0 ==> into[..i * TRANSFER] == svc.disk[base..base + i * TRANSFER]
      invariant into[i * TRANSFER..] == old(into[..])[i * TRANSFER..]
    {
      var at := i * TRANSFER;
      assert at + TRANSFER == (i + 1) * TRANSFER <= span.blocks * TRANSFER;
      if at + TRANSFER > into.Length { return false; }
      var read := svc.Read(span.first + i);
      assert (span.first + i) * TRANSFER == base + at;
      if !read {
        assert (span.first + span.blocks) * TRANSFER == base + span.blocks * TRANSFER;
        return false;
      }
      CopyIn(svc.page, into, at);
      i := i + 1;
    }
    return true;
  }

  /** The span's blocks all lie on the disk, and the buffer has room for them. */
  predicate SpanReadable(size: nat, span: Span, room: nat) {
    span.blocks * TRANSFER <= room && (span.blocks == 0 || (span.first + span.blocks) * TRANSFER <= size)
  }

  method CopyIn(page: array<Byte>, into: array<Byte>, at: nat)
    requires page.Length == TRANSFER && at + TRANSFER <= into.Length && page != into
    modifies into
    ensures into[..] == old(into[..])[..at] + page[..] + old(into[..])[at + TRANSFER..]
  {
    forall i | 0 <= i < TRANSFER { into[at + i] := page[i]; }
  }

  /** Whole blocks from an aligned start: read in full exactly when they are on the disk and no call fails. */
  method ReadAt(svc: Service, first: nat, into: array<Byte>) returns (ok: bool)
    requires svc.Valid() && into != svc.page && |svc.disk| < U64
    modifies svc`calls, svc.page, into
    ensures ok <==>
      && 0 < into.Length && into.Length % TRANSFER == 0 && first * LBA % TRANSFER == 0
      && first * LBA + into.Length <= |svc.disk| && AllWork(svc.script, old(svc.calls), into.Length / TRANSFER)
    ensures ok ==> svc.calls == old(svc.calls) + into.Length / TRANSFER
    ensures ok ==> into[..] == svc.disk[first * LBA..first * LBA + into.Length]
  {
    var span := Covering(first * LBA, into.Length, TRANSFER);
    AlignedSpan(first * LBA, into.Length, |svc.disk|);
    if span.None? || span.value.offset != 0 { return false; }
    ok := ReadSpan(svc, span.value, into);
    if ok {
      assert (span.value.first + span.value.blocks) * TRANSFER == first * LBA + into.Length;
      assert into[..into.Length] == into[..];
    }
  }

  /** An aligned span can be read into a buffer of just its length exactly when that is whole blocks of the disk. */
  lemma AlignedSpan(at: nat, len: nat, size: nat)
    requires size < U64
    ensures var s := Covering(at, len, TRANSFER);
      && (s.Some? && s.value.offset == 0 && SpanReadable(size, s.value, len)
          <==> 0 < len && len % TRANSFER == 0 && at % TRANSFER == 0 && at + len <= size)
      && (s.Some? && s.value.offset == 0 && len % TRANSFER == 0 ==>
            s.value.blocks == len / TRANSFER && s.value.first * TRANSFER == at && s.value.blocks * TRANSFER == len)
  {
    var s := Covering(at, len, TRANSFER);
    if s.Some? { CoveringIsTight(at, len, TRANSFER); }
  }
}
