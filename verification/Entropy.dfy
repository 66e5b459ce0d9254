/**
 The entropy service over a virtqueue: a device fills a 256-byte buffer on request, and clients are served
 from it a few bytes at a time. What the requests bring is served once, in order and unpadded, in every run.
 That it is what the device wrote holds exactly when no request is accepted after one the kernel refused: a
 refused request stays published, and the next accepted one makes the device serve both into the one buffer.
 */
module Entropy {
  import opened WrapArithmetic

  type Byte = b: nat | b < 256

  const POOL_LEN: nat := 256
  const QSIZE: nat := 8
  const U16: nat := 65536
  const REFILL_TRIES: nat := 4
  const WAIT_WAKEUPS: nat := 64
  const MAX_BYTES: nat := 8

  /** What one request brings; short and empty are allowed. */
  type Fill = f: seq<Byte> | |f| <= POOL_LEN witness []

  // ---- what serving means ---------------------------------------------------------------------------------------

  /** All that requests `from` to `k` brought, in order. */
  function Stream(brought: nat -> Fill, from: nat, k: nat): seq<Byte>
    requires from <= k
    decreases k - from
  {
    if from == k then [] else brought(from) + Stream(brought, from + 1, k)
  }

  /** What is left to serve, and how many requests have been made. */
  datatype State = State(k: nat, unserved: seq<Byte>)

  /** Ask until something comes, at most `left` times. */
  function Refilled(brought: nat -> Fill, k: nat, left: nat): State
    decreases left
  {
    if left == 0 then State(k, [])
    else if brought(k) != [] then State(k + 1, brought(k))
    else Refilled(brought, k + 1, left - 1)
  }

  /** A state with something to serve, unless four requests in a row brought nothing. */
  function Readied(brought: nat -> Fill, s: State): State {
    if s.unserved == [] then Refilled(brought, s.k, REFILL_TRIES) else s
  }

  /** Up to `n` bytes for a client, refilling whenever the buffer runs out. */
  function Took(brought: nat -> Fill, s: State, n: nat): (r: (State, seq<Byte>))
    decreases n
  {
    if n == 0 then (s, [])
    else
      var s1 := Readied(brought, s);
      if s1.unserved == [] then (s1, [])
      else
        var run := if n < |s1.unserved| then n else |s1.unserved|;
        var (s2, rest) := Took(brought, s1.(unserved := s1.unserved[run..]), n - run);
        (s2, s1.unserved[..run] + rest)
  }

  /** The four requests before `k` all brought nothing. */
  predicate DryBefore(brought: nat -> Fill, k: nat) {
    k >= REFILL_TRIES && forall j {:trigger brought(j)} :: k - REFILL_TRIES <= j < k ==> brought(j) == []
  }

  lemma {:induction false} StreamJoin(brought: nat -> Fill, a: nat, b: nat, c: nat)
    requires a <= b <= c
    ensures Stream(brought, a, c) == Stream(brought, a, b) + Stream(brought, b, c)
    decreases b - a
  {
    if a < b {
      StreamJoin(brought, a + 1, b, c);
      assert brought(a) + (Stream(brought, a + 1, b) + Stream(brought, b, c)) == brought(a) + Stream(brought, a + 1, b) + Stream(brought, b, c);
    }
  }

  lemma {:induction false} RefilledStreams(brought: nat -> Fill, k: nat, left: nat)
    ensures var s := Refilled(brought, k, left);
      && k <= s.k <= k + left && s.unserved == Stream(brought, k, s.k)
      && (s.unserved == [] ==> s.k == k + left && forall j {:trigger brought(j)} :: k <= j < k + left ==> brought(j) == [])
    decreases left
  {
    if left > 0 {
      if brought(k) == [] {
        RefilledStreams(brought, k + 1, left - 1);
        assert brought(k) + Stream(brought, k + 1, Refilled(brought, k, left).k) == Stream(brought, k + 1, Refilled(brought, k, left).k);
      } else {
        assert Stream(brought, k + 1, k + 1) == [];
        assert brought(k) + [] == brought(k);
      }
    }
  }

  lemma ReadyStreams(brought: nat -> Fill, s: State, s1: State)
    requires s1 == Readied(brought, s)
    ensures s.k <= s1.k && s.unserved + Stream(brought, s.k, s1.k) == s1.unserved
    ensures s1.unserved == [] ==> DryBefore(brought, s1.k)
  {
    RefilledStreams(brought, s.k, REFILL_TRIES);
    if s.unserved != [] { assert Stream(brought, s.k, s.k) == []; }
  }

  /** One client: what it got and what is left is what was left and what the requests since brought. */
  lemma {:induction false} TookConserves(brought: nat -> Fill, s: State, n: nat)
    ensures var (t, bytes) := Took(brought, s, n);
      && s.k <= t.k && bytes + t.unserved == s.unserved + Stream(brought, s.k, t.k)
      && |bytes| <= n && (|bytes| < n ==> t.unserved == [] && DryBefore(brought, t.k))
    decreases n
  {
    if n > 0 {
      var s1 := Readied(brought, s);
      ReadyStreams(brought, s, s1);
      if s1.unserved != [] {
        var run := if n < |s1.unserved| then n else |s1.unserved|;
        var s2 := s1.(unserved := s1.unserved[run..]);
        TookConserves(brought, s2, n - run);
        var (t, rest) := Took(brought, s2, n - run);
        StreamJoin(brought, s.k, s1.k, t.k);
        Rejoin(s.unserved, Stream(brought, s.k, s1.k), s1.unserved, run, rest, t.unserved, Stream(brought, s1.k, t.k));
      }
    }
  }

  /** Serving the front of the buffer and going on with the rest loses nothing. */
  lemma Rejoin(held: seq<Byte>, early: seq<Byte>, buf: seq<Byte>, run: nat, rest: seq<Byte>, left: seq<Byte>, late: seq<Byte>)
    requires held + early == buf && run <= |buf| && rest + left == buf[run..] + late
    ensures (buf[..run] + rest) + left == held + (early + late)
  {
    calc {
      (buf[..run] + rest) + left;
      buf[..run] + (rest + left);
      buf[..run] + (buf[run..] + late);
      (buf[..run] + buf[run..]) + late;
      { assert buf[..run] + buf[run..] == buf; }
      (held + early) + late;
      held + (early + late);
    }
  }

  /** Everything handed out over a history of requests. */
  function Served(brought: nat -> Fill, s: State, wants: seq<nat>): (State, seq<Byte>)
    decreases |wants|
  {
    if wants == [] then (s, [])
    else
      var (s1, bytes) := Took(brought, s, Want(wants[0]));
      var (s2, rest) := Served(brought, s1, wants[1..]);
      (s2, bytes + rest)
  }

  /** A request for more than a word holds gets a word. */
  function Want(n: nat): nat {
    if n < MAX_BYTES then n else MAX_BYTES
  }

  /** A client never gets more bytes than it asked for, nor more than a word holds; fewer only from a dry device. */
  lemma ClientGetsNoMore(brought: nat -> Fill, s: State, n: nat)
    ensures var (t, bytes) := Took(brought, s, Want(n));
      && |bytes| <= n && |bytes| <= 8
      && (|bytes| < n && |bytes| < 8 ==> t.unserved == [] && DryBefore(brought, t.k))
  {
    TookConserves(brought, s, Want(n));
  }

  /**
   Conservation over every history: the bytes served followed by the bytes still held are exactly what the
   requests brought, none lost, none repeated, none padded.
   */
  lemma {:induction false} ServedConserves(brought: nat -> Fill, s: State, wants: seq<nat>)
    ensures var (t, bytes) := Served(brought, s, wants);
      s.k <= t.k && bytes + t.unserved == s.unserved + Stream(brought, s.k, t.k)
    decreases |wants|
  {
    if wants == [] {
      assert Stream(brought, s.k, s.k) == [];
    } else {
      var (s1, first) := Took(brought, s, Want(wants[0]));
      var (t, rest) := Served(brought, s1, wants[1..]);
      TookConserves(brought, s, Want(wants[0]));
      ServedConserves(brought, s1, wants[1..]);
      StreamJoin(brought, s.k, s1.k, t.k);
      Chain(s.unserved, Stream(brought, s.k, s1.k), first, s1.unserved, rest, t.unserved, Stream(brought, s1.k, t.k));
    }
  }

  lemma Chain(held: seq<Byte>, early: seq<Byte>, first: seq<Byte>, mid: seq<Byte>, rest: seq<Byte>, left: seq<Byte>,
              late: seq<Byte>)
    requires first + mid == held + early && rest + left == mid + late
    ensures (first + rest) + left == held + (early + late)
  {
    calc {
      (first + rest) + left;
      first + (rest + left);
      first + (mid + late);
      (first + mid) + late;
      (held + early) + late;
      held + (early + late);
    }
  }

  // ---- the reply word ----------------------------------------------------------------------------------------------

  function Power(i: nat): (p: nat)
    ensures p > 0
  {
    if i == 0 then 1 else 256 * Power(i - 1)
  }

  /** Bytes as a little-endian word. */
  function Word(bytes: seq<Byte>): nat {
    if bytes == [] then 0 else bytes[0] + 256 * Word(bytes[1..])
  }

  lemma {:induction false} WordAppend(bytes: seq<Byte>, b: Byte)
    ensures Word(bytes + [b]) == Word(bytes) + b * Power(|bytes|)
  {
    if bytes != [] {
      WordAppend(bytes[1..], b);
      assert (bytes + [b])[1..] == bytes[1..] + [b];
      assert 256 * (b * Power(|bytes| - 1)) == b * Power(|bytes|);
    } else {
      assert (bytes + [b])[1..] == [];
    }
  }

  /** The client's half: the low `n` bytes of the word, little-endian. */
  function Unpacked(word: nat, n: nat): seq<Byte> {
    if n == 0 then [] else [word % 256] + Unpacked(word / 256, n - 1)
  }

  lemma {:induction false} WordRoundTrip(bytes: seq<Byte>)
    ensures Unpacked(Word(bytes), |bytes|) == bytes
  {
    if bytes != [] {
      WordRoundTrip(bytes[1..]);
      DivModUnique(Word(bytes), Word(bytes[1..]), bytes[0], 256);
      assert [bytes[0]] + bytes[1..] == bytes;
    }
  }

  // ---- the rings ---------------------------------------------------------------------------------------------------

  /** A free-running 16-bit index finds the slot of the true count, across every wrap: 8 divides 65536. */
  lemma SlotAligned(count: nat)
    ensures (count % U16) % QSIZE == count % QSIZE
  {
    ModOfMod(count, 8192, QSIZE);
  }

  /** Consecutive counts never share an index, so a completion is always seen. */
  lemma IndexMoves(count: nat)
    ensures (count + 1) % U16 != count % U16 && (count % U16 + 1) % U16 == (count + 1) % U16
  {
    ModEqual(count, count + 1, U16);
    ModNext(count, U16);
  }

  /** How many wakeups late a completion comes: always within the wait. */
  type Soon = n: nat | n < WAIT_WAKEUPS

  /** What the world does: the device's fills, request by request; which notifications pass; how late they are served. */
  datatype Env = Env(fill: nat -> Fill, accepts: nat -> bool, late: nat -> Soon)

  /** The queue and the shared page, in counts that do not wrap. */
  datatype Dev = Dev(published: nat, taken: nat, seen: nat, countdown: nat, lens: seq<nat>, buf: seq<Byte>)

  predicate DevOk(d: Dev) {
    d.seen <= d.taken <= d.published && |d.lens| == QSIZE && |d.buf| == POOL_LEN
  }

  /** A fill laid over the front of the buffer. */
  function Over(f: seq<Byte>, buf: seq<Byte>): (r: seq<Byte>)
    ensures |r| == |buf|
  {
    if |f| <= |buf| then f + buf[|f|..] else f[..|buf|]
  }

  /** The device serves every request published since it last looked, each into the same buffer. */
  function Completed(env: Env, d: Dev): (r: Dev)
    requires DevOk(d)
    ensures DevOk(r) && r.taken == r.published == d.published && r.seen == d.seen && r.countdown == d.countdown
    decreases d.published - d.taken
  {
    if d.taken == d.published then d else Completed(env, ServedOne(env, d))
  }

  function ServedOne(env: Env, d: Dev): (r: Dev)
    requires DevOk(d) && d.taken < d.published
    ensures DevOk(r)
  {
    var f := env.fill(d.taken);
    d.(taken := d.taken + 1, lens := d.lens[d.taken % QSIZE := |f|], buf := Over(f, d.buf))
  }

  /** The kernel let notification `k` through: served now, or within the wait. */
  function Notified(env: Env, k: nat, d: Dev): (r: Dev)
    requires DevOk(d)
    ensures DevOk(r) && r.published == d.published && r.seen == d.seen && r.countdown == env.late(k)
    ensures r == if env.late(k) == 0 then Completed(env, d.(countdown := 0)) else d.(countdown := env.late(k))
  {
    var d1 := d.(countdown := env.late(k));
    if d1.countdown == 0 then Completed(env, d1) else d1
  }

  /** A wakeup, which may be the completion. */
  function Woken(env: Env, d: Dev): (r: Dev)
    requires DevOk(d)
    ensures DevOk(r) && r.published == d.published && r.seen == d.seen
  {
    if d.countdown == 0 then d
    else
      var d1 := d.(countdown := d.countdown - 1);
      if d1.countdown == 0 then Completed(env, d1) else d1
  }

  /** The used index differs from the last one seen, as 16 bits. */
  predicate Moved(d: Dev) {
    d.taken % U16 != d.seen % U16
  }

  /** The length in the slot the driver looks at, and no more than the buffer. */
  function LengthAt(d: Dev): (n: nat)
    requires |d.lens| == QSIZE
    ensures n <= POOL_LEN
  {
    if d.lens[d.seen % QSIZE] < POOL_LEN then d.lens[d.seen % QSIZE] else POOL_LEN
  }

  /** Look, and sleep, at most `left` times. */
  function Waited(env: Env, d: Dev, left: nat): (r: (Dev, nat))
    requires DevOk(d)
    ensures DevOk(r.0) && r.1 <= POOL_LEN && r.0.published == d.published
    decreases left, d.countdown
  {
    if left == 0 then (d, 0)
    else if Moved(d) then (d.(seen := d.seen + 1), LengthAt(d))
    else Waited(env, Woken(env, d), left - 1)
  }

  /** One request: published in any case, and waited for if the kernel lets its notification through. */
  function Asked(env: Env, k: nat, d: Dev): (r: (Dev, nat))
    requires DevOk(d)
    ensures DevOk(r.0) && r.1 <= POOL_LEN && r.0.published == d.published + 1
  {
    var d1 := d.(published := d.published + 1);
    if !env.accepts(k) then (d1, 0) else Waited(env, Notified(env, k, d1), WAIT_WAKEUPS)
  }

  /** The buffer with `n` bytes from `c` on zeroed. */
  function Zeroing(s: seq<Byte>, c: nat, n: nat): (r: seq<Byte>)
    requires c + n <= |s|
    ensures |r| == |s|
  {
    s[..c] + seq(n, _ => 0 as Byte) + s[c + n..]
  }

  lemma ZeroingNext(s: seq<Byte>, c: nat, n: nat)
    requires c + n < |s|
    ensures Zeroing(s, c, n)[c + n] == s[c + n] && Zeroing(s, c, n)[c + n := 0] == Zeroing(s, c, n + 1)
  {
  }

  /** Zeroing what was handed out keeps the rest of the unserved bytes, and leaves only zeros behind. */
  lemma ZeroingLeaves(s: seq<Byte>, c: nat, n: nat, end: nat)
    requires c + n <= end <= |s|
    ensures Zeroing(s, c, n)[c + n..end] == s[c..end][n..] && s[c..c + n] == s[c..end][..n]
    ensures (forall i :: 0 <= i < c ==> s[i] == 0) ==> forall i :: 0 <= i < c + n ==> Zeroing(s, c, n)[i] == 0
    ensures Zeroing(Zeroing(s, c, n), c + n, end - (c + n)) == Zeroing(s, c, end - c)
  {
  }

  /** The queue and the page after `k` requests, each made when everything before it was handed out and zeroed. */
  function After(env: Env, k: nat): (d: Dev)
    ensures DevOk(d) && d.published == k
  {
    if k == 0 then Dev(0, 0, 0, 0, seq(QSIZE, _ => 0), seq(POOL_LEN, _ => 0))
    else
      var (d, n) := Asked(env, k - 1, After(env, k - 1));
      d.(buf := Zeroing(d.buf, 0, n))
  }

  /** What request `k` brings the driver. */
  function Bringing(env: Env, k: nat): Fill {
    var (d, n) := Asked(env, k, After(env, k));
    d.buf[..n]
  }

  function Brought(env: Env): nat -> Fill {
    (k: nat) => Bringing(env, k)
  }

  // ---- while nothing is refused --------------------------------------------------------------------------------------

  ghost predicate Calm(env: Env, k: nat) {
    forall j {:trigger env.accepts(j)} :: 0 <= j < k ==> env.accepts(j)
  }

  predicate Idle(d: Dev) {
    d.published == d.taken == d.seen && d.countdown == 0
  }

  lemma CompletedOne(env: Env, d: Dev)
    requires DevOk(d) && d.published == d.taken + 1
    ensures Completed(env, d) == ServedOne(env, d)
  {
  }

  /** An outstanding completion that comes within the looks that are left is found, whatever the wakeups before it. */
  lemma {:induction false} WaitedFor(env: Env, d: Dev, left: nat)
    requires DevOk(d) && d.taken == d.seen && 0 < d.countdown < left
    ensures var d1 := Completed(env, d.(countdown := 0));
      Waited(env, d, left) == Waited(env, d1, left - d.countdown)
    decreases left
  {
    if d.countdown > 1 { WaitedFor(env, d.(countdown := d.countdown - 1), left - 1); }
  }

  /** When the driver has seen all there is, an accepted request is answered by everything published. */
  lemma AskedAnswered(env: Env, k: nat, d: Dev) returns (d1: Dev, left: nat)
    requires DevOk(d) && d.taken == d.seen && env.accepts(k)
    ensures d1 == Completed(env, d.(published := d.published + 1, countdown := 0)) && left > 0
    ensures Asked(env, k, d) == Waited(env, d1, left)
  {
    var c := env.late(k);
    d1 := Completed(env, d.(published := d.published + 1, countdown := 0));
    left := WAIT_WAKEUPS - c;
    if c > 0 { WaitedFor(env, d.(published := d.published + 1, countdown := c), WAIT_WAKEUPS); }
  }

  /** An idle queue answers one accepted request with the device's next fill, and is idle again. */
  lemma IdleAsked(env: Env, k: nat, d: Dev)
    requires DevOk(d) && Idle(d) && env.accepts(k)
    ensures var (r, n) := Asked(env, k, d);
      && Idle(r) && n == |env.fill(d.taken)| && r.buf == env.fill(d.taken) + d.buf[n..]
  {
    var d1, left := AskedAnswered(env, k, d);
    CompletedOne(env, d.(published := d.published + 1, countdown := 0));
    IndexMoves(d.seen);
  }

  lemma {:induction false} CalmAfter(env: Env, k: nat)
    requires Calm(env, k)
    ensures Idle(After(env, k))
    decreases k
  {
    if k > 0 {
      CalmAfter(env, k - 1);
      IdleAsked(env, k - 1, After(env, k - 1));
    }
  }

  /** With nothing refused, each request brings exactly the device's next fill. */
  lemma CalmBrings(env: Env, k: nat)
    requires Calm(env, k + 1)
    ensures Bringing(env, k) == env.fill(k)
  {
    CalmAfter(env, k);
    IdleAsked(env, k, After(env, k));
    assert (env.fill(k) + After(env, k).buf[|env.fill(k)|..])[..|env.fill(k)|] == env.fill(k);
  }

  // ---- a refused notification --------------------------------------------------------------------------------------

  function Refusals(env: Env, k: nat): nat {
    if k == 0 then 0 else Refusals(env, k - 1) + if env.accepts(k - 1) then 0 else 1
  }

  /** Once everything published is taken and something is unseen by less than a wrap, a look finds it. */
  lemma LookFinds(d: Dev)
    requires DevOk(d) && 0 < d.taken - d.seen < U16
    ensures Moved(d)
  {
    ModEqual(d.seen, d.taken, U16);
  }

  /** Waiting sees at most one completion. */
  lemma {:induction false} WaitedSees(env: Env, d: Dev, left: nat)
    requires DevOk(d)
    ensures d.seen <= Waited(env, d, left).0.seen <= d.seen + 1
    decreases left
  {
    if left > 0 && !Moved(d) { WaitedSees(env, Woken(env, d), left - 1); }
  }

  /** A request sees one completion if it was accepted and fewer than a wrap are outstanding; never more than one. */
  lemma AskedSees(env: Env, k: nat, d: Dev)
    requires DevOk(d)
    ensures var r := Asked(env, k, d).0;
      && d.seen <= r.seen <= d.seen + (if env.accepts(k) then 1 else 0)
      && (env.accepts(k) && d.published + 1 - d.seen < U16 ==> r.seen == d.seen + 1)
  {
    if env.accepts(k) {
      var d1 := Notified(env, k, d.(published := d.published + 1));
      WaitedSees(env, d1, WAIT_WAKEUPS);
      if d.published + 1 - d.seen < U16 {
        if d.taken == d.seen {
          var d2, left := AskedAnswered(env, k, d);
          LookFinds(d2);
        } else {
          LookFinds(d1);
        }
      }
    }
  }

  lemma NextSees(env: Env, k: nat)
    ensures var d, e := After(env, k), After(env, k + 1);
      && d.published == k && e.published == k + 1 && d.seen <= e.seen <= d.seen + (if env.accepts(k) then 1 else 0)
      && (env.accepts(k) && k + 1 - d.seen < U16 ==> e.seen == d.seen + 1)
  {
    AskedSees(env, k, After(env, k));
  }

  /** Over every history the driver's books are behind by at least the refusals, and by exactly them until there are 65535. */
  lemma {:induction false} BooksLag(env: Env, k: nat)
    ensures var d := After(env, k);
      && d.published - d.seen >= Refusals(env, k)
      && (Refusals(env, k) < U16 - 1 ==> d.published - d.seen == Refusals(env, k))
    decreases k
  {
    if k > 0 {
      BooksLag(env, k - 1);
      NextSees(env, k - 1);
    }
  }

  /** So both sides agree on which completion is whose if and only if the kernel refused nothing. */
  lemma AlignedIffNeverRefused(env: Env, k: nat)
    ensures After(env, k).published == After(env, k).seen <==> Calm(env, k)
  {
    BooksLag(env, k);
    RefusalsCount(env, k);
  }

  lemma {:induction false} RefusalsCount(env: Env, k: nat)
    ensures Refusals(env, k) == 0 <==> Calm(env, k)
    decreases k
  {
    if k > 0 {
      RefusalsCount(env, k - 1);
      assert Calm(env, k) <==> Calm(env, k - 1) && env.accepts(k - 1);
    }
  }

  // ---- exactly when the device's bytes are conserved -----------------------------------------------------------------

  /** What `m` requests brought is what the device wrote in that time, whatever it wrote. */
  ghost predicate Conserves(accepts: nat -> bool, late: nat -> Soon, m: nat) {
    forall fill: nat -> Fill ::
      var env := Env(fill, accepts, late);
      Stream(Brought(env), 0, m) == Stream(fill, 0, After(env, m).taken)
  }

  /** No request is accepted after one that was refused. */
  ghost predicate NoneAfterRefusal(accepts: nat -> bool, m: nat) {
    forall i: nat, j: nat {:trigger accepts(i), accepts(j)} :: i < j < m && accepts(j) ==> accepts(i)
  }

  lemma {:induction false} StreamSame(f: nat -> Fill, g: nat -> Fill, from: nat, k: nat)
    requires from <= k && forall j {:trigger f(j)} :: from <= j < k ==> f(j) == g(j)
    ensures Stream(f, from, k) == Stream(g, from, k)
    decreases k - from
  {
    if from < k { StreamSame(f, g, from + 1, k); }
  }

  lemma {:induction false} StreamNothing(f: nat -> Fill, from: nat, k: nat)
    requires from <= k && forall j {:trigger f(j)} :: from <= j < k ==> f(j) == []
    ensures Stream(f, from, k) == []
    decreases k - from
  {
    if from < k { StreamNothing(f, from + 1, k); }
  }

  lemma RefusedOne(env: Env, k: nat)
    requires !env.accepts(k)
    ensures After(env, k + 1) == After(env, k).(published := k + 1)
  {
    var d := After(env, k);
    assert Zeroing(d.buf, 0, 0) == d.buf;
  }

  /** Refusals alone bring nothing, and the device takes nothing. */
  lemma {:induction false} RefusedAfter(env: Env, a: nat, k: nat)
    requires a <= k && forall j {:trigger env.accepts(j)} :: a <= j < k ==> !env.accepts(j)
    ensures var d, e := After(env, a), After(env, k);
      e.taken == d.taken && e.seen == d.seen && e.buf == d.buf
    decreases k - a
  {
    if a < k {
      RefusedAfter(env, a, k - 1);
      assert !env.accepts(k - 1);
      RefusedOne(env, k - 1);
    }
  }

  lemma RefusedBrings(env: Env, k: nat)
    requires !env.accepts(k)
    ensures Bringing(env, k) == []
  {
  }

  /** How many of the first `m` notifications pass before the first refusal. */
  function CalmUntil(accepts: nat -> bool, m: nat): (a: nat)
    ensures a <= m && (forall j {:trigger accepts(j)} :: 0 <= j < a ==> accepts(j)) && (a < m ==> !accepts(a))
  {
    if m == 0 then 0
    else
      var a := CalmUntil(accepts, m - 1);
      if a == m - 1 && accepts(m - 1) then m else a
  }

  /** Up to its first refusal a run brings the device's fills in order. */
  lemma CalmStream(env: Env, a: nat)
    requires Calm(env, a)
    ensures Stream(Brought(env), 0, a) == Stream(env.fill, 0, a) && After(env, a).taken == a
  {
    forall j: nat {:trigger Brought(env)(j)} | j < a ensures Brought(env)(j) == env.fill(j) {
      assert Calm(env, j + 1);
      CalmBrings(env, j);
    }
    StreamSame(Brought(env), env.fill, 0, a);
    CalmAfter(env, a);
  }

  /** With nothing accepted after a refusal, what the requests bring is what the device wrote. */
  lemma OrderedConserves(env: Env, m: nat)
    requires NoneAfterRefusal(env.accepts, m)
    ensures Stream(Brought(env), 0, m) == Stream(env.fill, 0, After(env, m).taken)
  {
    var a := CalmUntil(env.accepts, m);
    CalmStream(env, a);
    forall j: nat {:trigger Brought(env)(j)} | a <= j < m ensures Brought(env)(j) == [] {
      assert !env.accepts(j) by { if j > a { assert !env.accepts(a); } }
      RefusedBrings(env, j);
    }
    StreamNothing(Brought(env), a, m);
    StreamJoin(Brought(env), 0, a, m);
    forall j: nat {:trigger env.accepts(j)} | a <= j < m ensures !env.accepts(j) {
      if j > a { assert !env.accepts(a); }
    }
    RefusedAfter(env, a, m);
  }

  /** One byte for every request: a marked one for request `a`, and another for the rest. */
  function Marked(a: nat): nat -> Fill {
    (k: nat) => if k == a then [1] else [2]
  }

  predicate Unmarked(bytes: seq<Byte>) {
    1 !in bytes
  }

  /** Fills of one byte land on one place, so the last of them is the one that stays. */
  lemma {:induction false} LastFillStays(env: Env, d: Dev, a: nat)
    requires DevOk(d) && env.fill == Marked(a) && d.taken < d.published
    ensures Completed(env, d).buf == env.fill(d.published - 1) + d.buf[1..]
    decreases d.published - d.taken
  {
    var d1 := ServedOne(env, d);
    assert d1.buf[1..] == d.buf[1..];
    if d1.taken < d1.published { LastFillStays(env, d1, a); }
  }

  lemma CompletedUnmarked(env: Env, d: Dev, a: nat)
    requires DevOk(d) && env.fill == Marked(a) && Unmarked(d.buf) && d.published != a + 1
    ensures Unmarked(Completed(env, d).buf)
  {
    if d.taken < d.published { LastFillStays(env, d, a); }
  }

  lemma {:induction false} WaitedUnmarked(env: Env, d: Dev, left: nat, a: nat)
    requires DevOk(d) && env.fill == Marked(a) && Unmarked(d.buf) && d.published != a + 1
    ensures Unmarked(Waited(env, d, left).0.buf) && d.taken <= Waited(env, d, left).0.taken
    decreases left
  {
    if left > 0 && !Moved(d) {
      if d.countdown == 1 { CompletedUnmarked(env, d.(countdown := 0), a); }
      WaitedUnmarked(env, Woken(env, d), left - 1, a);
    }
  }

  /** A request that was refused is never the last to land, so its fill is never handed on. */
  lemma AskedUnmarked(env: Env, k: nat, d: Dev, a: nat)
    requires DevOk(d) && env.fill == Marked(a) && Unmarked(d.buf) && d.published == k && !env.accepts(a)
    ensures Unmarked(Asked(env, k, d).0.buf) && d.taken <= Asked(env, k, d).0.taken
  {
    if env.accepts(k) {
      var d1 := d.(published := k + 1);
      if env.late(k) == 0 { CompletedUnmarked(env, d1.(countdown := 0), a); }
      WaitedUnmarked(env, Notified(env, k, d1), WAIT_WAKEUPS, a);
    }
  }

  lemma {:induction false} AfterUnmarked(env: Env, k: nat, a: nat)
    requires env.fill == Marked(a) && !env.accepts(a)
    ensures Unmarked(After(env, k).buf)
    decreases k
  {
    if k > 0 {
      AfterUnmarked(env, k - 1, a);
      AskedUnmarked(env, k - 1, After(env, k - 1), a);
    }
  }

  lemma {:induction false} StreamUnmarked(env: Env, from: nat, k: nat, a: nat)
    requires from <= k && env.fill == Marked(a) && !env.accepts(a)
    ensures Unmarked(Stream(Brought(env), from, k))
    decreases k - from
  {
    if from < k {
      AfterUnmarked(env, from, a);
      AskedUnmarked(env, from, After(env, from), a);
      StreamUnmarked(env, from + 1, k, a);
    }
  }

  lemma {:induction false} StreamMarked(a: nat, from: nat, k: nat)
    requires from <= a < k
    ensures 1 in Stream(Marked(a), from, k)
    decreases k - from
  {
    if from < a { StreamMarked(a, from + 1, k); }
  }

  lemma {:induction false} TakenStays(env: Env, b: nat, m: nat, a: nat)
    requires b <= m && env.fill == Marked(a) && !env.accepts(a)
    ensures After(env, b).taken <= After(env, m).taken
    decreases m - b
  {
    if b < m {
      TakenStays(env, b, m - 1, a);
      AfterUnmarked(env, m - 1, a);
      var d := After(env, m - 1);
      AskedUnmarked(env, m - 1, d, a);
      assert After(env, m).taken == Asked(env, m - 1, d).0.taken;
    }
  }

  /** The first acceptance after the first refusal makes the device take the refused request too. */
  lemma RefusedIsTaken(env: Env, a: nat, b: nat)
    requires a < b && Calm(env, a) && env.accepts(b) && forall j {:trigger env.accepts(j)} :: a <= j < b ==> !env.accepts(j)
    ensures After(env, b + 1).taken == b + 1
  {
    CalmAfter(env, a);
    RefusedAfter(env, a, b);
    var d1, left := AskedAnswered(env, b, After(env, b));
    TakenIsAll(env, d1, left);
  }

  lemma {:induction false} TakenIsAll(env: Env, d: Dev, left: nat)
    requires DevOk(d) && d.taken == d.published
    ensures Waited(env, d, left).0.taken == d.published
    decreases left
  {
    if left > 0 && !Moved(d) { TakenIsAll(env, Woken(env, d), left - 1); }
  }

  /** The first acceptance at or after `from`, if one comes before `m`. */
  function FirstAccepted(accepts: nat -> bool, from: nat, m: nat): (b: nat)
    requires from <= m
    ensures from <= b <= m && (forall j {:trigger accepts(j)} :: from <= j < b ==> !accepts(j)) && (b < m ==> accepts(b))
    decreases m - from
  {
    if from == m || accepts(from) then from else FirstAccepted(accepts, from + 1, m)
  }

  /** The other way: an acceptance after a refusal loses the byte the device wrote for the refused request. */
  lemma MarkedIsLost(accepts: nat -> bool, late: nat -> Soon, m: nat)
    requires !NoneAfterRefusal(accepts, m)
    ensures var a := CalmUntil(accepts, m);
      var env := Env(Marked(a), accepts, late);
      1 !in Stream(Brought(env), 0, m) && 1 in Stream(env.fill, 0, After(env, m).taken)
  {
    var a := CalmUntil(accepts, m);
    var env := Env(Marked(a), accepts, late);
    var i: nat, j: nat :| i < j < m && accepts(j) && !accepts(i);
    assert a <= i;
    var b := FirstAccepted(accepts, a, m);
    assert b <= j;
    RefusedIsTaken(env, a, b);
    TakenStays(env, b + 1, m, a);
    StreamMarked(a, 0, After(env, m).taken);
    StreamUnmarked(env, 0, m, a);
  }

  /**
   The exact condition, over every way the kernel answers and however late completions come: what the requests
   bring is what the device wrote, for every device, if and only if none is accepted after one that was refused.
   */
  lemma ConservesIff(accepts: nat -> bool, late: nat -> Soon, m: nat)
    ensures Conserves(accepts, late, m) <==> NoneAfterRefusal(accepts, m)
  {
    if NoneAfterRefusal(accepts, m) {
      forall fill: nat -> Fill
        ensures var env := Env(fill, accepts, late); Stream(Brought(env), 0, m) == Stream(fill, 0, After(env, m).taken)
      {
        OrderedConserves(Env(fill, accepts, late), m);
      }
    } else {
      MarkedIsLost(accepts, late, m);
    }
  }

  /** End to end: then the bytes handed to clients and the bytes still held are what the device wrote. */
  lemma ServedIsTheDevices(env: Env, wants: seq<nat>)
    ensures var (t, bytes) := Served(Brought(env), State(0, []), wants);
      NoneAfterRefusal(env.accepts, t.k) ==> bytes + t.unserved == Stream(env.fill, 0, After(env, t.k).taken)
  {
    var (t, bytes) := Served(Brought(env), State(0, []), wants);
    ServedConserves(Brought(env), State(0, []), wants);
    if NoneAfterRefusal(env.accepts, t.k) { OrderedConserves(env, t.k); }
  }

  /** Two fills of two bytes, the first request refused. */
  function RefusedOnce(late: nat -> Soon): Env {
    Env((k: nat) => if k == 0 then [1, 2] else [3, 4], (k: nat) => k > 0, late)
  }

  /** The driver takes the second fill for the first; of four bytes the device wrote, two are gone. */
  lemma RefusalLosesBytes(late: nat -> Soon)
    ensures var env := RefusedOnce(late);
      && Bringing(env, 0) == [] && Bringing(env, 1) == [3, 4]
      && After(env, 2).taken == 2 && Stream(env.fill, 0, 2) == [1, 2, 3, 4]
  {
    var env := RefusedOnce(late);
    var d0, d := After(env, 0), After(env, 1);
    assert Zeroing(d0.buf, 0, 0) == d0.buf;
    assert d == d0.(published := 1);
    var d1, left := AskedAnswered(env, 1, d);
    var e := d.(published := 2, countdown := 0);
    assert Completed(env, e) == Completed(env, ServedOne(env, e));
    CompletedOne(env, ServedOne(env, e));
    assert d1.buf[..2] == [3, 4] && d1.lens[0] == 2 && d1.taken == 2 && d1.seen == 0;
    LookFinds(d1);
    assert Stream(env.fill, 2, 2) == [] && Stream(env.fill, 1, 2) == [3, 4] + [];
  }

  /**
   A pool after `k` requests: with what is unserved zeroed, the queue and the page are what those requests leave;
   and while nothing was refused, the bytes behind the cursor are zero.
   */
  ghost predicate PoolOk(env: Env, k: nat, d: Dev, cursor: nat, filled: nat) {
    && DevOk(d) && cursor <= filled <= POOL_LEN
    && d.(buf := Zeroing(d.buf, cursor, filled - cursor)) == After(env, k)
    && (Calm(env, k) ==> forall i :: 0 <= i < cursor ==> d.buf[i] == 0)
  }

  ghost predicate Tells(brought: nat -> Fill, env: Env) {
    forall k: nat {:trigger Bringing(env, k)} :: brought(k) == Bringing(env, k)
  }

  lemma PoolStarts(env: Env, d: Dev)
    requires d == Dev(0, 0, 0, 0, seq(QSIZE, _ => 0), seq(POOL_LEN, _ => 0))
    ensures PoolOk(env, 0, d, 0, 0)
  {
    assert Zeroing(d.buf, 0, 0) == d.buf;
    assert d.lens == After(env, 0).lens && d.buf == After(env, 0).buf;
  }

  /** Handing out the front and zeroing it leaves the same pool, with less to serve. */
  lemma PoolHanded(env: Env, k: nat, d: Dev, cursor: nat, filled: nat, run: nat)
    requires PoolOk(env, k, d, cursor, filled) && cursor + run <= filled
    ensures var d1 := d.(buf := Zeroing(d.buf, cursor, run));
      && PoolOk(env, k, d1, cursor + run, filled)
      && d1.buf[cursor + run..filled] == d.buf[cursor..filled][run..]
      && d.buf[cursor..cursor + run] == d.buf[cursor..filled][..run]
  {
    ZeroingLeaves(d.buf, cursor, run, filled);
  }

  /** A request made when nothing is held: what it brings is what is then unserved. */
  lemma PoolAsked(env: Env, k: nat, d: Dev, cursor: nat, d1: Dev, n: nat)
    requires PoolOk(env, k, d, cursor, cursor) && (d1, n) == Asked(env, k, d)
    ensures n == |Bringing(env, k)| && DevOk(d1)
    ensures if n > 0 then PoolOk(env, k + 1, d1, 0, n) && d1.buf[0..n] == Bringing(env, k)
            else PoolOk(env, k + 1, d1, cursor, cursor)
  {
    assert Zeroing(d.buf, cursor, 0) == d.buf;
    assert d == After(env, k);
    assert Zeroing(d1.buf, cursor, 0) == d1.buf && Zeroing(d1.buf, 0, 0) == d1.buf;
    assert d1.buf[0..n] == d1.buf[..n] == Bringing(env, k);
    if Calm(env, k + 1) && n == 0 {
      CalmAfter(env, k);
      IdleAsked(env, k, d);
      assert d1.buf == d.buf;
    }
  }

  /** So a first client that asks for two bytes is served the device's third and fourth. */
  lemma RefusalReachesTheClient(late: nat -> Soon)
    ensures var env := RefusedOnce(late);
      Took(Brought(env), State(0, []), 2) == (State(2, []), [3, 4])
  {
    var brought := Brought(RefusedOnce(late));
    RefusalLosesBytes(late);
    assert brought(0) == [] && brought(1) == [3, 4];
    TookFirst(brought);
  }

  lemma TookFirst(brought: nat -> Fill)
    requires brought(0) == [] && brought(1) == [3, 4]
    ensures Took(brought, State(0, []), 2) == (State(2, []), [3, 4])
  {
    assert Refilled(brought, 0, REFILL_TRIES) == Refilled(brought, 1, REFILL_TRIES - 1) == State(2, [3, 4]);
    var s2 := State(2, [3, 4][2..]);
    assert s2 == State(2, []) && Took(brought, s2, 0) == (s2, []);
    assert [3, 4][..2] + [] == [3, 4];
  }

  // ---- the driver on its own page ------------------------------------------------------------------------------------

  /** The driver, the page it shares with the device, and the device behind it. */
  class Pool {
    // the driver's
    var avail: nat
    var seen: nat
    var cursor: nat
    var filled: nat
    // the shared page's
    const buf: array<Byte>
    const usedLen: array<nat>
    var usedIdx: nat
    // the device's and the kernel's
    const env: Env
    var notifies: nat
    var taken: nat
    var countdown: nat
    // counts that do not wrap: requests published, completions seen
    var published: nat
    ghost var seenCount: nat
    // what each request brings
    ghost const brought: nat -> Fill

    ghost predicate Shape()
      reads this
    {
      && buf.Length == POOL_LEN && usedLen.Length == QSIZE && cursor <= filled <= POOL_LEN
      && avail == published % U16 && usedIdx == taken % U16 && seen == seenCount % U16 && seenCount <= taken <= published
    }

    /** The queue and the page as values. */
    ghost function Device(): (d: Dev)
      requires Shape()
      reads this, buf, usedLen
      ensures DevOk(d)
    {
      Dev(published, taken, seenCount, countdown, usedLen[..], buf[..])
    }

    ghost predicate Valid()
      reads this, buf, usedLen
    {
      Shape() && Tells(brought, env) && PoolOk(env, notifies, Device(), cursor, filled)
    }

    ghost function Abstract(): State
      requires Valid()
      reads this, buf, usedLen
    {
      State(notifies, buf[cursor..filled])
    }

    constructor (env: Env)
      ensures Valid() && fresh(buf) && fresh(usedLen) && Abstract() == State(0, [])
      ensures this.env == env && brought == Brought(env)
    {
      this.env, brought := env, Brought(env);
      avail, seen, cursor, filled, usedIdx, notifies, taken, countdown := 0, 0, 0, 0, 0, 0, 0, 0;
      published, seenCount := 0, 0;
      buf := new Byte[POOL_LEN](_ => 0);
      usedLen := new nat[QSIZE](_ => 0);
      new;
      assert usedLen[..] == seq(QSIZE, _ => 0) && buf[..] == seq(POOL_LEN, _ => 0 as Byte);
      PoolStarts(env, Device());
    }

    /** The device serves one request: its bytes over the front of the buffer, its length in its slot. */
    method ServeNext()
      requires Shape() && taken < published
      modifies this`usedIdx, this`taken, buf, usedLen
      ensures Shape() && Device() == ServedOne(env, old(Device()))
    {
      var f := env.fill(taken);
      SlotAligned(taken);
      IndexMoves(taken);
      ghost var was := buf[..];
      forall i | 0 <= i < |f| { buf[i] := f[i]; }
      assert buf[..] == Over(f, was);
      usedLen[usedIdx % QSIZE] := |f|;
      usedIdx := (usedIdx + 1) % U16;
      taken := taken + 1;
    }

    /** The device serves every request published since it last looked, each into the same buffer. */
    method Complete()
      requires Shape()
      modifies this`usedIdx, this`taken, buf, usedLen
      ensures Shape() && Device() == Completed(env, old(Device()))
    {
      while taken < published
        invariant Shape() && Completed(env, Device()) == Completed(env, old(Device()))
      {
        ServeNext();
      }
    }

    /** Ring the doorbell: refused, or taken up now or within the wait. */
    method Notify() returns (ok: bool)
      requires Shape()
      modifies this`usedIdx, this`taken, this`notifies, this`countdown, buf, usedLen
      ensures Shape() && notifies == old(notifies) + 1 && ok == env.accepts(old(notifies))
      ensures Device() == if ok then Notified(env, old(notifies), old(Device())) else old(Device())
    {
      ok := env.accepts(notifies);
      if ok { countdown := env.late(notifies); }
      notifies := notifies + 1;
      if ok && countdown == 0 { Complete(); }
    }

    /** Sleep until the line fires; the device may have finished by then. */
    method IrqWait()
      requires Shape()
      modifies this`usedIdx, this`taken, this`countdown, buf, usedLen
      ensures Shape() && Device() == Woken(env, old(Device()))
    {
      if countdown > 0 {
        countdown := countdown - 1;
        if countdown == 0 { Complete(); }
      }
    }

    /** Look at the used ring, and sleep while it has not moved. */
    method Await() returns (n: nat)
      requires Shape()
      modifies this`usedIdx, this`taken, this`countdown, this`seen, this`seenCount, buf, usedLen
      ensures Shape() && (Device(), n) == Waited(env, old(Device()), WAIT_WAKEUPS)
    {
      var w := 0;
      while w < WAIT_WAKEUPS
        invariant 0 <= w <= WAIT_WAKEUPS && Shape()
        invariant Waited(env, Device(), WAIT_WAKEUPS - w) == Waited(env, old(Device()), WAIT_WAKEUPS)
        modifies this`usedIdx, this`taken, this`countdown, buf, usedLen
      {
        if usedIdx != seen { break; }
        IrqWait();
        w := w + 1;
      }
      if w == WAIT_WAKEUPS { return 0; }
      var slot := seen % QSIZE;
      SlotAligned(seenCount);
      IndexMoves(seenCount);
      n := if usedLen[slot] < POOL_LEN then usedLen[slot] else POOL_LEN;
      seen := (seen + 1) % U16;
      seenCount := seenCount + 1;
    }

    /** Publish one request and wait for it; a refused one stays published. */
    method Request() returns (n: nat)
      requires Shape()
      modifies this`avail, this`seen, this`usedIdx, this`notifies, this`taken, this`countdown
      modifies this`published, this`seenCount, buf, usedLen
      ensures Shape() && notifies == old(notifies) + 1
      ensures (Device(), n) == Asked(env, old(notifies), old(Device()))
    {
      IndexMoves(published);
      published := published + 1;
      avail := (avail + 1) % U16;
      var ok := Notify();
      if !ok { return 0; }
      n := Await();
    }

    /** Ask again a device that brought nothing, four times at most. */
    method Refill() returns (ok: bool)
      requires Valid() && cursor == filled
      modifies this, buf, usedLen
      ensures Valid() && (if ok then cursor < filled else cursor == filled)
      ensures Abstract() == Refilled(brought, old(notifies), REFILL_TRIES)
    {
      var tries := 0;
      while tries < REFILL_TRIES
        invariant 0 <= tries <= REFILL_TRIES && Valid() && cursor == filled
        invariant Refilled(brought, notifies, REFILL_TRIES - tries) == Refilled(brought, old(notifies), REFILL_TRIES)
      {
        var n := RequestOnEmpty();
        if n > 0 { return true; }
        tries := tries + 1;
      }
      return false;
    }

    method RequestFrom(ghost empty: nat) returns (n: nat, ghost now: Dev)
      requires Shape() && PoolOk(env, notifies, Device(), empty, empty)
      modifies this`avail, this`seen, this`usedIdx, this`notifies, this`taken, this`countdown
      modifies this`published, this`seenCount, buf, usedLen
      ensures Shape() && notifies == old(notifies) + 1 && now == Device() && n == |Bringing(env, old(notifies))|
      ensures if n > 0 then PoolOk(env, notifies, now, 0, n) && now.buf[0..n] == Bringing(env, old(notifies))
              else PoolOk(env, notifies, now, empty, empty)
    {
      ghost var k, was := notifies, Device();
      n := Request();
      now := Device();
      PoolAsked(env, k, was, empty, now, n);
    }

    /** One request when nothing is held: what it brings is all that is then unserved. */
    method RequestOnEmpty() returns (n: nat)
      requires Valid() && cursor == filled
      modifies this, buf, usedLen
      ensures Valid() && notifies == old(notifies) + 1 && n == |brought(old(notifies))|
      ensures if n > 0 then cursor == 0 && Abstract().unserved == brought(old(notifies)) else cursor == filled
    {
      ghost var now;
      n, now := RequestFrom(cursor);
      if n > 0 { cursor, filled := 0, n; }
      assert Device() == now && brought(old(notifies)) == Bringing(env, old(notifies));
    }

    /** One byte into the word, and zero where it was. */
    method HandByte(at: nat, word: nat, place: nat, ghost before: seq<Byte>) returns (longer: nat)
      requires buf.Length == POOL_LEN && at < POOL_LEN && word == Word(before) && place == Power(|before|)
      modifies buf
      ensures longer == Word(before + [old(buf[at])]) && buf[..] == old(buf[..])[at := 0]
    {
      WordAppend(before, buf[at]);
      longer := word + buf[at] * place;
      buf[at] := 0;
    }

    /** Hand out the next `run` bytes into the word, zeroing each where it was. */
    method Hand(word: nat, got: nat, run: nat, ghost before: seq<Byte>) returns (longer: nat)
      requires buf.Length == POOL_LEN && cursor + run <= POOL_LEN && word == Word(before) && got == |before|
      modifies this`cursor, buf
      ensures cursor == old(cursor) + run && buf[..] == Zeroing(old(buf[..]), old(cursor), run)
      ensures longer == Word(before + old(buf[..])[old(cursor)..old(cursor) + run])
    {
      longer := word;
      ghost var was, acc := buf[..], before;
      var i, place := 0, Power(got);
      assert Zeroing(was, cursor, 0) == was;
      while i < run
        invariant 0 <= i <= run && place == Power(|acc|) && longer == Word(acc)
        invariant acc == before + was[cursor..cursor + i] && buf[..] == Zeroing(was, cursor, i)
        modifies buf
      {
        ZeroingNext(was, cursor, i);
        longer := HandByte(cursor + i, longer, place, acc);
        acc := acc + [was[cursor + i]];
        place := 256 * place;
        i := i + 1;
      }
      cursor := cursor + run;
    }

    /** Something to serve, refilling if the buffer ran out. */
    method Ready() returns (ok: bool)
      requires Valid()
      modifies this, buf, usedLen
      ensures Valid() && ok == (cursor < filled)
      ensures Abstract() == Readied(brought, old(Abstract()))
    {
      if cursor == filled { ok := Refill(); } else { ok := true; }
    }

    /** Hand out the front of the unserved bytes. */
    method HandFront(word: nat, got: nat, run: nat, ghost bytes: seq<Byte>) returns (longer: nat)
      requires Valid() && run <= filled - cursor && word == Word(bytes) && got == |bytes|
      modifies this`cursor, buf
      ensures Valid() && |old(Abstract().unserved)| == old(filled - cursor)
      ensures Abstract() == old(Abstract()).(unserved := old(Abstract().unserved)[run..])
      ensures longer == Word(bytes + old(Abstract().unserved)[..run])
    {
      ghost var was := Device();
      PoolHanded(env, notifies, was, cursor, filled, run);
      longer := Hand(word, got, run, bytes);
      assert Device() == was.(buf := Zeroing(was.buf, old(cursor), run));
    }

    /** The next run of bytes a client can have without another refill; none if the device is dry. */
    method Next(left: nat, word: nat, got: nat, ghost bytes: seq<Byte>) returns (run: nat, longer: nat, ghost more: seq<Byte>)
      requires Valid() && left > 0 && word == Word(bytes) && got == |bytes|
      modifies this, buf, usedLen
      ensures Valid() && run == |more| <= left && longer == Word(bytes + more)
      ensures Ran(brought, old(Abstract()), left, Abstract(), run, more)
    {
      ghost var s0 := Abstract();
      var ok := Ready();
      ghost var s1 := Abstract();
      run := if left < filled - cursor then left else filled - cursor;
      more := s1.unserved[..run];
      longer := HandFront(word, got, run, bytes);
      RunTaken(brought, s0, s1, Abstract(), left, run);
    }

    /** Up to `n` bytes as a count and a little-endian word; the boundary between fills is not the client's problem. */
    method Take(n: nat) returns (got: nat, word: nat, ghost bytes: seq<Byte>)
      requires Valid()
      modifies this, buf, usedLen
      ensures Valid() && got <= n
      ensures got == |bytes| && word == Word(bytes)
      ensures (Abstract(), bytes) == Took(brought, old(Abstract()), n)
    {
      got, word, bytes := 0, 0, [];
      ghost var s0 := Abstract();
      TookStart(brought, s0, n);
      while got < n
        invariant Valid() && got <= n && got == |bytes| && word == Word(bytes)
        invariant TookOn(brought, s0, n, Abstract(), n - got, bytes)
        decreases n - got
      {
        var run, longer;
        ghost var more;
        run, longer, more := TakeMore(n, word, got, bytes, s0);
        if run == 0 { return; }
        word, bytes, got := longer, bytes + more, got + run;
      }
      TookEnds(brought, s0, n, Abstract(), Abstract(), 0, bytes);
    }

    /** One turn of the loop: some more of what was asked for, or the end of it. */
    method TakeMore(n: nat, word: nat, got: nat, ghost bytes: seq<Byte>, ghost s0: State)
      returns (run: nat, longer: nat, ghost more: seq<Byte>)
      requires Valid() && got < n && got == |bytes| && word == Word(bytes)
      requires TookOn(brought, s0, n, Abstract(), n - got, bytes)
      modifies this, buf, usedLen
      ensures Valid() && run == |more| <= n - got && longer == Word(bytes + more)
      ensures if run > 0 then TookOn(brought, s0, n, Abstract(), n - got - run, bytes + more)
              else Took(brought, s0, n) == (Abstract(), bytes)
    {
      ghost var s := Abstract();
      run, longer, more := Next(n - got, word, got, bytes);
      RanOn(brought, s0, n, s, n - got, bytes, Abstract(), run, more);
    }
  }

  /** What is left to do from `s` completes what was asked from `s0`, after `done`. */
  predicate TookOn(brought: nat -> Fill, s0: State, n: nat, s: State, left: nat, done: seq<Byte>) {
    Took(brought, s0, n) == (Took(brought, s, left).0, done + Took(brought, s, left).1)
  }

  lemma TookStart(brought: nat -> Fill, s: State, n: nat)
    ensures TookOn(brought, s, n, s, n, [])
  {
    assert [] + Took(brought, s, n).1 == Took(brought, s, n).1;
  }

  lemma TookEnds(brought: nat -> Fill, s0: State, n: nat, s: State, last: State, left: nat, done: seq<Byte>)
    requires TookOn(brought, s0, n, s, left, done) && Took(brought, s, left) == (last, [])
    ensures Took(brought, s0, n) == (last, done)
  {
    assert done + [] == done;
  }

  lemma TookChain(brought: nat -> Fill, s0: State, n: nat, s: State, left: nat, done: seq<Byte>,
                  s2: State, left2: nat, more: seq<Byte>)
    requires TookOn(brought, s0, n, s, left, done) && TookOn(brought, s, left, s2, left2, more)
    ensures TookOn(brought, s0, n, s2, left2, done + more)
  {
    assert done + (more + Took(brought, s2, left2).1) == (done + more) + Took(brought, s2, left2).1;
  }

  /** One run of a request: some bytes and the rest still to do, or nothing because the device is dry. */
  predicate Ran(brought: nat -> Fill, s: State, left: nat, s2: State, run: nat, more: seq<Byte>)
    requires run <= left
  {
    if run > 0 then TookOn(brought, s, left, s2, left - run, more) else Took(brought, s, left) == (s2, [])
  }

  lemma RunTaken(brought: nat -> Fill, s: State, s1: State, s2: State, left: nat, run: nat)
    requires left > 0 && s1 == Readied(brought, s) && run == (if left < |s1.unserved| then left else |s1.unserved|)
    requires s2 == s1.(unserved := s1.unserved[run..])
    ensures Ran(brought, s, left, s2, run, s1.unserved[..run])
  {
  }

  /** A run joins what went before it; an empty one ends the request. */
  lemma RanOn(brought: nat -> Fill, s0: State, n: nat, s: State, left: nat, done: seq<Byte>, s2: State, run: nat,
              more: seq<Byte>)
    requires run == |more| <= left && TookOn(brought, s0, n, s, left, done) && Ran(brought, s, left, s2, run, more)
    ensures if run > 0 then TookOn(brought, s0, n, s2, left - run, done + more)
            else done + more == done && Took(brought, s0, n) == (s2, done)
  {
    if run > 0 {
      TookChain(brought, s0, n, s, left, done, s2, left - run, more);
    } else {
      assert done + more == done;
      TookEnds(brought, s0, n, s, s2, left, done);
    }
  }
}
