/**
 The input ring between the keyboard driver and the compositor, and the focus routing that drains it.
 The two indices are 32-bit words that wrap; a slot is an index modulo the ring's 256 bytes.
 */
module InputRing {
  import opened WrapArithmetic

  type Byte = b: nat | b < 256

  const CAPACITY: nat := 256
  const WRAP: nat := 0x1_0000_0000
  const FOCUS_NEXT: Byte := 0x09

  datatype Delivery = Delivery(client: nat, byte: Byte)

  /** How many focus moves a stream holds. */
  function FocusMoves(stream: seq<Byte>): nat {
    if stream == [] then 0
    else FocusMoves(stream[..|stream| - 1]) + if stream[|stream| - 1] == FOCUS_NEXT then 1 else 0
  }

  /**
   Where each byte of a stream must go: a focus byte goes nowhere; any other goes to the client numbered
   by the focus moves before it, modulo the focusable clients, or nowhere if there are none.
   */
  function Routed(stream: seq<Byte>, focusable: nat): seq<Delivery> {
    if stream == [] then []
    else
      var before, b := stream[..|stream| - 1], stream[|stream| - 1];
      Routed(before, focusable)
      + if b == FOCUS_NEXT || focusable == 0 then [] else [Delivery(FocusMoves(before) % focusable, b)]
  }

  /** How many bytes of a stream are not focus moves. */
  function Plain(stream: seq<Byte>): nat {
    if stream == [] then 0
    else Plain(stream[..|stream| - 1]) + if stream[|stream| - 1] == FOCUS_NEXT then 0 else 1
  }

  /** Both counts, by how often the focus byte occurs. */
  lemma {:induction false} CountsOf(stream: seq<Byte>)
    ensures FocusMoves(stream) == multiset(stream)[FOCUS_NEXT] && Plain(stream) == |stream| - multiset(stream)[FOCUS_NEXT]
  {
    if stream != [] {
      var n := |stream| - 1;
      CountsOf(stream[..n]);
      assert stream == stream[..n] + [stream[n]];
      assert multiset(stream) == multiset(stream[..n]) + multiset{stream[n]};
    }
  }

  /**
   One delivery per byte that is no focus move, in its turn: the k-th byte goes to the client numbered by the focus
   moves before it, and there are no other deliveries.
   */
  lemma RoutedByFocus(stream: seq<Byte>, focusable: nat, k: nat)
    requires focusable > 0 && k < |stream| && stream[k] != FOCUS_NEXT
    ensures |Routed(stream, focusable)| == |stream| - multiset(stream)[FOCUS_NEXT]
    ensures var moves := multiset(stream[..k])[FOCUS_NEXT];
      && 0 <= k - moves < |Routed(stream, focusable)|
      && Routed(stream, focusable)[k - moves] == Delivery(moves % focusable, stream[k])
  {
    RoutedInTurn(stream, focusable, k);
    CountsOf(stream);
    CountsOf(stream[..k]);
  }

  /** With nobody to focus nothing is delivered. */
  lemma {:induction false} RoutedToNobody(stream: seq<Byte>)
    ensures Routed(stream, 0) == []
  {
    if stream != [] { RoutedToNobody(stream[..|stream| - 1]); }
  }

  lemma {:induction false} RoutedInTurn(stream: seq<Byte>, focusable: nat, k: nat)
    requires focusable > 0 && k < |stream| && stream[k] != FOCUS_NEXT
    ensures |Routed(stream, focusable)| == Plain(stream) > Plain(stream[..k])
    ensures Routed(stream, focusable)[Plain(stream[..k])]
         == Delivery(FocusMoves(stream[..k]) % focusable, stream[k])
  {
    RoutedLength(stream, focusable);
    var before := stream[..|stream| - 1];
    if k < |before| {
      assert before[..k] == stream[..k];
      RoutedInTurn(before, focusable, k);
    } else {
      RoutedLength(before, focusable);
    }
  }

  lemma {:induction false} RoutedLength(stream: seq<Byte>, focusable: nat)
    requires focusable > 0
    ensures |Routed(stream, focusable)| == Plain(stream)
  {
    if stream != [] { RoutedLength(stream[..|stream| - 1], focusable); }
  }

  /** The ring after `typed` has been pushed into it, oldest first. */
  function Written(typed: seq<Byte>): (slots: seq<Byte>)
    ensures |slots| == CAPACITY
  {
    if typed == [] then seq(CAPACITY, _ => 0 as Byte)
    else Written(typed[..|typed| - 1])[(|typed| - 1) % CAPACITY := typed[|typed| - 1]]
  }

  /** What a reader that walks the indices `from..to` finds. */
  function Read(slots: seq<Byte>, from: nat, to: nat): (r: seq<Byte>)
    requires |slots| == CAPACITY && from <= to
    ensures |r| == to - from && forall i :: 0 <= i < |r| ==> r[i] == slots[(from + i) % CAPACITY]
  {
    if from == to then [] else Read(slots, from, to - 1) + [slots[(to - 1) % CAPACITY]]
  }

  /** The last ring's worth of bytes is still there. */
  lemma {:induction false} WrittenHolds(typed: seq<Byte>, k: nat)
    requires k < |typed| <= k + CAPACITY
    ensures Written(typed)[k % CAPACITY] == typed[k]
  {
    var n := |typed| - 1;
    if k < n {
      WrittenHolds(typed[..n], k);
      ModEqual(k, n, CAPACITY);
    }
  }

  lemma ReadIsExact(typed: seq<Byte>, from: nat, to: nat)
    requires from <= to <= |typed| <= from + CAPACITY
    ensures Read(Written(typed), from, to) == typed[from..to]
  {
    forall i | 0 <= i < to - from ensures Read(Written(typed), from, to)[i] == typed[from + i] {
      WrittenHolds(typed, from + i);
    }
  }

  lemma TakenIsTyped(typed: seq<Byte>, taken: seq<Byte>, to: nat)
    requires |taken| <= to <= |typed|
    ensures taken <= typed && |typed| <= |taken| + CAPACITY ==> taken + Read(Written(typed), |taken|, to) <= typed
  {
    if taken <= typed && |typed| <= |taken| + CAPACITY {
      ReadIsExact(typed, |taken|, to);
      assert taken + typed[|taken|..to] == typed[..to];
    }
  }

  /** A batch pushed, published and drained in one go. */
  function Drained(batch: seq<Byte>): seq<Byte> {
    Read(Written(batch), 0, |batch|)
  }

  /** The ring hands a batch over unchanged, whatever its bytes, exactly when the batch fits in it. */
  lemma BatchesSurviveIffTheyFit(n: nat)
    ensures (forall batch: seq<Byte> | |batch| == n :: Drained(batch) == batch) <==> n <= CAPACITY
  {
    if n <= CAPACITY {
      forall batch: seq<Byte> | |batch| == n ensures Drained(batch) == batch {
        ReadIsExact(batch, 0, n);
      }
    } else {
      var batch: seq<Byte> := seq(n, i requires 0 <= i < n => (if i < CAPACITY then 1 else 2) as Byte);
      var last := n - 1 - (n - 1) % CAPACITY;
      WrittenHolds(batch, last);
      assert Drained(batch)[0] == 2;
    }
  }

  class Ring {
    var slots: array<Byte>
    var head: nat        // the HEAD word: bytes consumed, modulo 2^32
    var tail: nat        // the TAIL word: bytes published, modulo 2^32
    var next: nat        // the driver's own tail
    var focus: nat
    const focusable: nat

    ghost var typed: seq<Byte>       // everything pushed
    ghost var published: nat
    ghost var taken: seq<Byte>       // everything the compositor read, in order
    ghost var delivered: seq<Delivery>

    ghost predicate Valid()
      reads this, slots
    {
      && slots.Length == CAPACITY && slots[..] == Written(typed)
      && |taken| <= published <= |typed|
      && head == |taken| % WRAP && tail == published % WRAP && next == |typed| % WRAP
      && delivered == Routed(taken, focusable)
      && focus == if focusable == 0 then 0 else FocusMoves(taken) % focusable
    }

    constructor (focusable: nat)
      ensures Valid() && this.focusable == focusable && typed == [] && taken == [] && delivered == [] && fresh(slots)
    {
      slots := new Byte[CAPACITY](_ => 0);
      head, tail, next, focus := 0, 0, 0, 0;
      this.focusable := focusable;
      typed, published, taken, delivered := [], 0, [], [];
    }

    /** The driver's `ring_push`. */
    method Push(b: Byte)
      requires Valid()
      modifies this`next, this`typed, slots
      ensures Valid() && typed == old(typed) + [b]
    {
      ModOfMod(|typed|, WRAP / CAPACITY, CAPACITY);
      ModNext(|typed|, WRAP);
      slots[next % CAPACITY] := b;
      next := (next + 1) % WRAP;
      ghost var was := typed;
      typed := typed + [b];
      assert typed[..|typed| - 1] == was;
    }

    /** The driver's `ring_publish`. */
    method Publish()
      requires Valid()
      modifies this`tail, this`published
      ensures Valid() && published == |typed|
    {
      tail := next;
      published := |typed|;
    }

    /**
     The compositor's `drain_input`. Everything published is consumed once, in order, and routed by the
     focus moves before it; and if the driver never ran more than a ring ahead, what was consumed is
     exactly what was typed.
     */
    method Drain()
      requires Valid() && published - |taken| < WRAP
      modifies this`head, this`focus, this`taken, this`delivered
      ensures Valid() && |taken| == published && delivered == Routed(taken, focusable)
      ensures taken == old(taken) + Read(slots[..], |old(taken)|, published)
      ensures old(taken) <= typed && |typed| <= |old(taken)| + CAPACITY ==> taken <= typed
    {
      ghost var first, ring := |taken|, slots[..];
      while head != tail
        invariant Valid() && first <= |taken| && slots[..] == ring
        invariant taken == old(taken) + Read(ring, first, |taken|)
        decreases published - |taken|
      {
        ModEqual(|taken|, published, WRAP);
        ghost var before := taken;
        TakeOne(first);
        assert taken == before + [taken[|taken| - 1]];
      }
      ModEqual(|taken|, published, WRAP);
      TakenIsTyped(typed, old(taken), published);
    }

    /** One turn of the drain loop: load a byte, advance the head, move focus or deliver. */
    method TakeOne(ghost first: nat)
      requires Valid() && first <= |taken| < published
      modifies this`head, this`focus, this`taken, this`delivered
      ensures Valid() && |taken| == |old(taken)| + 1 && old(taken) <= taken && delivered == Routed(taken, focusable)
      ensures Read(slots[..], first, |taken|) == Read(slots[..], first, |old(taken)|) + [taken[|taken| - 1]]
    {
      ModOfMod(|taken|, WRAP / CAPACITY, CAPACITY);
      ModNext(|taken|, WRAP);
      var byte := slots[head % CAPACITY];
      head := (head + 1) % WRAP;
      ghost var before := taken;
      taken := taken + [byte];
      assert taken[..|taken| - 1] == before;
      if byte == FOCUS_NEXT {
        if focusable > 0 {
          ModNext(FocusMoves(before), focusable);
          focus := (focus + 1) % focusable;
        }
      } else if focus < focusable {
        delivered := delivered + [Delivery(focus, byte)];
      }
    }
  }
}
