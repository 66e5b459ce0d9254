/**
 The queue broker: while its backend is up it passes requests straight through, while it is away it takes
 custody of them in a ring of 128, and when it is back it drains the ring before serving anything newer.
 */
module Broker {
  import opened WrapArithmetic

  const CAPACITY: nat := 128

  type Item = nat

  // ---- what one wakeup means --------------------------------------------------------------------------------

  datatype Operation = Put(item: Item) | Quiesce | Unknown

  /** What a wakeup brings: a bare signal, a message nobody waits on, or a request. */
  datatype Got = Signal | NoReply | Asked(op: Operation)

  /** The operator's page is read on every wakeup; `answer` is what the backend says to a passed request. */
  datatype Event = Event(got: Got, wantsDown: bool, answer: (nat, nat))

  datatype Reply =
    | Silent
    | Passed(answer: (nat, nat))
    | Accepted(count: nat)
    | QueueFull(count: nat)
    | Quiesced(buffered: nat)
    | BadRequest

  /** `delivered` is what the backend was given, in order; `drained` the counts reported after each drain. */
  datatype State = State(queue: seq<Item>, up: bool, buffered: nat, delivered: seq<Item>, drained: seq<nat>, exited: bool)

  const START := State([], true, 0, [], [], false)

  /** The page first: going down only stops pass-through, coming up empties the queue to the backend. */
  function Noticed(s: State, wantsDown: bool): State {
    if wantsDown then s.(up := false)
    else if s.up then s
    else s.(queue := [], up := true, delivered := s.delivered + s.queue, drained := s.drained + [|s.queue|])
  }

  function Handled(s: State, op: Operation, answer: (nat, nat)): (State, Reply) {
    match op
    case Put(item) =>
      if s.up then (s.(delivered := s.delivered + [item]), Passed(answer))
      else if |s.queue| == CAPACITY then (s, QueueFull(|s.queue|))
      else (s.(queue := s.queue + [item], buffered := s.buffered + 1), Accepted(|s.queue| + 1))
    case Quiesce => (s.(exited := true), Quiesced(s.buffered))
    case Unknown => (s, BadRequest)
  }

  function Wake(s: State, e: Event): (State, Reply) {
    if s.exited then (s, Silent)
    else
      var s1 := Noticed(s, e.wantsDown);
      match e.got
      case Asked(op) => Handled(s1, op, e.answer)
      case _ => (s1, Silent)
  }

  function Run(s: State, events: seq<Event>): State
    decreases |events|
  {
    if events == [] then s else Run(Wake(s, events[0]).0, events[1..])
  }

  // ---- exactly once, in order ---------------------------------------------------------------------------------

  /** The item a wakeup took, by the reply its producer got. */
  function Took(e: Event, reply: Reply): seq<Item> {
    if (reply.Passed? || reply.Accepted?) && e.got.Asked? && e.got.op.Put? then [e.got.op.item] else []
  }

  /** The items whose producers were told they were taken, in order. */
  function Taken(s: State, events: seq<Event>): seq<Item>
    decreases |events|
  {
    if events == [] then []
    else Took(events[0], Wake(s, events[0]).1) + Taken(Wake(s, events[0]).0, events[1..])
  }

  function Sum(counts: seq<nat>): nat {
    if counts == [] then 0 else Sum(counts[..|counts| - 1]) + counts[|counts| - 1]
  }

  /** Pass-through only with an empty queue; everything buffered has been drained or is still queued. */
  predicate Inv(s: State) {
    && |s.queue| <= CAPACITY && (s.up ==> s.queue == [])
    && s.buffered == Sum(s.drained) + |s.queue|
  }

  lemma SumNext(counts: seq<nat>, n: nat)
    ensures Sum(counts + [n]) == Sum(counts) + n
  {
    assert (counts + [n])[..|counts|] == counts;
  }

  lemma NoticedKeeps(s: State, wantsDown: bool)
    requires Inv(s)
    ensures var s1 := Noticed(s, wantsDown); Inv(s1) && s1.delivered + s1.queue == s.delivered + s.queue
  {
    SumNext(s.drained, |s.queue|);
  }

  lemma HandledKeeps(s: State, e: Event)
    requires Inv(s) && e.got.Asked?
    ensures var (s1, reply) := Handled(s, e.got.op, e.answer);
      && Inv(s1) && s1.delivered + s1.queue == s.delivered + s.queue + Took(e, reply)
      && (reply.Passed? ==> s1.queue == [])
      && (reply.QueueFull? ==> s1 == s)
  {
  }

  lemma WakeKeeps(s: State, e: Event)
    requires Inv(s)
    ensures var (s1, reply) := Wake(s, e);
      && Inv(s1) && s1.delivered + s1.queue == s.delivered + s.queue + Took(e, reply)
      && (reply.Passed? ==> s1.queue == [])
  {
    if !s.exited {
      NoticedKeeps(s, e.wantsDown);
      if e.got.Asked? { HandledKeeps(Noticed(s, e.wantsDown), e); }
    }
  }

  /**
   Over every run of up and down changes and requests: what the backend was given followed by what is queued
   is what was taken, each item once and in arrival order. An item answered QUEUE_FULL is in neither.
   */
  lemma {:induction false} ExactlyOnceInOrder(s: State, events: seq<Event>)
    requires Inv(s)
    ensures var t := Run(s, events);
      Inv(t) && t.delivered + t.queue == s.delivered + s.queue + Taken(s, events)
    decreases |events|
  {
    if events != [] {
      var s1 := Wake(s, events[0]).0;
      WakeKeeps(s, events[0]);
      ExactlyOnceInOrder(s1, events[1..]);
    }
  }

  /** From the start: the backlog and the deliveries are exactly the taken items. */
  lemma BrokerIsFifo(events: seq<Event>)
    ensures var t := Run(START, events);
      && t.delivered + t.queue == Taken(START, events)
      && (t.up ==> t.queue == [] && t.delivered == Taken(START, events))
      && t.buffered == Sum(t.drained) + |t.queue| && |t.queue| <= CAPACITY
  {
    ExactlyOnceInOrder(START, events);
  }

  /** After QUIESCE nothing more is delivered, whatever comes. */
  lemma {:induction false} ExitIsFinal(s: State, events: seq<Event>)
    requires s.exited
    ensures Run(s, events) == s && Taken(s, events) == []
    decreases |events|
  {
    if events != [] { ExitIsFinal(s, events[1..]); }
  }

  // ---- when it is up, and what each request is told --------------------------------------------------------------

  /**
   After any wakeup a broker that has not exited is up exactly when the operator does not want it down. Up, it
   holds nothing: what it held went to the backend, oldest first and before this wakeup's own item. Down, it gave
   the backend nothing.
   */
  lemma WakeFollowsThePage(s: State, e: Event)
    requires Inv(s) && !s.exited
    ensures var (t, reply) := Wake(s, e);
      && (t.up <==> !e.wantsDown)
      && (!e.wantsDown ==> t.queue == [] && t.delivered == s.delivered + s.queue + Took(e, reply))
      && (e.wantsDown ==> t.delivered == s.delivered && t.queue == s.queue + Took(e, reply))
      && t.drained == if !s.up && !e.wantsDown then s.drained + [|s.queue|] else s.drained
  {
    if !e.wantsDown && s.up { assert s.delivered + [] == s.delivered; }
  }

  /** A PUT: the backend's own answer when up; when down the new count while fewer than 128 are held, then full. */
  lemma PutIsAnswered(s: State, item: Item, wantsDown: bool, answer: (nat, nat))
    requires Inv(s) && !s.exited
    ensures var reply := Wake(s, Event(Asked(Put(item)), wantsDown, answer)).1;
      && (!wantsDown ==> reply == Passed(answer))
      && (wantsDown && |s.queue| < CAPACITY ==> reply == Accepted(|s.queue| + 1))
      && (wantsDown && |s.queue| >= CAPACITY ==> reply == QueueFull(CAPACITY))
  {
  }

  /** QUIESCE is told how many items were ever buffered, and ends the run; nothing else ends it. */
  lemma QuiesceIsAnswered(s: State, e: Event)
    requires !s.exited
    ensures var (t, reply) := Wake(s, e);
      && (t.exited <==> e.got == Asked(Quiesce))
      && (e.got == Asked(Quiesce) ==> reply == Quiesced(s.buffered))
      && (e.got == Asked(Unknown) ==> reply == BadRequest)
      && (!e.got.Asked? ==> reply == Silent)
  {
  }

  /** How many producers were told their item is buffered. */
  function Buffering(s: State, events: seq<Event>): nat
    decreases |events|
  {
    if events == [] then 0
    else (if Wake(s, events[0]).1.Accepted? then 1 else 0) + Buffering(Wake(s, events[0]).0, events[1..])
  }

  lemma {:induction false} BufferedCounts(s: State, events: seq<Event>)
    ensures Run(s, events).buffered == s.buffered + Buffering(s, events)
    decreases |events|
  {
    if events != [] { BufferedCounts(Wake(s, events[0]).0, events[1..]); }
  }

  lemma {:induction false} RunOne(s: State, events: seq<Event>, e: Event)
    ensures Run(s, events + [e]) == Wake(Run(s, events), e).0
    ensures Taken(s, events + [e]) == Taken(s, events) + Took(e, Wake(Run(s, events), e).1)
    decreases |events|
  {
    if events == [] {
      assert events + [e] == [e] && [e][1..] == [];
    } else {
      assert (events + [e])[0] == events[0] && (events + [e])[1..] == events[1..] + [e];
      RunOne(Wake(s, events[0]).0, events[1..], e);
    }
  }

  /**
   Whatever went before: once a wakeup finds the backend wanted, every item ever taken has been delivered, in the
   order it was taken, and nothing waits.
   */
  lemma ComingUpDelivers(events: seq<Event>, e: Event)
    requires !Run(START, events).exited && !e.wantsDown
    ensures var t := Run(START, events + [e]); t.up && t.queue == [] && t.delivered == Taken(START, events + [e])
  {
    RunOne(START, events, e);
    ExactlyOnceInOrder(START, events);
    WakeFollowsThePage(Run(START, events), e);
    ExactlyOnceInOrder(START, events + [e]);
  }

  // ---- the ring and the loop -------------------------------------------------------------------------------------

  /** `count` items of a ring from `head` on. */
  function Window(items: seq<Item>, head: nat, count: nat): (s: seq<Item>)
    requires |items| == CAPACITY
    ensures |s| == count
  {
    seq(count, i requires 0 <= i < count => items[(head + i) % CAPACITY])
  }

  lemma WindowPush(items: seq<Item>, head: nat, count: nat, item: Item)
    requires |items| == CAPACITY && head < CAPACITY && count < CAPACITY
    ensures Window(items[(head + count) % CAPACITY := item], head, count + 1) == Window(items, head, count) + [item]
  {
    var after := items[(head + count) % CAPACITY := item];
    var whole, rest := Window(after, head, count + 1), Window(items, head, count);
    forall i | 0 <= i < count ensures whole[i] == rest[i] {
      ModEqual(head + i, head + count, CAPACITY);
    }
  }

  lemma WindowPop(items: seq<Item>, head: nat, count: nat)
    requires |items| == CAPACITY && head < CAPACITY && 0 < count
    ensures Window(items, head, count) == [items[head]] + Window(items, (head + 1) % CAPACITY, count - 1)
  {
    var whole, rest := Window(items, head, count), Window(items, (head + 1) % CAPACITY, count - 1);
    forall i | 0 <= i < count - 1 ensures rest[i] == whole[i + 1] {
      ModShift(head + 1, i, CAPACITY);
      assert head + 1 + i == head + (i + 1);
    }
    assert whole[0] == items[head];
  }

  class Queue {
    const items: array<Item>
    var head: nat
    var count: nat

    ghost predicate Valid()
      reads this
    {
      items.Length == CAPACITY && head < CAPACITY && count <= CAPACITY
    }

    /** The queued items, oldest first. */
    ghost function Contents(): (s: seq<Item>)
      requires Valid()
      reads this, items
      ensures |s| == count
    {
      Window(items[..], head, count)
    }

    constructor ()
      ensures Valid() && fresh(items) && Contents() == []
    {
      items := new Item[CAPACITY](_ => 0);
      head, count := 0, 0;
    }

    method Push(item: Item) returns (ok: bool)
      requires Valid()
      modifies this, items
      ensures Valid() && ok == (|old(Contents())| < CAPACITY)
      ensures Contents() == if ok then old(Contents()) + [item] else old(Contents())
    {
      if count == CAPACITY { return false; }
      WindowPush(items[..], head, count, item);
      items[(head + count) % CAPACITY] := item;
      count := count + 1;
      return true;
    }

    method Pop() returns (item: Item)
      requires Valid() && Contents() != []
      modifies this
      ensures Valid() && [item] + Contents() == old(Contents())
    {
      WindowPop(items[..], head, count);
      item := items[head];
      head := (head + 1) % CAPACITY;
      count := count - 1;
    }
  }

  class Loop {
    const queue: Queue
    var up: bool
    var buffered: nat
    var exited: bool
    ghost var delivered: seq<Item>
    ghost var drained: seq<nat>

    ghost predicate Valid()
      reads this, queue
    {
      queue.Valid()
    }

    ghost function Abstract(): State
      requires Valid()
      reads this, queue, queue.items
    {
      State(queue.Contents(), up, buffered, delivered, drained, exited)
    }

    constructor ()
      ensures Valid() && fresh(queue) && fresh(queue.items) && Abstract() == START
    {
      queue := new Queue();
      up, buffered, exited := true, 0, false;
      delivered, drained := [], [];
    }

    /** Everything queued goes to the backend, oldest first. */
    method Drain()
      requires Valid()
      modifies this`delivered, this`drained, queue
      ensures Valid() && queue.Contents() == [] && delivered == old(delivered + queue.Contents())
      ensures drained == old(drained) + [|old(queue.Contents())|]
    {
      var n := 0;
      while queue.count > 0
        invariant Valid() && delivered + queue.Contents() == old(delivered + queue.Contents())
        invariant n + queue.count == |old(queue.Contents())| && drained == old(drained)
        decreases queue.count
      {
        ghost var was := queue.Contents();
        var item := queue.Pop();
        assert delivered + was == (delivered + [item]) + queue.Contents();
        delivered := delivered + [item];
        n := n + 1;
      }
      drained := drained + [n];
    }

    /** One turn of the loop. */
    method Wakeup(e: Event) returns (reply: Reply)
      requires Valid() && !exited
      modifies this, queue, queue.items
      ensures Valid() && (Abstract(), reply) == Wake(old(Abstract()), e)
      ensures up <==> !e.wantsDown
      ensures !e.wantsDown && !old(up) ==> queue.Contents() == [] && old(delivered + queue.Contents()) <= delivered
    {
      if e.wantsDown && up {
        up := false;
      } else if !e.wantsDown && !up {
        Drain();
        up := true;
      }
      if !e.got.Asked? { return Silent; }
      match e.got.op {
        case Put(item) =>
          if up {
            delivered := delivered + [item];
            return Passed(e.answer);
          }
          var ok := queue.Push(item);
          if !ok { return QueueFull(queue.count); }
          buffered := buffered + 1;
          return Accepted(queue.count);
        case Quiesce =>
          exited := true;
          return Quiesced(buffered);
        case Unknown =>
          return BadRequest;
      }
    }
  }
}
