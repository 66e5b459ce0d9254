/**
 The console in screen mode: every byte goes to the UART at once, and to the screen's terminal in batches
 staged in one page and painted when a deadline fires, the page fills, or there is no timer to batch with.
 */
module Console {
  type Byte = b: nat | b < 256

  const PAGE: nat := 4096
  const NEWLINE: Byte := 10

  // ---- what the batcher means --------------------------------------------------------------------------------

  /** `painted` is all the terminal was handed; `arms` counts the times the timer was asked. */
  datatype Screen = Screen(painted: seq<Byte>, staged: seq<Byte>, armed: bool, batching: bool, arms: nat)

  /** The timer answers each request to arm, or refuses it. */
  type Timer = nat -> bool

  function Painted(s: Screen): Screen {
    s.(painted := s.painted + s.staged, staged := [], armed := false)
  }

  function Staged(timer: Timer, s: Screen, bytes: seq<Byte>): Screen {
    var s1 := if |s.staged| + |bytes| > PAGE then Painted(s) else s;
    var s2 := s1.(staged := s1.staged + bytes);
    if !s2.batching || |s2.staged| >= PAGE then Painted(s2)
    else if s2.armed then s2
    else if timer(s2.arms) then s2.(armed := true, arms := s2.arms + 1)
    else Painted(s2.(batching := false, arms := s2.arms + 1))
  }

  /** Bytes of any length, a page at a time. */
  function Emitted(timer: Timer, s: Screen, bytes: seq<Byte>): Screen
    decreases |bytes|
  {
    if bytes == [] then s
    else if |bytes| <= PAGE then Staged(timer, s, bytes)
    else Emitted(timer, Staged(timer, s, bytes[..PAGE]), bytes[PAGE..])
  }

  function EmittedAll(timer: Timer, s: Screen, chunks: seq<seq<Byte>>): Screen
    decreases |chunks|
  {
    if chunks == [] then s else EmittedAll(timer, Emitted(timer, s, chunks[0]), chunks[1..])
  }

  function Flat(chunks: seq<seq<Byte>>): seq<Byte> {
    if chunks == [] then [] else chunks[0] + Flat(chunks[1..])
  }

  /** One past the last newline, or nothing. */
  function Cut(bytes: seq<Byte>): (n: nat)
    ensures n <= |bytes| && NEWLINE !in bytes[n..] && (n > 0 ==> bytes[n - 1] == NEWLINE)
  {
    if bytes == [] then 0
    else if bytes[|bytes| - 1] == NEWLINE then |bytes|
    else Cut(bytes[..|bytes| - 1])
  }

  /**
   What ends a wait: the deadline, the log service's lines, or a client's write. The kernel lines that go out
   after each half of a write are the line inserter's choice.
   */
  datatype Event =
    | Deadline
    | Lines(chunks: seq<seq<Byte>>)
    | Write(bytes: seq<Byte>, first: seq<seq<Byte>>, second: seq<seq<Byte>>)

  datatype State = State(uart: seq<Byte>, screen: Screen)

  function Wrote(timer: Timer, s: State, part: seq<Byte>, after: seq<seq<Byte>>): State {
    State(s.uart + part + Flat(after), EmittedAll(timer, Emitted(timer, s.screen, part), after))
  }

  function After(timer: Timer, s: State, e: Event): State {
    match e
    case Deadline => s.(screen := Painted(s.screen))
    case Lines(chunks) => State(s.uart + Flat(chunks), EmittedAll(timer, s.screen, chunks))
    case Write(bytes, first, second) =>
      var len := if |bytes| < PAGE then |bytes| else PAGE;
      var cut := Cut(bytes[..len]);
      Wrote(timer, Wrote(timer, s, bytes[..cut], first), bytes[cut..len], second)
  }

  function Run(timer: Timer, s: State, events: seq<Event>): State
    decreases |events|
  {
    if events == [] then s else Run(timer, After(timer, s, events[0]), events[1..])
  }

  // ---- at every wait point -------------------------------------------------------------------------------------

  /** Staging fits the page with room to spare, and staged bytes have an armed deadline. */
  predicate Waiting(s: Screen) {
    |s.staged| < PAGE && (s.staged != [] ==> s.armed && s.batching)
  }

  /** The wire and the screen agree: what was painted and what is staged is what was said. */
  predicate Agrees(s: State) {
    s.uart == s.screen.painted + s.screen.staged && Waiting(s.screen)
  }

  lemma StagedKeeps(timer: Timer, s: Screen, bytes: seq<Byte>)
    requires Waiting(s) && |bytes| <= PAGE
    ensures var t := Staged(timer, s, bytes);
      Waiting(t) && t.painted + t.staged == s.painted + s.staged + bytes
  {
  }

  lemma {:induction false} EmittedKeeps(timer: Timer, s: Screen, bytes: seq<Byte>)
    requires Waiting(s)
    ensures var t := Emitted(timer, s, bytes);
      Waiting(t) && t.painted + t.staged == s.painted + s.staged + bytes
    decreases |bytes|
  {
    if bytes != [] {
      if |bytes| <= PAGE {
        StagedKeeps(timer, s, bytes);
      } else {
        var s1 := Staged(timer, s, bytes[..PAGE]);
        StagedKeeps(timer, s, bytes[..PAGE]);
        EmittedKeeps(timer, s1, bytes[PAGE..]);
        assert bytes[..PAGE] + bytes[PAGE..] == bytes;
      }
    }
  }

  lemma {:induction false} EmittedAllKeeps(timer: Timer, s: Screen, chunks: seq<seq<Byte>>)
    requires Waiting(s)
    ensures var t := EmittedAll(timer, s, chunks);
      Waiting(t) && t.painted + t.staged == s.painted + s.staged + Flat(chunks)
    decreases |chunks|
  {
    if chunks != [] {
      EmittedKeeps(timer, s, chunks[0]);
      EmittedAllKeeps(timer, Emitted(timer, s, chunks[0]), chunks[1..]);
    }
  }

  lemma WroteKeeps(timer: Timer, s: State, part: seq<Byte>, after: seq<seq<Byte>>)
    requires Agrees(s)
    ensures Agrees(Wrote(timer, s, part, after))
  {
    EmittedKeeps(timer, s.screen, part);
    EmittedAllKeeps(timer, Emitted(timer, s.screen, part), after);
  }

  lemma AfterKeeps(timer: Timer, s: State, e: Event)
    requires Agrees(s)
    ensures Agrees(After(timer, s, e))
  {
    match e {
      case Deadline =>
      case Lines(chunks) => EmittedAllKeeps(timer, s.screen, chunks);
      case Write(bytes, first, second) =>
        var len := if |bytes| < PAGE then |bytes| else PAGE;
        var cut := Cut(bytes[..len]);
        WroteKeeps(timer, s, bytes[..cut], first);
        WroteKeeps(timer, Wrote(timer, s, bytes[..cut], first), bytes[cut..len], second);
    }
  }

  /** What an event says, in the order the wire carries it. */
  function Said(e: Event): seq<Byte> {
    match e
    case Deadline => []
    case Lines(chunks) => Flat(chunks)
    case Write(bytes, first, second) =>
      var len := if |bytes| < PAGE then |bytes| else PAGE;
      var cut := Cut(bytes[..len]);
      bytes[..cut] + Flat(first) + bytes[cut..len] + Flat(second)
  }

  function SaidAll(events: seq<Event>): seq<Byte> {
    if events == [] then [] else Said(events[0]) + SaidAll(events[1..])
  }

  /**
   With batching on or off and the timer refusing whenever it likes: at every wait point of every history the
   UART has carried exactly what was said, the terminal has been handed a prefix of it, the rest is staged in
   less than a page, and anything staged has a deadline armed.
   */
  lemma {:induction false} ScreenNeverDisagrees(timer: Timer, s: State, events: seq<Event>)
    requires Agrees(s)
    ensures var t := Run(timer, s, events); Agrees(t) && t.uart == s.uart + SaidAll(events)
    decreases |events|
  {
    if events == [] {
      assert s.uart + [] == s.uart;
    } else {
      var s1 := After(timer, s, events[0]);
      AfterKeeps(timer, s, events[0]);
      SaidNext(timer, s, events[0]);
      ScreenNeverDisagrees(timer, s1, events[1..]);
      assert s.uart + Said(events[0]) + SaidAll(events[1..]) == s.uart + (Said(events[0]) + SaidAll(events[1..]));
    }
  }

  lemma SaidNext(timer: Timer, s: State, e: Event)
    ensures After(timer, s, e).uart == s.uart + Said(e)
  {
  }

  // ---- when bytes reach the screen -------------------------------------------------------------------------------

  /** A deadline hands the terminal everything said so far, and is then off; the wire hears nothing. */
  lemma DeadlinePaints(timer: Timer, s: State)
    requires Agrees(s)
    ensures var t := After(timer, s, Deadline);
      && t.uart == s.uart && t.screen.painted == s.uart && t.screen.staged == [] && !t.screen.armed
      && t.screen.batching == s.screen.batching && t.screen.arms == s.screen.arms
  {
  }

  lemma {:induction false} RunOne(timer: Timer, s: State, events: seq<Event>, e: Event)
    ensures Run(timer, s, events + [e]) == After(timer, Run(timer, s, events), e)
    decreases |events|
  {
    if events == [] {
      assert events + [e] == [e] && [e][1..] == [];
    } else {
      assert (events + [e])[0] == events[0] && (events + [e])[1..] == events[1..] + [e];
      RunOne(timer, After(timer, s, events[0]), events[1..], e);
    }
  }

  /** So a run that ends with a deadline has put all that was ever said on the screen. */
  lemma DeadlineCatchesUp(timer: Timer, s: State, events: seq<Event>)
    requires Agrees(s)
    ensures var t := Run(timer, s, events + [Deadline]).screen;
      t.painted == s.uart + SaidAll(events) && t.staged == [] && !t.armed
  {
    RunOne(timer, s, events, Deadline);
    ScreenNeverDisagrees(timer, s, events);
    DeadlinePaints(timer, Run(timer, s, events));
  }

  /** These bytes do not fit behind what is staged. */
  predicate Overflows(s: Screen, bytes: seq<Byte>) {
    |s.staged| + |bytes| > PAGE
  }

  /** A deadline is on when the bytes are in, or the timer gives one. */
  predicate Timed(timer: Timer, s: Screen, bytes: seq<Byte>) {
    (s.armed && !Overflows(s, bytes)) || timer(s.arms)
  }

  predicate Waits(timer: Timer, s: Screen, bytes: seq<Byte>) {
    s.batching && Timed(timer, s, bytes) && |bytes| < PAGE && |s.staged| + |bytes| != PAGE
  }

  /**
   When a write waits and when it is on the screen at once. It waits exactly when batching is on, a deadline is on
   or is granted, and it leaves the page short of full. What was staged before it is painted at once if the two do
   not fit together. The timer is asked only when no deadline is on, and a refusal turns batching off.
   */
  lemma StagedWhen(timer: Timer, s: Screen, bytes: seq<Byte>)
    requires Waiting(s) && 0 < |bytes| <= PAGE
    ensures var t := Staged(timer, s, bytes);
      && (if Waits(timer, s, bytes)
          then t.armed && t.batching && t.staged == (if Overflows(s, bytes) then bytes else s.staged + bytes)
          else t.staged == [] && !t.armed && t.painted == s.painted + s.staged + bytes)
      && (t.arms == s.arms || t.arms == s.arms + 1) && (t.arms == s.arms + 1 ==> s.batching && (s.armed ==> Overflows(s, bytes)))
      && (t.batching <==> s.batching && (t.arms == s.arms + 1 ==> timer(s.arms)))
  {
  }

  /** Without batching nothing ever waits. */
  lemma {:induction false} UnbatchedNeverWaits(timer: Timer, s: Screen, bytes: seq<Byte>)
    requires Waiting(s) && !s.batching
    ensures var t := Emitted(timer, s, bytes); !t.batching && t.staged == [] && t.painted == s.painted + bytes
    decreases |bytes|
  {
    if |bytes| > PAGE {
      var s1 := Staged(timer, s, bytes[..PAGE]);
      StagedWhen(timer, s, bytes[..PAGE]);
      UnbatchedNeverWaits(timer, s1, bytes[PAGE..]);
      assert bytes[..PAGE] + bytes[PAGE..] == bytes;
    }
  }

  /**
   What a client's write says: its bytes up to a page, in order, in two parts cut after their last newline, with the
   kernel's lines only at the cut and at the end.
   */
  lemma WriteSaysItsBytes(bytes: seq<Byte>, first: seq<seq<Byte>>, second: seq<seq<Byte>>) returns (a: seq<Byte>, b: seq<Byte>)
    ensures Said(Write(bytes, first, second)) == a + Flat(first) + b + Flat(second)
    ensures a + b <= bytes && |a + b| == (if |bytes| < PAGE then |bytes| else PAGE)
    ensures NEWLINE !in b && (a == [] || a[|a| - 1] == NEWLINE)
  {
    var len := if |bytes| < PAGE then |bytes| else PAGE;
    var cut := Cut(bytes[..len]);
    a, b := bytes[..cut], bytes[cut..len];
    assert b == bytes[..len][cut..] && a == bytes[..len][..cut];
    assert a + b == bytes[..len];
  }

  // ---- the program ----------------------------------------------------------------------------------------------

  lemma EmittedNext(timer: Timer, s: Screen, bytes: seq<Byte>, at: nat, n: nat)
    requires at < |bytes| && n == if |bytes| - at < PAGE then |bytes| - at else PAGE
    ensures Emitted(timer, s, bytes[at..]) == Emitted(timer, Staged(timer, s, bytes[at..at + n]), bytes[at + n..])
  {
    assert bytes[at..][..n] == bytes[at..at + n] && bytes[at..][n..] == bytes[at + n..];
    if n == |bytes| - at { assert bytes[at..] == bytes[at..at + n] && bytes[at + n..] == []; }
  }

  /** Scan back for the last newline. */
  method FindCut(bytes: seq<Byte>) returns (cut: nat)
    ensures cut == Cut(bytes)
  {
    cut := |bytes|;
    assert bytes[..cut] == bytes;
    while cut > 0 && bytes[cut - 1] != NEWLINE
      invariant cut <= |bytes| && Cut(bytes) == Cut(bytes[..cut])
    {
      assert bytes[..cut][..cut - 1] == bytes[..cut - 1];
      cut := cut - 1;
    }
  }

  class Server {
    const timer: Timer
    const out: array<Byte>
    var pending: nat
    var armed: bool
    var batching: bool
    var arms: nat
    ghost var uart: seq<Byte>
    ghost var painted: seq<Byte>

    ghost predicate Valid()
      reads this
    {
      out.Length == PAGE && pending <= PAGE
    }

    ghost function View(): Screen
      requires Valid()
      reads this, out
    {
      Screen(painted, out[..pending], armed, batching, arms)
    }

    ghost function Abstract(): State
      requires Valid()
      reads this, out
    {
      State(uart, View())
    }

    constructor (timer: Timer, batching: bool)
      ensures Valid() && fresh(out) && this.timer == timer && Agrees(Abstract()) && uart == []
    {
      this.timer, this.batching := timer, batching;
      out := new Byte[PAGE](_ => 0);
      pending, armed, arms, uart, painted := 0, false, 0, [], [];
    }

    /** Hand the staged batch to the terminal, disarming the deadline. */
    method PaintScreen()
      requires Valid()
      modifies this`armed, this`pending, this`painted
      ensures Valid() && View() == Painted(old(View()))
    {
      armed := false;
      if pending == 0 {
        assert painted + [] == painted;
        return;
      }
      painted := painted + out[..pending];
      pending := 0;
    }

    /** Copy into the out page behind what is staged. */
    method CopyOut(bytes: seq<Byte>)
      requires Valid() && pending + |bytes| <= PAGE
      modifies this`pending, out
      ensures Valid() && out[..pending] == old(out[..pending]) + bytes
    {
      var i := 0;
      while i < |bytes|
        invariant i <= |bytes| && pending == old(pending) && out[..pending + i] == old(out[..pending]) + bytes[..i]
        modifies out
      {
        out[pending + i] := bytes[i];
        i := i + 1;
      }
      pending := pending + |bytes|;
    }

    method TakeScreen(bytes: seq<Byte>)
      requires Valid() && |bytes| <= PAGE
      modifies this`armed, this`pending, this`painted, this`batching, this`arms, out
      ensures Valid() && View() == Staged(timer, old(View()), bytes)
    {
      if pending + |bytes| > PAGE { PaintScreen(); }
      CopyOut(bytes);
      if !batching || pending >= PAGE {
        PaintScreen();
        return;
      }
      if !armed {
        var ok := timer(arms);
        arms := arms + 1;
        if ok {
          armed := true;
        } else {
          batching := false;
          PaintScreen();
        }
      }
    }

    method Put(bytes: seq<Byte>)
      modifies this`uart
      ensures uart == old(uart) + bytes
    {
      uart := uart + bytes;
    }

    /** The wire, then the screen a page at a time. */
    method Emit(bytes: seq<Byte>)
      requires Valid()
      modifies this, out
      ensures Valid() && Abstract() == State(old(uart) + bytes, Emitted(timer, old(View()), bytes))
    {
      Put(bytes);
      var at := 0;
      assert bytes[0..] == bytes;
      while at < |bytes|
        invariant at <= |bytes| && Valid() && uart == old(uart) + bytes
        invariant Emitted(timer, View(), bytes[at..]) == Emitted(timer, old(View()), bytes)
        modifies this`armed, this`pending, this`painted, this`batching, this`arms, out
      {
        var n := if |bytes| - at < PAGE then |bytes| - at else PAGE;
        EmittedNext(timer, View(), bytes, at, n);
        TakeScreen(bytes[at..at + n]);
        at := at + n;
      }
    }

    method EmitAll(chunks: seq<seq<Byte>>)
      requires Valid()
      modifies this, out
      ensures Valid() && Abstract() == State(old(uart) + Flat(chunks), EmittedAll(timer, old(View()), chunks))
    {
      var i := 0;
      assert chunks[0..] == chunks;
      while i < |chunks|
        invariant i <= |chunks| && Valid() && uart + Flat(chunks[i..]) == old(uart) + Flat(chunks)
        invariant EmittedAll(timer, View(), chunks[i..]) == EmittedAll(timer, old(View()), chunks)
      {
        assert chunks[i..][0] == chunks[i] && chunks[i..][1..] == chunks[i + 1..];
        ghost var said := uart;
        Emit(chunks[i]);
        assert said + (chunks[i] + Flat(chunks[i + 1..])) == (said + chunks[i]) + Flat(chunks[i + 1..]);
        i := i + 1;
      }
    }

    method WritePart(part: seq<Byte>, after: seq<seq<Byte>>)
      requires Valid()
      modifies this, out
      ensures Valid() && Abstract() == Wrote(timer, old(Abstract()), part, after)
    {
      Emit(part);
      EmitAll(after);
    }

    /** One turn of the loop, and the count acknowledged to a writing client. */
    method Turn(e: Event) returns (ack: nat)
      requires Valid()
      modifies this, out
      ensures Valid() && Abstract() == After(timer, old(Abstract()), e)
      ensures e.Deadline? ==> pending == 0 && !armed && painted == old(painted + out[..pending])
      ensures e.Write? ==> ack == (if |e.bytes| < PAGE then |e.bytes| else PAGE)
    {
      ack := 0;
      match e {
        case Deadline => PaintScreen();
        case Lines(chunks) => EmitAll(chunks);
        case Write(bytes, first, second) =>
          ack := if |bytes| < PAGE then |bytes| else PAGE;
          var cut := FindCut(bytes[..ack]);
          WritePart(bytes[..cut], first);
          WritePart(bytes[cut..ack], second);
      }
    }
  }
}
