/** The scancode queue between the keyboard interrupt handler and the
    keyboard task: a once-initialised global cell holding a bounded byte
    queue. The interrupt side appends (or drops) bytes; the stream side pops
    them one at a time, answering `Pending` when there is none. */
module Keyboard {
  import opened Wrappers
  import opened Bytes

  /** Capacity of the scancode queue. */
  const SCANCODE_QUEUE_CAPACITY: nat := 100

  /** The global cell: None before `ScancodeStream::new`, then the queued bytes. */
  type Cell = Option<seq<u8>>

  /** What `add_scancode` did with the byte; each drop comes with a printed warning. */
  datatype AddOutcome = Queued | DroppedFull | DroppedUninitialized

  /** What `ScancodeStream::new` did: created the stream, or panicked on a second call. */
  datatype NewOutcome = Created | PanicAlreadyInitialized

  /** `Poll<Option<u8>>` as `poll_next` returns it, or its panic on an
      uninitialised cell. */
  datatype PollNextResult = Ready(item: Option<u8>) | Pending | PanicNotInitialized

  /** `add_scancode`: append the byte when the queue exists and has room;
      otherwise drop it and leave the cell as it was. */
  function AddStep(c: Cell, b: u8): (r: (Cell, AddOutcome))
    ensures r.1 == Queued <==> c.Some? && |c.value| < SCANCODE_QUEUE_CAPACITY
    ensures r.1 == Queued ==> r.0 == Some(c.value + [b])
    ensures r.1 != Queued ==> r.0 == c
    ensures r.1 == DroppedUninitialized <==> c.None?
  {
    match c
    case None => (c, DroppedUninitialized)
    case Some(q) =>
      if |q| < SCANCODE_QUEUE_CAPACITY then (Some(q + [b]), Queued) else (c, DroppedFull)
  }

  /** `ScancodeStream::new`: initialise the cell with an empty queue, once. */
  function NewStep(c: Cell): (r: (Cell, NewOutcome))
    ensures r.1 == Created <==> c.None?
    ensures r.1 == Created ==> r.0 == Some([])
    ensures r.1 != Created ==> r.0 == c
  {
    if c.None? then (Some([]), Created) else (c, PanicAlreadyInitialized)
  }

  /** `poll_next`: pop the front byte, or answer `Pending` on an empty queue;
      it never answers `Ready(None)`, so the stream never ends. */
  function PollStep(c: Cell): (r: (Cell, PollNextResult))
    ensures r.1 == PanicNotInitialized <==> c.None?
    ensures c.Some? && c.value != [] ==> r == (Some(c.value[1..]), Ready(Some(c.value[0])))
    ensures c.Some? && c.value == [] ==> r == (c, Pending)
    ensures r.1 != Ready(None)
  {
    match c
    case None => (c, PanicNotInitialized)
    case Some(q) => if q == [] then (c, Pending) else (Some(q[1..]), Ready(Some(q[0])))
  }

  /** The global `SCANCODE_QUEUE`. */
  class ScancodeQueue {
    var queue: Cell

    ghost predicate Valid()
      reads this
    {
      queue.Some? ==> |queue.value| <= SCANCODE_QUEUE_CAPACITY
    }

    /** `OnceCell::uninit()`. */
    constructor ()
      ensures Valid() && queue == None
    {
      queue := None;
    }

    /** `add_scancode`, called from the keyboard interrupt handler. */
    method AddScancode(scancode: u8) returns (outcome: AddOutcome)
      requires Valid()
      modifies this
      ensures Valid()
      ensures (queue, outcome) == AddStep(old(queue), scancode)
    {
      match queue
      case None =>
        outcome := DroppedUninitialized;
      case Some(q) =>
        if |q| < SCANCODE_QUEUE_CAPACITY {
          queue := Some(q + [scancode]);
          outcome := Queued;
        } else {
          outcome := DroppedFull;
        }
    }

    /** `ScancodeStream::new`. */
    method NewStream() returns (outcome: NewOutcome)
      requires Valid()
      modifies this
      ensures Valid()
      ensures (queue, outcome) == NewStep(old(queue))
    {
      if queue.Some? {
        return PanicAlreadyInitialized;
      }
      queue := Some([]);
      outcome := Created;
    }

    /** `ScancodeStream::poll_next`. */
    method PollNext() returns (r: PollNextResult)
      requires Valid()
      modifies this
      ensures Valid()
      ensures (queue, r) == PollStep(old(queue))
    {
      if queue.None? {
        return PanicNotInitialized;
      }
      var q := queue.value;
      if q == [] {
        r := Pending;
      } else {
        r := Ready(Some(q[0]));
        queue := Some(q[1..]);
      }
    }
  }

  // ---------------------------------------------------------------------------
  // Delivery order over a run of interrupts and polls

  datatype Event = Interrupt(scancode: u8) | Poll

  /** The bytes the interrupts of a run carry, in order. */
  function Scancodes(evs: seq<Event>): seq<u8>
  {
    if evs == [] then []
    else (if evs[0].Interrupt? then [evs[0].scancode] else []) + Scancodes(evs[1..])
  }

  /** What a run does to an initialised queue: the bytes left queued, the
      bytes accepted, the bytes dropped, and the bytes the stream delivered. */
  datatype Run = Run(final: seq<u8>, accepted: seq<u8>, dropped: seq<u8>, delivered: seq<u8>)

  function Replay(q: seq<u8>, evs: seq<Event>): Run
    decreases |evs|
  {
    if evs == [] then Run(q, [], [], [])
    else match evs[0]
      case Interrupt(b) =>
        var (c, outcome) := AddStep(Some(q), b);
        var rest := Replay(c.value, evs[1..]);
        if outcome == Queued then rest.(accepted := [b] + rest.accepted)
        else rest.(dropped := [b] + rest.dropped)
      case Poll =>
        var (c, r) := PollStep(Some(q));
        var rest := Replay(c.value, evs[1..]);
        if r.Ready? then rest.(delivered := [r.item.value] + rest.delivered) else rest
  }

  predicate IsSubsequence<T(==)>(a: seq<T>, b: seq<T>)
    decreases |b|
  {
    a == [] || (b != [] && ((a[0] == b[0] && IsSubsequence(a[1..], b[1..])) || IsSubsequence(a, b[1..])))
  }

  /** FIFO delivery: the stream hands out the queued bytes followed by the
      accepted ones, in order, none twice and none skipped; whatever is not yet
      delivered is still queued, within capacity. */
  lemma {:induction false} DeliveredInOrder(q: seq<u8>, evs: seq<Event>)
    requires |q| <= SCANCODE_QUEUE_CAPACITY
    ensures Replay(q, evs).delivered + Replay(q, evs).final == q + Replay(q, evs).accepted
    ensures |Replay(q, evs).final| <= SCANCODE_QUEUE_CAPACITY
    decreases |evs|
  {
    if evs != [] {
      match evs[0]
      case Interrupt(b) =>
        var (c, outcome) := AddStep(Some(q), b);
        DeliveredInOrder(c.value, evs[1..]);
      case Poll =>
        var (c, r) := PollStep(Some(q));
        DeliveredInOrder(c.value, evs[1..]);
        var rest := Replay(c.value, evs[1..]);
        if r.Ready? {
          calc {
            Replay(q, evs).delivered + Replay(q, evs).final;
            ([q[0]] + rest.delivered) + rest.final;
            [q[0]] + (rest.delivered + rest.final);
            [q[0]] + (q[1..] + rest.accepted);
            ([q[0]] + q[1..]) + rest.accepted;
            { assert [q[0]] + q[1..] == q; }
            q + rest.accepted;
          }
        }
    }
  }

  /** Only overflow loses bytes: every byte an interrupt brings is either
      accepted or dropped, the accepted ones keep their order, and a run
      without drops accepts all of them. */
  lemma {:induction false} OnlyOverflowLoses(q: seq<u8>, evs: seq<Event>)
    ensures |Replay(q, evs).accepted| + |Replay(q, evs).dropped| == |Scancodes(evs)|
    ensures IsSubsequence(Replay(q, evs).accepted, Scancodes(evs))
    ensures Replay(q, evs).dropped == [] ==> Replay(q, evs).accepted == Scancodes(evs)
    decreases |evs|
  {
    if evs != [] {
      match evs[0]
      case Interrupt(b) =>
        var (c, outcome) := AddStep(Some(q), b);
        var rest := Replay(c.value, evs[1..]);
        OnlyOverflowLoses(c.value, evs[1..]);
        var all := Scancodes(evs);
        assert all == [b] + Scancodes(evs[1..]);
        if outcome == Queued {
          assert ([b] + rest.accepted)[1..] == rest.accepted;
        } else {
          assert all[1..] == Scancodes(evs[1..]);
        }
      case Poll =>
        var (c, r) := PollStep(Some(q));
        OnlyOverflowLoses(c.value, evs[1..]);
        assert Scancodes(evs) == Scancodes(evs[1..]);
    }
  }

  /** Once the stream exists, polling never panics again: no operation
      empties the cell. */
  lemma StaysInitialized(c: Cell, b: u8)
    requires c.Some?
    ensures AddStep(c, b).0.Some? && PollStep(c).0.Some? && NewStep(c).0.Some?
    ensures PollStep(c).1 != PanicNotInitialized
  {
  }
}
