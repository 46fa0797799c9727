/** The bump allocator: a heap window [heapStart, heapEnd) and a `next`
    pointer that only moves forward while allocations are live, plus a count of
    live allocations that resets `next` when it drops back to zero. */
module Bump {
  import opened Wrappers
  import opened Allocator

  /** What `alloc` hands back: the null pointer, the start of a fresh block,
      or a panic from the overflow check on `next + align`, the first addition
      of `next + align - 1` inside `align_up`. */
  datatype AllocResult = Null | Granted(start: nat) | Panicked

  /** The four fields of the allocator. */
  datatype BumpState = BumpState(heapStart: nat, heapEnd: nat, next: nat, allocations: nat)

  /** What holds of the fields after `new` and after `init`, and what `alloc`
      and `dealloc` keep: `next` stays inside the window, every live
      allocation used at least one byte (so the counter cannot overflow), and
      with no live allocation `next` is back at the start. */
  predicate Inv(s: BumpState)
  {
    && s.heapStart <= s.next <= s.heapEnd <= USIZE_MAX
    && s.allocations <= s.next - s.heapStart
    && (s.allocations == 0 ==> s.next == s.heapStart)
  }

  /** A `Layout` as `GlobalAlloc::alloc` may receive it: a non-zero size and a
      power-of-two alignment, both machine words. */
  predicate ValidLayout(size: nat, align: nat)
  {
    0 < size <= USIZE_MAX && IsPowerOfTwo(align) && align <= USIZE_MAX
  }

  /** `alloc`: align `next` up, add the size with an overflow check, and hand
      out the block when it ends inside the heap. */
  function AllocStep(s: BumpState, size: nat, align: nat): (r: (BumpState, AllocResult))
    requires ValidLayout(size, align)
    ensures r.1.Granted? <==>
              && s.next + align <= USIZE_MAX
              && AlignUp(s.next, align) + size <= s.heapEnd
              && AlignUp(s.next, align) + size <= USIZE_MAX
    ensures r.1.Panicked? <==> s.next + align > USIZE_MAX
    ensures r.1.Granted? ==>
              && r.1.start == AlignUp(s.next, align)
              && r.1.start % align == 0
              && s.next <= r.1.start
              && r.1.start + size <= s.heapEnd
              && r.0 == s.(next := r.1.start + size, allocations := s.allocations + 1)
    ensures !r.1.Granted? ==> r.0 == s
    ensures r.0.next >= s.next
    ensures Inv(s) ==> Inv(r.0) && r.0.allocations <= USIZE_MAX
  {
    if s.next + align > USIZE_MAX then (s, Panicked)
    else
      var start := AlignUp(s.next, align);
      if start + size > USIZE_MAX then (s, Null)
      else if start + size > s.heapEnd then (s, Null)
      else (s.(next := start + size, allocations := s.allocations + 1), Granted(start))
  }

  /** `dealloc`: forget the block, and reset `next` when it was the last live
      one. Decrementing a zero count underflows, which panics. */
  function DeallocStep(s: BumpState): (r: (BumpState, DeallocOutcome))
    ensures r.1 == DeallocPanicked <==> s.allocations == 0
    ensures r.1 == DeallocPanicked ==> r.0 == s
    ensures r.1 == Returned ==>
              && r.0.allocations == s.allocations - 1
              && r.0.heapStart == s.heapStart && r.0.heapEnd == s.heapEnd
              && (r.0.allocations > 0 ==> r.0.next == s.next)
              && (r.0.allocations == 0 ==> r.0.next == s.heapStart)
    ensures Inv(s) ==> Inv(r.0)
  {
    if s.allocations == 0 then (s, DeallocPanicked)
    else
      var live := s.allocations - 1;
      if live == 0 then (s.(allocations := 0, next := s.heapStart), Returned)
      else (s.(allocations := live), Returned)
  }

  /** The allocator as the kernel holds it (the spin lock of `Locked` is left out). */
  class BumpAllocator {
    var heapStart: nat
    var heapEnd: nat
    var next: nat
    var allocations: nat

    function State(): BumpState
      reads this
    {
      BumpState(heapStart, heapEnd, next, allocations)
    }

    ghost predicate Valid()
      reads this
    {
      Inv(State())
    }

    /** `BumpAllocator::new`: every field is zero. */
    constructor ()
      ensures State() == BumpState(0, 0, 0, 0)
      ensures Valid()
    {
      heapStart, heapEnd, next, allocations := 0, 0, 0, 0;
    }

    /** `init`: install the heap window. The count of live allocations is left
        as it was; on an allocator with none the invariant holds afterwards. */
    method Init(start: nat, size: nat)
      requires start + size <= USIZE_MAX
      modifies this
      ensures State() == BumpState(start, start + size, start, old(allocations))
      ensures old(allocations) == 0 ==> Valid()
    {
      heapStart := start;
      heapEnd := start + size;
      next := start;
    }

    /** `GlobalAlloc::alloc`. */
    method Alloc(size: nat, align: nat) returns (r: AllocResult)
      requires Valid() && ValidLayout(size, align)
      modifies this
      ensures (State(), r) == AllocStep(old(State()), size, align)
      ensures Valid()
    {
      if next + align > USIZE_MAX {
        return Panicked;
      }
      var allocStart := AlignUp(next, align);
      if allocStart + size > USIZE_MAX {
        return Null;
      }
      var allocEnd := allocStart + size;
      if allocEnd > heapEnd {
        r := Null;
      } else {
        next := allocEnd;
        allocations := allocations + 1;
        r := Granted(allocStart);
      }
    }

    /** `GlobalAlloc::dealloc`: the pointer and layout are ignored. */
    method Dealloc(ptr: nat, size: nat, align: nat) returns (outcome: DeallocOutcome)
      requires Valid()
      modifies this
      ensures (State(), outcome) == DeallocStep(old(State()))
      ensures Valid()
    {
      if allocations == 0 {
        return DeallocPanicked;
      }
      allocations := allocations - 1;
      if allocations == 0 {
        next := heapStart;
      }
      outcome := Returned;
    }
  }

  /** The global allocator after `init_heap`: the 100 KiB window, nothing live. */
  lemma KernelHeap()
    ensures Inv(BumpState(HEAP_START, HEAP_START + HEAP_SIZE, HEAP_START, 0))
  {
  }

  /** Allocating a block and freeing it again, from a state with no live
      allocation, gives back exactly that state. */
  lemma AllocDeallocRoundTrip(s: BumpState, size: nat, align: nat)
    requires Inv(s) && s.allocations == 0 && ValidLayout(size, align)
    requires AllocStep(s, size, align).1.Granted?
    ensures DeallocStep(AllocStep(s, size, align).0) == (s, Returned)
  {
  }

  /** Where the overflow panic sets in: at the last 8-aligned word an 8-aligned
      request panics although the aligned address itself would fit, and at
      the last word even a 1-aligned request panics. */
  lemma OverflowAtLastWord()
    ensures ValidLayout(4, 8) && ValidLayout(1, 1)
    ensures AllocStep(BumpState(0, USIZE_MAX, 0xFFFF_FFFF_FFFF_FFF8, 1), 4, 8).1 == Panicked
    ensures AllocStep(BumpState(0, USIZE_MAX, USIZE_MAX, 1), 1, 1).1 == Panicked
    ensures AllocStep(BumpState(0, USIZE_MAX, 0xFFFF_FFFF_FFFF_FFF0, 1), 4, 8).1 == Granted(0xFFFF_FFFF_FFFF_FFF0)
  {
    assert IsPowerOfTwo(8) by {
      assert IsPowerOfTwo(1);
      assert IsPowerOfTwo(2);
      assert IsPowerOfTwo(4);
    }
    AlignUpAligned(0xFFFF_FFFF_FFFF_FFF0, 8);
  }

  /** `n` rounds of "allocate a box, then drop it", as the `many_boxes` test
      does; None when an allocation fails or panics. */
  function BoxRounds(s: BumpState, size: nat, align: nat, n: nat): Option<BumpState>
    requires ValidLayout(size, align)
    decreases n
  {
    if n == 0 then Some(s)
    else
      var (t, r) := AllocStep(s, size, align);
      if !r.Granted? then None
      else
        var (u, d) := DeallocStep(t);
        if d == DeallocPanicked then None else BoxRounds(u, size, align, n - 1)
  }

  /** Any number of allocate-then-free rounds succeeds once one does: the
      reset on the last free keeps the heap from running out. */
  lemma {:induction false} ManyBoxes(s: BumpState, size: nat, align: nat, n: nat)
    requires Inv(s) && s.allocations == 0 && ValidLayout(size, align)
    requires s.next + align <= USIZE_MAX && AlignUp(s.next, align) + size <= s.heapEnd
    ensures BoxRounds(s, size, align, n) == Some(s)
  {
    if n > 0 {
      AllocDeallocRoundTrip(s, size, align);
      ManyBoxes(s, size, align, n - 1);
    }
  }

  /** The `many_boxes` test: HEAP_SIZE rounds of an 8-byte, 8-aligned box on
      the kernel heap all succeed. */
  lemma ManyBoxesOnKernelHeap()
    ensures ValidLayout(8, 8)
    ensures var s := BumpState(HEAP_START, HEAP_START + HEAP_SIZE, HEAP_START, 0);
            BoxRounds(s, 8, 8, HEAP_SIZE) == Some(s)
  {
    assert IsPowerOfTwo(8) by {
      assert IsPowerOfTwo(1);
      assert IsPowerOfTwo(2);
      assert IsPowerOfTwo(4);
    }
    var s := BumpState(HEAP_START, HEAP_START + HEAP_SIZE, HEAP_START, 0);
    assert HEAP_START % 8 == 0;
    AlignUpAligned(HEAP_START, 8);
    ManyBoxes(s, 8, 8, HEAP_SIZE);
  }

  // ---------------------------------------------------------------------------
  // No region is handed out twice while allocations stay live

  datatype Op = Alloc(size: nat, align: nat) | Dealloc

  /** A block handed out: [start, end). */
  datatype Block = Block(start: nat, end: nat)

  /** A sequence of calls that never panics and never frees the last live
      allocation, so `next` is never reset along the way. */
  predicate WithoutReset(s: BumpState, ops: seq<Op>)
    decreases |ops|
  {
    ops == [] ||
    match ops[0]
    case Alloc(size, align) =>
      && ValidLayout(size, align)
      && !AllocStep(s, size, align).1.Panicked?
      && WithoutReset(AllocStep(s, size, align).0, ops[1..])
    case Dealloc =>
      s.allocations > 1 && WithoutReset(DeallocStep(s).0, ops[1..])
  }

  /** The state after the calls and the blocks they handed out, in order. */
  function Replay(s: BumpState, ops: seq<Op>): (BumpState, seq<Block>)
    requires WithoutReset(s, ops)
    decreases |ops|
  {
    if ops == [] then (s, [])
    else match ops[0]
      case Alloc(size, align) =>
        var (t, r) := AllocStep(s, size, align);
        var (u, bs) := Replay(t, ops[1..]);
        if r.Granted? then (u, [Block(r.start, r.start + size)] + bs) else (u, bs)
      case Dealloc =>
        Replay(DeallocStep(s).0, ops[1..])
  }

  /** While no free brings the count back to zero, `next` never moves back and
      the blocks handed out lie one after the other above the old `next`:
      none overlaps another. */
  lemma {:induction false} BlocksDisjoint(s: BumpState, ops: seq<Op>)
    requires Inv(s) && WithoutReset(s, ops)
    ensures var (t, bs) := Replay(s, ops);
            && s.next <= t.next
            && (forall i :: 0 <= i < |bs| ==> s.next <= bs[i].start <= bs[i].end <= t.next)
            && (forall i, j :: 0 <= i < j < |bs| ==> bs[i].end <= bs[j].start)
    decreases |ops|
  {
    if ops != [] {
      match ops[0]
      case Alloc(size, align) =>
        var (t, r) := AllocStep(s, size, align);
        BlocksDisjoint(t, ops[1..]);
      case Dealloc =>
        BlocksDisjoint(DeallocStep(s).0, ops[1..]);
    }
  }
}
