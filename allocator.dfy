/** The heap window, the `align_up` helper and the `Dummy` allocator of the
    kernel's allocator module. Machine words are x86_64 `usize` values: naturals
    no larger than USIZE_MAX. */
module Allocator {

  /** The largest `usize` on x86_64. */
  const USIZE_MAX: nat := 0xFFFF_FFFF_FFFF_FFFF

  /** Start of the virtual heap window. */
  const HEAP_START: nat := 0x4444_4444_0000

  /** Size of the heap window: 100 KiB. */
  const HEAP_SIZE: nat := 100 * 1024

  /** The heap window is the half-open range [HEAP_START, HEAP_START + HEAP_SIZE). */
  predicate InHeap(addr: nat)
  {
    HEAP_START <= addr < HEAP_START + HEAP_SIZE
  }

  lemma HeapWindow()
    ensures HEAP_START + HEAP_SIZE == 0x4444_4445_9000
    ensures HEAP_START + HEAP_SIZE <= USIZE_MAX
    ensures InHeap(HEAP_START) && !InHeap(HEAP_START + 100 * 1024)
    ensures forall a: nat :: InHeap(a) <==> HEAP_START <= a <= HEAP_START + 102399
  {
  }

  // ---------------------------------------------------------------------------
  // Bits of a machine word

  function Pow2(k: nat): (r: nat)
    ensures r >= 1
  {
    if k == 0 then 1 else 2 * Pow2(k - 1)
  }

  lemma {:induction false} Pow2Add(a: nat, b: nat)
    ensures Pow2(a + b) == Pow2(a) * Pow2(b)
  {
    if a > 0 {
      Pow2Add(a - 1, b);
    }
  }

  /** A word has 64 bits: USIZE_MAX is 2^64 - 1. */
  lemma UsizeBits()
    ensures Pow2(64) == USIZE_MAX + 1
  {
    assert Pow2(2) == 4;
    Pow2Add(2, 2);
    assert Pow2(4) == 16;
    Pow2Add(4, 4);
    assert Pow2(8) == 0x100;
    Pow2Add(8, 8);
    assert Pow2(16) == 0x1_0000;
    Pow2Add(16, 16);
    assert Pow2(32) == 0x1_0000_0000;
    Pow2Add(32, 32);
  }

  /** `Layout` only admits alignments that are powers of two. */
  predicate IsPowerOfTwo(n: nat)
    decreases n
  {
    n == 1 || (n >= 2 && n % 2 == 0 && IsPowerOfTwo(n / 2))
  }

  ghost function Log2(n: nat): (k: nat)
    requires IsPowerOfTwo(n)
    ensures Pow2(k) == n
    decreases n
  {
    if n == 1 then 0 else 1 + Log2(n / 2)
  }

  lemma {:induction false} Pow2IsPowerOfTwo(k: nat)
    ensures IsPowerOfTwo(Pow2(k))
  {
    if k > 0 {
      Pow2IsPowerOfTwo(k - 1);
      assert Pow2(k) / 2 == Pow2(k - 1);
    }
  }

  /** Bitwise AND (`&`) of two words, one bit at a time from the least
      significant end. */
  function And(a: nat, b: nat): nat
    decreases a
  {
    if a == 0 || b == 0 then 0
    else 2 * And(a / 2, b / 2) + (if a % 2 == 1 && b % 2 == 1 then 1 else 0)
  }

  /** Bitwise NOT (`!`) of a 64-bit word. */
  function Not(x: nat): nat
    requires x <= USIZE_MAX
  {
    USIZE_MAX - x
  }

  /** ANDing with n one-bits keeps a value of at most n bits. */
  lemma {:induction false} AndLowOnes(x: nat, n: nat)
    requires x < Pow2(n)
    ensures And(x, Pow2(n) - 1) == x
  {
    if x != 0 {
      assert n > 0;
      AndLowOnes(x / 2, n - 1);
    }
  }

  lemma {:induction false} MulAtLeast(t: int, d: int)
    requires t >= 1 && d > 0
    ensures t * d >= d
  {
    if t > 1 {
      MulAtLeast(t - 1, d);
      assert t * d == (t - 1) * d + d;
    }
  }

  /** Quotient and remainder are the only pair that rebuilds x. */
  lemma DivModUnique(x: int, d: int, q: int, r: int)
    requires d > 0 && 0 <= r < d && x == q * d + r
    ensures x / d == q && x % d == r
  {
    var q0, r0 := x / d, x % d;
    assert x == q0 * d + r0;
    assert (q - q0) * d == r0 - r;
    if q > q0 {
      MulAtLeast(q - q0, d);
      assert false;
    }
    if q < q0 {
      MulAtLeast(q0 - q, d);
      assert false;
    }
  }

  lemma ModDouble(x: nat, p: nat)
    requires p > 0
    ensures x % (2 * p) == x % 2 + 2 * ((x / 2) % p)
  {
    var q, r := x / 2, x % 2;
    var a, b := q / p, q % p;
    assert q == a * p + b;
    assert x == a * (2 * p) + (2 * b + r);
    DivModUnique(x, 2 * p, a, 2 * b + r);
  }

  lemma {:induction false} Pow2Monotone(a: nat, b: nat)
    requires a <= b
    ensures Pow2(a) <= Pow2(b)
    ensures a < b ==> 2 * Pow2(a) <= Pow2(b)
  {
    if a < b {
      Pow2Monotone(a, b - 1);
    }
  }

  /** One step of AND with an even mask: the lowest bit of the result is 0. */
  lemma AndEvenMask(x: nat, half: nat)
    requires x > 0 && half > 0
    ensures And(x, 2 * half) == 2 * And(x / 2, half)
  {
  }

  /** Rounding x down to a multiple of 2p is rounding x/2 down to a multiple of p, doubled. */
  lemma RoundDownDouble(x: nat, p: nat)
    requires p > 0
    ensures x - x % (2 * p) == 2 * (x / 2 - (x / 2) % p)
  {
    ModDouble(x, p);
    assert x == 2 * (x / 2) + x % 2;
  }

  /** The inductive step of AndHighMask: the mask with bits k..n-1 set is
      twice the mask with bits k-1..n-2 set, applied to x / 2. */
  lemma {:induction false} AndHighMaskStep(x: nat, n: nat, k: nat)
    requires 0 < k < n && 0 < x < Pow2(n)
    ensures Pow2(k) <= Pow2(n)
    ensures And(x, Pow2(n) - Pow2(k)) == x - x % Pow2(k)
    decreases n, 0
  {
    var low := Pow2(k - 1);
    var half := Pow2(n - 1) - low;
    AndHighMask(x / 2, n - 1, k - 1);
    assert Pow2(n) - Pow2(k) == 2 * half && half > 0 by {
      Pow2Monotone(k - 1, n - 1);
    }
    AndEvenMask(x, half);
    RoundDownDouble(x, low);
  }

  /** The mask with every bit from k up cleared is 0. */
  lemma AndHighMaskEmpty(x: nat, k: nat)
    requires x < Pow2(k)
    ensures And(x, Pow2(k) - Pow2(k)) == x - x % Pow2(k)
  {
    DivModUnique(x, Pow2(k), 0, x);
  }

  /** ANDing with the mask that has bits k..n-1 set clears the k low bits:
      it rounds down to a multiple of 2^k. */
  lemma {:induction false} AndHighMask(x: nat, n: nat, k: nat)
    requires k <= n && x < Pow2(n)
    ensures Pow2(k) <= Pow2(n)
    ensures And(x, Pow2(n) - Pow2(k)) == x - x % Pow2(k)
    decreases n, 1
  {
    Pow2Monotone(k, n);
    if k == 0 {
      AndLowOnes(x, n);
    } else if k == n {
      AndHighMaskEmpty(x, k);
    } else if x != 0 {
      AndHighMaskStep(x, n, k);
    } else {
      DivModUnique(0, Pow2(k), 0, 0);
    }
  }

  /** `x & !(align - 1)` rounds x down to a multiple of a power-of-two align. */
  lemma MaskRoundsDown(x: nat, align: nat)
    requires IsPowerOfTwo(align) && x <= USIZE_MAX && align - 1 <= USIZE_MAX
    ensures And(x, Not(align - 1)) == x - x % align
  {
    var k := Log2(align);
    UsizeBits();
    assert k <= 64 by {
      if k > 64 {
        Pow2Monotone(64, k);
      }
    }
    assert Not(align - 1) == Pow2(64) - Pow2(k);
    AndHighMask(x, 64, k);
  }

  lemma MultipleMod(q: nat, d: nat)
    requires d > 0
    ensures (q * d) % d == 0
  {
    DivModUnique(q * d, d, q, 0);
  }

  /** Rounding down to a multiple of d yields a multiple of d. */
  lemma RoundDownIsMultiple(x: nat, d: nat)
    requires d > 0
    ensures (x - x % d) % d == 0
  {
    var q := x / d;
    assert x - x % d == q * d;
    MultipleMod(q, d);
  }

  /** `align_up(addr, align)`: `(addr + align - 1) & !(align - 1)`. The sum is
      evaluated left to right, so the intermediate `addr + align` must fit in a
      usize; the caller (`alloc`) panics before calling when it does not. */
  function AlignUp(addr: nat, align: nat): (r: nat)
    requires IsPowerOfTwo(align)
    requires addr + align <= USIZE_MAX
    ensures r % align == 0
    ensures addr <= r < addr + align
  {
    var x := addr + align - 1;
    MaskRoundsDown(x, align);
    RoundDownIsMultiple(x, align);
    And(x, Not(align - 1))
  }

  /** Two multiples of d less than d apart are equal. */
  lemma SameMultiple(a: nat, b: nat, d: nat)
    requires d > 0 && a % d == 0 && b % d == 0 && a <= b < a + d
    ensures a == b
  {
    var q := a / d;
    assert a == q * d;
    DivModUnique(b, d, q, b - a);
  }

  /** An address that is already aligned is returned unchanged. */
  lemma AlignUpAligned(addr: nat, align: nat)
    requires IsPowerOfTwo(align) && addr + align <= USIZE_MAX
    requires addr % align == 0
    ensures AlignUp(addr, align) == addr
  {
    var r := AlignUp(addr, align);
    SameMultiple(addr, r, align);
  }

  /** Aligning twice is aligning once. */
  lemma AlignUpIdempotent(addr: nat, align: nat)
    requires IsPowerOfTwo(align) && addr + align <= USIZE_MAX
    requires AlignUp(addr, align) + align <= USIZE_MAX
    ensures AlignUp(AlignUp(addr, align), align) == AlignUp(addr, align)
  {
    AlignUpAligned(AlignUp(addr, align), align);
  }

  // ---------------------------------------------------------------------------
  // The `Dummy` allocator

  datatype DeallocOutcome = Returned | DeallocPanicked

  /** `Dummy::alloc` never hands out memory: every request yields the null
      pointer, whatever the layout. */
  function DummyAlloc(size: nat, align: nat): (p: nat)
    ensures p == 0
  {
    0
  }

  /** `Dummy::dealloc` must never be reached: every call panics. */
  function DummyDealloc(ptr: nat, size: nat, align: nat): (r: DeallocOutcome)
    ensures r == DeallocPanicked
  {
    DeallocPanicked
  }
}
