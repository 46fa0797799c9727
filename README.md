# blog_os kernel core in Dafny

This project models the sequential logic of a small x86_64 hobby kernel written in Rust. It covers six components:

- **Bump allocator** (`bump.dfy`, with `align_up` and the heap constants in `allocator.dfy`). It has four machine-word fields and hands out aligned blocks by moving `next` forward. A count of live allocations resets `next` when it drops back to zero.
- **VGA text writer** (`vga_buffer.dfy`). It writes into a 25 × 80 grid of (byte, colour) cells along the bottom row. It scrolls on a newline or a full row, blanks the new bottom row, and replaces unprintable bytes with `■` (0xfe).
- **Waker-based executor** (`executor.dfy`, with the bounded queue in `queues.dfy`). It keeps a task map, a ready queue of task ids with capacity 100, and a cache of one waker per task.
- **Simple executor** (`simple_executor.dfy`). It polls a FIFO of tasks round robin.
- **Scancode queue** (`keyboard.dfy`). It is a once-initialised global bounded byte queue between the keyboard interrupt handler and the keyboard task.
- **Task** (`task.dfy`). A task is an id plus an abstract future. The future is reduced to the number of `Pending` answers it gives before it answers `Ready`.

Each component that updates state in place is a `class` whose methods are proved against a pure step function on a value snapshot (`AllocStep`, `RunOne`/`Drain`, `Step`/`Trace`, `AddStep`/`PollStep`, `WriteByteSpec`/`NewLineSpec`/`WriteStringSpec`). The properties the kernel relies on are lemmas about those functions.

Machine words are naturals no larger than `USIZE_MAX` = 2^64 − 1. The model assumes the kernel is built in Rust's debug profile, where arithmetic overflow panics; in a release build the same additions and subtractions would wrap instead. Under that assumption the model turns every `panic!`, failed `expect` and overflowing `+`/`-` into a returned outcome:
- `Panicked` and `DeallocPanicked` in the allocator;
- `Panic(DuplicateTaskId)` and `Panic(TaskQueueFull)` in the executor;
- `PanicAlreadyInitialized` and `PanicNotInitialized` for the scancode queue.

`align_up` computes `(addr + align - 1) & !(align - 1)`, with AND and NOT on 64-bit words. The sum is evaluated as `(addr + align) - 1`, so the overflow panic sets in as soon as `addr + align` exceeds `USIZE_MAX`; the model panics at exactly that point and computes the mask only on words that fit. The mask is proved equal to rounding down to a multiple of `align`.

Two points of the code that the model follows as written:
- `poll_next` registers no waker and re-checks nothing before it answers `Pending`, and `add_scancode` wakes nobody. The model has only the pop and the push.
- `Task` in `src/task/mod.rs` has no `id` field and `TaskId` is not defined there, although `src/task/executor.rs` uses both. The model gives a task an `id: nat`.

## Model

| member | source | states |
|---|---|---|
| Allocator.HeapWindow | src/allocator.rs:62-64 | The heap window starts at 0x4444_4444_0000, spans 100 KiB and fits in a 64-bit address space. |
| Allocator.AlignUp | src/allocator.rs:93-95 | For a power-of-two `align` with `addr + align` within a usize (the first addition of the source's expression), the result is a multiple of `align` and lies in `[addr, addr + align)`. |
| Allocator.MaskRoundsDown | src/allocator.rs:94 | `x & !(align - 1)` on a 64-bit word equals `x` rounded down to a multiple of `align`. |
| Allocator.AndHighMask | src/allocator.rs:94 | ANDing with a mask whose bits k..n-1 are set clears the low k bits, i.e. rounds down to a multiple of 2^k. |
| Allocator.AlignUpAligned | src/allocator.rs:93-95 | An address that is already a multiple of `align` is returned unchanged. |
| Allocator.AlignUpIdempotent | src/allocator.rs:93-95 | Aligning an aligned-up address again changes nothing. |
| Allocator.DummyAlloc | src/allocator.rs:66-69 | `Dummy::alloc` returns the null pointer for every layout. |
| Allocator.DummyDealloc | src/allocator.rs:71-73 | `Dummy::dealloc` panics on every call. |
| Bump.AllocStep | src/allocator/bump.rs:41-57 | Allocation panics exactly when `next + align`, the first addition inside `align_up`, overflows. It succeeds exactly when the aligned block ends within both the heap and a usize. A granted block starts at `align_up(next, align)` (aligned, not below `next`, ending by `heap_end`), moves `next` to its end and counts one more allocation. A refusal or panic leaves every field unchanged. `next` never decreases, and the allocator invariant is preserved. |
| Bump.DeallocStep | src/allocator/bump.rs:59-66 | Freeing with no live allocation underflows, which panics and changes nothing. Otherwise the count drops by one, the window is kept, and `next` is unchanged unless the count reaches zero, in which case `next` goes back to `heap_start`. The invariant is preserved. |
| Bump.BumpAllocator.constructor | src/allocator/bump.rs:19-26 | All four fields are zero, and the invariant holds. |
| Bump.BumpAllocator.Init | src/allocator/bump.rs:30-34 | `heap_end = heap_start + heap_size` and `next = heap_start`, with `allocations` untouched. On an allocator with nothing live, the invariant holds afterwards. |
| Bump.BumpAllocator.Alloc | src/allocator/bump.rs:41-57 | The new fields and the returned pointer are those of `AllocStep`, and the invariant is preserved. |
| Bump.BumpAllocator.Dealloc | src/allocator/bump.rs:59-66 | The new fields and the outcome are those of `DeallocStep`, and the invariant is preserved. |
| Bump.KernelHeap | src/allocator.rs:55 | The allocator initialised with the kernel heap window satisfies the invariant. |
| Bump.AllocDeallocRoundTrip | src/allocator/bump.rs:41-66 | From a state with no live allocation, a granted allocation followed by its free returns exactly the original state. |
| Bump.OverflowAtLastWord | src/allocator/bump.rs:43 | At `next` = 0xFFFF_FFFF_FFFF_FFF8 an 8-aligned request panics although that address is already aligned, and at `next` = `USIZE_MAX` a 1-aligned request panics; 16 bytes lower the 8-aligned request is granted at `next`. |
| Bump.ManyBoxes | tests/heap_allocation.rs:72-77 | If one allocate-then-free round succeeds from an empty allocator, any number of rounds succeed and end in the original state. |
| Bump.ManyBoxesOnKernelHeap | tests/heap_allocation.rs:72-77 | HEAP_SIZE rounds of an 8-byte, 8-aligned box on the kernel heap all succeed. |
| Bump.BlocksDisjoint | src/allocator/bump.rs:44-56 | While no free brings the count to zero, `next` never moves back. Every block handed out lies between the old and the new `next`, and the blocks follow one another without overlap. |
| Tasks.Poll | src/task/mod.rs:35-41 | Polling keeps the task's id. It answers `Ready` exactly when no pending polls remain, and each `Pending` consumes one. |
| Queues.ArrayQueue.Push | src/task/executor.rs:22 | The push succeeds exactly when the queue is below capacity and then appends at the back. On failure the contents are unchanged. |
| Queues.ArrayQueue.Pop | src/task/executor.rs:75 | The pop returns the front element and removes it, or returns None on an empty queue. |
| Queues.ArrayQueue.constructor | src/task/executor.rs:49 | `ArrayQueue::new(100)` creates an empty queue with the given non-zero capacity. |
| Queues.ArrayQueue.IsEmpty | src/task/executor.rs:111 | `is_empty` answers true exactly when no element is queued. |
| Executor.TaskWaker.WakeTask | src/task/executor.rs:21-23 | The bound id is appended to the bound queue, or on a full queue the call panics with the queue unchanged. |
| Executor.TaskWaker.Wake | src/task/executor.rs:33-35 | The same effect as `wake_task`. |
| Executor.TaskWaker.WakeByRef | src/task/executor.rs:37-39 | The same effect as `wake_task`. |
| Executor.TaskWaker.constructor | src/task/executor.rs:24-29 | The waker is bound to the given id and the shared queue. |
| Executor.RunOne | src/task/executor.rs:76-91 | A popped id with no live task changes nothing. A ready task leaves both the task map and the waker cache. A pending task stays, with one fewer pending poll and a cached waker. No other task is touched. "Cached wakers belong to live tasks" is preserved. |
| Executor.DrainWf | src/task/executor.rs:75-92 | Draining any queue preserves "every task is filed under its id, and cached wakers belong to live tasks". |
| Executor.DrainNoNewTasks | src/task/executor.rs:75-92 | Draining never adds a task. |
| Executor.DrainUntouched | src/task/executor.rs:75-92 | A task whose id is not in the ready queue is neither polled nor removed, and its cache entry is unchanged. |
| Executor.DrainRetires | src/task/executor.rs:84-89 | A task popped more often than it answers `Pending` is removed from both the task map and the waker cache by the end of the drain. |
| Executor.DrainKeepsCached | src/task/executor.rs:80-88 | A cached waker stays cached as long as its task is alive. |
| Executor.DrainCachesPolled | src/task/executor.rs:80-82 | Every task polled during a drain that is still alive afterwards has a cached waker. |
| Executor.Executor.constructor | src/task/executor.rs:43-52 | The task map and waker cache are empty, with a fresh empty ready queue of capacity 100. |
| Executor.Executor.Spawn | src/task/executor.rs:55-64 | The task is inserted under its id. A duplicate id panics without queueing. Otherwise the id is appended to the ready queue, or the call panics when the queue holds 100 ids. The executor invariant is preserved. |
| Executor.Executor.RunReadyTasks | src/task/executor.rs:67-93 | The loop exits only with the ready queue empty. The resulting task map and waker cache are `Drain` of the old ones over the old queue contents. |
| Executor.Executor.PollPopped | src/task/executor.rs:76-91 | The maps change as `RunOne` says. An existing cached waker is reused. A new one is created only when none was cached, and other cache entries are untouched. |
| Executor.Executor.SleepIfIdle | src/task/executor.rs:103-116 | The executor halts exactly when the ready queue is empty. |
| SimpleExecutor.Step | src/task/simple_executor.rs:30-36 | One turn removes the front task and re-appends it, with one pending poll consumed, exactly when it was pending. The queue never grows, the other tasks keep their order, and the remaining work drops by one. |
| SimpleExecutor.TraceLength | src/task/simple_executor.rs:29-38 | `run` polls exactly as many times as the tasks need in total. |
| SimpleExecutor.FirstRoundInOrder | src/task/simple_executor.rs:29-38 | The first \|q\| polls visit the queued tasks once each, front to back. |
| SimpleExecutor.RoundRobin | src/task/simple_executor.rs:30-36 | After k ≤ \|q\| turns, the untouched tasks are still at the front in order, followed by the pending ones among the first k, in poll order. |
| SimpleExecutor.FullRound | src/task/simple_executor.rs:30-36 | A full round leaves exactly the pending tasks, in their original order. |
| SimpleExecutor.SimpleExecutor.constructor | src/task/simple_executor.rs:16-20 | The queue is empty. |
| SimpleExecutor.SimpleExecutor.Spawn | src/task/simple_executor.rs:22-24 | The task is appended at the back. |
| SimpleExecutor.SimpleExecutor.Run | src/task/simple_executor.rs:29-38 | `run` returns with the queue empty, having polled the tasks in the order `Trace` gives. |
| Keyboard.AddStep | src/task/keyboard.rs:14-22 | The byte is queued exactly when the queue exists and holds fewer than 100 bytes, and it is then appended at the back. Otherwise the byte is dropped, with the reason (full or uninitialised), and the cell is unchanged. |
| Keyboard.NewStep | src/task/keyboard.rs:31-35 | The first call initialises an empty queue. A second call panics and changes nothing. |
| Keyboard.PollStep | src/task/keyboard.rs:42-53 | On an uninitialised cell the call panics. Otherwise it answers `Ready(Some(front))` and removes exactly that byte, or `Pending` on an empty queue with nothing changed. It never answers `Ready(None)`. |
| Keyboard.ScancodeQueue.constructor | src/task/keyboard.rs:6 | The cell starts uninitialised. |
| Keyboard.ScancodeQueue.AddScancode | src/task/keyboard.rs:14-22 | The cell and outcome are those of `AddStep`, and the capacity bound is kept. |
| Keyboard.ScancodeQueue.NewStream | src/task/keyboard.rs:31-35 | The cell and outcome are those of `NewStep`. |
| Keyboard.ScancodeQueue.PollNext | src/task/keyboard.rs:42-53 | The cell and result are those of `PollStep`. |
| Keyboard.DeliveredInOrder | src/task/keyboard.rs:14-53 | Over any run of interrupts and polls, the bytes delivered followed by those still queued are the bytes queued at the start followed by the accepted ones, in order: FIFO, with no duplicates and no skips. The queue never exceeds its capacity. |
| Keyboard.OnlyOverflowLoses | src/task/keyboard.rs:15-18 | Every byte an interrupt brings is either accepted or dropped. The accepted bytes are a subsequence of the arriving ones, and a run with no drop accepts all of them. |
| Keyboard.StaysInitialized | src/task/keyboard.rs:31-53 | Once initialised, no operation uninitialises the cell, so `poll_next` never panics again. |
| VgaBuffer.ValueInjective | src/vga_buffer.rs:28-45 | Distinct colours have distinct 4-bit discriminants. |
| VgaBuffer.ColorCodeNew | src/vga_buffer.rs:55-57 | The attribute byte is `bg * 16 + fg`. Its low nibble reads back the foreground and its high nibble the background. |
| VgaBuffer.ColorCodeInjective | src/vga_buffer.rs:55-57 | The attribute byte determines both colours. |
| VgaBuffer.NewLineSpec | src/vga_buffer.rs:132-142 | Each row r ≥ 1 moves to row r − 1, the bottom row becomes spaces in the current colour, and the column becomes 0. |
| VgaBuffer.WriteByteSpec | src/vga_buffer.rs:93-115 | A newline returns to column 0. Any other byte ends up, in the writer's colour, just left of the new column on the bottom row. The grid shape and the column bound are kept. |
| VgaBuffer.Sanitize | src/vga_buffer.rs:122-127 | Printable ASCII and newlines pass unchanged, and every other byte becomes 0xfe. The result is a newline or a displayable byte. |
| VgaBuffer.WriteStringDisplayable | src/vga_buffer.rs:118-130 | On a screen holding only displayable bytes, `write_string` leaves only displayable bytes (printable ASCII, space or 0xfe), whatever the input. |
| VgaBuffer.WriteStringWritesDisplayable | src/vga_buffer.rs:118-130 | Whatever the screen held before, after `write_string` every cell is displayable (printable ASCII, space or 0xfe) or is an old cell of the same column that scrolled up from its row or a lower one. |
| VgaBuffer.WriteByteWrittenOrMovedUp | src/vga_buffer.rs:93-115 | A displayable byte or a newline writes only displayable cells; every other cell stays or moves up within its column. |
| VgaBuffer.WriteByteOneCell | src/vga_buffer.rs:103-112 | Without a scroll, `write_byte` changes exactly the cell at the current column of the bottom row and advances the column by one. |
| VgaBuffer.FullRowWraps | src/vga_buffer.rs:99-101 | A byte written at column 80 first scrolls: the full row moves up intact, and the byte lands at column 0 of the new bottom row. |
| VgaBuffer.TextFillsBottomRow | src/vga_buffer.rs:93-130 | Printable text that fits on the bottom row lands there left to right from the current column. The rows above and the rest of the bottom row are unchanged. |
| VgaBuffer.NewlinesScroll | src/vga_buffer.rs:132-142 | k ≤ 25 newlines shift the screen up k rows and leave the bottom k rows blank, so 25 newlines clear the screen. |
| VgaBuffer.Writer.constructor | src/vga_buffer.rs:13-19 | The global writer starts at column 0 with attribute 0x0E (yellow on black) over the 25 × 80 buffer. |
| VgaBuffer.Writer.ClearRow | src/vga_buffer.rs:144-152 | The chosen row becomes spaces in the current colour, and every other row is unchanged. |
| VgaBuffer.Writer.NewLine | src/vga_buffer.rs:132-142 | The column and grid after the nested copy loops and the clear are exactly `NewLineSpec` of the old ones. |
| VgaBuffer.Writer.WriteByte | src/vga_buffer.rs:93-115 | The column and grid afterwards are `WriteByteSpec` of the old ones, and the column stays within 0..=80. |
| VgaBuffer.Writer.WriteString | src/vga_buffer.rs:118-130 | The column and grid afterwards are `WriteStringSpec` of the old ones over the string's bytes. |
| VgaBuffer.Writer.WriteStr | src/vga_buffer.rs:159-162 | The call has the same effect as `write_string` and always returns `Ok`. |

## Left out

- The spin locks around the allocator (`Locked<A>`) and the `WRITER` are left out, and calls are taken one at a time.
- The lock-free, interrupt-safe behaviour of `crossbeam_queue::ArrayQueue` and `conquer_once::OnceCell` is left out. They are sequential containers here, and an interrupt is one more operation in a sequence (`Keyboard.Event`).
- `Future`, `Pin`, `Box<dyn Future>` and `Context` are left out. A task's future is an abstract finite count of `Pending` answers, and a task's wake-ups during a poll are not modelled; wake-ups are `TaskWaker` calls between drains.
- The no-op waker of the simple executor (`dummy_raw_waker`, `dummy_waker`, `RawWakerVTable`) is left out. Its wake and drop do nothing, so a poll cannot reach the queue and nothing is modelled for it.
- How task ids are generated is not modelled; ids are naturals.
- `Executor::run` is left out because it never returns. It is `RunReadyTasks` followed by `SleepIfIdle`, forever.
- Of `sleep_if_idle`, only the decision is modelled. Disabling interrupts and `enable_and_hlt` are CPU instructions.
- The page mapping in `init_heap` is left out (foreign `x86_64` paging calls). Only the window it maps and the `init` call on it are modelled.
- `Volatile` writes and the fixed address 0xb8000 are left out. The writer owns a 25 × 80 `array2`, and the constructor receives it.
- Strings are taken as their UTF-8 bytes. The encoding itself is not modelled.
- The `println!` warnings in `add_scancode` are left out. They become the `DroppedFull` and `DroppedUninitialized` outcomes.
- Bump.BumpAllocator.Init: requires `heap_start + heap_size` to fit in a usize. `init` is an `unsafe fn` whose caller guarantees a valid window, so the overflow panic of that addition is not modelled.
- Bump.BumpAllocator.Alloc: requires a valid `Layout` (non-zero size, power-of-two alignment) and the allocator invariant. `GlobalAlloc` guarantees the first, and `new`/`init` followed by `alloc`/`dealloc` keep the second.
- Executor.Executor.RunReadyTasks: states the reuse and creation of cached wakers per popped id (`PollPopped`), and at the value level (`DrainKeepsCached`, `DrainCachesPolled`). It does not state object identity of wakers across the whole drain.
- Executor.Executor.RunReadyTasks: the model assumes tasks do not call their wakers while being polled (a future may call `cx.waker().wake_by_ref()` inside `poll`, which is not modelled), so a drain never re-fills the queue it is draining. A wake-up is a separate `TaskWaker` call between drains.
- Tasks.Poll: every modelled future answers `Ready` after finitely many `Pending` answers. A future that never completes, such as the keyboard task that loops over the scancode stream for ever, cannot be expressed.
- SimpleExecutor.SimpleExecutor.Run: is proved to return, with the queue empty, only because every modelled task completes. The source's `run` spins for ever on a task that never completes, since its no-op waker cannot stop the loop; that non-termination is not captured.
