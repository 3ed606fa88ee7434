# Fixed-object-size memory pool, modelled in Dafny

This project models the two memory pools of the `memory_pool` Go repository.

- **Object-granular pool** (`pkg/pool/pool.go`). The pool is a buffered channel of `[]byte` buffers. `Get` hands out the front buffer. `Return` optionally zeroes the caller's buffer in place and then enqueues that same buffer.
- **Byte-granular pool** (`internal/pkg/pool/pool.go`). The pool is a buffered channel of single bytes with capacity `NObj * ObjSize`. `Get` receives `ObjSize` bytes into a new slice. `Return` sends the first `ObjSize` bytes of the caller's slice back one at a time.

Both pools share the same protocol:

- `New` fills a new channel with zero values.
- `Get` on an empty queue returns nil when `GrowFactor <= 0`. Otherwise it calls `growPool`, which discards the (empty) channel and installs a new one. The new channel's capacity is derived from `NObj * GrowFactor`, and it holds only the newly allocated part.
- `NObj` is never updated, so every growth targets the same capacity.

Files:

- `channels.dfy` models a Go buffered channel as a class holding a FIFO `seq` and a fixed capacity. Send on a full channel and receive on an empty one block forever in a single goroutine, so both are preconditions.
- `object_pool.dfy` and `byte_pool.dfy` are the two pools. Each is a class whose `data` field is the channel that `New` and growth replace. Buffers are `array<byte>`, so the object pool's queue holds references, and the model keeps track of aliasing, freshness and in-place zeroing.
- `object_pool_scenarios.dfy` and `byte_pool_scenarios.dfy` are client methods. They mirror the unit tests and the properties a caller relies on, and each is proved from the pools' contracts alone.
- `bytes.dfy` holds `byte`, `int8` and the zero-filled byte sequence.

Four behaviours of the code may surprise a caller, and one of them contradicts the repository's own test. The model follows the code in each:

- `New` never validates its configuration and always succeeds.
- Growth never updates the object count, so it does not compound.
- `Get` can block: with `GrowFactor == 1`, growth adds nothing and the receive waits forever. This is a precondition here.
- The byte pool's unit test `TestNew` (internal/pkg/pool/pool_test.go:35-42) expects a second `Get` to succeed with `NObj = 1` and `GrowFactor = 0`. The code returns nil there, and `BytePoolScenarios.SingleObjectScenario` proves that nil.

## Model

| member | source | states |
|---|---|---|
| `Channels.Channel.constructor` | pkg/pool/pool.go:45 | `make(chan T, n)`: an empty queue of capacity n |
| `Channels.Channel.Send` | pkg/pool/pool.go:89 | a send appends at the back of the queue and needs a free slot (otherwise it blocks) |
| `Channels.Channel.Receive` | pkg/pool/pool.go:73 | a receive removes and returns the front of the queue and needs a non-empty queue (otherwise it blocks) |
| `Bytes.Zeros` | internal/pkg/pool/pool.go:37-40 | the bytes a fresh channel is filled with: exactly n bytes, every one zero |
| `ObjectPool.GrowthYieldsObject` | pkg/pool/pool.go:22-37 | growth to `NObj * GrowFactor` (line 69) allocates `NObj * (GrowFactor - 1)` buffers, which is at least one exactly when `NObj > 0` and `GrowFactor >= 2` |
| `ObjectPool.Pool.constructor` | pkg/pool/pool.go:14-20 | the struct literal: the configuration as given and a nil channel with length and capacity 0, distinct from every existing object, so Get may be called before New |
| `ObjectPool.Pool.New` | pkg/pool/pool.go:40-53 | a new channel of capacity NObj holding NObj pairwise distinct, freshly allocated buffers of ObjSize zero bytes |
| `ObjectPool.Pool.GrowPool` | pkg/pool/pool.go:22-37 | the old channel is replaced by a fresh one of capacity nNewObj holding only `max(0, nNewObj - NObj)` distinct fresh zeroed buffers; NObj is unchanged |
| `ObjectPool.Pool.Get` | pkg/pool/pool.go:56-74 | non-empty queue: returns the front buffer and drops it, with the channel and its capacity unchanged. Empty queue and `GrowFactor <= 0`: nil, and nothing changes. Empty queue and `GrowFactor > 0`: a fresh channel of capacity `NObj * GrowFactor` with `NObj * GrowFactor - NObj - 1` distinct zeroed buffers left, and a fresh zeroed ObjSize-byte buffer returned. The channel is replaced only when the old one was empty |
| `ObjectPool.Pool.Return` | pkg/pool/pool.go:77-99 | keeps the pool invariant that, under Erase, every queued buffer has at least ObjSize bytes. With Erase, bytes `0..ObjSize-1` of the caller's buffer become zero and the rest are untouched; without Erase, no byte changes. The same buffer reference is appended at the back, and this needs a free slot |
| `ObjectPoolScenarios.GetThenReturn` | pkg/pool/pool.go:56-99 | Get followed by Return of the same buffer rotates the front buffer to the back, with or without Erase: same length, same channel, same capacity. The returned front buffer keeps every byte, except that under Erase its first ObjSize bytes become zero |
| `ObjectPoolScenarios.FixedPoolScenario` | pkg/pool/pool_test.go:80-146 | ObjSize 16, NObj 2, no growth: two Gets give 16-byte buffers and a third gives nil. Bytes written into each buffer survive returning the other, and 2 buffers end up queued |
| `ObjectPoolScenarios.GrowScenario` | pkg/pool/pool_test.go:148-188 | ObjSize 8, NObj 1, GrowFactor 3: both Gets give 8-byte buffers, and after both Returns the queue holds 3 buffers in a channel of capacity 3 |
| `ObjectPoolScenarios.GetBeforeNewScenario` | pkg/pool/pool.go:62-73 | Get on a pool that New never filled sees the nil channel's length 0 and grows: with ObjSize 8, NObj 2 and GrowFactor 4 it returns an 8-byte buffer and leaves 5 buffers in a channel of capacity 8 |
| `ObjectPoolScenarios.SecondGrowthScenario` | pkg/pool/pool.go:62-73 | a second exhaustion installs a channel of the same capacity 3 while 4 buffers are out. After 2 Returns the queue is full, and the 2 buffers still held are distinct and not queued, so returning either would block |
| `ObjectPoolScenarios.EraseScenario` | pkg/pool/pool.go:83-89 | with Erase, the next Get returns the same storage that was returned, and the byte the caller wrote into it reads 0 |
| `BytePool.MultipleAligned` | internal/pkg/pool/pool.go:51-55 | a queue of k whole objects is aligned to ObjSize, so the queue `New` fills is aligned |
| `BytePool.AlignedStep` | internal/pkg/pool/pool.go:83-111 | sending or receiving ObjSize bytes keeps the queue aligned, and a non-empty aligned queue holds at least ObjSize bytes, so Get's receive loop never blocks on a non-empty queue |
| `BytePool.GrowthAdds` | internal/pkg/pool/pool.go:27-43 | growth to `totalSize = NObj * ObjSize * GrowFactor` (line 74) adds `NObj * (GrowFactor - 1) * ObjSize` bytes. These are aligned, and they hold at least one object exactly when `NObj > 0` and `GrowFactor >= 2` |
| `BytePool.Pool.constructor` | internal/pkg/pool/pool.go:15-22 | the struct literal: the configuration as given and a nil channel with length and capacity 0, distinct from every existing object, so Get may be called before New |
| `BytePool.Pool.New` | internal/pkg/pool/pool.go:46-58 | a new channel of capacity `NObj * ObjSize`, full of zero bytes |
| `BytePool.Pool.GrowPool` | internal/pkg/pool/pool.go:27-43 | the old channel is replaced by a fresh one of capacity newSize holding `max(0, newSize - ObjSize * NObj)` zero bytes; NObj is unchanged |
| `BytePool.Pool.ReceiveObject` | internal/pkg/pool/pool.go:83-87 | the receive loop takes exactly the first ObjSize bytes of the queue, in FIFO order, and leaves the rest |
| `BytePool.Pool.Get` | internal/pkg/pool/pool.go:61-90 | the result is nil exactly when the queue is empty and `GrowFactor <= 0`, or ObjSize is 0. Otherwise it is a fresh ObjSize-byte slice. Non-empty queue: the slice holds the queue's first ObjSize bytes in order, and the queue keeps the rest. Empty queue without growth: nothing changes. Empty queue with growth: a fresh channel of capacity `NObj * ObjSize * GrowFactor`, a zero slice, and `growth bytes - ObjSize` zero bytes left. The queue stays a multiple of ObjSize |
| `BytePool.Pool.Return` | internal/pkg/pool/pool.go:93-114 | with Erase, `o[0..ObjSize-1]` becomes zero in place and the rest is untouched. Those ObjSize bytes are appended to the queue in index order, which needs ObjSize free slots. The queue stays a multiple of ObjSize |
| `BytePoolScenarios.GetThenReturn` | internal/pkg/pool/pool.go:61-114 | Get followed by Return moves the first ObjSize bytes to the back (as zeros with Erase) and keeps the length |
| `BytePoolScenarios.SingleObjectScenario` | internal/pkg/pool/pool_test.go:15-52 | ObjSize 16, NObj 1, no growth: the first Get gives 16 bytes and the second gives nil |
| `BytePoolScenarios.GrowScenario` | internal/pkg/pool/pool_test.go:83-123 | ObjSize 8, NObj 1, GrowFactor 3: both Gets give 8 bytes, and after both Returns the queue holds 24 = 3 * ObjSize bytes in a channel of capacity 24 |
| `BytePoolScenarios.GetBeforeNewScenario` | internal/pkg/pool/pool.go:67-75 | Get on a pool that New never filled sees the nil channel's length 0 and grows: with ObjSize 4, NObj 2 and GrowFactor 3 it returns 4 zero bytes and leaves 12 bytes in a channel of capacity 24 |
| `BytePoolScenarios.FifoScenario` | internal/pkg/pool/pool.go:83-111 | a returned object comes out of the queue after the object already queued. Its bytes are kept without Erase and zeroed with it |

## Left out

- Concurrency is not modelled: the channel's own synchronisation, the `sync.Mutex` of the byte pool, and the race between the `len` check and `growPool`. All calls are single-threaded.
- Blocking is not modelled as deadlock. A send on a full channel or a receive on an empty one is a precondition (`CanGet`, and the free-slot requires of `Return`).
- The nil-receiver branches (`if p == nil { return nil }`) are not modelled, because a Dafny method always has a receiver.
- The `error` results are not modelled: `New`, `growPool` and `Return` always return nil.
- Negative `ObjSize` or `NObj` values are not modelled; both are `nat`. The code never validates them. Most such values make Go's `make` panic, but not all: a byte pool with `NObj = -1` and `ObjSize = -16` gets a full channel of 16 bytes and a `Get` that returns nil from a non-empty queue, and an object pool with `NObj = 0` never reaches `make([]byte, ObjSize)`.
- The 64-bit overflow of `NObj * GrowFactor` and of `NObj * ObjSize * GrowFactor` is not modelled, because the model's integers are unbounded.
- Slices are modelled as arrays whose length is the slice's `len`. Slice capacity, sub-slicing and garbage collection are not modelled, nor is the dead assignment `o = nil` at the end of `Return`.
- ObjectPool.Pool.Return: a nil slice cannot be returned, because the buffer is a non-null array. Go would enqueue nil when Erase is off, or when Erase is on with ObjSize 0.
- BytePool.Pool.Return: a nil slice cannot be returned, because the slice is a non-null array, so the nil that Get gives when ObjSize is 0 cannot be passed back. Go's loops then run no iteration, and returning an empty array gives the same no-op.
- BytePool.Pool.Return requires `o.Length >= ObjSize` and ObjectPool.Pool.Return requires it under Erase. These are the indexes Go would otherwise panic on.
- The benchmark helpers and `Benchmark*` functions of the tests are not modelled. The tests write values with `binary.PutVarint`, which stores the zig-zag encoding (42 becomes the byte 84, and 11 becomes 22). The scenarios instead write the decoded value itself as a single byte, so they check that the bytes survive, not the varint encoding.
