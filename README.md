# Clock pool, transfer task registry and order-by helpers of a replicated vector store

This project models three pieces of sequential bookkeeping from the shard layer and the segment crate of the qdrant
vector database, and proves properties about them in Dafny.

- **Clock pool** (`clock_set.dfy`, module `Clocks`). A shard replica stamps each write with a
  `(clock id, tick)` pair. It gets the pair from a `ClockSet`, which is a growable vector of
  `Clock` objects. Each clock has a 64-bit counter and an `available` flag. `GetClock` locks the
  first available clock in id order. If every clock is held, it pushes a fresh clock with counter
  0 and locks that one. The `ClockGuard` it returns can tick the counter or advance it. Releasing
  the guard (Rust's `Drop`) makes the clock available again and leaves its counter as it was.
  A ghost field `holder` on each clock records the live guard. Only that guard's own methods may
  tick, advance or release the clock, and a guard may release it once, as Rust's move into `Drop`
  ensures.
  `Clock`, `ClockGuard` and `ClockSet` are classes. The atomics of the source are plain fields.
  The source's ordered scan is the loop in `LockFirstAvailable`, which `GetClock` falls back from
  to `NewClock`. Both are proved against the pure function `FirstAvailable` of the availability
  flags.
- **Transfer task registry** (`transfer_tasks_pool.dfy`, module `TransferTasks`). This is a
  per-collection map from a shard transfer key `(shard, from peer, to peer)` to a task item. It
  has queries for liveness, result and progress. It also has `AddTask`, which inserts or
  overwrites an entry. `StopIfExists` removes an entry and maps the outcome of its cancellation to
  `Finished`, `Stopped`, `Failed` or `NotFound`. The asynchronous task handle is abstracted as a
  value that records three things: whether the task has finished, its result, and what awaiting
  its cancellation yields.
- **Order-by helpers** (`order_by.dfy`, module `OrderBy`). These turn a direction and a start
  value into a one-sided range. They resolve the default direction. They also store an ordering
  value in a point's payload under a reserved key, and take it out again, falling back to
  `f64::MAX` or `f64::MIN`. `json_value.dfy` (module `Json`) holds the small part of `serde_json`
  and of `f64` those helpers need. An `f64` is its IEEE 754 bit pattern, which is never computed
  with. `Value::from(f64)` gives `Null` for a non-finite float. `as_f64` converts integers with
  round-to-nearest-even. The powers of two, the highest-bit function and the rounding lemmas in
  `json_value.dfy` serve only that integer branch of `as_f64`, which the order-by helpers reach
  when the reserved key holds an integer.

`wrappers.dfy` holds the `Option` type. Three client methods use only the other members'
contracts:
- `ConcurrentWritersGetDistinctClocks`: two writers that hold clocks at the same time get ids 0
  and 1, on different clocks.
- `ReleasedClockKeepsItsTick`: a writer ticks a clock to 1 and releases it. The next writer gets
  the same clock, still at tick 1, and ticks it to 2.
- `TransferLifecycle`: a running transfer reports running and its progress. A completed one
  reports its result. Stopping the running one returns `Stopped` and removes it, so its progress
  is gone and a second stop returns `NotFound`.

## Model

| member | source | states |
|---|---|---|
| Clocks.Clock.NewUnlocked | lib/collection/src/shards/replica_set/clock_set.rs:71-76 | a new clock has counter 0 and is available |
| Clocks.Clock.TickOnce | lib/collection/src/shards/replica_set/clock_set.rs:78-80 | the counter goes up by exactly 1, and the new value is returned |
| Clocks.Clock.AdvanceTo | lib/collection/src/shards/replica_set/clock_set.rs:82-85 | the counter becomes max(old, t), and that value is returned; it is at least the old counter and at least t |
| Clocks.Clock.TryLock | lib/collection/src/shards/replica_set/clock_set.rs:90-94 | the clock is unavailable afterwards; a fresh guard carrying the given id and this clock is returned exactly when the clock was available, and becomes its holder; otherwise null is returned and the holder is unchanged |
| Clocks.Clock.Release | lib/collection/src/shards/replica_set/clock_set.rs:97-99 | the clock is available again and has no holder |
| Clocks.ClockGuard.constructor | lib/collection/src/shards/replica_set/clock_set.rs:40-42 | the guard records the id and the clock it was given |
| Clocks.ClockGuard.Id | lib/collection/src/shards/replica_set/clock_set.rs:44-46 | returns the guard's pool index |
| Clocks.ClockGuard.TickOnce | lib/collection/src/shards/replica_set/clock_set.rs:49-51 | only the live guard may tick; the guarded clock's counter goes up by exactly 1, and the new value is returned |
| Clocks.ClockGuard.AdvanceTo | lib/collection/src/shards/replica_set/clock_set.rs:53-55 | only the live guard may advance; the guarded clock's counter becomes max(old, t), and that value is returned |
| Clocks.ClockGuard.Release | lib/collection/src/shards/replica_set/clock_set.rs:58-62 | only the live guard may be dropped, so at most once; its clock becomes available with no holder, and the counter is unchanged |
| Clocks.ClockSet.New | lib/collection/src/shards/replica_set/clock_set.rs:11-13 | a new pool has no clocks |
| Clocks.FirstAvailable | lib/collection/src/shards/replica_set/clock_set.rs:16-22 | the chosen id is the lowest index of an available clock; every smaller index is unavailable; it is the pool length when no clock is available |
| Clocks.Acquired | lib/collection/src/shards/replica_set/clock_set.rs:17-30 | after handing out an id, only that clock's flag differs, and it is now unavailable; the flag vector grows by one exactly when the id is a new one |
| Clocks.ClockSet.LockFirstAvailable | lib/collection/src/shards/replica_set/clock_set.rs:17-20 | the scan returns a fresh guard for the clock at FirstAvailable of the old flags, which becomes its holder, or null when no clock is available; no other clock's flag or holder changes, and no counter changes |
| Clocks.ClockSet.GetClock | lib/collection/src/shards/replica_set/clock_set.rs:16-22 | returns a fresh guard whose id is FirstAvailable of the old flags and whose clock is the one at that id, now held by it; existing clocks keep their positions; the pool grows by exactly one fresh clock, with counter 0, only when every clock was held; flags and holders change only at that id, as Acquired says; no counter changes; every guard that held a clock before differs from the new one in id and in clock |
| Clocks.NewHolderIsDistinct | lib/collection/src/shards/replica_set/clock_set.rs:16-30 | when each held position's guard carries that position as its id, a guard placed at a position nobody held has an id no earlier holder has |
| Clocks.HeldGuardsAreDistinct | lib/collection/src/shards/replica_set/clock_set.rs:58-62 | in a valid pool, two different live guards are on different clocks and carry different ids |
| Clocks.ClockSet.NewClock | lib/collection/src/shards/replica_set/clock_set.rs:25-30 | pushes one fresh clock; the guard's id is the old length; the new clock has counter 0 and is now locked; the unwrap cannot fail |
| TransferTasks.ShardTransfer.Key | lib/collection/src/shards/transfer/transfer_tasks_pool.rs:114 | the registry key is the transfer's shard, source peer and destination peer |
| TransferTasks.DefaultProgress | lib/collection/src/shards/transfer/transfer_tasks_pool.rs:20-24 | the default progress is 0 records done out of 0 |
| TransferTasks.CancelToTaskResult | lib/collection/src/shards/transfer/transfer_tasks_pool.rs:77-107 | Ok(true) maps to Finished, Ok(false) to Stopped and an error to Failed, each as an if-and-only-if; a present task never yields NotFound |
| TransferTasks.TaskResult.IsFinished | lib/collection/src/shards/transfer/transfer_tasks_pool.rs:35-37 | true for Finished and for no other outcome |
| TransferTasks.StopIsFinishedOnlyForSuccess | lib/collection/src/shards/transfer/transfer_tasks_pool.rs:34-38 | is_finished holds only for Finished, so a stop reports finished exactly when cancellation found the task completed successfully |
| TransferTasks.TransferTasksPool.constructor | lib/collection/src/shards/transfer/transfer_tasks_pool.rs:41-46 | a new pool keeps its collection id and tracks no tasks |
| TransferTasks.TransferTasksPool.Lookup | lib/collection/src/shards/transfer/transfer_tasks_pool.rs:50-51 | the map lookup is Some exactly for a tracked key, and holds that key's item |
| TransferTasks.TransferTasksPool.CheckIfStillRunning | lib/collection/src/shards/transfer/transfer_tasks_pool.rs:49-53 | true exactly when the key is tracked and its task has not finished; false for an unknown key |
| TransferTasks.TransferTasksPool.GetTaskResult | lib/collection/src/shards/transfer/transfer_tasks_pool.rs:58-62 | None for an unknown key, otherwise the task's own result; None while the task is still running |
| TransferTasks.TransferTasksPool.GetTaskProgress | lib/collection/src/shards/transfer/transfer_tasks_pool.rs:64-71 | a copy of the stored progress for a tracked key, None otherwise; reads only |
| TransferTasks.TransferTasksPool.StopIfExists | lib/collection/src/shards/transfer/transfer_tasks_pool.rs:75-111 | removes exactly the given key and leaves every other entry as it was; returns NotFound for an unknown key, otherwise the mapped cancel outcome; afterwards every query treats the key as unknown, so a second stop returns NotFound |
| TransferTasks.TransferTasksPool.AddTask | lib/collection/src/shards/transfer/transfer_tasks_pool.rs:113-115 | stores the item under the transfer's key and overwrites any earlier entry; other keys are unchanged |
| Json.FromF64 | lib/segment/src/data_types/order_by.rs:79 | a finite float becomes a JSON float number, and a non-finite one becomes null |
| Json.AsF64 | lib/segment/src/data_types/order_by.rs:86 | Some exactly for JSON numbers, always finite; a float number gives back its own float |
| Json.AsF64OfFromF64 | lib/segment/src/data_types/order_by.rs:79-86 | a finite float survives the trip through a JSON value; a non-finite one comes back as None |
| Json.IntegerToF64 | lib/segment/src/data_types/order_by.rs:86 | an integer number's as_f64 is finite and keeps the sign; zero is +0.0; integers below 2^53 are exact |
| Json.MaxAndMinAreFinite | lib/segment/src/data_types/order_by.rs:88-89 | f64::MAX and f64::MIN are finite, have opposite signs, and share the largest finite exponent and an all-ones fraction |
| OrderBy.DefaultRange | lib/segment/src/data_types/order_by.rs:68 | the default range has no bound |
| OrderBy.Direction.AsRangeFrom | lib/segment/src/data_types/order_by.rs:19-34 | Asc gives a range whose only bound is gte = from; Desc gives one whose only bound is lte = from |
| OrderBy.AsRangeFromAdmits | lib/segment/src/data_types/order_by.rs:19-34 | under any order, the Asc range admits exactly the values at or above from, and the Desc range exactly those at or below it |
| OrderBy.Sentinel | lib/segment/src/data_types/order_by.rs:87-90 | the fallback is f64::MAX for Asc and f64::MIN for Desc, and it is finite |
| OrderBy.OrderBy.ResolvedDirection | lib/segment/src/data_types/order_by.rs:71-73 | the stored direction, or Asc when none is given |
| OrderBy.OrderBy.AsRange | lib/segment/src/data_types/order_by.rs:59-69 | no start value gives the default float range; a float start gives a float range, and a datetime start a datetime range, each built by AsRangeFrom in the resolved direction |
| OrderBy.OrderBy.AsRangeAdmits | lib/segment/src/data_types/order_by.rs:59-69 | under any orders on floats and datetimes: with a start value, the range admits exactly the values at or past it in the resolved direction; without one, it admits every float |
| OrderBy.InsertOrderValueInPayload | lib/segment/src/data_types/order_by.rs:75-81 | a missing payload counts as empty; the result maps the reserved key to the value as JSON and keeps every other key and value |
| OrderBy.OrderBy.RemoveOrderValueFromPayload | lib/segment/src/data_types/order_by.rs:83-91 | the caller's payload loses the reserved key and nothing else; a numeric value there is returned as as_f64 gives it; with no payload, no key or a non-numeric value, the direction's sentinel is returned |
| OrderBy.InsertThenRemove | lib/segment/src/data_types/order_by.rs:75-91 | removing what was inserted returns a finite value unchanged, or the sentinel for a non-finite one; the payload ends up as the original minus the reserved key |
| OrderBy.RemoveTwice | lib/segment/src/data_types/order_by.rs:83-91 | a second removal returns the sentinel and leaves the payload as the first removal left it |

## Left out

- Clocks.Clock.TickOnce: requires the counter to be below 2^64 - 1. The source's `fetch_add` wraps at 2^64, and `+ 1` on the returned value then overflows. That wrap-around is not modelled.
- Clocks.ClockGuard.TickOnce: carries the same precondition, for the same reason.
- Rust's module privacy is not modelled: the `Clock` struct is private, and so are the `clocks` field of the pool and the `clock` field of a guard. In the model, `Clock`'s own methods can be called without a guard. The pool's guarantees (`GetClock`, `HeldGuardsAreDistinct`) hold for clients that use only `ClockSet.GetClock` and the `ClockGuard` methods.
- Atomics and memory ordering: `swap`, `fetch_add`, `fetch_max` and `store` become ordinary read-modify-write steps under single-threaded semantics. Relaxed ordering and real interleavings are not modelled.
- `Arc` reference counting is replaced by Dafny object references.
- A released `ClockGuard` object still exists in Dafny, where Rust drops it. Only its `Id()` can still be read. Ticking, advancing and releasing all require the guard to be its clock's holder.
- `#[derive(Clone)]` on `ClockSet`, which shares the same clocks between copies, is not modelled.
- The cancellable task handle is a snapshot value. It holds a finished flag, a result that is present only once the task has finished, and the outcome its cancellation would yield. Tasks that change state while tracked, scheduling, the task body and the `.await` are not modelled.
- Transfer progress behind `Arc<Mutex<..>>` is a plain value in the item. The running task's own updates to it are not modelled.
- The `log::info!` and `log::warn!` lines in `stop_if_exists` are diagnostic side effects. They are left out, and the collection id is only stored.
- `ShardTransfer`, `ShardTransferKey`, `Range`, `RangeInterface`, `Payload` and `serde_json::Value` are defined outside the modelled files. Each is a minimal datatype here. `OrderBy.Contains` is the conventional reading of the four bounds, given for an arbitrary order.
- OrderBy.OrderBy.RemoveOrderValueFromPayload: the source removes the key from the caller's `&mut Payload` in place. The model returns the updated payload beside the value. The borrow is exclusive, so no aliasing is lost.
- `chrono::DateTime<Utc>` is an opaque instant (nanoseconds since the epoch) that is only carried.
- Floats are IEEE bit patterns with no arithmetic. The order `Json.f64` values follow in a range is left abstract.
- Serde, JsonSchema and Validate derives are not modelled.
- TransferTasks.TransferTasksPool.AddTask: overwriting a live entry drops the earlier task handle without awaiting its cancellation. The code does this silently, and the model follows it.
