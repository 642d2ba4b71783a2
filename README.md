# waitpool in Dafny

A model of the `waitpool` crate: a blocking object pool for several threads. Threads
deposit elements. They check an element out as a `Pooled` handle, and the handle gives the
element back when it is dropped. The pool's state is guarded by one spin lock, so every
critical section is modelled as one atomic method on a single state:

- `pooled`: the FIFO queue of available elements.
- `count`: the number of live elements, queued or checked out.
- `destroyStart`: the flag that teardown sets.
- the pool's `Notifier`: a registry of parked threads, each waiting for an event.

The registry's search and removal (`Position`, `RemoveAt`, `Take`) are pure functions.
Its owner, the class `Notify.Notifier`, applies them in place. The pool (`WaitPool.Pool`)
and its handles (`WaitPool.Pooled`) are classes whose methods update their fields the way
the Rust code does. A handle's raw back-pointer, nulled when it detaches, becomes
`Link = Connected(pool) | Disconnected`. A ghost set `handles` holds the connected handles
of a pool. Its invariant `Valid()` says that `count == |pooled| + |handles|` and that each
such handle still holds its element. Every method keeps it, so no `count -= …` in the
source can go below zero. In the model `count` is a `nat`, and each of these subtractions
is proved to stay non-negative.

Files: `wrappers.dfy` (Option, Result), `notifier.dfy` (module `Notify`), `pool.dfy`
(module `WaitPool`), `scenarios.dfy` (module `PoolScenarios`: the pool's documented
behaviours, each as a fixed run of steps on a fresh pool).

## Model

| member | source | states |
|---|---|---|
| Notify.WaiterEqualityIsThreadIdentity | src/notifier.rs:16-20 | two waiters are equal exactly when their thread ids are |
| Notify.Position | src/notifier.rs:57 | the result is absent iff no entry has the event; otherwise it is the lowest index whose entry has the event |
| Notify.RemoveAt | src/notifier.rs:59 | removing index i shortens the registry by one, keeps every other entry in its relative order, and takes away exactly the entry at i (as a multiset) |
| Notify.TakeNothingIff | src/notifier.rs:55-61 | a notification wakes nobody iff no entry waits for the event, and exactly then the registry is left unchanged |
| Notify.TakeFirstMatch | src/notifier.rs:57-59 | if i is the lowest index registered for the event, the waiter at i is woken and exactly index i is removed |
| Notify.TakeRemovesOne | src/notifier.rs:57-60 | a successful notification removes exactly one entry, the pair of the woken waiter and the event |
| Notify.Take | src/notifier.rs:55-61 | one notification leaves the registry one entry shorter when it wakes somebody and of the same length when it wakes nobody; which waiter and which entry are stated by `TakeNothingIff`, `TakeFirstMatch`, `TakeRemovesOne` and `TakeWakesOldest` |
| Notify.MatchingAfterRegist | src/notifier.rs:51-53 | registering a waiter for an event puts it last among the waiters for that event, and changes the waiters of no other event |
| Notify.TakeWakesOldest | src/notifier.rs:55-61 | for any registry, a notification wakes the oldest waiter registered for the event (nobody when there is none) and leaves the remaining waiters for that event in their order: first registered, first woken |
| Notify.PositionAfterRegist | src/notifier.rs:51-57 | appending an entry leaves an earlier first match where it was; otherwise the new entry is the first match iff its event matches |
| Notify.FifoWakeOrder | src/notifier.rs:51-61 | an instance of `TakeWakesOldest`: waiters w1 then w2 registered for one event, with none before them, are woken by successive notifications in that order, and the registry returns to what it was |
| Notify.Notifier.constructor | src/notifier.rs:42-48 | a new registry is empty and has woken nobody |
| Notify.Notifier.Regist | src/notifier.rs:51-53 | the pair is appended at the end, earlier entries untouched, with no deduplication; nobody is woken |
| Notify.Notifier.NotifyOne | src/notifier.rs:55-61 | the registry and the returned waiter are those of `Take`; the woken log grows by exactly the returned waiter |
| Notify.Wait | src/notifier.rs:23-28 | the calling thread is appended to the registry for the event before it parks |
| WaitPool.Pool.constructor | src/lib.rs:17-21 | a new pool has an empty queue, count 0, teardown not started, an empty notifier |
| WaitPool.Pool.WithCapacity | src/lib.rs:23-27 | the capacity only pre-allocates: the state is that of a new pool |
| WaitPool.Pool.Deposit | src/lib.rs:49-53 | count grows by exactly one and the element is appended at the tail; the teardown flag is unchanged |
| WaitPool.Pool.TryGet | src/lib.rs:37-47 | count 0 is the error `GetBeforePooled` with nothing changed; an empty queue with count > 0 yields nothing and changes nothing; otherwise the old head comes out in a fresh connected handle, the queue loses its head and count is unchanged |
| WaitPool.Pool.Back | src/lib.rs:55-67 | when not tearing down the element goes to the tail and count is unchanged; when tearing down count drops by one, the queue is untouched, the element is discarded and one disconnect waiter is notified |
| WaitPool.Pool.DrainStep | src/lib.rs:72-82 | sets the teardown flag, empties the queue and subtracts its former length from count; it finishes iff count reaches 0, iff no handle is outstanding |
| WaitPool.Pool.DrainOrRegister | src/lib.rs:72-87 | the drain pass, and when it does not finish the tearing-down thread is registered for the disconnect event under the same lock (the corrected loop body, see Findings) |
| WaitPool.DrainThenDrop | src/lib.rs:55-67 | in any valid pool with no thread yet waiting, a corrected pass that does not finish followed by the drop of any outstanding handle wakes exactly the tearing-down thread and leaves one handle fewer |
| WaitPool.DrainThenExtract | src/lib.rs:130-141 | the same as `DrainThenDrop` with the handle's element extracted instead, which also returns that element |
| WaitPool.CountCoversQueue | src/lib.rs:94-99 | in every state the invariant allows, count >= the queue length, and count is 0 iff nothing is queued or checked out |
| WaitPool.Pooled.constructor | src/lib.rs:43-46 | a new handle is connected to its pool and holds the element |
| WaitPool.Pooled.Disconnect | src/lib.rs:130-141 | count drops by one, the queue is untouched, the notifier is notified iff teardown has begun, and the handle becomes disconnected |
| WaitPool.Pooled.IntoInner | src/lib.rs:124-128 | returns the held element, decrements count once, leaves the handle disconnected and empty; its later drop changes nothing |
| WaitPool.Pooled.Drop | src/lib.rs:169-176 | a connected handle gives its element back through `Back` and detaches; a disconnected handle changes nothing |
| PoolScenarios.FifoCheckout | src/lib.rs:43-52 | elements deposited a, b, c are checked out as a, b, c |
| PoolScenarios.AutoReturn | src/lib.rs:169-176 | dropping a handle puts that very element back behind the queued ones, so it is checked out again after them |
| PoolScenarios.ExtractionIsPermanent | src/lib.rs:124-141 | an extracted element is never handed out again, and once every deposited element is extracted a checkout fails as if nothing had been deposited |
| PoolScenarios.ShutdownDrainsQueued | src/lib.rs:70-82 | with nothing checked out, teardown's first pass finishes and count becomes 0 |
| PoolScenarios.ShutdownWaitsForHandle | src/lib.rs:55-88 | with one element checked out the first pass does not finish; dropping the handle wakes exactly the tearing-down thread, and the next pass finishes. It runs the corrected `DrainOrRegister`, whose outcome is that of the loop as written when the thread registers before the handle is dropped |
| PoolScenarios.ShutdownAfterExtraction | src/lib.rs:130-141 | extracting the last checked-out element during teardown wakes the tearing-down thread, and the next pass finishes |
| PoolScenarios.LostWakeup | src/lib.rs:84-86 | as written, a handle dropped between the drain pass and the registration leaves the tearing-down thread registered and never woken, with no live element left |
| PoolScenarios.WakeOrder | src/notifier.rs:51-61 | two waiters registered for the same event are returned by successive notifications in registration order, then nothing |

## Left out

- The spin lock (src/spin_lock.rs): its only job is mutual exclusion, which the model assumes by making each critical section one atomic method.
- Parking and unparking threads (`thread::park`, `Thread::unpark`): scheduler calls. The model records `awake` in the notifier's `woken` log, and `Wait` stops where the thread would park. The calling thread's identity is a parameter.
- The busy-retry loop of `Pool::get` and the blocking repetition of the teardown loop: both wait without bound on other threads. The model has their single steps (`TryGet`, `DrainStep`).
- `Arc` sharing of the notifier: the pool and the tearing-down thread share one `Notifier` object by reference.
- Raw back-pointers, the `unsafe impl Send/Sync` blocks and the forced `&mut` of `Pooled::source`: they are replaced by `Link`. The `assert_ne!` in `source` cannot fire, because only connected handles detach. `IntoInner` consumes its handle, so in the model it requires a connected one.
- The `Debug` impl and the `Deref`/`DerefMut` accessors: they only expose the held element, read in the model as the field `elem`.
- The `with_capacity` pre-allocation: it has no observable effect.
- Destructors of discarded elements (`drop(elem)` in `back`): the element is simply no longer referenced.
- The panic of `try_get` is modelled as the error result `GetBeforePooled`. The spin-lock guard is released while the panic unwinds, and the state is left as it was, which the model returns unchanged.
- A dropped handle no longer exists in Rust. The model keeps the object and marks it `Disconnected` with no element.
- WaitPool.Pool.Deposit: `count` is an unbounded `nat`. The overflow of the `usize` counter past 2^64 - 1 live elements is not modelled.
- The demo driver examples/basic.rs is not part of this model.

## Findings

| source | as written | input that shows it | evidently intended | confidence | as-written member | corrected member |
|---|---|---|---|---|---|---|
| src/lib.rs:84-86 | the teardown loop releases the pool's lock before `Waiter::wait` registers the thread, so a handle returned in between notifies an empty registry | one element checked out; teardown's pass sees count 1 and releases the lock; the handle is dropped before the thread registers; the thread then registers and parks with count 0 and no live handle left to wake it (only a spurious wake-up ends the wait) | the returning handle wakes the tearing-down thread, so teardown finishes once the last handle detaches | high for the interleaving, not executed | PoolScenarios.LostWakeup | WaitPool.Pool.DrainOrRegister |
