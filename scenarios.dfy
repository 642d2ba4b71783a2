/**
 * Whole-pool behaviours, each stated as the outcome of a fixed sequence of locked steps on a
 * fresh pool. Steps that other threads take in the source (dropping a handle while the
 * owner tears the pool down) appear here in one of the orders the lock allows.
 */
module PoolScenarios {
  import opened Wrappers
  import opened Notify
  import opened WaitPool

  /** Elements deposited as a, b, c come out of three checkouts as a, b, c. */
  method FifoCheckout<T>(a: T, b: T, c: T) returns (x: T, y: T, z: T)
    ensures [x, y, z] == [a, b, c]
  {
    var pool := new Pool();
    pool.Deposit(a);
    pool.Deposit(b);
    pool.Deposit(c);
    var r1 := pool.TryGet();
    var r2 := pool.TryGet();
    var r3 := pool.TryGet();
    x, y, z := r1.value.value.elem.value, r2.value.value.elem.value, r3.value.value.elem.value;
  }

  /** A handle dropped without extraction puts its very element back, behind those still queued. */
  method AutoReturn<T>(a: T, b: T) returns (x: T, y: T, available: nat)
    ensures x == b && y == a && available == 0
  {
    var pool := new Pool();
    pool.Deposit(a);
    pool.Deposit(b);
    var r := pool.TryGet();
    var h := r.value.value;
    h.Drop();
    var r1 := pool.TryGet();
    var r2 := pool.TryGet();
    x, y := r1.value.value.elem.value, r2.value.value.elem.value;
    available := |pool.pooled|;
  }

  /**
   * An extracted element leaves the pool for good: it is not handed out again, and once every
   * deposited element has been extracted a checkout fails as if nothing had ever been deposited.
   */
  method ExtractionIsPermanent<T>(a: T, b: T) returns (e1: T, e2: T, meanwhile: bool, panicked: bool)
    ensures e1 == a && e2 == b
    ensures !meanwhile
    ensures panicked
  {
    var pool := new Pool();
    pool.Deposit(a);
    pool.Deposit(b);
    var r1 := pool.TryGet();
    e1 := r1.value.value.IntoInner();
    var r2 := pool.TryGet();
    var h2 := r2.value.value;
    var r3 := pool.TryGet();
    meanwhile := r3.Success? && r3.value.Some?;
    e2 := h2.IntoInner();
    var r4 := pool.TryGet();
    panicked := r4.Failure?;
  }

  /** With nothing checked out, teardown discards the queue and finishes in its first pass. */
  method ShutdownDrainsQueued<T>(a: T, b: T) returns (done: bool, live: nat)
    ensures done && live == 0
  {
    var pool := new Pool();
    pool.Deposit(a);
    pool.Deposit(b);
    done := pool.DrainStep();
    live := pool.count;
  }

  /**
   * Teardown with one element checked out: the first pass does not finish and registers the
   * tearing-down thread; dropping the handle discards the element and wakes exactly that
   * thread; the next pass finishes. The pass is the corrected `DrainOrRegister`; its outcome is
   * that of the loop as written in the order where the thread registers before the handle drops.
   */
  method ShutdownWaitsForHandle<T>(a: T, me: Waiter) returns (first: bool, woken: seq<Waiter>, second: bool)
    ensures !first && woken == [me] && second
  {
    var pool := new Pool();
    pool.Deposit(a);
    var r := pool.TryGet();
    var h := r.value.value;
    first := pool.DrainOrRegister(me);
    h.Drop();
    woken := pool.notifier.woken;
    second := pool.DrainOrRegister(me);
  }

  /** Extracting the last checked-out element during teardown also wakes the tearing-down thread. */
  method ShutdownAfterExtraction<T>(a: T, me: Waiter) returns (e: T, woken: seq<Waiter>, second: bool)
    ensures e == a && woken == [me] && second
  {
    var pool := new Pool();
    pool.Deposit(a);
    var r := pool.TryGet();
    var h := r.value.value;
    var first := pool.DrainOrRegister(me);
    e := h.IntoInner();
    woken := pool.notifier.woken;
    second := pool.DrainOrRegister(me);
  }

  /**
   * The teardown loop as written: the pass releases the pool's lock and only then does the
   * thread register with `Waiter::wait`. A handle dropped by another thread in between
   * notifies an empty registry, so the tearing-down thread ends up registered, never woken,
   * with no live element left whose detaching could wake it.
   */
  method LostWakeup<T>(a: T, me: Waiter) returns (first: bool, waiting: seq<(Waiter, Event)>, woken: seq<Waiter>, live: nat)
    ensures !first
    ensures waiting == [(me, OneElemDisconnected)] && woken == [] && live == 0
  {
    var pool := new Pool();
    pool.Deposit(a);
    var r := pool.TryGet();
    var h := r.value.value;
    first := pool.DrainStep();
    h.Drop();
    Wait(pool.notifier, me, OneElemDisconnected);
    waiting, woken, live := pool.notifier.waiters, pool.notifier.woken, pool.count;
  }

  /** Two waiters registered for the same event are woken and returned in registration order. */
  method WakeOrder(w1: Waiter, w2: Waiter) returns (r1: Option<Waiter>, r2: Option<Waiter>, r3: Option<Waiter>)
    ensures r1 == Some(w1) && r2 == Some(w2) && r3 == None
  {
    var n := new Notifier();
    n.Regist(w1, OneElemDisconnected);
    n.Regist(w2, OneElemDisconnected);
    r1 := n.NotifyOne(OneElemDisconnected);
    r2 := n.NotifyOne(OneElemDisconnected);
    r3 := n.NotifyOne(OneElemDisconnected);
  }
}
