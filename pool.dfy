/**
 * The object pool of src/lib.rs. Every operation below is one critical section of the
 * pool's spin lock, so each is modelled as one atomic step on the pool's state.
 *
 * A checkout handle (`Pooled`) is either connected to the pool it came from or
 * disconnected; the raw back-pointer and its null sentinel of the source become `Link`.
 * The pool keeps a ghost set of its connected handles, which makes the accounting
 * invariant `count == |pooled| + outstanding handles` statable.
 */
module WaitPool {
  import opened Wrappers
  import opened Notify

  /** The panic "get before pooled any element", modelled as an error result. */
  datatype GetError = GetBeforePooled

  /** Where a checkout handle points: its pool, or nowhere once it has detached. */
  datatype Link<T> = Connected(pool: Pool<T>) | Disconnected

  class Pool<T> {
    /** Available elements, head first (the `VecDeque`). */
    var pooled: seq<T>
    /** Set once teardown begins; never cleared. */
    var destroyStart: bool
    /** Live elements, queued or checked out (`usize`, see README). */
    var count: nat
    /** The pool's notifier, shared with the tearing-down thread. */
    const notifier: Notifier
    /** The handles currently checked out of this pool and not yet detached. */
    ghost var handles: set<Pooled<T>>

    /** Every live element is either queued or held by exactly one connected handle of this pool. */
    ghost predicate Valid()
      reads this, handles
    {
      count == |pooled| + |handles| &&
      forall h | h in handles :: h.link == Connected(this) && h.elem.Some?
    }

    /** `Pool::new`: an empty pool that is not shutting down. */
    constructor ()
      ensures Valid() && fresh(notifier)
      ensures pooled == [] && count == 0 && !destroyStart && handles == {}
      ensures notifier.waiters == [] && notifier.woken == []
    {
      pooled := [];
      destroyStart := false;
      count := 0;
      notifier := new Notifier();
      handles := {};
    }

    /** `Pool::with_capacity`: the capacity only pre-allocates, so the state is that of `new`. */
    constructor WithCapacity(n: nat)
      ensures Valid() && fresh(notifier)
      ensures pooled == [] && count == 0 && !destroyStart && handles == {}
      ensures notifier.waiters == [] && notifier.woken == []
    {
      pooled := [];
      destroyStart := false;
      count := 0;
      notifier := new Notifier();
      handles := {};
    }

    /** `Pool::pool`: one more live element, queued at the tail. */
    method Deposit(elem: T)
      requires Valid()
      modifies this
      ensures Valid()
      ensures count == old(count) + 1 && pooled == old(pooled) + [elem]
      ensures destroyStart == old(destroyStart) && handles == old(handles)
    {
      count := count + 1;
      pooled := pooled + [elem];
    }

    /**
     * `Pool::try_get`: fails when no element is live; otherwise hands out the head of the
     * queue in a new connected handle, or nothing when every live element is checked out.
     */
    method TryGet() returns (r: Result<Option<Pooled<T>>, GetError>)
      requires Valid()
      modifies this
      ensures Valid()
      ensures destroyStart == old(destroyStart) && count == old(count)
      ensures old(count) == 0 ==>
        r == Failure(GetBeforePooled) && pooled == old(pooled) && handles == old(handles)
      ensures old(count) != 0 && old(pooled) == [] ==>
        r == Success(None) && pooled == old(pooled) && handles == old(handles)
      ensures old(count) != 0 && old(pooled) != [] ==>
        r.Success? && r.value.Some? && fresh(r.value.value) &&
        r.value.value.link == Connected(this) && r.value.value.elem == Some(old(pooled)[0]) &&
        pooled == old(pooled)[1..] && handles == old(handles) + {r.value.value}
    {
      if count == 0 {
        return Failure(GetBeforePooled);
      }
      if pooled == [] {
        return Success(None);
      }
      var elem := pooled[0];
      pooled := pooled[1..];
      var h := new Pooled(this, elem);
      handles := handles + {h};
      r := Success(Some(h));
    }

    /**
     * `Pool::back`, run when the connected handle `h` is dropped with `elem`: while the pool
     * is live the element goes back to the tail of the queue; once teardown has begun it is
     * discarded, `count` drops by one and one waiter for a disconnect is woken.
     */
    method Back(elem: T, ghost h: Pooled<T>)
      requires Valid() && h in handles
      modifies this, notifier
      ensures Valid()
      ensures handles == old(handles) - {h} && destroyStart == old(destroyStart)
      ensures old(destroyStart) ==>
        count == old(count) - 1 && pooled == old(pooled) && NotifiedOnce(notifier, OneElemDisconnected)
      ensures !old(destroyStart) ==>
        count == old(count) && pooled == old(pooled) + [elem] && unchanged(notifier)
    {
      if destroyStart {
        count := count - 1;
        var _ := notifier.NotifyOne(OneElemDisconnected);
        handles := handles - {h};
        return;
      }
      pooled := pooled + [elem];
      handles := handles - {h};
    }

    /**
     * One locked pass of the loop in `Drop for Pool`: mark teardown, discard every queued
     * element, and report whether no live element remains. When it does not, the source
     * releases the lock and only then registers on the notifier (see `DrainOrRegister`).
     */
    method DrainStep() returns (done: bool)
      requires Valid()
      modifies this
      ensures Valid()
      ensures destroyStart && pooled == [] && handles == old(handles)
      ensures count == old(count) - |old(pooled)|
      ensures done <==> count == 0
      ensures done <==> handles == {}
    {
      destroyStart := true;
      var n := |pooled|;
      pooled := [];
      count := count - n;
      done := count == 0;
    }

    /**
     * The drain pass with the registration of the tearing-down thread `me` moved under the
     * same lock, so that a handle detaching right after the pass finds `me` to wake.
     */
    method DrainOrRegister(me: Waiter) returns (done: bool)
      requires Valid()
      modifies this, notifier
      ensures Valid()
      ensures destroyStart && pooled == [] && handles == old(handles)
      ensures count == old(count) - |old(pooled)|
      ensures done <==> count == 0
      ensures done <==> handles == {}
      ensures done ==> unchanged(notifier)
      ensures !done ==>
        notifier.waiters == old(notifier.waiters) + [(me, OneElemDisconnected)] &&
        notifier.woken == old(notifier.woken)
    {
      done := DrainStep();
      if !done {
        notifier.Regist(me, OneElemDisconnected);
      }
    }
  }

  /** The accounting invariant: the queue never holds more than the live elements, and no element is live exactly when none is queued or checked out. */
  lemma CountCoversQueue<T>(p: Pool<T>)
    requires p.Valid()
    ensures p.count >= |p.pooled|
    ensures p.count == 0 <==> p.pooled == [] && p.handles == {}
  {
  }

  /** A checkout handle: holds one element while connected to its pool. */
  class Pooled<T> {
    var link: Link<T>
    var elem: Option<T>

    constructor (pool: Pool<T>, elem: T)
      ensures link == Connected(pool) && this.elem == Some(elem)
    {
      link := Connected(pool);
      this.elem := Some(elem);
    }

    /** The objects that detaching this handle may change. */
    function Targets(): set<object>
      reads this
    {
      match link
      case Connected(p) => {p, p.notifier}
      case Disconnected => {}
    }

    /**
     * `Pooled::disconnect`: under the pool's lock one live element is gone, and the
     * tearing-down thread is notified if teardown has begun; then the handle detaches.
     */
    method Disconnect()
      requires link.Connected? && link.pool.Valid() && this in link.pool.handles
      modifies this, link.pool, link.pool.notifier
      ensures link == Disconnected && elem == old(elem)
      ensures var p := old(link.pool);
        p.Valid() && p.handles == old(p.handles) - {this} &&
        p.count == old(p.count) - 1 && p.pooled == old(p.pooled) &&
        p.destroyStart == old(p.destroyStart) &&
        (old(p.destroyStart) ==> NotifiedOnce(p.notifier, OneElemDisconnected)) &&
        (!old(p.destroyStart) ==> unchanged(p.notifier))
    {
      var p := link.pool;
      p.count := p.count - 1;
      p.handles := p.handles - {this};
      if p.destroyStart {
        var _ := p.notifier.NotifyOne(OneElemDisconnected);
      }
      link := Disconnected;
    }

    /**
     * `Pooled::into_inner`: detach from the pool and hand the element to the caller. The
     * consumed handle is then dropped, and being disconnected its drop returns nothing.
     */
    method IntoInner() returns (e: T)
      requires link.Connected? && link.pool.Valid() && this in link.pool.handles
      modifies this, link.pool, link.pool.notifier
      ensures Some(e) == old(elem)
      ensures link == Disconnected && elem == None
      ensures var p := old(link.pool);
        p.Valid() && p.handles == old(p.handles) - {this} &&
        p.count == old(p.count) - 1 && p.pooled == old(p.pooled) &&
        p.destroyStart == old(p.destroyStart) &&
        (old(p.destroyStart) ==> NotifiedOnce(p.notifier, OneElemDisconnected)) &&
        (!old(p.destroyStart) ==> unchanged(p.notifier))
    {
      Disconnect();
      e := elem.value;
      elem := None;
      Drop();
    }

    /**
     * `Drop for Pooled`: a connected handle gives its element back through `Pool::back`;
     * a disconnected one does nothing. Afterwards the handle is gone, modelled as disconnected.
     */
    method Drop()
      requires link.Connected? ==> link.pool.Valid() && this in link.pool.handles
      modifies this, Targets()
      ensures old(link).Disconnected? ==> link == old(link) && elem == old(elem)
      ensures old(link).Connected? ==> link == Disconnected && elem == None
      ensures old(link).Connected? ==> var p := old(link).pool;
        p.Valid() && p.handles == old(p.handles) - {this} &&
        p.destroyStart == old(p.destroyStart) &&
        (old(p.destroyStart) ==>
          p.count == old(p.count) - 1 && p.pooled == old(p.pooled) &&
          NotifiedOnce(p.notifier, OneElemDisconnected)) &&
        (!old(p.destroyStart) ==>
          p.count == old(p.count) && p.pooled == old(p.pooled) + [old(elem).value] &&
          unchanged(p.notifier))
    {
      match link
      case Connected(p) =>
        var e := elem.value;
        p.Back(e, this);
        elem := None;
        link := Disconnected;
      case Disconnected =>
    }
  }

  /**
   * With the registration under the lock, the handle that detaches after a pass which did
   * not finish wakes exactly the tearing-down thread, whatever the pool's state: here the
   * handle is dropped.
   */
  method DrainThenDrop<T>(p: Pool<T>, h: Pooled<T>, me: Waiter) returns (done: bool)
    requires p.Valid() && h in p.handles
    requires forall j | 0 <= j < |p.notifier.waiters| :: p.notifier.waiters[j].1 != OneElemDisconnected
    modifies p, p.notifier, h
    ensures !done
    ensures p.Valid() && p.destroyStart && p.pooled == []
    ensures p.handles == old(p.handles) - {h} && p.count == |p.handles|
    ensures p.notifier.woken == old(p.notifier.woken) + [me]
    ensures p.notifier.waiters == old(p.notifier.waiters)
  {
    ghost var before := p.notifier.waiters;
    done := p.DrainOrRegister(me);
    PositionAfterRegist(before, (me, OneElemDisconnected), OneElemDisconnected);
    h.Drop();
  }

  /** As `DrainThenDrop`, with the handle's element extracted instead. */
  method DrainThenExtract<T>(p: Pool<T>, h: Pooled<T>, me: Waiter) returns (done: bool, e: T)
    requires p.Valid() && h in p.handles
    requires forall j | 0 <= j < |p.notifier.waiters| :: p.notifier.waiters[j].1 != OneElemDisconnected
    modifies p, p.notifier, h
    ensures !done && Some(e) == old(h.elem)
    ensures p.Valid() && p.destroyStart && p.pooled == []
    ensures p.handles == old(p.handles) - {h} && p.count == |p.handles|
    ensures p.notifier.woken == old(p.notifier.woken) + [me]
    ensures p.notifier.waiters == old(p.notifier.waiters)
  {
    ghost var before := p.notifier.waiters;
    done := p.DrainOrRegister(me);
    PositionAfterRegist(before, (me, OneElemDisconnected), OneElemDisconnected);
    e := h.IntoInner();
  }
}
