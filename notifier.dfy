/**
 * The notifier of src/notifier.rs: an ordered registry of (waiter, event) pairs.
 * Registering appends a pair; notifying one wakes and removes the first pair whose
 * event matches. Parking and unparking threads are scheduler calls and are not modelled;
 * waking is recorded in the registry's `woken` log instead.
 */
module Notify {
  import opened Wrappers

  /** The kinds of notification. The pool uses exactly one. */
  datatype Event = OneElemDisconnected

  /** Identity of a thread, opaque apart from equality. */
  type ThreadId = nat

  /** A parked thread. Two waiters are equal exactly when their thread ids are. */
  datatype Waiter = Waiter(thread: ThreadId)

  lemma WaiterEqualityIsThreadIdentity(a: Waiter, b: Waiter)
    ensures a == b <==> a.thread == b.thread
  {
  }

  // The registry operations are stated for any waiter type W and any event type E:
  // with the single event kind above every entry would match, and first-match would say nothing.

  /** The index of the first entry registered for `event` (`iter().position`), if any. */
  function Position<W, E(==)>(ws: seq<(W, E)>, event: E): (r: Option<nat>)
    ensures r.None? <==> forall j | 0 <= j < |ws| :: ws[j].1 != event
    ensures r.Some? ==> r.value < |ws| && ws[r.value].1 == event
    ensures r.Some? ==> forall j | 0 <= j < r.value :: ws[j].1 != event
  {
    if ws == [] then None
    else if ws[0].1 == event then Some(0)
    else match Position(ws[1..], event)
      case None => None
      case Some(i) => Some(i + 1)
  }

  /** `s` without its entry at index `i`, the others kept in their order (`Vec::remove`). */
  function RemoveAt<X>(s: seq<X>, i: nat): (r: seq<X>)
    requires i < |s|
    ensures |r| == |s| - 1
    ensures forall j | 0 <= j < i :: r[j] == s[j]
    ensures forall j | i <= j < |r| :: r[j] == s[j + 1]
    ensures multiset(r) + multiset{s[i]} == multiset(s)
  {
    assert s == s[..i] + [s[i]] + s[i + 1..];
    s[..i] + s[i + 1..]
  }

  /** What one `notify_one(event)` does to the registry: the waiter it wakes and the registry left behind. */
  function Take<W, E(==)>(ws: seq<(W, E)>, event: E): (r: (seq<(W, E)>, Option<W>))
    ensures |r.0| == if r.1.Some? then |ws| - 1 else |ws|
  {
    match Position(ws, event)
    case None => (ws, None)
    case Some(i) => (RemoveAt(ws, i), Some(ws[i].0))
  }

  /** Nothing is woken, and the registry is left as it was, exactly when no entry waits for `event`. */
  lemma TakeNothingIff<W, E>(ws: seq<(W, E)>, event: E)
    ensures Take(ws, event).1.None? <==> forall j | 0 <= j < |ws| :: ws[j].1 != event
    ensures Take(ws, event).1.None? <==> Take(ws, event).0 == ws
  {
  }

  /** The woken waiter is the one at the lowest index registered for `event`, and exactly that entry is removed. */
  lemma TakeFirstMatch<W, E>(ws: seq<(W, E)>, event: E, i: nat)
    requires i < |ws| && ws[i].1 == event
    requires forall j | 0 <= j < i :: ws[j].1 != event
    ensures Take(ws, event) == (RemoveAt(ws, i), Some(ws[i].0))
  {
  }

  /** A successful notification removes exactly one entry, the one for the woken waiter and `event`. */
  lemma TakeRemovesOne<W, E>(ws: seq<(W, E)>, event: E)
    ensures var (rest, woken) := Take(ws, event);
      woken.Some? ==>
        |rest| == |ws| - 1 && multiset(rest) + multiset{(woken.value, event)} == multiset(ws)
  {
  }

  /** Registering adds one entry at the end and disturbs none before it. */
  lemma {:induction false} PositionAfterRegist<W, E>(ws: seq<(W, E)>, entry: (W, E), event: E)
    ensures Position(ws + [entry], event) ==
      if Position(ws, event).Some? then Position(ws, event)
      else if entry.1 == event then Some(|ws|)
      else None
  {
    if ws != [] {
      assert (ws + [entry])[1..] == ws[1..] + [entry];
      PositionAfterRegist(ws[1..], entry, event);
    }
  }

  /** The waiters registered for `event`, in order of registration. */
  function Matching<W, E(==)>(ws: seq<(W, E)>, event: E): (r: seq<W>)
    ensures |r| <= |ws|
  {
    if ws == [] then []
    else (if ws[0].1 == event then [ws[0].0] else []) + Matching(ws[1..], event)
  }

  /** Registering `w` for `e` adds `w` at the end of the waiters for `e`, and for no other event. */
  lemma {:induction false} MatchingAfterRegist<W, E>(ws: seq<(W, E)>, w: W, e: E, event: E)
    ensures Matching(ws + [(w, e)], event) == Matching(ws, event) + (if e == event then [w] else [])
  {
    if ws == [] {
      assert [(w, e)][1..] == [];
    } else {
      assert (ws + [(w, e)])[1..] == ws[1..] + [(w, e)];
      MatchingAfterRegist(ws[1..], w, e, event);
    }
  }

  /** A notification passes over a first entry registered for another event. */
  lemma TakeSkipsHead<W, E>(ws: seq<(W, E)>, event: E)
    requires ws != [] && ws[0].1 != event
    ensures Take(ws, event).1 == Take(ws[1..], event).1
    ensures Take(ws, event).0 == [ws[0]] + Take(ws[1..], event).0
  {
  }

  /** First registered, first woken, in general: a notification wakes the oldest waiter for `event`
      (nothing when there is none) and leaves the remaining waiters for it in their order. */
  lemma {:induction false} TakeWakesOldest<W, E>(ws: seq<(W, E)>, event: E)
    ensures Take(ws, event).1 ==
      (if Matching(ws, event) == [] then None else Some(Matching(ws, event)[0]))
    ensures Matching(Take(ws, event).0, event) ==
      (if Matching(ws, event) == [] then [] else Matching(ws, event)[1..])
  {
    if ws == [] {
    } else if ws[0].1 == event {
      assert Position(ws, event) == Some(0);
      assert RemoveAt(ws, 0) == ws[1..];
      assert Matching(ws, event) == [ws[0].0] + Matching(ws[1..], event);
    } else {
      TakeWakesOldest(ws[1..], event);
      TakeSkipsHead(ws, event);
      var rest := Take(ws, event).0;
      assert rest[1..] == Take(ws[1..], event).0;
      assert Matching(rest, event) == Matching(Take(ws[1..], event).0, event);
      assert Matching(ws, event) == Matching(ws[1..], event);
    }
  }

  /** First registered, first woken: two waiters registered for the same event, with none before them,
      are woken by two notifications in their order of registration. */
  lemma {:induction false} FifoWakeOrder<W, E>(ws: seq<(W, E)>, w1: W, w2: W, event: E)
    requires forall j | 0 <= j < |ws| :: ws[j].1 != event
    ensures var (rest, first) := Take(ws + [(w1, event)] + [(w2, event)], event);
      first == Some(w1) && rest == ws + [(w2, event)] &&
      Take(rest, event) == (ws, Some(w2))
  {
    var s := ws + [(w1, event)] + [(w2, event)];
    PositionAfterRegist(ws, (w1, event), event);
    PositionAfterRegist(ws + [(w1, event)], (w2, event), event);
    assert RemoveAt(s, |ws|) == ws + [(w2, event)];
    PositionAfterRegist(ws, (w2, event), event);
    assert RemoveAt(ws + [(w2, event)], |ws|) == ws;
  }

  /** The registry of parked waiters shared by the pool and its draining thread. */
  class Notifier {
    /** Registered (waiter, event) pairs, in order of registration. */
    var waiters: seq<(Waiter, Event)>
    /** Every waiter `awake` was called on, in order: the observable effect of unparking. */
    var woken: seq<Waiter>

    constructor ()
      ensures waiters == [] && woken == []
    {
      waiters := [];
      woken := [];
    }

    /** `regist`: append the pair, without removing an earlier registration of the same waiter. */
    method Regist(waiter: Waiter, event: Event)
      modifies this
      ensures waiters == old(waiters) + [(waiter, event)]
      ensures woken == old(woken)
    {
      waiters := waiters + [(waiter, event)];
    }

    /** `notify_one`: wake and remove the first waiter registered for `event`, and return it. */
    method NotifyOne(event: Event) returns (r: Option<Waiter>)
      modifies this
      ensures (waiters, r) == Take(old(waiters), event)
      ensures woken == old(woken) + (if r.Some? then [r.value] else [])
    {
      match Position(waiters, event)
      case None =>
        r := None;
      case Some(i) =>
        woken := woken + [waiters[i].0];
        r := Some(waiters[i].0);
        waiters := RemoveAt(waiters, i);
    }
  }

  /** A notifier notified once for `event` between the old state and now. */
  twostate predicate NotifiedOnce(n: Notifier, event: Event)
    reads n
  {
    var (rest, r) := Take(old(n.waiters), event);
    n.waiters == rest && n.woken == old(n.woken) + (if r.Some? then [r.value] else [])
  }

  /** `Waiter::wait` up to the point where it parks: the calling thread `me` registers for `event`. */
  method Wait(notifier: Notifier, me: Waiter, event: Event)
    modifies notifier
    ensures notifier.waiters == old(notifier.waiters) + [(me, event)]
    ensures notifier.woken == old(notifier.woken)
  {
    notifier.Regist(me, event);
  }
}
