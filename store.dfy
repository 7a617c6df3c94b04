/**
 * The store the binding talks to, as far as the binding relies on it: a
 * state record, a set of listeners with subscribe and unsubscribe, and a
 * notification that reaches every subscribed listener. How `setState` merges
 * a patch and what `action` does belong to the store library and are
 * parameters here.
 */
module Unistore {
  import opened Values

  /** A listener function, identified by its closure: one per component or hook instance. */
  type ListenerId = nat

  /** What happens to a store's listener set, in order. */
  datatype Event = Subscribed(l: ListenerId) | Unsubscribed(l: ListenerId) | Notified

  /** The listeners subscribed after `trace`. */
  function Active(trace: seq<Event>): set<ListenerId>
    decreases |trace|
  {
    if trace == [] then {}
    else
      var before := Active(trace[..|trace| - 1]);
      match trace[|trace| - 1]
      case Subscribed(l) => before + {l}
      case Unsubscribed(l) => before - {l}
      case Notified => before
  }

  /** How many times `l` has been called along `trace`: once per notification while it is subscribed. */
  function Calls(trace: seq<Event>, l: ListenerId): nat
    decreases |trace|
  {
    if trace == [] then 0
    else
      var before := trace[..|trace| - 1];
      Calls(before, l) + (if trace[|trace| - 1] == Notified && l in Active(before) then 1 else 0)
  }

  /** The number of notifications in `trace`. */
  function Notifications(trace: seq<Event>): nat
    decreases |trace|
  {
    if trace == [] then 0
    else Notifications(trace[..|trace| - 1]) + (if trace[|trace| - 1] == Notified then 1 else 0)
  }

  /** Once unsubscribed, a listener stays out until it is subscribed again. */
  lemma {:induction false} StaysUnsubscribed(trace: seq<Event>, rest: seq<Event>, l: ListenerId)
    requires Subscribed(l) !in rest
    ensures l !in Active(trace + [Unsubscribed(l)] + rest)
    decreases |rest|
  {
    var t := trace + [Unsubscribed(l)] + rest;
    if rest == [] {
      assert t[..|t| - 1] == trace;
    } else {
      var rest' := rest[..|rest| - 1];
      assert t[..|t| - 1] == trace + [Unsubscribed(l)] + rest';
      assert rest[|rest| - 1] in rest;
      StaysUnsubscribed(trace, rest', l);
    }
  }

  /** Once subscribed, a listener stays in until it is unsubscribed. */
  lemma {:induction false} StaysSubscribed(trace: seq<Event>, rest: seq<Event>, l: ListenerId)
    requires Unsubscribed(l) !in rest
    ensures l in Active(trace + [Subscribed(l)] + rest)
    decreases |rest|
  {
    var t := trace + [Subscribed(l)] + rest;
    if rest == [] {
      assert t[..|t| - 1] == trace;
    } else {
      var rest' := rest[..|rest| - 1];
      assert t[..|t| - 1] == trace + [Subscribed(l)] + rest';
      assert rest[|rest| - 1] in rest;
      StaysSubscribed(trace, rest', l);
    }
  }

  /**
   * Teardown is total: after `l` is unsubscribed, and as long as it is not
   * subscribed again, no notification reaches it.
   */
  lemma {:induction false} NoCallsAfterUnsubscribe(trace: seq<Event>, rest: seq<Event>, l: ListenerId)
    requires Subscribed(l) !in rest
    ensures Calls(trace + [Unsubscribed(l)] + rest, l) == Calls(trace, l)
    decreases |rest|
  {
    var t := trace + [Unsubscribed(l)] + rest;
    if rest == [] {
      assert t[..|t| - 1] == trace;
    } else {
      var rest' := rest[..|rest| - 1];
      assert t[..|t| - 1] == trace + [Unsubscribed(l)] + rest';
      assert rest[|rest| - 1] in rest;
      StaysUnsubscribed(trace, rest', l);
      NoCallsAfterUnsubscribe(trace, rest', l);
    }
  }

  /** While `l` stays subscribed, every notification calls it exactly once. */
  lemma {:induction false} OneCallPerNotification(trace: seq<Event>, rest: seq<Event>, l: ListenerId)
    requires Unsubscribed(l) !in rest
    ensures Calls(trace + [Subscribed(l)] + rest, l) == Calls(trace, l) + Notifications(rest)
    decreases |rest|
  {
    var t := trace + [Subscribed(l)] + rest;
    if rest == [] {
      assert t[..|t| - 1] == trace;
    } else {
      var rest' := rest[..|rest| - 1];
      assert t[..|t| - 1] == trace + [Subscribed(l)] + rest';
      assert rest[|rest| - 1] in rest;
      StaysSubscribed(trace, rest', l);
      OneCallPerNotification(trace, rest', l);
    }
  }

  /**
   * A store. `addr` is its identity as a JavaScript value, `bind` its
   * `action` method. `trace` records every change to the listener set and
   * every notification, and `listeners` is always what that trace leaves
   * subscribed.
   */
  class Store {
    const addr: nat
    const bind: Value -> Value
    var state: Record
    var listeners: set<ListenerId>
    ghost var trace: seq<Event>

    ghost predicate Valid()
      reads this
    {
      listeners == Active(trace)
    }

    constructor (addr: nat, bind: Value -> Value, initial: Record)
      ensures Valid()
      ensures this.addr == addr && this.bind == bind
      ensures state == initial && listeners == {} && trace == []
    {
      this.addr := addr;
      this.bind := bind;
      state := initial;
      listeners := {};
      trace := [];
    }

    /** `store.getState()`. */
    function GetState(): (s: Record)
      reads this
      ensures s == state
    {
      state
    }

    /** `store.subscribe(l)`. */
    method Subscribe(l: ListenerId)
      requires Valid()
      modifies this
      ensures Valid()
      ensures listeners == old(listeners) + {l} && trace == old(trace) + [Subscribed(l)]
      ensures state == old(state)
    {
      listeners := listeners + {l};
      trace := trace + [Subscribed(l)];
      assert trace[..|trace| - 1] == old(trace);
    }

    /** `store.unsubscribe(l)`. */
    method Unsubscribe(l: ListenerId)
      requires Valid()
      modifies this
      ensures Valid()
      ensures listeners == old(listeners) - {l} && trace == old(trace) + [Unsubscribed(l)]
      ensures state == old(state)
    {
      listeners := listeners - {l};
      trace := trace + [Unsubscribed(l)];
      assert trace[..|trace| - 1] == old(trace);
    }

    /**
     * A state change: the store takes the merged state `next` and calls
     * every subscribed listener. The listeners reached are returned; each
     * one's call count goes up by one and no other's does.
     */
    method Publish(next: Record) returns (reached: set<ListenerId>)
      requires Valid()
      modifies this
      ensures Valid()
      ensures state == next && listeners == old(listeners) && trace == old(trace) + [Notified]
      ensures reached == listeners
      ensures forall l :: Calls(trace, l) == Calls(old(trace), l) + (if l in reached then 1 else 0)
    {
      state := next;
      trace := trace + [Notified];
      assert trace[..|trace| - 1] == old(trace);
      reached := listeners;
    }
  }

  /** The JavaScript value of a store reference: the object, or `null` when there is none. */
  function StoreValue(store: Store?): (v: Value)
    ensures store == null ==> v == Null
    ensures store != null ==> v == Obj(store.addr)
  {
    if store == null then Null else Obj(store.addr)
  }
}
