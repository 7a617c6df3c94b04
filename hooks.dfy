/**
 * The hooks of src/index.ts: `useStore`, `useAction` and `useSelector`.
 *
 * React's part is reduced to what the hooks depend on: the context is the
 * store reference a Provider supplies (or `null`), `useRef` is a field,
 * `forceUpdate` is a counter, the effect's subscription and its cleanup are
 * `Mount` and `Unmount`, and a render is a call of `Render`.
 */
module Hooks {
  import opened Values
  import opened Unistore

  /** `useStore()`: the store from the context, or the missing-context error. */
  function UseStore(context: Store?): (r: Result<Store>)
    ensures context == null <==> r == Err(MissingContext)
    ensures context != null <==> r == Ok(context)
    ensures r.Err? ==> Message(r.error) == Some("Missing context. Ensure you've rendered a Provider.")
  {
    if context == null then Err(MissingContext) else Ok(context)
  }

  /** `useAction(action)`: the action bound by the context's store. */
  function UseAction(context: Store?, action: Value): (r: Result<Value>)
    ensures context == null <==> r == Err(MissingContext)
    ensures context != null ==> r == Ok(context.bind(action))
  {
    match UseStore(context)
    case Err(e) => Err(e)
    case Ok(store) => Ok(store.bind(action))
  }

  /** `useSelector`'s optional equality function; its result is judged by truthiness. */
  type EqualityFn = (Value, Value) -> Value

  /**
   * The listener's test: with an equality function, the values differ when
   * `equalityFn(previous, next)` is falsy; without one, when `previous !== next`.
   */
  predicate Changed(equalityFn: Option<EqualityFn>, previous: Value, next: Value): (c: bool)
    ensures equalityFn.None? ==> (c <==> previous != next)
    ensures equalityFn.Some? ==> (c <==> !Truthy(equalityFn.value(previous, next)))
  {
    match equalityFn
    case Some(f) => !Truthy(f(previous, next))
    case None => previous != next
  }

  /** An equality function that computes `===` gives the default behaviour. */
  lemma StrictEqualityFnIsDefault(f: EqualityFn, previous: Value, next: Value)
    requires forall a, b :: f(a, b) == Bool(a == b)
    ensures Changed(Some(f), previous, next) == Changed(None, previous, next)
  {
  }

  /**
   * The equality function is called as (previous, next), not the other way
   * round: an order-sensitive function shows the difference.
   */
  lemma EqualityFnArgumentOrder()
    ensures var takeFirst: EqualityFn := (a, b) => a;
      Changed(Some(takeFirst), Bool(false), Bool(true)) && !Changed(Some(takeFirst), Bool(true), Bool(false))
  {
  }

  // ---------------------------------------------------------------------
  // A hook instance over a run of notifications

  /**
   * One notification followed by the render it may force: the cell and the
   * number of renders it adds.
   */
  datatype Step = Step(cell: Value, renders: nat)

  function NotifyStep(equalityFn: Option<EqualityFn>, selector: Record -> Value, cell: Value, next: Record): Step {
    if Changed(equalityFn, cell, selector(next)) then Step(selector(next), 1) else Step(cell, 0)
  }

  /** Feeding the states `states` to a mounted hook whose cell holds `cell`. */
  function Replay(equalityFn: Option<EqualityFn>, selector: Record -> Value, cell: Value, states: seq<Record>): Step
    decreases |states|
  {
    if states == [] then Step(cell, 0)
    else
      var first := NotifyStep(equalityFn, selector, cell, states[0]);
      var rest := Replay(equalityFn, selector, first.cell, states[1..]);
      Step(rest.cell, first.renders + rest.renders)
  }

  /** An equality function that always answers truthy: the hook never re-renders and its cell never moves. */
  lemma {:induction false} AlwaysEqualNeverRenders(f: EqualityFn, selector: Record -> Value, cell: Value, states: seq<Record>)
    requires forall a, b :: Truthy(f(a, b))
    ensures Replay(Some(f), selector, cell, states) == Step(cell, 0)
    decreases |states|
  {
    if states != [] {
      AlwaysEqualNeverRenders(f, selector, cell, states[1..]);
    }
  }

  /** An equality function that always answers falsy: one re-render per notification, equal values or not. */
  lemma {:induction false} NeverEqualRendersEveryTime(f: EqualityFn, selector: Record -> Value, cell: Value, states: seq<Record>)
    requires forall a, b :: !Truthy(f(a, b))
    ensures Replay(Some(f), selector, cell, states).renders == |states|
    ensures states != [] ==> Replay(Some(f), selector, cell, states).cell == selector(states[|states| - 1])
    decreases |states|
  {
    if states != [] {
      NeverEqualRendersEveryTime(f, selector, selector(states[0]), states[1..]);
      if |states| > 1 {
        assert states[1..][|states[1..]| - 1] == states[|states| - 1];
      }
    }
  }

  /**
   * Without an equality function, changes of state the selector does not see
   * never re-render: the selected value stays `===` its last rendered value.
   */
  lemma {:induction false} IrrelevantChangesNeverRender(selector: Record -> Value, cell: Value, states: seq<Record>)
    requires forall i :: 0 <= i < |states| ==> selector(states[i]) == cell
    ensures Replay(None, selector, cell, states) == Step(cell, 0)
    decreases |states|
  {
    if states != [] {
      assert selector(states[0]) == cell;
      forall i | 0 <= i < |states[1..]| ensures selector(states[1..][i]) == cell {
        assert states[1..][i] == states[i + 1];
      }
      IrrelevantChangesNeverRender(selector, cell, states[1..]);
    }
  }

  /** The selections of a run of states, in order. */
  function Selections(selector: Record -> Value, states: seq<Record>): (vs: seq<Value>)
    ensures |vs| == |states|
    ensures forall i :: 0 <= i < |states| ==> vs[i] == selector(states[i])
  {
    seq(|states|, i requires 0 <= i < |states| => selector(states[i]))
  }

  /** How many values of `vs` are `!==` the value just before them, `first` standing before `vs[0]`. */
  function Changes(first: Value, vs: seq<Value>): (n: nat)
    ensures n <= |vs|
    decreases |vs|
  {
    if vs == [] then 0 else (if vs[0] != first then 1 else 0) + Changes(vs[0], vs[1..])
  }

  /**
   * Without an equality function, a run of notifications re-renders once for
   * every selection that is `!==` the selection before it (the cell, for the
   * first), and the cell ends at the last selection whether or not it moved.
   */
  lemma {:induction false} DefaultRendersOnEveryChange(selector: Record -> Value, cell: Value, states: seq<Record>)
    ensures Replay(None, selector, cell, states).renders == Changes(cell, Selections(selector, states))
    ensures states != [] ==> Replay(None, selector, cell, states).cell == selector(states[|states| - 1])
    decreases |states|
  {
    if states != [] {
      var vs := Selections(selector, states);
      assert NotifyStep(None, selector, cell, states[0]).cell == vs[0];
      DefaultRendersOnEveryChange(selector, vs[0], states[1..]);
      assert Selections(selector, states[1..]) == vs[1..];
      if |states| > 1 {
        assert states[1..][|states[1..]| - 1] == states[|states| - 1];
      }
    }
  }

  /**
   * What `useSelector(selector, equalityFn)` keeps for one component:
   * `current` is `resultRef.current`, `renders` counts the component's
   * renders, `forced` its `forceUpdate` calls, and `comparisons` lists the
   * argument pairs the equality function was called with. `selector` and
   * `equalityFn` are the ones the first render passed: the effect runs once,
   * so its listener keeps them, while every later render writes the cell
   * with the selector that render passes.
   */
  class SelectorHook {
    const id: ListenerId
    const store: Store
    const selector: Record -> Value
    const equalityFn: Option<EqualityFn>
    var current: Value
    var renders: nat
    var forced: nat
    var comparisons: seq<(Value, Value)>

    /** The first render: the cell is written from the store's current state. */
    constructor (id: ListenerId, store: Store, selector: Record -> Value, equalityFn: Option<EqualityFn>)
      ensures this.id == id && this.store == store && this.selector == selector && this.equalityFn == equalityFn
      ensures current == selector(store.state) && renders == 1 && forced == 0 && comparisons == []
    {
      this.id := id;
      this.store := store;
      this.selector := selector;
      this.equalityFn := equalityFn;
      current := selector(store.GetState());
      renders := 1;
      forced := 0;
      comparisons := [];
    }

    /**
     * A render of the owning component, for whatever reason, passing the
     * selector `rendering`: the only writer of the cell.
     */
    method Render(rendering: Record -> Value) returns (value: Value)
      modifies this`current, this`renders
      ensures current == rendering(store.state) && value == current
      ensures renders == old(renders) + 1
    {
      current := rendering(store.GetState());
      renders := renders + 1;
      value := current;
    }

    /**
     * The listener: it recomputes the selection from the notified state,
     * compares it with the cell and forces an update when they differ. It
     * never writes the cell.
     */
    method Listen(next: Record) returns (force: bool)
      modifies this`forced, this`comparisons
      ensures force == Changed(equalityFn, current, selector(next))
      ensures forced == old(forced) + (if force then 1 else 0)
      ensures comparisons == old(comparisons) + (if equalityFn.Some? then [(current, selector(next))] else [])
      ensures current == old(current)
    {
      var result := selector(next);
      match equalityFn {
        case Some(f) =>
          comparisons := comparisons + [(current, result)];
          force := !Truthy(f(current, result));
        case None =>
          force := current != result;
      }
      if force {
        forced := forced + 1;
      }
    }

    /**
     * A notification with the store's new state, followed by the render a
     * forced update brings, which passes the first render's selector again:
     * the cell and the render count move as one step of `Replay`, and
     * `forceUpdate` is called exactly when the listener sees a change.
     */
    method Notify()
      modifies this`current, this`renders, this`forced, this`comparisons
      ensures var step := NotifyStep(equalityFn, selector, old(current), store.state);
        current == step.cell && renders == old(renders) + step.renders
      ensures Changed(equalityFn, old(current), selector(store.state)) ==> current == selector(store.state)
      ensures !Changed(equalityFn, old(current), selector(store.state)) ==> current == old(current)
      ensures forced == old(forced) + (if Changed(equalityFn, old(current), selector(store.state)) then 1 else 0)
      ensures comparisons == old(comparisons) + (if equalityFn.Some? then [(old(current), selector(store.state))] else [])
    {
      var force := Listen(store.state);
      if force {
        var _ := Render(selector);
      }
    }

    /** The effect: subscribe this hook's listener. */
    method Mount()
      requires store.Valid()
      modifies store
      ensures store.Valid()
      ensures store.listeners == old(store.listeners) + {id} && store.state == old(store.state)
      ensures store.trace == old(store.trace) + [Subscribed(id)]
    {
      store.Subscribe(id);
    }

    /** The effect's cleanup: unsubscribe the same listener. */
    method Unmount()
      requires store.Valid()
      modifies store
      ensures store.Valid()
      ensures store.listeners == old(store.listeners) - {id} && store.state == old(store.state)
      ensures store.trace == old(store.trace) + [Unsubscribed(id)]
    {
      store.Unsubscribe(id);
    }
  }

  /** `useSelector` on its first render: the missing-context error, or a hook whose cell holds the selection. */
  method UseSelector(context: Store?, id: ListenerId, selector: Record -> Value, equalityFn: Option<EqualityFn>)
    returns (r: Result<SelectorHook>)
    ensures context == null <==> r == Err(MissingContext)
    ensures context != null <==> r.Ok?
    ensures r.Ok? ==>
      && fresh(r.value) && r.value.store == context && r.value.id == id
      && r.value.selector == selector && r.value.equalityFn == equalityFn
      && r.value.current == selector(context.state) && r.value.renders == 1
      && r.value.forced == 0 && r.value.comparisons == []
  {
    match UseStore(context) {
      case Err(e) =>
        r := Err(e);
      case Ok(store) =>
        var hook := new SelectorHook(id, store, selector, equalityFn);
        r := Ok(hook);
    }
  }
}
