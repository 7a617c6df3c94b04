/**
 * The scenarios of src/react-unistore.test.tsx, driven through the model:
 * a store is created, components are mounted, the store publishes new
 * states, and each reached listener runs. Every method states what the
 * scenario observes.
 */
module Scenarios {
  import opened Values
  import opened Unistore
  import opened Hooks
  import opened Utils
  import opened Connect

  /** A store's `action`: any binding will do for these scenarios. */
  function AnyBind(v: Value): Value {
    v
  }

  /** `state => state.a` */
  function SelectA(state: Record): Value {
    Get(state, "a")
  }

  /** Publish `next` and run the hook's listener if the store reaches it. */
  method PublishToHook(store: Store, hook: SelectorHook, next: Record)
    requires store.Valid() && hook.store == store
    modifies store, hook
    ensures store.Valid() && store.state == next && store.listeners == old(store.listeners)
    ensures hook.id in store.listeners ==>
      var step := NotifyStep(hook.equalityFn, hook.selector, old(hook.current), next);
      && hook.current == step.cell && hook.renders == old(hook.renders) + step.renders
      && hook.forced == old(hook.forced) + (if Changed(hook.equalityFn, old(hook.current), hook.selector(next)) then 1 else 0)
      && hook.comparisons == old(hook.comparisons) + (if hook.equalityFn.Some? then [(old(hook.current), hook.selector(next))] else [])
    ensures hook.id !in store.listeners ==>
      && hook.current == old(hook.current) && hook.renders == old(hook.renders)
      && hook.forced == old(hook.forced) && hook.comparisons == old(hook.comparisons)
  {
    var reached := store.Publish(next);
    if hook.id in reached {
      hook.Notify();
    }
  }

  /**
   * Store `{a: 1, b: 1}`, a hook reading `a`: changing `b` does not re-render,
   * changing `a` re-renders once and yields the new value.
   */
  method SelectorRelevantChangesOnly() returns (rendersAfterB: nat, renders: nat, value: Value)
    ensures rendersAfterB == 1
    ensures renders == 2 && value == Num(2)
  {
    var store := new Store(1, AnyBind, map["a" := Num(1), "b" := Num(1)]);
    var r := UseSelector(store, 7, SelectA, None);
    var hook := r.value;
    hook.Mount();
    PublishToHook(store, hook, map["a" := Num(1), "b" := Num(2)]);
    rendersAfterB := hook.renders;
    PublishToHook(store, hook, map["a" := Num(2), "b" := Num(2)]);
    renders, value := hook.renders, hook.current;
  }

  /**
   * An equality function that always answers `true`: a new object under `a`
   * does not re-render, and the function was called once, as (previous, new).
   */
  method SelectorTruthyEqualityIgnoresChange() returns (renders: nat, comparisons: seq<(Value, Value)>)
    ensures renders == 1 && comparisons == [(Obj(10), Obj(11))]
  {
    var store := new Store(1, AnyBind, map["a" := Obj(10), "b" := Num(1)]);
    var r := UseSelector(store, 7, SelectA, Some((x: Value, y: Value) => Bool(true)));
    var hook := r.value;
    hook.Mount();
    PublishToHook(store, hook, map["a" := Obj(11), "b" := Num(1)]);
    renders, comparisons := hook.renders, hook.comparisons;
  }

  /**
   * An equality function that always answers `false`: a copy of the state
   * holding a new object under `a` re-renders the hook once, and the function
   * was called once, as (previous, new).
   */
  method SelectorFalsyEqualityAlwaysRenders() returns (renders: nat, comparisons: seq<(Value, Value)>)
    ensures renders == 2 && comparisons == [(Obj(10), Obj(11))]
  {
    var store := new Store(1, AnyBind, map["a" := Obj(10), "b" := Num(1)]);
    var r := UseSelector(store, 7, SelectA, Some((x: Value, y: Value) => Bool(false)));
    var hook := r.value;
    hook.Mount();
    PublishToHook(store, hook, map["a" := Obj(11), "b" := Num(1)]);
    renders, comparisons := hook.renders, hook.comparisons;
  }

  /** An always-false equality function re-renders even when `a` still holds the same object. */
  method SelectorFalsyEqualitySameObject() returns (renders: nat, forced: nat)
    ensures renders == 2 && forced == 1
  {
    var store := new Store(1, AnyBind, map["a" := Obj(10), "b" := Num(1)]);
    var r := UseSelector(store, 7, SelectA, Some((x: Value, y: Value) => Bool(false)));
    var hook := r.value;
    hook.Mount();
    PublishToHook(store, hook, map["a" := Obj(10), "b" := Num(2)]);
    renders, forced := hook.renders, hook.forced;
  }

  /** `state => state.b` */
  function SelectB(state: Record): Value {
    Get(state, "b")
  }

  /**
   * A component that passes `state => state.b` on its second render, having
   * passed `state => state.a` on its first: the cell now holds `b`, but the
   * listener still selects `a`, so publishing the very same state forces an
   * update.
   */
  method SelectorChangedBetweenRenders() returns (value: Value, force: bool)
    ensures value == Num(2) && force
  {
    var store := new Store(1, AnyBind, map["a" := Num(1), "b" := Num(2)]);
    var r := UseSelector(store, 7, SelectA, None);
    var hook := r.value;
    hook.Mount();
    value := hook.Render(SelectB);
    var reached := store.Publish(map["a" := Num(1), "b" := Num(2)]);
    force := false;
    if hook.id in reached {
      force := hook.Listen(map["a" := Num(1), "b" := Num(2)]);
    }
  }

  /** After the hook's cleanup, a change of the selected value reaches it no more. */
  method SelectorSilentAfterUnmount() returns (renders: nat, value: Value, subscribed: bool)
    ensures renders == 1 && value == Num(1) && !subscribed
  {
    var store := new Store(1, AnyBind, map["a" := Num(1)]);
    var r := UseSelector(store, 7, SelectA, None);
    var hook := r.value;
    hook.Mount();
    hook.Unmount();
    PublishToHook(store, hook, map["a" := Num(2)]);
    renders, value, subscribed := hook.renders, hook.current, hook.id in store.listeners;
  }

  /** Without a Provider every hook fails with the missing-context error. */
  method HooksWithoutProvider() returns (selector: Result<SelectorHook>, action: Result<Value>)
    ensures selector == Err(MissingContext) && action == Err(MissingContext)
  {
    selector := UseSelector(null, 7, SelectA, None);
    action := UseAction(null, Obj(3));
  }

  /** `state => ({ a: state.a })` */
  function MapA(state: Record, ownProps: Record): Record {
    map["a" := Get(state, "a")]
  }

  /** Publish `next` and run the wrapper's `update` if the store reaches it. */
  method PublishToWrapper(store: Store, w: Wrapper, next: Record)
    requires store.Valid() && w.store == store
    modifies store, w
    ensures store.Valid() && store.state == next && store.listeners == old(store.listeners)
    ensures w.props == old(w.props)
    ensures w.id in store.listeners ==>
      var mapped := Apply(w.mapper, next, w.props);
      (NeedsRender(old(w.state), mapped) ==> w.state == mapped && w.renders == old(w.renders) + 1)
      && (!NeedsRender(old(w.state), mapped) ==> w.state == old(w.state) && w.renders == old(w.renders))
  {
    var reached := store.Publish(next);
    if w.id in reached {
      w.Update();
    }
  }

  /**
   * A mounted wrapper mapping `{a}` with an empty action array, after the
   * store published the same object under `a` and then a new value of `b`.
   */
  method ShallowEqualityPrelude() returns (store: Store, w: Wrapper)
    ensures fresh(store) && fresh(w) && store.Valid() && w.store == store && w.id in store.listeners
    ensures w.mapper == Custom(MapA) && w.props == map[] && w.boundActions == map[]
    ensures w.state == map["a" := Obj(20)] && w.renders == 0
  {
    store := new Store(1, AnyBind, map["a" := Obj(20), "b" := Num(1)]);
    var r := ConnectWrapper(MapperFn(MapA), Some(Table(map[])), store, map[], 8);
    w := r.value;
    assert w.mapper == Custom(MapA) && w.props == map[] && w.boundActions == map[];
    var _ := w.Mount();
    PublishToWrapper(store, w, map["a" := Obj(20), "b" := Num(1)]);
    assert !NeedsRender(map["a" := Obj(20)], map["a" := Obj(20)]);
    assert w.state == map["a" := Obj(20)] && w.renders == 0;
    PublishToWrapper(store, w, map["a" := Obj(20), "b" := Obj(20)]);
  }

  /**
   * The same object under `a` and a change of `b` do not re-render the
   * wrapper; a new object under `a` does, once, and the child then gets
   * exactly `{a}`.
   */
  method ConnectShallowEquality() returns (rendersBefore: nat, renders: nat, childProps: Record)
    ensures rendersBefore == 0
    ensures renders == 1 && childProps == map["a" := Obj(21)]
  {
    var store, w := ShallowEqualityPrelude();
    rendersBefore := w.renders;
    PublishToWrapper(store, w, map["a" := Obj(21), "b" := Obj(20)]);
    assert NeedsRender(map["a" := Obj(20)], map["a" := Obj(21)]) by {
      assert "a" in map["a" := Obj(21)];
    }
    assert w.state == map["a" := Obj(21)] && w.renders == 1;
    renders, childProps := w.renders, w.ChildProps();
    assert childProps == map[] + map[] + map["a" := Obj(21)];
  }

  /** Without actions the child gets the store under `store`, and mapped state wins over own props. */
  method ConnectWithoutActions() returns (childProps: Record)
    ensures childProps == map["store" := Obj(1), "a" := Num(5), "c" := Num(3)]
  {
    var store := new Store(1, AnyBind, map["a" := Num(5)]);
    var r := ConnectWrapper(MapperFn(MapA), None, store, map["a" := Num(2), "c" := Num(3)], 8);
    var w := r.value;
    childProps := w.ChildProps();
  }
}
