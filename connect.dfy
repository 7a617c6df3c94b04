/**
 * `connect(mapStateToProps, actions)(Child)` of src/index.ts: the wrapper
 * component that keeps the last mapped props in `state`, re-renders when a
 * notification changes them, and renders the child with the bound actions,
 * its own props and the mapped state.
 */
module Connect {
  import opened Values
  import opened Unistore
  import opened Utils

  /** A state-to-props mapper as written by the caller. */
  datatype MapperArg =
    | MapperFn(f: (Record, Record) -> Record)   // a function (state, ownProps) => props
    | CsvMapper(csv: string)                    // "a, b, c"
    | ArrayMapper(names: seq<string>)           // ["a", "b", "c"]
    | NoMapper                                  // undefined or null

  /** The normalised mapper: a function of (state, ownProps), or the selector `select` builds. */
  datatype Mapper = Custom(f: (Record, Record) -> Record) | Selector(names: seq<string>)

  /** Whether `mapStateToProps` is truthy: only `undefined`, `null` and `""` are not. */
  predicate MapperTruthy(arg: MapperArg): (t: bool)
    ensures !t <==> arg.NoMapper? || (arg.CsvMapper? && arg.csv == "")
  {
    match arg
    case MapperFn(_) => true
    case CsvMapper(csv) => csv != ""
    case ArrayMapper(_) => true
    case NoMapper => false
  }

  /** `if (typeof mapStateToProps !== "function") mapStateToProps = select(mapStateToProps || [])`. */
  function Normalize(arg: MapperArg): (m: Mapper)
    ensures arg.MapperFn? ==> m == Custom(arg.f)
    ensures !arg.MapperFn? ==> m.Selector?
    ensures !MapperTruthy(arg) ==> m == Selector([])
    ensures arg.ArrayMapper? ==> m == Selector(arg.names)
    ensures arg.CsvMapper? && arg.csv != "" ==> m == Selector(Csv.Pieces(arg.csv))
  {
    match arg
    case MapperFn(f) => Custom(f)
    case CsvMapper(csv) => Selector(PropertyNames(if csv != "" then CsvNames(csv) else NameArray([])))
    case ArrayMapper(names) => Selector(PropertyNames(NameArray(names)))
    case NoMapper => Selector(PropertyNames(NameArray([])))
  }

  /** The props a mapper yields for a state and the component's own props. */
  function Apply(m: Mapper, state: Record, ownProps: Record): (r: Record)
    ensures m.Custom? ==> r == m.f(state, ownProps)
    ensures m.Selector? ==> r.Keys == set i | 0 <= i < |m.names| :: m.names[i]
    ensures m.Selector? ==> forall k :: k in r ==> r[k] == Get(state, k)
  {
    match m
    case Custom(f) => f(state, ownProps)
    case Selector(names) => ProjectionContents(names, state); Projection(names, state)
  }

  /** The props a mapper yields, computed as the component does (a selector runs its loop). */
  method RunMapper(m: Mapper, state: Record, ownProps: Record) returns (mapped: Record)
    ensures mapped == Apply(m, state, ownProps)
  {
    match m {
      case Custom(f) => mapped := f(state, ownProps);
      case Selector(names) => mapped := Select(names, state);
    }
  }

  /** A missing or falsy mapper maps every state to no props at all. */
  lemma FalsyMapperMapsNothing(arg: MapperArg, state: Record, ownProps: Record)
    requires !MapperTruthy(arg)
    ensures Apply(Normalize(arg), state, ownProps) == map[]
  {
  }

  /** A mapper given as names never looks at the component's own props. */
  lemma SelectorIgnoresOwnProps(arg: MapperArg, state: Record, ownProps: Record, otherProps: Record)
    requires !arg.MapperFn?
    ensures Apply(Normalize(arg), state, ownProps) == Apply(Normalize(arg), state, otherProps)
  {
  }

  /** The state the mapper reads: the store's, or `{}` without a store. */
  function StateOf(store: Store?): (s: Record)
    reads store
    ensures store == null ==> s == map[]
    ensures store != null ==> s == store.GetState()
  {
    if store == null then map[] else store.state
  }

  // ---------------------------------------------------------------------
  // The re-render decision

  /**
   * When `update` forces a render: the forward pass finds a key of `mapped`
   * whose value is `!==` what `state` holds for it (an absent key holds
   * `undefined`), or the backward pass finds a key of `state` that `mapped`
   * no longer has.
   */
  predicate NeedsRender(state: Record, mapped: Record) {
    || (exists k :: k in mapped && mapped[k] != Get(state, k))
    || (exists k :: k in state && k !in mapped)
  }

  /**
   * The two passes of `update`, as loops with early exits. `for...in` visits
   * the keys in some order; which key is visited first does not change the
   * answer.
   */
  method ShallowDiffers(state: Record, mapped: Record) returns (differs: bool)
    ensures differs == NeedsRender(state, mapped)
  {
    var forward := mapped.Keys;
    while forward != {}
      invariant forward <= mapped.Keys
      invariant forall k :: k in mapped && k !in forward ==> mapped[k] == Get(state, k)
      decreases forward
    {
      var k :| k in forward;
      if mapped[k] != Get(state, k) {
        return true;
      }
      forward := forward - {k};
    }
    var backward := state.Keys;
    while backward != {}
      invariant backward <= state.Keys
      invariant forall k :: k in state && k !in backward ==> k in mapped
      decreases backward
    {
      var k :| k in backward;
      if k !in mapped {
        return true;
      }
      backward := backward - {k};
    }
    return false;
  }

  /**
   * No render exactly when every key reads the same in both records and no
   * key of `state` was dropped.
   */
  lemma NoRenderExactly(state: Record, mapped: Record)
    ensures !NeedsRender(state, mapped) <==>
      (state.Keys <= mapped.Keys && forall k :: Get(mapped, k) == Get(state, k))
  {
    if !NeedsRender(state, mapped) {
      forall k ensures Get(mapped, k) == Get(state, k) {
        if k in mapped {
          assert mapped[k] == Get(state, k);
        }
      }
    }
  }

  /** Mapping the same props again never re-renders. */
  lemma SameMappingNoRender(mapped: Record)
    ensures !NeedsRender(mapped, mapped)
  {
  }

  /** A key that the new mapping drops forces a render, even one that held `undefined`. */
  lemma DroppedKeyRenders(state: Record, mapped: Record, k: string)
    requires k in state && k !in mapped
    ensures NeedsRender(state, mapped)
  {
  }

  /** A new key with a value other than `undefined` forces a render: the forward pass reads it as changed. */
  lemma AddedDefinedKeyRenders(state: Record, mapped: Record, k: string)
    requires k !in state && k in mapped && mapped[k] != Undefined
    ensures NeedsRender(state, mapped)
  {
  }

  /**
   * Keys added with value `undefined`, and nothing else changed, never
   * re-render: a missing key and a key mapped to `undefined` look the same.
   */
  lemma AddedUndefinedKeysDoNotRender(state: Record, added: Record)
    requires state.Keys !! added.Keys
    requires forall k :: k in added ==> added[k] == Undefined
    ensures !NeedsRender(state, state + added)
  {
  }

  /** The decision is not symmetric: dropping a key mapped to `undefined` renders, adding it does not. */
  lemma NeedsRenderAsymmetric()
    ensures var none: Record := map[];
      var one: Record := map["a" := Undefined];
      NeedsRender(one, none) && !NeedsRender(none, one)
  {
    var none: Record := map[];
    var one: Record := map["a" := Undefined];
    assert "a" in one && "a" !in none;
  }

  /** `{ ...actions, ...ownProps, ...mapped }`: later spreads win on duplicate keys. */
  function MergeProps(actions: Record, ownProps: Record, mapped: Record): (props: Record)
    ensures props.Keys == actions.Keys + ownProps.Keys + mapped.Keys
    ensures forall k :: k in mapped ==> props[k] == mapped[k]
    ensures forall k :: k in ownProps && k !in mapped ==> props[k] == ownProps[k]
    ensures forall k :: k in actions && k !in ownProps && k !in mapped ==> props[k] == actions[k]
  {
    actions + ownProps + mapped
  }

  /** The props `{ store }` that stand in for the actions when there are none. */
  function StoreProp(store: Store?): (props: Record)
    ensures props.Keys == {"store"} && props["store"] == StoreValue(store)
  {
    map["store" := StoreValue(store)]
  }

  /**
   * `actions ? mapActions(actions, store) : { store }`. An action set is always
   * truthy (an empty array too), so only a missing one yields `{ store }`.
   */
  method BindActions(actions: Option<Actions>, store: Store?) returns (r: Result<Record>)
    ensures actions.None? ==> r == Ok(StoreProp(store))
    ensures actions.Some? ==> var table := ActionTable(actions.value, StoreValue(store));
      if store == null then
        r == (if table == map[] then Ok(map[]) else Err(StoreTypeError))
      else
        r == Ok(Bound(table, store.bind))
  {
    match actions {
      case None =>
        r := Ok(StoreProp(store));
      case Some(a) =>
        var bind := if store == null then (v: Value) => v else store.bind;
        r := MapActions(a, StoreValue(store), bind);
    }
  }

  /**
   * A wrapper instance. `id` is the identity of its `update` closure, so
   * mounting and unmounting name the same listener. `renders` counts the
   * `forceUpdate` calls of `update`.
   */
  class Wrapper {
    const id: ListenerId
    const store: Store?
    const mapper: Mapper
    const boundActions: Record
    var props: Record
    var state: Record
    var renders: nat

    /** The props the mapper yields now. */
    function Mapped(): Record
      reads this, store
    {
      Apply(mapper, StateOf(store), props)
    }

    /** Construction: the initial mapped props are computed from the state the store holds now. */
    constructor (id: ListenerId, store: Store?, mapper: Mapper, boundActions: Record, props: Record)
      ensures this.id == id && this.store == store && this.mapper == mapper
      ensures this.boundActions == boundActions && this.props == props
      ensures state == Apply(mapper, StateOf(store), props) && renders == 0
    {
      this.id := id;
      this.store := store;
      this.mapper := mapper;
      this.boundActions := boundActions;
      this.props := props;
      var initial := RunMapper(mapper, StateOf(store), props);
      state := initial;
      renders := 0;
    }

    /**
     * `update`: recompute the mapped props; on a difference replace `state`
     * with them and force one render, otherwise leave `state` as it was.
     */
    method Update()
      modifies this`state, this`renders
      ensures NeedsRender(old(state), Mapped()) ==> state == Mapped() && renders == old(renders) + 1
      ensures !NeedsRender(old(state), Mapped()) ==> state == old(state) && renders == old(renders)
    {
      var mapped := RunMapper(mapper, StateOf(store), props);
      var differs := ShallowDiffers(state, mapped);
      if differs {
        state := mapped;
        renders := renders + 1;
      }
    }

    /** `UNSAFE_componentWillReceiveProps(p)`: take the new own props, then run `update`. */
    method ReceiveProps(p: Record)
      modifies this`props, this`state, this`renders
      ensures props == p
      ensures NeedsRender(old(state), Mapped()) ==> state == Mapped() && renders == old(renders) + 1
      ensures !NeedsRender(old(state), Mapped()) ==> state == old(state) && renders == old(renders)
    {
      props := p;
      Update();
    }

    /** `componentDidMount`: subscribe `update`; without a store this is a TypeError. */
    method Mount() returns (r: Outcome)
      requires store != null ==> store.Valid()
      modifies store
      ensures store == null <==> r == Fail(StoreTypeError)
      ensures store != null ==>
        && store.Valid() && store.state == old(store.state)
        && store.listeners == old(store.listeners) + {id}
        && store.trace == old(store.trace) + [Subscribed(id)]
    {
      if store == null {
        return Fail(StoreTypeError);
      }
      store.Subscribe(id);
      r := Pass;
    }

    /** `componentWillUnmount`: unsubscribe the same `update`; without a store this is a TypeError. */
    method Unmount() returns (r: Outcome)
      requires store != null ==> store.Valid()
      modifies store
      ensures store == null <==> r == Fail(StoreTypeError)
      ensures store != null ==>
        && store.Valid() && store.state == old(store.state)
        && store.listeners == old(store.listeners) - {id}
        && store.trace == old(store.trace) + [Unsubscribed(id)]
    {
      if store == null {
        return Fail(StoreTypeError);
      }
      store.Unsubscribe(id);
      r := Pass;
    }

    /**
     * `render`: the props the child is rendered with, the bound actions,
     * own props and mapped state merged in that order.
     */
    function ChildProps(): (r: Record)
      reads this
      ensures r == MergeProps(boundActions, props, state)
      ensures r.Keys == boundActions.Keys + props.Keys + state.Keys
      ensures forall k :: k in state ==> r[k] == state[k]
    {
      MergeProps(boundActions, props, state)
    }
  }

  /**
   * `connect(arg, actions)(Child)` instantiated with own props `props` under
   * the context `context`: the mapper is normalised, the actions bound, and
   * the initial state mapped.
   */
  method ConnectWrapper(arg: MapperArg, actions: Option<Actions>, context: Store?, props: Record, id: ListenerId)
    returns (r: Result<Wrapper>)
    ensures actions.None? ==> r.Ok? && r.value.boundActions == StoreProp(context)
    ensures actions.Some? && r.Ok? ==>
      r.value.boundActions == (if context == null then map[] else Bound(ActionTable(actions.value, StoreValue(context)), context.bind))
    ensures r.Err? <==>
      actions.Some? && context == null && ActionTable(actions.value, Null) != map[]
    ensures r.Ok? ==>
      && fresh(r.value) && r.value.id == id && r.value.store == context
      && r.value.mapper == Normalize(arg) && r.value.props == props
      && r.value.state == Apply(Normalize(arg), StateOf(context), props)
      && r.value.renders == 0
  {
    var mapper := Normalize(arg);
    var bound := BindActions(actions, context);
    match bound {
      case Err(e) =>
        r := Err(e);
      case Ok(b) =>
        var w := new Wrapper(id, context, mapper, b, props);
        r := Ok(w);
    }
  }
}
