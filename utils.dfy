/**
 * The prop-normalisation helpers of src/utils.ts (duplicated at the top of
 * src/index.ts): `select`, which turns a list of property names into a
 * state-to-props mapper, and `mapActions`, which binds every action of a
 * table to the store.
 */
module Utils {
  import opened Values
  import Csv

  /** The argument of `select`: one string of comma-separated names, or an array of names. */
  datatype Properties = CsvNames(csv: string) | NameArray(names: seq<string>)

  /** The names the selector reads: a string is split on commas, an array is used as it is. */
  function PropertyNames(properties: Properties): (names: seq<string>)
    ensures properties.NameArray? ==> names == properties.names
    ensures properties.CsvNames? ==> names == Csv.Pieces(properties.csv)
  {
    match properties
    case CsvNames(csv) => Csv.SplitIsPieces(csv); Csv.Split(csv)
    case NameArray(names) => names
  }

  /** The record `select(names)` builds: every listed name, read from the state. */
  function Projection(names: seq<string>, state: Record): Record {
    map k | k in names :: Get(state, k)
  }

  /**
   * The selector that `select` returns, applied to `state`: an indexed loop
   * that writes `selected[names[i]] = state[names[i]]`.
   */
  method Select(names: seq<string>, state: Record) returns (selected: Record)
    ensures selected == Projection(names, state)
  {
    selected := map[];
    for i := 0 to |names|
      invariant selected == Projection(names[..i], state)
    {
      assert names[..i + 1] == names[..i] + [names[i]];
      selected := selected[names[i] := Get(state, names[i])];
    }
    assert names[..|names|] == names;
  }

  /**
   * The selector's result has exactly the listed names as keys, and each
   * reads the state's value, `undefined` for a name the state lacks.
   */
  lemma ProjectionContents(names: seq<string>, state: Record)
    ensures Projection(names, state).Keys == set i | 0 <= i < |names| :: names[i]
    ensures forall k :: k in Projection(names, state) ==> Projection(names, state)[k] == Get(state, k)
    ensures forall i :: 0 <= i < |names| && names[i] !in state ==> Projection(names, state)[names[i]] == Undefined
  {
    var keys := set i | 0 <= i < |names| :: names[i];
    forall k | k in Projection(names, state) ensures k in keys {
      var i :| 0 <= i < |names| && names[i] == k;
    }
  }

  /**
   * Repeated names collapse to one key, and the order of the names does not
   * matter: two lists naming the same properties select the same record.
   */
  lemma ProjectionIgnoresOrderAndRepeats(names: seq<string>, others: seq<string>, state: Record)
    requires forall k :: k in names <==> k in others
    ensures Projection(names, state) == Projection(others, state)
  {
  }

  /** With no names the selector yields the empty record, whatever the state. */
  lemma ProjectionOfNothing(state: Record)
    ensures Projection([], state) == map[]
  {
  }

  // ---------------------------------------------------------------------
  // mapActions

  /**
   * The `actions` argument of `mapActions`: a table of action functions (an
   * array is a table keyed by its indices), or a factory that receives the
   * store and returns such a table.
   */
  datatype Actions = Table(table: Record) | Factory(make: Value -> Record)

  /** The table `mapActions` iterates over: a factory is first called with the store. */
  function ActionTable(actions: Actions, store: Value): (table: Record)
    ensures actions.Table? ==> table == actions.table
    ensures actions.Factory? ==> table == actions.make(store)
  {
    match actions
    case Table(t) => t
    case Factory(make) => make(store)
  }

  /** The table with every action bound through `bind` (the store's `action`). */
  function Bound(table: Record, bind: Value -> Value): Record {
    map k | k in table :: bind(table[k])
  }

  /**
   * `mapActions(actions, store)`, with the store given as its JavaScript value
   * (`Null` when there is none) and its `action` as `bind`. The `for...in`
   * loop calls `store.action` once per key. On `null` or `undefined` reading
   * `action` throws, and on a number, string or boolean `action` reads
   * `undefined` and calling it throws: a store that is not an object fails
   * with a TypeError exactly when the table has a key.
   */
  method MapActions(actions: Actions, store: Value, bind: Value -> Value) returns (r: Result<Record>)
    ensures var table := ActionTable(actions, store);
      if !store.Obj? && table != map[] then r == Err(StoreTypeError) else r == Ok(Bound(table, bind))
  {
    var table := ActionTable(actions, store);
    var mapped: Record := map[];
    var keys := table.Keys;
    while keys != {}
      invariant keys <= table.Keys
      invariant mapped.Keys == table.Keys - keys
      invariant forall k :: k in mapped ==> mapped[k] == bind(table[k])
      invariant !store.Obj? ==> mapped == map[]
      decreases keys
    {
      var k :| k in keys;
      if !store.Obj? {
        return Err(StoreTypeError);
      }
      mapped := mapped[k := bind(table[k])];
      keys := keys - {k};
    }
    assert mapped == Bound(table, bind);
    r := Ok(mapped);
  }

  /** The bound table has exactly the keys of the table: none added, none dropped. */
  lemma BoundKeys(table: Record, bind: Value -> Value)
    ensures Bound(table, bind).Keys == table.Keys
    ensures forall k :: k in table ==> Bound(table, bind)[k] == bind(table[k])
  {
  }
}
