# react-unistore, modelled in Dafny

react-unistore connects React components to a unistore store. It provides:

- `Provider`, which puts a store into a React context;
- the hooks `useStore`, `useAction` and `useSelector`;
- the higher-order component `connect(mapStateToProps, actions)(Child)`;
- two helpers, `select` (a mapper built from a list of property names) and
  `mapActions` (binds every action of a table to the store).

The model has one module per concern:

| file | module | what it holds |
|---|---|---|
| `values.dfy` | `Values` | JavaScript values (`===` as datatype equality, truthiness, a missing key reading as `undefined`), records, the two errors the binding raises |
| `csv.dfy` | `Csv` | `split` on the regular expression `\s*,\s*`, following the ECMAScript split algorithm, proved equal to a reference "cut at commas, trim beside them" definition |
| `utils.dfy` | `Utils` | `select` (an indexed loop) and `mapActions` (a `for...in` loop), each proved against a specification function |
| `store.dfy` | `Unistore` | the part of the store the binding relies on: state, a listener set, subscribe, unsubscribe, and a notification that reaches every subscribed listener; a ghost trace of events with lemmas about teardown |
| `hooks.dfy` | `Hooks` | `useStore`, `useAction`, and `useSelector` as a class whose fields are the hook's ref cell, its render count and the calls of the equality function |
| `connect.dfy` | `Connect` | mapper normalisation, the two-pass re-render decision of `update` (a loop proved equal to a predicate), the merge of props for the child, and the wrapper component as a class |
| `scenarios.dfy` | `Scenarios` | the cases of `src/react-unistore.test.tsx` as methods whose postconditions state what each case observes |

React itself is reduced to what the binding depends on:

- the context is a `Store?` reference;
- `useRef` is a field;
- a `forceUpdate` is a counter increment;
- effects and lifecycle methods are explicit `Mount` and `Unmount` calls.

A listener is named by a `ListenerId`, which stands for the identity of its closure. The store's `Publish` returns the set of listeners it reaches, and the scenario driver runs each reached listener.

`src/utils.ts` and lines 12-37 of `src/index.ts` hold the same two helpers, character for character. The model cites `src/utils.ts`.

The re-render test of `connect` reads a key missing from the old mapped props as `undefined`. So a key that appears with a defined value forces a render (`AddedDefinedKeyRenders`), and only keys that appear with the value `undefined` go unnoticed (`AddedUndefinedKeysDoNotRender`).

## Model

| member | source | states |
|---|---|---|
| Values.Truthy | src/index.ts:44 | the falsy values are exactly `undefined`, `null`, `false`, `0` and `""`; every other value, every object included, is truthy |
| Values.Get | src/index.ts:156 | reading an absent key gives `undefined`; a present key gives its value |
| Csv.IsSpace | src/utils.ts:19 | decides `\s`: ECMAScript WhiteSpace and LineTerminator; the comma is not among them |
| Csv.SpaceEnd | src/utils.ts:19 | the greedy `\s*` from `i` stops inside the string, at a character that is not whitespace or at the end |
| Csv.SpaceEndSkipsSpace | src/utils.ts:19 | every character the greedy `\s*` skips is whitespace |
| Csv.SpaceEndUnique | src/utils.ts:19 | a whitespace run followed by a non-whitespace character or the end has exactly one end, the one `\s*` stops at |
| Csv.NextComma | src/utils.ts:19 | the position found is a comma, or the end of the string when no comma follows |
| Csv.NextCommaSkips | src/utils.ts:19 | no comma stands between the start and the comma found |
| Csv.TrimBack | src/utils.ts:19 | the end of a piece once the whitespace before its comma is dropped: the piece then ends in a non-whitespace character or is empty |
| Csv.TrimBackDropsSpace | src/utils.ts:19 | only whitespace is dropped from the end of a piece |
| Csv.MatchEnd | src/utils.ts:19 | a match of `\s*,\s*` always ends after its start, so the split scan makes progress, and its last `\s*` is greedy: it stops at a character that is not whitespace or at the end |
| Csv.MatchAtComma | src/utils.ts:19 | whitespace from a position up to a comma is a match there, ending where the whitespace after the comma ends |
| Csv.MatchIsSpaceThenComma | src/utils.ts:19 | conversely, every match is a run of whitespace followed by a comma |
| Csv.Split | src/utils.ts:19 | the split is never empty: a string without a match is one piece |
| Csv.SplitIsPieces | src/utils.ts:18-20 | for every string, the ECMAScript split scan yields exactly the reference pieces: cut at every comma, with the whitespace touching each comma removed |
| Csv.SplitWithoutComma | src/utils.ts:18-20 | a string without a comma splits into itself alone (so `"a"` selects `a`, and `""` gives `[""]`) |
| Csv.SplitShape | src/utils.ts:18-20 | the split has one more piece than the string has commas, and no piece contains a comma |
| Csv.SplitTrimmed | src/utils.ts:18-20 | no piece after the first starts with whitespace, and no piece before the last ends with whitespace |
| Csv.SplitJoinTight | src/utils.ts:18-20 | a string with no whitespace beside any comma round-trips: joining its pieces with commas gives it back |
| Utils.PropertyNames | src/utils.ts:17-20 | an array of names is used as it is; a string becomes the reference pieces of its CSV split |
| Utils.Select | src/utils.ts:21-27 | the loop of the returned selector builds exactly the projection of the state on the names |
| Utils.ProjectionContents | src/utils.ts:21-27 | the selected record has exactly the listed names as keys; each reads the state's value, and a name the state lacks reads `undefined` |
| Utils.ProjectionIgnoresOrderAndRepeats | src/utils.ts:23-25 | lists that name the same properties, in any order and with any repeats, select the same record |
| Utils.ProjectionOfNothing | src/utils.ts:21-27 | selecting no names gives the empty record for every state |
| Utils.ActionTable | src/utils.ts:7-9 | a table of actions is used as it is; a factory is called with the store |
| Utils.MapActions | src/utils.ts:3-15 | the result is every action of the table bound by the store's `action`, under the same key; with a store that is not an object (`null`, `undefined`, a number, a string, a boolean) the first key raises a TypeError, and an empty table gives `{}` |
| Utils.BoundKeys | src/utils.ts:11-13 | the bound table has exactly the table's keys, each bound through `action` |
| Unistore.StaysUnsubscribed | src/index.ts:117-120 | after an unsubscribe, a listener stays out of the listener set until it is subscribed again |
| Unistore.StaysSubscribed | src/index.ts:117-120 | after a subscribe, a listener stays in the listener set until it is unsubscribed |
| Unistore.NoCallsAfterUnsubscribe | src/index.ts:118-120 | after the cleanup unsubscribes a listener, no later notification calls it unless it is subscribed again |
| Unistore.OneCallPerNotification | src/index.ts:117 | while a listener stays subscribed, each notification calls it exactly once |
| Unistore.Store.constructor | src/react-unistore.test.tsx:19 | a new store holds the initial state and no listeners |
| Unistore.Store.GetState | src/index.ts:104 | `getState()` gives the store's current state |
| Unistore.Store.Subscribe | src/index.ts:117 | the listener joins the set and the trace records it; the state is untouched |
| Unistore.Store.Unsubscribe | src/index.ts:119 | the listener leaves the set and the trace records it; the state is untouched |
| Unistore.Store.Publish | src/index.ts:107 | the store takes the new state and reaches exactly its subscribed listeners; each reached listener's call count goes up by one and no other's does |
| Unistore.StoreValue | src/index.ts:152 | a missing store is `null` as a prop value; a store is its object |
| Hooks.UseStore | src/index.ts:42-48 | no store in the context if and only if it fails with the missing-context error, thrown with the message "Missing context. Ensure you've rendered a Provider."; otherwise it is the context's store |
| Hooks.UseAction | src/index.ts:70-75 | fails exactly when the context has no store; otherwise it gives the store's `action` applied to the action |
| Hooks.Changed | src/index.ts:109-113 | with an equality function the listener sees a change exactly when `equalityFn(previous, next)` is falsy; without one, exactly when the values are `!==` |
| Hooks.StrictEqualityFnIsDefault | src/index.ts:109-113 | an equality function that computes `===` behaves exactly as passing none |
| Hooks.EqualityFnArgumentOrder | src/index.ts:111 | the equality function is called as (previous, next): an order-sensitive function tells the two orders apart |
| Hooks.AlwaysEqualNeverRenders | src/index.ts:109-115 | with an equality function that is always truthy, no run of notifications re-renders or moves the cell |
| Hooks.NeverEqualRendersEveryTime | src/index.ts:109-115 | with an equality function that is always falsy, each notification re-renders once and the cell ends at the last selection |
| Hooks.IrrelevantChangesNeverRender | src/index.ts:107-116 | without an equality function, states whose selection stays `===` the cell never re-render |
| Hooks.DefaultRendersOnEveryChange | src/index.ts:107-116 | without an equality function, any run of notifications re-renders once per selection that is `!==` the selection before it (the cell, for the first), and the cell ends at the last selection |
| Hooks.SelectorHook.constructor | src/index.ts:102-104 | the first render writes the selection of the store's current state into the cell |
| Hooks.SelectorHook.Render | src/index.ts:104 | every render rewrites the cell from the store's current state, with the selector that render passes |
| Hooks.SelectorHook.Listen | src/index.ts:107-116 | the listener forces an update exactly when the selection changed by the hook's test; it logs the equality function's (previous, next) arguments and never writes the cell |
| Hooks.SelectorHook.Notify | src/index.ts:107-116 | a notification followed by the render it forces moves the cell and the render count as one step of `Replay`; `forceUpdate` runs exactly when the listener sees a change |
| Hooks.SelectorHook.Mount | src/index.ts:117 | the effect subscribes the hook's listener |
| Hooks.SelectorHook.Unmount | src/index.ts:118-120 | the cleanup unsubscribes the same listener |
| Hooks.UseSelector | src/index.ts:92-104 | fails exactly when there is no store; otherwise the hook's cell holds the selection of the current state after one render, with no comparisons yet |
| Connect.MapperTruthy | src/index.ts:145 | decides `mapStateToProps || []`: only a missing mapper and the empty string are falsy |
| Connect.Normalize | src/index.ts:143-146 | a function mapper is kept; anything else becomes a selector: `undefined`, `null` and `""` select nothing, an array selects its names, a non-empty string selects its CSV pieces |
| Connect.Apply | src/index.ts:143-146 | a function mapper gives what it returns for the state and own props; a selector gives exactly its names as keys, each read from the state |
| Connect.RunMapper | src/index.ts:151 | running the mapper gives the mapped props of the state and own props |
| Connect.StateOf | src/index.ts:151 | `store ? store.getState() : {}`: the store's `getState()`, or `{}` without a store |
| Connect.FalsyMapperMapsNothing | src/index.ts:145 | a missing or falsy mapper maps every state to `{}` |
| Connect.SelectorIgnoresOwnProps | src/index.ts:145 | a mapper given as names never depends on the component's own props |
| Connect.ShallowDiffers | src/index.ts:155-166 | the two passes with early returns answer exactly `NeedsRender`, whatever order `for...in` visits the keys in |
| Connect.NoRenderExactly | src/index.ts:155-166 | no render if and only if every key of the old state is still mapped and every key reads the same in old and new |
| Connect.SameMappingNoRender | src/index.ts:155-166 | mapping the same props again never renders |
| Connect.DroppedKeyRenders | src/index.ts:161-165 | a key the new mapping drops forces a render |
| Connect.AddedDefinedKeyRenders | src/index.ts:155-159 | a new key with a value other than `undefined` forces a render |
| Connect.AddedUndefinedKeysDoNotRender | src/index.ts:155-166 | keys added with the value `undefined`, and nothing else changed, do not render |
| Connect.NeedsRenderAsymmetric | src/index.ts:155-166 | the decision is not symmetric: dropping `{a: undefined}` renders, adding it does not |
| Connect.MergeProps | src/index.ts:179 | the child's props have the keys of all three records; mapped state wins over own props, which win over actions |
| Connect.StoreProp | src/index.ts:152 | without actions the child gets exactly `{ store }` |
| Connect.BindActions | src/index.ts:152 | no actions give `{ store }`; a null store fails exactly when the action table has a key; otherwise the table is bound by the store |
| Connect.Wrapper.constructor | src/index.ts:148-152 | the initial state is the mapped props of the store's current state, or of `{}` without a store |
| Connect.Wrapper.Update | src/index.ts:153-167 | when the new mapping needs a render, `update` replaces the state with it and forces one render; otherwise it changes nothing |
| Connect.Wrapper.ReceiveProps | src/index.ts:168-171 | new own props are taken, then `update` runs on them |
| Connect.Wrapper.Mount | src/index.ts:172-174 | mounting subscribes `update`; without a store it is a TypeError |
| Connect.Wrapper.Unmount | src/index.ts:175-177 | unmounting unsubscribes the same `update`; without a store it is a TypeError |
| Connect.Wrapper.ChildProps | src/index.ts:178-179 | the child gets the bound actions, own props and mapped state merged in that order: every key of the three, and every mapped key with its mapped value |
| Connect.ConnectWrapper | src/index.ts:139-152 | the wrapper holds the normalised mapper, the bound actions and the initial mapped state; it fails exactly when actions are given, there is no store and the table is not empty |
| Scenarios.SelectorRelevantChangesOnly | src/react-unistore.test.tsx:45-85 | after a change of `b` the hook selecting `a` has still rendered only once; a change of `a` then re-renders it once more and shows the new value |
| Scenarios.SelectorTruthyEqualityIgnoresChange | src/react-unistore.test.tsx:112-144 | an always-true equality function is called once with (initial, new), and no re-render follows |
| Scenarios.SelectorFalsyEqualityAlwaysRenders | src/react-unistore.test.tsx:145-180 | a copy of the selected object under an always-false equality function re-renders the hook once; the function was called once, with (initial, new) |
| Scenarios.SelectorFalsyEqualitySameObject | src/index.ts:109-115 | an always-false equality function forces an update and a re-render even when the selected object is the very same one |
| Scenarios.SelectorChangedBetweenRenders | src/index.ts:104-121 | a component that passes a new selector on a later render gets the new selection in the cell, while the listener keeps the first selector, so publishing the same state forces an update |
| Scenarios.SelectorSilentAfterUnmount | src/index.ts:118-120 | after the cleanup, a changed selection neither reaches nor re-renders the hook |
| Scenarios.HooksWithoutProvider | src/index.ts:43-49 | without a Provider, `useSelector` and `useAction` both fail with the missing-context error |
| Scenarios.ShallowEqualityPrelude | src/react-unistore.test.tsx:253-294 | a mounted wrapper mapping `{a}` still holds its first mapped state and has not re-rendered after the same object under `a` and a change of `b` are published |
| Scenarios.ConnectShallowEquality | src/react-unistore.test.tsx:253-294 | after the same object under `a` and an irrelevant change the wrapper has not re-rendered; a new object then re-renders it once, and the child gets exactly `{a}` |
| Scenarios.ConnectWithoutActions | src/index.ts:152 | without actions the child gets the store under `store`, and mapped state overrides own props |

## Left out

- React itself is not modelled: rendering, reconciliation, batching inside `act`, the timing of effects and the `[]` dependency list. Renders are counters, effects are explicit `Mount`/`Unmount` calls, and the elements `createElement` builds are reduced to the props record.
- `Provider` and `createContext` (src/index.ts:39-41) are not modelled: the context is a `Store?` parameter.
- The type aliases `UseAction`, `TypedUseAction`, `UseSelector`, `TypedUseSelector` and `EqualityFn` are left out: they have no run-time behaviour. So is the `assign` re-export (src/utils.ts:30).
- `Unistore.Store.Publish`: unistore's `setState` merge and its action semantics are not modelled. The store's `action` is an opaque function `bind`, and `Publish` receives the already-merged state.
- `Unistore.Store`: unistore keeps listeners in an array, so subscribing the same function twice makes it run twice. The model keeps a set. The binding subscribes each closure only once, so this makes no difference to it.
- `Unistore.Store.Publish`: a listener that unsubscribes during a notification is not modelled, and neither are the asynchronous results of actions.
- `Values.Get`: a record holds only its own properties. Reads and `in` tests of names the prototype chain supplies (`toString`, `constructor`, ...) are not modelled, and neither is the prototype change that writing `__proto__` in `select` makes (src/utils.ts:24).
- `Values.Value`: numbers are mathematical integers, so NaN, -0 and fractions are absent. Strings are sequences of Unicode scalar values, not UTF-16 code units.
- `Hooks.SelectorHook.Notify`: the render a forced update brings is taken to pass the first render's selector again. A component that changes its selector is covered by `Render` and `Listen` on their own (`SelectorChangedBetweenRenders`), not by `Notify` or `Replay`.
- `Hooks.SelectorHook`, `Connect.Apply`, `Unistore.Store`: selectors, equality functions, mappers and the store's `action` are pure functions of their arguments. A callback that allocates cannot be expressed: a mapper like `s => ({a: s.a})` returning a fresh object on each call, a selector `s => s` over a state object the store replaces, or a store whose `action` returns a new function on each call. So `UseAction` gives the same value on every call.
- `Unistore.Store`: listener ids are chosen by the caller. The model takes them to be distinct for distinct closures, as function identity is in the source; nothing enforces that.
- `Connect.Apply`: a `mapStateToProps` that returns something other than a plain object is not modelled. A mapper is a total function into records.
- `Connect.Wrapper.ChildProps` merges the own props the wrapper last received. React's `this.props` holds the same props once the new render starts, so the difference between the two is left out.
- `Connect.Wrapper`: the `context` argument of the wrapper's constructor call, and the prototype wiring at src/index.ts:181-184, are not modelled.
- `print-file-size.js` and `jest.config.js` are build tooling and not part of this model.
