# Schema-locked configuration store

This project models `Config` from `lib/Utils/Config.ts` in Dafny and proves properties of the model. `Config` is a
nested key/value store for settings. The constructor fixes the store's schema:
- every own key of the input becomes a key of the store;
- every plain-object value becomes a nested store of its own;
- everything else (arrays included) is stored as it is.

Afterwards, the store reads and writes values by dotted paths (`"mongo.host"`). A write can only reach a key the
schema already has.

Modules:

- `Wrappers`: `Option` and `Result`.
- `Props`: JavaScript objects as ordered property lists.
  - `Position` finds a key.
  - `Assign` is `obj[key] = x`: it replaces the value of an existing key, or appends a new key.
- `Values`: the JSON-like values a caller passes in (`undefined`, `null`, booleans, numbers, strings, arrays, objects).
  - The own keys an array contributes to a `for … in` loop are its decimal indices (`IndexKey`, proved injective).
  - `WellKeyed` says that no object anywhere in a value repeats a key, as is always true of a JavaScript object.
- `Paths`: the one-level path split shared by `get`, `getSub` and `set`.
  - The path is cut at its first `.`.
  - A non-empty head names the key to descend into.
  - Otherwise the level reads one key: the whole path, or what follows a leading dot.
  - `Steps` lists the keys a whole traversal visits. Each key is paired with the fragment named in the error if that
    key is undefined.
- `Store`: the store itself, as `Config(entries)`.
  - Each entry holds a scalar value or a nested store.
  - `Slot` models `typeof data[key] === 'undefined'`: a missing key and a key holding `undefined` are both "not set".
  - `Export` is `getData`.
  - `ShapeOf` forgets scalar values and keeps keys and nesting, i.e. the schema.
- `Construct`: the constructor, whose input is either a plain value or another store (copied through its `getData`).
- `Access`: `get`, `isset`, `getOrReturn` and `getSub`. All of them are related to one reference lookup, `Lookup`,
  that walks the pre-split path.
- `Mutate`: `set` and `setData`.
  - An operation that throws part-way returns the state reached so far together with the error (`Update`), because
    neither method undoes the writes it made before the throw.
- `Scenario`: the store `{foo: 'bar', mongo: {host: 'localhost'}}` and what reads and writes on it produce.

Errors are modelled as a datatype. Its cases are:
- `InvalidData`: `invalid config data`;
- `UndefinedPath(rest, initial)`: `undefined config <rest> for path <initial>`;
- `OverrideNotAllowed`: `override properties not allowed`;
- `NotAStore`: the `TypeError` JavaScript raises when a path goes on past a key that holds a scalar, because
  `.get` or `.set` is then called on a non-`Config` value.

Facts that come from the code:
- `set(path, undefined)` on a scalar makes that key undefined. From then on, every `set` or `get` of the path fails
  with `UndefinedPath` (`Mutate.SetUndefinedLocks`).
- Every level of `get`, `getSub` and `set` replaces an omitted or empty initial path by its own path (`Paths.InitialPath`). The path an error names is therefore never empty unless the path itself is.
- A leading dot makes the rest of the path one literal key: `get(".a.b")` reads the key `"a.b"` at the top level
  (`Access.LeadingDot`).
- An array passed to the constructor is accepted, because arrays pass `instanceof Object`. Its indices become keys
  (`Construct.ArrayInput`).
- `setData` is not transactional: keys written before the failing key stay written (`Mutate.SetDataWrites`, `Scenario.SetDataNotTransactional`). It stops at the first property it rejects, so keys named only after that one keep their values (`Mutate.SetDataStops`, `Scenario.SetDataStopsAtRejection`). Keys the input does not name are never touched (`Mutate.SetDataFrame`).
- `getSub` on a path of more than one segment returns the exported plain copy, not the nested store (see Findings).
  The rest of the model uses the corrected `GetSubStore`.

## Model

| member | source | states |
|---|---|---|
| Paths.FirstDot | lib/Utils/Config.ts:105 | `indexOf('.')`: the index found holds a dot and no earlier character is a dot; there is no index exactly when the path has no dot |
| Paths.ParseStepSpec | lib/Utils/Config.ts:105-116 | a level descends exactly when the path has a dot that is not its first character, and the path is then key + "." + rest with a non-empty, dot-free key; otherwise the level reads the whole path, or everything after a leading dot |
| Paths.ParseStep | lib/Utils/Config.ts:105-116 | the one-level split; its own contract only says that a descent hands on a strictly shorter remainder, and its meaning is stated by `Paths.ParseStepSpec` |
| Paths.InitialPath | lib/Utils/Config.ts:107-109 | an omitted or empty initial path is replaced by the current path, so it is never empty for a non-empty path |
| Paths.ParseJoin | lib/Utils/Config.ts:111-114 | a non-empty dot-free key joined to any remainder by a dot is split back into exactly that key and that remainder |
| Paths.ParseAppend | lib/Utils/Config.ts:111-114 | appending `.q` to a path whose dots all separate non-empty segments keeps the first key and extends the remainder by `.q` |
| Props.Position | lib/Utils/Config.ts:116 | the first position holding the key, if any; there is none exactly when the key is absent |
| Props.Assign | lib/Utils/Config.ts:86-88 | property assignment: the key set gains exactly the key, the key then holds the value, every other entry keeps its place and value, a new key goes last, and distinct keys stay distinct |
| Values.IndexKeyInjective | lib/Utils/Config.ts:82 | distinct array indices give distinct own-property keys |
| Store.Slot | lib/Utils/Config.ts:116 | a key counts as set exactly when it is present and does not hold `undefined`; the slot found is the key's position |
| Store.ReplaceHere | lib/Utils/Config.ts:200 | after overwriting a key's value, the key is set again unless the value written is `undefined` |
| Store.ReplaceElsewhere | lib/Utils/Config.ts:200 | overwriting one key leaves every other key's slot and entry as they were |
| Store.Export | lib/Utils/Config.ts:208-223 | `getData` gives a plain object with the store's keys in order, each entry read as plain data; for a canonical store the result repeats no key and holds a plain object exactly where the store holds a nested store, so copying it through the constructor rebuilds the schema |
| Construct.New | lib/Utils/Config.ts:70-92 | construction fails with `invalid config data` exactly when a non-store input is not object-like; otherwise the store is canonical (no repeated key, no plain object left unwrapped) with exactly the input's own keys, and for a well-keyed input its export is the input's own properties, so each plain object became a nested store |
| Construct.Wrap | lib/Utils/Config.ts:85-89 | a value becomes a nested store exactly when it is a plain object (arrays and primitives stay as they are), and the result is canonical |
| Construct.BuildFrom | lib/Utils/Config.ts:82-91 | the constructor's loop: the keys gained are exactly the own keys still to visit, and a canonical start gives a canonical store |
| Construct.ExportRoundTrip | lib/Utils/Config.ts:208-223 | `getData` on a store built from a plain object gives back that object exactly, at every depth |
| Construct.ArrayInput | lib/Utils/Config.ts:82-91 | a store built from an array exports the object mapping each decimal index to the element there |
| Construct.CopyRoundTrip | lib/Utils/Config.ts:78-80 | building a store from a store gives back that same store exactly when it is canonical (distinct keys, nested objects held as stores) |
| Construct.FlattenWrap | lib/Utils/Config.ts:85-88 | wrapping the export of a canonical entry rebuilds that entry |
| Access.GetFrom | lib/Utils/Config.ts:101-129 | `get` fails only with `NotAStore` or with an undefined-path error carrying the initial path, which is the path itself when none (or an empty one) is given |
| Access.Get | lib/Utils/Config.ts:101-129 | `get(path)` with no initial path is what the reference lookup reports, with the path itself named in an undefined-path error |
| Access.Lookup | lib/Utils/Config.ts:111-121 | reference walk over the pre-split path: a scalar can only block a path of two or more keys, and a missing key reports one of the path's own fragments |
| Access.LookupAppend | lib/Utils/Config.ts:120-121 | the walk is associative: walking `s + t` is walking `t` inside the store that walking `s` ends at |
| Access.GetMatchesLookup | lib/Utils/Config.ts:101-129 | `get` equals the reference lookup: the exported entry at the end of the path; an undefined-path error naming the remainder at the first undefined key and the resolved initial path; or `NotAStore` when a scalar is met before the last key |
| Access.Traverse | lib/Utils/Config.ts:120-121 | reading `k.r` is reading `r` in the nested store held at `k`, with the resolved initial path passed down |
| Access.LeadingDot | lib/Utils/Config.ts:111-116 | `get(".r")` succeeds exactly when `r` itself is a set key at this level, and, when `r` has no dot, equals `get(r)` whose initial path is resolved against `.r` |
| Access.Isset | lib/Utils/Config.ts:254-261 | `isset` holds exactly when the reference lookup finds an entry |
| Access.IssetMatchesGet | lib/Utils/Config.ts:254-261 | `isset(p)` holds exactly when `get(p)` does not fail, and the only failures it absorbs are undefined paths and `NotAStore`; this follows from the lookup contracts of `Access.Isset` and `Access.Get` |
| Access.GetOrReturn | lib/Utils/Config.ts:138-141 | the exported entry the reference lookup finds, or else the fallback |
| Access.GetOrReturnFallback | lib/Utils/Config.ts:138-141 | `getOrReturn(p, d)` is `get(p)` when `isset(p)` and `d` otherwise, for every `d`; this follows from the lookup contract of `Access.GetOrReturn` |
| Access.GetSub | lib/Utils/Config.ts:146-170 | `getSub` as written: it fails exactly when `get` fails and with the same error, its result exports to what `get` returns, and on a path that descends (a dot after a non-empty first key) it is always a plain value, never a store |
| Access.GetSubStore | lib/Utils/Config.ts:146-170 | corrected `getSub`: the entry itself (the nested store, not its export, or a scalar) that the reference lookup finds, or that lookup's error |
| Access.GetSubStoreMatchesGet | lib/Utils/Config.ts:146-170 | the corrected `getSub` fails exactly as `get` does, and its entry exports to `get`'s value |
| Access.GetSubSingleLevel | lib/Utils/Config.ts:167-169 | on a path without a dot, `getSub` as written and the corrected one agree |
| Access.SubStoreThenGet | lib/Utils/Config.ts:120-121 | path associativity: if `getSub(p)` yields a nested store `s`, then `get(p + "." + q)` equals `s.get(q)` with the same initial path |
| Mutate.SetData | lib/Utils/Config.ts:229-249 | a non-object input fails with `invalid config data` and writes nothing; any failure is `invalid config data` (a non-object reaching a nested store) or `override properties not allowed`; what it writes is stated by `Mutate.SetDataWrites`, `Mutate.SetDataStops` and `Mutate.SetDataFrame` |
| Mutate.SetDataFrom | lib/Utils/Config.ts:237-248 | the loop of `setData` over the own properties from a given one on raises nothing but those two errors; `Mutate.SetDataFromWrites`, `Mutate.SetDataFromStops` and `Mutate.SetDataFromFrame` state what it writes, where it stops and what it leaves alone |
| Mutate.Misfit | lib/Utils/Config.ts:233-248 | reference error for `setData(x)`, read off the store before any write: `invalid config data` for a non-object, else the first property in order that is not set (`override properties not allowed`) or whose nested store rejects its value |
| Mutate.SetDataFrame | lib/Utils/Config.ts:237-248 | a key that no property of the input names keeps its position and its entry, whether `setData` succeeds or throws part-way |
| Mutate.SetDataWrites | lib/Utils/Config.ts:237-248 | when every property before a given one is accepted and that one names a set key, the key ends up holding the property's value (a scalar overwritten, a nested store after its own `setData`), whatever later properties do, so writes made before a later throw stay made |
| Mutate.SetDataFromFrame | lib/Utils/Config.ts:237-248 | the loop from a given property on leaves every key that none of the remaining properties names at its position with its entry, on success and on failure |
| Mutate.SetDataFromWrites | lib/Utils/Config.ts:237-248 | if the remaining properties before a given one are all accepted and that one names a set key, the loop leaves that key holding the property's value, whatever follows |
| Mutate.SetDataStops | lib/Utils/Config.ts:237-248 | when the `j0`-th property is the first one the store rejects (an undefined key, line 240, or a nested store that throws, line 243), `setData` fails, and every key not named by the properties up to the `j0`-th keeps its position and entry, even one a later property names |
| Mutate.SetDataFromStops | lib/Utils/Config.ts:237-248 | the loop from a given property on fails at the first rejected property and applies none of the properties after it |
| Mutate.SetDataMisfit | lib/Utils/Config.ts:229-249 | for a well-keyed input, `setData` raises exactly the reference error: override on the first undefined key, invalid data on a non-object handed to a nested store, nothing if every property fits |
| Mutate.SetDataFits | lib/Utils/Config.ts:237-248 | `setData(x)` succeeds exactly when every key of `x` is set in the store, recursively for keys holding nested stores, whose values must then be objects |
| Mutate.SetDataKeepsShape | lib/Utils/Config.ts:229-249 | schema lock: whatever `setData` writes and whether or not it fails, the store keeps its keys and nesting |
| Mutate.SetFrom | lib/Utils/Config.ts:175-203 | `set` failing on a path (undefined key or scalar in the way) writes nothing, and its undefined-path error carries the resolved initial path |
| Mutate.Set | lib/Utils/Config.ts:175-203 | `set(path, value)` with no initial path keeps the schema, and on a path the lookup does not resolve raises `get`'s error and writes nothing |
| Mutate.SetKeepsShape | lib/Utils/Config.ts:175-203 | schema lock: `set` never adds, removes or re-nests a key, at any depth |
| Mutate.SetPathError | lib/Utils/Config.ts:190-195 | when the reference lookup finds no entry for `p`, `set(p, v)` leaves the store unchanged and raises that lookup's error |
| Mutate.SetFrame | lib/Utils/Config.ts:194-201 | frame: after `set(p, v)`, reading any path `q` whose route is not a prefix of `p`'s, and not an extension of it, gives what it gave before |
| Mutate.SetScalarLookup | lib/Utils/Config.ts:199-200 | setting a path that ends at a scalar succeeds, and the lookup then finds the new value, or nothing when the value is `undefined` |
| Mutate.SetThenGet | lib/Utils/Config.ts:199-200 | after a `set` of a path ending at a scalar, `get` of that path returns the value written (an undefined-path error if it was `undefined`) |
| Mutate.SetAtStore | lib/Utils/Config.ts:197-198 | `set` of a path ending at a nested store is that store's `setData`: same error, and the path then holds the updated store |
| Mutate.SetThroughSub | lib/Utils/Config.ts:194-195 | writes through the corrected `getSub` reach the parent: if `getSub(p)` is the store `s`, then `set(p + "." + q, v)` raises what `s.set(q, v)` raises and leaves at `p` the store that call produces |
| Mutate.SetUndefinedLocks | lib/Utils/Config.ts:190-192 | after a scalar is set to `undefined`, every later `set` of the same path fails with an undefined-path error and writes nothing |
| Scenario.ExampleBuilds | lib/Utils/Config.ts:70-92 | `{foo: 'bar', mongo: {host: 'localhost'}}` builds the store with a nested `mongo` store |
| Scenario.ExampleReadsNestedKey | lib/Utils/Config.ts:120-126 | `get('mongo.host')` is `'localhost'` |
| Scenario.ExampleReadsStore | lib/Utils/Config.ts:123-124 | `get('mongo')` is the plain object `{host: 'localhost'}` |
| Scenario.ExampleReadsUndeclared | lib/Utils/Config.ts:116-117 | `get('mongo.login')` fails with the undefined-path error naming `login` and `mongo.login` |
| Scenario.ExampleWritesScalar | lib/Utils/Config.ts:199-200 | `set('foo', 'fou')` succeeds and `get('foo')` then reads `'fou'` |
| Scenario.ExampleWritesUndeclared | lib/Utils/Config.ts:190-192 | `set('mongo.login', 'x')` fails and leaves the whole store, `mongo.host` included, unchanged |
| Scenario.ConstructionRejects | lib/Utils/Config.ts:74-76 | `42`, `"str"`, `null` and `undefined` are each rejected with `invalid config data` |
| Scenario.SetDataNotTransactional | lib/Utils/Config.ts:237-248 | `setData({a: 9, z: 0})` on `{a: 1, b: 2}` leaves `a` at 9 and fails with `override properties not allowed` |
| Scenario.SetDataStopsAtRejection | lib/Utils/Config.ts:237-241 | `setData({z: 0, a: 9})` on `{a: 1}` fails with `override properties not allowed` at `z` and leaves `a` at 1 |
| Scenario.SetDataNestedNonObject | lib/Utils/Config.ts:242-243 | `setData({a: 9, m: 5})` on `{a: 1, m: {}}` leaves `a` at 9 and fails with `invalid config data` from the nested store |
| Scenario.GetSubReturnsCopy | lib/Utils/Config.ts:165-166 | on `{mongo: {db: {name: 'x'}}}`, `getSub('mongo.db')` as written yields the plain object `{name: 'x'}` |
| Scenario.GetSubStoreReturnsStore | lib/Utils/Config.ts:146-170 | on the same store, the corrected `getSub('mongo.db')` yields the nested store holding `name` |

## Left out

- `src/index.ts` and `lib/Logger/LoggerService.ts` are not part of this model. The first is the Discord client, which reads its settings from the environment directly; the second configures the logger. Neither builds a `Config`.
- Numbers are modelled as mathematical integers. Floating point, `NaN` and number formatting are left out: the store never does arithmetic.
- Functions, `Date`s, class instances other than `Config`, and the prototype chain are left out.
  - `data[key]` also sees inherited properties such as `toString`, which the model does not have.
  - `hasOwnProperty` is always true for the modelled keys.
- Iteration order of `for … in` is the order of the property list. JavaScript's rule that integer-like keys come first is not modelled.
- Error messages are modelled by their parts (the remainder and the initial path), not as concatenated text.
- Cyclic inputs (an object that contains itself) cannot be expressed with inductive values. In the source they make the constructor recurse without end.
- A `Config` instance held as a value is not modelled: values are plain data. This covers the value of `set` or `setData`, and a property of the constructor's input that holds a store, which the source copies through `new Config` (lines 85-86). Building from such a property gives the same store as building from that store's export, so the omission loses no result.
- Access.IssetMatchesGet: `isset` catches every exception. The model's `get` can only fail with the two errors named, so nothing else needs absorbing.
- Construct.ExportRoundTrip, Construct.ArrayInput: require `WellKeyed`, which is no restriction on real JavaScript objects. The model's property lists could repeat a key, while a JavaScript object cannot.
- Mutate.SetDataFits: requires `WellKeyed` for the same reason.
- Access.GetSubStore: returns the nested store as a value, so later writes to the parent do not show in it, nor writes to it in the parent. The source returns the very object it holds (line 168), so the two share every later change. The model states the part visible through the parent instead: reads with `Access.SubStoreThenGet` and writes with `Mutate.SetThroughSub`.
- Values are immutable, so aliasing is not modelled. `get` returns the stored array or object itself (line 126), and `set` stores the caller's reference (line 200). Changes the caller later makes through such a reference reach the store in the source, but not in the model.
- Mutate.SetDataMisfit: requires `WellKeyed` for the same reason as `Mutate.SetDataFits`.
- Mutate.SetFrame: covers disjoint paths only. Writing a store under `q`, or a key inside `q`'s store, changes what `q` reads, as `Mutate.SetAtStore` and `Mutate.SetThenGet` state.

## Findings

| source | as written | input that shows it | evidently intended | confidence | as-written member | corrected member |
|---|---|---|---|---|---|---|
| lib/Utils/Config.ts:165-166 | for a dotted path, `getSub` hands the remainder to the nested store's `get`, which exports a store found at the end as plain data, although `getSub` is declared to return a `Config` | `getSub('mongo.db')` on `{mongo: {db: {name: 'x'}}}` yields the plain object `{name: 'x'}`, so `getSub('mongo.db').get('name')` throws | recurse with `getSub`, so that the nested store itself is returned at every depth and `getSub(p).get(q)` equals `get(p + '.' + q)` | high (not executed) | Access.GetSub, Scenario.GetSubReturnsCopy | Access.GetSubStore, Access.SubStoreThenGet |
