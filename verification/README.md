# Opserver change-event engine, modelled in Dafny

Opserver sits on an event bus (EventEmitter3) and turns MongoDB oplog records
into named events. An insert in `mydb.users` is published as
`insert:mydb.users`. A delete is published as `delete:mydb.users`. An update
that uses operators such as `$set` or `$inc` is published once per changed
property path, for example `update:mydb.users.preferences.timezone`. For
updates, Opserver can re-fetch the updated document and attach it, together
with the result of `get` on that document and the changed path. It skips
events whose name contains a configured excluded path. Three helpers build on the bus:

- `onAny` listens to several names with one function;
- `onceMatched` returns a promise for the first event whose data matches a set
  of expected values;
- `onMatched` calls a function on matching events.

The project has six modules:

- `Strings` (`strings.dfy`): JavaScript's `split` with a one-character
  separator, and `includes`.
- `Values` (`values.dfy`): payloads as a closed datatype. It has property
  reads that throw on `null`/`undefined`, `Object.keys`, strict equality, and
  the nested `get` the matchers use.
- `ObjectPaths` (`paths.dfy`): `computeObjectPaths`, and the changed paths of
  an update. `computeObjectPaths` is proved equal to an independent
  definition, the key sequences leading to leaves, in the same order. The
  changed paths are proved to be exactly the dotted leaf paths below the
  values of every top-level key of `o`.
- `Events` (`events.dfy`): the event namer, the exclusion scan, the
  `excludes` defaults, the insert, delete and update builders with the
  re-fetch as an input, and the filtered list the dispatcher publishes.
- `Emitter` (`emitter.dfy`): the bus as a value. It holds the registry (event
  name to listeners, oldest first), the log of emissions, the log of listener
  calls, and the settled promises. On top of that it has the matcher, the
  listeners the helpers create, and what one `emit` does. It also holds the
  properties of `onceMatched`, `onMatched` and `onAny`, stated over that state.
- `Engine` (`opserver.dfy`): the `Opserver` class. Its fields are that bus
  state. Its methods are the constructor, `on`, `removeListener`, `emit`,
  `onAny`, the removers the helpers return, `onceMatched`, `onMatched` and
  `emitOpserverEvent`. Each method is proved to change the state exactly as
  the corresponding function of `Emitter` or `Events` says, and to keep the
  class invariant `Valid`. That invariant has three parts: `ExcludesOk`
  (the three lists exist), `RegistryOk` (every function Opserver created is
  registered only under its own name, and no two `onceMatched` listeners of a
  name share a promise) and `ResolvedOk` (only promises already handed out
  are settled).

A function Opserver creates (a bound listener, a matcher, a wrapper) is
modelled by an id that is new at each creation. A caller's function is
`Callback(n)`. A promise is identified by the id of its matcher. A settled
promise holds its value in `resolved`.

## Model

| member | source | states |
|---|---|---|
| Strings.Split | src/Opserver.js:435 | `split` yields at least one part, and no part contains the separator |
| Strings.JoinSplit | src/Opserver.js:435 | joining the parts of a split with the separator gives back the original string |
| Strings.SplitHead | src/Opserver.js:435 | the first part of a split is the longest separator-free prefix, followed by the separator when it is shorter than the string |
| Strings.IncludesIffOccurs | src/Opserver.js:580 | `includes` holds exactly when the substring occurs at some index |
| Values.Prop | src/Opserver.js:383 | reading a property throws exactly on `null`/`undefined`. On a plain object, a present key reads its first field of that name and an absent key reads `undefined`; any other value reads `undefined` |
| Values.OwnKeys | src/Opserver.js:425 | `Object.keys` throws exactly on `null`/`undefined` and lists a plain object's keys in order |
| Values.GetTopLevel | src/Opserver.js:187 | a dot-free matcher key reads the first field of that name, or `undefined` |
| Values.GetNested | src/Opserver.js:239 | a dotted matcher key reads one object level per segment |
| ObjectPaths.Paths | src/Opserver.js:526-543 | `computeObjectPaths`: every path extends the prefix; below a plain object each path goes one `'.'`-separated key deeper; a non-object at the root yields `[]` |
| ObjectPaths.PathsAreRenderedKeyPaths | src/Opserver.js:526-543 | from a plain object, or below a non-empty prefix, the walker yields the dot path of each leaf key sequence, in key order |
| ObjectPaths.KeyPathsAreLeafPaths | src/Opserver.js:526-543 | the listed key sequences are exactly those that lead through plain objects to a non-object value, so an empty nested object contributes none |
| ObjectPaths.RootPaths | src/Opserver.js:526-543 | from the root, a non-object yields `[]` and every path of a plain object starts with `'.'` |
| ObjectPaths.ChangedPaths | src/Opserver.js:452-454 | the changed paths of an update, each starting with `'.'` |
| ObjectPaths.ChangedPathIsLeaf | src/Opserver.js:452-454 | every changed path of an update is the dot path of a leaf inside the value of one of its top-level keys |
| ObjectPaths.LeafIsChangedPath | src/Opserver.js:452-454 | every such leaf appears among the changed paths |
| Events.KindOf | src/Opserver.js:78-82 | op codes `i`, `u`, `d` name insert, update and delete; any other code has no kind |
| Events.EventString | src/Opserver.js:562-564 | the name is the operation, then a colon at index `|op|`, then the namespace directly followed by the path, and nothing else |
| Events.EventStringParts | src/Opserver.js:562-564 | the name is the operation, a colon, then the namespace directly followed by the path |
| Events.EventStringExample | lib/Opserver.js:135-140 | the documented example `update:mydb.users.preferences.timezone` |
| Events.IsEventInExcludedPath | src/Opserver.js:574-587 | the scan with `break` returns true exactly when some entry occurs in the name, and false for an empty list |
| Events.WithDefaults | src/Opserver.js:56 | the three lists always exist, default to empty, and the caller's entries win |
| Events.KeptIff | src/Opserver.js:284-289 | an event survives the filter exactly when it was built and its name contains no entry of its kind's list |
| Events.KeptAllWhenNothingExcluded | src/Opserver.js:56 | with the default lists every built event is kept, in order |
| Events.KeptAllWhenListsEmpty | src/Opserver.js:285 | when the list of every kind is empty, the filter keeps every event, in order |
| Events.DataReads | src/Opserver.js:327-338 | the data object listeners receive has the nine keys of `OpserverEventData` in the scaffold's order, and reads back its record, kind, name and path |
| Events.Scaffold | src/Opserver.js:327-338 | the scaffold carries the record and its kind, and has no event name, changed path or looked-up value (`setVal` is `null`) yet |
| Events.BuildInsertEvent | src/Opserver.js:380-388 | exactly one event named `insert:<ns>`, with `doc` and `operation` both the body and `id` its `_id`; it rejects exactly when the body is missing |
| Events.BuildDeleteEvent | src/Opserver.js:398-406 | the same, with the name `delete:<ns>` |
| Events.DbName | src/Opserver.js:435 | the database name is the namespace up to its first `'.'` |
| Events.PathEvents | src/Opserver.js:452-465 | one copy of the data per path, each named `update:<ns><path>` and tagged with that path, and otherwise unchanged |
| Events.Enrich | src/Opserver.js:484-496 | every event gets the same fetched document, and the result of `get` on that document and its own path |
| Events.BuildUpdateEvents | src/Opserver.js:416-510 | it rejects exactly when `o2` or `o` is missing, and yields `[]` without a `$` key. Otherwise there is one event per changed path carrying that path, the name, `o`, `o2` and `o2._id`. It is enriched only with a truthy connection and a found document. It never settles exactly when `findOne` fails |
| Events.BuildOpserverEvents | src/Opserver.js:303-370 | an op code other than `i`, `u`, `d` rejects with the incorrect-type error, and only then; every built event carries the record, its kind, and its own name |
| Events.PublishedIff | src/Opserver.js:276-294 | an event is published for a record exactly when the build resolves with it and it is not excluded; otherwise nothing is published |
| Emitter.IsMatchIffAllMatch | src/Opserver.js:185-195 | the count of matching keys equals the number of keys exactly when every key's value is strictly equal; an empty pattern matches |
| Emitter.CountMatches | lib/Opserver.js:249-258 | the counting loop computes that count |
| Emitter.DeliverOne | src/Opserver.js:170-199 | calling one listener logs the call (and the handler a matching wrapper invokes), publishes nothing, never unsettles or changes a settled promise, and a caller's own function or a binding changes nothing else |
| Emitter.DeliverAllCalls | src/Opserver.js:286-289 | the listener calls of a delivery depend only on the listener list and the data; nothing is published by it |
| Emitter.DeliverAllRegistry | src/Opserver.js:195-197 | a registration disappears exactly when a delivered listener removes it |
| Emitter.DeliverAllResolved | src/Opserver.js:195-197 | a promise settles exactly when its matching listener is delivered to; it settles with that data, and a settled promise keeps its value |
| Emitter.EmittedCalls | src/Opserver.js:287 | an `emit` is logged and calls exactly the listeners registered when it started |
| Emitter.OnceMatcherSettles | src/Opserver.js:163-205 | on an event of its name, the `onceMatched` listener is called. On a match it removes itself and settles its promise with the data. Otherwise it stays registered and the promise stays open |
| Emitter.NotRegisteredNotCalled | src/Opserver.js:196 | a listener no longer registered is never called again |
| Emitter.MatchWrapperStays | lib/Opserver.js:306-365 | the `onMatched` wrapper is never removed by an event. On a match it calls the handler and removes the handler's own registration, not itself |
| Emitter.AddedMembers | src/Opserver.js:147 | `on(name, f)` adds exactly the registration of `f` under `name` and every other name keeps the same listeners |
| Emitter.RemovedIff | src/Opserver.js:196 | `removeListener(name, f)` takes out exactly the registrations of `f` under `name`, and nothing else |
| Emitter.AddedAllMembers | src/Opserver.js:142-148 | registering a list adds exactly its listeners, each under its own name |
| Emitter.RemovedAllMembers | src/Opserver.js:151 | calling a remover takes out exactly its (name, listener) targets |
| Emitter.BindingsAreNew | src/Opserver.js:142-144 | each `bind` makes a new function: the bindings of one call are pairwise distinct, and none is registered yet |
| Emitter.Stored | src/Opserver.js:139-145 | every value the map holds is a binding made for the name it is stored under |
| Emitter.StoredIsBinding | src/Opserver.js:139-145 | every value the map holds is one of the bindings the loop made |
| Emitter.StoredIsLast | src/Opserver.js:145 | the map keeps, for each name, the last binding made for it |
| Emitter.OnAnyRemover | src/Opserver.js:151 | the remover `onAny` returns targets each name, in order, with the binding its map stores for that name, and every name has one |
| Emitter.OnAnyRemoverLeaves | lib/Opserver.js:160-205 | after `onAny` and its remover, the binding for a name is still registered exactly when that name occurs again later in the list |
| Emitter.OnAnyRemoverKeepsOthers | src/Opserver.js:133-152 | `onAny` followed by its remover leaves every other listener as it was |
| Emitter.EmittedAllPublished | src/Opserver.js:286-289 | emitting a list logs exactly that list, in order |
| Engine.EmittedUnderOwnName | src/Opserver.js:286-288 | each emitted pair is an event name with data whose `event` property is that name and whose `oplogDoc` is the record |
| Engine.Opserver.constructor | src/Opserver.js:42-56 | the bus starts empty, the connections are kept, and `excludes` gets the defaults |
| Engine.Opserver.On | src/Opserver.js:147 | `on` appends the listener under the name |
| Engine.Opserver.RemoveListener | src/Opserver.js:196 | `removeListener` takes out every registration of that function under the name |
| Engine.Opserver.Deliver | src/Opserver.js:170-199 | calling one listener changes the state as `DeliverOne` says, and keeps the invariant |
| Engine.Opserver.RunOnceMatcher | src/Opserver.js:170-199 | the `onceMatched` listener counts matches; on a match it removes itself and settles its promise |
| Engine.Opserver.RunMatchWrapper | src/Opserver.js:222-251 | the `onMatched` wrapper counts matches; on a match it removes the handler and calls it |
| Engine.Opserver.Emit | src/Opserver.js:287 | `emit` changes the state as `Emitted` says and keeps the invariant |
| Engine.Opserver.OnAny | src/Opserver.js:133-152 | one fresh binding is registered per name, in order, and the returned remover is the one `OnAnyRemover` describes |
| Engine.Opserver.BindAll | src/Opserver.js:142-148 | the loop registers one fresh binding per name, in order, and leaves in its map, for each name, the last binding made for it |
| Engine.Opserver.Bind | src/Opserver.js:144-147 | one step of the loop: a new function bound to the name is registered under it |
| Engine.Opserver.Unsubscribe | src/Opserver.js:151 | calling a remover removes its targets in order |
| Engine.Opserver.OnceMatched | src/Opserver.js:163-205 | a fresh matcher is registered under the name, and its promise is returned unsettled |
| Engine.Opserver.OnMatched | src/Opserver.js:216-259 | a fresh wrapper is registered, and the returned remover targets exactly that wrapper |
| Engine.Opserver.FilterExcluded | src/Opserver.js:285 | the filter keeps exactly the events `Kept` describes |
| Engine.Opserver.EmitEach | src/Opserver.js:286-289 | the events are emitted in order, and exactly they are logged |
| Engine.Opserver.EmitOpserverEvent | src/Opserver.js:276-294 | the record's published events are emitted in build order, and exactly they are logged |

## Behaviour worth knowing

- A failed `findOne` on an update is only logged (src/Opserver.js:498-500).
  The promise returned by `buildUpdateEvents` then never settles, so that
  record publishes nothing. `Events.BuildUpdateEvents` yields `Pending`
  there.
- `onMatched`'s wrapper removes the caller's handler, not itself
  (src/Opserver.js:222-251). The wrapper stays registered and calls the
  handler on every matching event until its remover is called.
  `Emitter.MatchWrapperStays` proves that no event removes the wrapper.
- The JSDoc of `onAny` says the returned function removes all the listeners
  the call set up (src/Opserver.js:131). When a name is repeated, only the
  last binding per name is kept in the map, so the earlier binding stays
  registered. `Emitter.OnAnyRemoverLeaves` proves exactly when a binding
  stays.

## Left out

- The oplog wiring of the constructor, the `end`/`error` handlers and every `Logger` call: logging only. A rejected build is therefore only a `Rejected` value.
- `src/index.js` (connecting to MongoDB, listing databases, tailing the oplog) is not part of this model.
- The re-fetch is an input (`Fetch`): `collection()` throwing, `findOne` failing, or the found document. The collection name is passed only to the driver and does not appear. The order in which concurrent re-fetches of different records complete is not modelled; each record is dispatched on its own.
- `setVal` comes from lodash `get` with a `'.'`-prefixed path. It is an opaque function parameter (`getter`), because that path syntax is lodash's.
- The matchers' nested `get` is defined on the datatype by splitting on `'.'`. Lodash's bracket paths, keys that contain a dot, and properties of primitives (such as a string's `length`) are not modelled.
- `Values.StrictEquals` never holds for two plain objects: object identity of plain objects is not modelled, so an expected value that is a plain object never matches here. In the source it can: the per-path clones are shallow copies (src/Opserver.js:458), so the events of one update share `operation`, `query`, `oplogDoc` and, after a found lookup, `doc`, and a listener could pass one of them as an expected value to `onceMatched`. Numbers are unbounded integers, so `NaN` and floating point are not modelled.
- A plain object (`Value.Obj`) is a list of fields in key order. Distinct keys are not enforced; every read takes the first field of a name, as an object with unique keys would.
- `OplogDoc.AsValue`, the record as listeners see it under `oplogDoc`, has only the `op`, `ns`, `o` and `o2` fields. Other oplog fields (`ts`, `h`, `v` and so on) are not modelled, so a matcher on them reads `undefined` here.
- Arrays and other non-plain objects are opaque values compared by reference. Their elements and index keys are not modelled. `Object.keys` of such values, and of strings, reports no keys, and no such key starts with `'$'`.
- A `valuesToMatch` object is a list of distinct keys with their expected values, in key order.
- The Bluebird promise and its `asCallback(cb)` are not modelled. A promise is an id, and `resolved` holds the value it settled with.
- Engine.Opserver.OnAny, Engine.Opserver.Unsubscribe, Engine.Opserver.OnceMatched, Engine.Opserver.OnMatched: the caller's `eventStrings` array and `valuesToMatch` object are read live in the source, but here they are fixed at registration: the names inside the `Remover` value, the pattern inside `OnceMatcher` and `MatchWrapper`. The remover of `onAny` walks the array as it is when the remover is called (src/Opserver.js:151). A name pushed after the call has no stored binding, so the source calls `removeListener(name, undefined)`, which in EventEmitter3 removes every listener of that name, other callers' included. A name taken out of the array keeps its binding registered. Both matchers read `Object.keys(valuesToMatch)` and `valuesToMatch[key]` again on every event (src/Opserver.js:176-186, 228-238), so changing the object after registration changes which events match. Neither mutation is modelled.
- EventEmitter3 is not part of this model. Only the behaviour the code relies on is modelled: `on` appends; `removeListener(name, fn)` removes every registration of `fn` under `name` and drops the name when none is left; `emit` calls the listeners present when it started, in order. Its `context` and `once` options and the `newListener` bookkeeping are not modelled.
- The per-path clones of an update are independent values. The source's clones are shallow copies that share their nested objects. A listener that mutates such an object would change what later events of the same record carry. That sharing is not modelled.
- Engine.Opserver.Emit, Engine.Opserver.EmitOpserverEvent: a caller's function (`Callback`, and the handler inside a binding or an `onMatched` wrapper) is modelled as returning normally and leaving the bus alone. In the source, a listener that throws ends `emit`. The exception leaves the `.then` of `emitOpserverEvent` and is only logged (src/Opserver.js:292), and the record's remaining kept events are not emitted. A listener may also call `on`, `removeListener` or `emit` while a dispatch is running. Neither is modelled, so "exactly the kept events are emitted" holds only for listeners that return normally and do not touch the bus.
