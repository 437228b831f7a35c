# Verified model of async-graphql

A Dafny model of the parts of async-graphql in which state, recursion and ordering are hard to get
right, with proofs about every run, every document and every schema:

- **Data loader** (`CacheStorage`, `LruOrder`, `BatchProtocol`, `BatchTheorems`, `BatchingRuns`,
  `CacheRuns`, `DataLoader`). The shared `Requests` entry, the two cache switches, sleeping fetch timers
  and in-flight batches form one state machine. A run is any sequence of enabled steps: calls, timers,
  batches that return or fail, feeds, clears, switches, callers that give up. `BatchProtocol` defines the
  steps, `BatchTheorems` proves what every run keeps, and the class in `DataLoader` contains the critical
  sections with their loops, each proved to be one step of the machine. `entries` of a returned batch is
  the returned map in its iteration order, so every order is covered.
- **Query documents** (`Documents`, `DepthLimits`, `Pruning`, `Traversals`, `PrepareRequest`). Fragments
  may be cyclic. A *descent chain* is a sequence of selection sets in which each is entered from the one
  before; `Within` bounds it, `Finite` says that some bound exists, and `Height` is the measure by which
  the later, unguarded traversals terminate. `Meaning` is the independent reading of a selection set: the
  ordered fields with the type conditions that guard them and their nested meanings, `@skip` and
  `@include` evaluated in place (sections 3.13.1, 3.13.2 and 6.3.2 of the GraphQL specification, October
  2021).
- **Dynamic schema** (`TypeRefs`, `TypeValues`, `DynamicSchema`, `InputCycles`, `InputValues`,
  `SchemaCheck`, `SchemaRules`, `InterfaceExample`, `Paths`, `DynamicResolve`, `CheckedSchemas`,
  `ClashWitness`, `ResolveTheorems`, `ErrorPlaces`, `ReferenceExecution`, `PreparedExecution`,
  `IntrospectionMode`). `finish` assembles and checks a schema; resolution interprets whatever the
  resolvers return against it. Resolver results, scalar validators and the order in which list elements
  fail are function parameters of the environment, so the theorems quantify over all of them. The
  out-of-bounds map index in `resolve` is modelled as an error of its own (`MissingType`).
- **Small components** (`Uploads`, `MultipartMixed`, `Positions`). Upload placement, the multipart/mixed
  framing and incremental source positions.

`Wrappers` and `Collections` hold shared result types and set and sequence facts.

Where the code and its own comments disagree, the model follows the code:

- `a.is_subtype(b)` holds when `b` is the tighter type, so the calls in `check_is_valid_implementation`
  test the opposite of the covariance that the comment at `src/dynamic/check.rs:424` asks for, and let an
  argument become tighter. `AcceptedIsCovariantIffEqual` and `AcceptedArgumentTakesAllIffEqual` give the
  exact condition, `ResultTest` and `ArgumentTest` what `finish` accepts, `BackwardsTest` concrete schemas.
- A user object called `_Entity` is overwritten by the entity union after the possible types of
  interfaces were computed. `NeverWrongIffNoReachableClash` proves that a checked schema can run into the
  "is not object" branch exactly when an interface that is reachable from a root has this name among its
  possible types; `ClashSchemaAccepted` and `ClashSchemaGoesWrong` give accepted schemas and a query.
- A type condition matches the object's own name or what the object declares, not what its interfaces
  implement. `InterfaceOccurrences` says exactly which occurrences of an interface field become tasks;
  `ParentConditionDrops` and `UndeclaredParentAccepted` show one that is dropped.
- User types with the names of system scalars need no assumption: registration rejects them.
- The comment at `src/dynamic/check.rs:233` speaks of chains of references; the code counts exactly the
  fields of type `b!`. `ValuesIffAcyclic` shows that this is the right test for finite values, and
  `OneofWithoutValue` that it says nothing about oneof objects.
- The tests on an interface's own `implements` run once per field, so an interface without fields skips
  them (`InterfaceOk`).

## Model

| member | source | states |
|---|---|---|
| CacheStorage.GetContract | src/dataloader/cache.rs:67-215 | for all three storages a lookup is answered from the pairs that iteration shows, and touching an entry (LRU reordering) changes none of them |
| CacheStorage.InsertContract | src/dataloader/cache.rs:67-215 | an insertion invents nothing: every pair afterwards is the inserted one or was there before; a hash map, and an LRU cache that already has the key or has room, forget nothing; a full LRU cache forgets exactly the pair used longest ago |
| CacheStorage.RemoveContract | src/dataloader/cache.rs:67-215 | removal and clearing act on the observable pairs as on a map, for all three storages |
| CacheStorage.InsertAllContents | src/dataloader/mod.rs:163-167 | whatever a run of insertions leaves in any storage was there before or was inserted |
| LruOrder.EvictsLeastRecentlyUsed | src/dataloader/cache.rs:160-215 | after any history of gets, insertions, removals and clears, a full LRU cache that takes a new key loses exactly the pair whose key was asked for or inserted longest ago |
| CacheStorage.Cache.Get | src/dataloader/cache.rs:28-30 | in place: the hit is the stored value, contents and validity are kept |
| CacheStorage.Cache.Insert | src/dataloader/cache.rs:32-34 | in place: the contents are updated at the key, less the pair used longest ago when an LRU cache is full; the storage stays valid |
| CacheStorage.Cache.Remove | src/dataloader/cache.rs:36-37 | in place: exactly the key disappears |
| CacheStorage.Cache.Clear | src/dataloader/cache.rs:39-40 | in place: nothing is left |
| BatchTheorems.LookFacts | src/dataloader/mod.rs:324-339 | the cache pass splits a request into disjoint hits and missing keys that together are the request; hits are cached values; the observable cache is unchanged |
| BatchTheorems.NextKeepsInv | src/dataloader/mod.rs:317-409 | every step keeps: `keys` is the union of the queued key sets, none of them empty; a non-empty `keys` has a sleeping timer; `keys` stays below the limit; tasks find their entry |
| BatchTheorems.NextHolds | src/dataloader/mod.rs:144-186 | a step neither duplicates nor loses the sender of any call; only a call creates one |
| BatchTheorems.RunKeeps | src/dataloader/mod.rs:317-412 | the invariant and the conservation of senders hold after every run |
| BatchTheorems.ExactlyOnce | src/dataloader/mod.rs:347-412 | in every run no sender is dropped unsent, and the sender of each call is in the queue, in one batch or used once, and only one of these |
| BatchTheorems.NoLostWakeup | src/dataloader/mod.rs:357-368 | a waiting call always has a task that can still run; without tasks the queue is empty and every call is answered |
| BatchTheorems.TaskProgress | src/dataloader/mod.rs:383-408 | while work is left some task step is enabled, and each task step reduces the work |
| BatchTheorems.Draining | src/dataloader/mod.rs:388-404 | a run of task steps is no longer than the work at its start and, when it cannot go on, every call has exactly one reply |
| BatchTheorems.EveryoneAnswered | src/dataloader/mod.rs:371-412 | after any run, draining the tasks answers every call exactly once within the work that was left |
| BatchTheorems.LoadBatchSize | src/dataloader/mod.rs:357-358 | an immediate batch exceeds `max_batch_size - 1` by at most the caller's own distinct keys |
| BatchTheorems.TimerBatchSize | src/dataloader/mod.rs:391-403 | a batch started by a timer stays below `max_batch_size` |
| BatchTheorems.BatchSizes | src/dataloader/mod.rs:108-113 | in every run whose calls ask for at most `m` distinct keys all batches have at most `max_batch_size - 1 + m` keys, so runs of `load_one` never exceed the limit; `keys` is the union of the queue and stays below the limit |
| BatchTheorems.AnswerExact | src/dataloader/mod.rs:171-178 | cached and loaded values of a caller together are the data source restricted to what it asked, even if the loader returned more |
| BatchTheorems.RunFaithful | src/dataloader/mod.rs:152-178 | with an honest loader and honest feeds, cache contents, queued cached values and all replies agree with the data source after every run |
| BatchTheorems.Transparent | src/dataloader/mod.rs:303-413 | for every cache kind, interleaving, clear and switch, each successful `load_many` returns exactly the source restricted to its keys |
| BatchTheorems.CachedCallAnsweredAtOnce | src/dataloader/mod.rs:331-345 | with the cache on, a call for cached keys is answered from the cache and adds no work |
| BatchTheorems.BatchFillsCache | src/dataloader/mod.rs:161-168 | a returned batch adds everything the loader returned to a hash-map cache, unless the type is off now or the loader was off at spawn time |
| BatchTheorems.OffKeepsCache | src/dataloader/mod.rs:374-402 | while the loader stays off and nothing is fed, no batch of any run changes the cache |
| CacheRuns.RunStaysOn | src/dataloader/mod.rs:374-402 | in every run during which nothing is switched off, no spawned task is told to leave the cache alone |
| CacheRuns.LaterCallsAreCached | src/dataloader/mod.rs:161-168 | in such a run with a hash-map cache, what a batch returned answers later calls at once and without work, until a clear, a feed or a later batch replaces it |
| CacheRuns.SwitchesWork | src/dataloader/mod.rs:270-288 | switching on makes cached pairs count, switching either switch off makes a call ask for all its keys; neither touches the pairs |
| CacheRuns.FedIsAnswered | src/dataloader/mod.rs:420-438 | pairs that were fed answer later calls at once |
| CacheRuns.LastInsertedCounts | src/dataloader/mod.rs:420-438 | of several fed pairs with the same key the last one counts |
| CacheRuns.ClearForgets | src/dataloader/mod.rs:458-471 | after a clear every call asks for all its keys, whatever the cache kind |
| CacheRuns.UseRegisters | src/dataloader/mod.rs:317-323 | a key type is registered by its first call, feed or clear, and stays so |
| BatchingRuns.LoadExact | src/dataloader/mod.rs:317-410 | a call with nothing to load is answered at once; below the limit it waits, and only the first waiting call starts a timer; at the limit everything that waits goes out as one batch with the current switch |
| BatchingRuns.TimerExact | src/dataloader/mod.rs:384-404 | a waking timer hands over everything that waits as one batch with the switch of the moment it was started; a late timer does nothing |
| BatchingRuns.CallsShareOneBatch | src/dataloader/mod.rs:341-404 | any number of calls that together stay below the limit start one timer and end in one batch with all their keys |
| DataLoader.DataLoader.constructor | src/dataloader/mod.rs:225-242 | the object starts in the initial state of the protocol |
| DataLoader.DataLoader.Take | src/dataloader/mod.rs:108-113 | hands over keys and queue and leaves both empty |
| DataLoader.DataLoader.LookUp | src/dataloader/mod.rs:325-339 | the loop over the keys computes the cache pass of the protocol |
| DataLoader.DataLoader.Submit | src/dataloader/mod.rs:347-410 | queueing, the decision and the spawned task are the protocol's enqueue |
| DataLoader.DataLoader.LoadMany | src/dataloader/mod.rs:303-413 | a call is one step of the protocol and keeps its invariants |
| DataLoader.DataLoader.FireTimer | src/dataloader/mod.rs:388-404 | a waking timer is one step of the protocol |
| DataLoader.DataLoader.Assemble | src/dataloader/mod.rs:172-176 | the key-by-key loop assembles the caller's answer |
| DataLoader.DataLoader.Complete | src/dataloader/mod.rs:153-179 | a returning batch, cache fill and replies included, is one step of the protocol |
| DataLoader.DataLoader.Fail | src/dataloader/mod.rs:180-184 | a failing batch sends its error to all its callers, as one step |
| DataLoader.DataLoader.FeedMany | src/dataloader/mod.rs:420-438 | feeding inserts the pairs in order, as one step |
| DataLoader.DataLoader.Clear | src/dataloader/mod.rs:458-471 | clearing empties the cache, as one step |
| DataLoader.DataLoader.EnableCache | src/dataloader/mod.rs:275-288 | sets the switch of a key type that has been used |
| DataLoader.DataLoader.EnableAllCache | src/dataloader/mod.rs:270-272 | sets the switch of the loader |
| DataLoader.LoadOneExact | src/dataloader/mod.rs:292-299 | a successful `load_one(key)` returns what the source has for the key, in every honest run |
| Documents.WithinIffChains | src/schema.rs:727-779 | the recursive bound says exactly that no descent chain is longer |
| Documents.ReachableCycleNotFinite | src/schema.rs:755-766 | a fragment cycle reachable from a selection set defeats every limit |
| Documents.FiniteIffNoReachableCycle | src/schema.rs:726-786 | some limit admits a selection set if and only if no fragment it reaches lies on a cycle |
| DepthLimits.CheckDepth | src/schema.rs:727-779 | terminates on cyclic fragments and succeeds iff the remaining depth bounds all descents |
| DepthLimits.CheckRecursiveDepth | src/schema.rs:726-786 | fails iff some operation starts a descent chain with more than `max_depth` descents |
| DepthLimits.PassesForSomeLimit | src/schema.rs:726-786 | a document passes for some limit iff no operation reaches a fragment cycle |
| DepthLimits.DepthOfOne | src/schema.rs:727-779 | a leaf costs nothing; a field with sub-selections, a known fragment and an inline fragment cost one more than what they contain |
| DepthLimits.LadderDepth | src/schema.rs:726-786 | fields nested `k` deep pass exactly the limits from `k` on |
| DepthLimits.CheckDirectives | src/schema.rs:680-717 | terminates on every set that passed the depth check and succeeds iff every field that any descent meets is within the limit |
| DepthLimits.CheckMaxDirectives | src/schema.rs:679-724 | the same for all operations of a document that passed the depth check |
| DepthLimits.DirectivesOfOne | src/schema.rs:680-717 | the limit counts the directives of fields, not of fragments, wherever a descent goes |
| Pruning.ConditionHolds | src/schema.rs:797-803 | a condition holds iff it is the literal `true` or a request variable set to `true`; everything unresolvable is false |
| Pruning.PruneLeavesOut | src/schema.rs:789-834 | a selection is removed iff it has a `@skip` whose first `if` is true or an `@include` whose first `if` is not; otherwise it loses only the two directives |
| Pruning.MeaningLeavesOut | src/schema.rs:789-811 | the reference meaning leaves out the same selections; a field that stays means itself, a fragment what it contains |
| Pruning.SkipAndInclude | src/schema.rs:788-834 | `@skip(if: b)` and `@include(if: b)` on any field, with a literal or a request variable |
| Pruning.UnsetVariable | src/schema.rs:797-803 | a variable that the request does not set counts as false |
| Pruning.SkipTest | src/schema.rs:789-811 | the loop answers whether some `@skip` or `@include` with an `if` argument removes the selection |
| Pruning.RemoveSkippedSelection | src/schema.rs:788-834 | the three in-place passes compute the one-pass recursive pruning |
| Pruning.RemoveSkippedInFragments | src/schema.rs:918-920 | the loop prunes every fragment and keeps names and type conditions |
| Pruning.PruneUnconditional | src/schema.rs:817-821 | no `@skip` or `@include` is left at any depth |
| Pruning.PruneIdempotent | src/schema.rs:788-834 | pruning again, under any variables, changes nothing |
| Pruning.PruneWithin | src/schema.rs:917-921 | the depth bound survives pruning of the set and of the fragments |
| Pruning.PrunePreservesMeaning | src/schema.rs:917-921 | the pruned set with pruned fragments means, at every nesting level, what the original means with the directives evaluated in place |
| Traversals.SelectionFieldsIter.constructor | src/context.rs:819-825 | a new iterator has exactly the flattening of its set ahead of it |
| Traversals.SelectionFieldsIter.Next | src/context.rs:857-889 | the stack loop terminates by the unfolded size and yields the next field of the flattening, or nothing when it is exhausted |
| Traversals.CollectSelectionSet | src/context.rs:854-890 | running the iterator to its end gives exactly the recursive depth-first flattening |
| Traversals.Filter | src/look_ahead.rs:104-127 | pushes exactly the fields of the flattening with the given name, in order |
| Traversals.LookaheadField | src/look_ahead.rs:34-45 | equals the concatenation over its fields of their flattenings filtered by name |
| Traversals.FlattenIsMeaning | src/context.rs:854-890 | the flattening lists exactly the selected entries of the meaning, with nested meanings |
| Traversals.LookaheadFindsMeaning | src/look_ahead.rs:28-51 | a chain of `field` calls is non-empty iff the selection set means a chain of nested fields with those names |
| PrepareRequest.Prepare | src/schema.rs:837-937 | the errors in the order of the passes; otherwise the chosen operation and all fragments, pruned and unconditional, within the depth bound and with the original meaning |
| PrepareRequest.ChooseExact | src/schema.rs:887-912 | an operation is chosen iff it is the only one and no name is given, or has the given name, or is the only one of a list; the two errors arise exactly otherwise |
| PrepareRequest.PreparedWalksOriginal | src/schema.rs:917-928 | walking a prepared set yields the fields of the original after directive evaluation |
| PrepareRequest.PreparedLookahead | src/look_ahead.rs:34-51 | look-ahead on a prepared field answers about the original field |
| PrepareRequest.PreparedFields | src/look_ahead.rs:34-51 | on what preparation returns, the walk yields the fields of the chosen operation and a chain of look-aheads on each of them answers about the document as it was sent |
| TypeRefs.SubtypeIsErasure | src/dynamic/type_ref.rs:121-137 | `is_subtype` holds iff the left type is the right one with some `NonNull` wrappers erased; the greedy case loses no solution |
| TypeRefs.SubtypePartialOrder | src/dynamic/type_ref.rs:121-137 | reflexive, antisymmetric, transitive, and only between types of the same name |
| TypeValues.IncludesIffSubtype | src/dynamic/type_ref.rs:121-137 | for the same named type, the left type admits every value that the right one admits iff `is_subtype` holds, doubled `NonNull` wrappers aside |
| TypeValues.DoubledNonNull | src/dynamic/type_ref.rs:121-137 | a doubled `NonNull` admits the same values and is told apart all the same |
| DynamicSchema.Register | src/dynamic/schema.rs:42-46 | a type is stored under its own name and displaces only a type of that name |
| DynamicSchema.UpdateInterfacePossibleTypes | src/dynamic/schema.rs:501-527 | the nested loops give each interface exactly the objects that declare to implement it |
| DynamicSchema.PossibleExactly | src/dynamic/schema.rs:501-527 | the possible types of an interface are exactly the objects that declare it |
| DynamicSchema.Assemble | src/dynamic/schema.rs:150-220 | registration fails exactly on taken names, or under federation on a query type that the registry does not know; otherwise scalars, possible types and entity union are in place |
| DynamicSchema.SystemScalars | src/dynamic/schema.rs:171-175 | the five system scalars are registered, and a user type with one of their names is a conflict |
| DynamicSchema.EntitiesExactly | src/dynamic/schema.rs:185-206 | the entity union has exactly the keyed objects and interfaces; federation is on iff asked for or some resolvable keyed object or keyed interface is registered |
| DynamicSchema.PossibleTypesAreObjects | src/dynamic/schema.rs:501-527 | a possible type is an implementing object and, but for `_Entity` under federation, still is in the finished type map |
| InputCycles.CheckReference | src/dynamic/check.rs:244-281 | the shared-set search terminates and fails iff required references lead back without passing the chain; on success the chain is restored |
| InputCycles.CheckInputObjects | src/dynamic/check.rs:189-242 | accepts iff all input fields are well formed and the graph of required references has no cycle; a self-reference error names an object on a cycle |
| InputCycles.RankFalls | src/dynamic/check.rs:233-237 | without cycles there is a rank that falls along every required reference |
| InputCycles.RankAlongPath | src/dynamic/check.rs:233-237 | conversely a falling rank rules out cycles |
| InputValues.RefersExactly | src/dynamic/check.rs:250-258 | a reference counts iff its field has the type `b!`; nullable and list fields add nothing |
| InputValues.ValuesIffAcyclic | src/dynamic/check.rs:233-237 | every input object has a finite value iff required references form no cycle, for types without doubled `NonNull` |
| InputValues.RecursiveInputs | src/dynamic/check.rs:250-281 | `input A { next: A }` and `input A { next: [A!]! }` have no cycle, `input A { next: A! }` has one |
| InputValues.OneofWithoutValue | src/dynamic/check.rs:213-231 | the check knows nothing of oneof objects: `input A @oneOf { next: A }` passes and has no value |
| SchemaCheck.CheckTypesExist | src/dynamic/check.rs:49-113 | the loops find every name that is used and not registered, the roots for queries and mutations included |
| SchemaCheck.CheckValidImplementation | src/dynamic/check.rs:378-439 | the loops over fields and arguments decide the implementation test, in the direction in which the source makes it |
| SchemaCheck.CheckObjects | src/dynamic/check.rs:116-187 | the loops accept exactly the objects with fields (or a query type beside entities), well-formed fields and arguments, and valid implementations |
| SchemaCheck.CheckInterfaces | src/dynamic/check.rs:283-350 | the loops accept exactly the interfaces whose fields pass, each together with the tests on `implements` |
| SchemaCheck.CheckUnions | src/dynamic/check.rs:352-375 | the loops accept exactly the unions whose registered members are objects |
| SchemaCheck.Check | src/dynamic/check.rs:13-21 | the six passes in order succeed iff all six conditions hold; a self-reference error names an object on a cycle |
| SchemaCheck.Finish | src/dynamic/schema.rs:150-223 | succeeds iff no registered name is taken and the assembled schema passes all checks |
| SchemaRules.AcceptedIffFaultless | src/dynamic/check.rs:13-439 | a schema is accepted iff none of 26 listed faults occurs in it: unknown names, wrong roots, missing or reserved names, wrong kinds of types, wrong implementations, wrong members, cycles |
| SchemaCheck.PossibleTypeDefinesFields | src/dynamic/check.rs:378-391 | a possible type of an interface declares to implement it and defines all its fields, with types of the same name |
| SchemaCheck.AcceptedIsCovariantIffEqual | src/dynamic/check.rs:424-435 | an accepted implementation is covariant in a field iff the two types are equal; everything it may return is promised by the interface iff they are the same but for doubled `NonNull` |
| SchemaCheck.AcceptedArgumentTakesAllIffEqual | src/dynamic/check.rs:393-421 | an accepted implementation takes every value that the interface promises to take iff the two argument types are the same but for doubled `NonNull` |
| InterfaceExample.InterfaceSchemaAccepted | src/dynamic/interface.rs:292-334 | for all usable names, a schema whose query returns an interface with one implementing object is accepted iff the object's field passes the implementation test or the object is overwritten by the entity union |
| InterfaceExample.ResultTest | src/dynamic/check.rs:423-435 | `finish` accepts a result type iff it is the interface's with some `NonNull` wrappers erased |
| InterfaceExample.ArgumentTest | src/dynamic/check.rs:410-421 | `finish` accepts an argument type iff it is the interface's with some `NonNull` wrappers added |
| InterfaceExample.BackwardsTest | src/dynamic/check.rs:410-435 | concrete schemas: a nullable result for a non-null field and a required argument for an optional one are accepted, the covariant choices rejected |
| Paths.WithField | src/context.rs:316-331 | extends the path of the context by the response key |
| Paths.WithIndex | src/context.rs:606-621 | extends the path of the context by the index |
| Paths.PushSegments | src/context.rs:190-198 | the recursion through parents pushes the path root first |
| Paths.ErrorPath | src/context.rs:349-362 | an error gets the path of the context, or keeps its own if there is none |
| Paths.Parents.Next | src/context.rs:215-225 | yields the ancestors one by one and stays at the root |
| Paths.AncestorsReversePath | src/context.rs:171-174 | the ancestors are the path read backwards |
| Paths.FieldName | src/context.rs:148-156 | finds the key nearest to the leaf; cannot fail on a path that starts with a field |
| DynamicResolve.CollectFields | src/dynamic/resolve.rs:278-390 | terminates on a depth-checked set; fails with the first unknown fragment in a matching position, else pushes one task per applicable field that adds one, in order |
| DynamicResolve.DispatchExact | src/dynamic/resolve.rs:479-654 | exactly when a value is entered as which object, when it is finished as which output (a valid scalar unchanged, an enum item as that item), and when it is refused with which error |
| CheckedSchemas.DispatchClean | src/dynamic/resolve.rs:479-654 | at a reachable output type of a checked schema no forbidden branch is taken and the entered object is a reachable one |
| CheckedSchemas.NeverGoesWrong | src/dynamic/schema.rs:320-363 | for any query or mutation and any resolver results, no type lookup misses and no "cannot use", "does not registered" or "is not object" error arises; roots are found |
| ClashWitness.ClashGoesWrong | src/dynamic/resolve.rs:562-578 | along every walk of types from a root to an interface with the overwritten `_Entity` there are a request and resolvers whose execution logs the "is not object" error |
| ClashWitness.NeverWrongIffNoReachableClash | src/dynamic/resolve.rs:539-588 | over all requests, resolvers and root values, an accepted schema, in the introspection mode it was built with, never takes a forbidden branch iff no reachable interface has the overwritten `_Entity` among its possible types |
| ClashWitness.NoClashNoReachableClash | src/dynamic/schema.rs:180-203 | a condition on the builder that is enough: no registered object `_Entity` implements a registered interface, or federation is off |
| ClashWitness.ClashSchemaAccepted | src/dynamic/schema.rs:180-203 | `finish` accepts schemas with such an interface |
| ClashWitness.ClashSchemaGoesWrong | src/dynamic/resolve.rs:562-578 | on them the query `{ f { __typename } }` logs the error, in a request without introspection |
| ResolveTheorems.CollectsMeaning | src/dynamic/resolve.rs:338-385 | collecting yields exactly the entries of the meaning whose type conditions all match the object, and fails iff an unknown fragment is among them |
| ResolveTheorems.ResolverRunsOriginal | src/dynamic/resolve.rs:278-390 | on a prepared request these are the fields of the original document |
| ResolveTheorems.InterfaceFieldsKept | src/dynamic/resolve.rs:539-588 | a value resolved through an interface enters an object that declares it and defines all its fields; each applicable occurrence of one becomes exactly one task, in its place, whatever is selected beside it |
| ResolveTheorems.InterfaceOccurrences | src/dynamic/resolve.rs:334-375 | an occurrence in the document becomes exactly one task iff its type conditions are the interface, the object or names that the object declares; otherwise it adds nothing |
| ResolveTheorems.ParentConditionDrops | src/dynamic/resolve.rs:370-375 | a fragment on a parent of the interface yields nothing for an object that does not declare the parent, although both declare the field |
| ResolveTheorems.UndeclaredParentAccepted | src/dynamic/check.rs:175-182 | `finish` accepts schemas in which this happens |
| ResolveTheorems.ListsKeepShape | src/dynamic/resolve.rs:436-477 | a successful resolve keeps list lengths and order at every nesting: each element of the output is what its own value is finished as or what the object it enters resolves to, at its own path |
| ResolveTheorems.ShapeDetermines | src/dynamic/resolve.rs:436-477 | no other output has that shape, so exchanging two different elements breaks it |
| ResolveTheorems.ConstantsKept | src/dynamic/resolve.rs:436-488 | a successful resolve at nested lists of a scalar gives exactly the constants that the resolver handed over, each in its place |
| ResolveTheorems.ListOutcome | src/dynamic/resolve.rs:475-476 | the errors that the elements of a list logged are all logged, in place; any failing element can be the one whose error is reported |
| ResolveTheorems.ErrorsArePlaced | src/dynamic/resolve.rs:392-477 | an error names a place where the value does not fit and carries the field path followed by the indices that lead there |
| ResolveTheorems.MisfitsFail | src/dynamic/resolve.rs:392-477 | a misfit anywhere in nested lists makes the resolve fail |
| ResolveTheorems.SucceedsIffNothingOffends | src/dynamic/resolve.rs:392-477 | a resolve succeeds iff nothing offends anywhere in the nested lists |
| ErrorPlaces.ExecutionErrorsArePlaced | src/dynamic/resolve.rs:392-477 | every error added to the response carries the response keys and indices that lead from the root to a place that is at fault (none for failed resolvers and unknown fragments); an error returned for the whole operation has no path and is a missing root, a subscription or an unknown fragment |
| PreparedExecution.RunsMeaning | src/dynamic/resolve.rs:278-390 | resolution follows the meaning of a selection set at every nesting level, whatever objects the resolvers return |
| ReferenceExecution.ContainerAgrees | src/dynamic/resolve.rs:28-40 | resolving an object gives the record and the errors of a reference executor that works on the meaning: one entry under its response key or one error per field, in order, at every level |
| PreparedExecution.PreparedExecutes | src/dynamic/schema.rs:320-363 | executing what preparation returned, on a checked schema, takes no forbidden branch and runs at every level exactly the fields of the document as it was sent |
| PreparedExecution.PreparedIsReference | src/schema.rs:917-937 | executing a prepared request is reference execution of the document as it was sent, for all resolvers that see a selected field through its meaning |
| IntrospectionMode.IntrospectionRunsNoResolver | src/dynamic/resolve.rs:322-332 | with a schema or a request for introspection only, the outcome does not depend on the resolvers |
| Uploads.MarkerRoundTrip | src/request.rs:164 | the marker of an upload reads back as its number |
| Uploads.StepsRead | src/request.rs:146-156 | a step reads the element with its index or the member with its name |
| Uploads.SetKeepsDisjoint | src/request.rs:142-165 | overwriting the value at a path leaves every disjoint path unchanged |
| Uploads.Request.VariablePath | src/request.rs:143-157 | the walk finds the addressed place, or nothing |
| Uploads.TargetOfText | src/request.rs:143-157 | the dotted text of an existing path leads exactly there |
| Uploads.TextOfTarget | src/request.rs:143-157 | a path leads somewhere only if it starts with `variables.`, and then step by step to the member that a part names or the element whose index it gives |
| Uploads.Request.SetUpload | src/request.rs:142-165 | pushes the upload and writes its marker in place, or does nothing |
| Uploads.PlacedFacts | src/request.rs:136-165 | uploads grow by one exactly when the path resolves; the addressed value becomes the new marker; disjoint paths are unchanged |
| Uploads.PlacedAtText | src/request.rs:142-165 | the text of an existing path writes the marker of the new upload there |
| Uploads.MarkersSurvive | src/request.rs:142-165 | over any run a marker that is not overwritten at or above its place still names its upload |
| Uploads.UploadFound | src/request.rs:142-165 | the value written by a call reads back, after any later calls that leave it alone, as the number of the upload it brought |
| Uploads.MatchFiles | src/http/multipart.rs:168-204 | `MissingFiles` iff some mapped name has no file; otherwise the placements of the first file of each mapped name, in order |
| Uploads.PlacementsExact | src/http/multipart.rs:168-204 | the placements are those of the first file of each mapped name, in the order of files and paths, and nothing else |
| Uploads.RoutedText | src/http/multipart.rs:180-195 | the path of a batch addresses the request whose number it starts with |
| Uploads.TextOfRouted | src/http/multipart.rs:180-195 | a path that reaches a request of a batch is that request's number, a dot and the rest |
| Uploads.PlaceEachParts | src/http/multipart.rs:168-204 | placing into a batch is, for each of its requests, the run of the calls that reach it; for a single request all calls |
| Uploads.MappedFileReadsBack | src/http/multipart.rs:168-204 | after the file loop each mapped path that resolves and is not written over reads back as the number of its own file |
| MultipartMixed.MixedStream | src/http/multipart_subscribe.rs:26-54 | the generator loop emits header, body and line end per response, a heartbeat part per timer event and one terminator |
| MultipartMixed.EmittedText | src/http/multipart_subscribe.rs:10-14 | the format, byte by byte |
| MultipartMixed.FramingRoundTrip | src/http/multipart_subscribe.rs:10-56 | reading the emitted bytes as a multipart body gives back all parts in order, for every interleaving |
| MultipartMixed.ClientSeesResponses | src/http/multipart_subscribe.rs:10-56 | without heartbeats these are exactly the serializable responses |
| Positions.PositionCalculator.constructor | parser/src/pos.rs:127-134 | starts at line 1, column 1 of the whole text |
| Positions.LinesAndColumns | parser/src/pos.rs:136-161 | a line feed starts the next line, a carriage return goes back to the first column, and a column counts characters |
| Positions.Utf8Least | parser/src/pos.rs:140-155 | offsets advance by the least number of UTF-8 bytes that a character fits in |
| Positions.PositionCalculator.Step | parser/src/pos.rs:136-161 | returns the line and column that one scan of the text up to the offset gives |
| Positions.PositionsOf | parser/src/pos.rs:126-161 | the same for every step of any non-decreasing sequence of boundary offsets |

## Left out

- Real time, executors, wakers and tracing: steps of the data loader are atomic and happen in any order. A loader future that panics or never returns is outside the model.
- Several key types in one data loader: each has its own entry and cache, and one is modelled; the type-erased lookup is not.
- `EnableCache`: switching the cache of a key type that was never used panics in the source and is a precondition here.
- Which of several schema or document errors is reported first when it depends on map iteration order; positions and texts of error messages.
- Validation rules: their verdict is a parameter of `Prepare`. The theorems about executions range over all operations of bounded depth, valid or not. Parsing, and extensions that replace the parsed document, are not modelled.
- `RunTasks`: fields are executed in selection order and kept one by one; merging of equal response keys and the completion order of parallel fields are not modelled.
- `Join`: when a list fails, errors already added by its other elements are all kept, which is more than a cancelled future would add.
- Introspection, `_service` and the SDL export: their values are opaque. The possible types of an interface that the user calls like a federation type of the registry (`_Service`, `_Any`) are taken from the user's types.
- Subscription streams in both schemas; the static schema's resolvers; derive macros.
- `PreparedIsReference`: holds for resolvers that see a selected field through its meaning; one that looks at the fragment structure of its own sub-selections could tell documents of the same meaning apart.
- Arguments and default values of resolvers: a failing argument counts as a rejecting resolver.
- Copying an upload can fail with an I/O error in the source; here it cannot. Reading the multipart body and decoding JSON or CBOR are not modelled.
- The heartbeat interval and the `Accept` header parser.
- Apollo persisted queries, extension chains, guards and data lookup would only add easy members.
