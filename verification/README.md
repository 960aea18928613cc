# Device model of the C-SDK: shadow, request lifecycle, registry, codecs

A Dafny model of the device-model layer of the Alibaba IoT C-SDK (`eng/dev_model`) and proofs about it.
`dafny verify dfyconfig.toml` checks the whole project. No lemma uses Dafny's automatic induction: every one carries
`{:induction false}`, because in Dafny 4.11 the hypothesis it adds can contradict a precondition that indexes the result of
a function, and then proves anything.

**The shadow** (`Text`, `ShadowTree`, `ShadowLaws`, `Paths`, `Bounds`, `Keys`, `PropertySet`, `KeyedWrites`,
`FlattenRefines`, `Assemble`, `Schema`, `SchemaLaws`, `Shadow`, `Creation`, `DeviceShadow`, `ShadowLife`). A TSL schema becomes a typed tree of scalars,
arrays, structures and arrays of structures. A property-set flattens JSON into string keys (`s.x`, `a[3]`, `a[3].x`); every key is parsed again
by mutually recursive searches that find the cell to overwrite; another recursion prints the tree as JSON. `ShadowTree`
gives the tree, the searches, set and get as functions on values. `DeviceShadow` is the object the C code has: a skeleton
whose cells are arrays overwritten in place, with every heap block it owns counted in a `Memory`. Its methods are proved
equal to the functions, and the theorems are about the functions: the fold of string-keyed writes is a direct merge of the
JSON into the tree, what was set is what is assembled, and destroying returns every block once. A key may lead past the
elements of an array of structures; `Bounds` says exactly which keys do, and of what happens after such a key nothing is
promised: the laws ask for keys that stay within the tree, and the methods promise nothing once they answer `Undefined`.

**The lifecycle of a request** (`Messages`, `MessageCache`, `MessageQueue`, `Waiters`, `Lifecycle`,
`LifecycleInvariants`, `LifecycleThreads`, `LifecycleLaws`, `LifecycleReplies`, `LifecycleKinds`,
`LifecycleSteps`). A request gets a fresh id and an entry in a bounded cache, which it leaves on a reply or when it ages out; either outcome is queued for the user, and dispatch wakes a thread that
waits on a semaphore for the id. `MessageCache.Context`, `MessageQueue.Queue` and `Waiters.WaiterList` are the three lists
with the methods of the C code, each proved against functions. `Lifecycle` composes those functions into a transition
system; any sequence of steps is a run, so the theorems speak of all interleavings of the steps of sends, replies (late,
repeated, on any topic, with any id), ticks, dispatches and threads. Replies are handled one after the other, by the one
yield thread (eng/dev_model/iotx_cm.c:82-83); a reply that is looked up in the cache takes three steps, the search, the
message and the removal, and anything else may come in between. A send, a tick and one item of an open reply are one step each.
Fields marked as history (`requests`, `outcomes`, `replies`, `accepted`, `attached`, `cause`, `last` ...) record what
happened and steer nothing.

**The registry** (`Registry`): devices in an ordered list, their identities, status, and the traversal interface. The
transition system keeps of the registry the map from ids to status; `CreateStatus`, `SetStatusExact` and `DestroyStatus` say
that the registry changes this map as the transition system does.

**Codecs and arithmetic** (`Hex`, `Uri`, `Ntp`, `Fota`).

What the proofs found, beyond the properties that hold outright:

- A structure nested in an element of an array of structures has no working key; the searches reach a place exactly when
  it is `Shallow`, which is every place of the documented schema (eng/dev_model/dm_shadow.h:51-62).
- Replies to register, login and logout are handled without a look into the cache. A login reply that carries the id of a
  waiting connect makes it succeed although nothing was attached (`OpenReplyConnects`, `ConnectWithoutAttaching`); with a
  cloud that answers on the topic of the request this cannot happen (`ConnectAttached`). The reply to a topology *delete*
  also reports the device as attached (`DeletingAttaches`), unlike the comment in eng/dev_model/iotx_dm.h:151 suggests.
- Whether a waiting call gets its reply is decided when the message is dispatched: if its thread is in the list of waiters
  by then the call succeeds unless its wait expires, and if not it can only time out, although the device was attached
  (`DispatchDecides`, `ReplyArrivesExactly`; a run for each case: `ConnectSucceeds`, `ConnectTimesOut`).
- A request can be notified twice, once as answered and once as timed out: exactly when its entry ages out between the
  search for its reply and the message about it (`Notified`, `OvertakenByTick`, `NotifiedTwice`).
- A key with an index that an array of structures does not have, a negative one included, is looked up beyond the elements
  (eng/dev_model/dm_shadow.c:170). `OutsideExactly` gives the condition for every key, `ReadsOutside` two such keys.
- The tick unlinks an aged entry without decrementing the counter of the cache. Fifty age-outs close the cache for good:
  no later request is ever answered (`FullForGood`, `WornOut`, `NeverAnsweredAgain`).
- Hexadecimal text with lower-case or other characters decodes to the bytes of a repaired text (`EncodeDecode`); encoding
  inverts decoding exactly on upper-case digits.
- A traversal of the registry that stands on a device while it is destroyed ends there (`DestroyedUnderWalk`). Whatever else
  is created and destroyed meanwhile, it meets every device ahead of it (`WalkComplete`).

## Model

| member | source | states |
|---|---|---|
| Text.Memtok | eng/dev_model/dm_utils.c:273-293 | finds the index-th delimiter, a delimiter in last position never counting; fails exactly when there is none |
| Text.ItoaReadsBack | eng/dev_model/dm_utils.c:128-150 | a printed index reads back as itself exactly when it has at most nine digits, because the buffer holds ten characters |
| Text.AtoiReads | eng/dev_model/dm_utils.c:97 | blanks, at most one sign, digits and whatever follows: the number with its sign |
| Text.StrarrIndex | eng/dev_model/dm_utils.c:41-102 | the bracket scan computes the parse of the segment: status, length before the bracket, index |
| Text.ParseIndexExact | eng/dev_model/dm_utils.c:41-102 | the parser accepts exactly the texts name[body] with bracket-free parts and a body of one to ten characters |
| Text.ParseIndexBracketed | eng/dev_model/dm_utils.c:41-102 | name[body] gives the length of the name and the body as a number; a longer body fails but leaves the length written |
| Text.ParseIndexFree | eng/dev_model/dm_utils.c:41-102 | a bracket-free segment is no array segment and writes nothing |
| Text.ParseIndexInnerBracket | eng/dev_model/dm_utils.c:41-102 | a closing bracket before the end makes the segment no array segment |
| ShadowLaws.SameShape | eng/dev_model/dm_shadow.c:132-371 | the result of a key search depends on the shape of the tree only, never on stored values |
| ShadowLaws.SetKeepsShape | eng/dev_model/dm_shadow.c:1066-1096 | a set whose key stays within the elements, whatever the argument, changes no shape and no identifier |
| ShadowLaws.GetAfterSet | eng/dev_model/dm_shadow.c:840-1315 | after a successful set the key reads the normalised value: enum below 0 becomes 0, bool other than 0 or 1 becomes 0 (scalars only), a null text becomes "NULL" |
| ShadowLaws.SetThenGet | eng/dev_model/dm_shadow.c:840-1315 | type by type, what a get reads after a successful set: the argument, a scalar enum below 0 and a scalar bool other than 0 and 1 as 0, array elements as they come, and for a null argument 0, 0.0 or the text NULL |
| ShadowLaws.SetSucceeds | eng/dev_model/dm_shadow.c:1041-1096 | of the keys that stay within the elements a set accepts exactly those that reach a scalar or a slot the array has, and otherwise fails and changes nothing |
| ShadowLaws.GetElsewhere | eng/dev_model/dm_shadow.c:1066-1315 | after a set within the elements every other such key that resolves to another node or slot reads as before |
| ShadowLaws.ReadAfterRun | eng/dev_model/dm_shadow.c:840-1315 | over any run of sets whose keys stay within the first tree the shape stays, keys keep their places, and each key reads the last value written to its place |
| Paths.PrintMember | eng/dev_model/dm_message.c:2484-2495 | the key built by appending a dot and a name is the printed path with that member appended |
| Paths.PrintElement | eng/dev_model/dm_message.c:2533-2551 | the key built by appending a bracketed index is the printed path with that index appended |
| Paths.PropertySearchPrinted | eng/dev_model/dm_shadow.c:132-371 | for every plain path and every well-formed tree, searching the printed key is reading the path structurally |
| Paths.PlaceResolves | eng/dev_model/dm_shadow.c:132-262 | reading the path of a place leads back to that node and index exactly when the place is shallow, and never out of the tree |
| Paths.PlaceKeyResolves | eng/dev_model/dm_shadow.c:132-371 | the printed key of a place, searched in the whole tree, finds exactly that node and index, if and only if the place is shallow, and reads nothing outside the tree in any case |
| Paths.PlaceKeysDistinct | eng/dev_model/dm_shadow.c:132-371 | keys printed for any two different places are different, and those of two shallow places never resolve to the same place |
| Paths.DeepStops | eng/dev_model/dm_shadow.c:132-262 | the path of a place that is not shallow leads to a structure or nowhere |
| Paths.DocumentedIsShallow | eng/dev_model/dm_shadow.h:51-62 | under the documented schema every place is shallow, so addressable |
| Keys.NameKey | eng/dev_model/dm_shadow.c:264-371 | a key without an index reaches the property, or a member of a structure; anything else below it fails |
| Keys.IndexKey | eng/dev_model/dm_shadow.c:132-371 | a key with an index, by the type of the property: a slot of a scalar array whatever one more segment says, one segment below an element of a struct array, the structure itself whatever the index, and outside past the elements |
| Keys.BracketKey | eng/dev_model/dm_shadow.c:132-371 | whatever stands in the brackets after the name of a scalar array is the index as atoi reads it, unless it is longer than ten characters, which fails |
| Bounds.OutsideExactly | eng/dev_model/dm_shadow.c:132-371 | for every well-formed tree and every key: the search reads past a struct array if and only if the key begins with the way to a struct array the searches get to and an index, as atoi reads it, that is negative or not below its size |
| Bounds.OutsidePrinted | eng/dev_model/dm_shadow.c:132-371 | for the printed key of a plain path: if and only if the path begins with the path of such an array and an index at or above its size |
| Bounds.ReadsOutside | eng/dev_model/dm_shadow.c:165-173 | with one element, the keys a[7].x and a[-1].x read outside, in a well-formed tree of the documented schema |
| PropertySet.MergeKeepsShape | eng/dev_model/dm_message.c:2470-2574 | merging a JSON value into a node keeps its shape |
| PropertySet.MergeWellFormed | eng/dev_model/dm_message.c:2470-2574 | merging keeps cells of the declared types |
| KeyedWrites.SetScalarExact | eng/dev_model/dm_message.c:2393-2468 | for every tree, key and scalar: the write fails when the key is not found, or when the scalar suits an array that has no such slot; it passes without effect when it suits no cell; otherwise the cell is set |
| KeyedWrites.FlattenIsPerform | eng/dev_model/dm_message.c:2470-2574 | for every tree and every JSON the nested loops do what one list of keyed writes does, one per scalar, until the first failure |
| KeyedWrites.PropertySetExact | eng/dev_model/dm_message.c:2581-2621 | for every tree and every JSON a property-set succeeds if and only if every scalar would by itself; otherwise its status is that of the first that would not, and exactly the scalars before it are written |
| FlattenRefines.FlattenScalar | eng/dev_model/dm_message.c:2393-2468 | a scalar written under the printed key of a shallow place replaces the content of that place alone |
| FlattenRefines.FlattenDeep | eng/dev_model/dm_message.c:2393-2468 | a scalar written under the printed key of any other place is dropped or refused and changes nothing |
| FlattenRefines.FlattenNode | eng/dev_model/dm_message.c:2470-2574 | flattening a conforming value at a location, its scalars for shallow places only, replaces the node there by the merge, and succeeds |
| FlattenRefines.FlattenMerges | eng/dev_model/dm_message.c:2470-2574 | for every well-formed schema: the fold of string-keyed writes over a conforming object whose scalars are for shallow places is the direct recursive merge of JSON into the tree |
| FlattenRefines.FlattenIsMerge | eng/dev_model/dm_message.c:2470-2574 | with the documented schema that is every conforming object |
| Assemble.AssembledAt | eng/dev_model/dm_shadow.c:1511-1853 | the assembled JSON holds every cell of the tree at the cell's own path, elements without identifier included |
| Assemble.MergeMembersCell | eng/dev_model/dm_message.c:2470-2574 | after a merge a cell holds the last value supplied for it, or its old value |
| Assemble.SetThenAssemble | eng/dev_model/dm_message.c:2470-2574 | after a conforming property-set the assembled JSON shows at every place the last value supplied or the old one |
| Assemble.SuppliedIsInput | eng/dev_model/dm_message.c:2470-2574 | for an input without duplicate names, what reaches a place is what the input says at the path of the place |
| Assemble.RoundTrip | eng/dev_model/dm_shadow.c:1540-1853 | set then assemble agrees with the input at every place supplied and with the old output elsewhere |
| Assemble.TakenComesBack | eng/dev_model/dm_message.c:2393-2468 | which JSON scalars a cell takes, type by type: numbers for int, enum, bool, float and double, strings for text and date, as scalars and as array elements, and nothing else; only scalar enum and bool are normalised |
| Assemble.InputComesBack | eng/dev_model/dm_message.c:2393-2574 | after a conforming input without duplicate names the assembled JSON shows at every place the number or the text the input holds there, by the type of the place, and the old value for every other pairing |
| Assemble.CellsShow | eng/dev_model/dm_shadow.c:1511-1538 | integers and reals show as numbers, texts as strings, a text never set as the empty string |
| Assemble.EveryKindOk | eng/dev_model/dm_shadow.h:51-62 | a tree and an input with every kind of property and value to which these laws apply |
| SchemaLaws.FreshWellFormed | eng/dev_model/dm_tsl_alink.c:321-589 | creation from a well-formed schema gives a well-formed tree |
| SchemaLaws.FreshPlaces | eng/dev_model/dm_tsl_alink.c:321-589 | the created tree has as many places as the schema asks for: one per scalar, size per array, size copies per struct array |
| SchemaLaws.PlacesExact | eng/dev_model/dm_tsl_alink.c:321-589 | the enumeration that is counted holds exactly the places of the tree |
| SchemaLaws.PlacesDistinct | eng/dev_model/dm_tsl_alink.c:321-589 | and holds each of them once |
| SchemaLaws.SchemaPathsExact | eng/dev_model/dm_tsl_alink.c:321-589 | a path with a type is one of the schema, read off fields and types alone, if and only if it is the path of a place of the created tree with that type, whose cell is 0, 0.0 or a null text |
| SchemaLaws.PlaceSchemaPath | eng/dev_model/dm_tsl_alink.c:478-514 | every place of a created tree has its type from the schema and a cell of 0 for int, enum and bool, 0.0 for float and double, a null pointer for text and date |
| SchemaLaws.FreshReads | eng/dev_model/dm_shadow.c:1098-1315 | before any set the key of a shallow place reads 0 or 0.0, and fails for a text or a date |
| SchemaLaws.CreatedPlacesResolve | eng/dev_model/dm_tsl_alink.c:980-1022 | in a created tree the key of a place finds it exactly when it is shallow, which every place of a documented schema is |
| SchemaLaws.SchemaPathFound | eng/dev_model/dm_tsl_alink.c:980-1022 | with the documented schema every path of the schema, printed as a key, is found at its place |
| SchemaLaws.DocumentedExactly | eng/dev_model/dm_shadow.h:51-62 | the documented schemas are exactly those all of whose places have working keys, for schemas without empty arrays |
| SchemaLaws.NestedStructUnaddressable | eng/dev_model/dm_shadow.c:165-173 | a concrete schema with a structure nested in a struct-array element whose key does not find the place |
| Shadow.Memory.Malloc | eng/dev_model/dm_tsl_alink.c:321-476 | a block that was not live becomes live |
| Shadow.Memory.Free | eng/dev_model/dm_shadow.c:1947-2117 | a live block is released; releasing one that is not live is ruled out by the precondition |
| Shadow.ArraySearch | eng/dev_model/dm_shadow.c:132-180 | the search over references computes the search over values, and the node found is the one at that location |
| Shadow.StructSearch | eng/dev_model/dm_shadow.c:182-262 | likewise for the members of a structure |
| Shadow.DataSearch | eng/dev_model/dm_shadow.c:264-346 | likewise for one property |
| Shadow.PropertySearch | eng/dev_model/dm_shadow.c:348-371 | likewise for the whole shadow |
| Shadow.ChangedAt | eng/dev_model/dm_shadow.c:840-1064 | overwriting the cells of one node changes the tree at that location and nowhere else |
| Shadow.BlocksChangedAt | eng/dev_model/dm_shadow.c:870-991 | and the blocks owned change by what that node's cells own |
| Shadow.NodeOwned | eng/dev_model/dm_shadow.c:1947-2117 | the identifier, header and storage of every node and the text in every cell are among the blocks the tree owns |
| Shadow.StoreText | eng/dev_model/dm_shadow.c:870-918 | a replaced text frees the old buffer and owns a new one |
| Creation.ParseSpec | eng/dev_model/dm_tsl_alink.c:478-514 | allocates the node the schema describes, zeroed, with cells of its own and every new block owned by it |
| Creation.ParseArray | eng/dev_model/dm_tsl_alink.c:353-425 | size zeroed slots and the two blocks of the array |
| Creation.ParseElements | eng/dev_model/dm_tsl_alink.c:321-351 | size equal-shaped structures without identifier |
| Creation.ParseFields | eng/dev_model/dm_tsl_alink.c:427-476 | the members of a structure in order |
| Creation.ParseProperty | eng/dev_model/dm_tsl_alink.c:516-547 | one property with its identifier |
| DeviceShadow.DeviceShadow.constructor | eng/dev_model/dm_tsl_alink.c:980-1022 | the shadow is the schema's tree, well-formed, and owns exactly the blocks allocated for it; an empty list of properties gets no array |
| DeviceShadow.DeviceShadow.SetPropertyValue | eng/dev_model/dm_shadow.c:1066-1096 | undefined exactly for a key that leaves the elements, with nothing promised then; otherwise the in-place set has the value and status of the specified set, and what is live changes by what the shadow owns |
| DeviceShadow.DeviceShadow.GetPropertyValue | eng/dev_model/dm_shadow.c:1287-1315 | within the elements, reads what the specified get reads |
| DeviceShadow.DeviceShadow.SetScalar | eng/dev_model/dm_message.c:2393-2468 | finds the cell, sets it when the JSON value suits its type, and otherwise lets the value pass |
| DeviceShadow.DeviceShadow.FlattenMembers | eng/dev_model/dm_message.c:2470-2516 | one key per member, ending at the first failure |
| DeviceShadow.DeviceShadow.FlattenItems | eng/dev_model/dm_message.c:2518-2574 | one key per element, ending at the first failure |
| DeviceShadow.DeviceShadow.PropertySet | eng/dev_model/dm_message.c:2581-2621 | in place, a conforming input on a documented schema is merged structurally, and succeeds |
| DeviceShadow.DeviceShadow.AssembleProperty | eng/dev_model/dm_shadow.c:1823-1853 | adds the JSON of the named property, or fails when there is none |
| DeviceShadow.DeviceShadow.Destroy | eng/dev_model/dm_shadow.c:2092-2117 | every block of the shadow is released exactly once and no other |
| ShadowLife.Lifetime | eng/dev_model/dm_shadow.c:2092-2117 | created, run through any sequence of sets and property-sets, destroyed: what was live before is live after, unless a key left the elements |
| ShadowLife.ScriptDefined | eng/dev_model/dm_shadow.c:1066-1096 | whether such a sequence is defined can be told beforehand: each key stays within the first tree, each property-set conforms to a documented schema |
| ShadowLife.ObeyBeside | eng/dev_model/dm_shadow.c:1066-1096 | of two shadows on one memory, a set or a property-set of one leaves value and blocks of the other as they are |
| MessageCache.Context.InsertEntry | eng/dev_model/dm_message_cache.c:73-102 | appends exactly when live and aged-out entries leave room below the maximum |
| MessageCache.Context.Search | eng/dev_model/dm_message_cache.c:104-125 | the first entry with the id; a negative id is refused |
| MessageCache.Context.RemoveEntry | eng/dev_model/dm_message_cache.c:127-150 | unlinks the first entry with the id and counts it off |
| MessageCache.Context.TickEntries | eng/dev_model/dm_message_cache.c:152-176 | clamps, unlinks and reports the aged entries; the counter now exceeds the list by the entries aged out |
| MessageCache.TickExact | eng/dev_model/dm_message_cache.c:152-176 | a tick keeps exactly the entries younger than 10000 ms, in order and unchanged, except that a creation time ahead of the clock is pulled back to it, and sends one timeout with code 100000 for each other one, in order |
| MessageCache.TimesOutOnTime | eng/dev_model/dm_message_cache.c:152-176 | over any run in which it is not removed and no tick comes before its creation, an entry stays as it is through every tick before 10000 ms, and the first tick after that reports it and takes it away |
| MessageCache.SizeOverRuns | eng/dev_model/dm_message_cache.c:73-176 | over every run the counter is live entries plus entries aged out and stays within the maximum |
| MessageCache.InsertAccepted | eng/dev_model/dm_message_cache.c:73-102 | a request is cached if and only if live plus aged-out entries are below the maximum |
| MessageCache.FullForGood | eng/dev_model/dm_message_cache.c:152-176 | once as many entries aged out as the maximum allows, the cache stays empty and closed in every continuation |
| MessageCache.RemoveUndoesInsert | eng/dev_model/dm_message_cache.c:73-150 | removing a fresh id undoes its insertion |
| MessageQueue.Queue.Insert | eng/dev_model/dm_ipc.c:77-110 | appends, or refuses when full |
| MessageQueue.Queue.Next | eng/dev_model/dm_ipc.c:112-137 | takes the oldest message |
| MessageQueue.Queue.Dispatch | eng/dev_model/dm_api.c:251-286 | delivers at most fifty messages even when the callback enqueues, everything queued before it started first, and stops early only on an empty queue; delivered and left are those of the specified dispatch |
| MessageQueue.DispatchedInTurn | eng/dev_model/dm_api.c:251-286 | what a dispatch delivers and leaves is, in order, the queue before and what the callbacks inserted while there was room |
| MessageQueue.QueueConserves | eng/dev_model/dm_ipc.c:77-137 | over every run, accepted messages in order are the delivered ones followed by the queue, which stays within its maximum |
| Waiters.WaiterList.Insert | eng/dev_model/impl_linkkit.c:317-344 | a new waiter goes to the head with a live semaphore; a listed id is refused and its semaphore destroyed again |
| Waiters.WaiterList.Remove | eng/dev_model/impl_linkkit.c:346-363 | unlinks the waiter and destroys exactly its semaphore |
| Waiters.WaiterList.Search | eng/dev_model/impl_linkkit.c:365-381 | the first waiter with the id |
| Waiters.WaiterList.Tell | eng/dev_model/impl_linkkit.c:397-407 | sets the code of the waiter with the id and posts its semaphore, which is alive |
| Waiters.StrikeKeeps | eng/dev_model/impl_linkkit.c:346-363 | removing one id leaves every other waiter where a search finds it |
| LifecycleInvariants.SendOk | eng/dev_model/dm_manager.c:763-813 | a send takes a fresh id, caches the request if there is room and withdraws it if the send fails, and keeps the invariant that ties cache, outcomes, queue and history together |
| LifecycleInvariants.FindOk | eng/dev_model/dm_message_cache.c:104-125 | the search for the id of a gated reply keeps that invariant, whatever the id is pending for |
| LifecycleInvariants.TellOk | eng/dev_model/dm_message.c:1599-1643 | so does handling the reply that was found, whatever happened since the search, and whether the queue has room or not |
| LifecycleInvariants.LeaveOk | eng/dev_model/dm_msg_process.c:815-844 | so does the removal of the id at the end of a reply, found before or not |
| LifecycleInvariants.ItemOk | eng/dev_model/dm_message.c:1236-1347 | an item of a register, login or logout reply keeps that invariant, whatever id it carries |
| LifecycleInvariants.ItemsDoneOk | eng/dev_model/dm_msg_process.c:943-972 | the removal of the id after such a reply keeps that invariant |
| LifecycleInvariants.TickOk | eng/dev_model/dm_message_cache.c:152-176 | a tick keeps that invariant, whichever of its messages still fit into the queue |
| LifecycleInvariants.IdsTick | eng/dev_model/dm_message_cache.c:152-176 | a tick splits the cached ids into those that stay and those reported, each reported once |
| LifecycleThreads.NeverDuplicate | eng/dev_model/impl_linkkit.c:317-328 | with fresh ids the duplicate branch of the list insertion is never taken |
| LifecycleThreads.PostsToTheLiving | eng/dev_model/impl_linkkit.c:397-407 | in every reachable state the post of the event callback goes to a semaphore that is alive |
| LifecycleThreads.StepOk | eng/dev_model/impl_linkkit.c:1255-1422 | every step of every thread, of the cloud, of the clock and of dispatch keeps the invariant of the whole state, and history only grows |
| LifecycleLaws.RunOk | eng/dev_model/impl_linkkit.c:1255-1422 | every run, from any state with the invariant, keeps it |
| LifecycleLaws.SuccessAnswered | eng/dev_model/impl_linkkit.c:1255-1422 | connect, delete-topo, login and logout succeed only if a reply with the success code and the id of their last request was handled and delivered; a timeout never makes them succeed |
| LifecycleLaws.ConnectSafe | eng/dev_model/impl_linkkit.c:1255-1366 | in every interleaving a connect succeeds only by such a reply to its topology request, and if that reply was a topology reply the device had been set ATTACHED or was destroyed; otherwise it was a reply that is not gated |
| LifecycleLaws.ConnectAttached | eng/dev_model/impl_linkkit.c:1255-1366 | when the cloud answers on the topic of the request, success means a topology-add reply with the success code, and a device not destroyed had the status ATTACHED during the run |
| LifecycleLaws.WokenAttached | eng/dev_model/impl_linkkit.c:1348-1364 | with such a cloud, already when the thread wakes up a success code means that the device was set ATTACHED or destroyed |
| LifecycleLaws.RecordsSetStatus | eng/dev_model/dm_message.c:1621-1624 | the step that records a device as attached or logged in gives it that status |
| LifecycleLaws.RecordedHad | eng/dev_model/dm_manager.c:524-541 | a device recorded as attached or logged in had that status after some step of the run |
| LifecycleLaws.StatusFollowsReplies | eng/dev_model/dm_manager.c:524-541 | only a reply with the success code changes the status of a device: a topology reply to a pending request for it, or an item of an open reply that names it |
| LifecycleLaws.DeletingAttaches | eng/dev_model/dm_message.c:1646-1690 | a success reply to a topology delete sets the device ATTACHED |
| LifecycleLaws.LogoutAfterLogin | eng/dev_model/dm_manager.c:1034-1036 | a logout is requested only for a device that had the status LOGINED earlier in the run |
| LifecycleLaws.OpenReplyConnects | eng/dev_model/dm_message.c:1735-1805 | otherwise a login reply with the id makes any waiting call of this kind succeed without attaching anything |
| LifecycleLaws.ConnectWithoutAttaching | eng/dev_model/dm_message.c:1735-1805 | a concrete run from the start in which a connect succeeds and nothing was attached |
| LifecycleReplies.EarlyReplyLost | eng/dev_model/impl_linkkit.c:397-407 | once the reply went by before the thread was listed, in every continuation the call times out and never succeeds, unless a reply that is not gated carries its id |
| LifecycleReplies.PostedReplyKept | eng/dev_model/impl_linkkit.c:1348-1364 | a success that was posted to a listed thread is kept in every continuation in which its wait does not expire |
| LifecycleReplies.DispatchDecides | eng/dev_model/impl_linkkit.c:383-407 | for each of the six kinds of answers: when the last message for a request is dispatched, in every continuation the call goes on to success if its thread was listed and can only time out if it was not |
| LifecycleReplies.ReplyArrivesExactly | eng/dev_model/impl_linkkit.c:1323-1364 | from every state with a pending topology request and room in the queue: the reply, its handling and the dispatch attach the device, and the call goes on to success in every continuation without expiry if and only if its thread was listed before the dispatch |
| LifecycleReplies.ReplyArrives | eng/dev_model/impl_linkkit.c:1323-1364 | with the thread listed, the wake-up makes the call succeed with its device attached |
| LifecycleReplies.ConnectSucceeds | eng/dev_model/impl_linkkit.c:1255-1366 | a concrete run from the start, with a cloud that answers on the topic of the request, in which a connect succeeds |
| LifecycleReplies.ConnectTimesOut | eng/dev_model/impl_linkkit.c:1255-1366 | a concrete run from the start with the same answer, dispatched before the thread is listed: the connect times out with its device attached |
| LifecycleKinds.WaitsForItsOwn | eng/dev_model/impl_linkkit.c:1255-1422 | connecting waits for a registration and then for the topology, every other call for the reply of its own kind |
| LifecycleKinds.AnswerWakes | eng/dev_model/impl_linkkit.c:1073-1090 | whatever the kind of its request, the answer posts the semaphore of the listed thread once and sets its code, success for 200 and refused otherwise |
| LifecycleKinds.WakesAndGoesOn | eng/dev_model/impl_linkkit.c:1289-1422 | the thread then fails as refused, goes on from a registration to the topology, or succeeds |
| LifecycleKinds.OthersWakeNobody | eng/dev_model/impl_linkkit.c:1073-1090 | replies to a property post, an event post or an unregistration leave waiters, semaphores and threads as they are |
| LifecycleKinds.CallBegins | eng/dev_model/impl_linkkit.c:1255-1422 | the first request of each call, and the refusal of a device id that is not positive |
| LifecycleKinds.OpenReplies | eng/dev_model/dm_message.c:1236-1347 | a reply to register, proxy register, login or logout needs no pending request: with code 200 it sets the device it names REGISTERED, LOGINED or, after a logout, ATTACHED, and its message is queued if there is room |
| LifecycleKinds.GatedReplies | eng/dev_model/dm_message.c:1599-1692 | a reply of the other five kinds is handled exactly when its id is pending; a topology reply with code 200 sets the registered device of the request ATTACHED |
| LifecycleKinds.OwnReplyArrives | eng/dev_model/impl_linkkit.c:1255-1422 | for each of the six kinds, from every state with a listed thread and room in the queue: its own reply with code 200, handled and dispatched, makes the call go on to the topology after a registration and succeed otherwise |
| LifecycleSteps.CallSends | eng/dev_model/dm_manager.c:607-1071 | a call sends its next request with the next id, pending if it left and the cache had room; not for a device that is not there, and no logout of one not logged in; a registration with id 0 is taken for one that needs no waiting |
| LifecycleSteps.DeviceReports | eng/dev_model/dm_manager.c:1264-1432 | a property post, an event post or an unregistration is a request like the others for which no thread waits |
| LifecycleSteps.CallSkips | eng/dev_model/impl_linkkit.c:1255-1290 | a device that is registered already goes on to its topology at once |
| LifecycleSteps.CallWaits | eng/dev_model/impl_linkkit.c:1289-1330 | the thread enters the list at its head with a new semaphore nobody has posted, or fails when there is none |
| LifecycleSteps.CallExpires | eng/dev_model/impl_linkkit.c:1348-1364 | a wait that expires fails the call and takes its waiter and its semaphore away |
| LifecycleSteps.OpenReplyEnds | eng/dev_model/dm_msg_process.c:943-972 | the end of a reply that is not gated takes its id, and no other, out of the cache |
| LifecycleSteps.GatedReplyEnds | eng/dev_model/dm_msg_process.c:815-844 | so does the end of a gated reply, answered or not |
| LifecycleSteps.TickQueues | eng/dev_model/dm_message_cache.c:152-176 | a tick queues its timeouts in order, as many as there is room for |
| LifecycleSteps.DevicesComeAndGo | eng/dev_model/dm_manager.c:232-322 | a device is created AUTHORIZED under an unused id; destroying removes it, and never the local node |
| LifecycleLaws.Notified | eng/dev_model/dm_message.c:1615-1636 | over any run each id yields at most one answer and at most one timeout from the cache, each exactly if it was made and found room, and both are made exactly for an id that aged out while its answer was in hand |
| LifecycleLaws.OvertakenByTick | eng/dev_model/dm_message_cache.c:152-176 | which a step brings about if and only if it is a tick that finds the entry of that id aged |
| LifecycleLaws.SerialOnce | eng/dev_model/dm_message.c:1615-1636 | so that with ticks only between replies each id yields at most one message |
| LifecycleLaws.NotifiedTwice | eng/dev_model/dm_message.c:1615-1636 | a concrete run from the start in which one post is notified twice |
| LifecycleLaws.LateReplyIgnored | eng/dev_model/dm_msg_process.c:815-844 | a late or repeated gated reply is not found, which changes nothing |
| LifecycleLaws.LateReplyLeaves | eng/dev_model/dm_msg_process.c:815-844 | and its handling and its removal change nothing either |
| LifecycleLaws.EndsOnceInRuns | eng/dev_model/dm_msg_process.c:836-843 | a request that was answered, timed out, dropped or withdrawn stays so in every continuation |
| LifecycleLaws.NothingLost | eng/dev_model/dm_ipc.c:77-137 | in every reachable state the accepted messages are the delivered ones followed by the queue |
| LifecycleLaws.WaitersSafe | eng/dev_model/impl_linkkit.c:1289-1363 | ids in the list are distinct, exactly the listed semaphores are alive, every waiter belongs to a thread in its wait, and a call that is over has left none behind |
| LifecycleLaws.NeverAnsweredAgain | eng/dev_model/dm_message_cache.c:77-82 | after the cache aged out, no later request is ever answered and a later connect can succeed only through a reply that is not gated |
| LifecycleLaws.WornOut | eng/dev_model/dm_message_cache.c:152-176 | a concrete run of fifty posts and one tick that brings the cache there |
| Registry.Manager.Start | eng/dev_model/dm_manager.c:154-196 | the local node first, or a zeroed context when its identity does not fit |
| Registry.Manager.CreateDevice | eng/dev_model/dm_manager.c:232-287 | rejects what does not fit, returns the existing id, or appends with the next id |
| Registry.Manager.DestroyDevice | eng/dev_model/dm_manager.c:289-322 | removes the device, unless the id is negative, unknown or the local node |
| Registry.Manager.Number | eng/dev_model/dm_manager.c:324-335 | the number of devices |
| Registry.Manager.IdByIndex | eng/dev_model/dm_manager.c:337-356 | the id at the index, or not found |
| Registry.Manager.NextIdAfter | eng/dev_model/dm_manager.c:358-380 | the id that follows the given one |
| Registry.Manager.UpdateStatus | eng/dev_model/dm_manager.c:524-541 | sets the status of the device with the id, if there is one |
| Registry.RunKeeps | eng/dev_model/dm_manager.c:232-322 | over every run of create, destroy and status ids ascend strictly below the next one, identities are unique, the local node stays first, and ids are never issued twice |
| Registry.GoneForGood | eng/dev_model/dm_manager.c:32-37 | an id that is not registered any more never comes back |
| Registry.InitValid | eng/dev_model/dm_manager.c:154-196 | initialisation establishes the invariant exactly when the identity of the local node fits |
| Registry.InitExact | eng/dev_model/dm_manager.c:154-196 | after initialisation the local node is the only device, with id 0, UNAUTHORIZED, and the next id is 1; or there is nothing |
| Registry.CreateFinds | eng/dev_model/dm_manager.c:232-287 | a created device is found under its identity, and creating it again only returns its id |
| Registry.CreateExact | eng/dev_model/dm_manager.c:232-287 | a create is rejected exactly when a text is longer than its field, finds the device with the same identity, or else appends one with the next id and the given fields |
| Registry.DestroyFrees | eng/dev_model/dm_manager.c:289-322 | destroying frees the identity and touches no other device |
| Registry.DestroyAnswers | eng/dev_model/dm_manager.c:289-322 | which answer a destroy gives, and that nothing but a registered device other than the local node goes |
| Registry.CreateStatus | eng/dev_model/dm_manager.c:277 | a created device starts AUTHORIZED and no other status changes |
| Registry.SetStatusExact | eng/dev_model/dm_manager.c:524-541 | setting a status sets that of the device with the id, if there is one, and no other |
| Registry.DestroyStatus | eng/dev_model/dm_manager.c:289-322 | destroying forgets the status of that device and no other |
| Registry.WalkIsIndex | eng/dev_model/dm_manager.c:337-380 | k calls of get-next from the local node lead to the device at index k, or nowhere when there are not as many |
| Registry.WalkMeetsEachOnce | eng/dev_model/dm_manager.c:358-380 | the traversal meets every registered device exactly once and ends after as many devices as the number says |
| Registry.WalkAfterCreate | eng/dev_model/dm_manager.c:358-380 | creating devices during a traversal does not disturb it |
| Registry.DestroyedUnderWalk | eng/dev_model/dm_manager.c:358-380 | destroying the device a traversal stands on ends it |
| Registry.SurvivorNext | eng/dev_model/dm_manager.c:289-380 | a traversal that stands on another device goes on to the next survivor |
| Registry.NextExact | eng/dev_model/dm_manager.c:358-380 | get-next returns the least id beyond a registered one, none exactly when there is none beyond it, and none for an id that is not registered |
| Registry.TravelOnTheWay | eng/dev_model/dm_manager.c:232-380 | at every moment of a traversal interleaved with any creates, destroys and status changes, every registered device between its start and where it stands was met, in ascending order |
| Registry.WalkComplete | eng/dev_model/dm_manager.c:232-380 | when such a traversal ends it has met every registered device beyond its start, if and only if the device it stands on was not destroyed under it or none lies ahead |
| Hex.HexToStr | eng/dev_model/dm_utils.c:200-235 | two upper-case digits per byte; an empty input is refused |
| Hex.StrToHex | eng/dev_model/dm_utils.c:237-271 | one byte per pair, a character that is no digit repeating the one before it; empty and odd inputs are refused |
| Hex.DigitIs | eng/dev_model/dm_utils.c:200-235 | the sixteen digits |
| Hex.ValueIs | eng/dev_model/dm_utils.c:237-271 | the value of a digit is its place; any other character has the value of the digit before it |
| Hex.EncodeAt | eng/dev_model/dm_utils.c:200-235 | each byte is two digits, the high one first |
| Hex.DecodeEncode | eng/dev_model/dm_utils.c:200-271 | decoding inverts encoding on all byte strings |
| Hex.EncodeDecode | eng/dev_model/dm_utils.c:200-271 | encoding what was decoded gives the text with characters that are no digits repaired |
| Hex.EncodeInvertsDecode | eng/dev_model/dm_utils.c:200-271 | encoding inverts decoding if and only if the text consists of upper-case digits |
| Uri.ServiceName | eng/dev_model/dm_utils.c:312-339 | the composed topic is the expanded prefix and the name, never cut by the computed buffer size |
| Uri.SysTopic | eng/dev_model/dm_api.c:300-301 | a topic below the system prefix is always composed, and is its four parts in order |
| Uri.ExpandFits | eng/dev_model/dm_utils.c:323-333 | a format with at most as many directives as arguments prints into no more than format and arguments together |
| Uri.ParseIdentity | eng/dev_model/dm_message.c:112-141 | product key and device name between the delimiters, or failure when one is missing |
| Uri.ParseEventId | eng/dev_model/dm_msg_process.c:306-331 | the text between the sixth and the seventh delimiter |
| Uri.TopicIdentity | eng/dev_model/dm_message.c:112-141 | a composed /sys topic parses back to the same key and name exactly when its own name is not empty |
| Uri.TopicEventId | eng/dev_model/dm_msg_process.c:306-331 | the topic of a reply to an event post gives the event id back |
| Uri.TokenAfter | eng/dev_model/dm_utils.c:273-293 | the delimiter after k segments is found exactly when something follows it |
| Ntp.Reply | eng/dev_model/impl_ntp.c:64-115 | fails on members of a wrong length or a difference of a million and more, else gives the corrected time |
| Ntp.Rewrite | eng/dev_model/impl_ntp.c:96-112 | the rewrite in the buffer leaves room for its terminator and reads back as the corrected time |
| Ntp.HalfOfElapsed | eng/dev_model/impl_ntp.c:85-94 | wrap-around subtraction of the printed send time gives half of the elapsed time modulo 2^32, which is half of the elapsed time exactly below 2^32 ms |
| Ntp.CorrectedValue | eng/dev_model/impl_ntp.c:96-110 | the result has value V + min(difference, 10^9 - 1 - V mod 10^9), keeps the length of a time of more than nine digits, and has at most twenty characters |
| Fota.PerformSync | eng/dev_model/dm_fota.c:93-155 | the loop ends; on success storage holds the concatenation of the fetched chunks; it stops at the first write that fails and calls only that a failed write, and at the first complete download; it gives up only after the consecutive failures that spend the retry budget; reports below the maximum are at least six percent apart, at most sixteen, each the percentage fetched by then, and lag at most five percent when time passes |
| Fota.ReportsApart | eng/dev_model/dm_fota.c:131-139 | with a clock that does not go back two such reports are more than 50 ms apart |
| Fota.PercentExact | eng/dev_model/dm_fota.c:127 | the percentage is the whole part |
| Fota.AtMostSixteen | eng/dev_model/dm_fota.c:131-136 | reports at least six apart below one hundred are at most sixteen |

## Left out

- Transport and platform: MQTT, CoAP, HTTP, OTA service, mutexes and the inside of semaphores; calls into them are steps, parameters or results of any value.
- JSON text: lite_cjson is not part of this model; JSON is a datatype, and the lookup of schema members in the text of a TSL with its error paths is not modelled.
- Events and services in the shadow: their searches report success on a miss (eng/dev_model/dm_shadow.c:391 and 443), which leaves no usable contract.
- Rounding of float and double: cells hold reals, and printing them as JSON numbers is exact.
- NUL characters inside texts, and arguments of another C type than the setter expects, which are treated as null.
- Failing allocation: DM_malloc succeeds, so that the clean-up paths for a failed one are not modelled; DM_free nulls its argument.
- Integers beyond 32 bits read by atoi, and message ids that wrap around at 2^32: ids are fresh.
- Pointers left in freed cells: destroying is modelled on the count of live blocks, not on the fields it nulls.
- The memory beyond the elements of a struct array: a key that leads there (eng/dev_model/dm_shadow.c:170) has the result `Outside`, a set with it the status `Undefined`, and nothing is promised from then on; what it reads or overwrites there is not modelled.
- Schemas with empty structures, sibling names that repeat or hold key characters, and arrays of more than 10^9 elements.
- SchemaLaws.NestedStructUnaddressable: one schema; the exact condition for all schemas is in Paths.PlaceKeyResolves.
- One tick is one step, although the queue is locked anew for each of its messages, so that a dispatch may come between two of them; so is a send, and one item of an open reply. The fields of a cache entry are read with the search for it, although the code reads them after the lock is released, when a tick may have freed the entry.
- MessageQueue.Queue.Dispatch: the configured count is fifty; a count of zero, which means no limit, and the ticks before the loop are not part of it (the ticks of the cache are steps of the lifecycle).
- The master connection state, the reply to topo-get, the raw and desired-property replies and the subscription after a login.
- The status ONLINE: nothing in the repository sets it, so that the test before a logout (eng/dev_model/dm_manager.c:1034) is for LOGINED alone.
- LifecycleLaws.OpenReplyConnects: uses the login reply; register, proxy register and logout replies take the same path.
- The downstream service list and IOT_Linkkit_AnswerService: a bounded list with a timeout, like the request cache but with its counter kept.
- dm_msg_thing_delete: its found test (eng/dev_model/dm_message.c:1177-1180) fails for every registered device, so that it is no step of the registry.
- Capacities of the identity fields: their values are in a header that is not part of this model, so the registry takes them as parameters, and the parser of identities does not check them.
- Uri.ServiceName: formats hold no directive but %s, and no more of them than the two arguments.
- Uri.ParseIdentity: the end delimiter is two after the start, as in every call.
- Fota.PerformSync: asks for a readable retry option and a fetched size that rises with each successful fetch up to the file size; with an unreadable option and a service that keeps failing the loop does not end.
- Ntp.Reply: works on the members after they were found in the payload, and on characters below 128.
- Gateway and solo variants of the interface, COTA, options, log reports, certificates and local CoAP service: the same patterns or plain forwarding.
