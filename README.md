# estate core — a Dafny model

This project models the state container at the heart of `@e-state/core`
(zhoun990/estate) and proves properties of that model. It covers:

- **The global store** (`core/src/functions/GlobalStore.ts`). This is a
  slice → key → value store. `setValue` checks the slice and key and queues a
  unit of work. One asynchronous drain (`waitingUpdater`) resolves the queued
  units oldest first. Each unit sees an overlay of the values decided earlier
  in the batch. When the queue is empty, the drain commits every resolved
  record through the per-key middleware and notifies the listeners registered
  under `slice###key###id`.
  - Modules `StoreEngine` (class `GlobalStore`), `StoreSpec` (the functions
    the class is proved against) and `ListenerIds`.
  - Every `await` of the drain is a step boundary. `SetValue` queues a unit
    and, when idle, starts the drain on the first unit. `Resume` is the
    continuation after the awaited unit settles.
  - Listener callbacks are the events that `Resume` returns.
- **The slice setters** (`core/src/functions/createUpdater.ts`, module
  `Setter`). There is one payload function per slice. It issues one
  `setValue` per payload key. The unit function it builds falls back to its
  argument when the callable throws synchronously.
- **The helpers** of `core/src/functions/utils.ts`:
  - `getObjectKeys` and `generateRandomID` (module `Utils`);
  - the `replacer`/`reviver` pair, with the `JSON.stringify`/`JSON.parse`
    traversals they are used in (module `JsonTags`);
  - the cycle-safe deep `clone`, over an explicit heap of numbered objects
    so that sharing and cycles can be stated (module `ObjectClone`, class
    `Cloner`).
- **The persisted-key registry** (`core/src/functions/cleanup.ts`, module
  `Cleanup`, class `BrowserStorage`). Storage is a map from key to text. The
  registry entry is held apart: absent, unparsable, or a recorded key list.
- **The legacy in-place updater** (`src/functions/createUpdater.ts` and
  `src/functions/callRerenders.ts`, module `LegacyUpdater`, class
  `SliceState`).

Values are the tree datatype `Values.Value`: `undefined`, `null`, booleans,
numbers, strings, arrays, plain objects, `Map`s and `Set`s. Dafny equality on
values stands for the `===` the source uses. The clone module gives objects
identity through an explicit heap.

The model follows the code as written, including these behaviours that its names and comments do not suggest:

- **Unit argument.** A unit function receives the overlaid root object
  (`{...getStore(), ..._tempStore}`), not the key's latest value. So a
  callable payload of `setter` is applied to the root object
  (`GlobalStore.ts:128,139,211`, `createUpdater.ts:30-31`).
- **Throwing middleware.** `_middleware` does not catch. A throwing
  middleware ends the commit loop, and the drain stays marked as
  processing. `StoreSpec.CommitAbortSticks` and the `ok` flag of `Commit`
  state this.
- **Notification.** Listeners are notified once per committed record, not
  once per distinct key.
- **Update id.** The `updateId` is `String(Date.now())`, one per batch.
- **Once-listeners.** A once-listener removes only its current entry. The
  same id subscribed again fires again.
- **Round trip.** Replacing and reviving is not lossless:
  - a plain-object property whose value is `undefined` disappears
    (`JsonTags.UndefinedPropertyLost`);
  - a plain object that looks like a tag is misread
    (`JsonTags.TagLikeObjectMisread`);
  - a `Date` is written through its `toJSON` text and is not revived, so
    dates are not part of the value model.

## Model

| member | source | states |
|---|---|---|
| Values.Without | core/src/functions/cleanup.ts:58 | `filter(k => k !== key)` keeps exactly the other keys; it never grows and is the identity when the key is absent |
| Values.WithoutCounts | core/src/functions/cleanup.ts:58 | the filter keeps every other key as often as it occurs and no copy of the removed key |
| Values.WithoutConcat | core/src/functions/cleanup.ts:58 | the filter keeps order: filtering `a + b` is filtering `a` followed by filtering `b` |
| Values.WithoutDistinct | core/src/functions/cleanup.ts:57-59 | removing a key from a duplicate-free list leaves it duplicate-free |
| Utils.ObjectKeysSpec | core/src/functions/utils.ts:1-3 | `getObjectKeys` gives `[]` for null/undefined, exactly a plain object's property names in order, an array's indices, and a string's indices in UTF-16 code units |
| Utils.SurrogatePairKeys | core/src/functions/utils.ts:1-3 | `getObjectKeys("😀")` is `["0", "1"]`: a character beyond the Basic Multilingual Plane has two indices |
| Utils.AlphabetIsAlphanumeric | core/src/functions/utils.ts:15-16 | the character table has 62 characters, which are exactly the ASCII letters and digits |
| Utils.GenerateRandomID | core/src/functions/utils.ts:14-25 | the id has exactly the requested length and only alphanumeric characters, whatever indices are drawn |
| Utils.NatToString | core/src/functions/GlobalStore.ts:255 | `String(Date.now())` is a non-empty string of decimal digits |
| ListenerIds.IndexOfSep | core/src/functions/GlobalStore.ts:359 | finds the leftmost `###`, or reports that there is none |
| ListenerIds.SplitJoin | core/src/functions/GlobalStore.ts:335-337 | splitting a joined id gives back slice and key when neither contains `#` |
| ListenerIds.MatchesJoin | core/src/functions/GlobalStore.ts:357-360 | `getListeners(slice, key)` selects an id joined from (s, k) iff s and k are that slice and key (no `#` in them) |
| ListenerIds.SeparatorInKeyMisroutes | core/src/functions/GlobalStore.ts:337 | a key containing `###` makes its listener answer to another key and not to its own |
| StoreSpec.PutEffect | core/src/functions/GlobalStore.ts:246 | writing an existing key keeps every slice and key and changes only that key |
| StoreSpec.OverlayShape | core/src/functions/GlobalStore.ts:211 | the overlaid view has the same slices and keys as the store |
| StoreSpec.OverlayView | core/src/functions/GlobalStore.ts:211-238 | a unit sees, for each key, the latest value resolved earlier in the batch, or else the committed value; other keys of an overlaid slice keep their committed values |
| StoreSpec.OverlayViewAt | core/src/functions/GlobalStore.ts:224-235 | the same, for one (slice, key), by induction over the records |
| StoreSpec.MergeGet | core/src/functions/GlobalStore.ts:211 | reading through `{...store, ...overlay}` takes the overlay slice when present |
| StoreSpec.ApplyMiddleware | core/src/functions/GlobalStore.ts:170-187 | no middleware: the value unchanged; a constant: the constant; a function: its outcome, including a throw |
| StoreSpec.Commit | core/src/functions/GlobalStore.ts:242-253 | a complete commit leaves one listen entry per record; a stopped one leaves no more |
| StoreSpec.CommitShape | core/src/functions/GlobalStore.ts:242-253 | committing records for existing keys keeps the store's slices and keys |
| StoreSpec.CommitAbortSticks | core/src/functions/GlobalStore.ts:179-185 | once a middleware has thrown, no later record is committed |
| StoreSpec.CommitLastWrite | core/src/functions/GlobalStore.ts:242-246 | after a complete commit each key holds the middleware's result for its last record, and keys without records are unchanged |
| StoreSpec.CommitListens | core/src/functions/GlobalStore.ts:244-252 | listen entry i carries record i's force flag and the value its key had just before record i was committed |
| StoreSpec.Register | core/src/functions/GlobalStore.ts:389 | `listeners[id] = entry` replaces an existing entry in place and appends a new id last |
| StoreSpec.RegisterAllEffect | core/src/functions/GlobalStore.ts:316-318 | after registering several ids, exactly those ids hold the new entry and all others keep theirs |
| StoreSpec.Unregister | core/src/functions/GlobalStore.ts:352-354 | `delete listeners[id]` removes that id and only that id |
| StoreSpec.UnregisterOk | core/src/functions/GlobalStore.ts:352-354 | deleting keeps the registry well formed |
| StoreSpec.ListenersOf | core/src/functions/GlobalStore.ts:355-378 | the ids found are exactly the registered ids whose split names the slice and key, without repeats |
| StoreSpec.NotifyAllShrinks | core/src/functions/GlobalStore.ts:266-276 | notifying only removes listeners, and only `once` ones |
| StoreSpec.DispatchShrinks | core/src/functions/GlobalStore.ts:256-278 | a whole dispatch only removes listeners and keeps the registry well formed |
| StoreSpec.NotifyAllEvents | core/src/functions/GlobalStore.ts:266-276 | a captured listener receives an event iff its comparator is absent or says "different" |
| StoreSpec.NotifyAllCount | core/src/functions/GlobalStore.ts:266-276 | with distinct ids, each allowed listener is called exactly once and no other id at all |
| StoreSpec.NotifyAllRemovesOnce | core/src/functions/GlobalStore.ts:339-341 | a `once` listener that was called is no longer registered |
| StoreSpec.DispatchOneEvents | core/src/functions/GlobalStore.ts:257-277 | for one listen entry, a listener is called iff it is registered for that (slice, key), the entry is forced or the value changed, and its comparator allows it |
| StoreSpec.DispatchOneCount | core/src/functions/GlobalStore.ts:257-277 | one listen entry calls a `once` listener at most once and removes it when it does |
| StoreSpec.OnceFiresAtMostOnce | core/src/functions/GlobalStore.ts:256-278 | a `once` listener is called at most once per dispatch, however many records name its key |
| StoreSpec.UnregisteredNotNotified | core/src/functions/GlobalStore.ts:259 | an id not registered when an entry is dispatched gets no event from it |
| StoreSpec.UnsubscribedNeverNotified | core/src/functions/GlobalStore.ts:352-354 | an unsubscribed id gets no event from any later dispatch |
| StoreSpec.SlicePropsLookup | core/src/functions/GlobalStore.ts:37 | `Object.fromEntries(slice)` shows each key of the slice with its value and nothing else |
| StoreSpec.SlicePropsLookupAll | core/src/functions/GlobalStore.ts:37 | the same for every key at once |
| StoreSpec.RootPropsLookup | core/src/functions/GlobalStore.ts:28-30 | the root object has a property per slice, holding that slice's object |
| StoreSpec.RootValueLookup | core/src/functions/GlobalStore.ts:26-32 | `getStore()` shows every stored value at its (slice, key) path and no other path |
| StoreSpec.RootValueLookupAll | core/src/functions/GlobalStore.ts:26-32 | the same for every path at once |
| StoreSpec.OverlayOrdered | core/src/functions/GlobalStore.ts:211 | the overlaid view keeps the store's slice and key order |
| StoreEngine.EnqueueStep | core/src/functions/GlobalStore.ts:136-142 | queuing units one at a time composes: while a drain runs they are appended; otherwise the first starts the drain |
| StoreEngine.SliceOfKeys | core/src/functions/GlobalStore.ts:18-21 | a slice `Map` holds exactly the keys of its entries |
| StoreEngine.SliceOfContents | core/src/functions/GlobalStore.ts:18-21 | with distinct names, each key holds its entry's value |
| StoreEngine.RootOfKeys | core/src/functions/GlobalStore.ts:16-24 | the store holds exactly the initial state's slices |
| StoreEngine.RootOfContents | core/src/functions/GlobalStore.ts:16-24 | each slice is built from that slice's own entries, in their order |
| StoreEngine.RootOfOrdered | core/src/functions/GlobalStore.ts:15-25 | the built store's slice and key orders match its contents |
| StoreEngine.RootOfValues | core/src/functions/GlobalStore.ts:15-25 | every key of the built store holds its initial value |
| StoreEngine.BuildSlice | core/src/functions/GlobalStore.ts:18-21 | the loop builds the slice `Map` of the entries |
| StoreEngine.BuildRoot | core/src/functions/GlobalStore.ts:16-24 | the loop builds the store and its key orders |
| StoreEngine.SliceIdsAt | core/src/functions/GlobalStore.ts:316-318 | `subscribeSlice` with an id registers `slice###key###id` for key i |
| StoreEngine.InstallEntriesEffect | core/src/functions/GlobalStore.ts:145-156 | after `setMiddlewares` over a slice, each key holds its last truthy middleware; other keys and slices are unchanged |
| StoreEngine.GlobalStore.constructor | core/src/functions/GlobalStore.ts:97-104 | the store holds the initial slices and values; no listeners, middlewares or queued work |
| StoreEngine.GlobalStore.GetStore | core/src/functions/GlobalStore.ts:26-32 | the root object shows exactly the stored values |
| StoreEngine.GlobalStore.GetSlice | core/src/functions/GlobalStore.ts:36-38 | an object with exactly the slice's entries; `{}` for a missing slice |
| StoreEngine.GlobalStore.GetValue | core/src/functions/GlobalStore.ts:42-47 | the stored value, or `undefined` for a missing slice or key |
| StoreEngine.GlobalStore.SetValue | core/src/functions/GlobalStore.ts:125-144 | a missing slice or key is rejected with nothing queued; otherwise the unit is queued, a running drain is not restarted, an idle one starts on it, and the store is not written |
| StoreEngine.GlobalStore.SetSlice | core/src/functions/GlobalStore.ts:113-124 | one unit per entry, in order, each resolving to the entry's value; the first rejected entry stops the loop and earlier ones stay queued |
| StoreEngine.GlobalStore.SetEntry | core/src/functions/GlobalStore.ts:118-122 | one entry of `setSlice` extends what the earlier entries queued |
| StoreEngine.GlobalStore.SetMiddleware | core/src/functions/GlobalStore.ts:157-169 | installs the middleware for (slice, key) and keeps every other one |
| StoreEngine.GlobalStore.SetMiddlewares | core/src/functions/GlobalStore.ts:145-156 | installs every truthy middleware of every truthy slice entry, in order |
| StoreEngine.GlobalStore.Resume | core/src/functions/GlobalStore.ts:209-284 | after a unit settles: a value becomes a record and a throw is dropped. With more units queued, the next one runs on the overlaid view and the store is untouched. Otherwise every record is committed and then dispatched, or the drain stops at a throwing middleware |
| StoreEngine.GlobalStore.Continue | core/src/functions/GlobalStore.ts:202-238 | a round that is not the last pushes the settled record, keeps the overlay equal to the records so far, and starts the next unit on the overlaid view |
| StoreEngine.GlobalStore.Conclude | core/src/functions/GlobalStore.ts:240-284 | the last unit's record is added and the whole batch committed and notified |
| StoreEngine.GlobalStore.Absorb | core/src/functions/GlobalStore.ts:213-235 | the settled value is pushed as a record and written to the overlay |
| StoreEngine.GlobalStore.StartNext | core/src/functions/GlobalStore.ts:202-211 | the oldest unit is taken off the queue and called on `{...getStore(), ..._tempStore}` |
| StoreEngine.GlobalStore.FinishBatch | core/src/functions/GlobalStore.ts:240-284 | commit, then dispatch and go idle, or stay processing after a throwing middleware |
| StoreEngine.GlobalStore.Notify | core/src/functions/GlobalStore.ts:255-282 | dispatch with the batch's update id, then empty both lists and clear `valueProcessing` |
| StoreEngine.GlobalStore.CommitBatch | core/src/functions/GlobalStore.ts:242-253 | the commit loop computes `Commit` |
| StoreEngine.GlobalStore.DispatchBatch | core/src/functions/GlobalStore.ts:256-278 | the dispatch loop computes `Dispatch` |
| StoreEngine.GlobalStore.DispatchListen | core/src/functions/GlobalStore.ts:257-277 | one listen entry computes `DispatchOne` |
| StoreEngine.GlobalStore.NotifyListeners | core/src/functions/GlobalStore.ts:266-276 | the inner loop computes `NotifyAll` over the listeners captured before any ran |
| StoreEngine.GlobalStore.NotifyOne | core/src/functions/GlobalStore.ts:267-275 | one listener: called iff its comparator allows it, a `once` one unsubscribed first |
| StoreEngine.GlobalStore.Subscribe | core/src/functions/GlobalStore.ts:320-351 | stores the entry under `slice###key###id`, where id is the given one or 20 random alphanumerics; an entry under that name is replaced |
| StoreEngine.GlobalStore.SubscribeSlice | core/src/functions/GlobalStore.ts:309-319 | one subscription per key the slice has now, in key order; none for a missing slice |
| StoreEngine.GlobalStore.Unsubscribe | core/src/functions/GlobalStore.ts:352-354 | removes that id only |
| Setter.UnitFnOutcome | core/src/functions/createUpdater.ts:30-47 | a constant resolves to itself and a callable to its result; a synchronous throw gives back the argument; only a rejection fails the unit |
| Setter.PayloadUnitsAt | core/src/functions/createUpdater.ts:19-51 | unit i of a payload call is `setValue(slice, key_i, setter_i, forceRenderer)` |
| Setter.MakeSetters | core/src/functions/createUpdater.ts:9-17 | one payload function per slice of the initial state, and no other |
| Setter.CallPayload | core/src/functions/createUpdater.ts:17-76 | one `setValue` per payload key in order, with `forceRenderer` passed through. The first rejected key ends the call with the nested error; earlier keys stay queued and later keys are not queued |
| Setter.CallKey | core/src/functions/createUpdater.ts:49-74 | one key's `setValue` extends what the earlier keys queued |
| JsonTags.Replacer | core/src/functions/utils.ts:91-109 | tags `undefined`, `Map` (as its entry list) and `Set` (as its value list) with `dataType`; every other value unchanged |
| JsonTags.Iterate | core/src/functions/utils.ts:117-119 | what `new Map(x)`/`new Set(x)` iterate: nothing for null/undefined, and a failure for non-iterables |
| JsonTags.EntryOf | core/src/functions/utils.ts:117 | `new Map` reads `[0]`/`[1]` of each object item and fails on a primitive |
| JsonTags.MapSet | core/src/functions/utils.ts:117 | `Map.set` keeps an existing primitive key's place and appends a new key |
| JsonTags.SetAdd | core/src/functions/utils.ts:119 | `Set.add` adds a value unless an equal primitive is already present |
| JsonTags.MapOf | core/src/functions/utils.ts:117 | `new Map(items)` succeeds iff every item is an object |
| JsonTags.SetOf | core/src/functions/utils.ts:119 | `new Set(items)` holds exactly the items |
| JsonTags.Reviver | core/src/functions/utils.ts:112-123 | an untagged value comes back unchanged; the `undefined` tag gives `undefined`; only a `Map`/`Set` tag can fail |
| JsonTags.MapOfPairs | core/src/functions/utils.ts:116-117 | rebuilding a `Map` from its entry list gives the same entries |
| JsonTags.SetOfUnique | core/src/functions/utils.ts:118-119 | rebuilding a `Set` from its values gives the same values |
| JsonTags.ReviverInvertsReplacer | core/src/functions/utils.ts:91-123 | reviving a replaced value gives it back, unless it is a plain object that looks like a tag |
| JsonTags.TagLikeObjectMisread | core/src/functions/utils.ts:113-120 | the plain object `{dataType: "Set"}` comes back as an empty `Set` |
| JsonTags.Encode | core/src/functions/utils.ts:91-109 | `JSON.stringify` with the replacer yields a value with no `undefined`, `Map` or `Set` left in it |
| JsonTags.EncodeIsReplacerFirst | core/src/functions/utils.ts:91-109 | the replacer runs on a value before its children are written |
| JsonTags.Revived | core/src/functions/utils.ts:114-115 | `JSON.parse` drops a property revived to `undefined`; when none is, every property is kept with its revived value at its place |
| JsonTags.RevivedMembers | core/src/functions/utils.ts:114-115 | a pair is kept iff some property has that name and that revived value and the value is not `undefined` |
| JsonTags.RevivedConcat | core/src/functions/utils.ts:114-115 | reviving keeps property order: the kept properties of a prefix come first, followed by those of the rest |
| JsonTags.RevivedDropsOnlyUndefined | core/src/functions/utils.ts:114-115 | `{a: undefined, b: null}` revives to `{b: null}`: a deleted property does not take the others with it |
| JsonTags.RoundTrip | core/src/__tests__/utils.test.ts:179-212 | parsing back what was stringified gives the value again, for values with no tag-like object, no `undefined` property and no duplicate `Map` key or `Set` value |
| JsonTags.RoundTripMap | core/src/functions/utils.ts:96-100 | a `Map` survives the round trip |
| JsonTags.RoundTripSet | core/src/functions/utils.ts:101-105 | a `Set` survives the round trip |
| JsonTags.TaggedUndefined | core/src/functions/utils.ts:92-95 | a top-level `undefined` survives the round trip |
| JsonTags.UndefinedPropertyLost | core/src/functions/utils.ts:114-115 | `{a: undefined}` comes back as `{}` |
| Cleanup.Added | core/src/functions/cleanup.ts:37-42 | the key is appended only when absent; a duplicate-free list stays so |
| Cleanup.Drop | core/src/functions/cleanup.ts:161-167 | `keys.filter(k => !gone.includes(k))` keeps exactly the keys not in `gone`; the unused keys are `Drop(storedKeys, activeKeys)` |
| Cleanup.DropCounts | core/src/functions/cleanup.ts:161-167 | the filter keeps every key not in `gone` as often as it occurs, and no key in `gone` |
| Cleanup.DropConcat | core/src/functions/cleanup.ts:161-167 | the filter keeps order: dropping from `a + b` is dropping from `a` followed by dropping from `b` |
| Cleanup.DropWithout | core/src/functions/cleanup.ts:85-86 | removing keys one after another is removing them all |
| Cleanup.Kept | core/src/functions/cleanup.ts:161 | the recorded keys that are active |
| Cleanup.KeptCounts | core/src/functions/cleanup.ts:161 | the filter keeps every active key as often as it was recorded, and no other key |
| Cleanup.KeptConcat | core/src/functions/cleanup.ts:161 | the filter keeps order: keeping from `a + b` is keeping from `a` followed by keeping from `b` |
| Cleanup.DropUnused | core/src/functions/cleanup.ts:160-167 | removing the unused keys from the registry leaves exactly the active recorded ones, in order |
| Cleanup.SliceEntriesMembers | core/src/functions/cleanup.ts:78-89 | the entries a slice clear removes are both the prefixed and the legacy key of every slice key, and nothing else |
| Cleanup.TotalSizeZero | core/src/functions/cleanup.ts:134-139 | the total size is 0 iff no recorded key has a non-empty stored value |
| Cleanup.TotalSizeCovers | core/src/functions/cleanup.ts:134-139 | each recorded key with a non-empty value adds its key and value `.length`, counted in UTF-16 code units |
| Cleanup.Utf16LengthBmp | core/src/functions/cleanup.ts:137 | `.length` equals the number of characters iff no character lies beyond the Basic Multilingual Plane |
| Cleanup.Utf16LengthConcat | core/src/functions/cleanup.ts:137 | the UTF-16 length of a concatenation is the sum of the lengths |
| Cleanup.SurrogatePairCountsTwo | core/src/functions/cleanup.ts:137 | a one-character emoji has `.length` 2 |
| Cleanup.BrowserStorage.StoredKeys | core/src/functions/cleanup.ts:14-26 | the recorded list, or `[]` with no window, no registry or unparsable text |
| Cleanup.BrowserStorage.AddStoredKey | core/src/functions/cleanup.ts:31-46 | appends the key only when absent, leaves the registry alone otherwise, and keeps it duplicate-free |
| Cleanup.BrowserStorage.RemoveStoredKey | core/src/functions/cleanup.ts:51-64 | rewrites the registry without the key, even when the key was absent |
| Cleanup.BrowserStorage.ClearSliceFromStorage | core/src/functions/cleanup.ts:69-93 | removes both the prefixed and the legacy entry of every slice key from storage and from the registry |
| Cleanup.BrowserStorage.Forget | core/src/functions/cleanup.ts:85-86 | one registry removal extends the removals before it |
| Cleanup.BrowserStorage.ClearAllStoredKeys | core/src/functions/cleanup.ts:98-116 | removes every recorded key, then the registry entry itself |
| Cleanup.BrowserStorage.GetStorageInfo | core/src/functions/cleanup.ts:121-149 | the recorded keys, their count, and the summed UTF-16 key and value lengths of those with a non-empty value |
| Cleanup.BrowserStorage.CleanupUnusedKeys | core/src/functions/cleanup.ts:154-175 | removes exactly the inactive recorded keys from storage and registry; active keys untouched |
| Cleanup.BrowserStorage.RemoveEach | core/src/functions/cleanup.ts:163-167 | the loop removes each key from storage and registry |
| LegacyUpdater.NewValue | src/functions/createUpdater.ts:20-33 | a constant is assigned; a callable's result is assigned unless it is null/undefined; a throw keeps the value; other keys are unchanged |
| LegacyUpdater.ConsumedAt | src/functions/callRerenders.ts:17-19 | index i is recorded as consumed iff rerender i returned true |
| LegacyUpdater.KeptAt | src/functions/callRerenders.ts:20-22 | index i survives the filter iff rerender i returned false |
| LegacyUpdater.KeptIncreasing | src/functions/callRerenders.ts:20-22 | survivors keep their original relative order |
| LegacyUpdater.Survivors | src/functions/callRerenders.ts:20-22 | an absent list becomes `[]`; otherwise the rerenders at the kept indices |
| LegacyUpdater.SurvivorsExact | src/functions/callRerenders.ts:18-22 | exactly the rerenders that returned false survive |
| LegacyUpdater.Step | src/functions/createUpdater.ts:19-36 | the entry writes its key as `NewValue` says, and `callRerenders` runs iff the entry counts as a change (`currentRootState !== state[key]`) |
| LegacyUpdater.ChangedCases | src/functions/createUpdater.ts:20-36 | a constant changes its key iff it differs from the current value; an object returned by a callable always does, because the callable is handed a `structuredClone`; a primitive result does iff it differs; a throw or a `null`/`undefined` result never does |
| LegacyUpdater.UntouchedKeys | src/functions/createUpdater.ts:18-19 | keys not in the payload keep their values |
| LegacyUpdater.UnchangedNoRerender | src/functions/createUpdater.ts:34-36 | assigning every key its current value triggers no rerender and changes nothing |
| LegacyUpdater.SliceState.CallRerenders | src/functions/callRerenders.ts:15-22 | `_rerenders` becomes the survivors, and the consumed indices are those that returned true |
| LegacyUpdater.SliceState.Update | src/functions/createUpdater.ts:12-38 | the slice and its rerender list become what the key-by-key update computes |
| LegacyUpdater.CollectConsumed | src/functions/callRerenders.ts:17-19 | the loop collects exactly the consumed indices |
| LegacyUpdater.DropConsumed | src/functions/callRerenders.ts:20-22 | the filter keeps exactly the rerenders at non-consumed indices, in order |
| ObjectClone.Pairs | core/src/functions/utils.ts:48-49 | entries rebuilt from keys and values in iteration order flatten back to them |
| ObjectClone.Build | core/src/functions/utils.ts:45-87 | the filled container has the source's kind, property names and size, and holds the given copies |
| ObjectClone.CompleteMono | core/src/functions/utils.ts:38-40 | a finished copy stays one as later copying adds objects and `seen` entries |
| ObjectClone.GrownTrans | core/src/functions/utils.ts:48-86 | two copying steps in a row are one copying step |
| ObjectClone.CycleKept | core/src/__tests__/utils.test.ts:169-175 | a property referring back to its own object is copied to one referring to the copy; a primitive property is copied as it is |
| ObjectClone.SharedCopy | core/src/functions/utils.ts:38-40 | a source object reached twice has one copy |
| ObjectClone.Cloner.constructor | core/src/functions/utils.ts:30 | a fresh `seen` map over the source graph |
| ObjectClone.Cloner.Clone | core/src/functions/utils.ts:27-88 | primitives are returned unchanged; a seen object gives its registered copy; a `Date` gives a fresh, unregistered `Date` with the same time; any other object gives a copy registered in `seen` that holds the copies of its contents. Source objects are never modified, and every newly registered copy is finished |
| ObjectClone.Cloner.CloneObject | core/src/functions/utils.ts:45-87 | a container is registered before its contents are copied, so references back to it reach the copy |
| ObjectClone.Cloner.Register | core/src/functions/utils.ts:46-47 | the new empty copy is allocated fresh and recorded in `seen` |
| ObjectClone.Cloner.Store | core/src/functions/utils.ts:48-50 | the filled copy replaces the empty one, and no other finished copy changes |
| ObjectClone.Cloner.CloneEach | core/src/functions/utils.ts:73-75 | each child is copied in order and each result is the copy of its child |
| ObjectClone.Cloner.CloneStep | core/src/functions/utils.ts:74 | one child copied, the earlier copies kept |

## Left out

- The singleton and `getInstance` (`GlobalStore.ts:58,97-112`): the model works on one explicit `GlobalStore` object.
- Debug logging (`debag`, `debug.ts`): output only.
- The persistence glue of `createEstate.ts`, the framework bindings and the example apps: they are asynchronous I/O and UI lifecycle.
- JSON text: `JsonTags.Encode`/`Decode` are the `JSON.stringify`/`JSON.parse` traversals over values, and the character-level syntax is not modelled.
- `Date` values in `replacer`/`reviver`: `JSON.stringify` turns a date into text, which the reviver never turns back, so dates are outside the value model.
- `Math.random` and `Date.now()` are parameters: `GenerateRandomID` picks an arbitrary index, and `Resume` takes `now`.
- Object identity in the store: `===` on values is structural equality, so two distinct but equal objects count as unchanged.
- LegacyUpdater.Step: a constant payload that is an object counts as a change only when it differs structurally from the current value; in JavaScript a distinct but equal object is also a change. An object a callable returns always counts as a change, including the rare one captured from outside that is the stored object itself.
- Numbers are integers (`Values.Num`): fractions, `NaN`, `Infinity` and `-0` are not modelled. So three JavaScript behaviours are missing. Writing `NaN` over `NaN` fires the listeners (`GlobalStore.ts:260`) and the rerenders (`createUpdater.ts:34`), because `NaN !== NaN`. `NaN` is falsy, so `setMiddlewares` skips it (`GlobalStore.ts:151`). `JSON.stringify` turns `NaN` and `Infinity` into `null`, so `JsonTags.RoundTrip` does not hold for them.
- StoreSpec.DispatchOne: comparators are total functions and callbacks are events, so they cannot throw. In JavaScript a throwing `compare` or `callback` (`GlobalStore.ts:266-276`) skips the reset at lines 280-282. `valueProcessing` then stays set and every later `setValue` only queues, as after a throwing middleware.
- StoreEngine.GlobalStore.Notify: for the same reason it always clears the queues and `valueProcessing`; the stuck state after a throwing listener is not modelled.
- LegacyUpdater.SliceState.Update: rerenders are total functions. In JavaScript a throwing rerender (`callRerenders.ts:18`) ends the update. Later payload keys are not applied and `_rerenders` is not filtered.
- StoreSpec.ApplyMiddleware: a middleware sees a snapshot of the store. In JavaScript it also receives the store itself (`reducer: this`, `GlobalStore.ts:184`) and may call back into it; that re-entry is not modelled.
- `Utils.ObjectKeys`, `StoreSpec.SliceProps`, `StoreSpec.RootProps` and `StoreSpec.OverlayOrdered` keep properties in insertion order. JavaScript lists integer-like names (a slice or key called "1") first, in ascending order, so `getObjectKeys`, `getSlice` (`Object.fromEntries`), `getStore` and the overlaid view order such names differently. That order is not modelled.
- `isFunction`, `isPromise` and `isKey` are the variants of `Middleware`, `PayloadValue` and `LegacyPayload`.
- Setter.UnitFn: `core/src/functions/createUpdater.ts:3` imports `isCallable`, which `core/src/functions/utils.ts` does not export (it has `isFunction`, line 5); the model reads it as the function test `isCallable` of `src/functions/utils.ts:4`.
- Listener callbacks are events: a callback that itself subscribes or writes to the store is not modelled.
- The constants file (`STORAGE_PREFIX`, `ESTATE_KEYS_STORAGE_KEY`) is not part of this model: the prefix is a constructor parameter of `BrowserStorage`.
- Cleanup.BrowserStorage: the registry entry is held apart from the other items. A recorded or slice key equal to `ESTATE_KEYS_STORAGE_KEY` would in JavaScript remove or overwrite the registry itself; that aliasing is not modelled.
- No well-formedness predicate restricts values. `Values.Obj` may repeat a property name, where a JavaScript object cannot (`Lookup` reads the first). `ObjectClone.HVal.Prim` may hold an object `Value`, which `clone` would treat as a heap object; the clone lemmas are stated for the heap graph as given.
- A registry that parses to something other than a string list, and a `localStorage` call that throws, are not modelled.
- `structuredClone` in the legacy updater is the identity on values; its failure on functions is not modelled.
- A rerender receives the slice's values, not the whole root state.
- `clone` of objects with a prototype other than `Object`, `Array`, `Map`, `Set` or `Date` is modelled as cloning a plain object's own properties; the prototype is not kept.
- `Map.set` and `Set.add` in `clone` append: distinct source keys have distinct copies, so no key collides.
- `ObjectClone.Cloner.Store`: the copied children are collected and stored into the registered copy at the end, rather than one by one. Nothing reads the partial copy in between, so the resulting graph is the same.
- `StoreEngine.GlobalStore.SubscribeSlice`: with a random listener id, only the number of ids and their registration are stated, not their spelling.
- `Setter.CallPayload`: the nested error's `storeValue` is read after the failing key's `setValue`, which is `undefined` because the key is missing.
