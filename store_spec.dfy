/** The value-level meaning of the global store's drain
    (`waitingUpdater` in core/src/functions/GlobalStore.ts): the overlay that
    pending units read, the commit of the resolved records through the
    middlewares, and the dispatch of listener notifications. The class in
    global_store.dfy is proved to follow these functions step by step. */
module StoreSpec {
  import opened Values
  import opened ListenerIds

  /** slice -> key -> value: the `Map` of `Map`s of `StoreHandler`. */
  type Slice = map<string, Value>
  type Root = map<string, Slice>

  predicate HasKey(root: Root, slice: string, key: string)
  {
    slice in root && key in root[slice]
  }

  /** `getValue(slice, key)`: `store.get(slice)?.get(key)`, `undefined` when
      either is missing. */
  function Get(root: Root, slice: string, key: string): Value
  {
    if HasKey(root, slice, key) then root[slice][key] else Undefined
  }

  /** The same slices, and in each slice the same keys. */
  ghost predicate SameShape(a: Root, b: Root)
  {
    (forall s :: s in a <==> s in b) && forall s, k :: HasKey(a, s, k) <==> HasKey(b, s, k)
  }

  /** `store.get(slice)?.set(key, value)`: nothing happens for a missing slice. */
  function Put(root: Root, slice: string, key: string, value: Value): Root
  {
    if slice in root then root[slice := root[slice][key := value]] else root
  }

  /** Writing an existing key keeps the shape and changes only that key. */
  lemma PutEffect(root: Root, slice: string, key: string, value: Value)
    requires HasKey(root, slice, key)
    ensures SameShape(Put(root, slice, key, value), root)
    ensures forall s, k :: Get(Put(root, slice, key, value), s, k) == if s == slice && k == key then value else Get(root, s, k)
  {
  }

  /** A resolved unit: the tuple `[slice, key, value, forceRerender]`. */
  datatype Record = Record(slice: string, key: string, value: Value, force: bool)

  /** An entry of `waitingListen`, made when a record is committed. */
  datatype Listen = Listen(force: bool, oldValue: Value, slice: string, key: string)

  /** Every record names a key that exists in `root`. */
  predicate Targets(root: Root, recs: seq<Record>)
  {
    forall i :: 0 <= i < |recs| ==> HasKey(root, recs[i].slice, recs[i].key)
  }

  // ---------------------------------------------------------------------
  // The overlay (`_tempStore`)

  /** One overlay write: on the first write to a slice the overlay takes a copy
      of the committed slice; then the key is set in the overlay slice. */
  function WriteOverlay(store: Root, overlay: Root, r: Record): Root
  {
    var base := if r.slice in overlay then overlay[r.slice] else if r.slice in store then store[r.slice] else map[];
    overlay[r.slice := base[r.key := r.value]]
  }

  /** The overlay after the records `recs` were written into it, in order. */
  function Overlay(store: Root, recs: seq<Record>): Root
    decreases |recs|
  {
    if recs == [] then map[]
    else WriteOverlay(store, Overlay(store, recs[..|recs| - 1]), recs[|recs| - 1])
  }

  /** The value of the last record for (slice, key), if any. */
  function LatestFor(recs: seq<Record>, slice: string, key: string): Option<Value>
    decreases |recs|
  {
    if recs == [] then None
    else if recs[|recs| - 1].slice == slice && recs[|recs| - 1].key == key then Some(recs[|recs| - 1].value)
    else LatestFor(recs[..|recs| - 1], slice, key)
  }

  /** What a pending unit sees for (slice, key) after the records `recs`:
      the latest resolved value, or else the committed one. */
  function Visible(store: Root, recs: seq<Record>, slice: string, key: string): Value
  {
    match LatestFor(recs, slice, key)
    case Some(v) => v
    case None => Get(store, slice, key)
  }

  /** The view `{...getStore(), ..._tempStore}` keeps the store's shape. */
  lemma {:induction false} OverlayShape(store: Root, recs: seq<Record>)
    requires Targets(store, recs)
    ensures SameShape(store + Overlay(store, recs), store)
    decreases |recs|
  {
    if recs != [] {
      var init, r := recs[..|recs| - 1], recs[|recs| - 1];
      assert Targets(store, init);
      OverlayShape(store, init);
      var ov := Overlay(store, init);
      assert r.slice in ov ==> (store + ov)[r.slice] == ov[r.slice];
    }
  }

  /** The view shows, for every key, the latest resolved value or else the
      committed value; in particular the other keys of an overlaid slice keep
      their committed values. */
  lemma OverlayView(store: Root, recs: seq<Record>)
    requires Targets(store, recs)
    ensures forall s, k :: Get(store + Overlay(store, recs), s, k) == Visible(store, recs, s, k)
  {
    forall s, k ensures Get(store + Overlay(store, recs), s, k) == Visible(store, recs, s, k) {
      OverlayViewAt(store, recs, s, k);
    }
  }

  lemma {:induction false} OverlayViewAt(store: Root, recs: seq<Record>, s: string, k: string)
    requires Targets(store, recs)
    ensures Get(store + Overlay(store, recs), s, k) == Visible(store, recs, s, k)
    decreases |recs|
  {
    if recs != [] {
      var init, r := recs[..|recs| - 1], recs[|recs| - 1];
      assert Targets(store, init);
      OverlayViewAt(store, init, s, k);
      var ov := Overlay(store, init);
      MergeGet(store, ov, s, k);
      MergeGet(store, Overlay(store, recs), s, k);
    }
  }

  /** Reading through `{...store, ...overlay}`. */
  lemma MergeGet(store: Root, overlay: Root, s: string, k: string)
    ensures Get(store + overlay, s, k) ==
      if s in overlay then (if k in overlay[s] then overlay[s][k] else Undefined) else Get(store, s, k)
  {
  }

  // ---------------------------------------------------------------------
  // Commit (`_middleware` and the first loop of the drain's final branch)

  /** A middleware registered for one (slice, key): a function of the value
      (which also gets the slice, the key and the store it belongs to) or any
      other value, which replaces the committed value. */
  datatype Middleware =
    | Constant(value: Value)
    | Transform(fn: (Value, string, string, Root) -> Outcome)

  type Middlewares = map<string, map<string, Middleware>>

  /** `_middleware(slice, key, value)`. An exception of the middleware is not
      caught, so the result is an `Outcome`. */
  function ApplyMiddleware(mws: Middlewares, slice: string, key: string, value: Value, store: Root): (r: Outcome)
    ensures slice !in mws || key !in mws[slice] ==> r == Done(value)
    ensures slice in mws && key in mws[slice] && mws[slice][key].Constant? ==> r == Done(mws[slice][key].value)
    ensures slice in mws && key in mws[slice] && mws[slice][key].Transform? ==> r == mws[slice][key].fn(value, slice, key, store)
  {
    if slice !in mws then Done(value)
    else if key !in mws[slice] then Done(value)
    else match mws[slice][key]
      case Transform(fn) => fn(value, slice, key, store)
      case Constant(c) => Done(c)
  }

  /** The store and `waitingListen` after committing a prefix of the records;
      `ok` is false once a middleware has thrown, which ends the loop. */
  datatype CommitState = CommitState(store: Root, listens: seq<Listen>, ok: bool)

  function CommitStep(c: CommitState, mws: Middlewares, r: Record): CommitState
  {
    match ApplyMiddleware(mws, r.slice, r.key, r.value, c.store)
    case Threw => c.(ok := false)
    case Done(v) =>
      CommitState(Put(c.store, r.slice, r.key, v),
                  c.listens + [Listen(r.force, Get(c.store, r.slice, r.key), r.slice, r.key)], true)
  }

  /** The commit loop over `waitingSetValue`. */
  function Commit(store: Root, mws: Middlewares, recs: seq<Record>): (c: CommitState)
    ensures c.ok ==> |c.listens| == |recs|
    ensures |c.listens| <= |recs|
    decreases |recs|
  {
    if recs == [] then CommitState(store, [], true)
    else
      var c := Commit(store, mws, recs[..|recs| - 1]);
      if !c.ok then c else CommitStep(c, mws, recs[|recs| - 1])
  }

  /** Committing records that all name existing keys keeps the store's shape. */
  lemma {:induction false} CommitShape(store: Root, mws: Middlewares, recs: seq<Record>)
    requires Targets(store, recs)
    ensures SameShape(Commit(store, mws, recs).store, store)
    decreases |recs|
  {
    if recs != [] {
      var init, r := recs[..|recs| - 1], recs[|recs| - 1];
      assert Targets(store, init);
      CommitShape(store, mws, init);
      var c := Commit(store, mws, init);
      var out := ApplyMiddleware(mws, r.slice, r.key, r.value, c.store);
      if c.ok && out.Done? {
        PutEffect(c.store, r.slice, r.key, out.value);
      }
    }
  }

  /** Once a middleware has thrown, the remaining records are not committed. */
  lemma {:induction false} CommitAbortSticks(store: Root, mws: Middlewares, recs: seq<Record>, i: nat)
    requires i <= |recs|
    requires !Commit(store, mws, recs[..i]).ok
    ensures Commit(store, mws, recs) == Commit(store, mws, recs[..i])
    decreases |recs| - i
  {
    if i < |recs| {
      var init := recs[..|recs| - 1];
      assert init[..i] == recs[..i];
      CommitAbortSticks(store, mws, init, i);
    } else {
      assert recs[..i] == recs;
    }
  }

  /** The index of the last record for (slice, key). */
  function LastIndex(recs: seq<Record>, slice: string, key: string): (r: Option<nat>)
    ensures r.Some? ==> r.value < |recs| && recs[r.value].slice == slice && recs[r.value].key == key
    ensures r.Some? ==> forall j :: r.value < j < |recs| ==> !(recs[j].slice == slice && recs[j].key == key)
    ensures r.None? ==> forall j :: 0 <= j < |recs| ==> !(recs[j].slice == slice && recs[j].key == key)
    decreases |recs|
  {
    if recs == [] then None
    else if recs[|recs| - 1].slice == slice && recs[|recs| - 1].key == key then Some(|recs| - 1)
    else LastIndex(recs[..|recs| - 1], slice, key)
  }

  /** Last write wins: after a complete commit each key holds the middleware's
      result for its last record, computed against the store as it was when
      that record was committed; keys without a record keep their value. */
  lemma {:induction false} CommitLastWrite(store: Root, mws: Middlewares, recs: seq<Record>, slice: string, key: string)
    requires Targets(store, recs) && Commit(store, mws, recs).ok
    ensures LastIndex(recs, slice, key).None? ==>
      Get(Commit(store, mws, recs).store, slice, key) == Get(store, slice, key)
    ensures LastIndex(recs, slice, key).Some? ==>
      var i := LastIndex(recs, slice, key).value;
      var before := Commit(store, mws, recs[..i]);
      ApplyMiddleware(mws, slice, key, recs[i].value, before.store).Done? &&
      Get(Commit(store, mws, recs).store, slice, key) == ApplyMiddleware(mws, slice, key, recs[i].value, before.store).value
    decreases |recs|
  {
    if recs != [] {
      var init, r := recs[..|recs| - 1], recs[|recs| - 1];
      assert Targets(store, init);
      var c := Commit(store, mws, init);
      assert c.ok;
      CommitShape(store, mws, init);
      var out := ApplyMiddleware(mws, r.slice, r.key, r.value, c.store);
      assert out.Done?;
      PutEffect(c.store, r.slice, r.key, out.value);
      if r.slice == slice && r.key == key {
        assert recs[..|recs| - 1] == init;
      } else {
        CommitLastWrite(store, mws, init, slice, key);
        if LastIndex(init, slice, key).Some? {
          var i := LastIndex(init, slice, key).value;
          assert init[..i] == recs[..i];
        }
      }
    }
  }

  /** Each committed record leaves one listen entry holding the record's force
      flag and the value the key had just before that record was committed. */
  lemma {:induction false} CommitListens(store: Root, mws: Middlewares, recs: seq<Record>, i: nat)
    requires Commit(store, mws, recs).ok && i < |recs|
    ensures Commit(store, mws, recs).listens[i] ==
      Listen(recs[i].force, Get(Commit(store, mws, recs[..i]).store, recs[i].slice, recs[i].key), recs[i].slice, recs[i].key)
    decreases |recs|
  {
    var init := recs[..|recs| - 1];
    if i < |recs| - 1 {
      assert init[..i] == recs[..i];
      CommitListens(store, mws, init, i);
    } else {
      assert init == recs[..i];
    }
  }

  // ---------------------------------------------------------------------
  // The listener registry

  /** A registered listener: the optional comparator (`compare` is kept only
      when truthy) and whether the subscription was `once`. The callback
      itself is represented by the events it receives. */
  datatype Listener = Listener(compare: Option<(Value, Value) -> bool>, once: bool)

  /** The `listeners` record: its entries and its key order (`Object.keys`). */
  datatype Registry = Registry(entries: map<string, Listener>, order: seq<string>)

  ghost predicate RegistryOk(reg: Registry)
  {
    Distinct(reg.order) && forall id :: id in reg.entries <==> id in reg.order
  }

  /** `listeners[id] = entry`: a new id goes last in key order, an existing id
      keeps its place and gets the new entry. */
  function Register(reg: Registry, id: string, l: Listener): (r: Registry)
    ensures RegistryOk(reg) ==> RegistryOk(r)
    ensures r.entries == reg.entries[id := l]
    ensures id in reg.entries ==> r.order == reg.order
  {
    if id in reg.entries then Registry(reg.entries[id := l], reg.order)
    else Registry(reg.entries[id := l], reg.order + [id])
  }

  /** `listeners[id] = entry` for each id in turn, all with the same entry. */
  function RegisterAll(reg: Registry, ids: seq<string>, l: Listener): Registry
    decreases |ids|
  {
    if ids == [] then reg
    else Register(RegisterAll(reg, ids[..|ids| - 1], l), ids[|ids| - 1], l)
  }

  /** After registering several ids, those ids hold the new entry and every
      other id keeps its old one. */
  lemma {:induction false} RegisterAllEffect(reg: Registry, ids: seq<string>, l: Listener)
    ensures var r := RegisterAll(reg, ids, l);
      (RegistryOk(reg) ==> RegistryOk(r)) &&
      (forall id :: id in r.entries <==> id in reg.entries || id in ids) &&
      (forall id :: id in ids ==> r.entries[id] == l) &&
      (forall id :: id in reg.entries && id !in ids ==> r.entries[id] == reg.entries[id])
    decreases |ids|
  {
    if ids != [] {
      RegisterAllEffect(reg, ids[..|ids| - 1], l);
      assert forall id :: id in ids <==> id in ids[..|ids| - 1] || id == ids[|ids| - 1] by {
        assert ids == ids[..|ids| - 1] + [ids[|ids| - 1]];
      }
    }
  }

  /** `delete listeners[id]`. */
  function Unregister(reg: Registry, id: string): (r: Registry)
    ensures r.entries == reg.entries - {id}
    ensures forall x :: x in r.order <==> x in reg.order && x != id
  {
    Registry(reg.entries - {id}, Without(reg.order, id))
  }

  lemma UnregisterOk(reg: Registry, id: string)
    requires RegistryOk(reg)
    ensures RegistryOk(Unregister(reg, id))
  {
    WithoutDistinct(reg.order, id);
  }

  /** The ids `getListeners(slice, key)` selects, in key order. */
  function ListenersOf(order: seq<string>, slice: string, key: string): (ids: seq<string>)
    ensures forall id :: id in ids <==> id in order && Matches(id, slice, key)
    ensures Distinct(order) ==> Distinct(ids)
    decreases |order|
  {
    if order == [] then []
    else
      var init, last := order[..|order| - 1], order[|order| - 1];
      var ids := ListenersOf(init, slice, key);
      assert Distinct(order) ==> last !in init;
      if Matches(last, slice, key) then ids + [last] else ids
  }

  /** The comparator test: `compare === undefined ? true : !compare(old, new)`. */
  predicate Fires(l: Listener, oldValue: Value, newValue: Value)
  {
    l.compare.None? || !l.compare.value(oldValue, newValue)
  }

  /** One callback invocation, with the argument `{slice, key, updateId}`. */
  datatype Event = Event(listenerId: string, slice: string, key: string, updateId: string)

  /** The registry lost entries and changed none of the others. */
  ghost predicate Shrinks(before: Registry, after: Registry)
  {
    after.entries.Keys <= before.entries.Keys &&
    forall id :: id in after.entries ==> after.entries[id] == before.entries[id]
  }

  /** The inner loop over the listeners captured for one listen entry: each
      firing listener yields an event, and a `once` listener unsubscribes its
      own id before its callback runs. */
  function NotifyAll(reg: Registry, snap: map<string, Listener>, ids: seq<string>,
                     oldValue: Value, newValue: Value, slice: string, key: string, updateId: string): (res: (Registry, seq<Event>))
    decreases |ids|
  {
    if ids == [] then (reg, [])
    else
      var prev := NotifyAll(reg, snap, ids[..|ids| - 1], oldValue, newValue, slice, key, updateId);
      var step := NotifyStep(prev.0, snap, ids[|ids| - 1], oldValue, newValue, slice, key, updateId);
      (step.0, prev.1 + step.1)
  }

  /** One listener of the inner loop: `if (!compare || compare(oldValue,
      newValue))`, a `once` listener is unsubscribed before its callback is
      called. */
  function NotifyStep(reg: Registry, snap: map<string, Listener>, id: string,
                      oldValue: Value, newValue: Value, slice: string, key: string, updateId: string): (res: (Registry, seq<Event>))
  {
    if id in snap && Fires(snap[id], oldValue, newValue) then
      (if snap[id].once then Unregister(reg, id) else reg, [Event(id, slice, key, updateId)])
    else (reg, [])
  }

  /** One iteration of the dispatch loop: the listeners of the entry's
      (slice, key) are notified iff the entry is forced or the value now in
      the store differs from the entry's old value. */
  function DispatchOne(reg: Registry, store: Root, l: Listen, updateId: string): (res: (Registry, seq<Event>))
  {
    var newValue := Get(store, l.slice, l.key);
    var ids := ListenersOf(reg.order, l.slice, l.key);
    if l.force || l.oldValue != newValue then
      NotifyAll(reg, reg.entries, ids, l.oldValue, newValue, l.slice, l.key, updateId)
    else (reg, [])
  }

  /** The dispatch loop over `waitingListen`, in order. */
  function Dispatch(reg: Registry, store: Root, listens: seq<Listen>, updateId: string): (res: (Registry, seq<Event>))
    decreases |listens|
  {
    if listens == [] then (reg, [])
    else
      var prev := Dispatch(reg, store, listens[..|listens| - 1], updateId);
      var step := DispatchOne(prev.0, store, listens[|listens| - 1], updateId);
      (step.0, prev.1 + step.1)
  }

  /** Notifying only ever removes listeners (the `once` ones), and keeps a
      well-formed registry well formed. */
  lemma {:induction false} NotifyAllShrinks(reg: Registry, snap: map<string, Listener>, ids: seq<string>,
                                            oldValue: Value, newValue: Value, slice: string, key: string, updateId: string)
    ensures var res := NotifyAll(reg, snap, ids, oldValue, newValue, slice, key, updateId);
      (RegistryOk(reg) ==> RegistryOk(res.0)) && Shrinks(reg, res.0)
    decreases |ids|
  {
    if ids != [] {
      var init, id := ids[..|ids| - 1], ids[|ids| - 1];
      NotifyAllShrinks(reg, snap, init, oldValue, newValue, slice, key, updateId);
      var prev := NotifyAll(reg, snap, init, oldValue, newValue, slice, key, updateId);
      if RegistryOk(prev.0) {
        UnregisterOk(prev.0, id);
      }
    }
  }

  /** A whole dispatch only ever removes listeners. */
  lemma {:induction false} DispatchShrinks(reg: Registry, store: Root, listens: seq<Listen>, updateId: string)
    requires RegistryOk(reg)
    ensures var res := Dispatch(reg, store, listens, updateId);
      RegistryOk(res.0) && Shrinks(reg, res.0)
    decreases |listens|
  {
    if listens != [] {
      var init, l := listens[..|listens| - 1], listens[|listens| - 1];
      DispatchShrinks(reg, store, init, updateId);
      var prev := Dispatch(reg, store, init, updateId);
      var ids := ListenersOf(prev.0.order, l.slice, l.key);
      NotifyAllShrinks(prev.0, prev.0.entries, ids, l.oldValue, Get(store, l.slice, l.key), l.slice, l.key, updateId);
    }
  }

  function CountFor(events: seq<Event>, id: string): nat
    decreases |events|
  {
    if events == [] then 0
    else CountFor(events[..|events| - 1], id) + (if events[|events| - 1].listenerId == id then 1 else 0)
  }

  lemma {:induction false} CountForAppend(a: seq<Event>, b: seq<Event>, id: string)
    ensures CountFor(a + b, id) == CountFor(a, id) + CountFor(b, id)
    decreases |b|
  {
    if b != [] {
      assert (a + b)[..|a + b| - 1] == a + b[..|b| - 1];
      CountForAppend(a, b[..|b| - 1], id);
    } else {
      assert a + b == a;
    }
  }

  /** Which listeners the inner loop notifies: those of the captured
      entries whose comparator allows it. */
  lemma {:induction false} NotifyAllEvents(reg: Registry, snap: map<string, Listener>, ids: seq<string>,
                                           oldValue: Value, newValue: Value, slice: string, key: string, updateId: string)
    requires forall i :: 0 <= i < |ids| ==> ids[i] in snap
    ensures var res := NotifyAll(reg, snap, ids, oldValue, newValue, slice, key, updateId);
      forall e :: e in res.1 <==>
        e.listenerId in ids && Fires(snap[e.listenerId], oldValue, newValue) &&
        e.slice == slice && e.key == key && e.updateId == updateId
    decreases |ids|
  {
    if ids != [] {
      NotifyAllEvents(reg, snap, ids[..|ids| - 1], oldValue, newValue, slice, key, updateId);
    }
  }

  /** With distinct ids, each allowed listener is notified exactly once and
      every other id not at all. */
  lemma {:induction false} NotifyAllCount(reg: Registry, snap: map<string, Listener>, ids: seq<string>,
                                          oldValue: Value, newValue: Value, slice: string, key: string, updateId: string)
    requires forall i :: 0 <= i < |ids| ==> ids[i] in snap
    requires Distinct(ids)
    ensures var res := NotifyAll(reg, snap, ids, oldValue, newValue, slice, key, updateId);
      forall id :: CountFor(res.1, id) == if id in ids && Fires(snap[id], oldValue, newValue) then 1 else 0
    decreases |ids|
  {
    if ids != [] {
      var init, last := ids[..|ids| - 1], ids[|ids| - 1];
      NotifyAllCount(reg, snap, init, oldValue, newValue, slice, key, updateId);
      var prev := NotifyAll(reg, snap, init, oldValue, newValue, slice, key, updateId);
      assert last !in init;
      if Fires(snap[last], oldValue, newValue) {
        var ev := Event(last, slice, key, updateId);
        assert [ev][..0] == [];
        forall id ensures CountFor(prev.1 + [ev], id) == CountFor(prev.1, id) + (if id == last then 1 else 0) {
          CountForAppend(prev.1, [ev], id);
        }
      } else {
        assert prev.1 + [] == prev.1;
      }
    }
  }

  /** A `once` listener that the inner loop notifies is gone afterwards. */
  lemma {:induction false} NotifyAllRemovesOnce(reg: Registry, snap: map<string, Listener>, ids: seq<string>,
                                                oldValue: Value, newValue: Value, slice: string, key: string, updateId: string)
    requires forall i :: 0 <= i < |ids| ==> ids[i] in snap
    ensures var res := NotifyAll(reg, snap, ids, oldValue, newValue, slice, key, updateId);
      forall id :: id in ids && snap[id].once && Fires(snap[id], oldValue, newValue) ==> id !in res.0.entries
    decreases |ids|
  {
    if ids != [] {
      var init := ids[..|ids| - 1];
      NotifyAllRemovesOnce(reg, snap, init, oldValue, newValue, slice, key, updateId);
      NotifyAllShrinks(reg, snap, init, oldValue, newValue, slice, key, updateId);
      assert forall id :: id in ids ==> id in init || id == ids[|ids| - 1];
    }
  }

  /** The notification rule for one listen entry: listener `id` receives an
      event iff it is registered for the entry's (slice, key), the entry is
      forced or the value changed, and its comparator is absent or says
      "different". */
  lemma DispatchOneEvents(reg: Registry, store: Root, l: Listen, updateId: string, id: string)
    requires RegistryOk(reg)
    ensures var newValue := Get(store, l.slice, l.key);
      Event(id, l.slice, l.key, updateId) in DispatchOne(reg, store, l, updateId).1 <==>
        id in reg.entries && Matches(id, l.slice, l.key) &&
        (l.force || l.oldValue != newValue) && Fires(reg.entries[id], l.oldValue, newValue)
  {
    var newValue := Get(store, l.slice, l.key);
    var ids := ListenersOf(reg.order, l.slice, l.key);
    if l.force || l.oldValue != newValue {
      NotifyAllEvents(reg, reg.entries, ids, l.oldValue, newValue, l.slice, l.key, updateId);
    }
  }

  /** A `once` listener is notified at most once by a whole dispatch, however
      many listen entries name its (slice, key); afterwards it is gone from
      the registry if it was notified. */
  lemma {:induction false} OnceFiresAtMostOnce(reg: Registry, store: Root, listens: seq<Listen>, updateId: string, id: string)
    requires RegistryOk(reg) && id in reg.entries && reg.entries[id].once
    ensures var res := Dispatch(reg, store, listens, updateId);
      CountFor(res.1, id) <= 1 && (CountFor(res.1, id) == 1 ==> id !in res.0.entries)
    decreases |listens|
  {
    if listens != [] {
      var init, l := listens[..|listens| - 1], listens[|listens| - 1];
      OnceFiresAtMostOnce(reg, store, init, updateId, id);
      DispatchShrinks(reg, store, init, updateId);
      var prev := Dispatch(reg, store, init, updateId);
      var step := DispatchOne(prev.0, store, l, updateId);
      CountForAppend(prev.1, step.1, id);
      if id in prev.0.entries {
        assert prev.0.entries[id].once;
        DispatchOneCount(prev.0, store, l, updateId, id);
      } else {
        UnregisteredNotNotified(prev.0, store, l, updateId, id);
      }
    }
  }

  lemma DispatchOneCount(reg: Registry, store: Root, l: Listen, updateId: string, id: string)
    requires RegistryOk(reg) && id in reg.entries && reg.entries[id].once
    ensures var res := DispatchOne(reg, store, l, updateId);
      CountFor(res.1, id) <= 1 && (CountFor(res.1, id) == 1 ==> id !in res.0.entries)
  {
    var newValue := Get(store, l.slice, l.key);
    var ids := ListenersOf(reg.order, l.slice, l.key);
    if l.force || l.oldValue != newValue {
      NotifyAllCount(reg, reg.entries, ids, l.oldValue, newValue, l.slice, l.key, updateId);
      NotifyAllRemovesOnce(reg, reg.entries, ids, l.oldValue, newValue, l.slice, l.key, updateId);
    } else {
      assert CountFor([], id) == 0;
    }
  }

  /** A listener that is not registered when an entry is dispatched gets no
      event from it. */
  lemma UnregisteredNotNotified(reg: Registry, store: Root, l: Listen, updateId: string, id: string)
    requires RegistryOk(reg) && id !in reg.entries
    ensures CountFor(DispatchOne(reg, store, l, updateId).1, id) == 0
    ensures id !in DispatchOne(reg, store, l, updateId).0.entries
  {
    var newValue := Get(store, l.slice, l.key);
    var ids := ListenersOf(reg.order, l.slice, l.key);
    if l.force || l.oldValue != newValue {
      NotifyAllCount(reg, reg.entries, ids, l.oldValue, newValue, l.slice, l.key, updateId);
      NotifyAllShrinks(reg, reg.entries, ids, l.oldValue, newValue, l.slice, l.key, updateId);
    } else {
      assert CountFor([], id) == 0;
    }
  }

  /** An unsubscribed id is never notified by a dispatch. */
  lemma {:induction false} UnsubscribedNeverNotified(reg: Registry, store: Root, listens: seq<Listen>, updateId: string, id: string)
    requires RegistryOk(reg) && id !in reg.entries
    ensures CountFor(Dispatch(reg, store, listens, updateId).1, id) == 0
    decreases |listens|
  {
    if listens != [] {
      var init, l := listens[..|listens| - 1], listens[|listens| - 1];
      UnsubscribedNeverNotified(reg, store, init, updateId, id);
      DispatchShrinks(reg, store, init, updateId);
      var prev := Dispatch(reg, store, init, updateId);
      UnregisteredNotNotified(prev.0, store, l, updateId, id);
      CountForAppend(prev.1, DispatchOne(prev.0, store, l, updateId).1, id);
    }
  }

  // ---------------------------------------------------------------------
  // The root object handed to unit functions

  /** The properties of `Object.fromEntries(slice)`, in key order (a key
      missing from the slice reads as `undefined`; `Ordered` rules that out). */
  function SliceProps(sl: Slice, keys: seq<string>): seq<(string, Value)>
    decreases |keys|
  {
    if keys == [] then []
    else
      var k := keys[|keys| - 1];
      SliceProps(sl, keys[..|keys| - 1]) + [(k, if k in sl then sl[k] else Undefined)]
  }

  /** `keyOrder` lists the keys of each slice in their `Map` order, and
      `sliceOrder` the slices. */
  ghost predicate Ordered(root: Root, sliceOrder: seq<string>, keyOrder: map<string, seq<string>>)
  {
    (forall s :: s in root <==> s in sliceOrder) &&
    (forall s :: s in root ==> s in keyOrder && forall k :: k in root[s] <==> k in keyOrder[s])
  }

  /** The slice object of slice `s`: its keys in order. */
  function SliceValue(root: Root, s: string, keyOrder: map<string, seq<string>>): Value
  {
    Obj(SliceProps(if s in root then root[s] else map[], if s in keyOrder then keyOrder[s] else []))
  }

  function RootProps(root: Root, slices: seq<string>, keyOrder: map<string, seq<string>>): seq<(string, Value)>
    decreases |slices|
  {
    if slices == [] then []
    else
      var s := slices[|slices| - 1];
      RootProps(root, slices[..|slices| - 1], keyOrder) + [(s, SliceValue(root, s, keyOrder))]
  }

  /** The root state as the object `getStore()` builds (`Ordered` says its
      orders match the store's shape). */
  function RootValue(root: Root, sliceOrder: seq<string>, keyOrder: map<string, seq<string>>): Value
  {
    Obj(RootProps(root, sliceOrder, keyOrder))
  }

  /** `obj[slice][key]` on a root object; `None` where a property is missing. */
  function LookupPath(v: Value, slice: string, key: string): Option<Value>
  {
    if !v.Obj? then None
    else match Lookup(v.props, slice)
      case Some(Obj(ps)) => Lookup(ps, key)
      case _ => None
  }

  lemma {:induction false} SlicePropsLookup(sl: Slice, keys: seq<string>, k: string)
    requires forall k :: k in keys ==> k in sl
    ensures Lookup(SliceProps(sl, keys), k) == if k in keys then Some(sl[k]) else None
    decreases |keys|
  {
    if keys != [] {
      var init, last := keys[..|keys| - 1], keys[|keys| - 1];
      SlicePropsLookup(sl, init, k);
      LookupAppend(SliceProps(sl, init), (last, sl[last]), k);
    }
  }

  lemma {:induction false} RootPropsLookup(root: Root, slices: seq<string>, keyOrder: map<string, seq<string>>, s: string)
    ensures Lookup(RootProps(root, slices, keyOrder), s) ==
      if s in slices then Some(SliceValue(root, s, keyOrder)) else None
    decreases |slices|
  {
    if slices != [] {
      var init, last := slices[..|slices| - 1], slices[|slices| - 1];
      RootPropsLookup(root, init, keyOrder, s);
      LookupAppend(RootProps(root, init, keyOrder), (last, SliceValue(root, last, keyOrder)), s);
    }
  }

  /** The root object shows every stored value at its path, and nothing else. */
  lemma RootValueLookup(root: Root, sliceOrder: seq<string>, keyOrder: map<string, seq<string>>, slice: string, key: string)
    requires Ordered(root, sliceOrder, keyOrder)
    ensures LookupPath(RootValue(root, sliceOrder, keyOrder), slice, key) ==
      if HasKey(root, slice, key) then Some(root[slice][key]) else None
  {
    RootPropsLookup(root, sliceOrder, keyOrder, slice);
    if slice in root {
      SlicePropsLookup(root[slice], keyOrder[slice], key);
    }
  }

  /** The root object of the view is well defined for every overlay. */
  lemma OverlayOrdered(store: Root, recs: seq<Record>, sliceOrder: seq<string>, keyOrder: map<string, seq<string>>)
    requires Targets(store, recs) && Ordered(store, sliceOrder, keyOrder)
    ensures Ordered(store + Overlay(store, recs), sliceOrder, keyOrder)
  {
    OverlayShape(store, recs);
  }

  /** `getStore()` as a whole. */
  lemma RootValueLookupAll(root: Root, sliceOrder: seq<string>, keyOrder: map<string, seq<string>>)
    requires Ordered(root, sliceOrder, keyOrder)
    ensures forall slice, key :: (LookupPath(RootValue(root, sliceOrder, keyOrder), slice, key) ==
      if HasKey(root, slice, key) then Some(root[slice][key]) else None)
  {
    forall slice, key {
      RootValueLookup(root, sliceOrder, keyOrder, slice, key);
    }
  }

  lemma SlicePropsLookupAll(sl: Slice, keys: seq<string>)
    requires forall k :: k in keys ==> k in sl
    ensures forall k :: Lookup(SliceProps(sl, keys), k) == if k in keys then Some(sl[k]) else None
  {
    forall k {
      SlicePropsLookup(sl, keys, k);
    }
  }
}
