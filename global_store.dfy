/** The global store of core/src/functions/GlobalStore.ts (`StoreHandler`
    and `GlobalStore`) as a class whose fields are the store's own.

    `waitingUpdater` is an `async` function that awaits one unit at a time.
    Each `await` is a step boundary here: `SetValue` queues a unit and, when no
    drain is running, starts one by taking the first unit off the queue and
    calling it on the current view; `Resume` is the continuation that runs when
    the awaited unit has settled. Listener callbacks are represented by the
    events `Resume` returns. */
module StoreEngine {
  import opened Values
  import opened ListenerIds
  import opened StoreSpec
  import Utils

  /** A queued unit: `async store => [slice, key, await newValueFn(store), forceRerender]`.
      `fn` gives the settled outcome of `newValueFn` on the root object it is
      handed (`Threw` for a throw or a rejection). */
  datatype Unit = Unit(slice: string, key: string, fn: Value -> Outcome, force: bool)

  /** The unit being awaited, with the outcome it settles to. */
  datatype Pending = Pending(slice: string, key: string, result: Outcome, force: bool)

  /** Calling a unit on the view it is handed. */
  function Run(u: Unit, view: Value): Pending
  {
    Pending(u.slice, u.key, u.fn(view), u.force)
  }

  /** `async () => v`, the unit function `setSlice` builds. */
  function Always(v: Value): Value -> Outcome
  {
    _ => Done(v)
  }

  /** How `setValue` returned: normally, or with one of its two errors. */
  datatype Status =
    | Enqueued
    | SliceMissing  // "The slice does not exist in the store"
    | KeyMissing    // "The key does not exist in the slice"

  function KeyStatus(store: Root, slice: string, key: string): Status
  {
    if slice !in store then SliceMissing
    else if key !in store[slice] then KeyMissing
    else Enqueued
  }

  /** The records after a settled unit: a unit that threw adds none. */
  function Settle(recs: seq<Record>, p: Pending): seq<Record>
  {
    if p.result.Done? then recs + [Record(p.slice, p.key, p.result.value, p.force)] else recs
  }

  function Names<T>(entries: seq<(string, T)>): (r: seq<string>)
    ensures |r| == |entries| && forall i :: 0 <= i < |r| ==> r[i] == entries[i].0
  {
    seq(|entries|, i requires 0 <= i < |entries| => entries[i].0)
  }

  /** `valueProcessing`, the queue and the awaited unit. */
  datatype DrainState = DrainState(processing: bool, queue: seq<Unit>, inFlight: Option<Pending>)

  /** The effect of handing `units` to `setValue` one after another, each
      accepted: while a drain runs they are only appended; when none runs,
      the first one starts a drain, which takes it off the queue at once and
      calls it on `view` (the committed store). */
  ghost predicate QueuedAs(before: DrainState, units: seq<Unit>, view: Value, after: DrainState)
  {
    if units == [] then after == before
    else if before.processing then after == DrainState(true, before.queue + units, before.inFlight)
    else after == DrainState(true, units[1..], Some(Run(units[0], view)))
  }

  /** Queuing units one at a time composes: queuing `units` and then `u`
      is queuing `units + [u]`. */
  lemma EnqueueStep(a: DrainState, units: seq<Unit>, b: DrainState, u: Unit, view: Value, c: DrainState)
    requires QueuedAs(a, units, view, b) && QueuedAs(b, [u], view, c)
    ensures QueuedAs(a, units + [u], view, c)
  {
    if units != [] && !a.processing {
      assert (units + [u])[1..] == units[1..] + [u];
    } else if units == [] {
      assert units + [u] == [u];
    }
  }

  /** The units `setSlice` queues for `entries`, one `async () => value` each. */
  function SliceUnits(slice: string, entries: seq<(string, Value)>, force: bool): (r: seq<Unit>)
    ensures |r| == |entries|
    decreases |entries|
  {
    if entries == [] then []
    else
      var (k, v) := entries[|entries| - 1];
      SliceUnits(slice, entries[..|entries| - 1], force) + [Unit(slice, k, Always(v), force)]
  }

  /** The slice `Map` after `slices.set(key, value)` for each entry in order. */
  function SliceOf(entries: seq<(string, Value)>): Slice
    decreases |entries|
  {
    if entries == [] then map[]
    else
      var (k, v) := entries[|entries| - 1];
      SliceOf(entries[..|entries| - 1])[k := v]
  }

  /** The root `Map` after `s.set(key, slices)` for each slice in order. */
  function RootOf(init: seq<(string, seq<(string, Value)>)>): Root
    decreases |init|
  {
    if init == [] then map[]
    else
      var (name, entries) := init[|init| - 1];
      RootOf(init[..|init| - 1])[name := SliceOf(entries)]
  }

  /** The key order of each slice `Map`, which is the order of its entries. */
  function KeyOrderOf(init: seq<(string, seq<(string, Value)>)>): map<string, seq<string>>
    decreases |init|
  {
    if init == [] then map[]
    else
      var (name, entries) := init[|init| - 1];
      KeyOrderOf(init[..|init| - 1])[name := Names(entries)]
  }

  lemma NamesPrefix<T>(entries: seq<(string, T)>, n: nat)
    requires n <= |entries|
    ensures Names(entries[..n]) == Names(entries)[..n]
  {
  }

  /** A slice holds exactly the keys of its entries. */
  lemma {:induction false} SliceOfKeys(entries: seq<(string, Value)>)
    ensures forall k :: k in SliceOf(entries) <==> k in Names(entries)
    decreases |entries|
  {
    if entries != [] {
      var n := |entries| - 1;
      NamesPrefix(entries, n);
      assert Names(entries) == Names(entries[..n]) + [entries[n].0];
      SliceOfKeys(entries[..n]);
    }
  }

  /** With distinct names, each key of a slice holds its entry's value. */
  lemma {:induction false} SliceOfContents(entries: seq<(string, Value)>)
    requires Distinct(Names(entries))
    ensures forall j :: 0 <= j < |entries| ==>
      entries[j].0 in SliceOf(entries) && SliceOf(entries)[entries[j].0] == entries[j].1
    decreases |entries|
  {
    if entries != [] {
      var n := |entries| - 1;
      var init := entries[..n];
      NamesPrefix(entries, n);
      assert Names(entries) == Names(init) + [entries[n].0];
      SliceOfContents(init);
      assert forall j :: 0 <= j < n ==> init[j].0 != entries[n].0 by {
        assert forall j :: 0 <= j < n ==> Names(entries)[j] != Names(entries)[n];
      }
    }
  }

  /** The root holds exactly the slices of the initial state, with a key
      order for each. */
  lemma {:induction false} RootOfKeys(init: seq<(string, seq<(string, Value)>)>)
    ensures forall x :: x in RootOf(init) <==> x in Names(init)
    ensures forall x :: x in KeyOrderOf(init) <==> x in Names(init)
    decreases |init|
  {
    if init != [] {
      var n := |init| - 1;
      NamesPrefix(init, n);
      assert Names(init) == Names(init[..n]) + [init[n].0];
      RootOfKeys(init[..n]);
    }
  }

  /** With distinct slice names, each slice of the root is built from that
      slice's own entries, and its key order is theirs. */
  lemma {:induction false} RootOfContents(init: seq<(string, seq<(string, Value)>)>)
    requires Distinct(Names(init))
    ensures forall i :: 0 <= i < |init| ==>
      init[i].0 in RootOf(init) && RootOf(init)[init[i].0] == SliceOf(init[i].1) &&
      init[i].0 in KeyOrderOf(init) && KeyOrderOf(init)[init[i].0] == Names(init[i].1)
    decreases |init|
  {
    if init != [] {
      var n := |init| - 1;
      var prefix := init[..n];
      NamesPrefix(init, n);
      assert Names(init) == Names(prefix) + [init[n].0];
      RootOfContents(prefix);
      assert forall i :: 0 <= i < n ==> prefix[i].0 != init[n].0 by {
        assert forall i :: 0 <= i < n ==> Names(init)[i] != Names(init)[n];
      }
    }
  }

  /** The store the `StoreHandler` constructor builds has the initial state's
      slices and keys, in their order. (A repeated name keeps its last
      entries in both the store and the key order.) */
  lemma {:induction false} RootOfOrdered(init: seq<(string, seq<(string, Value)>)>)
    ensures Ordered(RootOf(init), Names(init), KeyOrderOf(init))
    decreases |init|
  {
    RootOfKeys(init);
    if init != [] {
      var n := |init| - 1;
      RootOfOrdered(init[..n]);
      SliceOfKeys(init[n].1);
    }
  }

  /** Each key of the built store holds its initial value. */
  lemma RootOfValues(init: seq<(string, seq<(string, Value)>)>)
    requires Distinct(Names(init))
    requires forall i :: 0 <= i < |init| ==> Distinct(Names(init[i].1))
    ensures forall i, j :: 0 <= i < |init| && 0 <= j < |init[i].1| ==>
      HasKey(RootOf(init), init[i].0, init[i].1[j].0) && RootOf(init)[init[i].0][init[i].1[j].0] == init[i].1[j].1
  {
    RootOfContents(init);
    forall i, j | 0 <= i < |init| && 0 <= j < |init[i].1|
      ensures HasKey(RootOf(init), init[i].0, init[i].1[j].0) && RootOf(init)[init[i].0][init[i].1[j].0] == init[i].1[j].1
    {
      SliceOfContents(init[i].1);
      assert Names(init[i].1)[j] == init[i].1[j].0;
    }
  }

  /** `new Map()` filled by `slices.set(key, value)` for each entry. */
  method BuildSlice(entries: seq<(string, Value)>) returns (sl: Slice)
    ensures sl == SliceOf(entries)
  {
    sl := map[];
    var i := 0;
    while i < |entries|
      invariant 0 <= i <= |entries|
      invariant sl == SliceOf(entries[..i])
    {
      assert entries[..i + 1][..i] == entries[..i];
      sl := sl[entries[i].0 := entries[i].1];
      i := i + 1;
    }
    assert entries[..i] == entries;
  }

  /** The `StoreHandler` constructor: `s.set(key, slices)` for each property
      of the initial state, with the key order of each slice. */
  method BuildRoot(init: seq<(string, seq<(string, Value)>)>) returns (root: Root, keyOrder: map<string, seq<string>>)
    ensures root == RootOf(init) && keyOrder == KeyOrderOf(init)
  {
    root, keyOrder := map[], map[];
    var i := 0;
    while i < |init|
      invariant 0 <= i <= |init|
      invariant root == RootOf(init[..i]) && keyOrder == KeyOrderOf(init[..i])
    {
      assert init[..i + 1][..i] == init[..i];
      var sl := BuildSlice(init[i].1);
      root := root[init[i].0 := sl];
      keyOrder := keyOrder[init[i].0 := Names(init[i].1)];
      i := i + 1;
    }
    assert init[..i] == init;
  }

  /** The ids `subscribeSlice` registers with a given listener id: one
      `slice###key###id` per key, in key order. */
  function SliceIds(slice: string, keys: seq<string>, suffix: string): (ids: seq<string>)
    ensures |ids| == |keys|
    decreases |keys|
  {
    if keys == [] then []
    else SliceIds(slice, keys[..|keys| - 1], suffix) + [Join(slice, keys[|keys| - 1], suffix)]
  }

  /** Each key of the slice gets the id joined from it. */
  lemma {:induction false} SliceIdsAt(slice: string, keys: seq<string>, suffix: string)
    ensures forall i :: 0 <= i < |keys| ==> SliceIds(slice, keys, suffix)[i] == Join(slice, keys[i], suffix)
    decreases |keys|
  {
    if keys != [] {
      SliceIdsAt(slice, keys[..|keys| - 1], suffix);
    }
  }

  class GlobalStore {
    /** `StoreHandler.store`: slice -> key -> value. */
    var store: Root
    /** The order of the slices and of the keys in each slice; the store only
        ever writes existing keys, so neither changes. */
    const sliceOrder: seq<string>
    const keyOrder: map<string, seq<string>>
    var middlewares: Middlewares
    /** The `listeners` record: its entries and its key order. */
    var listeners: map<string, Listener>
    var listenerOrder: seq<string>
    var valueProcessing: bool
    var waitingUpdate: seq<Unit>
    var waitingSetValue: seq<Record>
    var waitingListen: seq<Listen>
    /** The `_tempStore` argument the drain passes to its next round. */
    var tempStore: Root
    /** The unit the drain is awaiting, if any. `valueProcessing` without an
        awaited unit is the state a throwing middleware leaves behind. */
    var inFlight: Option<Pending>

    ghost function Reg(): Registry
      reads this`listeners, this`listenerOrder
    {
      Registry(listeners, listenerOrder)
    }

    /** The store keeps the slices and keys it was built with. */
    ghost predicate ShapeOk()
      reads this`store
    {
      Ordered(store, sliceOrder, keyOrder)
    }

    /** The `listeners` record has one entry per listed id. */
    ghost predicate RegistryValid()
      reads this`listeners, this`listenerOrder
    {
      RegistryOk(Reg())
    }

    /** The drain's state: every queued unit and record names an existing
        key; an awaited unit runs on the overlay of the records so far; an
        idle store has nothing queued. */
    ghost predicate DrainOk()
      reads this`store, this`waitingUpdate, this`waitingSetValue, this`waitingListen,
            this`tempStore, this`inFlight, this`valueProcessing
    {
      (forall i :: 0 <= i < |waitingUpdate| ==> HasKey(store, waitingUpdate[i].slice, waitingUpdate[i].key)) &&
      Targets(store, waitingSetValue) &&
      (inFlight.Some? ==>
        HasKey(store, inFlight.value.slice, inFlight.value.key) &&
        valueProcessing && waitingListen == [] && tempStore == Overlay(store, waitingSetValue)) &&
      (inFlight.None? ==> tempStore == map[]) &&
      (!valueProcessing ==>
        waitingUpdate == [] && waitingSetValue == [] && waitingListen == [] &&
        tempStore == map[] && inFlight.None?)
    }

    ghost predicate Valid()
      reads this
    {
      ShapeOk() && RegistryValid() && DrainOk()
    }

    /** The root object a unit is called on: `{...getStore(), ..._tempStore}`. */
    function View(): Value
      reads this
    {
      RootValue(store + tempStore, sliceOrder, keyOrder)
    }

    /** The part of the state that `setValue` changes. */
    function Drain(): DrainState
      reads this`valueProcessing, this`waitingUpdate, this`inFlight
    {
      DrainState(valueProcessing, waitingUpdate, inFlight)
    }

    /** `new GlobalStore(initialState)`: one slice per property of the initial
        state, each holding that property's own entries; nothing queued, no
        listeners, no middlewares. */
    constructor (init: seq<(string, seq<(string, Value)>)>)
      requires Distinct(Names(init))
      requires forall i :: 0 <= i < |init| ==> Distinct(Names(init[i].1))
      ensures Valid() && !valueProcessing
      ensures sliceOrder == Names(init)
      ensures forall i :: 0 <= i < |init| ==> init[i].0 in keyOrder && keyOrder[init[i].0] == Names(init[i].1)
      ensures forall i, j :: 0 <= i < |init| && 0 <= j < |init[i].1| ==>
        HasKey(store, init[i].0, init[i].1[j].0) && store[init[i].0][init[i].1[j].0] == init[i].1[j].1
      ensures listeners == map[] && listenerOrder == [] && middlewares == map[]
    {
      var s, ko := BuildRoot(init);
      RootOfOrdered(init);
      RootOfValues(init);
      RootOfContents(init);
      store := s;
      sliceOrder := Names(init);
      keyOrder := ko;
      middlewares := map[];
      listeners := map[];
      listenerOrder := [];
      valueProcessing := false;
      waitingUpdate := [];
      waitingSetValue := [];
      waitingListen := [];
      tempStore := map[];
      inFlight := None;
      new;
    }

    /** `getStore()`: the root object, which shows every stored value at its
        path and has no other (slice, key) paths. */
    function GetStore(): (r: Value)
      reads this
      requires Valid()
      ensures forall slice, key :: (LookupPath(r, slice, key) ==
        if HasKey(store, slice, key) then Some(store[slice][key]) else None)
    {
      RootValueLookupAll(store, sliceOrder, keyOrder);
      RootValue(store, sliceOrder, keyOrder)
    }

    /** `getSlice(slice)`: an object with exactly the slice's entries; an
        empty object for a missing slice. */
    function GetSlice(slice: string): (r: Value)
      reads this
      requires Valid()
      ensures r.Obj?
      ensures forall key :: Lookup(r.props, key) == if HasKey(store, slice, key) then Some(store[slice][key]) else None
      ensures slice !in store ==> r.props == []
    {
      if slice in store then
        SlicePropsLookupAll(store[slice], keyOrder[slice]);
        Obj(SliceProps(store[slice], keyOrder[slice]))
      else Obj([])
    }

    /** `getValue(slice, key)`: the stored value, `undefined` when the slice or
        the key is missing. */
    function GetValue(slice: string, key: string): (r: Value)
      reads this
      ensures HasKey(store, slice, key) ==> r == store[slice][key]
      ensures !HasKey(store, slice, key) ==> r == Undefined
    {
      Get(store, slice, key)
    }

    /** `setValue(slice, key, newValueFn, forceRerender)`: rejects a missing
        slice or key without queuing anything; otherwise queues the unit and
        calls `waitingUpdater()`, which returns at once when a drain is
        running (the running drain picks the unit up) and otherwise starts
        one. The committed store is not written. */
    method SetValue(slice: string, key: string, fn: Value -> Outcome, force: bool) returns (status: Status)
      requires Valid()
      modifies this`waitingUpdate, this`valueProcessing, this`inFlight
      ensures Valid()
      ensures status == KeyStatus(store, slice, key)
      ensures status != Enqueued ==> Drain() == old(Drain())
      ensures status == Enqueued ==>
        QueuedAs(old(Drain()), [Unit(slice, key, fn, force)], RootValue(store, sliceOrder, keyOrder), Drain())
    {
      if slice !in store {
        return SliceMissing;
      }
      if key !in store[slice] {
        return KeyMissing;
      }
      status := Enqueued;
      waitingUpdate := waitingUpdate + [Unit(slice, key, fn, force)];
      if !valueProcessing {
        valueProcessing := true;
        StartNext();
        assert store + tempStore == store;
      }
    }

    /** `setSlice(slice, newSlice, forceRerender)`: one `setValue` per entry,
        in order, each with a unit that resolves to the entry's value. The
        first rejected entry ends the loop with its error; the entries before
        it stay queued. */
    method SetSlice(slice: string, newSlice: seq<(string, Value)>, force: bool) returns (status: Status, count: nat)
      requires Valid()
      modifies this`waitingUpdate, this`valueProcessing, this`inFlight
      ensures Valid()
      ensures count <= |newSlice|
      ensures status == Enqueued <==> count == |newSlice|
      ensures status != Enqueued ==> status == KeyStatus(store, slice, newSlice[count].0)
      ensures QueuedAs(old(Drain()), SliceUnits(slice, newSlice[..count], force), RootValue(store, sliceOrder, keyOrder), Drain())
    {
      count := 0;
      status := Enqueued;
      while count < |newSlice|
        invariant Valid()
        invariant count <= |newSlice|
        invariant QueuedAs(old(Drain()), SliceUnits(slice, newSlice[..count], force), RootValue(store, sliceOrder, keyOrder), Drain())
      {
        var st := SetEntry(slice, newSlice, count, force, old(Drain()));
        if st != Enqueued {
          return st, count;
        }
        count := count + 1;
      }
    }

    /** One iteration of `setSlice`: `setValue` for entry `count`, extending
        what the earlier entries queued. */
    method SetEntry(slice: string, newSlice: seq<(string, Value)>, count: nat, force: bool, ghost start: DrainState)
      returns (status: Status)
      requires Valid() && count < |newSlice|
      requires QueuedAs(start, SliceUnits(slice, newSlice[..count], force), RootValue(store, sliceOrder, keyOrder), Drain())
      modifies this`waitingUpdate, this`valueProcessing, this`inFlight
      ensures Valid()
      ensures status == KeyStatus(store, slice, newSlice[count].0)
      ensures status != Enqueued ==>
        QueuedAs(start, SliceUnits(slice, newSlice[..count], force), RootValue(store, sliceOrder, keyOrder), Drain())
      ensures status == Enqueued ==>
        QueuedAs(start, SliceUnits(slice, newSlice[..count + 1], force), RootValue(store, sliceOrder, keyOrder), Drain())
    {
      ghost var units := SliceUnits(slice, newSlice[..count], force);
      ghost var mid := Drain();
      var (k, v) := newSlice[count];
      status := SetValue(slice, k, Always(v), force);
      if status == Enqueued {
        var u := Unit(slice, k, Always(v), force);
        assert newSlice[..count + 1][..count] == newSlice[..count];
        assert SliceUnits(slice, newSlice[..count + 1], force) == units + [u];
        EnqueueStep(start, units, mid, u, RootValue(store, sliceOrder, keyOrder), Drain());
      }
    }

    /** `setMiddleware(slice, key, fn)`. */
    method SetMiddleware(slice: string, key: string, m: Middleware)
      requires Valid()
      modifies this`middlewares
      ensures Valid()
      ensures middlewares == Install(old(middlewares), slice, key, m)
    {
      var ms := if slice in middlewares then middlewares[slice] else map[];
      middlewares := middlewares[slice := ms[key := m]];
    }

    /** `setMiddlewares(middlewares)`: installs every truthy middleware of
        every truthy slice entry, in order. */
    method SetMiddlewares(specs: seq<(string, Option<seq<(string, Middleware)>>)>)
      requires Valid()
      modifies this`middlewares
      ensures Valid()
      ensures middlewares == InstallAll(old(middlewares), specs)
    {
      var i := 0;
      while i < |specs|
        invariant 0 <= i <= |specs|
        invariant Valid()
        invariant middlewares == InstallAll(old(middlewares), specs[..i])
      {
        var (slice, ms) := specs[i];
        assert specs[..i + 1][..i] == specs[..i];
        if ms.Some? {
          ghost var before := middlewares;
          var es := ms.value;
          var j := 0;
          while j < |es|
            invariant 0 <= j <= |es|
            invariant Valid()
            invariant middlewares == InstallEntries(before, slice, es[..j])
          {
            assert es[..j + 1][..j] == es[..j];
            if MiddlewareTruthy(es[j].1) {
              SetMiddleware(slice, es[j].0, es[j].1);
            }
            j := j + 1;
          }
          assert es[..j] == es;
        }
        i := i + 1;
      }
      assert specs[..i] == specs;
    }

    /** The continuation of `waitingUpdater` once the awaited unit has
        settled. A value becomes a record (a throw is dropped). If more units
        are queued, the drain goes on with the next one on the overlaid view;
        otherwise it commits and notifies (`now` stands for `Date.now()`). */
    method Resume(now: nat) returns (events: seq<Event>)
      requires Valid() && inFlight.Some?
      modifies this`store, this`listeners, this`listenerOrder, this`valueProcessing, this`waitingUpdate,
               this`waitingSetValue, this`waitingListen, this`tempStore, this`inFlight
      ensures Valid()
      ensures var recs := Settle(old(waitingSetValue), old(inFlight).value);
        if |old(waitingUpdate)| > 0 then
          store == old(store) && Reg() == old(Reg()) && events == [] &&
          valueProcessing && waitingSetValue == recs &&
          waitingUpdate == old(waitingUpdate)[1..] &&
          tempStore == Overlay(store, recs) &&
          inFlight == Some(Run(old(waitingUpdate)[0], View()))
        else
          var c := Commit(old(store), middlewares, recs);
          store == c.store && inFlight.None? && waitingUpdate == [] &&
          if c.ok then
            var d := Dispatch(old(Reg()), c.store, c.listens, Utils.NatToString(now));
            Reg() == d.0 && events == d.1 && !valueProcessing
          else
            Reg() == old(Reg()) && events == [] && valueProcessing &&
            waitingSetValue == recs && waitingListen == c.listens
    {
      if |waitingUpdate| > 0 {
        Continue();
        events := [];
      } else {
        events := Conclude(now);
      }
    }

    /** A round that is not the last: the settled value is pushed and the
        next unit is started on the overlaid view. */
    method Continue()
      requires Valid() && inFlight.Some? && |waitingUpdate| > 0
      modifies this`waitingSetValue, this`tempStore, this`waitingUpdate, this`inFlight
      ensures Valid()
      ensures waitingSetValue == Settle(old(waitingSetValue), old(inFlight).value)
      ensures tempStore == Overlay(store, waitingSetValue)
      ensures waitingUpdate == old(waitingUpdate)[1..]
      ensures inFlight == Some(Run(old(waitingUpdate)[0], View()))
    {
      Absorb();
      StartNext();
    }

    /** The final round of the drain: the settled value is pushed, the
        overlay is dropped, and every record is committed and notified. */
    method Conclude(now: nat) returns (events: seq<Event>)
      requires Valid() && inFlight.Some? && waitingUpdate == []
      modifies this`store, this`listeners, this`listenerOrder, this`valueProcessing,
               this`waitingSetValue, this`waitingListen, this`tempStore, this`inFlight
      ensures Valid() && inFlight.None?
      ensures var recs := Settle(old(waitingSetValue), old(inFlight).value);
        var c := Commit(old(store), middlewares, recs);
        store == c.store &&
        if c.ok then
          var d := Dispatch(old(Reg()), c.store, c.listens, Utils.NatToString(now));
          Reg() == d.0 && events == d.1 && !valueProcessing
        else
          Reg() == old(Reg()) && events == [] && valueProcessing &&
          waitingSetValue == recs && waitingListen == c.listens
    {
      var p := inFlight.value;
      inFlight := None;
      tempStore := map[];
      waitingSetValue := Settle(waitingSetValue, p);
      events := FinishBatch(now);
    }

    /** `this.waitingSetValue.push(values)` once the awaited unit has
        resolved, and the matching overlay write (on the first write to a
        slice the overlay takes a copy of the committed slice); a unit that
        threw adds nothing. */
    method Absorb()
      requires Valid() && inFlight.Some?
      modifies this`waitingSetValue, this`tempStore
      ensures Valid()
      ensures waitingSetValue == Settle(old(waitingSetValue), inFlight.value)
      ensures tempStore == Overlay(store, waitingSetValue)
    {
      var p := inFlight.value;
      if p.result.Done? {
        var r := Record(p.slice, p.key, p.result.value, p.force);
        tempStore := WriteOverlay(store, tempStore, r);
        waitingSetValue := waitingSetValue + [r];
        assert waitingSetValue[..|waitingSetValue| - 1] == old(waitingSetValue);
      }
    }

    /** `this.waitingUpdate.shift()` and the call of that unit on
        `{...this.getStore(), ..._tempStore}`. */
    method StartNext()
      requires Valid() && valueProcessing && |waitingUpdate| > 0
      requires waitingListen == [] && tempStore == Overlay(store, waitingSetValue)
      modifies this`waitingUpdate, this`inFlight
      ensures Valid()
      ensures waitingUpdate == old(waitingUpdate)[1..]
      ensures inFlight == Some(Run(old(waitingUpdate)[0], View()))
    {
      var u := waitingUpdate[0];
      waitingUpdate := waitingUpdate[1..];
      inFlight := Some(Run(u, View()));
    }

    /** The drain's final round: commit every record, then notify and go idle;
        a middleware that throws stops the drain with `valueProcessing` still
        set. */
    method FinishBatch(now: nat) returns (events: seq<Event>)
      requires Valid() && inFlight.None? && valueProcessing && waitingListen == [] && waitingUpdate == []
      modifies this`store, this`waitingListen, this`listeners, this`listenerOrder, this`waitingSetValue, this`valueProcessing
      ensures Valid()
      ensures var c := Commit(old(store), middlewares, old(waitingSetValue));
        store == c.store &&
        if c.ok then
          var d := Dispatch(old(Reg()), c.store, c.listens, Utils.NatToString(now));
          Reg() == d.0 && events == d.1 && !valueProcessing
        else
          Reg() == old(Reg()) && events == [] && valueProcessing &&
          waitingSetValue == old(waitingSetValue) && waitingListen == c.listens
    {
      ghost var store0 := store;
      var ok := CommitBatch();
      CommitShape(store0, middlewares, waitingSetValue);
      ShapeKeepsQueues(store0, store, sliceOrder, keyOrder, waitingUpdate, waitingSetValue);
      if ok {
        events := Notify(now);
      } else {
        events := [];
      }
    }

    /** After a complete commit: `updateId = Date.now()`, the dispatch loop,
        then the queues are emptied and `valueProcessing` cleared. */
    method Notify(now: nat) returns (events: seq<Event>)
      requires RegistryValid()
      modifies this`listeners, this`listenerOrder, this`waitingSetValue, this`waitingListen, this`valueProcessing
      ensures RegistryValid()
      ensures (Reg(), events) == Dispatch(old(Reg()), store, old(waitingListen), Utils.NatToString(now))
      ensures waitingSetValue == [] && waitingListen == [] && !valueProcessing
    {
      var updateId := Utils.NatToString(now);
      events := DispatchBatch(updateId);
      waitingSetValue := [];
      waitingListen := [];
      valueProcessing := false;
    }

    /** The commit loop: `oldValue = getValue(slice, key)`, then
        `store.get(slice).set(key, _middleware(slice, key, value))` and a
        listen entry, for each record in order, stopping at a throw. */
    method CommitBatch() returns (ok: bool)
      requires waitingListen == []
      modifies this`store, this`waitingListen
      ensures var c := Commit(old(store), middlewares, waitingSetValue);
        store == c.store && waitingListen == c.listens && ok == c.ok
    {
      ghost var store0 := store;
      var i := 0;
      ok := true;
      while i < |waitingSetValue| && ok
        invariant 0 <= i <= |waitingSetValue|
        invariant var c := Commit(store0, middlewares, waitingSetValue[..i]);
          store == c.store && waitingListen == c.listens && ok == c.ok
      {
        assert waitingSetValue[..i + 1][..i] == waitingSetValue[..i];
        var r := waitingSetValue[i];
        ghost var next := CommitStep(CommitState(store, waitingListen, ok), middlewares, r);
        assert Commit(store0, middlewares, waitingSetValue[..i + 1]) == next;
        var oldValue := GetValue(r.slice, r.key);
        var out := ApplyMiddleware(middlewares, r.slice, r.key, r.value, store);
        match out {
          case Threw =>
            ok := false;
          case Done(v) =>
            store := Put(store, r.slice, r.key, v);
            waitingListen := waitingListen + [Listen(r.force, oldValue, r.slice, r.key)];
        }
        assert CommitState(store, waitingListen, ok) == next;
        i := i + 1;
      }
      if ok {
        assert waitingSetValue[..i] == waitingSetValue;
      } else {
        CommitAbortSticks(store0, middlewares, waitingSetValue, i);
      }
    }

    /** The dispatch loop: for each listen entry, in order, the listeners of
        its (slice, key) are notified. */
    method DispatchBatch(updateId: string) returns (events: seq<Event>)
      requires RegistryValid()
      modifies this`listeners, this`listenerOrder
      ensures RegistryValid()
      ensures (Reg(), events) == Dispatch(old(Reg()), store, waitingListen, updateId)
    {
      ghost var reg0 := Reg();
      events := [];
      var i := 0;
      while i < |waitingListen|
        invariant 0 <= i <= |waitingListen|
        invariant RegistryValid()
        invariant (Reg(), events) == Dispatch(reg0, store, waitingListen[..i], updateId)
      {
        assert waitingListen[..i + 1][..i] == waitingListen[..i];
        var step := DispatchListen(waitingListen[i], updateId);
        events := events + step;
        i := i + 1;
      }
      assert waitingListen[..i] == waitingListen;
    }

    /** One listen entry: if it is forced or its value changed, the
        listeners `getListeners` finds for its (slice, key) are notified. */
    method DispatchListen(l: Listen, updateId: string) returns (events: seq<Event>)
      requires RegistryValid()
      modifies this`listeners, this`listenerOrder
      ensures RegistryValid()
      ensures (Reg(), events) == DispatchOne(old(Reg()), store, l, updateId)
    {
      var newValue := GetValue(l.slice, l.key);
      var ids := ListenersOf(listenerOrder, l.slice, l.key);
      if l.force || l.oldValue != newValue {
        ghost var reg0 := Reg();
        events := NotifyListeners(ids, listeners, l.oldValue, newValue, l.slice, l.key, updateId);
        NotifyAllShrinks(reg0, reg0.entries, ids, l.oldValue, newValue, l.slice, l.key, updateId);
      } else {
        events := [];
      }
    }

    /** The listeners found, against the record captured before any of them
        ran: each whose comparator allows it is called, a `once` listener
        unsubscribing itself first. */
    method NotifyListeners(ids: seq<string>, snap: map<string, Listener>, oldValue: Value, newValue: Value,
                           slice: string, key: string, updateId: string) returns (events: seq<Event>)
      requires forall i :: 0 <= i < |ids| ==> ids[i] in snap
      modifies this`listeners, this`listenerOrder
      ensures (Reg(), events) == NotifyAll(old(Reg()), snap, ids, oldValue, newValue, slice, key, updateId)
    {
      ghost var reg0 := Reg();
      events := [];
      var j := 0;
      while j < |ids|
        invariant 0 <= j <= |ids|
        invariant (Reg(), events) == NotifyAll(reg0, snap, ids[..j], oldValue, newValue, slice, key, updateId)
      {
        assert ids[..j + 1][..j] == ids[..j];
        var step := NotifyOne(snap, ids[j], oldValue, newValue, slice, key, updateId);
        events := events + step;
        j := j + 1;
      }
      assert ids[..j] == ids;
    }

    /** One listener of the inner loop. */
    method NotifyOne(snap: map<string, Listener>, id: string, oldValue: Value, newValue: Value,
                     slice: string, key: string, updateId: string) returns (events: seq<Event>)
      requires id in snap
      modifies this`listeners, this`listenerOrder
      ensures (Reg(), events) == NotifyStep(old(Reg()), snap, id, oldValue, newValue, slice, key, updateId)
    {
      events := [];
      var entry := snap[id];
      if Fires(entry, oldValue, newValue) {
        if entry.once {
          Unsubscribe(id);
        }
        events := [Event(id, slice, key, updateId)];
      }
    }

    /** `subscribe({slice, key, listenerId, callback, compare, once})`: the
        entry is stored under `slice###key###id`, where `id` is the given
        listener id or 20 random alphanumeric characters; an entry already
        under that name is replaced. The name is returned (the source returns
        a closure that unsubscribes it). */
    method Subscribe(slice: string, key: string, listenerId: Option<string>,
                     compare: Option<(Value, Value) -> bool>, once: bool) returns (id: string)
      modifies this`listeners, this`listenerOrder
      ensures listenerId.Some? ==> id == Join(slice, key, listenerId.value)
      ensures listenerId.None? ==> exists r :: (id == Join(slice, key, r) &&
        |r| == 20 && forall i :: 0 <= i < |r| ==> Utils.IsAsciiAlphanumeric(r[i]))
      ensures Reg() == Register(old(Reg()), id, Listener(compare, once))
    {
      var suffix: string;
      if listenerId.Some? {
        suffix := listenerId.value;
      } else {
        suffix := Utils.GenerateRandomID(20);
      }
      id := Join(slice, key, suffix);
      if id !in listeners {
        listenerOrder := listenerOrder + [id];
      }
      listeners := listeners[id := Listener(compare, once)];
    }

    /** `subscribeSlice(slice, listenerId, callback, compare, once)`: one
        subscription per key the slice has now, in key order; none for a
        missing slice. */
    method SubscribeSlice(slice: string, listenerId: Option<string>,
                          compare: Option<(Value, Value) -> bool>, once: bool) returns (ids: seq<string>)
      requires ShapeOk() && RegistryValid()
      modifies this`listeners, this`listenerOrder
      ensures RegistryValid()
      ensures slice !in store ==> ids == [] && Reg() == old(Reg())
      ensures slice in store ==> |ids| == |keyOrder[slice]|
      ensures slice in store && listenerId.Some? ==> ids == SliceIds(slice, keyOrder[slice], listenerId.value)
      ensures Reg() == RegisterAll(old(Reg()), ids, Listener(compare, once))
    {
      var keys := if slice in store then keyOrder[slice] else [];
      ids := [];
      var i := 0;
      while i < |keys|
        invariant 0 <= i <= |keys| && |ids| == i
        invariant listenerId.Some? ==> ids == SliceIds(slice, keys[..i], listenerId.value)
        invariant Reg() == RegisterAll(old(Reg()), ids, Listener(compare, once))
      {
        var id := Subscribe(slice, keys[i], listenerId, compare, once);
        assert (ids + [id])[..i] == ids;
        assert keys[..i + 1][..i] == keys[..i];
        ids := ids + [id];
        i := i + 1;
      }
      assert keys[..i] == keys;
      RegisterAllEffect(old(Reg()), ids, Listener(compare, once));
    }

    /** `unsubscribe(id)`: `delete listeners[id]`. */
    method Unsubscribe(id: string)
      modifies this`listeners, this`listenerOrder
      ensures old(RegistryValid()) ==> RegistryValid()
      ensures Reg() == Unregister(old(Reg()), id)
    {
      if RegistryValid() {
        UnregisterOk(Reg(), id);
      }
      listeners := listeners - {id};
      listenerOrder := Without(listenerOrder, id);
    }
  }

  /** Writing existing keys keeps the key orders right and every queued
      unit's and record's target. */
  lemma ShapeKeepsQueues(a: Root, b: Root, sliceOrder: seq<string>, keyOrder: map<string, seq<string>>,
                         units: seq<Unit>, recs: seq<Record>)
    requires SameShape(b, a) && Ordered(a, sliceOrder, keyOrder) && Targets(a, recs)
    requires forall i :: 0 <= i < |units| ==> HasKey(a, units[i].slice, units[i].key)
    ensures Ordered(b, sliceOrder, keyOrder) && Targets(b, recs)
    ensures forall i :: 0 <= i < |units| ==> HasKey(b, units[i].slice, units[i].key)
  {
    forall s | s in b ensures s in keyOrder && forall k :: k in b[s] <==> k in keyOrder[s] {
      assert s in a;
      forall k ensures k in b[s] <==> k in keyOrder[s] {
        assert HasKey(a, s, k) <==> HasKey(b, s, k);
      }
    }
  }

  // ---------------------------------------------------------------------
  // Middleware installation (`setMiddleware` / `setMiddlewares`)

  /** `if (mk)`: a function is truthy; a constant is truthy as a value. */
  predicate MiddlewareTruthy(m: Middleware)
  {
    m.Transform? || Truthy(m.value)
  }

  function Install(mws: Middlewares, slice: string, key: string, m: Middleware): Middlewares
  {
    var ms := if slice in mws then mws[slice] else map[];
    mws[slice := ms[key := m]]
  }

  /** The inner loop of `setMiddlewares` over one slice's entries. */
  function InstallEntries(mws: Middlewares, slice: string, es: seq<(string, Middleware)>): Middlewares
    decreases |es|
  {
    if es == [] then mws
    else
      var prev := InstallEntries(mws, slice, es[..|es| - 1]);
      var (key, m) := es[|es| - 1];
      if MiddlewareTruthy(m) then Install(prev, slice, key, m) else prev
  }

  /** `setMiddlewares`: a falsy slice entry (`None`) installs nothing. */
  function InstallAll(mws: Middlewares, specs: seq<(string, Option<seq<(string, Middleware)>>)>): Middlewares
    decreases |specs|
  {
    if specs == [] then mws
    else
      var prev := InstallAll(mws, specs[..|specs| - 1]);
      var (slice, ms) := specs[|specs| - 1];
      if ms.Some? then InstallEntries(prev, slice, ms.value) else prev
  }

  /** The last truthy middleware given for `key`, if any. */
  function LastTruthy(es: seq<(string, Middleware)>, key: string): Option<Middleware>
    decreases |es|
  {
    if es == [] then None
    else if es[|es| - 1].0 == key && MiddlewareTruthy(es[|es| - 1].1) then Some(es[|es| - 1].1)
    else LastTruthy(es[..|es| - 1], key)
  }

  /** After installing one slice's entries, each key holds its last truthy
      middleware; keys given only falsy ones, and other slices, are as they
      were. */
  lemma {:induction false} InstallEntriesEffect(mws: Middlewares, slice: string, es: seq<(string, Middleware)>, s: string, key: string)
    ensures var r := InstallEntries(mws, slice, es);
      if s == slice && LastTruthy(es, key).Some? then
        s in r && key in r[s] && r[s][key] == LastTruthy(es, key).value
      else
        (s in r && key in r[s]) == (s in mws && key in mws[s]) &&
        (s in mws && key in mws[s] ==> r[s][key] == mws[s][key])
    decreases |es|
  {
    if es != [] {
      InstallEntriesEffect(mws, slice, es[..|es| - 1], s, key);
    }
  }
}
