/** `setter` of core/src/functions/createUpdater.ts: one payload function per
    slice of the initial state; a payload call hands each of its keys to the
    global store's `setValue` with a unit function built from the payload
    value. */
module Setter {
  import opened Values
  import opened StoreSpec
  import opened StoreEngine
  import Utils

  /** What a callable payload value does when called: it returns (or its
      promise resolves to) a value, it throws synchronously, or its promise
      rejects. */
  datatype CallResult = Returned(value: Value) | ThrewSync | Rejected

  /** A payload value: a constant, or a function of the unit's argument. */
  datatype PayloadValue = Constant(value: Value) | Callable(fn: Value -> CallResult)

  /** The inner `setter(latestValue)` closure, as the drain sees it once
      awaited: a constant resolves to itself; a callable resolves to its
      result; a synchronous throw is caught and the argument is returned; a
      rejected promise is not caught, so the unit fails. */
  function UnitFn(cb: PayloadValue): Value -> Outcome
  {
    latest =>
      match cb
      case Constant(v) => Done(v)
      case Callable(f) =>
        match f(latest)
        case Returned(v) => Done(v)
        case ThrewSync => Done(latest)
        case Rejected => Threw
  }

  /** A unit built from a payload value settles to the constant, to the
      callable's result, or — when the callable throws synchronously — to its
      own argument; it fails only when the callable's promise rejects. */
  lemma UnitFnOutcome(cb: PayloadValue, latest: Value)
    ensures cb.Constant? ==> UnitFn(cb)(latest) == Done(cb.value)
    ensures cb.Callable? && cb.fn(latest).Returned? ==> UnitFn(cb)(latest) == Done(cb.fn(latest).value)
    ensures cb.Callable? && cb.fn(latest).ThrewSync? ==> UnitFn(cb)(latest) == Done(latest)
    ensures UnitFn(cb)(latest) == Threw <==> cb.Callable? && cb.fn(latest).Rejected?
  {
  }

  /** The three nested errors a failing `setValue` is wrapped in. */
  datatype SetValueError = SetValueError(key: string, storeValue: Value, error: Status)   // "##@e-state/core:setter:set_value##"
  datatype CallableError = CallableError(key: string, value: Value, error: SetValueError) // "##@e-state/core:setter:callable##"
  datatype SetterError = SetterError(slice: string, key: string, error: CallableError)    // "##@e-state/core:setter##"

  /** The payload function made for one slice (`acc[slice]`). */
  datatype SliceSetter = SliceSetter(slice: string)

  /** The units a payload queues, one per key in key order. */
  function PayloadUnits(slice: string, payload: seq<(string, PayloadValue)>, force: bool): (units: seq<Unit>)
    ensures |units| == |payload|
    decreases |payload|
  {
    if payload == [] then []
    else
      var (k, cb) := payload[|payload| - 1];
      PayloadUnits(slice, payload[..|payload| - 1], force) + [Unit(slice, k, UnitFn(cb), force)]
  }

  /** Unit `i` of a payload is `setValue(slice, key_i, setter_i, forceRenderer)`. */
  lemma {:induction false} PayloadUnitsAt(slice: string, payload: seq<(string, PayloadValue)>, force: bool)
    ensures forall i :: 0 <= i < |payload| ==>
      PayloadUnits(slice, payload, force)[i] == Unit(slice, payload[i].0, UnitFn(payload[i].1), force)
    decreases |payload|
  {
    if payload != [] {
      PayloadUnitsAt(slice, payload[..|payload| - 1], force);
    }
  }

  /** `setter(initialRootState)`: the `reduce` over the initial state's keys
      that sets `acc[slice]` for each. */
  method MakeSetters(initial: Value) returns (acc: map<string, SliceSetter>)
    ensures forall slice :: slice in acc <==> slice in Utils.ObjectKeys(initial)
    ensures forall slice :: slice in acc ==> acc[slice] == SliceSetter(slice)
  {
    var slices := Utils.ObjectKeys(initial);
    acc := map[];
    var i := 0;
    while i < |slices|
      invariant 0 <= i <= |slices|
      invariant forall slice :: slice in acc <==> slice in slices[..i]
      invariant forall slice :: slice in acc ==> acc[slice] == SliceSetter(slice)
    {
      assert slices[..i + 1] == slices[..i] + [slices[i]];
      acc := acc[slices[i] := SliceSetter(slices[i])];
      i := i + 1;
    }
    assert slices[..i] == slices;
  }

  /** `acc[slice](payload, forceRenderer)`: `setValue` for each own key of
      the payload, in order, with `forceRenderer` passed through. The first
      key `setValue` rejects ends the call with the wrapped error; the keys
      before it stay queued and the later ones are not queued. */
  method CallPayload(gs: GlobalStore, setter: SliceSetter, payload: seq<(string, PayloadValue)>, force: bool)
    returns (err: Option<SetterError>, count: nat)
    requires gs.Valid()
    modifies gs`waitingUpdate, gs`valueProcessing, gs`inFlight
    ensures gs.Valid()
    ensures count <= |payload|
    ensures err.None? <==> count == |payload|
    ensures err.Some? ==>
      var key := payload[count].0;
      err.value == SetterError(setter.slice, key,
        CallableError(key, Undefined, SetValueError(key, Undefined, KeyStatus(gs.store, setter.slice, key))))
    ensures err.Some? ==> KeyStatus(gs.store, setter.slice, payload[count].0) != Enqueued
    ensures QueuedAs(old(gs.Drain()), PayloadUnits(setter.slice, payload[..count], force),
                     RootValue(gs.store, gs.sliceOrder, gs.keyOrder), gs.Drain())
  {
    count := 0;
    while count < |payload|
      invariant gs.Valid()
      invariant count <= |payload|
      invariant QueuedAs(old(gs.Drain()), PayloadUnits(setter.slice, payload[..count], force),
                         RootValue(gs.store, gs.sliceOrder, gs.keyOrder), gs.Drain())
    {
      var status := CallKey(gs, setter.slice, payload, count, force, old(gs.Drain()));
      if status != Enqueued {
        var key := payload[count].0;
        var storeValue := gs.GetValue(setter.slice, key);
        err := Some(SetterError(setter.slice, key,
          CallableError(key, storeValue, SetValueError(key, storeValue, status))));
        return;
      }
      count := count + 1;
    }
    err := None;
  }

  /** One key of a payload call: `setValue(slice, key, setter, forceRenderer)`,
      extending what the earlier keys queued. */
  method CallKey(gs: GlobalStore, slice: string, payload: seq<(string, PayloadValue)>, count: nat, force: bool,
                 ghost start: DrainState) returns (status: Status)
    requires gs.Valid() && count < |payload|
    requires QueuedAs(start, PayloadUnits(slice, payload[..count], force), RootValue(gs.store, gs.sliceOrder, gs.keyOrder), gs.Drain())
    modifies gs`waitingUpdate, gs`valueProcessing, gs`inFlight
    ensures gs.Valid()
    ensures status == KeyStatus(gs.store, slice, payload[count].0)
    ensures status != Enqueued ==>
      QueuedAs(start, PayloadUnits(slice, payload[..count], force), RootValue(gs.store, gs.sliceOrder, gs.keyOrder), gs.Drain())
    ensures status == Enqueued ==>
      QueuedAs(start, PayloadUnits(slice, payload[..count + 1], force), RootValue(gs.store, gs.sliceOrder, gs.keyOrder), gs.Drain())
  {
    ghost var units := PayloadUnits(slice, payload[..count], force);
    ghost var mid := gs.Drain();
    var (k, cb) := payload[count];
    status := gs.SetValue(slice, k, UnitFn(cb), force);
    if status == Enqueued {
      var u := Unit(slice, k, UnitFn(cb), force);
      assert payload[..count + 1][..count] == payload[..count];
      assert PayloadUnits(slice, payload[..count + 1], force) == units + [u];
      EnqueueStep(start, units, mid, u, RootValue(gs.store, gs.sliceOrder, gs.keyOrder), gs.Drain());
    }
  }
}
