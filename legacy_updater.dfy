/** The earlier, synchronous state updater of src/functions/createUpdater.ts
    and src/functions/callRerenders.ts: a reducer that writes a payload into
    one slice of the root state in place, and calls the slice's rerender
    callbacks for every key whose value changed. */
module LegacyUpdater {
  import opened Values

  /** A rerender callback: `true` when it is consumed by this call. It is
      handed the key and the slice's values at the time of the call. */
  type Rerender = (string, map<string, Value>) -> bool

  /** A payload value: assigned as is, or a function of a clone of the
      current value (`Threw` when it throws). */
  datatype LegacyPayload = Assign(value: Value) | Compute(fn: Value -> Outcome)

  /** `state[key]`: `undefined` when absent. */
  function Current(values: map<string, Value>, key: string): Value
  {
    if key in values then values[key] else Undefined
  }

  /** The value a payload entry leaves at its key: a constant is assigned; a
      function's result is assigned unless it is `null` or `undefined`; a
      function that throws leaves the value as it was. */
  function NewValue(values: map<string, Value>, key: string, cb: LegacyPayload): (r: map<string, Value>)
    ensures forall k :: k != key ==> (k in r <==> k in values) && Current(r, k) == Current(values, k)
    ensures cb.Assign? ==> key in r && r[key] == cb.value
    ensures cb.Compute? && cb.fn(Current(values, key)).Done? && cb.fn(Current(values, key)).value !in {Null, Undefined} ==>
      key in r && r[key] == cb.fn(Current(values, key)).value
    ensures cb.Compute? && (cb.fn(Current(values, key)).Threw? || cb.fn(Current(values, key)).value in {Null, Undefined}) ==>
      r == values
  {
    match cb
    case Assign(v) => values[key := v]
    case Compute(f) =>
      match f(Current(values, key))
      case Done(v) => if v != Null && v != Undefined then values[key := v] else values
      case Threw => values
  }

  /** The indexes `i < n` of the rerenders consumed by this call, in order. */
  function ConsumedUpTo(rs: seq<Rerender>, key: string, values: map<string, Value>, n: nat): (r: seq<nat>)
    requires n <= |rs|
    ensures |r| <= n
    decreases n
  {
    if n == 0 then []
    else ConsumedUpTo(rs, key, values, n - 1) + (if rs[n - 1](key, values) then [n - 1] else [])
  }

  /** Index `i` is consumed exactly when its rerender returned true. */
  lemma {:induction false} ConsumedAt(rs: seq<Rerender>, key: string, values: map<string, Value>, n: nat, i: nat)
    requires n <= |rs|
    ensures i in ConsumedUpTo(rs, key, values, n) <==> i < n && rs[i](key, values)
    decreases n
  {
    if n > 0 {
      ConsumedAt(rs, key, values, n - 1, i);
    }
  }

  /** The indexes `i < n` of the rerenders that returned false, in order. */
  function KeptUpTo(rs: seq<Rerender>, key: string, values: map<string, Value>, n: nat): (r: seq<nat>)
    requires n <= |rs|
    ensures forall j :: 0 <= j < |r| ==> r[j] < n
    decreases n
  {
    if n == 0 then []
    else KeptUpTo(rs, key, values, n - 1) + (if rs[n - 1](key, values) then [] else [n - 1])
  }

  /** Index `i` is kept exactly when its rerender returned false. */
  lemma {:induction false} KeptAt(rs: seq<Rerender>, key: string, values: map<string, Value>, n: nat, i: nat)
    requires n <= |rs|
    ensures i in KeptUpTo(rs, key, values, n) <==> i < n && !rs[i](key, values)
    decreases n
  {
    if n > 0 {
      KeptAt(rs, key, values, n - 1, i);
    }
  }

  /** The kept indexes are strictly increasing: the survivors keep their
      relative order. */
  lemma {:induction false} KeptIncreasing(rs: seq<Rerender>, key: string, values: map<string, Value>, n: nat)
    requires n <= |rs|
    ensures forall j, j' :: 0 <= j < j' < |KeptUpTo(rs, key, values, n)| ==>
      KeptUpTo(rs, key, values, n)[j] < KeptUpTo(rs, key, values, n)[j']
    decreases n
  {
    if n > 0 {
      KeptIncreasing(rs, key, values, n - 1);
    }
  }

  /** The rerenders at the given indexes. */
  function Select(rs: seq<Rerender>, idx: seq<nat>): (r: seq<Rerender>)
    requires forall j :: 0 <= j < |idx| ==> idx[j] < |rs|
    ensures |r| == |idx| && forall j :: 0 <= j < |idx| ==> r[j] == rs[idx[j]]
  {
    seq(|idx|, j requires 0 <= j < |idx| => rs[idx[j]])
  }

  lemma SelectSnoc(rs: seq<Rerender>, idx: seq<nat>, i: nat)
    requires i < |rs| && forall j :: 0 <= j < |idx| ==> idx[j] < |rs|
    ensures Select(rs, idx + [i]) == Select(rs, idx) + [rs[i]]
  {
  }

  /** `_rerenders` after `callRerenders`: the rerenders that returned false,
      in their original order; an absent list becomes the empty one. */
  function Survivors(rerenders: Option<seq<Rerender>>, key: string, values: map<string, Value>): (r: seq<Rerender>)
    ensures rerenders.None? ==> r == []
    ensures rerenders.Some? ==>
      var rs := rerenders.value;
      var kept := KeptUpTo(rs, key, values, |rs|);
      |r| == |kept| && forall j :: 0 <= j < |r| ==> r[j] == rs[kept[j]]
  {
    match rerenders
    case None => []
    case Some(rs) => Select(rs, KeptUpTo(rs, key, values, |rs|))
  }

  /** The survivors are exactly the rerenders that returned false: each
      survivor returned false, and each rerender that returned false
      survives. */
  lemma SurvivorsExact(rs: seq<Rerender>, key: string, values: map<string, Value>)
    ensures forall j :: 0 <= j < |KeptUpTo(rs, key, values, |rs|)| ==> !rs[KeptUpTo(rs, key, values, |rs|)[j]](key, values)
    ensures forall i :: 0 <= i < |rs| && !rs[i](key, values) ==> i in KeptUpTo(rs, key, values, |rs|)
  {
    var kept := KeptUpTo(rs, key, values, |rs|);
    forall j | 0 <= j < |kept| ensures !rs[kept[j]](key, values) {
      KeptAt(rs, key, values, |rs|, kept[j]);
    }
    forall i | 0 <= i < |rs| && !rs[i](key, values) ensures i in kept {
      KeptAt(rs, key, values, |rs|, i);
    }
  }

  /** A callable's result that is an object. The callable is handed
      `structuredClone(state[key])`, so the object it returns is not the one
      stored before (`!==`), even when it looks the same. */
  predicate FreshObject(values: map<string, Value>, key: string, cb: LegacyPayload)
  {
    cb.Compute? && cb.fn(Current(values, key)).Done? && IsObject(cb.fn(Current(values, key)).value)
  }

  /** `currentRootState !== state[key]` after the entry is applied. */
  predicate Changed(values: map<string, Value>, key: string, cb: LegacyPayload)
  {
    FreshObject(values, key, cb) || Current(NewValue(values, key, cb), key) != Current(values, key)
  }

  /** When an entry counts as a change: a constant that differs from the
      current value; an object from a callable, always; a primitive from a
      callable, when it differs; a throw or a `null`/`undefined` result, never. */
  lemma ChangedCases(values: map<string, Value>, key: string, cb: LegacyPayload)
    ensures cb.Assign? ==> (Changed(values, key, cb) <==> cb.value != Current(values, key))
    ensures cb.Compute? && cb.fn(Current(values, key)).Threw? ==> !Changed(values, key, cb)
    ensures cb.Compute? && cb.fn(Current(values, key)).Done? ==>
      var v := cb.fn(Current(values, key)).value;
      (v in {Null, Undefined} ==> !Changed(values, key, cb)) &&
      (IsObject(v) ==> Changed(values, key, cb)) &&
      (v !in {Null, Undefined} && !IsObject(v) ==> (Changed(values, key, cb) <==> v != Current(values, key)))
  {
  }

  /** One payload entry: the new values, and the rerender list after the
      rerenders are called when the entry changed its key. */
  function Step(values: map<string, Value>, rerenders: Option<seq<Rerender>>, key: string, cb: LegacyPayload)
    : (r: (map<string, Value>, Option<seq<Rerender>>))
    ensures r.0 == NewValue(values, key, cb)
    ensures Changed(values, key, cb) ==> r.1 == Some(Survivors(rerenders, key, r.0))
    ensures !Changed(values, key, cb) ==> r.1 == rerenders
  {
    var after := NewValue(values, key, cb);
    if Changed(values, key, cb) then (after, Some(Survivors(rerenders, key, after)))
    else (after, rerenders)
  }

  /** The whole payload, one entry after another. */
  function UpdateAll(values: map<string, Value>, rerenders: Option<seq<Rerender>>, payload: seq<(string, LegacyPayload)>)
    : (r: (map<string, Value>, Option<seq<Rerender>>))
    decreases |payload|
  {
    if payload == [] then (values, rerenders)
    else
      var n := |payload| - 1;
      var prev := UpdateAll(values, rerenders, payload[..n]);
      Step(prev.0, prev.1, payload[n].0, payload[n].1)
  }

  /** A key the payload does not name keeps its value. */
  lemma {:induction false} UntouchedKeys(values: map<string, Value>, rerenders: Option<seq<Rerender>>,
                                         payload: seq<(string, LegacyPayload)>, k: string)
    requires forall i :: 0 <= i < |payload| ==> payload[i].0 != k
    ensures (k in UpdateAll(values, rerenders, payload).0 <==> k in values)
    ensures Current(UpdateAll(values, rerenders, payload).0, k) == Current(values, k)
    decreases |payload|
  {
    if payload != [] {
      UntouchedKeys(values, rerenders, payload[..|payload| - 1], k);
    }
  }

  /** No value changes, no rerender is called: a payload that leaves every
      value as it was leaves the rerender list as it was. */
  lemma {:induction false} UnchangedNoRerender(values: map<string, Value>, rerenders: Option<seq<Rerender>>,
                                               payload: seq<(string, LegacyPayload)>)
    requires forall i :: 0 <= i < |payload| ==> payload[i].1.Assign? && payload[i].1.value == Current(values, payload[i].0)
    ensures UpdateAll(values, rerenders, payload).1 == rerenders
    ensures forall k :: Current(UpdateAll(values, rerenders, payload).0, k) == Current(values, k)
    decreases |payload|
  {
    if payload != [] {
      UnchangedNoRerender(values, rerenders, payload[..|payload| - 1]);
    }
  }

  class SliceState {
    /** The slice's keys and values (`rootState[slice]`). */
    var values: map<string, Value>
    /** `state._rerenders`. */
    var rerenders: Option<seq<Rerender>>

    constructor (values: map<string, Value>, rerenders: Option<seq<Rerender>>)
      ensures this.values == values && this.rerenders == rerenders
    {
      this.values := values;
      this.rerenders := rerenders;
    }

    /** `callRerenders({rootState, slice, key})`: every rerender is called in
        list order; those that return true are consumed and removed. Returns
        the consumed indexes. */
    method CallRerenders(key: string) returns (consumed: seq<nat>)
      modifies this`rerenders
      ensures rerenders == Some(Survivors(old(rerenders), key, values))
      ensures old(rerenders).Some? ==> consumed == ConsumedUpTo(old(rerenders).value, key, values, |old(rerenders).value|)
      ensures old(rerenders).None? ==> consumed == []
    {
      var rs := if rerenders.Some? then rerenders.value else [];
      consumed := CollectConsumed(rs, key, values);
      var kept := DropConsumed(rs, key, values, consumed);
      rerenders := Some(kept);
    }

    /** The reducer `createUpdater(slice)(rootState, payload)`: each payload
        entry in order updates its key, and the rerenders are called for it
        when its value changed (`!==`). */
    method Update(payload: seq<(string, LegacyPayload)>)
      modifies this
      ensures (values, rerenders) == UpdateAll(old(values), old(rerenders), payload)
    {
      var i := 0;
      while i < |payload|
        invariant i <= |payload|
        invariant (values, rerenders) == UpdateAll(old(values), old(rerenders), payload[..i])
      {
        var (key, cb) := payload[i];
        var current := Current(values, key);
        // An object the callable returns is never the stored one.
        var newObject := false;
        match cb {
          case Assign(v) =>
            values := values[key := v];
          case Compute(f) =>
            var value := f(current);
            if value.Done? && value.value != Null && value.value != Undefined {
              values := values[key := value.value];
              newObject := IsObject(value.value);
            }
        }
        if newObject || current != Current(values, key) {
          var _ := CallRerenders(key);
        }
        assert payload[..i + 1][..i] == payload[..i];
        i := i + 1;
      }
      assert payload[..i] == payload;
    }
  }

  /** The `forEach` of `callRerenders`: the indexes of the rerenders that
      return true, in list order. */
  method CollectConsumed(rs: seq<Rerender>, key: string, values: map<string, Value>) returns (consumed: seq<nat>)
    ensures consumed == ConsumedUpTo(rs, key, values, |rs|)
  {
    consumed := [];
    var i := 0;
    while i < |rs|
      invariant i <= |rs|
      invariant consumed == ConsumedUpTo(rs, key, values, i)
    {
      if rs[i](key, values) {
        consumed := consumed + [i];
      }
      i := i + 1;
    }
  }

  /** The `filter` of `callRerenders`: the rerenders whose index was not
      consumed, in order. */
  method DropConsumed(rs: seq<Rerender>, key: string, values: map<string, Value>, consumed: seq<nat>)
    returns (kept: seq<Rerender>)
    requires consumed == ConsumedUpTo(rs, key, values, |rs|)
    ensures kept == Select(rs, KeptUpTo(rs, key, values, |rs|))
  {
    kept := [];
    ghost var keptIdx: seq<nat> := [];
    var i := 0;
    while i < |rs|
      invariant i <= |rs|
      invariant keptIdx == KeptUpTo(rs, key, values, i)
      invariant kept == Select(rs, keptIdx)
    {
      ConsumedAt(rs, key, values, |rs|, i);
      if !(i in consumed) {
        SelectSnoc(rs, keptIdx, i);
        kept := kept + [rs[i]];
        keptIdx := keptIdx + [i];
      }
      i := i + 1;
    }
  }
}
