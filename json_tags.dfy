/** `replacer` and `reviver` of core/src/functions/utils.ts, the pair handed to
    `JSON.stringify` and `JSON.parse` so that `undefined`, `Map` and `Set`
    survive a trip through text.

    The JSON text itself is abstracted: `Encode` is the value tree that
    `JSON.stringify(v, replacer)` writes out (the replacer applied to every
    value before its children), and `Decode` is what `JSON.parse(text, reviver)`
    builds from that tree (the reviver applied to every value after its
    children, a property whose revived value is `undefined` being deleted). */
module JsonTags {
  import opened Values

  /** `obj[name]` on a plain object, `undefined` when absent. */
  function Member(props: seq<(string, Value)>, name: string): Value
  {
    match Lookup(props, name)
    case Some(x) => x
    case None => Undefined
  }

  /** A plain object whose `dataType` is one of the three tags. */
  predicate TagLike(props: seq<(string, Value)>)
  {
    Member(props, "dataType") in {Str("undefined"), Str("Map"), Str("Set")}
  }

  function Tagged(tag: string, payload: seq<(string, Value)>): Value
  {
    Obj([("dataType", Str(tag))] + payload)
  }

  /** `replacer(_key, value)`. */
  function Replacer(v: Value): (r: Value)
    ensures !(v.Undefined? || v.JsMap? || v.JsSet?) ==> r == v
    ensures v.Undefined? ==> r.Obj? && Member(r.props, "dataType") == Str("undefined")
    ensures v.JsMap? ==> r.Obj? && Member(r.props, "dataType") == Str("Map") && Member(r.props, "value") == Arr(Pairs(v.entries))
    ensures v.JsSet? ==> r.Obj? && Member(r.props, "dataType") == Str("Set") && Member(r.props, "value") == Arr(v.elems)
  {
    match v
    case Undefined => Tagged("undefined", [])
    case JsMap(es) => TaggedMembers("Map", Arr(Pairs(es))); Tagged("Map", [("value", Arr(Pairs(es)))])
    case JsSet(xs) => TaggedMembers("Set", Arr(xs)); Tagged("Set", [("value", Arr(xs))])
    case _ => v
  }

  lemma TaggedMembers(tag: string, x: Value)
    ensures Member(Tagged(tag, [("value", x)]).props, "dataType") == Str(tag)
    ensures Member(Tagged(tag, [("value", x)]).props, "value") == x
  {
    var props := Tagged(tag, [("value", x)]).props;
    assert props[1..] == [("value", x)];
    assert "dataType" != "value" by { assert "dataType"[0] != "value"[0]; }
    assert Lookup(props[1..], "value") == Some(x);
  }

  /** `Array.from(map.entries())`: one `[key, value]` array per entry. */
  function Pairs(es: seq<(Value, Value)>): (r: seq<Value>)
    ensures |r| == |es| && forall i :: 0 <= i < |es| ==> r[i] == Arr([es[i].0, es[i].1])
  {
    seq(|es|, i requires 0 <= i < |es| => Arr([es[i].0, es[i].1]))
  }

  /** What iterating `x` yields, as `new Map(x)` and `new Set(x)` iterate it:
      `undefined` and `null` give nothing; arrays, strings, `Set`s and `Map`s
      give their items; anything else is not iterable (a `TypeError`). */
  function Iterate(x: Value): (r: Option<seq<Value>>)
    ensures r.None? <==> x.Bool? || x.Num? || x.Obj?
  {
    match x
    case Undefined => Some([])
    case Null => Some([])
    case Arr(items) => Some(items)
    case Str(s) => Some(seq(|s|, i requires 0 <= i < |s| => Str([s[i]])))
    case JsSet(xs) => Some(xs)
    case JsMap(es) => Some(Pairs(es))
    case _ => None
  }

  /** The entry `new Map` takes from one item: `[item[0], item[1]]` of an
      object; a primitive item is a `TypeError`. */
  function EntryOf(item: Value): (r: Option<(Value, Value)>)
    ensures r.Some? <==> IsObject(item)
    ensures item.Arr? && |item.items| == 2 ==> r == Some((item.items[0], item.items[1]))
  {
    match item
    case Arr(xs) => Some((if |xs| > 0 then xs[0] else Undefined, if |xs| > 1 then xs[1] else Undefined))
    case Obj(props) => Some((Member(props, "0"), Member(props, "1")))
    case JsMap(_) => Some((Undefined, Undefined))
    case JsSet(_) => Some((Undefined, Undefined))
    case _ => None
  }

  /** `map.set(k, v)`: a primitive key already present keeps its place and
      takes the new value; any other key is appended. Objects are compared by
      identity, and every object a parse builds is a fresh one, so an object
      key is always new. */
  function MapSet(es: seq<(Value, Value)>, k: Value, v: Value): (r: seq<(Value, Value)>)
    ensures (k, v) in r && |es| <= |r| <= |es| + 1
    ensures IsObject(k) || (forall i :: 0 <= i < |es| ==> es[i].0 != k) ==> r == es + [(k, v)]
    decreases |es|
  {
    if es == [] then [(k, v)]
    else if !IsObject(k) && es[0].0 == k then [(k, v)] + es[1..]
    else
      assert es == [es[0]] + es[1..];
      [es[0]] + MapSet(es[1..], k, v)
  }

  /** `set.add(x)`: a primitive already present is not added again. */
  function SetAdd(xs: seq<Value>, x: Value): (r: seq<Value>)
    ensures x in r && forall y :: y in r <==> y == x || y in xs
    ensures IsObject(x) || x !in xs ==> r == xs + [x]
    ensures !IsObject(x) && x in xs ==> r == xs
  {
    if !IsObject(x) && x in xs then xs else xs + [x]
  }

  /** The entries of `new Map(items)`, or `None` for the `TypeError` a
      primitive item raises. */
  function MapOf(items: seq<Value>): (r: Option<seq<(Value, Value)>>)
    ensures r.Some? <==> forall x :: x in items ==> IsObject(x)
    decreases |items|
  {
    if items == [] then Some([])
    else
      var n := |items| - 1;
      assert items == items[..n] + [items[n]];
      match MapOf(items[..n])
      case None => None
      case Some(es) =>
        match EntryOf(items[n])
        case None => None
        case Some(e) => Some(MapSet(es, e.0, e.1))
  }

  /** The elements of `new Set(items)`. */
  function SetOf(items: seq<Value>): (r: seq<Value>)
    ensures forall y :: y in r <==> y in items
    decreases |items|
  {
    if items == [] then []
    else
      var n := |items| - 1;
      assert items == items[..n] + [items[n]];
      SetAdd(SetOf(items[..n]), items[n])
  }

  /** `reviver(_key, value)`: an object tagged "undefined", "Map" or "Set" is
      turned back into that value; `new Map`/`new Set` may throw (`None`). */
  function Reviver(v: Value): (r: Option<Value>)
    ensures !(v.Obj? && TagLike(v.props)) ==> r == Some(v)
    ensures v.Obj? && Member(v.props, "dataType") == Str("undefined") ==> r == Some(Undefined)
    ensures r.None? ==> v.Obj? && Member(v.props, "dataType") in {Str("Map"), Str("Set")}
  {
    if v.Obj? then
      var tag := Member(v.props, "dataType");
      if tag == Str("undefined") then Some(Undefined)
      else if tag == Str("Map") then
        match Iterate(Member(v.props, "value"))
        case None => None
        case Some(items) =>
          match MapOf(items)
          case None => None
          case Some(es) => Some(JsMap(es))
      else if tag == Str("Set") then
        match Iterate(Member(v.props, "value"))
        case None => None
        case Some(items) => Some(JsSet(SetOf(items)))
      else Some(v)
    else Some(v)
  }

  /** No two equal primitive keys in a `Map`: what a real `Map` guarantees. */
  predicate KeysUnique(es: seq<(Value, Value)>)
  {
    forall i, j :: 0 <= i < j < |es| && !IsObject(es[j].0) ==> es[i].0 != es[j].0
  }

  /** No two equal primitive elements in a `Set`. */
  predicate ElemsUnique(xs: seq<Value>)
  {
    forall i, j :: 0 <= i < j < |xs| && !IsObject(xs[j]) ==> xs[i] != xs[j]
  }

  lemma {:induction false} MapOfPairs(es: seq<(Value, Value)>)
    requires KeysUnique(es)
    ensures MapOf(Pairs(es)) == Some(es)
    decreases |es|
  {
    if es != [] {
      var n := |es| - 1;
      KeysUniqueInit(es);
      MapOfPairs(es[..n]);
      MapOfPairsLast(es);
    }
  }

  /** The step of `MapOfPairs` for a non-empty list, split at its last entry. */
  lemma MapOfPairsLast(es: seq<(Value, Value)>)
    requires es != []
    requires MapOf(Pairs(es[..|es| - 1])) == Some(es[..|es| - 1])
    requires MapSet(es[..|es| - 1], es[|es| - 1].0, es[|es| - 1].1) == es[..|es| - 1] + [es[|es| - 1]]
    ensures MapOf(Pairs(es)) == Some(es)
  {
    var n := |es| - 1;
    MapOfPairsSnoc(es[..n], es[n]);
    assert es[..n] + [es[n]] == es;
  }

  /** Rebuilding one more entry after the others, when its key is new. */
  lemma MapOfPairsSnoc(init: seq<(Value, Value)>, e: (Value, Value))
    requires MapOf(Pairs(init)) == Some(init)
    requires MapSet(init, e.0, e.1) == init + [e]
    ensures MapOf(Pairs(init + [e])) == Some(init + [e])
  {
    var items := Pairs(init + [e]);
    assert items == Pairs(init) + [Arr([e.0, e.1])];
    assert items[..|init|] == Pairs(init);
    MapOfStep(items, init, e);
  }

  /** Dropping the last entry keeps the keys unique, and the last key is new
      to the rest. */
  lemma KeysUniqueInit(es: seq<(Value, Value)>)
    requires es != [] && KeysUnique(es)
    ensures KeysUnique(es[..|es| - 1])
    ensures var n := |es| - 1;
      MapSet(es[..n], es[n].0, es[n].1) == es[..n] + [es[n]]
  {
    var n := |es| - 1;
    assert IsObject(es[n].0) || forall i :: 0 <= i < n ==> es[..n][i].0 != es[n].0;
  }

  /** `new Map(items)` sets the last item's entry after all the others. */
  lemma MapOfStep(items: seq<Value>, es: seq<(Value, Value)>, e: (Value, Value))
    requires items != []
    requires MapOf(items[..|items| - 1]) == Some(es)
    requires EntryOf(items[|items| - 1]) == Some(e)
    ensures MapOf(items) == Some(MapSet(es, e.0, e.1))
  {
  }

  lemma {:induction false} SetOfUnique(xs: seq<Value>)
    requires ElemsUnique(xs)
    ensures SetOf(xs) == xs
    decreases |xs|
  {
    if xs != [] {
      var n := |xs| - 1;
      SetOfUnique(xs[..n]);
      assert IsObject(xs[n]) || xs[n] !in xs[..n];
      assert xs[..n] + [xs[n]] == xs;
    }
  }

  /** The reviver inverts the replacer on one value: the three tagged kinds
      come back as they were (a `Map` or `Set` whose primitive members are
      unique, as they are in a real one), and every other value that is not
      itself tag-like passes both unchanged. */
  lemma ReviverInvertsReplacer(v: Value)
    requires v.JsMap? ==> KeysUnique(v.entries)
    requires v.JsSet? ==> ElemsUnique(v.elems)
    requires v.Obj? ==> !TagLike(v.props)
    ensures Reviver(Replacer(v)) == Some(v)
  {
    match v
    case JsMap(es) =>
      assert Replacer(v) == Tagged("Map", [("value", Arr(Pairs(es)))]);
      ReviveMap(es);
    case JsSet(xs) =>
      assert Replacer(v) == Tagged("Set", [("value", Arr(xs))]);
      ReviveSet(xs);
    case _ =>
  }

  /** A plain object that looks tagged is misread: `{dataType: "Set"}` comes
      back as an empty `Set`. */
  lemma TagLikeObjectMisread()
    ensures Reviver(Replacer(Obj([("dataType", Str("Set"))]))) == Some(JsSet([]))
  {
  }

  /** The value tree `JSON.stringify(v, replacer)` writes: the replacer is
      applied to a value first and then to the children of what it returned. */
  function Encode(v: Value): (r: Value)
    ensures JsonShaped(r)
    decreases v, 1
  {
    match v
    case Undefined => Tagged("undefined", [])
    case Arr(items) => Arr(EncodeAll(items, v))
    case Obj(props) => Obj(EncodeProps(props, v))
    case JsMap(es) =>
      var pairs := seq(|es|, i requires 0 <= i < |es| => Arr([Encode(es[i].0), Encode(es[i].1)]));
      assert forall i :: 0 <= i < |pairs| ==> JsonShaped(pairs[i]);
      Tagged("Map", [("value", Arr(pairs))])
    case JsSet(xs) => Tagged("Set", [("value", Arr(EncodeAll(xs, v)))])
    case _ => v
  }

  function EncodeAll(xs: seq<Value>, ghost parent: Value): (r: seq<Value>)
    requires forall i :: 0 <= i < |xs| ==> xs[i] < parent
    ensures |r| == |xs| && forall i :: 0 <= i < |xs| ==> r[i] == Encode(xs[i]) && JsonShaped(r[i])
    decreases parent, 0
  {
    seq(|xs|, i requires 0 <= i < |xs| => Encode(xs[i]))
  }

  function EncodeProps(props: seq<(string, Value)>, ghost parent: Value): (r: seq<(string, Value)>)
    requires forall i :: 0 <= i < |props| ==> props[i].1 < parent
    ensures |r| == |props| && forall i :: 0 <= i < |props| ==> r[i] == (props[i].0, Encode(props[i].1)) && JsonShaped(r[i].1)
    decreases parent, 0
  {
    seq(|props|, i requires 0 <= i < |props| => (props[i].0, Encode(props[i].1)))
  }

  /** One step of `JSON.stringify`: the children of what the replacer
      returned are written out in turn. */
  function EncodeChildren(w: Value): Value
  {
    match w
    case Arr(items) => Arr(seq(|items|, i requires 0 <= i < |items| => Encode(items[i])))
    case Obj(props) => Obj(seq(|props|, i requires 0 <= i < |props| => (props[i].0, Encode(props[i].1))))
    case _ => w
  }

  /** `Encode` is the stringify traversal: the replacer runs on a value
      before its children are written. */
  lemma EncodeIsReplacerFirst(v: Value)
    ensures Encode(v) == EncodeChildren(Replacer(v))
  {
    match v
    case JsMap(es) => EncodeMapStep(es);
    case JsSet(xs) => EncodeSetStep(xs);
    case _ =>
  }

  lemma EncodeMapStep(es: seq<(Value, Value)>)
    ensures Encode(JsMap(es)) == EncodeChildren(Replacer(JsMap(es)))
  {
    var p := Pairs(es);
    var enc := Encode(JsMap(es)).props[1].1;
    assert Encode(JsMap(es)) == Tagged("Map", [("value", enc)]);
    forall i | 0 <= i < |p| ensures Encode(p[i]) == enc.items[i] {
      assert EncodeAll(p[i].items, p[i]) == [Encode(es[i].0), Encode(es[i].1)];
    }
    assert Encode(Arr(p)) == enc;
    assert Replacer(JsMap(es)).props == [("dataType", Str("Map")), ("value", Arr(p))];
    assert EncodeChildren(Replacer(JsMap(es))).props == [("dataType", Encode(Str("Map"))), ("value", Encode(Arr(p)))];
  }

  lemma EncodeSetStep(xs: seq<Value>)
    ensures Encode(JsSet(xs)) == EncodeChildren(Replacer(JsSet(xs)))
  {
    var enc := Encode(JsSet(xs)).props[1].1;
    assert Encode(JsSet(xs)) == Tagged("Set", [("value", enc)]);
    assert Encode(Arr(xs)) == enc;
    assert Replacer(JsSet(xs)).props == [("dataType", Str("Set")), ("value", Arr(xs))];
    assert EncodeChildren(Replacer(JsSet(xs))).props == [("dataType", Encode(Str("Set"))), ("value", Encode(Arr(xs)))];
  }

  /** What JSON can write: no `undefined`, `Map` or `Set` anywhere. */
  predicate JsonShaped(v: Value)
    decreases v
  {
    match v
    case Undefined => false
    case JsMap(_) => false
    case JsSet(_) => false
    case Arr(items) => forall i :: 0 <= i < |items| ==> JsonShaped(items[i])
    case Obj(props) => forall i :: 0 <= i < |props| ==> JsonShaped(props[i].1)
    case _ => true
  }

  /** The value tree `JSON.parse(text, reviver)` builds from the tree `text`
      holds: the children first, then the reviver on the value itself. A
      property whose revived value is `undefined` is deleted; an array
      element that revives to `undefined` leaves a hole, read as `undefined`.
      `None` is the `TypeError` a reviver call raised. */
  function Decode(v: Value): (r: Option<Value>)
    decreases v, 1
  {
    match v
    case Arr(items) =>
      (match AllOk(DecodeAll(items, v))
       case None => None
       case Some(ys) => Reviver(Arr(ys)))
    case Obj(props) =>
      (match AllOk(DecodeAll(PropValues(props), v))
       case None => None
       case Some(ys) => Reviver(Obj(Revived(props, ys))))
    case _ => Reviver(v)
  }

  function DecodeAll(xs: seq<Value>, ghost parent: Value): (r: seq<Option<Value>>)
    requires forall i :: 0 <= i < |xs| ==> xs[i] < parent
    ensures |r| == |xs| && forall i :: 0 <= i < |xs| ==> r[i] == Decode(xs[i])
    decreases parent, 0
  {
    seq(|xs|, i requires 0 <= i < |xs| => Decode(xs[i]))
  }

  function PropValues(props: seq<(string, Value)>): (r: seq<Value>)
    ensures |r| == |props| && forall i :: 0 <= i < |props| ==> r[i] == props[i].1
  {
    seq(|props|, i requires 0 <= i < |props| => props[i].1)
  }

  /** The children's results, or `None` when one of them threw. */
  function AllOk(rs: seq<Option<Value>>): (r: Option<seq<Value>>)
    ensures r.Some? <==> forall i :: 0 <= i < |rs| ==> rs[i].Some?
    ensures r.Some? ==> |r.value| == |rs| && forall i :: 0 <= i < |rs| ==> rs[i] == Some(r.value[i])
  {
    if forall i :: 0 <= i < |rs| ==> rs[i].Some? then
      Some(seq(|rs|, i requires 0 <= i < |rs| => rs[i].value))
    else None
  }

  /** The properties of a parsed object after reviving their values: those
      revived to `undefined` are deleted, the others keep their order. */
  function Revived(props: seq<(string, Value)>, vals: seq<Value>): (r: seq<(string, Value)>)
    requires |vals| == |props|
    ensures forall i :: 0 <= i < |r| ==> r[i].1 != Undefined
    ensures (forall i :: 0 <= i < |vals| ==> vals[i] != Undefined) ==>
      |r| == |props| && forall i :: 0 <= i < |r| ==> r[i] == (props[i].0, vals[i])
    decreases |props|
  {
    if props == [] then []
    else
      var rest := Revived(props[1..], vals[1..]);
      if vals[0] == Undefined then rest else [(props[0].0, vals[0])] + rest
  }

  /** Exactly the properties whose value is not revived to `undefined` are kept. */
  lemma {:induction false} RevivedMembers(props: seq<(string, Value)>, vals: seq<Value>)
    requires |vals| == |props|
    ensures forall e :: e in Revived(props, vals) <==>
      exists i :: 0 <= i < |vals| && vals[i] != Undefined && e == (props[i].0, vals[i])
    decreases |props|
  {
    if props != [] {
      RevivedMembers(props[1..], vals[1..]);
      forall e | e in Revived(props, vals)
        ensures exists i :: 0 <= i < |vals| && vals[i] != Undefined && e == (props[i].0, vals[i])
      {
        if vals[0] != Undefined && e == (props[0].0, vals[0]) {
        } else {
          var i :| 0 <= i < |vals[1..]| && vals[1..][i] != Undefined && e == (props[1..][i].0, vals[1..][i]);
          assert vals[i + 1] == vals[1..][i] && props[i + 1] == props[1..][i];
        }
      }
      forall e | exists i :: 0 <= i < |vals| && vals[i] != Undefined && e == (props[i].0, vals[i])
        ensures e in Revived(props, vals)
      {
        var i :| 0 <= i < |vals| && vals[i] != Undefined && e == (props[i].0, vals[i]);
        if i > 0 {
          assert vals[1..][i - 1] == vals[i] && props[1..][i - 1] == props[i];
        }
      }
    }
  }

  /** Reviving keeps order: the kept properties of a prefix come before those
      of the rest. */
  lemma {:induction false} RevivedConcat(p1: seq<(string, Value)>, v1: seq<Value>, p2: seq<(string, Value)>, v2: seq<Value>)
    requires |v1| == |p1| && |v2| == |p2|
    ensures Revived(p1 + p2, v1 + v2) == Revived(p1, v1) + Revived(p2, v2)
    decreases |p1|
  {
    if p1 != [] {
      assert (p1 + p2)[1..] == p1[1..] + p2;
      assert (v1 + v2)[1..] == v1[1..] + v2;
      RevivedConcat(p1[1..], v1[1..], p2, v2);
    } else {
      assert p1 + p2 == p2 && v1 + v2 == v2;
    }
  }

  /** A property revived to `undefined` is deleted even when others follow it. */
  lemma RevivedDropsOnlyUndefined()
    ensures Revived([("a", Undefined), ("b", Null)], [Undefined, Null]) == [("b", Null)]
  {
  }

  /** The values the pair carries through text unchanged: no plain object
      that looks tagged, no object property holding `undefined`, and `Map`s
      and `Set`s whose primitive members are unique, as in a real one. */
  predicate Portable(v: Value)
    decreases v
  {
    match v
    case Arr(items) => forall i :: 0 <= i < |items| ==> Portable(items[i])
    case Obj(props) => !TagLike(props) && forall i :: 0 <= i < |props| ==> props[i].1 != Undefined && Portable(props[i].1)
    case JsMap(es) => KeysUnique(es) && forall i :: 0 <= i < |es| ==> Portable(es[i].0) && Portable(es[i].1)
    case JsSet(xs) => ElemsUnique(xs) && forall i :: 0 <= i < |xs| ==> Portable(xs[i])
    case _ => true
  }

  lemma DecodeArr(xs: seq<Value>, ys: seq<Value>)
    requires |xs| == |ys| && forall i :: 0 <= i < |xs| ==> Decode(xs[i]) == Some(ys[i])
    ensures Decode(Arr(xs)) == Some(Arr(ys))
  {
    assert AllOk(DecodeAll(xs, Arr(xs))).value == ys;
  }

  lemma DecodeObj(props: seq<(string, Value)>, ys: seq<Value>)
    requires |props| == |ys|
    requires forall i :: 0 <= i < |props| ==> Decode(props[i].1) == Some(ys[i]) && ys[i] != Undefined
    ensures Decode(Obj(props)) == Reviver(Obj(seq(|props|, i requires 0 <= i < |props| => (props[i].0, ys[i]))))
  {
    assert AllOk(DecodeAll(PropValues(props), Obj(props))).value == ys;
    assert Revived(props, ys) == seq(|props|, i requires 0 <= i < |props| => (props[i].0, ys[i]));
  }

  /** Stringifying with the replacer and parsing with the reviver gives back
      every portable value. */
  lemma {:induction false} RoundTrip(v: Value)
    requires Portable(v)
    ensures Decode(Encode(v)) == Some(v)
    decreases v
  {
    match v
    case Undefined =>
      TaggedUndefined();
    case Arr(items) =>
      forall i | 0 <= i < |items| ensures Decode(Encode(items[i])) == Some(items[i]) {
        RoundTrip(items[i]);
      }
      RoundTripArr(items);
    case Obj(props) =>
      forall i | 0 <= i < |props| ensures Decode(Encode(props[i].1)) == Some(props[i].1) {
        RoundTrip(props[i].1);
      }
      RoundTripObj(props);
    case JsMap(es) =>
      forall i | 0 <= i < |es|
        ensures Decode(Encode(es[i].0)) == Some(es[i].0) && Decode(Encode(es[i].1)) == Some(es[i].1)
      {
        RoundTrip(es[i].0);
        RoundTrip(es[i].1);
      }
      RoundTripMap(es);
    case JsSet(xs) =>
      forall i | 0 <= i < |xs| ensures Decode(Encode(xs[i])) == Some(xs[i]) {
        RoundTrip(xs[i]);
      }
      RoundTripSet(xs);
    case _ =>
  }

  lemma RoundTripArr(items: seq<Value>)
    requires forall i :: 0 <= i < |items| ==> Decode(Encode(items[i])) == Some(items[i])
    ensures Decode(Encode(Arr(items))) == Some(Arr(items))
  {
    DecodeArr(Encode(Arr(items)).items, items);
  }

  lemma RoundTripObj(props: seq<(string, Value)>)
    requires !TagLike(props)
    requires forall i :: 0 <= i < |props| ==> props[i].1 != Undefined && Decode(Encode(props[i].1)) == Some(props[i].1)
    ensures Decode(Encode(Obj(props))) == Some(Obj(props))
  {
    var enc := Encode(Obj(props)).props;
    DecodeObj(enc, PropValues(props));
    assert seq(|enc|, i requires 0 <= i < |enc| => (enc[i].0, PropValues(props)[i])) == props;
  }

  lemma RoundTripMap(es: seq<(Value, Value)>)
    requires KeysUnique(es)
    requires forall i :: 0 <= i < |es| ==> Decode(Encode(es[i].0)) == Some(es[i].0) && Decode(Encode(es[i].1)) == Some(es[i].1)
    ensures Decode(Encode(JsMap(es))) == Some(JsMap(es))
  {
    var pairs := Encode(JsMap(es)).props[1].1;
    assert Encode(JsMap(es)) == Tagged("Map", [("value", pairs)]);
    DecodePairs(es, pairs);
    TaggedPayload("Map", pairs, Arr(Pairs(es)));
    ReviveMap(es);
  }

  lemma ReviveMap(es: seq<(Value, Value)>)
    requires KeysUnique(es)
    ensures Reviver(Tagged("Map", [("value", Arr(Pairs(es)))])) == Some(JsMap(es))
  {
    TaggedMembers("Map", Arr(Pairs(es)));
    MapOfPairs(es);
  }

  /** The entries list of an encoded `Map` decodes to the `[key, value]`
      arrays of the original entries. */
  lemma DecodePairs(es: seq<(Value, Value)>, pairs: Value)
    requires pairs == Encode(JsMap(es)).props[1].1
    requires forall i :: 0 <= i < |es| ==> Decode(Encode(es[i].0)) == Some(es[i].0) && Decode(Encode(es[i].1)) == Some(es[i].1)
    ensures Decode(pairs) == Some(Arr(Pairs(es)))
  {
    forall i | 0 <= i < |es| ensures Decode(pairs.items[i]) == Some(Pairs(es)[i]) {
      DecodeArr(pairs.items[i].items, [es[i].0, es[i].1]);
    }
    DecodeArr(pairs.items, Pairs(es));
  }

  lemma RoundTripSet(xs: seq<Value>)
    requires ElemsUnique(xs)
    requires forall i :: 0 <= i < |xs| ==> Decode(Encode(xs[i])) == Some(xs[i])
    ensures Decode(Encode(JsSet(xs))) == Some(JsSet(xs))
  {
    var items := Encode(JsSet(xs)).props[1].1.items;
    assert Encode(JsSet(xs)) == Tagged("Set", [("value", Arr(items))]);
    DecodeArr(items, xs);
    TaggedPayload("Set", Arr(items), Arr(xs));
    ReviveSet(xs);
  }

  lemma ReviveSet(xs: seq<Value>)
    requires ElemsUnique(xs)
    ensures Reviver(Tagged("Set", [("value", Arr(xs))])) == Some(JsSet(xs))
  {
    TaggedMembers("Set", Arr(xs));
    SetOfUnique(xs);
  }

  lemma TaggedUndefined()
    ensures Decode(Encode(Undefined)) == Some(Undefined)
  {
    var props := Tagged("undefined", []).props;
    assert props == [("dataType", Str("undefined"))];
    DecodeObj(props, [Str("undefined")]);
    assert seq(1, i requires 0 <= i < 1 => (props[i].0, [Str("undefined")][i])) == props;
  }

  /** Decoding a tagged object decodes its payload in place. */
  lemma TaggedPayload(tag: string, x: Value, y: Value)
    requires Decode(x) == Some(y) && y != Undefined
    ensures Decode(Tagged(tag, [("value", x)])) == Reviver(Tagged(tag, [("value", y)]))
  {
    var props := Tagged(tag, [("value", x)]).props;
    DecodeObj(props, [Str(tag), y]);
    assert seq(|props|, i requires 0 <= i < |props| => (props[i].0, [Str(tag), y][i])) == Tagged(tag, [("value", y)]).props;
  }

  /** An object property holding `undefined` does not survive: the replacer
      tags it, but `JSON.parse` deletes a property whose revived value is
      `undefined`. */
  lemma UndefinedPropertyLost()
    ensures Decode(Encode(Obj([("a", Undefined)]))) == Some(Obj([]))
  {
    TaggedUndefined();
    var enc := Encode(Obj([("a", Undefined)])).props;
    assert enc == [("a", Encode(Undefined))];
    assert PropValues(enc) == [Encode(Undefined)];
    assert DecodeAll(PropValues(enc), Obj(enc)) == [Some(Undefined)];
    var ok := AllOk(DecodeAll(PropValues(enc), Obj(enc)));
    assert ok.value[0] == Undefined;
    assert ok.value == [Undefined];
    assert Revived(enc, ok.value) == [];
  }
}
