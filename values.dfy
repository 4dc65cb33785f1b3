/** JavaScript values as the state container stores them.

    A value is a tree: primitives, arrays, plain objects (own enumerable
    properties in insertion order), `Map`s (entries in insertion order) and
    `Set`s (elements in insertion order). Dafny equality on `Value` stands for
    the `===` comparisons the store makes. */
module Values {

  datatype Option<+T> = None | Some(value: T)

  datatype Value =
    | Undefined
    | Null
    | Bool(b: bool)
    | Num(n: int)
    | Str(s: string)
    | Arr(items: seq<Value>)
    | Obj(props: seq<(string, Value)>)
    | JsMap(entries: seq<(Value, Value)>)
    | JsSet(elems: seq<Value>)

  /** What a call of user code produced: a value, or an exception. */
  datatype Outcome = Done(value: Value) | Threw

  /** `typeof v === "object" && v !== null`. */
  predicate IsObject(v: Value)
  {
    v.Arr? || v.Obj? || v.JsMap? || v.JsSet?
  }

  /** JavaScript truthiness (`if (x)`): `undefined`, `null`, `false`, `0` and
      `""` are falsy; every object is truthy. */
  predicate Truthy(v: Value)
  {
    match v
    case Undefined => false
    case Null => false
    case Bool(b) => b
    case Num(n) => n != 0
    case Str(s) => s != ""
    case _ => true
  }

  /** `obj[name]` on a plain object: the first property with that name. */
  function Lookup(props: seq<(string, Value)>, name: string): (r: Option<Value>)
    ensures r.Some? <==> exists i :: 0 <= i < |props| && props[i].0 == name
    ensures r.Some? ==> exists i :: 0 <= i < |props| && props[i] == (name, r.value)
  {
    if props == [] then None
    else if props[0].0 == name then Some(props[0].1)
    else
      var r := Lookup(props[1..], name);
      assert r.Some? ==> exists i :: 0 <= i < |props[1..]| && props[1..][i] == (name, r.value);
      r
  }

  /** Looking up in a list extended at the end finds the earlier entry first. */
  lemma {:induction false} LookupAppend(props: seq<(string, Value)>, last: (string, Value), name: string)
    ensures Lookup(props + [last], name) ==
      if Lookup(props, name).Some? then Lookup(props, name)
      else if last.0 == name then Some(last.1) else None
  {
    if props != [] {
      assert (props + [last])[1..] == props[1..] + [last];
      LookupAppend(props[1..], last, name);
    }
  }

  predicate Distinct<T(==)>(s: seq<T>)
  {
    forall i, j :: 0 <= i < j < |s| ==> s[i] != s[j]
  }

  /** `s.filter(y => y !== x)`: every occurrence of `x` removed, the rest in order. */
  function Without(s: seq<string>, x: string): (r: seq<string>)
    ensures forall y :: y in r <==> y in s && y != x
    ensures |r| <= |s|
    ensures x !in s ==> r == s
    decreases |s|
  {
    if s == [] then []
    else
      assert s == s[..|s| - 1] + [s[|s| - 1]];
      if s[|s| - 1] == x then Without(s[..|s| - 1], x)
      else Without(s[..|s| - 1], x) + [s[|s| - 1]]
  }

  /** Filtering keeps every other element as often as it occurs and drops
      every copy of `x`. */
  lemma {:induction false} WithoutCounts(s: seq<string>, x: string)
    ensures forall y :: multiset(Without(s, x))[y] == if y == x then 0 else multiset(s)[y]
    decreases |s|
  {
    if s != [] {
      var n := |s| - 1;
      assert s == s[..n] + [s[n]];
      WithoutCounts(s[..n], x);
    }
  }

  /** Filtering keeps order: the survivors of a prefix come before those of
      the rest. */
  lemma {:induction false} WithoutConcat(a: seq<string>, b: seq<string>, x: string)
    ensures Without(a + b, x) == Without(a, x) + Without(b, x)
    decreases |b|
  {
    if b == [] {
      assert a + b == a;
    } else {
      var n := |b| - 1;
      assert (a + b)[..|a + b| - 1] == a + b[..n];
      assert (a + b)[|a + b| - 1] == b[n];
      WithoutConcat(a, b[..n], x);
    }
  }

  lemma {:induction false} WithoutDistinct(s: seq<string>, x: string)
    requires Distinct(s)
    ensures Distinct(Without(s, x))
    decreases |s|
  {
    if s != [] {
      var init, last := s[..|s| - 1], s[|s| - 1];
      WithoutDistinct(init, x);
      assert last !in init;
      if last != x {
        var w := Without(init, x);
        assert Without(s, x) == w + [last];
        assert last !in w;
      }
    }
  }
}
