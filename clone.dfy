/** `clone` of core/src/functions/utils.ts: a deep copy of an object graph
    that copies `Map`s, `Set`s, `Date`s, arrays and plain objects, and keeps
    sharing and cycles through a `seen` map from each source object to its
    copy.

    Objects have identity here: values live in an explicit heap of numbered
    objects, and an object value is a reference. The source graph occupies
    the addresses below `limit`; copies are allocated from `next` upwards. */
module ObjectClone {
  import opened Values

  /** A value: a primitive (never an object), or a reference to an object. */
  datatype HVal = Prim(p: Value) | Ref(addr: nat)

  /** An object in the heap. */
  datatype HObj =
    | HMap(entries: seq<(HVal, HVal)>)
    | HSet(elems: seq<HVal>)
    | HDate(time: int)
    | HArr(items: seq<HVal>)
    | HPlain(props: seq<(string, HVal)>)

  /** The shape of an object, apart from what it holds: its kind, a `Map`'s
      size, an object's property names in order, a `Date`'s time. */
  datatype Shape = MapOf(size: nat) | SetOf | DateAt(time: int) | ArrayOf | PlainWith(names: seq<string>)

  /** A `Map`'s entries in iteration order, key before value. */
  function Flat(es: seq<(HVal, HVal)>): (r: seq<HVal>)
    ensures |r| == 2 * |es|
  {
    seq(2 * |es|, i requires 0 <= i < 2 * |es| => if i % 2 == 0 then es[i / 2].0 else es[i / 2].1)
  }

  /** The entries rebuilt from keys and values in iteration order. */
  function Pairs(ys: seq<HVal>): (r: seq<(HVal, HVal)>)
    requires |ys| % 2 == 0
    ensures 2 * |r| == |ys| && Flat(r) == ys
  {
    var r := seq(|ys| / 2, j requires 0 <= j < |ys| / 2 => (ys[2 * j], ys[2 * j + 1]));
    assert forall i :: 0 <= i < |ys| ==> Flat(r)[i] == ys[i] by {
      forall i | 0 <= i < |ys| ensures Flat(r)[i] == ys[i] {
        assert i == 2 * (i / 2) + i % 2;
      }
    }
    r
  }

  function PropVals(ps: seq<(string, HVal)>): (r: seq<HVal>)
    ensures |r| == |ps| && forall j :: 0 <= j < |ps| ==> r[j] == ps[j].1
  {
    seq(|ps|, j requires 0 <= j < |ps| => ps[j].1)
  }

  function PropNames(ps: seq<(string, HVal)>): (r: seq<string>)
    ensures |r| == |ps| && forall j :: 0 <= j < |ps| ==> r[j] == ps[j].0
  {
    seq(|ps|, j requires 0 <= j < |ps| => ps[j].0)
  }

  function ZipNames(names: seq<string>, vs: seq<HVal>): (r: seq<(string, HVal)>)
    requires |names| == |vs|
    ensures PropNames(r) == names && PropVals(r) == vs
  {
    seq(|names|, j requires 0 <= j < |names| => (names[j], vs[j]))
  }

  function ShapeOf(o: HObj): Shape
  {
    match o
    case HMap(es) => MapOf(|es|)
    case HSet(_) => SetOf
    case HDate(t) => DateAt(t)
    case HArr(_) => ArrayOf
    case HPlain(ps) => PlainWith(PropNames(ps))
  }

  /** The values an object holds directly, in the order `clone` visits them. */
  function Children(o: HObj): seq<HVal>
  {
    match o
    case HMap(es) => Flat(es)
    case HSet(xs) => xs
    case HDate(_) => []
    case HArr(xs) => xs
    case HPlain(ps) => PropVals(ps)
  }

  /** The object of `o`'s shape holding `ys` (the `new Map()`, `new Set()`,
      `[]` or `{}` that the loop fills). */
  function Build(o: HObj, ys: seq<HVal>): (r: HObj)
    requires |ys| == |Children(o)|
    ensures ShapeOf(r) == ShapeOf(o) && Children(r) == ys
  {
    match o
    case HMap(_) => HMap(Pairs(ys))
    case HSet(_) => HSet(ys)
    case HDate(t) => HDate(t)
    case HArr(_) => HArr(ys)
    case HPlain(ps) => HPlain(ZipNames(PropNames(ps), ys))
  }

  /** A value of the source graph: a primitive, or a source object. */
  predicate SourceVal(heap: map<nat, HObj>, limit: nat, x: HVal)
  {
    x.Ref? ==> x.addr in heap && x.addr < limit
  }

  predicate SourceObj(heap: map<nat, HObj>, limit: nat, o: HObj)
  {
    forall x :: x in Children(o) ==> SourceVal(heap, limit, x)
  }

  /** `y` is the copy of `x`: a primitive is itself; a `Date` is copied to a
      `Date` with the same time; any other object to its registered copy. */
  ghost predicate CorrVal(heap: map<nat, HObj>, seen: map<nat, nat>, x: HVal, y: HVal)
  {
    match x
    case Prim(_) => y == x
    case Ref(a) =>
      a in heap &&
      if heap[a].HDate? then y.Ref? && y.addr in heap && heap[y.addr] == heap[a]
      else a in seen && y == Ref(seen[a])
  }

  ghost predicate CorrSeq(heap: map<nat, HObj>, seen: map<nat, nat>, xs: seq<HVal>, ys: seq<HVal>)
  {
    |xs| == |ys| && forall j :: 0 <= j < |xs| ==> CorrVal(heap, seen, xs[j], ys[j])
  }

  /** The copy registered for source object `a` is finished: it has `a`'s
      shape and holds the copies of what `a` holds. */
  ghost predicate Complete(heap: map<nat, HObj>, seen: map<nat, nat>, a: nat)
  {
    a in heap && a in seen && seen[a] in heap
    && ShapeOf(heap[seen[a]]) == ShapeOf(heap[a])
    && CorrSeq(heap, seen, Children(heap[a]), Children(heap[seen[a]]))
  }

  /** A later heap and `seen` map: every earlier object and registration is
      still there, unchanged. */
  ghost predicate Extends(h0: map<nat, HObj>, s0: map<nat, nat>, h1: map<nat, HObj>, s1: map<nat, nat>)
  {
    (forall a :: a in h0 ==> a in h1 && h1[a] == h0[a]) && (forall a :: a in s0 ==> a in s1 && s1[a] == s0[a])
  }

  /** The source objects not copied yet. */
  ghost function UnseenIn(heap: map<nat, HObj>, seen: map<nat, nat>, limit: nat): set<nat>
  {
    set a | a in heap && a < limit && a !in seen
  }

  /** What a copying step does to the state `(h0, s0, n0)`: it only adds
      objects, at fresh addresses, and registrations, each with a finished
      copy; it copies no source object twice. */
  ghost predicate Grown(h0: map<nat, HObj>, s0: map<nat, nat>, n0: nat, h1: map<nat, HObj>, s1: map<nat, nat>, n1: nat, limit: nat)
  {
    Extends(h0, s0, h1, s1) && n0 <= n1
    && (forall a :: a in h1 ==> a in h0 || n0 <= a)
    && (forall a :: a in s1 && a !in s0 ==> n0 <= s1[a] && Complete(h1, s1, a))
    && UnseenIn(h1, s1, limit) <= UnseenIn(h0, s0, limit)
  }

  lemma CorrValMono(h0: map<nat, HObj>, s0: map<nat, nat>, h1: map<nat, HObj>, s1: map<nat, nat>, x: HVal, y: HVal)
    requires Extends(h0, s0, h1, s1) && CorrVal(h0, s0, x, y)
    ensures CorrVal(h1, s1, x, y)
  {
  }

  /** Copies stay copies as the heap and the `seen` map grow. */
  lemma CorrSeqMono(h0: map<nat, HObj>, s0: map<nat, nat>, h1: map<nat, HObj>, s1: map<nat, nat>, xs: seq<HVal>, ys: seq<HVal>)
    requires Extends(h0, s0, h1, s1) && CorrSeq(h0, s0, xs, ys)
    ensures CorrSeq(h1, s1, xs, ys)
  {
    forall j | 0 <= j < |xs| ensures CorrVal(h1, s1, xs[j], ys[j]) {
      CorrValMono(h0, s0, h1, s1, xs[j], ys[j]);
    }
  }

  /** A finished copy stays finished as the heap and the `seen` map grow. */
  lemma CompleteMono(h0: map<nat, HObj>, s0: map<nat, nat>, h1: map<nat, HObj>, s1: map<nat, nat>, a: nat)
    requires Extends(h0, s0, h1, s1) && Complete(h0, s0, a)
    ensures Complete(h1, s1, a)
  {
    CorrSeqMono(h0, s0, h1, s1, Children(h0[a]), Children(h0[s0[a]]));
  }

  /** Two copying steps in a row are one copying step. */
  lemma GrownTrans(h0: map<nat, HObj>, s0: map<nat, nat>, n0: nat, h1: map<nat, HObj>, s1: map<nat, nat>, n1: nat,
                   h2: map<nat, HObj>, s2: map<nat, nat>, n2: nat, limit: nat)
    requires Grown(h0, s0, n0, h1, s1, n1, limit) && Grown(h1, s1, n1, h2, s2, n2, limit)
    ensures Grown(h0, s0, n0, h2, s2, n2, limit)
  {
    forall a | a in s2 && a !in s0 ensures n0 <= s2[a] && Complete(h2, s2, a) {
      if a in s1 {
        CompleteMono(h1, s1, h2, s2, a);
      }
    }
  }

  lemma CorrSeqSnoc(heap: map<nat, HObj>, seen: map<nat, nat>, xs: seq<HVal>, ys: seq<HVal>, i: nat, y: HVal)
    requires i < |xs| && CorrSeq(heap, seen, xs[..i], ys) && CorrVal(heap, seen, xs[i], y)
    ensures CorrSeq(heap, seen, xs[..i + 1], ys + [y])
  {
  }

  /** Storing an object at an address that holds no `Date` and no source
      object keeps every correspondence from source values. */
  lemma CorrSeqStore(heap: map<nat, HObj>, seen: map<nat, nat>, xs: seq<HVal>, ys: seq<HVal>, dst: nat, o: HObj, limit: nat)
    requires CorrSeq(heap, seen, xs, ys) && dst in heap && !heap[dst].HDate? && limit <= dst
    requires forall x :: x in xs ==> SourceVal(heap, limit, x)
    ensures CorrSeq(heap[dst := o], seen, xs, ys)
  {
    forall j | 0 <= j < |xs| ensures CorrVal(heap[dst := o], seen, xs[j], ys[j]) {
      assert xs[j] in xs;
    }
  }

  lemma CompleteStore(heap: map<nat, HObj>, seen: map<nat, nat>, a: nat, dst: nat, o: HObj, limit: nat)
    requires Complete(heap, seen, a) && dst in heap && !heap[dst].HDate? && limit <= dst
    requires a < limit && seen[a] != dst && SourceObj(heap, limit, heap[a])
    ensures Complete(heap[dst := o], seen, a)
  {
    CorrSeqStore(heap, seen, Children(heap[a]), Children(heap[seen[a]]), dst, o, limit);
  }

  /** A property of a plain object that refers back to the object itself is
      copied to a property of the same name that refers to the copy
      (`obj.self = obj` gives `cloned.self === cloned`); a primitive property
      is copied as it is. */
  lemma CycleKept(heap: map<nat, HObj>, seen: map<nat, nat>, a: nat, j: nat)
    requires Complete(heap, seen, a) && heap[a].HPlain? && j < |heap[a].props|
    ensures heap[seen[a]].HPlain? && j < |heap[seen[a]].props|
    ensures heap[seen[a]].props[j].0 == heap[a].props[j].0
    ensures heap[a].props[j].1 == Ref(a) ==> heap[seen[a]].props[j].1 == Ref(seen[a])
    ensures heap[a].props[j].1.Prim? ==> heap[seen[a]].props[j].1 == heap[a].props[j].1
  {
    var ps, qs := heap[a].props, heap[seen[a]].props;
    assert PropNames(qs) == PropNames(ps);
    assert PropNames(qs)[j] == qs[j].0;
    assert CorrVal(heap, seen, PropVals(ps)[j], PropVals(qs)[j]);
  }

  /** Two references to the same non-`Date` source object have the same
      copy. */
  lemma SharedCopy(heap: map<nat, HObj>, seen: map<nat, nat>, x: HVal, y1: HVal, y2: HVal)
    requires x.Ref? && x.addr in heap && !heap[x.addr].HDate?
    requires CorrVal(heap, seen, x, y1) && CorrVal(heap, seen, x, y2)
    ensures y1 == y2 && y1 == Ref(seen[x.addr])
  {
  }

  /** Registering `a`'s copy at the fresh address `n0`, copying what `a`
      holds, then storing the filled copy there is a copying step. */
  lemma ObjectGrown(h0: map<nat, HObj>, s0: map<nat, nat>, n0: nat, h1: map<nat, HObj>, s1: map<nat, nat>,
                    h2: map<nat, HObj>, s2: map<nat, nat>, n2: nat, h3: map<nat, HObj>, a: nat, limit: nat)
    requires limit <= n0 && forall k :: k in h0 ==> k < n0
    requires a in h0 && a < limit && a !in s0
    requires n0 in h1 && h1 == h0[n0 := h1[n0]] && s1 == s0[a := n0]
    requires Grown(h1, s1, n0 + 1, h2, s2, n2, limit)
    requires n0 in h3 && h3 == h2[n0 := h3[n0]]
    requires Complete(h3, s2, a)
    requires forall b :: b in s2 && b != a && Complete(h2, s2, b) ==> Complete(h3, s2, b)
    ensures Grown(h0, s0, n0, h3, s2, n2, limit)
  {
    assert Extends(h0, s0, h3, s2);
    assert UnseenIn(h3, s2, limit) <= UnseenIn(h2, s2, limit);
    assert UnseenIn(h1, s1, limit) <= UnseenIn(h0, s0, limit);
  }

  class Cloner {
    var heap: map<nat, HObj>
    /** The next free address. */
    var next: nat
    /** `seen`: source object → its copy. */
    var seen: map<nat, nat>
    /** The source graph lies below this address. */
    const limit: nat

    ghost predicate Valid()
      reads this
    {
      limit <= next
      && (forall a :: a in heap ==> a < next)
      && (forall a :: a in heap && a < limit ==> SourceObj(heap, limit, heap[a]))
      && (forall a :: a in seen ==> a in heap && a < limit && !heap[a].HDate? && seen[a] in heap && limit <= seen[a])
    }

    ghost function Unseen(): set<nat>
      reads this
    {
      UnseenIn(heap, seen, limit)
    }

    /** A copier over a closed source graph, with an empty `seen` map (the
        default `new WeakMap()`). */
    constructor (source: map<nat, HObj>, limit: nat)
      requires forall a :: a in source ==> a < limit && SourceObj(source, limit, source[a])
      ensures Valid() && heap == source && seen == map[] && this.limit == limit
    {
      heap := source;
      next := limit;
      seen := map[];
      this.limit := limit;
    }

    method Alloc(o: HObj) returns (addr: nat)
      requires Valid()
      modifies this`heap, this`next
      ensures Valid() && addr == old(next) && next == old(next) + 1
      ensures heap == old(heap)[addr := o] && addr !in old(heap)
      ensures Unseen() == old(Unseen())
    {
      addr := next;
      heap := heap[addr := o];
      next := next + 1;
    }

    /** `clone(value, seen)`: a primitive is returned as it is; an object
        already in `seen` gives its registered copy; a `Date` gives a new
        `Date` with the same time, not registered; any other object is
        copied by `CloneObject`. */
    method Clone(v: HVal) returns (c: HVal)
      requires Valid() && SourceVal(heap, limit, v)
      modifies this`heap, this`next, this`seen
      ensures Valid() && Grown(old(heap), old(seen), old(next), heap, seen, next, limit)
      ensures CorrVal(heap, seen, v, c)
      ensures v.Prim? ==> c == v && heap == old(heap) && seen == old(seen)
      ensures v.Ref? && v.addr in old(seen) ==> c == Ref(old(seen)[v.addr]) && heap == old(heap) && seen == old(seen)
      ensures v.Ref? && heap[v.addr].HDate? ==> seen == old(seen) && c.Ref? && c.addr !in old(heap)
      decreases Unseen(), 1
    {
      if v.Prim? {
        return v;
      }
      var a := v.addr;
      if a in seen {
        return Ref(seen[a]);
      }
      if heap[a].HDate? {
        var d := Alloc(HDate(heap[a].time));
        return Ref(d);
      }
      c := CloneObject(a);
    }

    /** A `Map`, `Set`, array or plain object not copied yet: its empty copy
        is registered in `seen` first, so that references back to it inside
        reach the copy; then each thing it holds is copied in order. */
    method CloneObject(a: nat) returns (c: HVal)
      requires Valid() && a in heap && a < limit && a !in seen && !heap[a].HDate?
      modifies this`heap, this`next, this`seen
      ensures Valid() && Grown(old(heap), old(seen), old(next), heap, seen, next, limit)
      ensures a in seen && c == Ref(seen[a])
      decreases Unseen(), 0
    {
      var o := heap[a];
      ghost var h0, s0, n0 := heap, seen, next;
      var dst := Register(a, Build(o, seq(|Children(o)|, _ => Prim(Undefined))));
      ghost var h1, s1, n1 := heap, seen, next;
      var ys := CloneEach(Children(o));
      ghost var h2, s2, n2 := heap, seen, next;
      Store(a, dst, Build(o, ys));
      ObjectGrown(h0, s0, n0, h1, s1, h2, s2, n2, heap, a, limit);
      c := Ref(dst);
    }

    /** `cloned = new …(); seen.set(value, cloned)`. */
    method Register(a: nat, placeholder: HObj) returns (dst: nat)
      requires Valid() && a in heap && a < limit && a !in seen && !heap[a].HDate? && !placeholder.HDate?
      modifies this`heap, this`next, this`seen
      ensures Valid() && dst == old(next) && next == old(next) + 1
      ensures heap == old(heap)[dst := placeholder] && seen == old(seen)[a := dst]
      ensures Unseen() == old(Unseen()) - {a} && a in old(Unseen())
    {
      dst := Alloc(placeholder);
      seen := seen[a := dst];
    }

    /** The filled copy of `a` takes the place of its empty one. */
    method Store(a: nat, dst: nat, copy: HObj)
      requires Valid() && a in heap && a < limit && a in seen && seen[a] == dst && dst in heap && !heap[dst].HDate?
      requires ShapeOf(copy) == ShapeOf(heap[a]) && CorrSeq(heap, seen, Children(heap[a]), Children(copy))
      requires forall b :: b in seen && b != a ==> seen[b] != dst
      modifies this`heap
      ensures Valid() && heap == old(heap)[dst := copy]
      ensures Complete(heap, seen, a)
      ensures forall b :: b in seen && b != a && Complete(old(heap), seen, b) ==> Complete(heap, seen, b)
      ensures Unseen() == old(Unseen())
    {
      ghost var h := heap;
      heap := heap[dst := copy];
      forall b | b in seen && b != a && Complete(h, seen, b) ensures Complete(heap, seen, b) {
        CompleteStore(h, seen, b, dst, copy, limit);
      }
      CorrSeqStore(h, seen, Children(h[a]), Children(copy), dst, copy, limit);
    }

    /** The loop over a `Map`'s entries (key, then value), a `Set`'s values,
        an array's items or an object's own properties: each copied in turn. */
    method CloneEach(xs: seq<HVal>) returns (ys: seq<HVal>)
      requires Valid() && forall x :: x in xs ==> SourceVal(heap, limit, x)
      modifies this`heap, this`next, this`seen
      ensures Valid() && Grown(old(heap), old(seen), old(next), heap, seen, next, limit)
      ensures CorrSeq(heap, seen, xs, ys)
      decreases Unseen(), 3
    {
      ys := [];
      var i := 0;
      while i < |xs|
        invariant i <= |xs|
        invariant Valid() && Grown(old(heap), old(seen), old(next), heap, seen, next, limit)
        invariant CorrSeq(heap, seen, xs[..i], ys)
        invariant forall x :: x in xs ==> SourceVal(heap, limit, x)
      {
        assert xs[i] in xs;
        ghost var h1, s1, n1 := heap, seen, next;
        ys := CloneStep(xs, i, ys);
        GrownTrans(old(heap), old(seen), old(next), h1, s1, n1, heap, seen, next, limit);
        i := i + 1;
      }
      assert xs[..i] == xs;
    }

    /** One pass of `CloneEach`'s loop. */
    method CloneStep(xs: seq<HVal>, i: nat, ys: seq<HVal>) returns (ys': seq<HVal>)
      requires Valid() && i < |xs| && SourceVal(heap, limit, xs[i]) && CorrSeq(heap, seen, xs[..i], ys)
      modifies this`heap, this`next, this`seen
      ensures Valid() && Grown(old(heap), old(seen), old(next), heap, seen, next, limit)
      ensures CorrSeq(heap, seen, xs[..i + 1], ys')
      decreases Unseen(), 2
    {
      ghost var h0, s0 := heap, seen;
      var y := Clone(xs[i]);
      CorrSeqMono(h0, s0, heap, seen, xs[..i], ys);
      CorrSeqSnoc(heap, seen, xs, ys, i, y);
      ys' := ys + [y];
    }
  }
}
