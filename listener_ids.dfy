/** Listener ids of the global store: `[slice, key, id].join("###")`, and the
    `id.split("###")` test that `getListeners` uses to find the listeners of
    one (slice, key). */
module ListenerIds {
  import opened Values

  const Sep: string := "###"

  /** `[slice, key, id].join("###")`. */
  function Join(slice: string, key: string, id: string): string
  {
    slice + Sep + key + Sep + id
  }

  predicate SepAt(s: string, i: int)
  {
    0 <= i && i + 3 <= |s| && s[i..i + 3] == Sep
  }

  /** The position of the leftmost `"###"` in `s` at or after `from`. */
  function IndexOfSepFrom(s: string, from: nat): (r: Option<nat>)
    ensures r.Some? ==> from <= r.value && SepAt(s, r.value) && forall j :: from <= j < r.value ==> !SepAt(s, j)
    ensures r.None? ==> forall j :: from <= j ==> !SepAt(s, j)
    decreases |s| - from
  {
    if from + 3 > |s| then None
    else if s[from..from + 3] == Sep then Some(from)
    else IndexOfSepFrom(s, from + 1)
  }

  /** The position of the leftmost `"###"` in `s`, as `String.indexOf` finds it. */
  function IndexOfSep(s: string): (r: Option<nat>)
    ensures r.Some? ==> SepAt(s, r.value) && forall j :: 0 <= j < r.value ==> !SepAt(s, j)
    ensures r.None? ==> forall j :: !SepAt(s, j)
  {
    IndexOfSepFrom(s, 0)
  }

  /** `s.split("###")`: the pieces between non-overlapping separators,
      scanning from the left. */
  function Split(s: string): (r: seq<string>)
    ensures |r| >= 1
    decreases |s|
  {
    match IndexOfSep(s)
    case None => [s]
    case Some(i) => [s[..i]] + Split(s[i + 3..])
  }

  /** The filter of `getListeners`: `path[0] === slice && path[1] === key`. */
  predicate Matches(id: string, slice: string, key: string)
  {
    var path := Split(id);
    |path| >= 2 && path[0] == slice && path[1] == key
  }

  predicate NoHash(s: string)
  {
    forall i :: 0 <= i < |s| ==> s[i] != '#'
  }

  /** The first separator after a piece without `#` is the one that follows it. */
  lemma {:induction false} SepAfterPlain(a: string, rest: string)
    requires NoHash(a)
    ensures IndexOfSep(a + Sep + rest) == Some(|a|)
    ensures (a + Sep + rest)[..|a|] == a && (a + Sep + rest)[|a| + 3..] == rest
  {
    var s := a + Sep + rest;
    assert s[|a|..|a| + 3] == Sep;
    assert SepAt(s, |a|);
    forall j | 0 <= j < |a| ensures !SepAt(s, j) {
      assert s[j] == a[j];
      if j + 3 <= |s| {
        assert s[j..j + 3][0] == s[j];
      }
    }
  }

  /** Splitting a joined id gives back the slice and the key when neither
      contains `#`. */
  lemma {:induction false} SplitJoin(slice: string, key: string, id: string)
    requires NoHash(slice) && NoHash(key)
    ensures Split(Join(slice, key, id)) == [slice, key] + Split(id)
  {
    var s := Join(slice, key, id);
    assert s == slice + Sep + (key + Sep + id);
    SepAfterPlain(slice, key + Sep + id);
    SepAfterPlain(key, id);
  }

  /** An id registered for (slice, key) is found by exactly that (slice, key)
      — provided neither contains `#`. */
  lemma MatchesJoin(slice: string, key: string, id: string, slice': string, key': string)
    requires NoHash(slice) && NoHash(key)
    ensures Matches(Join(slice, key, id), slice', key') <==> slice' == slice && key' == key
  {
    SplitJoin(slice, key, id);
  }

  /** A key containing `"###"` is misrouted: the listener registered for key
      `"k###x"` of slice `"s"` is found for key `"k"` and not for its own key. */
  lemma SeparatorInKeyMisroutes()
    ensures Matches(Join("s", "k###x", "i"), "s", "k")
    ensures !Matches(Join("s", "k###x", "i"), "s", "k###x")
  {
    var id := Join("s", "k###x", "i");
    assert id == "s" + Sep + ("k" + Sep + "x###i");
    SepAfterPlain("s", "k" + Sep + "x###i");
    assert "k###x###i" == "k" + Sep + "x###i";
    SepAfterPlain("k", "x###i");
    assert Split(id)[..2] == ["s", "k"];
  }
}
