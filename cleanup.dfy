/** The registry of persisted keys of core/src/functions/cleanup.ts: every key
    the library writes to `localStorage` is recorded in one registry entry, so
    that the keys can later be listed, measured and removed.

    `localStorage` is a string map. The registry entry (under
    `ESTATE_KEYS_STORAGE_KEY`) is held apart from the other items, in its
    parsed form. `hasWindow` is `typeof window !== "undefined"`; without a
    window every operation does nothing. */
module Cleanup {
  import opened Values

  /** The registry entry: missing (or empty text), text that does not parse,
      or the recorded list of keys. */
  datatype RegistryEntry = Absent | Unparsable | Recorded(keys: seq<string>)

  /** What `getStorageInfo` returns. */
  datatype StorageInfo = StorageInfo(keys: seq<string>, totalSize: nat, keyCount: nat)

  /** The recorded keys after `addStoredKey(key)` when a rewrite happens. */
  function Added(keys: seq<string>, key: string): (r: seq<string>)
    ensures key in r
    ensures forall k :: k in r <==> k in keys || k == key
    ensures key in keys ==> r == keys
    ensures Distinct(keys) ==> Distinct(r)
  {
    if key in keys then keys else keys + [key]
  }

  /** `keys.filter(k => !gone.includes(k))`: the keys not in `gone`, in order. */
  function Drop(keys: seq<string>, gone: seq<string>): (r: seq<string>)
    ensures forall k :: k in r <==> k in keys && k !in gone
    ensures |r| <= |keys|
    decreases |keys|
  {
    if keys == [] then []
    else
      var n := |keys| - 1;
      assert keys == keys[..n] + [keys[n]];
      if keys[n] in gone then Drop(keys[..n], gone) else Drop(keys[..n], gone) + [keys[n]]
  }

  /** `Drop` keeps every key not in `gone` as often as it occurs, and no other. */
  lemma {:induction false} DropCounts(keys: seq<string>, gone: seq<string>)
    ensures forall k :: multiset(Drop(keys, gone))[k] == if k in gone then 0 else multiset(keys)[k]
    decreases |keys|
  {
    if keys != [] {
      var n := |keys| - 1;
      assert keys == keys[..n] + [keys[n]];
      DropCounts(keys[..n], gone);
    }
  }

  /** `Drop` keeps order: the kept keys of a prefix come before those of the rest. */
  lemma {:induction false} DropConcat(a: seq<string>, b: seq<string>, gone: seq<string>)
    ensures Drop(a + b, gone) == Drop(a, gone) + Drop(b, gone)
    decreases |b|
  {
    if b == [] {
      assert a + b == a;
    } else {
      var n := |b| - 1;
      assert (a + b)[..|a + b| - 1] == a + b[..n];
      assert (a + b)[|a + b| - 1] == b[n];
      DropConcat(a, b[..n], gone);
    }
  }

  /** Removing one key after a set of them is removing both. */
  lemma {:induction false} DropWithout(keys: seq<string>, gone: seq<string>, x: string)
    ensures Without(Drop(keys, gone), x) == Drop(keys, gone + [x])
    decreases |keys|
  {
    if keys != [] {
      var n := |keys| - 1;
      DropWithout(keys[..n], gone, x);
      if keys[n] !in gone {
        var d := Drop(keys[..n], gone);
        assert (d + [keys[n]])[..|d|] == d;
      }
    }
  }

  /** `filter(k => k !== x)` is dropping the one key `x`. */
  lemma {:induction false} WithoutIsDrop(keys: seq<string>, x: string)
    ensures Without(keys, x) == Drop(keys, [x])
    decreases |keys|
  {
    if keys != [] {
      WithoutIsDrop(keys[..|keys| - 1], x);
    }
  }

  lemma {:induction false} DropDistinct(keys: seq<string>, gone: seq<string>)
    requires Distinct(keys)
    ensures Distinct(Drop(keys, gone))
    decreases |keys|
  {
    if keys != [] {
      var n := |keys| - 1;
      DropDistinct(keys[..n], gone);
      assert keys[n] !in keys[..n];
    }
  }

  /** Dropping nothing keeps every key. */
  lemma {:induction false} DropNothing(keys: seq<string>)
    ensures Drop(keys, []) == keys
    decreases |keys|
  {
    if keys != [] {
      DropNothing(keys[..|keys| - 1]);
      assert keys == keys[..|keys| - 1] + [keys[|keys| - 1]];
    }
  }

  /** The keys of `keys` that are in `active`, in order. */
  function Kept(keys: seq<string>, active: seq<string>): (r: seq<string>)
    ensures forall k :: k in r <==> k in keys && k in active
    decreases |keys|
  {
    if keys == [] then []
    else
      var n := |keys| - 1;
      assert keys == keys[..n] + [keys[n]];
      if keys[n] in active then Kept(keys[..n], active) + [keys[n]] else Kept(keys[..n], active)
  }

  /** `Kept` keeps every active key as often as it occurs, and no other. */
  lemma {:induction false} KeptCounts(keys: seq<string>, active: seq<string>)
    ensures forall k :: multiset(Kept(keys, active))[k] == if k in active then multiset(keys)[k] else 0
    decreases |keys|
  {
    if keys != [] {
      var n := |keys| - 1;
      assert keys == keys[..n] + [keys[n]];
      KeptCounts(keys[..n], active);
    }
  }

  /** `Kept` keeps order: the kept keys of a prefix come before those of the rest. */
  lemma {:induction false} KeptConcat(a: seq<string>, b: seq<string>, active: seq<string>)
    ensures Kept(a + b, active) == Kept(a, active) + Kept(b, active)
    decreases |b|
  {
    if b == [] {
      assert a + b == a;
    } else {
      var n := |b| - 1;
      assert (a + b)[..|a + b| - 1] == a + b[..n];
      assert (a + b)[|a + b| - 1] == b[n];
      KeptConcat(a, b[..n], active);
    }
  }

  /** Dropping the unused keys (`storedKeys.filter(key => !activeKeys.includes(key))`,
      which is `Drop(keys, active)`) keeps exactly the active ones, in order. */
  lemma {:induction false} DropUnused(keys: seq<string>, active: seq<string>)
    ensures Drop(keys, Drop(keys, active)) == Kept(keys, active)
    decreases |keys|
  {
    if keys != [] {
      var n := |keys| - 1;
      var init := keys[..n];
      DropUnused(init, active);
      DropSame(init, Drop(init, active), Drop(keys, active));
    }
  }

  /** Only the members of `gone` that occur in `keys` matter to `Drop`. */
  lemma {:induction false} DropSame(keys: seq<string>, g1: seq<string>, g2: seq<string>)
    requires forall k :: k in keys ==> (k in g1 <==> k in g2)
    ensures Drop(keys, g1) == Drop(keys, g2)
    decreases |keys|
  {
    if keys != [] {
      DropSame(keys[..|keys| - 1], g1, g2);
    }
  }

  /** The prefixed and the legacy entry of every slice key, in the order
      `clearSliceFromStorage` removes them. */
  function SliceEntries(prefix: string, sliceKeys: seq<string>): (r: seq<string>)
    ensures |r| == 2 * |sliceKeys|
    decreases |sliceKeys|
  {
    if sliceKeys == [] then []
    else
      var n := |sliceKeys| - 1;
      SliceEntries(prefix, sliceKeys[..n]) + [prefix + sliceKeys[n], sliceKeys[n]]
  }

  /** Both entries of every slice key are listed, and nothing else. */
  lemma {:induction false} SliceEntriesMembers(prefix: string, sliceKeys: seq<string>)
    ensures forall k :: k in sliceKeys ==> prefix + k in SliceEntries(prefix, sliceKeys) && k in SliceEntries(prefix, sliceKeys)
    ensures forall x :: x in SliceEntries(prefix, sliceKeys) ==> x in sliceKeys || exists k :: k in sliceKeys && x == prefix + k
    decreases |sliceKeys|
  {
    if sliceKeys != [] {
      var n := |sliceKeys| - 1;
      SliceEntriesMembers(prefix, sliceKeys[..n]);
      assert sliceKeys == sliceKeys[..n] + [sliceKeys[n]];
      forall x | x in SliceEntries(prefix, sliceKeys)
        ensures x in sliceKeys || exists k :: k in sliceKeys && x == prefix + k
      {
        if x in SliceEntries(prefix, sliceKeys[..n]) {
          if x !in sliceKeys[..n] {
            var k :| k in sliceKeys[..n] && x == prefix + k;
            assert k in sliceKeys;
          }
        }
      }
    }
  }

  lemma SliceEntriesSnoc(prefix: string, sliceKeys: seq<string>, i: nat)
    requires i < |sliceKeys|
    ensures SliceEntries(prefix, sliceKeys[..i + 1]) == SliceEntries(prefix, sliceKeys[..i]) + [prefix + sliceKeys[i], sliceKeys[i]]
    ensures Members(SliceEntries(prefix, sliceKeys[..i + 1])) == Members(SliceEntries(prefix, sliceKeys[..i])) + {prefix + sliceKeys[i], sliceKeys[i]}
  {
    assert sliceKeys[..i + 1][..i] == sliceKeys[..i];
  }

  lemma PrefixSnoc(s: seq<string>, i: nat)
    requires i < |s|
    ensures s[..i + 1] == s[..i] + [s[i]]
    ensures Members(s[..i + 1]) == Members(s[..i]) + {s[i]}
  {
    assert s[..i + 1] == s[..i] + [s[i]];
  }

  /** Removing two sets of keys from a map one after the other. */
  lemma MapMinus(m: map<string, string>, a: set<string>, b: set<string>)
    ensures m - a - b == m - (a + b)
  {
  }

  /** The set of members of a list. */
  function Members(s: seq<string>): (r: set<string>)
    ensures forall k :: k in r <==> k in s
  {
    set k | k in s
  }

  /** The UTF-16 code units of one character: a character beyond the Basic
      Multilingual Plane is a surrogate pair. */
  function CodeUnits(c: char): (n: nat)
    ensures n == 1 || n == 2
    ensures n == 2 <==> c as int >= 0x10000
  {
    if c as int >= 0x10000 then 2 else 1
  }

  /** `s.length`: the number of UTF-16 code units of `s`. */
  function Utf16Length(s: string): (n: nat)
    ensures |s| <= n <= 2 * |s|
    decreases |s|
  {
    if s == [] then 0 else Utf16Length(s[..|s| - 1]) + CodeUnits(s[|s| - 1])
  }

  /** The code units of a concatenation are those of its parts. */
  lemma {:induction false} Utf16LengthConcat(a: string, b: string)
    ensures Utf16Length(a + b) == Utf16Length(a) + Utf16Length(b)
    decreases |b|
  {
    if b == [] {
      assert a + b == a;
    } else {
      var n := |b| - 1;
      assert (a + b)[..|a + b| - 1] == a + b[..n];
      assert (a + b)[|a + b| - 1] == b[n];
      Utf16LengthConcat(a, b[..n]);
    }
  }

  /** `.length` counts characters exactly when no character needs a
      surrogate pair. */
  lemma {:induction false} Utf16LengthBmp(s: string)
    ensures Utf16Length(s) == |s| <==> forall i :: 0 <= i < |s| ==> s[i] as int < 0x10000
    decreases |s|
  {
    if s != [] {
      var n := |s| - 1;
      Utf16LengthBmp(s[..n]);
      assert forall i :: 0 <= i < n ==> s[..n][i] == s[i];
    }
  }

  /** An emoji is one character but two code units. */
  lemma SurrogatePairCountsTwo()
    ensures Utf16Length("\U{1F600}") == 2 && |"\U{1F600}"| == 1
  {
    assert "\U{1F600}"[..0] == "";
  }

  /** `totalSize`: `key.length + value.length`, in UTF-16 code units, summed
      over the keys whose stored value is a non-empty string. */
  function TotalSize(items: map<string, string>, keys: seq<string>): nat
    decreases |keys|
  {
    if keys == [] then 0
    else
      var n := |keys| - 1;
      var k := keys[n];
      TotalSize(items, keys[..n]) + (if k in items && items[k] != "" then Utf16Length(k) + Utf16Length(items[k]) else 0)
  }

  /** The total is zero exactly when no listed key holds a non-empty value. */
  lemma {:induction false} TotalSizeZero(items: map<string, string>, keys: seq<string>)
    ensures TotalSize(items, keys) == 0 <==> forall k :: k in keys && k in items ==> items[k] == ""
    decreases |keys|
  {
    if keys != [] {
      var n := |keys| - 1;
      TotalSizeZero(items, keys[..n]);
      assert keys == keys[..n] + [keys[n]];
    }
  }

  /** Every listed key with a non-empty value adds at least its own size. */
  lemma {:induction false} TotalSizeCovers(items: map<string, string>, keys: seq<string>, i: nat)
    requires i < |keys| && keys[i] in items && items[keys[i]] != ""
    ensures TotalSize(items, keys) >= Utf16Length(keys[i]) + Utf16Length(items[keys[i]])
    decreases |keys|
  {
    var n := |keys| - 1;
    if i < n {
      TotalSizeCovers(items, keys[..n], i);
    }
  }

  class BrowserStorage {
    /** `typeof window !== "undefined"`. */
    const hasWindow: bool
    /** `STORAGE_PREFIX`. */
    const prefix: string
    /** The items of `localStorage` other than the registry entry. */
    var items: map<string, string>
    /** The registry entry. */
    var registry: RegistryEntry

    constructor (hasWindow: bool, prefix: string, items: map<string, string>, registry: RegistryEntry)
      ensures this.hasWindow == hasWindow && this.prefix == prefix
      ensures this.items == items && this.registry == registry
    {
      this.hasWindow := hasWindow;
      this.prefix := prefix;
      this.items := items;
      this.registry := registry;
    }

    /** `getStoredKeys()`: the recorded list, or `[]` when there is no window,
        no registry or one that does not parse. */
    function StoredKeys(): (r: seq<string>)
      reads this
      ensures hasWindow && registry.Recorded? ==> r == registry.keys
      ensures !hasWindow || !registry.Recorded? ==> r == []
    {
      if hasWindow && registry.Recorded? then registry.keys else []
    }

    /** `addStoredKey(key)`: the key is appended when it is not recorded yet;
        a key already recorded leaves the registry as it was. */
    method AddStoredKey(key: string)
      modifies this`registry
      ensures hasWindow ==> key in StoredKeys()
      ensures hasWindow && key !in old(StoredKeys()) ==> registry == Recorded(Added(old(StoredKeys()), key))
      ensures !hasWindow || key in old(StoredKeys()) ==> registry == old(registry)
      ensures Distinct(old(StoredKeys())) ==> Distinct(StoredKeys())
    {
      if !hasWindow {
        return;
      }
      var current := StoredKeys();
      if key !in current {
        registry := Recorded(current + [key]);
      }
    }

    /** `removeStoredKey(key)`: the registry is rewritten without the key,
        even when the key was not recorded. */
    method RemoveStoredKey(key: string)
      modifies this`registry
      ensures hasWindow ==> registry == Recorded(Without(old(StoredKeys()), key))
      ensures !hasWindow ==> registry == old(registry)
      ensures key !in StoredKeys()
      ensures Distinct(old(StoredKeys())) ==> Distinct(StoredKeys())
    {
      if !hasWindow {
        return;
      }
      var current := StoredKeys();
      registry := Recorded(Without(current, key));
      if Distinct(current) {
        WithoutDistinct(current, key);
      }
    }

    /** `clearSliceFromStorage(slice, sliceKeys)`: for each slice key, its
        prefixed and its legacy entry are removed from storage and from the
        registry. */
    method ClearSliceFromStorage(sliceKeys: seq<string>)
      modifies this`items, this`registry
      ensures !hasWindow ==> items == old(items) && registry == old(registry)
      ensures hasWindow ==> items == old(items) - Members(SliceEntries(prefix, sliceKeys))
      ensures hasWindow && sliceKeys != [] ==>
        registry == Recorded(Drop(old(StoredKeys()), SliceEntries(prefix, sliceKeys)))
      ensures sliceKeys == [] ==> registry == old(registry)
    {
      if !hasWindow {
        return;
      }
      ghost var start := StoredKeys();
      var i := 0;
      while i < |sliceKeys|
        invariant i <= |sliceKeys|
        invariant items == old(items) - Members(SliceEntries(prefix, sliceKeys[..i]))
        invariant i > 0 ==> registry == Recorded(Drop(start, SliceEntries(prefix, sliceKeys[..i])))
        invariant i == 0 ==> registry == old(registry)
      {
        if i == 0 {
          DropNothing(start);
        }
        ghost var gone := Members(SliceEntries(prefix, sliceKeys[..i]));
        var both := {prefix + sliceKeys[i], sliceKeys[i]};
        items := items - both;
        MapMinus(old(items), gone, both);
        Forget(prefix + sliceKeys[i], start, SliceEntries(prefix, sliceKeys[..i]));
        Forget(sliceKeys[i], start, SliceEntries(prefix, sliceKeys[..i]) + [prefix + sliceKeys[i]]);
        SliceEntriesSnoc(prefix, sliceKeys, i);
        assert SliceEntries(prefix, sliceKeys[..i]) + [prefix + sliceKeys[i]] + [sliceKeys[i]]
            == SliceEntries(prefix, sliceKeys[..i + 1]);
        i := i + 1;
      }
      assert sliceKeys[..i] == sliceKeys;
    }

    /** `removeStoredKey(key)` as one step of a loop that has removed the
        records of `gone` from the list `start`. */
    method Forget(key: string, ghost start: seq<string>, ghost gone: seq<string>)
      requires hasWindow && StoredKeys() == Drop(start, gone)
      modifies this`registry
      ensures registry == Recorded(Drop(start, gone + [key]))
    {
      RemoveStoredKey(key);
      DropWithout(start, gone, key);
    }

    /** `clearAllStoredKeys()`: every recorded key is removed from storage,
        and then the registry entry itself. */
    method ClearAllStoredKeys()
      modifies this`items, this`registry
      ensures !hasWindow ==> items == old(items) && registry == old(registry)
      ensures hasWindow ==> items == old(items) - Members(old(StoredKeys())) && registry == Absent
    {
      if !hasWindow {
        return;
      }
      var keys := StoredKeys();
      var i := 0;
      while i < |keys|
        invariant i <= |keys|
        invariant items == old(items) - Members(keys[..i])
      {
        assert Members(keys[..i + 1]) == Members(keys[..i]) + {keys[i]} by {
          assert keys[..i + 1] == keys[..i] + [keys[i]];
        }
        items := items - {keys[i]};
        i := i + 1;
      }
      assert keys[..i] == keys;
      registry := Absent;
    }

    /** `getStorageInfo()`: the recorded keys, their number, and the total
        size of the keys with a non-empty stored value. */
    method GetStorageInfo() returns (info: StorageInfo)
      ensures info.keys == StoredKeys()
      ensures info.keyCount == |StoredKeys()|
      ensures info.totalSize == TotalSize(items, StoredKeys())
    {
      if !hasWindow {
        return StorageInfo([], 0, 0);
      }
      var keys := StoredKeys();
      var totalSize := 0;
      var i := 0;
      while i < |keys|
        invariant i <= |keys|
        invariant totalSize == TotalSize(items, keys[..i])
      {
        var key := keys[i];
        assert keys[..i + 1][..i] == keys[..i];
        if key in items && items[key] != "" {
          totalSize := totalSize + Utf16Length(key) + Utf16Length(items[key]);
        }
        i := i + 1;
      }
      assert keys[..i] == keys;
      info := StorageInfo(keys, totalSize, |keys|);
    }

    /** `cleanupUnusedKeys(activeKeys)`: every recorded key not among the
        active ones is removed from storage and from the registry; the
        registry keeps exactly the recorded active keys, in order. */
    method CleanupUnusedKeys(activeKeys: seq<string>)
      modifies this`items, this`registry
      ensures !hasWindow ==> items == old(items) && registry == old(registry)
      ensures hasWindow ==> items == old(items) - Members(Drop(old(StoredKeys()), activeKeys))
      ensures hasWindow && Drop(old(StoredKeys()), activeKeys) != [] ==>
        registry == Recorded(Kept(old(StoredKeys()), activeKeys))
      ensures Drop(old(StoredKeys()), activeKeys) == [] ==> registry == old(registry)
      ensures forall k :: k in activeKeys && k in old(items) ==> k in items && items[k] == old(items)[k]
    {
      if !hasWindow {
        return;
      }
      var stored := StoredKeys();
      var unused := Drop(stored, activeKeys);
      RemoveEach(unused, stored);
      if unused != [] {
        DropUnused(stored, activeKeys);
      }
    }

    /** `keys.forEach(key => { localStorage.removeItem(key); removeStoredKey(key); })`. */
    method RemoveEach(keys: seq<string>, ghost start: seq<string>)
      requires hasWindow && StoredKeys() == start
      modifies this`items, this`registry
      ensures items == old(items) - Members(keys)
      ensures keys != [] ==> registry == Recorded(Drop(start, keys))
      ensures keys == [] ==> registry == old(registry)
    {
      var i := 0;
      while i < |keys|
        invariant i <= |keys|
        invariant items == old(items) - Members(keys[..i])
        invariant i > 0 ==> registry == Recorded(Drop(start, keys[..i]))
        invariant i == 0 ==> registry == old(registry)
      {
        if i == 0 {
          DropNothing(start);
        }
        var key := keys[i];
        items := items - {key};
        MapMinus(old(items), Members(keys[..i]), {key});
        Forget(key, start, keys[..i]);
        PrefixSnoc(keys, i);
        i := i + 1;
      }
      assert keys[..i] == keys;
    }
  }
}
