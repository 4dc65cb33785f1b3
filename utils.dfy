/** The small helpers of `core/src/functions/utils.ts`: own-key listing and
    random listener ids. (`clone`, `replacer` and `reviver` live in their own
    modules.) */
module Utils {
  import opened Values
  import Cleanup

  /** Decimal text of a natural number, as `String(n)` writes it. */
  function NatToString(n: nat): (r: string)
    ensures |r| >= 1
    ensures forall i :: 0 <= i < |r| ==> '0' <= r[i] <= '9'
    decreases n
  {
    if n < 10 then [Digit(n)] else NatToString(n / 10) + [Digit(n % 10)]
  }

  function Digit(d: nat): (c: char)
    requires d < 10
    ensures '0' <= c <= '9'
  {
    ['0', '1', '2', '3', '4', '5', '6', '7', '8', '9'][d]
  }

  /** The index property names `"0"`, `"1"`, … of an array-like of length `n`. */
  function IndexNames(n: nat): (r: seq<string>)
    ensures |r| == n
    ensures forall i :: 0 <= i < n ==> r[i] == NatToString(i)
  {
    if n == 0 then [] else IndexNames(n - 1) + [NatToString(n - 1)]
  }

  /** `getObjectKeys(obj)`: `Object.keys(obj)` for a truthy argument and the
      empty list for a falsy one (`null`, `undefined`, `0`, `""`, `false`).
      Property names of a plain object are listed in their stored order; a
      string has one index per UTF-16 code unit, as its `.length` counts. */
  function ObjectKeys(v: Value): (r: seq<string>)
  {
    if !Truthy(v) then []
    else match v
      case Obj(props) => seq(|props|, i requires 0 <= i < |props| => props[i].0)
      case Arr(items) => IndexNames(|items|)
      case Str(s) => IndexNames(Cleanup.Utf16Length(s))
      case _ => []
  }

  /** A character beyond the Basic Multilingual Plane is two UTF-16 code
      units, so a one-character emoji string has the indices "0" and "1". */
  lemma SurrogatePairKeys()
    ensures ObjectKeys(Str("\U{1F600}")) == ["0", "1"]
  {
    Cleanup.SurrogatePairCountsTwo();
  }

  /** What `getObjectKeys` promises: nothing for `null`/`undefined`, and for a
      plain object exactly its property names, in order. */
  lemma ObjectKeysSpec(v: Value)
    ensures v.Null? || v.Undefined? ==> ObjectKeys(v) == []
    ensures v.Obj? ==> |ObjectKeys(v)| == |v.props|
    ensures v.Obj? ==> forall name :: name in ObjectKeys(v) <==> Lookup(v.props, name).Some?
    ensures v.Arr? ==> ObjectKeys(v) == IndexNames(|v.items|)
    ensures v.Str? ==> ObjectKeys(v) == IndexNames(Cleanup.Utf16Length(v.s))
  {
    if v.Obj? {
      var r := ObjectKeys(v);
      forall name ensures name in r <==> Lookup(v.props, name).Some? {
        if name in r {
          var i :| 0 <= i < |r| && r[i] == name;
          assert v.props[i].0 == name;
        }
        if Lookup(v.props, name).Some? {
          var i :| 0 <= i < |v.props| && v.props[i].0 == name;
          assert r[i] == name;
        }
      }
    }
  }

  /** The characters `generateRandomID` draws from, in its order: `A`–`Z`,
      then `a`–`z`, then `0`–`9`. */
  const Alphabet: string := Span('A', 26) + Span('a', 26) + Span('0', 10)

  predicate IsAsciiAlphanumeric(c: char)
  {
    ('A' <= c <= 'Z') || ('a' <= c <= 'z') || ('0' <= c <= '9')
  }

  /** `n` consecutive characters starting at `first`. */
  function Span(first: char, n: nat): (r: string)
    requires first as int + n <= 0xD800
    ensures |r| == n
    ensures forall i :: 0 <= i < n ==> r[i] as int == first as int + i
  {
    seq(n, i requires 0 <= i < n => (first as int + i) as char)
  }

  /** The alphabet is exactly the ASCII letters and digits. */
  lemma AlphabetIsAlphanumeric()
    ensures |Alphabet| == 62
    ensures forall c :: c in Alphabet <==> IsAsciiAlphanumeric(c)
  {
    forall c | IsAsciiAlphanumeric(c) ensures c in Alphabet {
      if 'A' <= c <= 'Z' {
        assert Alphabet[c as int - 'A' as int] == c;
      } else if 'a' <= c <= 'z' {
        assert Alphabet[26 + (c as int - 'a' as int)] == c;
      } else {
        assert Alphabet[52 + (c as int - '0' as int)] == c;
      }
    }
  }

  /** `generateRandomID(length)`: `length` characters, each drawn from
      `Alphabet`. `Math.random` is replaced by an arbitrary choice of index. */
  method GenerateRandomID(length: nat) returns (id: string)
    ensures |id| == length
    ensures forall i :: 0 <= i < |id| ==> IsAsciiAlphanumeric(id[i])
  {
    AlphabetIsAlphanumeric();
    id := "";
    var i := 0;
    while i < length
      invariant 0 <= i <= length
      invariant |id| == i
      invariant forall j :: 0 <= j < |id| ==> id[j] in Alphabet
    {
      var randomIndex :| 0 <= randomIndex < |Alphabet|;
      id := id + [Alphabet[randomIndex]];
      i := i + 1;
    }
  }
}
