/** The order in which `Object.keys` lists the own properties of a plain object
    (OrdinaryOwnPropertyKeys, section 10.1.11.1 of ECMA-262): first the keys
    that are array indices, in ascending numeric order, then the other string
    keys in the order they were first added. The model keeps a plain object as
    its keys in insertion order; this module computes the enumeration order. */
module PropertyOrder {
  import opened JsString
  import opened Seqs

  /** An array index: the canonical decimal form of an integer below 2^32 - 1. */
  predicate IsArrayIndex(k: string) {
    IsCanonicalDecimal(k) && DecimalValue(k) < 0xFFFF_FFFF
  }

  predicate IsNamedKey(k: string) {
    !IsArrayIndex(k)
  }

  /** Two array-index keys with the same numeric value are the same key. */
  lemma IndexValueInjective(a: string, b: string)
    requires IsArrayIndex(a) && IsArrayIndex(b)
    requires IndexKey(a) == IndexKey(b)
    ensures a == b
  {
    CanonicalDecimalRoundTrip(a);
    CanonicalDecimalRoundTrip(b);
  }

  /** The numeric value of an array-index key; 0 for any other key. */
  function IndexKey(k: string): nat {
    if IsArrayIndex(k) then DecimalValue(k) else 0
  }

  ghost predicate SortedBy<T>(s: seq<T>, key: T -> nat) {
    forall i, j :: 0 <= i < j < |s| ==> key(s[i]) <= key(s[j])
  }

  function InsertBy<T>(x: T, s: seq<T>, key: T -> nat): (r: seq<T>)
    requires SortedBy(s, key)
    ensures SortedBy(r, key)
    ensures multiset(r) == multiset(s) + multiset{x}
    ensures forall y :: y in r ==> y == x || y in s
  {
    if s == [] then [x]
    else if key(x) <= key(s[0]) then
      assert forall j :: 0 <= j < |s| ==> key(s[0]) <= key(s[j]);
      [x] + s
    else
      var rest := InsertBy(x, s[1..], key);
      assert s == [s[0]] + s[1..];
      HeadBelow(s, x, rest, key);
      [s[0]] + rest
  }

  /** The head of a sorted list goes before the rest with a larger element
      inserted. */
  lemma HeadBelow<T>(s: seq<T>, x: T, rest: seq<T>, key: T -> nat)
    requires s != [] && SortedBy(s, key) && key(s[0]) < key(x)
    requires SortedBy(rest, key)
    requires forall y :: y in rest ==> y == x || y in s[1..]
    ensures SortedBy([s[0]] + rest, key)
  {
    forall j | 0 <= j < |rest| ensures key(s[0]) <= key(rest[j]) {
      assert rest[j] in rest;
      if rest[j] != x {
        var k :| 0 <= k < |s[1..]| && s[1..][k] == rest[j];
        assert s[k + 1] == rest[j];
      }
    }
    var r := [s[0]] + rest;
    forall i, j | 0 <= i < j < |r| ensures key(r[i]) <= key(r[j]) {
      if i > 0 {
        assert r[i] == rest[i - 1] && r[j] == rest[j - 1];
      } else {
        assert r[j] == rest[j - 1];
      }
    }
  }

  function SortBy<T>(s: seq<T>, key: T -> nat): (r: seq<T>)
    ensures SortedBy(r, key)
    ensures multiset(r) == multiset(s)
  {
    if s == [] then []
    else
      assert s == s[..|s| - 1] + [s[|s| - 1]];
      InsertBy(s[|s| - 1], SortBy(s[..|s| - 1], key), key)
  }

  /** `Object.keys(obj)` for an object whose keys, in insertion order, are `keys`. */
  function ObjectKeys(keys: seq<string>): seq<string> {
    SortBy(Filter(IsArrayIndex, keys), IndexKey) + Filter(IsNamedKey, keys)
  }

  /** `Object.keys` lists every key exactly as often as the object has it. */
  lemma ObjectKeysPermutation(keys: seq<string>)
    ensures multiset(ObjectKeys(keys)) == multiset(keys)
  {
    var indices := Filter(IsArrayIndex, keys);
    var named := Filter(IsNamedKey, keys);
    FilterSplit(IsArrayIndex, IsNamedKey, keys);
    assert multiset(ObjectKeys(keys)) == multiset(SortBy(indices, IndexKey)) + multiset(named);
  }

  lemma SortedIndicesAreIndices(keys: seq<string>)
    ensures forall i | 0 <= i < |SortBy(Filter(IsArrayIndex, keys), IndexKey)| ::
              IsArrayIndex(SortBy(Filter(IsArrayIndex, keys), IndexKey)[i])
  {
    var indices := Filter(IsArrayIndex, keys);
    var sorted := SortBy(indices, IndexKey);
    forall i | 0 <= i < |sorted| ensures IsArrayIndex(sorted[i]) {
      assert sorted[i] in multiset(indices);
    }
  }

  /** The keys that are not array indices keep their insertion order. */
  lemma ObjectKeysNamedOrder(keys: seq<string>)
    ensures Filter(IsNamedKey, ObjectKeys(keys)) == Filter(IsNamedKey, keys)
  {
    var sorted := SortBy(Filter(IsArrayIndex, keys), IndexKey);
    var named := Filter(IsNamedKey, keys);
    SortedIndicesAreIndices(keys);
    FilterAppend(IsNamedKey, sorted, named);
    FilterNone(IsNamedKey, sorted);
    FilterAll(IsNamedKey, named);
  }

  /** Array indices come first, in ascending numeric order. */
  lemma ObjectKeysIndicesFirst(keys: seq<string>)
    ensures forall i, j :: 0 <= i < j < |ObjectKeys(keys)| && IsArrayIndex(ObjectKeys(keys)[j]) ==>
              IsArrayIndex(ObjectKeys(keys)[i]) && IndexKey(ObjectKeys(keys)[i]) <= IndexKey(ObjectKeys(keys)[j])
  {
    var sorted := SortBy(Filter(IsArrayIndex, keys), IndexKey);
    var named := Filter(IsNamedKey, keys);
    var r := sorted + named;
    SortedIndicesAreIndices(keys);
    forall i, j | 0 <= i < j < |r| && IsArrayIndex(r[j])
      ensures IsArrayIndex(r[i]) && IndexKey(r[i]) <= IndexKey(r[j])
    {
      if j < |sorted| {
        assert r[i] == sorted[i] && r[j] == sorted[j];
      }
    }
  }

  /** With no array-index keys, `Object.keys` is insertion order. */
  lemma ObjectKeysWithoutIndices(keys: seq<string>)
    requires forall i :: 0 <= i < |keys| ==> IsNamedKey(keys[i])
    ensures ObjectKeys(keys) == keys
  {
    FilterAll(IsNamedKey, keys);
    FilterNone(IsArrayIndex, keys);
  }
}
