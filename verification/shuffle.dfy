/** `seededShuffle` (app.js:100-114): a Fisher–Yates shuffle of a copy of the
    list, from the last index down to 1, where each step's seed is the hash of
    `<key>:<previous seed>:<i>` and element `i` is swapped with element
    `seed % (i + 1)`. The first seed is the hash of `<key>::seed`. */
module Shuffle {
  import opened JsString
  import opened Hash
  import opened Seqs

  /** `s` with positions `i` and `j` exchanged (the `temp` swap). */
  function Swap<T>(s: seq<T>, i: nat, j: nat): (r: seq<T>)
    requires i < |s| && j < |s|
    ensures |r| == |s|
    ensures r[i] == s[j] && r[j] == s[i]
    ensures forall k :: 0 <= k < |s| && k != i && k != j ==> r[k] == s[k]
  {
    s[i := s[j]][j := s[i]]
  }

  /** A swap is a permutation. */
  lemma SwapPermutes<T>(s: seq<T>, i: nat, j: nat)
    requires i < |s| && j < |s|
    ensures multiset(Swap(s, i, j)) == multiset(s)
  {
  }

  /** The index `seed % (i + 1)` that position `i` is swapped with: never past `i`. */
  function SwapPartner(seed: nat, i: nat): (j: nat)
    ensures j <= i
    ensures i == 0 ==> j == 0
  {
    seed % (i + 1)
  }

  /** The seed of step `i`: the hash of `${seedInput}:${seed}:${i}`. */
  function StepSeed(key: string, seed: nat, i: nat): nat {
    Cyrb53(key + ":" + NatToDecimal(seed) + ":" + NatToDecimal(i))
  }

  /** The seed before the first step: the hash of `${seedInput}::seed`. */
  function InitialSeed(key: string): nat {
    Cyrb53(key + "::seed")
  }

  /** The seed chain of the shuffle keyed by `key`: step `i` turns `seed` into
      the next seed. */
  function SeedChain(key: string): (nat, nat) -> nat {
    (seed: nat, i: nat) => StepSeed(key, seed, i)
  }

  /** The loop from index `i` down to 1, entered with the current `seed`;
      `next(seed, i)` is the seed of step `i`. */
  function ShuffleFrom<T>(s: seq<T>, next: (nat, nat) -> nat, seed: nat, i: nat): (r: seq<T>)
    requires i < |s|
    ensures |r| == |s|
    decreases i
  {
    if i == 0 then s
    else
      var seed' := next(seed, i);
      ShuffleFrom(Swap(s, i, SwapPartner(seed', i)), next, seed', i - 1)
  }

  /** Every run of the loop is a permutation. */
  lemma {:induction false} ShuffleFromPermutes<T>(s: seq<T>, next: (nat, nat) -> nat, seed: nat, i: nat)
    requires i < |s|
    ensures multiset(ShuffleFrom(s, next, seed, i)) == multiset(s)
    decreases i
  {
    if i > 0 {
      var seed' := next(seed, i);
      var swapped := Swap(s, i, SwapPartner(seed', i));
      SwapPermutes(s, i, SwapPartner(seed', i));
      ShuffleFromPermutes(swapped, next, seed', i - 1);
    }
  }

  /** The shuffle with any seed chain: lists of length 0 or 1 are left as they
      are, longer ones go through the loop from the last index. */
  function ShuffleWith<T>(list: seq<T>, next: (nat, nat) -> nat, seed0: nat): (r: seq<T>)
    ensures |r| == |list|
    ensures multiset(r) == multiset(list)
    ensures |list| <= 1 ==> r == list
  {
    if |list| <= 1 then list
    else
      ShuffleFromPermutes(list, next, seed0, |list| - 1);
      ShuffleFrom(list, next, seed0, |list| - 1)
  }

  /** `seededShuffle(list, seedInput)`: a permutation of `list`; lists of
      length 0 or 1 come back unchanged. */
  function SeededShuffle<T>(list: seq<T>, key: string): (r: seq<T>)
    ensures |r| == |list|
    ensures multiset(r) == multiset(list)
    ensures |list| <= 1 ==> r == list
  {
    ShuffleWith(list, SeedChain(key), InitialSeed(key))
  }

  /** The source's `for` loop over a copy of the list, counting `i` down to 1
      with any seed chain `next`: it computes `ShuffleFrom`. */
  method FisherYatesLoop<T>(list: seq<T>, next: (nat, nat) -> nat, seed0: nat) returns (result: seq<T>)
    requires |list| > 0
    ensures result == ShuffleFrom(list, next, seed0, |list| - 1)
  {
    result := list;
    var seed := seed0;
    var i := |result| - 1;
    while i > 0
      invariant 0 <= i < |result|
      invariant ShuffleFrom(result, next, seed, i) == ShuffleFrom(list, next, seed0, |list| - 1)
      decreases i
    {
      seed := next(seed, i);
      var j := SwapPartner(seed, i);
      result := Swap(result, i, j);
      i := i - 1;
    }
  }

  /** `seededShuffle` as the source writes it: copy, return short lists as they
      are, otherwise run the loop with the hash-chained seeds. */
  method SeededShuffleLoop<T>(list: seq<T>, key: string) returns (result: seq<T>)
    ensures result == SeededShuffle(list, key)
    ensures multiset(result) == multiset(list)
  {
    if |list| <= 1 {
      result := list;
    } else {
      result := FisherYatesLoop(list, SeedChain(key), InitialSeed(key));
    }
  }

  lemma SwapKeepsDistinctBy<T, K>(s: seq<T>, i: nat, j: nat, f: T -> K)
    requires i < |s| && j < |s|
    requires DistinctBy(s, f)
    ensures DistinctBy(Swap(s, i, j), f)
  {
    var r := Swap(s, i, j);
    forall a, b | 0 <= a < b < |r|
      ensures f(r[a]) != f(r[b])
    {
      var sa := if a == i then j else if a == j then i else a;
      var sb := if b == i then j else if b == j then i else b;
      assert r[a] == s[sa] && r[b] == s[sb];
      assert sa != sb;
      if sa < sb {
        assert f(s[sa]) != f(s[sb]);
      } else {
        assert f(s[sb]) != f(s[sa]);
      }
    }
  }

  lemma {:induction false} ShuffleFromKeepsDistinctBy<T, K>(s: seq<T>, next: (nat, nat) -> nat, seed: nat, i: nat, f: T -> K)
    requires i < |s|
    requires DistinctBy(s, f)
    ensures DistinctBy(ShuffleFrom(s, next, seed, i), f)
    decreases i
  {
    if i > 0 {
      var seed' := next(seed, i);
      SwapKeepsDistinctBy(s, i, SwapPartner(seed', i), f);
      ShuffleFromKeepsDistinctBy(Swap(s, i, SwapPartner(seed', i)), next, seed', i - 1, f);
    }
  }

  /** A shuffle never makes two elements agree on a key they disagreed on:
      distinct labels stay distinct, one trial per method stays one per method. */
  lemma ShuffleKeepsDistinctBy<T, K>(list: seq<T>, key: string, f: T -> K)
    requires DistinctBy(list, f)
    ensures DistinctBy(SeededShuffle(list, key), f)
  {
    if |list| > 1 {
      ShuffleFromKeepsDistinctBy(list, SeedChain(key), InitialSeed(key), |list| - 1, f);
      assert SeededShuffle(list, key) == ShuffleFrom(list, SeedChain(key), InitialSeed(key), |list| - 1);
    }
  }

  /** Membership is what a permutation keeps. */
  lemma ShuffleSameElements<T>(list: seq<T>, key: string)
    ensures forall x :: x in SeededShuffle(list, key) <==> x in list
  {
    var r := SeededShuffle(list, key);
    forall x
      ensures x in r <==> x in list
    {
      assert x in r <==> x in multiset(r);
      assert x in list <==> x in multiset(list);
    }
  }
}
