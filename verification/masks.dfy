/** `assignMethodMasks` (app.js:289-300): every method name gets a letter from
    `METHOD_LABELS` (app.js:5), drawn from a per-participant shuffle of the
    first `max(n, 4)` letters, so that participants cannot tell which method
    produced which image. */
module Masks {
  import opened Seqs
  import opened Shuffle

  /** `METHOD_LABELS`. */
  const MethodLabels: seq<string> := ["A", "B", "C", "D", "E", "F", "G", "H"]

  lemma MethodLabelsDistinct()
    ensures NoDup(MethodLabels)
    ensures forall i :: 0 <= i < |MethodLabels| ==> MethodLabels[i] != []
  {
  }

  /** `METHOD_LABELS.slice(0, Math.max(n, 4))`: slicing past the end stops at
      the eighth letter. */
  function AvailableLabels(n: nat): (r: seq<string>)
    ensures |r| == if n < 4 then 4 else if n > 8 then 8 else n
    ensures r == MethodLabels[..|r|]
  {
    var count := if n < 4 then 4 else n;
    MethodLabels[..if count > 8 then 8 else count]
  }

  lemma AvailableLabelsDistinct(n: nat)
    ensures NoDup(AvailableLabels(n))
    ensures forall i :: 0 <= i < |AvailableLabels(n)| ==> AvailableLabels(n)[i] != []
  {
    MethodLabelsDistinct();
    var r := AvailableLabels(n);
    assert forall i :: 0 <= i < |r| ==> r[i] == MethodLabels[i];
  }

  /** The key of the mask shuffle. */
  function MaskShuffleKey(seedKey: string): string {
    seedKey + "|methodMask"
  }

  /** The letters in their per-participant order: a permutation of the
      available letters, so distinct and non-empty. */
  function ShuffledLabels(n: nat, seedKey: string): (r: seq<string>)
    ensures |r| == |AvailableLabels(n)|
    ensures NoDup(r)
    ensures forall x :: x in r <==> x in AvailableLabels(n)
    ensures forall i :: 0 <= i < |r| ==> r[i] != []
  {
    var r := SeededShuffle(AvailableLabels(n), MaskShuffleKey(seedKey));
    AvailableLabelsDistinct(n);
    ShuffledLabelsDistinct(AvailableLabels(n), MaskShuffleKey(seedKey));
    ShuffledLabelsMembers(AvailableLabels(n), MaskShuffleKey(seedKey));
    r
  }

  lemma ShuffledLabelsDistinct(available: seq<string>, key: string)
    requires NoDup(available)
    ensures NoDup(SeededShuffle(available, key))
  {
    assert DistinctBy(available, (x: string) => x);
    ShuffleKeepsDistinctBy(available, key, (x: string) => x);
  }

  lemma ShuffledLabelsMembers(available: seq<string>, key: string)
    requires forall i :: 0 <= i < |available| ==> available[i] != []
    ensures forall x :: x in SeededShuffle(available, key) <==> x in available
    ensures forall i :: 0 <= i < |SeededShuffle(available, key)| ==> SeededShuffle(available, key)[i] != []
  {
    var r := SeededShuffle(available, key);
    ShuffleSameElements(available, key);
    forall i | 0 <= i < |r| ensures r[i] != [] {
      assert r[i] in multiset(available) by {
        assert r[i] in multiset(r);
      }
    }
  }

  /** `shuffled[index] || shuffled[index % shuffled.length]`. */
  function MaskAt(shuffled: seq<string>, index: nat): (mask: string)
    requires shuffled != []
    ensures mask in shuffled
  {
    if index < |shuffled| && shuffled[index] != [] then shuffled[index]
    else shuffled[index % |shuffled|]
  }

  /** The first `n` assignments of the `forEach`; a later name overwrites an
      earlier equal one. */
  function AssignFrom(methodNames: seq<string>, shuffled: seq<string>): (r: map<string, string>)
    requires shuffled != []
    ensures r.Keys == set m | m in methodNames
  {
    if methodNames == [] then map[]
    else
      var n := |methodNames| - 1;
      AssignFrom(methodNames[..n], shuffled)[methodNames[n] := MaskAt(shuffled, n)]
  }

  /** `assignMethodMasks(methodNames, seedKey)`. */
  function AssignMethodMasks(methodNames: seq<string>, seedKey: string): (r: map<string, string>)
    ensures r.Keys == set m | m in methodNames
    ensures forall m :: m in r ==> r[m] in AvailableLabels(|methodNames|)
  {
    if methodNames == [] then map[]
    else
      var shuffled := ShuffledLabels(|methodNames|, seedKey);
      var r := AssignFrom(methodNames, shuffled);
      AssignFromLabels(methodNames, shuffled);
      r
  }

  lemma {:induction false} AssignFromLabels(methodNames: seq<string>, shuffled: seq<string>)
    requires shuffled != []
    ensures forall m :: m in AssignFrom(methodNames, shuffled) ==> AssignFrom(methodNames, shuffled)[m] in shuffled
  {
    if methodNames != [] {
      AssignFromLabels(methodNames[..|methodNames| - 1], shuffled);
    }
  }

  /** Since no letter is empty, the `||` fallback only acts past the end of the
      letters: the `i`-th name gets letter `i` modulo the number of letters. */
  lemma MaskAtIsModular(shuffled: seq<string>, index: nat)
    requires shuffled != []
    requires forall i :: 0 <= i < |shuffled| ==> shuffled[i] != []
    ensures MaskAt(shuffled, index) == shuffled[index % |shuffled|]
  {
  }

  /** With distinct names, the name at position `i` gets the mask computed for
      position `i`. */
  lemma {:induction false} AssignFromAt(methodNames: seq<string>, shuffled: seq<string>, i: nat)
    requires shuffled != []
    requires NoDup(methodNames)
    requires i < |methodNames|
    ensures AssignFrom(methodNames, shuffled)[methodNames[i]] == MaskAt(shuffled, i)
  {
    var n := |methodNames| - 1;
    if i < n {
      var p := methodNames[..n];
      assert NoDup(p) by {
        forall a, b | 0 <= a < b < |p| ensures p[a] != p[b] {
          assert p[a] == methodNames[a] && p[b] == methodNames[b];
        }
      }
      AssignFromAt(p, shuffled, i);
      AssignFromEarlier(methodNames, shuffled, i);
    }
  }

  /** A later assignment to another name leaves an earlier one alone. */
  lemma AssignFromEarlier(methodNames: seq<string>, shuffled: seq<string>, i: nat)
    requires shuffled != []
    requires i < |methodNames| - 1 && methodNames[i] != methodNames[|methodNames| - 1]
    ensures var p := methodNames[..|methodNames| - 1];
      AssignFrom(methodNames, shuffled)[methodNames[i]] == AssignFrom(p, shuffled)[p[i]]
  {
    var p := methodNames[..|methodNames| - 1];
    assert p[i] == methodNames[i];
  }

  /** The mask of the `i`-th of `n` distinct method names is the letter at
      position `i mod |shuffled|` of the shuffled letters. */
  lemma MaskOfMethod(methodNames: seq<string>, seedKey: string, i: nat)
    requires NoDup(methodNames)
    requires i < |methodNames|
    ensures var shuffled := ShuffledLabels(|methodNames|, seedKey);
      AssignMethodMasks(methodNames, seedKey)[methodNames[i]] == shuffled[i % |shuffled|]
  {
    var shuffled := ShuffledLabels(|methodNames|, seedKey);
    AssignFromAt(methodNames, shuffled, i);
    MaskAtIsModular(shuffled, i);
  }

  /** Up to eight distinct methods get pairwise distinct masks. */
  lemma MasksDistinct(methodNames: seq<string>, seedKey: string)
    requires NoDup(methodNames)
    requires |methodNames| <= 8
    ensures var masks := AssignMethodMasks(methodNames, seedKey);
      forall i, j :: 0 <= i < j < |methodNames| ==> masks[methodNames[i]] != masks[methodNames[j]]
  {
    var masks := AssignMethodMasks(methodNames, seedKey);
    var shuffled := ShuffledLabels(|methodNames|, seedKey);
    forall i, j | 0 <= i < j < |methodNames|
      ensures masks[methodNames[i]] != masks[methodNames[j]]
    {
      MaskOfMethodBelow(methodNames, seedKey, i);
      MaskOfMethodBelow(methodNames, seedKey, j);
    }
  }

  /** Within the first eight, the `i`-th method gets the `i`-th shuffled letter. */
  lemma MaskOfMethodBelow(methodNames: seq<string>, seedKey: string, i: nat)
    requires NoDup(methodNames)
    requires i < |methodNames| <= 8
    ensures var shuffled := ShuffledLabels(|methodNames|, seedKey);
      i < |shuffled| && AssignMethodMasks(methodNames, seedKey)[methodNames[i]] == shuffled[i]
  {
    var shuffled := ShuffledLabels(|methodNames|, seedKey);
    assert |methodNames| <= |shuffled| by {
      assert |shuffled| == |AvailableLabels(|methodNames|)|;
    }
    MaskOfMethod(methodNames, seedKey, i);
    ModBelow(i, |shuffled|);
  }

  lemma ModBelow(i: nat, m: nat)
    requires i < m
    ensures i % m == i
  {
  }

  /** Past eight methods the letters repeat: methods eight places apart share
      a mask. */
  lemma MasksRepeatAfterEight(methodNames: seq<string>, seedKey: string, i: nat)
    requires NoDup(methodNames)
    requires i + 8 < |methodNames|
    ensures var masks := AssignMethodMasks(methodNames, seedKey);
      masks[methodNames[i]] == masks[methodNames[i + 8]]
  {
    var shuffled := ShuffledLabels(|methodNames|, seedKey);
    assert |shuffled| == 8;
    MaskOfMethod(methodNames, seedKey, i);
    MaskOfMethod(methodNames, seedKey, i + 8);
    ModEight(i);
  }

  lemma ModEight(i: nat)
    ensures (i + 8) % 8 == i % 8
  {
  }
}
