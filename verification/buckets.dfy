/** Rows collected under string keys in the order the keys first appear: the
    shape of a JavaScript `Map` from key to array, and of a plain object from
    key to array read back in insertion order. */
module Buckets {
  import opened Seqs

  datatype Bucket<T> = Bucket(key: string, items: seq<T>)

  function Keys<T>(bs: seq<Bucket<T>>): seq<string> {
    Map((b: Bucket<T>) => b.key, bs)
  }

  function Items<T>(bs: seq<Bucket<T>>): seq<seq<T>> {
    Map((b: Bucket<T>) => b.items, bs)
  }

  /** Index of the bucket with key `key`, if any. */
  function Find<T>(bs: seq<Bucket<T>>, key: string): (r: Option<nat>)
    ensures r.Some? ==> r.value < |bs| && bs[r.value].key == key
    ensures r.None? <==> key !in Keys(bs)
  {
    if bs == [] then None
    else if bs[|bs| - 1].key == key then Some(|bs| - 1)
    else
      assert Keys(bs) == Keys(bs[..|bs| - 1]) + [bs[|bs| - 1].key];
      Find(bs[..|bs| - 1], key)
  }

  /** With distinct keys, looking up the key of bucket `k` finds bucket `k`. */
  lemma FindDistinct<T>(bs: seq<Bucket<T>>, k: nat)
    requires NoDup(Keys(bs))
    requires k < |bs|
    ensures Find(bs, bs[k].key) == Some(k)
  {
    var keys := Keys(bs);
    assert keys[k] == bs[k].key;
    var i := Find(bs, bs[k].key).value;
    assert keys[i] == keys[k];
  }

  /** `if (!m.has(key)) m.set(key, []); m.get(key).push(x)`: `x` joins the
      bucket of `key`, which is created at the end when missing. */
  function AddTo<T>(bs: seq<Bucket<T>>, key: string, x: T): (r: seq<Bucket<T>>)
    ensures Keys(r) == AddDistinct(Keys(bs), key)
    ensures |r| == |bs| || |r| == |bs| + 1
    ensures forall k :: 0 <= k < |bs| && bs[k].key != key ==> r[k] == bs[k]
    ensures NoDup(Keys(bs)) ==>
              forall k :: 0 <= k < |bs| && bs[k].key == key ==> r[k] == Bucket(key, bs[k].items + [x])
    ensures |r| == |bs| + 1 ==> key !in Keys(bs) && r[|bs|] == Bucket(key, [x])
  {
    match Find(bs, key)
    case Some(i) =>
      var r := bs[i := Bucket(key, bs[i].items + [x])];
      assert Keys(r) == Keys(bs);
      assert NoDup(Keys(bs)) ==> forall k :: 0 <= k < |bs| && bs[k].key == key ==> k == i by {
        if NoDup(Keys(bs)) {
          forall k | 0 <= k < |bs| && bs[k].key == key ensures k == i {
            assert Keys(bs)[k] == Keys(bs)[i];
          }
        }
      }
      r
    case None =>
      assert Keys(bs + [Bucket(key, [x])]) == Keys(bs) + [key];
      bs + [Bucket(key, [x])]
  }

  /** Adding to a bucket adds one item to the flattened contents. */
  lemma AddToItems<T>(bs: seq<Bucket<T>>, key: string, x: T)
    ensures multiset(Flatten(Items(AddTo(bs, key, x)))) == multiset(Flatten(Items(bs))) + multiset{x}
  {
    match Find(bs, key)
    case Some(i) =>
      assert Items(AddTo(bs, key, x)) == Items(bs)[i := Items(bs)[i] + [x]];
      FlattenAppendAt(Items(bs), i, x);
    case None =>
      assert Items(AddTo(bs, key, x)) == Items(bs) + [[x]];
      FlattenSnoc(Items(bs), [x]);
  }

  /** Every element of `xs` in the bucket of its key, the buckets in the order
      in which their keys first occur. */
  function GroupBy<T>(key: T -> string, xs: seq<T>): seq<Bucket<T>> {
    if xs == [] then []
    else AddTo(GroupBy(key, xs[..|xs| - 1]), key(xs[|xs| - 1]), xs[|xs| - 1])
  }

  lemma GroupBySnoc<T>(key: T -> string, xs: seq<T>, x: T)
    ensures GroupBy(key, xs + [x]) == AddTo(GroupBy(key, xs), key(x), x)
  {
    assert (xs + [x])[..|xs|] == xs;
  }

  function HasKey<T>(key: T -> string, k: string): T -> bool {
    x => key(x) == k
  }

  /** The keys of the grouping are the distinct keys in first-seen order. */
  lemma {:induction false} GroupByKeys<T>(key: T -> string, xs: seq<T>)
    ensures Keys(GroupBy(key, xs)) == Distinct(Map(key, xs))
  {
    if xs != [] {
      var p, x := xs[..|xs| - 1], xs[|xs| - 1];
      GroupByKeys(key, p);
      assert xs == p + [x];
      MapAppend(key, p, [x]);
      assert Map(key, xs)[..|p|] == Map(key, p);
    }
  }

  /** Each bucket of `bs` holds exactly the elements of `xs` with its key. */
  ghost predicate BucketsMatch<T>(key: T -> string, bs: seq<Bucket<T>>, xs: seq<T>) {
    forall k :: 0 <= k < |bs| ==> bs[k].items == Filter(HasKey(key, bs[k].key), xs)
  }

  lemma GroupByStep<T>(key: T -> string, p: seq<T>, x: T)
    requires BucketsMatch(key, GroupBy(key, p), p)
    ensures BucketsMatch(key, GroupBy(key, p + [x]), p + [x])
  {
    assert (p + [x])[..|p|] == p;
    var bs := GroupBy(key, p);
    var bs' := GroupBy(key, p + [x]);
    assert bs' == AddTo(bs, key(x), x);
    GroupByKeys(key, p);
    DistinctFirstSeen(Map(key, p));
    assert NoDup(Keys(bs));
    forall k | 0 <= k < |bs'|
      ensures bs'[k].items == Filter(HasKey(key, bs'[k].key), p + [x])
    {
      FilterSnoc(HasKey(key, bs'[k].key), p, x);
      if k == |bs| {
        forall i | 0 <= i < |p| ensures !HasKey(key, key(x))(p[i]) {
          assert Map(key, p)[i] == key(p[i]);
        }
        FilterNone(HasKey(key, key(x)), p);
      } else {
        assert Keys(bs)[k] == bs[k].key;
      }
    }
  }

  /** Each bucket holds exactly the elements with its key, in their order. */
  lemma {:induction false} GroupByItems<T>(key: T -> string, xs: seq<T>)
    ensures BucketsMatch(key, GroupBy(key, xs), xs)
  {
    if xs != [] {
      var p, x := xs[..|xs| - 1], xs[|xs| - 1];
      assert xs == p + [x];
      GroupByItems(key, p);
      GroupByStep(key, p, x);
    }
  }

  /** No bucket is empty. */
  lemma {:induction false} GroupByNonEmpty<T>(key: T -> string, xs: seq<T>)
    ensures forall k :: 0 <= k < |GroupBy(key, xs)| ==> GroupBy(key, xs)[k].items != []
  {
    if xs != [] {
      GroupByNonEmpty(key, xs[..|xs| - 1]);
    }
  }

  /** Grouping neither loses nor duplicates an element. */
  lemma {:induction false} GroupByFlatten<T>(key: T -> string, xs: seq<T>)
    ensures multiset(Flatten(Items(GroupBy(key, xs)))) == multiset(xs)
  {
    if xs != [] {
      var p, x := xs[..|xs| - 1], xs[|xs| - 1];
      assert xs == p + [x];
      GroupByFlatten(key, p);
      AddToItems(GroupBy(key, p), key(x), x);
    }
  }
}
