/** Sequence vocabulary shared by the model: order-preserving filter, map,
    absence of duplicates, and "distinct values in first-seen order", which is
    what a JavaScript `Set` or `Map` yields when read back. */
module Seqs {

  /** `null` or a value. */
  datatype Option<T> = None | Some(value: T)

  function Filter<T>(f: T -> bool, s: seq<T>): (r: seq<T>)
    ensures |r| <= |s|
    ensures forall x :: x in r ==> x in s && f(x)
    ensures forall x :: x in s && f(x) ==> x in r
  {
    if s == [] then []
    else Filter(f, s[..|s| - 1]) + (if f(s[|s| - 1]) then [s[|s| - 1]] else [])
  }

  lemma FilterAppend<T>(f: T -> bool, s: seq<T>, t: seq<T>)
    ensures Filter(f, s + t) == Filter(f, s) + Filter(f, t)
    decreases |t|
  {
    if t == [] {
      assert s + t == s;
    } else {
      assert (s + t)[..|s + t| - 1] == s + t[..|t| - 1];
      FilterAppend(f, s, t[..|t| - 1]);
    }
  }

  /** A filter and its complement `g` split the multiset of the input. */
  lemma {:induction false} FilterSplit<T>(f: T -> bool, g: T -> bool, s: seq<T>)
    requires forall x :: g(x) == !f(x)
    ensures multiset(s) == multiset(Filter(f, s)) + multiset(Filter(g, s))
  {
    if s != [] {
      var p, x := s[..|s| - 1], s[|s| - 1];
      FilterSplit(f, g, p);
      assert s == p + [x];
      FilterSplitStep(f, g, p, x);
    }
  }

  lemma FilterSplitStep<T>(f: T -> bool, g: T -> bool, p: seq<T>, x: T)
    requires g(x) == !f(x)
    requires multiset(p) == multiset(Filter(f, p)) + multiset(Filter(g, p))
    ensures multiset(p + [x]) == multiset(Filter(f, p + [x])) + multiset(Filter(g, p + [x]))
  {
    assert multiset(p + [x]) == multiset(p) + multiset{x};
    if f(x) {
      FilterSnocHit(f, p, x);
      FilterSnocMiss(g, p, x);
    } else {
      FilterSnocMiss(f, p, x);
      FilterSnocHit(g, p, x);
    }
  }

  function Map<T, U>(f: T -> U, s: seq<T>): (r: seq<U>)
    ensures |r| == |s|
    ensures forall i :: 0 <= i < |s| ==> r[i] == f(s[i])
  {
    seq(|s|, i requires 0 <= i < |s| => f(s[i]))
  }

  predicate NoDup<T(==)>(s: seq<T>) {
    forall i, j :: 0 <= i < j < |s| ==> s[i] != s[j]
  }

  /** Position of the first occurrence of `x` in `s`. */
  function FirstIndex<T(==)>(s: seq<T>, x: T): (k: nat)
    requires x in s
    ensures k < |s| && s[k] == x
    ensures forall i :: 0 <= i < k ==> s[i] != x
  {
    if s[0] == x then 0 else 1 + FirstIndex(s[1..], x)
  }

  lemma FirstIndexAppend<T>(s: seq<T>, x: T, y: T)
    requires y in s + [x]
    ensures y in s ==> FirstIndex(s + [x], y) == FirstIndex(s, y)
    ensures y !in s ==> FirstIndex(s + [x], y) == |s|
  {
    var k := FirstIndex(s + [x], y);
    if y in s {
      var k' := FirstIndex(s, y);
      assert (s + [x])[k'] == y;
    } else {
      assert (s + [x])[|s|] == y;
    }
  }

  /** `r` lists the distinct values of `xs`, each once, in the order in which
      they first occur in `xs`. */
  ghost predicate FirstSeenOrder<T>(r: seq<T>, xs: seq<T>) {
    && NoDup(r)
    && (forall x :: x in r ==> x in xs)
    && (forall x :: x in xs ==> x in r)
    && (forall i, j :: 0 <= i < j < |r| ==> FirstIndex(xs, r[i]) < FirstIndex(xs, r[j]))
  }

  /** `set.add(x)` on an insertion-ordered set. */
  function AddDistinct<T(==)>(r: seq<T>, x: T): (r': seq<T>)
    ensures x in r'
    ensures forall y :: y in r' ==> y in r || y == x
    ensures forall y :: y in r ==> y in r'
    ensures NoDup(r) ==> NoDup(r')
  {
    if x in r then r else r + [x]
  }

  /** Adding each new value as it is seen keeps the first-seen order. */
  lemma AddDistinctFirstSeen<T>(r: seq<T>, xs: seq<T>, x: T)
    requires FirstSeenOrder(r, xs)
    ensures FirstSeenOrder(AddDistinct(r, x), xs + [x])
  {
    var r' := AddDistinct(r, x);
    var xs' := xs + [x];
    forall y | y in xs
      ensures FirstIndex(xs', y) == FirstIndex(xs, y)
    {
      FirstIndexAppend(xs, x, y);
    }
    if x !in r {
      FirstIndexAppend(xs, x, x);
      forall i, j | 0 <= i < j < |r'|
        ensures FirstIndex(xs', r'[i]) < FirstIndex(xs', r'[j])
      {
        if j == |r| {
          assert r'[i] in xs;
        }
      }
    }
  }

  lemma {:induction false} FilterSameWhenAgree<T>(f: T -> bool, g: T -> bool, s: seq<T>)
    requires forall x :: f(x) == g(x)
    ensures Filter(f, s) == Filter(g, s)
  {
    if s != [] {
      FilterSameWhenAgree(f, g, s[..|s| - 1]);
    }
  }

  lemma {:induction false} FilterNone<T>(f: T -> bool, s: seq<T>)
    requires forall i :: 0 <= i < |s| ==> !f(s[i])
    ensures Filter(f, s) == []
  {
    if s != [] {
      FilterNone(f, s[..|s| - 1]);
    }
  }

  lemma {:induction false} FilterAll<T>(f: T -> bool, s: seq<T>)
    requires forall i :: 0 <= i < |s| ==> f(s[i])
    ensures Filter(f, s) == s
  {
    if s != [] {
      var init := s[..|s| - 1];
      FilterAll(f, init);
      assert s == init + [s[|s| - 1]];
      FilterSnoc(f, init, s[|s| - 1]);
    }
  }

  lemma FilterSnoc<T>(f: T -> bool, s: seq<T>, x: T)
    ensures Filter(f, s + [x]) == Filter(f, s) + (if f(x) then [x] else [])
  {
    assert (s + [x])[..|s|] == s;
  }

  lemma MapAppend<T, U>(f: T -> U, s: seq<T>, t: seq<T>)
    ensures Map(f, s + t) == Map(f, s) + Map(f, t)
  {
  }

  /** The concatenation of a sequence of sequences. */
  function Flatten<T>(ss: seq<seq<T>>): (r: seq<T>)
    ensures ss == [] ==> r == []
  {
    if ss == [] then [] else Flatten(ss[..|ss| - 1]) + ss[|ss| - 1]
  }

  lemma FlattenSnoc<T>(ss: seq<seq<T>>, t: seq<T>)
    ensures Flatten(ss + [t]) == Flatten(ss) + t
  {
    assert (ss + [t])[..|ss|] == ss;
  }

  lemma FlattenPrefix<T>(ss: seq<seq<T>>, k: nat)
    requires 0 < k <= |ss|
    ensures Flatten(ss[..k]) == Flatten(ss[..k - 1]) + ss[k - 1]
  {
    assert ss[..k] == ss[..k - 1] + [ss[k - 1]];
    FlattenSnoc(ss[..k - 1], ss[k - 1]);
  }

  /** An element of an inner sequence is an element of the concatenation. */
  lemma {:induction false} FlattenMember<T>(ss: seq<seq<T>>, i: nat, x: T)
    requires i < |ss| && x in ss[i]
    ensures x in Flatten(ss)
    decreases |ss|
  {
    if i < |ss| - 1 {
      FlattenMember(ss[..|ss| - 1], i, x);
    }
  }

  /** Appending `x` to the `i`-th inner sequence adds `x` to the flattened multiset. */
  lemma {:induction false} FlattenAppendAt<T>(ss: seq<seq<T>>, i: nat, x: T)
    requires i < |ss|
    ensures multiset(Flatten(ss[i := ss[i] + [x]])) == multiset(Flatten(ss)) + multiset{x}
    decreases |ss|
  {
    var ss' := ss[i := ss[i] + [x]];
    var n := |ss| - 1;
    if i == n {
      assert ss'[..n] == ss[..n];
    } else {
      FlattenAppendAt(ss[..n], i, x);
      assert ss'[..n] == ss[..n][i := ss[..n][i] + [x]];
    }
  }

  lemma FilterSnocHit<T>(f: T -> bool, p: seq<T>, x: T)
    requires f(x)
    ensures multiset(Filter(f, p + [x])) == multiset(Filter(f, p)) + multiset{x}
  {
    FilterSnoc(f, p, x);
  }

  lemma FilterSnocMiss<T>(f: T -> bool, p: seq<T>, x: T)
    requires !f(x)
    ensures Filter(f, p + [x]) == Filter(f, p)
  {
    FilterSnoc(f, p, x);
  }

  /** Adding `X` to a sum of five multisets adds it to any one of them. */
  lemma SumAddOne<T>(m: multiset<T>, a: multiset<T>, b: multiset<T>, c: multiset<T>, d: multiset<T>, e: multiset<T>, X: multiset<T>)
    requires m == a + b + c + d + e
    ensures m + X == (a + X) + b + c + d + e
    ensures m + X == a + (b + X) + c + d + e
    ensures m + X == a + b + (c + X) + d + e
    ensures m + X == a + b + c + (d + X) + e
    ensures m + X == a + b + c + d + (e + X)
  {
  }

  /** Five predicates of which every element satisfies exactly one split the
      multiset of any sequence. */
  lemma {:induction false} FilterSplitFive<T>(f1: T -> bool, f2: T -> bool, f3: T -> bool, f4: T -> bool, f5: T -> bool, s: seq<T>)
    requires forall x :: (if f1(x) then 1 else 0) + (if f2(x) then 1 else 0) + (if f3(x) then 1 else 0)
                        + (if f4(x) then 1 else 0) + (if f5(x) then 1 else 0) == 1
    ensures multiset(s) == multiset(Filter(f1, s)) + multiset(Filter(f2, s)) + multiset(Filter(f3, s))
                         + multiset(Filter(f4, s)) + multiset(Filter(f5, s))
  {
    if s != [] {
      var p, x := s[..|s| - 1], s[|s| - 1];
      FilterSplitFive(f1, f2, f3, f4, f5, p);
      assert s == p + [x];
      FilterSplitFiveStep(f1, f2, f3, f4, f5, p, x);
    }
  }

  lemma FilterSplitFiveStep<T>(f1: T -> bool, f2: T -> bool, f3: T -> bool, f4: T -> bool, f5: T -> bool, p: seq<T>, x: T)
    requires (if f1(x) then 1 else 0) + (if f2(x) then 1 else 0) + (if f3(x) then 1 else 0)
             + (if f4(x) then 1 else 0) + (if f5(x) then 1 else 0) == 1
    requires multiset(p) == multiset(Filter(f1, p)) + multiset(Filter(f2, p)) + multiset(Filter(f3, p))
                            + multiset(Filter(f4, p)) + multiset(Filter(f5, p))
    ensures multiset(p + [x]) == multiset(Filter(f1, p + [x])) + multiset(Filter(f2, p + [x])) + multiset(Filter(f3, p + [x]))
                                 + multiset(Filter(f4, p + [x])) + multiset(Filter(f5, p + [x]))
  {
    assert multiset(p + [x]) == multiset(p) + multiset{x};
    var a, b, c, d, e := multiset(Filter(f1, p)), multiset(Filter(f2, p)), multiset(Filter(f3, p)),
      multiset(Filter(f4, p)), multiset(Filter(f5, p));
    SumAddOne(multiset(p), a, b, c, d, e, multiset{x});
    if f1(x) {
      FilterSnocHit(f1, p, x);
      FilterSnocMiss(f2, p, x); FilterSnocMiss(f3, p, x); FilterSnocMiss(f4, p, x); FilterSnocMiss(f5, p, x);
    } else if f2(x) {
      FilterSnocHit(f2, p, x);
      FilterSnocMiss(f1, p, x); FilterSnocMiss(f3, p, x); FilterSnocMiss(f4, p, x); FilterSnocMiss(f5, p, x);
    } else if f3(x) {
      FilterSnocHit(f3, p, x);
      FilterSnocMiss(f1, p, x); FilterSnocMiss(f2, p, x); FilterSnocMiss(f4, p, x); FilterSnocMiss(f5, p, x);
    } else if f4(x) {
      FilterSnocHit(f4, p, x);
      FilterSnocMiss(f1, p, x); FilterSnocMiss(f2, p, x); FilterSnocMiss(f3, p, x); FilterSnocMiss(f5, p, x);
    } else {
      FilterSnocHit(f5, p, x);
      FilterSnocMiss(f1, p, x); FilterSnocMiss(f2, p, x); FilterSnocMiss(f3, p, x); FilterSnocMiss(f4, p, x);
    }
  }

  /** The distinct values of `xs` in first-seen order: `Array.from(new Set(xs))`. */
  function Distinct<T(==)>(xs: seq<T>): seq<T> {
    if xs == [] then [] else AddDistinct(Distinct(xs[..|xs| - 1]), xs[|xs| - 1])
  }

  lemma DistinctSnoc<T>(xs: seq<T>, x: T)
    ensures Distinct(xs + [x]) == AddDistinct(Distinct(xs), x)
  {
    assert (xs + [x])[..|xs|] == xs;
  }

  lemma {:induction false} DistinctFirstSeen<T>(xs: seq<T>)
    ensures FirstSeenOrder(Distinct(xs), xs)
  {
    if xs != [] {
      var p, x := xs[..|xs| - 1], xs[|xs| - 1];
      DistinctFirstSeen(p);
      AddDistinctFirstSeen(Distinct(p), p, x);
      assert xs == p + [x];
    }
  }

  /** The position of the first element satisfying `p`: what a `for` loop with
      an early `break` finds. */
  function FirstWhere<T>(p: T -> bool, s: seq<T>): (r: Option<nat>)
    ensures r.Some? ==> r.value < |s| && p(s[r.value])
    ensures r.Some? ==> forall j :: 0 <= j < r.value ==> !p(s[j])
    ensures r.None? <==> forall j :: 0 <= j < |s| ==> !p(s[j])
  {
    if s == [] then None
    else if p(s[0]) then Some(0)
    else match FirstWhere(p, s[1..])
      case None => None
      case Some(k) => Some(k + 1)
  }

  /** No two elements share the value of `f`. */
  ghost predicate DistinctBy<T, K>(s: seq<T>, f: T -> K) {
    forall i, j :: 0 <= i < j < |s| ==> f(s[i]) != f(s[j])
  }

  /** `xs.map(f).filter(Boolean)` for an `f` that returns an object or
      `null`: the non-null results in order. */
  function Collect<T, U>(f: T -> Option<U>, xs: seq<T>): (r: seq<U>)
    ensures |r| <= |xs|
  {
    if xs == [] then []
    else
      var rest := Collect(f, xs[..|xs| - 1]);
      match f(xs[|xs| - 1])
      case Some(u) => rest + [u]
      case None => rest
  }

  lemma CollectSnoc<T, U>(f: T -> Option<U>, xs: seq<T>, x: T)
    ensures Collect(f, xs + [x]) == Collect(f, xs) + (if f(x).Some? then [f(x).value] else [])
  {
    assert (xs + [x])[..|xs|] == xs;
  }

  /** Every collected value is the result of some element. */
  lemma {:induction false} CollectSound<T, U>(f: T -> Option<U>, xs: seq<T>)
    ensures forall u :: u in Collect(f, xs) ==> exists i :: 0 <= i < |xs| && f(xs[i]) == Some(u)
  {
    if xs != [] {
      var p, x := xs[..|xs| - 1], xs[|xs| - 1];
      CollectSound(f, p);
      assert xs == p + [x];
      forall u | u in Collect(f, xs) ensures exists i :: 0 <= i < |xs| && f(xs[i]) == Some(u) {
        if u in Collect(f, p) {
          var i :| 0 <= i < |p| && f(p[i]) == Some(u);
          assert xs[i] == p[i];
        } else {
          assert f(xs[|xs| - 1]) == Some(u);
        }
      }
    }
  }

  /** A property every non-null result has holds of everything collected. */
  lemma CollectAll<T, U>(f: T -> Option<U>, xs: seq<T>, p: U -> bool)
    requires forall i :: 0 <= i < |xs| && f(xs[i]).Some? ==> p(f(xs[i]).value)
    ensures forall u :: u in Collect(f, xs) ==> p(u)
  {
    CollectSound(f, xs);
    forall u | u in Collect(f, xs) ensures p(u) {
      var i :| 0 <= i < |xs| && f(xs[i]) == Some(u);
    }
  }

  /** Every non-null result is collected. */
  lemma {:induction false} CollectComplete<T, U>(f: T -> Option<U>, xs: seq<T>)
    ensures forall i :: 0 <= i < |xs| && f(xs[i]).Some? ==> f(xs[i]).value in Collect(f, xs)
  {
    if xs != [] {
      var p, x := xs[..|xs| - 1], xs[|xs| - 1];
      CollectComplete(f, p);
      assert xs == p + [x];
      forall i | 0 <= i < |xs| && f(xs[i]).Some? ensures f(xs[i]).value in Collect(f, xs) {
        if i < |p| {
          assert xs[i] == p[i];
        }
      }
    }
  }

  /** When `f` maps elements with distinct `h` to results with distinct `g`
      (because `g` of a result is `h` of its element), the collected results
      are distinct under `g`. */
  lemma {:induction false} CollectDistinctBy<T, U, K>(f: T -> Option<U>, xs: seq<T>, g: U -> K, h: T -> K)
    requires forall x :: f(x).Some? ==> g(f(x).value) == h(x)
    requires DistinctBy(xs, h)
    ensures DistinctBy(Collect(f, xs), g)
    ensures forall u :: u in Collect(f, xs) ==> exists i :: 0 <= i < |xs| && g(u) == h(xs[i])
  {
    if xs != [] {
      var p, x := xs[..|xs| - 1], xs[|xs| - 1];
      assert DistinctBy(p, h);
      CollectDistinctBy(f, p, g, h);
      assert xs == p + [x];
      var r := Collect(f, xs);
      forall u | u in r ensures exists i :: 0 <= i < |xs| && g(u) == h(xs[i]) {
        if u in Collect(f, p) {
          var i :| 0 <= i < |p| && g(u) == h(p[i]);
          assert xs[i] == p[i];
        } else {
          assert g(u) == h(xs[|xs| - 1]);
        }
      }
      if f(x).Some? {
        forall a, b | 0 <= a < b < |r| ensures g(r[a]) != g(r[b]) {
          if b == |r| - 1 {
            assert r[a] in Collect(f, p);
            var i :| 0 <= i < |p| && g(r[a]) == h(p[i]);
            assert xs[i] == p[i];
          }
        }
      }
    }
  }

  /** The first two elements of a sequence are, as a multiset, part of it. */
  lemma FrontPair<T>(s: seq<T>)
    requires |s| >= 2
    ensures multiset{s[0], s[1]} <= multiset(s)
  {
    assert s == [s[0], s[1]] + s[2..];
  }
}
