/**
 * Row-selection operations shared by the pipeline: boolean-mask filtering
 * (`df[mask]`, list comprehensions with an `if`), element-wise mapping
 * (`Series.apply`), and de-duplication by a key that keeps the first
 * occurrence (`drop_duplicates(subset=...)`, the `seen`-set loop).
 */
module Seqs {
  import opened Wrappers

  /** The elements of `xs` that satisfy `p`, in their original order. */
  function Filter<T>(xs: seq<T>, p: T -> bool): (r: seq<T>)
    ensures |r| <= |xs|
    ensures forall i :: 0 <= i < |r| ==> p(r[i])
    ensures forall i :: 0 <= i < |r| ==> r[i] in xs
    ensures forall i :: 0 <= i < |xs| && p(xs[i]) ==> xs[i] in r
  {
    if xs == [] then []
    else if p(xs[0]) then [xs[0]] + Filter(xs[1..], p)
    else Filter(xs[1..], p)
  }

  /** `f` applied to every element, in order. */
  function Map<T, U>(xs: seq<T>, f: T -> U): (r: seq<U>)
    ensures |r| == |xs|
    ensures forall i :: 0 <= i < |xs| ==> r[i] == f(xs[i])
  {
    if xs == [] then [] else [f(xs[0])] + Map(xs[1..], f)
  }

  /** No two elements of `xs` share a key. */
  predicate DistinctKeys<T, K(==)>(xs: seq<T>, key: T -> K) {
    forall i, j :: 0 <= i < j < |xs| ==> key(xs[i]) != key(xs[j])
  }

  /** `xs[j]` is the first element of `xs` with its key. */
  predicate FirstOfKey<T, K(==)>(xs: seq<T>, key: T -> K, j: int)
    requires 0 <= j < |xs|
  {
    forall i :: 0 <= i < j ==> key(xs[i]) != key(xs[j])
  }

  /**
   * Scans `xs` left to right, keeping an element when its key has not been seen,
   * and adding that key to `seen`: pandas' `drop_duplicates(subset=[key])` with
   * `keep="first"` when `seen` starts empty.
   */
  function DistinctBy<T, K(==)>(xs: seq<T>, key: T -> K, seen: set<K>): (r: seq<T>)
    ensures |r| <= |xs|
    ensures DistinctKeys(r, key)
    ensures forall i :: 0 <= i < |r| ==> r[i] in xs && key(r[i]) !in seen
  {
    if xs == [] then []
    else if key(xs[0]) in seen then DistinctBy(xs[1..], key, seen)
    else
      [xs[0]] + DistinctBy(xs[1..], key, seen + {key(xs[0])})
  }

  /** `ys` is `xs` with some elements removed, order kept (greedy matching is complete). */
  predicate IsSubsequence<T(==)>(ys: seq<T>, xs: seq<T>)
    decreases |xs|
  {
    if ys == [] then true
    else if xs == [] then false
    else if ys[0] == xs[0] then IsSubsequence(ys[1..], xs[1..])
    else IsSubsequence(ys, xs[1..])
  }

  lemma {:induction false} SubsequenceOfEmpty<T>(xs: seq<T>)
    ensures IsSubsequence([], xs)
  {
  }

  /** A subsequence of `xs` is also one of `x` followed by `xs`. */
  lemma {:induction false} SubsequenceCons<T>(ys: seq<T>, x: T, xs: seq<T>)
    requires IsSubsequence(ys, xs)
    ensures IsSubsequence(ys, [x] + xs)
    decreases |xs|, 1
  {
    var zs := [x] + xs;
    assert zs[1..] == xs;
    if ys != [] && ys[0] == x {
      // the greedy match consumes x, and then needs ys[1..] to fit into xs
      SubsequenceTail(ys, xs);
    }
  }

  /** Dropping the first element of a subsequence keeps it a subsequence. */
  lemma {:induction false} SubsequenceTail<T>(ys: seq<T>, xs: seq<T>)
    requires ys != [] && IsSubsequence(ys, xs)
    ensures IsSubsequence(ys[1..], xs)
    decreases |xs|, 0
  {
    assert xs != [];
    if ys[0] == xs[0] {
      SubsequenceCons(ys[1..], xs[0], xs[1..]);
      assert [xs[0]] + xs[1..] == xs;
    } else {
      SubsequenceTail(ys, xs[1..]);
      SubsequenceCons(ys[1..], xs[0], xs[1..]);
      assert [xs[0]] + xs[1..] == xs;
    }
  }

  lemma {:induction false} SubsequenceRefl<T>(xs: seq<T>)
    ensures IsSubsequence(xs, xs)
  {
    if xs != [] {
      SubsequenceRefl(xs[1..]);
    }
  }

  /** A subsequence of a subsequence is a subsequence. */
  lemma {:induction false} SubsequenceTrans<T>(zs: seq<T>, ys: seq<T>, xs: seq<T>)
    requires IsSubsequence(zs, ys) && IsSubsequence(ys, xs)
    ensures IsSubsequence(zs, xs)
    decreases |xs|
  {
    if zs != [] {
      assert ys != [] && xs != [];
      if ys[0] == xs[0] {
        if zs[0] == ys[0] {
          SubsequenceTrans(zs[1..], ys[1..], xs[1..]);
        } else {
          SubsequenceTrans(zs, ys[1..], xs[1..]);
        }
      } else {
        SubsequenceTrans(zs, ys, xs[1..]);
        if zs[0] == xs[0] {
          SubsequenceTail(zs, xs[1..]);
        }
      }
    }
  }

  /** A filter keeps the surviving elements in their original order. */
  lemma {:induction false} FilterIsSubsequence<T>(xs: seq<T>, p: T -> bool)
    ensures IsSubsequence(Filter(xs, p), xs)
  {
    if xs != [] {
      FilterIsSubsequence(xs[1..], p);
      if !p(xs[0]) {
        SubsequenceCons(Filter(xs[1..], p), xs[0], xs[1..]);
        assert [xs[0]] + xs[1..] == xs;
      }
    }
  }

  /** Keeping the first of each key keeps the survivors in their original order. */
  lemma {:induction false} DistinctByIsSubsequence<T, K>(xs: seq<T>, key: T -> K, seen: set<K>)
    ensures IsSubsequence(DistinctBy(xs, key, seen), xs)
  {
    if xs != [] {
      if key(xs[0]) in seen {
        DistinctByIsSubsequence(xs[1..], key, seen);
        SubsequenceCons(DistinctBy(xs[1..], key, seen), xs[0], xs[1..]);
        assert [xs[0]] + xs[1..] == xs;
      } else {
        DistinctByIsSubsequence(xs[1..], key, seen + {key(xs[0])});
      }
    }
  }

  /** The element kept for each key is the first one in `xs` with that key. */
  lemma {:induction false} DistinctByKeepsFirst<T, K>(xs: seq<T>, key: T -> K, seen: set<K>, j: int)
    requires 0 <= j < |xs| && key(xs[j]) !in seen && FirstOfKey(xs, key, j)
    ensures xs[j] in DistinctBy(xs, key, seen)
  {
    if j > 0 {
      var seen' := if key(xs[0]) in seen then seen else seen + {key(xs[0])};
      assert key(xs[0]) != key(xs[j]);
      assert xs[1..][j - 1] == xs[j];
      DistinctByKeepsFirst(xs[1..], key, seen', j - 1);
    }
  }

  /** Every key of `xs` outside `seen` is the key of some kept element. */
  lemma {:induction false} DistinctByCovers<T, K>(xs: seq<T>, key: T -> K, seen: set<K>, j: int)
    requires 0 <= j < |xs| && key(xs[j]) !in seen
    ensures exists k :: 0 <= k < |DistinctBy(xs, key, seen)| && key(DistinctBy(xs, key, seen)[k]) == key(xs[j])
  {
    var r := DistinctBy(xs, key, seen);
    if j == 0 {
      assert key(r[0]) == key(xs[0]);
    } else {
      assert xs[1..][j - 1] == xs[j];
      if key(xs[0]) in seen {
        DistinctByCovers(xs[1..], key, seen, j - 1);
      } else if key(xs[0]) == key(xs[j]) {
        assert key(r[0]) == key(xs[j]);
      } else {
        DistinctByCovers(xs[1..], key, seen + {key(xs[0])}, j - 1);
        var k :| 0 <= k < |DistinctBy(xs[1..], key, seen + {key(xs[0])})| && key(DistinctBy(xs[1..], key, seen + {key(xs[0])})[k]) == key(xs[j]);
        assert r[k + 1] == DistinctBy(xs[1..], key, seen + {key(xs[0])})[k];
      }
    }
  }

  /** Input whose keys are already distinct and unseen passes through unchanged. */
  lemma {:induction false} DistinctByOfDistinct<T, K>(xs: seq<T>, key: T -> K, seen: set<K>)
    requires DistinctKeys(xs, key)
    requires forall i :: 0 <= i < |xs| ==> key(xs[i]) !in seen
    ensures DistinctBy(xs, key, seen) == xs
  {
    if xs != [] {
      DistinctByOfDistinct(xs[1..], key, seen + {key(xs[0])});
    }
  }

  /** De-duplicating twice is the same as de-duplicating once. */
  lemma DistinctByIdempotent<T, K>(xs: seq<T>, key: T -> K)
    ensures DistinctBy(DistinctBy(xs, key, {}), key, {}) == DistinctBy(xs, key, {})
  {
    DistinctByOfDistinct(DistinctBy(xs, key, {}), key, {});
  }

  /** A filter that every element passes changes nothing. */
  lemma {:induction false} FilterAll<T>(xs: seq<T>, p: T -> bool)
    requires forall i :: 0 <= i < |xs| ==> p(xs[i])
    ensures Filter(xs, p) == xs
  {
    if xs != [] {
      FilterAll(xs[1..], p);
    }
  }

  /** Two successive filters are one filter by the conjunction of their tests. */
  lemma {:induction false} FilterFilter<T>(xs: seq<T>, p: T -> bool, q: T -> bool, both: T -> bool)
    requires forall x :: both(x) == (p(x) && q(x))
    ensures Filter(Filter(xs, p), q) == Filter(xs, both)
  {
    if xs != [] {
      FilterFilter(xs[1..], p, q, both);
    }
  }

  /** Filtering after a map is mapping after the filter that asks the same question of the source element. */
  lemma {:induction false} FilterMap<T, U>(xs: seq<T>, f: T -> U, p: U -> bool, q: T -> bool)
    requires forall x :: q(x) == p(f(x))
    ensures Filter(Map(xs, f), p) == Map(Filter(xs, q), f)
  {
    if xs != [] {
      FilterMap(xs[1..], f, p, q);
      assert Map(xs, f)[1..] == Map(xs[1..], f);
    }
  }

  /** De-duplicating after a map is mapping after de-duplicating on the key of the mapped element. */
  lemma {:induction false} DistinctByMap<T, U, K>(xs: seq<T>, f: T -> U, k2: U -> K, k1: T -> K, seen: set<K>)
    requires forall x :: k1(x) == k2(f(x))
    ensures DistinctBy(Map(xs, f), k2, seen) == Map(DistinctBy(xs, k1, seen), f)
  {
    if xs != [] {
      assert Map(xs, f)[1..] == Map(xs[1..], f);
      if k1(xs[0]) in seen {
        DistinctByMap(xs[1..], f, k2, k1, seen);
      } else {
        DistinctByMap(xs[1..], f, k2, k1, seen + {k1(xs[0])});
      }
    }
  }

  /**
   * An element that passes `q`, and whose key no earlier passing element shares, survives
   * filtering by `q` followed by de-duplication.
   */
  lemma {:induction false} DistinctByFilterKeepsFirst<T, K>(xs: seq<T>, q: T -> bool, key: T -> K, seen: set<K>, j: int)
    requires 0 <= j < |xs| && q(xs[j]) && key(xs[j]) !in seen
    requires forall i :: 0 <= i < j && q(xs[i]) ==> key(xs[i]) != key(xs[j])
    ensures xs[j] in DistinctBy(Filter(xs, q), key, seen)
  {
    var f := Filter(xs, q);
    if j == 0 {
      assert f == [xs[0]] + Filter(xs[1..], q);
      assert f[0] == xs[0];
    } else {
      assert xs[1..][j - 1] == xs[j];
      if q(xs[0]) {
        assert f == [xs[0]] + Filter(xs[1..], q);
        assert f[1..] == Filter(xs[1..], q);
        var seen' := if key(xs[0]) in seen then seen else seen + {key(xs[0])};
        DistinctByFilterKeepsFirst(xs[1..], q, key, seen', j - 1);
      } else {
        DistinctByFilterKeepsFirst(xs[1..], q, key, seen, j - 1);
      }
    }
  }

  /** Mapping carries membership along. */
  lemma MapIn<T, U>(xs: seq<T>, f: T -> U, x: T)
    requires x in xs
    ensures f(x) in Map(xs, f)
  {
    var i :| 0 <= i < |xs| && xs[i] == x;
    assert Map(xs, f)[i] == f(x);
  }

  /** When every element passes `p` and `f` sends it to the matching element of `ys`, filter-then-map yields `ys`. */
  lemma FilterMapPointwise<T, U>(xs: seq<T>, p: T -> bool, f: T -> U, ys: seq<U>)
    requires |xs| == |ys|
    requires forall i :: 0 <= i < |xs| ==> p(xs[i]) && f(xs[i]) == ys[i]
    ensures Map(Filter(xs, p), f) == ys
  {
    FilterAll(xs, p);
  }

  /** A map that fixes every element changes nothing. */
  lemma MapFixed<T>(xs: seq<T>, f: T -> T)
    requires forall i :: 0 <= i < |xs| ==> f(xs[i]) == xs[i]
    ensures Map(xs, f) == xs
  {
  }

  /** The keys of the elements of `xs`. */
  function KeySet<T, K>(xs: seq<T>, key: T -> K): (r: set<K>)
    ensures forall i :: 0 <= i < |xs| ==> key(xs[i]) in r
    ensures forall k :: k in r ==> exists i :: 0 <= i < |xs| && key(xs[i]) == k
  {
    set i | 0 <= i < |xs| :: key(xs[i])
  }

  lemma KeySetCons<T, K>(y: T, rest: seq<T>, key: T -> K)
    ensures KeySet([y] + rest, key) == {key(y)} + KeySet(rest, key)
  {
    var ys := [y] + rest;
    forall k | k in KeySet(ys, key)
      ensures k in {key(y)} + KeySet(rest, key)
    {
      var i :| 0 <= i < |ys| && key(ys[i]) == k;
      if i > 0 {
        assert ys[i] == rest[i - 1];
      }
    }
    forall k | k in KeySet(rest, key)
      ensures k in KeySet(ys, key)
    {
      var i :| 0 <= i < |rest| && key(rest[i]) == k;
      assert ys[i + 1] == rest[i];
    }
    assert key(ys[0]) in KeySet(ys, key);
  }

  /** Filtering one more element at the end appends it exactly when it passes. */
  lemma {:induction false} FilterSnoc<T>(xs: seq<T>, x: T, p: T -> bool)
    ensures Filter(xs + [x], p) == Filter(xs, p) + (if p(x) then [x] else [])
  {
    if xs == [] {
      assert [] + [x] == [x];
    } else {
      assert (xs + [x])[1..] == xs[1..] + [x];
      FilterSnoc(xs[1..], x, p);
    }
  }

  /**
   * De-duplicating one more element at the end appends it exactly when its key is neither
   * in `seen` nor the key of an element already kept: the `seen`-set loop.
   */
  lemma {:induction false} DistinctBySnoc<T, K>(xs: seq<T>, x: T, key: T -> K, seen: set<K>)
    ensures DistinctBy(xs + [x], key, seen) ==
      DistinctBy(xs, key, seen) + (if key(x) in seen + KeySet(DistinctBy(xs, key, seen), key) then [] else [x])
  {
    if xs == [] {
      assert [] + [x] == [x];
    } else {
      assert (xs + [x])[1..] == xs[1..] + [x];
      var y := xs[0];
      if key(y) in seen {
        DistinctBySnoc(xs[1..], x, key, seen);
      } else {
        var seen' := seen + {key(y)};
        DistinctBySnoc(xs[1..], x, key, seen');
        var rest := DistinctBy(xs[1..], key, seen');
        assert DistinctBy(xs, key, seen) == [y] + rest;
        KeySetCons(y, rest, key);
      }
    }
  }

  /** The middle part of a three-way concatenation is recovered by slicing. */
  lemma MiddleSlice<T>(a: seq<T>, b: seq<T>, c: seq<T>)
    ensures (a + b + c)[|a|..|a| + |b|] == b
  {
    assert forall k :: 0 <= k < |b| ==> (a + b + c)[|a| + k] == b[k];
  }

  /** Indexing the middle part of a three-way concatenation. */
  lemma MiddleIndex<T>(a: seq<T>, b: seq<T>, c: seq<T>)
    ensures forall k :: 0 <= k < |b| ==> (a + b + c)[|a| + k] == b[k]
    ensures |c| > 0 ==> (a + b + c)[|a| + |b|] == c[0]
  {
  }

  /** Filters by two predicates that agree everywhere are the same. */
  lemma {:induction false} FilterSame<T>(xs: seq<T>, p: T -> bool, q: T -> bool)
    requires forall x :: p(x) == q(x)
    ensures Filter(xs, p) == Filter(xs, q)
  {
    if xs != [] {
      FilterSame(xs[1..], p, q);
    }
  }

  /** Mapping one more element at the end appends its image. */
  lemma {:induction false} MapSnoc<T, U>(xs: seq<T>, x: T, f: T -> U)
    ensures Map(xs + [x], f) == Map(xs, f) + [f(x)]
  {
  }

  /** The values `f` yields on `xs`, in order, skipping the elements on which it yields none (`if p: out.append(p)`). */
  function Collect<T, U>(xs: seq<T>, f: T -> Option<U>): (r: seq<U>)
    ensures |r| <= |xs|
  {
    if xs == [] then []
    else Collect(xs[..|xs| - 1], f) + (if f(xs[|xs| - 1]).Some? then [f(xs[|xs| - 1]).value] else [])
  }

  lemma CollectSnoc<T, U>(xs: seq<T>, x: T, f: T -> Option<U>)
    ensures Collect(xs + [x], f) == Collect(xs, f) + (if f(x).Some? then [f(x).value] else [])
  {
    assert (xs + [x])[..|xs|] == xs;
  }

  /** Every collected value comes from some element, and every element's value is collected. */
  lemma {:induction false} CollectFrom<T, U>(xs: seq<T>, f: T -> Option<U>)
    ensures forall i :: 0 <= i < |Collect(xs, f)| ==> exists j :: 0 <= j < |xs| && f(xs[j]) == Some(Collect(xs, f)[i])
    ensures forall j :: 0 <= j < |xs| && f(xs[j]).Some? ==> f(xs[j]).value in Collect(xs, f)
  {
    if xs != [] {
      var init := xs[..|xs| - 1];
      CollectFrom(init, f);
      var r0 := Collect(init, f);
      var r := Collect(xs, f);
      assert forall j :: 0 <= j < |init| ==> init[j] == xs[j];
      assert forall i :: 0 <= i < |r0| ==> r[i] == r0[i];
      assert |r| == |r0| || |r| == |r0| + 1;
      forall i | 0 <= i < |r|
        ensures exists j :: 0 <= j < |xs| && f(xs[j]) == Some(r[i])
      {
        if i < |r0| {
          var j :| 0 <= j < |init| && f(init[j]) == Some(r0[i]);
          assert f(xs[j]) == Some(r[i]);
        } else {
          assert f(xs[|xs| - 1]) == Some(r[i]);
        }
      }
      forall j | 0 <= j < |xs| && f(xs[j]).Some?
        ensures f(xs[j]).value in r
      {
        if j < |init| {
          assert f(init[j]).value in r0;
        } else {
          assert r[|r0|] == f(xs[j]).value;
        }
      }
    } else {
      assert Collect(xs, f) == [];
    }
  }

  lemma KeySetSnoc<T, K>(xs: seq<T>, x: T, key: T -> K)
    ensures KeySet(xs + [x], key) == KeySet(xs, key) + {key(x)}
  {
    var ys := xs + [x];
    forall k | k in KeySet(ys, key)
      ensures k in KeySet(xs, key) + {key(x)}
    {
      var i :| 0 <= i < |ys| && key(ys[i]) == k;
      if i < |xs| {
        assert ys[i] == xs[i];
      }
    }
    forall k | k in KeySet(xs, key)
      ensures k in KeySet(ys, key)
    {
      var i :| 0 <= i < |xs| && key(xs[i]) == k;
      assert ys[i] == xs[i];
    }
    assert key(ys[|xs|]) in KeySet(ys, key);
  }
}
