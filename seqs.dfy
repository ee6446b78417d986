/**
 * Generic sequence operations the converter is built from: the first
 * successful test in an ordered list, order-preserving filters, keeping the
 * first element per key, and cutting a list into fixed-size pages.
 */
module Seqs {

  datatype Option<+T> = None | Some(value: T)

  // ---------------------------------------------------------------------
  // First match in an ordered list

  /** The result of the first element of `xs` for which `f` gives one. */
  function FirstSome<X, R>(xs: seq<X>, f: X -> Option<R>): (r: Option<R>)
    decreases |xs|
  {
    if xs == [] then None
    else if f(xs[0]).Some? then f(xs[0])
    else FirstSome(xs[1..], f)
  }

  /** First-match semantics: the answer of the first element that answers, or none at all. */
  lemma {:induction false} FirstSomeSpec<X, R>(xs: seq<X>, f: X -> Option<R>)
    ensures FirstSome(xs, f).None? <==> forall k :: 0 <= k < |xs| ==> f(xs[k]).None?
    ensures forall k :: 0 <= k < |xs| && f(xs[k]).Some? && (forall j :: 0 <= j < k ==> f(xs[j]).None?) ==>
              FirstSome(xs, f) == f(xs[k])
    decreases |xs|
  {
    if xs != [] && f(xs[0]).None? {
      var tail := xs[1..];
      FirstSomeSpec(tail, f);
      assert forall j :: 1 <= j < |xs| ==> xs[j] == tail[j - 1];
      forall k | 0 <= k < |xs| && f(xs[k]).Some? && (forall j :: 0 <= j < k ==> f(xs[j]).None?)
        ensures FirstSome(xs, f) == f(xs[k])
      {
        assert forall j :: 0 <= j < k - 1 ==> f(tail[j]).None?;
      }
    }
  }

  /** The least `j` with `i <= j <= n` that satisfies `p`. */
  function FirstFrom(i: nat, n: nat, p: nat -> bool): (r: Option<nat>)
    ensures r.Some? ==> i <= r.value <= n && p(r.value) && forall j :: i <= j < r.value ==> !p(j)
    ensures r.None? ==> forall j :: i <= j <= n ==> !p(j)
    decreases n + 1 - i
  {
    if i > n then None
    else if p(i) then Some(i)
    else FirstFrom(i + 1, n, p)
  }

  /** The index of the first element that satisfies `p`, searching from `i`. */
  function FirstIndex<X>(xs: seq<X>, p: X -> bool, i: nat): (r: Option<nat>)
    requires i <= |xs|
    ensures r.Some? ==> i <= r.value < |xs| && p(xs[r.value]) &&
                        forall j :: i <= j < r.value ==> !p(xs[j])
    ensures r.None? ==> forall j :: i <= j < |xs| ==> !p(xs[j])
    decreases |xs| - i
  {
    if i == |xs| then None
    else if p(xs[i]) then Some(i)
    else FirstIndex(xs, p, i + 1)
  }

  /** `[f(x) for x in xs]`. */
  function Map<X, Y>(xs: seq<X>, f: X -> Y): (r: seq<Y>)
    ensures |r| == |xs| && forall k {:trigger r[k]} :: 0 <= k < |xs| ==> r[k] == f(xs[k])
  {
    seq(|xs|, k requires 0 <= k < |xs| => f(xs[k]))
  }

  lemma MapSnoc<X, Y>(xs: seq<X>, x: X, f: X -> Y)
    ensures Map(xs + [x], f) == Map(xs, f) + [f(x)]
  {
    var all := xs + [x];
    forall k | 0 <= k < |all|
      ensures Map(all, f)[k] == (Map(xs, f) + [f(x)])[k]
    {
      if k < |xs| {
        assert all[k] == xs[k];
      }
    }
  }

  lemma MapConcat<X, Y>(xs: seq<X>, ys: seq<X>, f: X -> Y)
    ensures Map(xs + ys, f) == Map(xs, f) + Map(ys, f)
  {
    var all := xs + ys;
    forall k | 0 <= k < |all|
      ensures Map(all, f)[k] == (Map(xs, f) + Map(ys, f))[k]
    {
      if k >= |xs| {
        assert all[k] == ys[k - |xs|];
      }
    }
  }

  /** Applying `f` to a permutation gives a permutation. */
  lemma {:induction false} MapPermutation<X, Y>(xs: seq<X>, ys: seq<X>, f: X -> Y)
    requires multiset(xs) == multiset(ys)
    ensures multiset(Map(xs, f)) == multiset(Map(ys, f))
    decreases |xs|
  {
    if xs == [] {
      assert |ys| == |multiset(ys)| == 0;
    } else {
      var init, x := xs[..|xs| - 1], xs[|xs| - 1];
      assert xs == init + [x];
      assert x in multiset(ys);
      var i :| 0 <= i < |ys| && ys[i] == x;
      var before, after := ys[..i], ys[i + 1..];
      assert ys == before + [x] + after;
      calc {
        multiset(init);
        multiset(xs) - multiset{x};
        multiset(ys) - multiset{x};
        multiset(before) + multiset(after);
        multiset(before + after);
      }
      MapPermutation(init, before + after, f);
      MapConcat(init, [x], f);
      MapConcat(before, after, f);
      MapConcat(before + [x], after, f);
      MapConcat(before, [x], f);
    }
  }

  /** Moving the last element of a prefix across a concatenation. */
  lemma PrefixSnoc<T>(s: seq<T>, p: nat, rest: seq<T>)
    requires 0 < p <= |s|
    ensures s[..p - 1] + ([s[p - 1]] + rest) == s[..p] + rest
  {
    assert s[..p] == s[..p - 1] + [s[p - 1]];
  }
  // ---------------------------------------------------------------------
  // Filters

  /** `[x for x in xs if p(x)]`. */
  function Filter<X>(xs: seq<X>, p: X -> bool): (r: seq<X>)
    ensures |r| <= |xs|
    decreases |xs|
  {
    if xs == [] then []
    else Filter(xs[..|xs| - 1], p) + (if p(xs[|xs| - 1]) then [xs[|xs| - 1]] else [])
  }

  lemma FilterSnoc<X>(xs: seq<X>, x: X, p: X -> bool)
    ensures Filter(xs + [x], p) == Filter(xs, p) + (if p(x) then [x] else [])
  {
    assert (xs + [x])[..|xs|] == xs;
  }

  /** Filtering a concatenation filters each part. */
  lemma {:induction false} FilterConcat<X>(xs: seq<X>, ys: seq<X>, p: X -> bool)
    ensures Filter(xs + ys, p) == Filter(xs, p) + Filter(ys, p)
    decreases |ys|
  {
    if ys != [] {
      var init, y := ys[..|ys| - 1], ys[|ys| - 1];
      FilterConcat(xs, init, p);
      assert xs + ys == (xs + init) + [y];
      FilterSnoc(xs + init, y, p);
      FilterSnoc(init, y, p);
      assert ys == init + [y];
      calc {
        Filter(xs + ys, p);
        Filter((xs + init) + [y], p);
        Filter(xs + init, p) + (if p(y) then [y] else []);
        (Filter(xs, p) + Filter(init, p)) + (if p(y) then [y] else []);
        Filter(xs, p) + (Filter(init, p) + (if p(y) then [y] else []));
        Filter(xs, p) + Filter(ys, p);
      }
    } else {
      assert xs + ys == xs;
    }
  }

  /** The filter keeps every element that passes, as often as it occurs, and nothing else. */
  lemma {:induction false} FilterMultiset<X>(xs: seq<X>, p: X -> bool)
    ensures forall x :: multiset(Filter(xs, p))[x] == if p(x) then multiset(xs)[x] else 0
    decreases |xs|
  {
    if xs != [] {
      var init, last := xs[..|xs| - 1], xs[|xs| - 1];
      FilterMultiset(init, p);
      assert xs == init + [last];
    }
  }

  /** The elements of `xs` whose key is `k`, in order. */
  function WithKey<X, K(==)>(xs: seq<X>, key: X -> K, k: K): (r: seq<X>)
    ensures |r| <= |xs|
  {
    Filter(xs, (x: X) => key(x) == k)
  }

  lemma WithKeySnoc<X, K>(xs: seq<X>, x: X, key: X -> K, k: K)
    ensures WithKey(xs + [x], key, k) == WithKey(xs, key, k) + (if key(x) == k then [x] else [])
  {
    FilterSnoc(xs, x, (x: X) => key(x) == k);
  }

  lemma WithKeyConcat<X, K>(xs: seq<X>, ys: seq<X>, key: X -> K, k: K)
    ensures WithKey(xs + ys, key, k) == WithKey(xs, key, k) + WithKey(ys, key, k)
  {
    FilterConcat(xs, ys, (x: X) => key(x) == k);
  }

  // ---------------------------------------------------------------------
  // The first element per key

  /** The set of keys of the elements of `xs`. */
  function KeysOf<X, K(==)>(xs: seq<X>, key: X -> K): set<K>
    decreases |xs|
  {
    if xs == [] then {} else KeysOf(xs[..|xs| - 1], key) + {key(xs[|xs| - 1])}
  }

  lemma KeysOfSnoc<X, K>(xs: seq<X>, x: X, key: X -> K)
    ensures KeysOf(xs + [x], key) == KeysOf(xs, key) + {key(x)}
  {
    assert (xs + [x])[..|xs|] == xs;
  }

  /** A key is in the set exactly when some element has it. */
  lemma {:induction false} KeysOfSpec<X, K>(xs: seq<X>, key: X -> K)
    ensures forall i :: 0 <= i < |xs| ==> key(xs[i]) in KeysOf(xs, key)
    ensures forall k :: k in KeysOf(xs, key) ==> exists i :: 0 <= i < |xs| && key(xs[i]) == k
    decreases |xs|
  {
    if xs != [] {
      var init := xs[..|xs| - 1];
      KeysOfSpec(init, key);
      assert forall i :: 0 <= i < |init| ==> init[i] == xs[i];
    }
  }

  /** No element with the key `k` among the elements of `xs` leaves nothing to collect. */
  lemma WithKeyAbsent<X, K>(xs: seq<X>, key: X -> K, k: K)
    requires k !in KeysOf(xs, key)
    ensures WithKey(xs, key, k) == []
  {
    KeysOfSpec(xs, key);
    FilterMultiset(xs, (x: X) => key(x) == k);
  }

  /**
   * The first element for each key, in order of first appearance: the
   * elements a loop keeps when it skips those whose key it has seen.
   */
  function FirstsBy<X, K(==)>(xs: seq<X>, key: X -> K): (r: seq<X>)
    ensures |r| <= |xs|
    decreases |xs|
  {
    if xs == [] then []
    else
      var init, x := xs[..|xs| - 1], xs[|xs| - 1];
      FirstsBy(init, key) + (if key(x) in KeysOf(init, key) then [] else [x])
  }

  /** The positions in `xs` of the elements `FirstsBy` keeps. */
  function FirstPositions<X, K(==)>(xs: seq<X>, key: X -> K): (r: seq<nat>)
    decreases |xs|
  {
    if xs == [] then []
    else
      var init := xs[..|xs| - 1];
      FirstPositions(init, key) + (if key(xs[|xs| - 1]) in KeysOf(init, key) then [] else [|xs| - 1])
  }

  lemma FirstsBySnoc<X, K>(xs: seq<X>, x: X, key: X -> K)
    ensures FirstsBy(xs + [x], key) == FirstsBy(xs, key) + (if key(x) in KeysOf(xs, key) then [] else [x])
  {
    assert (xs + [x])[..|xs|] == xs;
  }

  /** Element `i` is the first of `xs` with its key. */
  predicate FirstOfKey<X, K(==)>(xs: seq<X>, key: X -> K, i: nat) {
    i < |xs| && forall j :: 0 <= j < i ==> key(xs[j]) != key(xs[i])
  }

  /** The kept elements have every key of `xs`, each exactly once. */
  lemma {:induction false} FirstsByKeys<X, K>(xs: seq<X>, key: X -> K)
    ensures KeysOf(FirstsBy(xs, key), key) == KeysOf(xs, key)
    ensures forall i, j :: 0 <= i < j < |FirstsBy(xs, key)| ==>
              key(FirstsBy(xs, key)[i]) != key(FirstsBy(xs, key)[j])
    decreases |xs|
  {
    if xs != [] {
      var init, x := xs[..|xs| - 1], xs[|xs| - 1];
      var r0 := FirstsBy(init, key);
      FirstsByKeys(init, key);
      assert xs == init + [x];
      if key(x) !in KeysOf(init, key) {
        KeysOfSnoc(r0, x, key);
        KeysOfSpec(r0, key);
        var r := r0 + [x];
        forall i, j | 0 <= i < j < |r|
          ensures key(r[i]) != key(r[j])
        {
          if j == |r0| {
            assert r[i] == r0[i];
          } else {
            assert r[i] == r0[i] && r[j] == r0[j];
          }
        }
      } else {
        assert FirstsBy(xs, key) == r0;
      }
    }
  }

  /**
   * The kept elements are the first occurrences of their keys, taken at
   * increasing positions of `xs`.
   */
  lemma {:induction false} FirstsByPositions<X, K>(xs: seq<X>, key: X -> K)
    ensures var r, pos := FirstsBy(xs, key), FirstPositions(xs, key);
            |pos| == |r| &&
            (forall k :: 0 <= k < |r| ==> pos[k] < |xs| && r[k] == xs[pos[k]] && FirstOfKey(xs, key, pos[k])) &&
            (forall k, l :: 0 <= k < l < |pos| ==> pos[k] < pos[l])
    decreases |xs|
  {
    if xs != [] {
      var init, x := xs[..|xs| - 1], xs[|xs| - 1];
      FirstsByPositions(init, key);
      KeysOfSpec(init, key);
      var r0, pos0 := FirstsBy(init, key), FirstPositions(init, key);
      var r, pos := FirstsBy(xs, key), FirstPositions(xs, key);
      forall k | 0 <= k < |r|
        ensures pos[k] < |xs| && r[k] == xs[pos[k]] && FirstOfKey(xs, key, pos[k])
      {
        if k < |r0| {
          assert r[k] == r0[k] && pos[k] == pos0[k];
          assert FirstOfKey(init, key, pos0[k]);
          assert forall j :: 0 <= j <= pos0[k] ==> xs[j] == init[j];
        } else {
          assert forall j :: 0 <= j < |init| ==> xs[j] == init[j];
        }
      }
    }
  }

  /** The keys in order of first appearance. */
  function KeyOrder<X, K(==)>(xs: seq<X>, key: X -> K): (r: seq<K>)
    ensures |r| <= |xs|
  {
    Map(FirstsBy(xs, key), key)
  }

  lemma KeyOrderSnoc<X, K>(xs: seq<X>, x: X, key: X -> K)
    ensures KeyOrder(xs + [x], key) ==
            KeyOrder(xs, key) + (if key(x) in KeysOf(xs, key) then [] else [key(x)])
  {
    FirstsBySnoc(xs, x, key);
    if key(x) !in KeysOf(xs, key) {
      MapSnoc(FirstsBy(xs, key), x, key);
    } else {
      assert FirstsBy(xs + [x], key) == FirstsBy(xs, key);
    }
  }

  /** The key order lists every key once. */
  lemma KeyOrderSpec<X, K>(xs: seq<X>, key: X -> K)
    ensures forall k :: k in KeyOrder(xs, key) <==> k in KeysOf(xs, key)
    ensures forall i, j :: 0 <= i < j < |KeyOrder(xs, key)| ==> KeyOrder(xs, key)[i] != KeyOrder(xs, key)[j]
  {
    var r := FirstsBy(xs, key);
    FirstsByKeys(xs, key);
    KeysOfSpec(r, key);
    forall k | k in KeysOf(xs, key)
      ensures k in KeyOrder(xs, key)
    {
      var i :| 0 <= i < |r| && key(r[i]) == k;
      assert KeyOrder(xs, key)[i] == k;
    }
  }

  // ---------------------------------------------------------------------
  // Group sizes

  /** The sizes of the groups of `xs` for the keys `ks`, added up. */
  function SizeSum<X, K(==)>(ks: seq<K>, xs: seq<X>, key: X -> K): nat
    decreases |ks|
  {
    if ks == [] then 0 else SizeSum(ks[..|ks| - 1], xs, key) + |WithKey(xs, key, ks[|ks| - 1])|
  }

  /** One more element adds one to the sum when its key is listed once. */
  lemma {:induction false} SizeSumSnoc<X, K>(ks: seq<K>, xs: seq<X>, x: X, key: X -> K)
    requires forall i, j :: 0 <= i < j < |ks| ==> ks[i] != ks[j]
    ensures SizeSum(ks, xs + [x], key) == SizeSum(ks, xs, key) + (if key(x) in ks then 1 else 0)
    decreases |ks|
  {
    if ks != [] {
      var init, k := ks[..|ks| - 1], ks[|ks| - 1];
      SizeSumSnoc(init, xs, x, key);
      WithKeySnoc(xs, x, key, k);
      assert ks == init + [k];
      assert key(x) == k ==> key(x) !in init;
    }
  }

  lemma SizeSumAppendKey<X, K>(ks: seq<K>, k: K, xs: seq<X>, key: X -> K)
    ensures SizeSum(ks + [k], xs, key) == SizeSum(ks, xs, key) + |WithKey(xs, key, k)|
  {
    assert (ks + [k])[..|ks|] == ks;
  }

  lemma KeyInKeyOrder<X, K>(xs: seq<X>, key: X -> K, k: K)
    requires k in KeysOf(xs, key)
    ensures k in KeyOrder(xs, key)
  {
    KeyOrderSpec(xs, key);
  }

  /** Every element lies in exactly one group: the group sizes add up to the length. */
  lemma {:induction false} GroupSizesSum<X, K>(xs: seq<X>, key: X -> K)
    ensures SizeSum(KeyOrder(xs, key), xs, key) == |xs|
    decreases |xs|
  {
    if xs != [] {
      var init, x := xs[..|xs| - 1], xs[|xs| - 1];
      assert xs == init + [x];
      GroupSizesSum(init, key);
      KeyOrderSnoc(init, x, key);
      var ks := KeyOrder(init, key);
      KeyOrderSpec(init, key);
      SizeSumSnoc(ks, init, x, key);
      if key(x) !in KeysOf(init, key) {
        assert KeyOrder(xs, key) == ks + [key(x)];
        SizeSumAppendKey(ks, key(x), xs, key);
        WithKeySnoc(init, x, key, key(x));
        WithKeyAbsent(init, key, key(x));
        assert |WithKey(xs, key, key(x))| == 1;
        assert key(x) !in ks;
        assert SizeSum(ks, xs, key) == |init|;
      } else {
        assert KeyOrder(xs, key) == ks;
        KeyInKeyOrder(init, key, key(x));
      }
    }
  }

  /** The groups of the keys `ks`, one after the other. */
  function Grouped<X, K(==)>(ks: seq<K>, xs: seq<X>, key: X -> K): seq<X>
    decreases |ks|
  {
    if ks == [] then []
    else Grouped(ks[..|ks| - 1], xs, key) + WithKey(xs, key, ks[|ks| - 1])
  }

  /** The group of `k` holds every element with key `k`, as often as it occurs. */
  lemma WithKeyMultiset<X, K>(xs: seq<X>, key: X -> K, k: K)
    ensures forall x :: multiset(WithKey(xs, key, k))[x] == if key(x) == k then multiset(xs)[x] else 0
  {
    FilterMultiset(xs, (x: X) => key(x) == k);
  }

  /**
   * Over distinct keys, the groups together hold each element whose key is
   * among them, as often as it occurs, and nothing else.
   */
  lemma {:induction false} GroupedMultiset<X, K>(ks: seq<K>, xs: seq<X>, key: X -> K)
    requires forall i, j :: 0 <= i < j < |ks| ==> ks[i] != ks[j]
    ensures forall x :: multiset(Grouped(ks, xs, key))[x] == if key(x) in ks then multiset(xs)[x] else 0
    decreases |ks|
  {
    if ks != [] {
      var init, k := ks[..|ks| - 1], ks[|ks| - 1];
      GroupedMultiset(init, xs, key);
      WithKeyMultiset(xs, key, k);
      assert ks == init + [k];
      assert k !in init by {
        forall i | 0 <= i < |init|
          ensures init[i] != k
        {
          assert init[i] == ks[i];
        }
      }
    }
  }

  /** Over distinct keys that include every element's key, the groups are a permutation. */
  lemma GroupedCovering<X, K>(ks: seq<K>, xs: seq<X>, key: X -> K)
    requires forall i, j :: 0 <= i < j < |ks| ==> ks[i] != ks[j]
    requires forall i :: 0 <= i < |xs| ==> key(xs[i]) in ks
    ensures multiset(Grouped(ks, xs, key)) == multiset(xs)
  {
    var g := Grouped(ks, xs, key);
    forall x
      ensures multiset(g)[x] == multiset(xs)[x]
    {
      if x in xs {
        var i :| 0 <= i < |xs| && xs[i] == x;
        assert key(xs[i]) in ks;
      }
      GroupedCount(ks, xs, key, x);
    }
    MultisetsAgree(g, xs);
  }

  /** Multisets with the same count for every element are equal. */
  lemma MultisetsAgree<X>(a: seq<X>, b: seq<X>)
    requires forall x :: multiset(a)[x] == multiset(b)[x]
    ensures multiset(a) == multiset(b)
  {
  }

  lemma GroupedCount<X, K>(ks: seq<K>, xs: seq<X>, key: X -> K, x: X)
    requires forall i, j :: 0 <= i < j < |ks| ==> ks[i] != ks[j]
    requires x in xs ==> key(x) in ks
    ensures multiset(Grouped(ks, xs, key))[x] == multiset(xs)[x]
  {
    GroupedMultiset(ks, xs, key);
  }

  /** Listing the groups in order of first appearance is a permutation. */
  lemma GroupedKeyOrder<X, K>(xs: seq<X>, key: X -> K)
    ensures multiset(Grouped(KeyOrder(xs, key), xs, key)) == multiset(xs)
  {
    KeyOrderSpec(xs, key);
    KeysOfSpec(xs, key);
    forall i | 0 <= i < |xs|
      ensures key(xs[i]) in KeyOrder(xs, key)
    {
      KeyInKeyOrder(xs, key, key(xs[i]));
    }
    GroupedCovering(KeyOrder(xs, key), xs, key);
  }


  // ---------------------------------------------------------------------
  // Pages

  /** The number of blocks of `n` that `a` fills, the last one possibly partly. */
  function CeilDiv(a: nat, n: nat): nat
    requires n > 0
    decreases a
  {
    if a == 0 then 0 else if a <= n then 1 else 1 + CeilDiv(a - n, n)
  }

  /** `[xs[i:i + n] for i in range(0, len(xs), n)]`. */
  function Chunks<X>(xs: seq<X>, n: nat): (r: seq<seq<X>>)
    requires n > 0
    decreases |xs|
  {
    if xs == [] then [] else if |xs| <= n then [xs] else [xs[..n]] + Chunks(xs[n..], n)
  }

  function Flatten<X>(xss: seq<seq<X>>): seq<X>
    decreases |xss|
  {
    if xss == [] then [] else xss[0] + Flatten(xss[1..])
  }

  /**
   * There are `CeilDiv(|xs|, n)` pages, none empty and none longer than `n`,
   * and read one after the other they give back `xs`.
   */
  lemma {:induction false} ChunksSpec<X>(xs: seq<X>, n: nat)
    requires n > 0
    ensures |Chunks(xs, n)| == CeilDiv(|xs|, n)
    ensures forall k :: 0 <= k < |Chunks(xs, n)| ==> 0 < |Chunks(xs, n)[k]| <= n
    ensures Flatten(Chunks(xs, n)) == xs
    decreases |xs|
  {
    if |xs| > n {
      var rest := xs[n..];
      ChunksSpec(rest, n);
      assert xs == xs[..n] + rest;
      assert Chunks(xs, n)[1..] == Chunks(rest, n);
    }
  }

  /** `page` is `xs[lo:lo + n]`, and that slice is not empty. */
  ghost predicate PageAt<X>(xs: seq<X>, n: nat, lo: nat, page: seq<X>) {
    lo < |xs| && page == xs[lo .. if lo + n < |xs| then lo + n else |xs|]
  }

  lemma PageShift<X>(xs: seq<X>, n: nat, lo: nat, page: seq<X>)
    requires n <= |xs| && PageAt(xs[n..], n, lo, page)
    ensures PageAt(xs, n, lo + n, page)
  {
  }

  /** Page `k` is `xs[k * n : k * n + n]`. */
  lemma {:induction false} ChunkAt<X>(xs: seq<X>, n: nat, k: nat)
    requires n > 0 && k < |Chunks(xs, n)|
    ensures PageAt(xs, n, k * n, Chunks(xs, n)[k])
    decreases |xs|
  {
    if k > 0 {
      var rest := xs[n..];
      assert Chunks(xs, n)[k] == Chunks(rest, n)[k - 1];
      ChunkAt(rest, n, k - 1);
      PageShift(xs, n, (k - 1) * n, Chunks(rest, n)[k - 1]);
      assert (k - 1) * n + n == k * n;
    }
  }

  // ---------------------------------------------------------------------
  // Stable sort, largest key first

  /** The sum of `f` over `xs`. */
  function SumBy<X>(xs: seq<X>, f: X -> int): int
    decreases |xs|
  {
    if xs == [] then 0 else f(xs[0]) + SumBy(xs[1..], f)
  }

  lemma {:induction false} SumByConcat<X>(xs: seq<X>, ys: seq<X>, f: X -> int)
    ensures SumBy(xs + ys, f) == SumBy(xs, f) + SumBy(ys, f)
    decreases |xs|
  {
    if xs != [] {
      SumByConcat(xs[1..], ys, f);
      assert (xs + ys)[0] == xs[0];
      assert (xs + ys)[1..] == xs[1..] + ys;
    } else {
      assert xs + ys == ys;
    }
  }

  /** Insert `x` before the first element whose key is not larger. */
  function InsertDesc<X>(x: X, s: seq<X>, key: X -> int): (r: seq<X>)
    decreases |s|
  {
    if s == [] || key(x) >= key(s[0]) then [x] + s else [s[0]] + InsertDesc(x, s[1..], key)
  }

  /** `xs.sort(key=key, reverse=True)`: largest key first, ties in their original order. */
  function SortDesc<X>(xs: seq<X>, key: X -> int): (r: seq<X>)
    decreases |xs|
  {
    if xs == [] then [] else InsertDesc(xs[0], SortDesc(xs[1..], key), key)
  }

  predicate SortedDesc<X>(s: seq<X>, key: X -> int) {
    forall i, j :: 0 <= i < j < |s| ==> key(s[i]) >= key(s[j])
  }

  lemma {:induction false} InsertDescMultiset<X>(x: X, s: seq<X>, key: X -> int)
    ensures multiset(InsertDesc(x, s, key)) == multiset(s) + multiset{x}
    decreases |s|
  {
    if s != [] && key(x) < key(s[0]) {
      InsertDescMultiset(x, s[1..], key);
      assert s == [s[0]] + s[1..];
    }
  }

  lemma {:induction false} InsertDescSorted<X>(x: X, s: seq<X>, key: X -> int)
    requires SortedDesc(s, key)
    ensures SortedDesc(InsertDesc(x, s, key), key)
    decreases |s|
  {
    if s != [] && key(x) < key(s[0]) {
      var y, rest := s[0], s[1..];
      InsertDescSorted(x, rest, key);
      InsertDescMultiset(x, rest, key);
      var r, r' := InsertDesc(x, s, key), InsertDesc(x, rest, key);
      assert r == [y] + r';
      forall i, j | 0 <= i < j < |r|
        ensures key(r[i]) >= key(r[j])
      {
        if i == 0 {
          assert r[j] == r'[j - 1];
          assert r[j] in multiset(r');
          if r[j] != x {
            assert r[j] in multiset(rest);
            var q :| 0 <= q < |rest| && rest[q] == r[j];
            assert rest[q] == s[q + 1];
          }
        } else {
          assert r[i] == r'[i - 1] && r[j] == r'[j - 1];
        }
      }
    }
  }

  lemma {:induction false} InsertDescWithKey<X>(x: X, s: seq<X>, key: X -> int, k: int)
    requires SortedDesc(s, key)
    ensures WithKey(InsertDesc(x, s, key), key, k) == (if key(x) == k then [x] else []) + WithKey(s, key, k)
    decreases |s|
  {
    if s != [] && key(x) < key(s[0]) {
      var y, rest := s[0], s[1..];
      assert SortedDesc(rest, key) by {
        forall i, j | 0 <= i < j < |rest| ensures key(rest[i]) >= key(rest[j]) {
          assert rest[i] == s[i + 1] && rest[j] == s[j + 1];
        }
      }
      InsertDescWithKey(x, rest, key, k);
      var r' := InsertDesc(x, rest, key);
      assert InsertDesc(x, s, key) == [y] + r';
      assert s == [y] + rest;
      WithKeyConcat([y], r', key, k);
      WithKeyConcat([y], rest, key, k);
      WithKeySnoc([], y, key, k);
      if key(x) == k {
        assert WithKey([y], key, k) == [];
      }
    } else {
      WithKeyConcat([x], s, key, k);
      WithKeySnoc([], x, key, k);
    }
  }

  lemma {:induction false} InsertDescSum<X>(x: X, s: seq<X>, key: X -> int)
    ensures SumBy(InsertDesc(x, s, key), key) == key(x) + SumBy(s, key)
    decreases |s|
  {
    if s != [] && key(x) < key(s[0]) {
      InsertDescSum(x, s[1..], key);
    }
  }

  /**
   * The sort puts larger keys first, is a permutation, and keeps the
   * elements of each key in their original order; so it keeps the sum of
   * the keys too.
   */
  lemma {:induction false} SortDescSpec<X>(xs: seq<X>, key: X -> int)
    ensures SortedDesc(SortDesc(xs, key), key)
    ensures multiset(SortDesc(xs, key)) == multiset(xs)
    ensures forall k :: WithKey(SortDesc(xs, key), key, k) == WithKey(xs, key, k)
    ensures SumBy(SortDesc(xs, key), key) == SumBy(xs, key)
    decreases |xs|
  {
    if xs != [] {
      var x, rest := xs[0], xs[1..];
      var sorted := SortDesc(rest, key);
      SortDescSpec(rest, key);
      InsertDescSorted(x, sorted, key);
      InsertDescMultiset(x, sorted, key);
      InsertDescSum(x, sorted, key);
      assert xs == [x] + rest;
      forall k
        ensures WithKey(SortDesc(xs, key), key, k) == WithKey(xs, key, k)
      {
        InsertDescWithKey(x, sorted, key, k);
        WithKeyConcat([x], rest, key, k);
        WithKeySnoc([], x, key, k);
      }
    }
  }
}
