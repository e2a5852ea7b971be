/** Map, filter and flatten over sequences, with the multiset facts the
    grouping proofs rely on. Every definition folds from the left, the way the
    source's loops consume their input. */
module Seqs {
  import opened Wrappers

  function Map<T, U>(f: T -> U, xs: seq<T>): (ys: seq<U>)
    ensures |ys| == |xs|
    ensures forall i :: 0 <= i < |xs| ==> ys[i] == f(xs[i])
  {
    seq(|xs|, i requires 0 <= i < |xs| => f(xs[i]))
  }

  /** The elements of `xs` satisfying `p`, in their order. */
  function Filter<T>(p: T -> bool, xs: seq<T>): (ys: seq<T>)
    ensures |ys| <= |xs|
    ensures forall y :: y in ys ==> y in xs && p(y)
    decreases |xs|
  {
    if |xs| == 0 then []
    else
      var init := Filter(p, xs[..|xs| - 1]);
      if p(xs[|xs| - 1]) then init + [xs[|xs| - 1]] else init
  }

  function Flatten<T>(xss: seq<seq<T>>): (ys: seq<T>)
    decreases |xss|
  {
    if |xss| == 0 then [] else Flatten(xss[..|xss| - 1]) + xss[|xss| - 1]
  }

  lemma FilterAppend<T>(p: T -> bool, xs: seq<T>, x: T)
    ensures Filter(p, xs + [x]) == if p(x) then Filter(p, xs) + [x] else Filter(p, xs)
  {
    assert (xs + [x])[..|xs|] == xs;
  }

  /** An element satisfying `p` is kept, as often as it occurs. */
  lemma {:induction false} FilterCount<T>(p: T -> bool, xs: seq<T>, y: T)
    ensures multiset(Filter(p, xs))[y] == if p(y) then multiset(xs)[y] else 0
    decreases |xs|
  {
    if |xs| > 0 {
      var init := xs[..|xs| - 1];
      FilterCount(p, init, y);
      assert xs == init + [xs[|xs| - 1]];
    }
  }

  /** Filtering twice is filtering by the conjunction. */
  lemma {:induction false} FilterFilter<T>(p: T -> bool, q: T -> bool, r: T -> bool, xs: seq<T>)
    requires forall x :: r(x) == (p(x) && q(x))
    ensures Filter(q, Filter(p, xs)) == Filter(r, xs)
    decreases |xs|
  {
    if |xs| > 0 {
      var init, x := xs[..|xs| - 1], xs[|xs| - 1];
      FilterFilter(p, q, r, init);
      if p(x) {
        FilterAppend(q, Filter(p, init), x);
      }
    }
  }

  /** `xs.map(f)` for an `f` that may throw: the first throw escapes and ends
      the walk; otherwise every result, in order. */
  function MapAll<T, U, E>(f: T -> Result<U, E>, xs: seq<T>): Result<seq<U>, E>
    decreases |xs|
  {
    if |xs| == 0 then Ok([])
    else
      var head :- f(xs[0]);
      var tail :- MapAll(f, xs[1..]);
      Ok([head] + tail)
  }

  /** `MapAll` throws exactly when some element throws; when `f` agrees with
      the total `g` wherever it does not throw, a walk that completes is
      `Map(g, xs)`. */
  lemma {:induction false} MapAllAgrees<T, U, E>(f: T -> Result<U, E>, g: T -> U, xs: seq<T>)
    requires forall i :: 0 <= i < |xs| && f(xs[i]).Ok? ==> f(xs[i]).value == g(xs[i])
    ensures MapAll(f, xs).Err? <==> exists i :: 0 <= i < |xs| && f(xs[i]).Err?
    ensures MapAll(f, xs).Ok? ==> MapAll(f, xs).value == Map(g, xs)
    decreases |xs|
  {
    if |xs| > 0 {
      var tail := xs[1..];
      MapAllAgrees(f, g, tail);
      if MapAll(f, tail).Err? {
        var j :| 0 <= j < |tail| && f(tail[j]).Err?;
        assert f(xs[j + 1]).Err?;
      }
      if exists i :: 0 <= i < |xs| && f(xs[i]).Err? {
        var i :| 0 <= i < |xs| && f(xs[i]).Err?;
        if i > 0 {
          assert f(tail[i - 1]).Err?;
        }
      }
      if MapAll(f, xs).Ok? {
        assert Map(g, xs) == [g(xs[0])] + Map(g, tail);
      }
    }
  }

  /** An element is in a flattening exactly when it is in one of the parts. */
  lemma {:induction false} FlattenMembership<T>(xss: seq<seq<T>>, x: T)
    ensures x in Flatten(xss) <==> exists i :: 0 <= i < |xss| && x in xss[i]
    decreases |xss|
  {
    if |xss| > 0 {
      var n := |xss| - 1;
      FlattenMembership(xss[..n], x);
      if exists i :: 0 <= i < n && x in xss[..n][i] {
        var i :| 0 <= i < n && x in xss[..n][i];
        assert x in xss[i];
      }
      if exists i :: 0 <= i < |xss| && x in xss[i] {
        var i :| 0 <= i < |xss| && x in xss[i];
        if i < n {
          assert x in xss[..n][i];
        }
      }
    }
  }

  lemma FlattenAppend<T>(xss: seq<seq<T>>, ys: seq<T>)
    ensures Flatten(xss + [ys]) == Flatten(xss) + ys
  {
    assert (xss + [ys])[..|xss|] == xss;
  }

  lemma {:induction false} FlattenLength<T>(xss: seq<seq<T>>, ys: seq<T>)
    ensures |Flatten(xss + [ys])| == |Flatten(xss)| + |ys|
  {
    FlattenAppend(xss, ys);
  }

  /** Appending to one inner sequence appends to the flattening, as a multiset. */
  lemma {:induction false} FlattenUpdate<T>(xss: seq<seq<T>>, j: nat, x: T)
    requires j < |xss|
    ensures multiset(Flatten(xss[j := xss[j] + [x]])) == multiset(Flatten(xss)) + multiset{x}
    decreases |xss|
  {
    var n := |xss| - 1;
    var updated := xss[j := xss[j] + [x]];
    assert updated[..n] + [updated[n]] == updated;
    assert xss[..n] + [xss[n]] == xss;
    FlattenAppend(updated[..n], updated[n]);
    FlattenAppend(xss[..n], xss[n]);
    if j < n {
      assert updated[..n] == xss[..n][j := xss[j] + [x]];
      FlattenUpdate(xss[..n], j, x);
    } else {
      assert updated[..n] == xss[..n];
    }
  }

  lemma MapConcat<T, U>(f: T -> U, xs: seq<T>, ys: seq<T>)
    ensures Map(f, xs + ys) == Map(f, xs) + Map(f, ys)
  {
  }

  /** Removing position `j` removes one occurrence of `ys[j]`. */
  lemma RemoveAt<T>(ys: seq<T>, j: nat)
    requires j < |ys|
    ensures multiset(ys) == multiset(ys[..j] + ys[j + 1..]) + multiset{ys[j]}
  {
    assert ys == ys[..j] + [ys[j]] + ys[j + 1..];
  }

  lemma MultisetCancel<T>(x: T, a: multiset<T>, b: multiset<T>)
    requires a + multiset{x} == b + multiset{x}
    ensures a == b
  {
    forall z ensures a[z] == b[z] {
      assert (a + multiset{x})[z] == (b + multiset{x})[z];
    }
  }

  /** Removing position `j` before mapping removes one occurrence of its
      image. */
  lemma MapRemoveAt<T, U>(f: T -> U, ys: seq<T>, j: nat)
    requires j < |ys|
    ensures multiset(Map(f, ys)) == multiset(Map(f, ys[..j] + ys[j + 1..])) + multiset{f(ys[j])}
  {
    assert Map(f, ys) == Map(f, ys[..j]) + [f(ys[j])] + Map(f, ys[j + 1..]);
    assert Map(f, ys[..j] + ys[j + 1..]) == Map(f, ys[..j]) + Map(f, ys[j + 1..]);
  }

  /** The first element of `xs` occurs in a permutation `ys` of it, and
      removing one occurrence from each side leaves permutations. */
  lemma MatchFirst<T>(xs: seq<T>, ys: seq<T>) returns (j: nat, rest: seq<T>)
    requires multiset(xs) == multiset(ys) && |xs| > 0
    ensures j < |ys| && ys[j] == xs[0] && rest == ys[..j] + ys[j + 1..]
    ensures multiset(xs[1..]) == multiset(rest)
  {
    assert xs == [xs[0]] + xs[1..];
    assert xs[0] in multiset(ys);
    j :| 0 <= j < |ys| && ys[j] == xs[0];
    rest := ys[..j] + ys[j + 1..];
    RemoveAt(ys, j);
    MultisetCancel(xs[0], multiset(xs[1..]), multiset(rest));
  }

  /** Mapping both sides of a matched first element keeps the multisets
      equal. */
  lemma MapMatched<T, U>(f: T -> U, xs: seq<T>, ys: seq<T>, j: nat)
    requires |xs| > 0 && j < |ys| && ys[j] == xs[0]
    requires multiset(Map(f, xs[1..])) == multiset(Map(f, ys[..j] + ys[j + 1..]))
    ensures multiset(Map(f, xs)) == multiset(Map(f, ys))
  {
    assert Map(f, xs) == [f(xs[0])] + Map(f, xs[1..]);
    MapRemoveAt(f, ys, j);
  }

  /** Mapping preserves being a permutation. */
  lemma {:induction false} MapPermutation<T, U>(f: T -> U, xs: seq<T>, ys: seq<T>)
    requires multiset(xs) == multiset(ys)
    ensures multiset(Map(f, xs)) == multiset(Map(f, ys))
    decreases |xs|
  {
    if |xs| == 0 {
      assert |ys| == |multiset(ys)| == 0;
    } else {
      var j, rest := MatchFirst(xs, ys);
      MapPermutation(f, xs[1..], rest);
      MapMatched(f, xs, ys, j);
    }
  }


  /** Flattening sequences that are pointwise permutations gives permutations. */
  lemma {:induction false} FlattenPointwise<T>(xss: seq<seq<T>>, yss: seq<seq<T>>)
    requires |xss| == |yss|
    requires forall i :: 0 <= i < |xss| ==> multiset(xss[i]) == multiset(yss[i])
    ensures multiset(Flatten(xss)) == multiset(Flatten(yss))
    decreases |xss|
  {
    if |xss| > 0 {
      var n := |xss| - 1;
      FlattenPointwise(xss[..n], yss[..n]);
    }
  }

  /** Mapping a flattening is flattening the mapped pieces. */
  lemma {:induction false} MapFlatten<T, U>(f: T -> U, xss: seq<seq<T>>)
    ensures Map(f, Flatten(xss)) == Flatten(Map((xs: seq<T>) => Map(f, xs), xss))
    decreases |xss|
  {
    if |xss| > 0 {
      var n := |xss| - 1;
      MapFlatten(f, xss[..n]);
      MapConcat(f, Flatten(xss[..n]), xss[n]);
      assert Map((xs: seq<T>) => Map(f, xs), xss)[..n] == Map((xs: seq<T>) => Map(f, xs), xss[..n]);
    }
  }

  predicate Distinct<T(==)>(xs: seq<T>) {
    forall i, j :: 0 <= i < j < |xs| ==> xs[i] != xs[j]
  }

  lemma {:induction false} DistinctCount<T>(xs: seq<T>, x: T)
    requires Distinct(xs)
    ensures multiset(xs)[x] == if x in xs then 1 else 0
    decreases |xs|
  {
    if |xs| > 0 {
      DistinctCount(xs[1..], x);
      assert xs == [xs[0]] + xs[1..];
      if x == xs[0] {
        assert x !in xs[1..];
      }
    }
  }

  /** Two duplicate-free sequences with the same elements are permutations of
      each other. */
  lemma DistinctSameElements<T>(xs: seq<T>, ys: seq<T>)
    requires Distinct(xs) && Distinct(ys)
    requires forall z :: z in xs <==> z in ys
    ensures multiset(xs) == multiset(ys)
  {
    forall z ensures multiset(xs)[z] == multiset(ys)[z] {
      DistinctCount(xs, z);
      DistinctCount(ys, z);
    }
  }
}
