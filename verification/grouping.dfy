/** The group-by that `groupSpans` in `src/exporters/otlp-http.ts` performs at
    each of its two levels: a JavaScript `Map` from key to bucket, filled in one
    pass, read back in insertion order. */
module Grouping {
  import opened Seqs

  /** One bucket: its key and the elements that carry it. */
  datatype Group<T, K> = Group(key: K, members: seq<T>)

  /** The distinct keys of `xs`, in order of first occurrence. */
  function FirstKeys<T, K(==)>(key: T -> K, xs: seq<T>): seq<K>
    decreases |xs|
  {
    if |xs| == 0 then []
    else
      var init := FirstKeys(key, xs[..|xs| - 1]);
      var k := key(xs[|xs| - 1]);
      if k in init then init else init + [k]
  }

  function Is<T, K(==)>(key: T -> K, k: K): T -> bool {
    x => key(x) == k
  }

  /** The elements of `xs` with key `k`, in input order. */
  function Members<T, K(==)>(key: T -> K, xs: seq<T>, k: K): seq<T> {
    Filter(Is(key, k), xs)
  }

  /** The reference grouping: one group per distinct key, in order of first
      occurrence, holding exactly the elements with that key in input order. */
  function GroupByKey<T, K(==)>(key: T -> K, xs: seq<T>): (gs: seq<Group<T, K>>)
    ensures |gs| == |FirstKeys(key, xs)|
    ensures forall i :: 0 <= i < |gs| ==> gs[i].key == FirstKeys(key, xs)[i]
  {
    var ks := FirstKeys(key, xs);
    seq(|ks|, i requires 0 <= i < |ks| => Group(ks[i], Members(key, xs, ks[i])))
  }

  function AllMembers<T, K>(gs: seq<Group<T, K>>): seq<seq<T>> {
    Map((g: Group<T, K>) => g.members, gs)
  }

  // ---------------------------------------------------------------------
  // Keys

  lemma FirstKeysAppend<T, K>(key: T -> K, xs: seq<T>, x: T)
    ensures FirstKeys(key, xs + [x]) ==
      if key(x) in FirstKeys(key, xs) then FirstKeys(key, xs) else FirstKeys(key, xs) + [key(x)]
  {
    assert (xs + [x])[..|xs|] == xs;
  }

  /** A key is listed exactly when some element carries it. */
  lemma {:induction false} FirstKeysMembership<T, K>(key: T -> K, xs: seq<T>, k: K)
    ensures k in FirstKeys(key, xs) <==> exists i :: 0 <= i < |xs| && key(xs[i]) == k
    decreases |xs|
  {
    if |xs| > 0 {
      var init := xs[..|xs| - 1];
      FirstKeysMembership(key, init, k);
      assert xs == init + [xs[|xs| - 1]];
      if exists i :: 0 <= i < |xs| && key(xs[i]) == k {
        var i :| 0 <= i < |xs| && key(xs[i]) == k;
        if i < |xs| - 1 {
          assert key(init[i]) == k;
        }
      }
    }
  }

  /** No key is listed twice. */
  lemma {:induction false} FirstKeysDistinct<T, K>(key: T -> K, xs: seq<T>)
    ensures forall a, b :: 0 <= a < b < |FirstKeys(key, xs)| ==> FirstKeys(key, xs)[a] != FirstKeys(key, xs)[b]
    decreases |xs|
  {
    if |xs| > 0 {
      FirstKeysDistinct(key, xs[..|xs| - 1]);
    }
  }

  /** The position of the first element with key `k`. */
  function FirstIndex<T, K(==)>(key: T -> K, xs: seq<T>, k: K): (i: nat)
    requires exists j :: 0 <= j < |xs| && key(xs[j]) == k
    ensures i < |xs| && key(xs[i]) == k
    ensures forall j :: 0 <= j < i ==> key(xs[j]) != k
    decreases |xs|
  {
    if key(xs[0]) == k then 0
    else
      var j :| 0 <= j < |xs| && key(xs[j]) == k;
      assert key(xs[1..][j - 1]) == k;
      1 + FirstIndex(key, xs[1..], k)
  }

  lemma FirstIndexUnique<T, K>(key: T -> K, xs: seq<T>, k: K, i: nat)
    requires i < |xs| && key(xs[i]) == k
    requires forall j :: 0 <= j < i ==> key(xs[j]) != k
    ensures FirstIndex(key, xs, k) == i
  {
  }

  /** Groups appear in the order in which their keys first occur. */
  lemma {:induction false} FirstKeysOrder<T, K>(key: T -> K, xs: seq<T>)
    ensures forall a :: 0 <= a < |FirstKeys(key, xs)| ==>
      exists j :: 0 <= j < |xs| && key(xs[j]) == FirstKeys(key, xs)[a]
    ensures forall a, b :: 0 <= a < b < |FirstKeys(key, xs)| ==>
      FirstIndex(key, xs, FirstKeys(key, xs)[a]) < FirstIndex(key, xs, FirstKeys(key, xs)[b])
    decreases |xs|
  {
    var ks := FirstKeys(key, xs);
    forall a | 0 <= a < |ks| ensures exists j :: 0 <= j < |xs| && key(xs[j]) == ks[a] {
      FirstKeysMembership(key, xs, ks[a]);
    }
    if |xs| > 0 {
      var init, x := xs[..|xs| - 1], xs[|xs| - 1];
      assert xs == init + [x];
      FirstKeysOrder(key, init);
      var ks0 := FirstKeys(key, init);
      FirstKeysAppend(key, init, x);
      // first occurrences inside `init` stay where they were
      forall a | 0 <= a < |ks0|
        ensures FirstIndex(key, xs, ks0[a]) == FirstIndex(key, init, ks0[a])
      {
        var i := FirstIndex(key, init, ks0[a]);
        FirstIndexUnique(key, xs, ks0[a], i);
      }
      if key(x) !in ks0 {
        FirstKeysMembership(key, init, key(x));
        FirstIndexUnique(key, xs, key(x), |init|);
      }
    }
  }

  // ---------------------------------------------------------------------
  // The incremental step

  lemma MembersAppend<T, K>(key: T -> K, xs: seq<T>, x: T, k: K)
    ensures Members(key, xs + [x], k) == if key(x) == k then Members(key, xs, k) + [x] else Members(key, xs, k)
  {
    FilterAppend(Is(key, k), xs, x);
  }

  lemma MembersOfAbsentKey<T, K>(key: T -> K, xs: seq<T>, k: K)
    requires k !in FirstKeys(key, xs)
    ensures Members(key, xs, k) == []
  {
    FirstKeysMembership(key, xs, k);
  }

  /** Adding an element whose key is already present appends it to that
      key's group and leaves every other group alone. */
  lemma GroupStepExisting<T, K>(key: T -> K, xs: seq<T>, x: T, j: nat)
    requires j < |FirstKeys(key, xs)| && FirstKeys(key, xs)[j] == key(x)
    ensures GroupByKey(key, xs + [x]) ==
      GroupByKey(key, xs)[j := Group(key(x), GroupByKey(key, xs)[j].members + [x])]
  {
    FirstKeysAppend(key, xs, x);
    FirstKeysDistinct(key, xs);
    var ks := FirstKeys(key, xs);
    var lhs := GroupByKey(key, xs + [x]);
    var rhs := GroupByKey(key, xs)[j := Group(key(x), GroupByKey(key, xs)[j].members + [x])];
    forall i | 0 <= i < |ks| ensures lhs[i] == rhs[i] {
      MembersAppend(key, xs, x, ks[i]);
    }
  }

  /** Adding an element with a new key opens a new last group. */
  lemma GroupStepNew<T, K>(key: T -> K, xs: seq<T>, x: T)
    requires key(x) !in FirstKeys(key, xs)
    ensures GroupByKey(key, xs + [x]) == GroupByKey(key, xs) + [Group(key(x), [x])]
  {
    FirstKeysAppend(key, xs, x);
    var ks := FirstKeys(key, xs);
    var lhs := GroupByKey(key, xs + [x]);
    var rhs := GroupByKey(key, xs) + [Group(key(x), [x])];
    forall i | 0 <= i < |ks| + 1 ensures lhs[i] == rhs[i] {
      if i < |ks| {
        MembersAppend(key, xs, x, ks[i]);
      } else {
        MembersAppend(key, xs, x, key(x));
        MembersOfAbsentKey(key, xs, key(x));
      }
    }
  }

  /** The loop of `groupSpans`: a map from key to bucket position, the bucket
      created on first sight of its key, each element pushed onto its bucket. */
  method GroupBy<T, K(==)>(key: T -> K, xs: seq<T>) returns (gs: seq<Group<T, K>>)
    ensures gs == GroupByKey(key, xs)
  {
    gs := [];
    var index: map<K, nat> := map[];
    for i := 0 to |xs|
      invariant gs == GroupByKey(key, xs[..i])
      invariant forall k :: k in index <==> k in FirstKeys(key, xs[..i])
      invariant forall k :: k in index ==> index[k] < |gs| && gs[index[k]].key == k
    {
      var x := xs[i];
      var k := key(x);
      assert xs[..i + 1] == xs[..i] + [x];
      FirstKeysAppend(key, xs[..i], x);
      ghost var before := gs;
      if k !in index {
        GroupStepNew(key, xs[..i], x);
        index := index[k := |gs|];
        gs := gs + [Group(k, [])];
      } else {
        GroupStepExisting(key, xs[..i], x, index[k]);
      }
      var j := index[k];
      gs := gs[j := Group(k, gs[j].members + [x])];
    }
    assert xs[..|xs|] == xs;
  }

  // ---------------------------------------------------------------------
  // Partition

  lemma AllMembersUpdate<T, K>(gs: seq<Group<T, K>>, j: nat, x: T)
    requires j < |gs|
    ensures AllMembers(gs[j := Group(gs[j].key, gs[j].members + [x])]) == AllMembers(gs)[j := gs[j].members + [x]]
  {
  }

  lemma AllMembersAppend<T, K>(gs: seq<Group<T, K>>, g: Group<T, K>)
    ensures AllMembers(gs + [g]) == AllMembers(gs) + [g.members]
  {
  }

  /** Every element lands in exactly one group, as often as it occurs: the
      groups together are a permutation of the input. */
  lemma {:induction false} GroupByPartition<T, K>(key: T -> K, xs: seq<T>)
    ensures multiset(Flatten(AllMembers(GroupByKey(key, xs)))) == multiset(xs)
    decreases |xs|
  {
    if |xs| > 0 {
      var init, x := xs[..|xs| - 1], xs[|xs| - 1];
      assert xs == init + [x];
      GroupByPartition(key, init);
      var gs := GroupByKey(key, init);
      if key(x) in FirstKeys(key, init) {
        var j :| 0 <= j < |FirstKeys(key, init)| && FirstKeys(key, init)[j] == key(x);
        GroupStepExisting(key, init, x, j);
        AllMembersUpdate(gs, j, x);
        FlattenUpdate(AllMembers(gs), j, x);
      } else {
        GroupStepNew(key, init, x);
        AllMembersAppend(gs, Group(key(x), [x]));
        FlattenAppend(AllMembers(gs), [x]);
      }
    }
  }

  /** The groups hold as many elements as the input. */
  lemma GroupByCount<T, K>(key: T -> K, xs: seq<T>)
    ensures |Flatten(AllMembers(GroupByKey(key, xs)))| == |xs|
  {
    GroupByPartition(key, xs);
    assert |multiset(Flatten(AllMembers(GroupByKey(key, xs))))| == |multiset(xs)|;
  }

  /** Keys are pairwise distinct, every group is non-empty, and every member
      carries its group's key. */
  lemma GroupByShape<T, K>(key: T -> K, xs: seq<T>)
    ensures forall a, b :: 0 <= a < b < |GroupByKey(key, xs)| ==> GroupByKey(key, xs)[a].key != GroupByKey(key, xs)[b].key
    ensures forall a :: 0 <= a < |GroupByKey(key, xs)| ==> |GroupByKey(key, xs)[a].members| > 0
    ensures forall a, y :: 0 <= a < |GroupByKey(key, xs)| && y in GroupByKey(key, xs)[a].members ==>
      y in xs && key(y) == GroupByKey(key, xs)[a].key
  {
    FirstKeysDistinct(key, xs);
    var gs := GroupByKey(key, xs);
    forall a | 0 <= a < |gs| ensures |gs[a].members| > 0 {
      var k := gs[a].key;
      FirstKeysMembership(key, xs, k);
      var i :| 0 <= i < |xs| && key(xs[i]) == k;
      FilterCount(Is(key, k), xs, xs[i]);
      assert xs[i] in multiset(gs[a].members);
    }
    forall a, y | 0 <= a < |gs| && y in gs[a].members ensures y in xs && key(y) == gs[a].key {
      assert Is(key, gs[a].key)(y);
    }
  }
}
