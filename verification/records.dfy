/** Plain JavaScript objects used as string-keyed records: property lookup,
    assignment and object spread (`{ ...a, ...b }`), with the property order
    JavaScript keeps (an existing key stays in place, a new key goes last). */
module Records {
  import opened Wrappers

  /** A record's own properties in enumeration order. */
  type Record<V> = seq<(string, V)>

  predicate UniqueKeys<V>(r: Record<V>) {
    forall i, j :: 0 <= i < j < |r| ==> r[i].0 != r[j].0
  }

  predicate HasKey<V>(r: Record<V>, k: string) {
    exists i :: 0 <= i < |r| && r[i].0 == k
  }

  /** `r[k]`: the value of the first property named `k`. */
  function Get<V>(r: Record<V>, k: string): (v: Option<V>)
    ensures v.Some? <==> HasKey(r, k)
    decreases |r|
  {
    if |r| == 0 then None
    else if r[0].0 == k then Some(r[0].1)
    else
      var v := Get(r[1..], k);
      assert HasKey(r[1..], k) ==> HasKey(r, k) by {
        if HasKey(r[1..], k) {
          var i :| 0 <= i < |r[1..]| && r[1..][i].0 == k;
          assert r[i + 1].0 == k;
        }
      }
      v
  }

  /** `r[k] = v`: replace the value in place when the key exists, otherwise
      add the property at the end. */
  function Assign<V>(r: Record<V>, k: string, v: V): (r': Record<V>)
    decreases |r|
  {
    if |r| == 0 then [(k, v)]
    else if r[0].0 == k then [(k, v)] + r[1..]
    else [r[0]] + Assign(r[1..], k, v)
  }

  /** `{ ...base, ...extra }`: the properties of `extra` assigned onto `base`
      one by one, in order. */
  function Spread<V>(base: Record<V>, extra: Record<V>): Record<V>
    decreases |extra|
  {
    if |extra| == 0 then base
    else
      var n := |extra| - 1;
      Assign(Spread(base, extra[..n]), extra[n].0, extra[n].1)
  }

  /** After an assignment the key holds the new value and every other key
      keeps its old one. */
  lemma {:induction false} AssignGet<V>(r: Record<V>, k: string, v: V, q: string)
    ensures Get(Assign(r, k, v), q) == if q == k then Some(v) else Get(r, q)
    decreases |r|
  {
    if |r| > 0 && r[0].0 != k {
      AssignGet(r[1..], k, v, q);
      assert Assign(r, k, v)[1..] == Assign(r[1..], k, v);
    } else if |r| > 0 {
      assert ([(k, v)] + r[1..])[1..] == r[1..];
    }
  }

  /** Assignment never duplicates a key. */
  lemma {:induction false} AssignUnique<V>(r: Record<V>, k: string, v: V)
    requires UniqueKeys(r)
    ensures UniqueKeys(Assign(r, k, v))
    ensures forall q :: HasKey(Assign(r, k, v), q) <==> q == k || HasKey(r, q)
    decreases |r|
  {
    var r' := Assign(r, k, v);
    forall q ensures HasKey(r', q) <==> q == k || HasKey(r, q) {
      AssignGet(r, k, v, q);
    }
    if |r| > 0 && r[0].0 != k {
      AssignUnique(r[1..], k, v);
      var tail := Assign(r[1..], k, v);
      assert r' == [r[0]] + tail;
      forall j | 0 < j < |r'| ensures r'[0].0 != r'[j].0 {
        var q := tail[j - 1].0;
        assert HasKey(tail, q);
        if q != k {
          assert HasKey(r[1..], q);
          var i :| 0 <= i < |r[1..]| && r[1..][i].0 == q;
          assert r[i + 1].0 == q;
        }
      }
    } else if |r| > 0 {
      assert r' == [(k, v)] + r[1..];
      forall i, j | 0 <= i < j < |r'| ensures r'[i].0 != r'[j].0 {
        if i == 0 {
          assert r'[j] == r[j];
        } else {
          assert r'[i] == r[i] && r'[j] == r[j];
        }
      }
    }
  }

  lemma GetAppend<V>(r: Record<V>, e: (string, V), k: string)
    requires !HasKey(r, e.0)
    ensures Get(r + [e], k) == if k == e.0 then Some(e.1) else Get(r, k)
    decreases |r|
  {
    if |r| > 0 {
      assert (r + [e])[1..] == r[1..] + [e];
      assert !HasKey(r[1..], e.0);
      GetAppend(r[1..], e, k);
    }
  }

  /** In a record without duplicate keys, looking up the key at a position
      gives the value at that position. */
  lemma {:induction false} GetAt<V>(r: Record<V>, i: nat)
    requires UniqueKeys(r) && i < |r|
    ensures Get(r, r[i].0) == Some(r[i].1)
    decreases |r|
  {
    if i > 0 {
      assert r[1..][i - 1] == r[i];
      GetAt(r[1..], i - 1);
    }
  }

  /** A key of a non-empty record is a key of all but its last property, or
      the last property's key. */
  lemma HasKeyLast<V>(r: Record<V>, q: string)
    requires |r| > 0
    ensures HasKey(r, q) <==> HasKey(r[..|r| - 1], q) || q == r[|r| - 1].0
  {
    var n := |r| - 1;
    if HasKey(r, q) {
      var i :| 0 <= i < |r| && r[i].0 == q;
      if i < n {
        assert r[..n][i].0 == q;
      }
    }
    if HasKey(r[..n], q) {
      var i :| 0 <= i < n && r[..n][i].0 == q;
      assert r[i].0 == q;
    }
  }

  /** Dropping the last property of a record without duplicate keys leaves
      one without duplicates that lacks the last key. */
  lemma UniqueInit<V>(r: Record<V>)
    requires UniqueKeys(r) && |r| > 0
    ensures UniqueKeys(r[..|r| - 1])
    ensures !HasKey(r[..|r| - 1], r[|r| - 1].0)
  {
    var n := |r| - 1;
    forall i | 0 <= i < n ensures r[..n][i].0 != r[n].0 {
      assert r[..n][i] == r[i];
    }
  }

  /** Spreading `extra` over `base`: a key of `extra` takes its value from
      `extra`, whatever `base` held; every other key keeps its value from
      `base`. So `extra` may override any property of `base`. */
  lemma {:induction false} SpreadGet<V>(base: Record<V>, extra: Record<V>, k: string)
    requires UniqueKeys(extra)
    ensures Get(Spread(base, extra), k) == if HasKey(extra, k) then Get(extra, k) else Get(base, k)
    decreases |extra|
  {
    if |extra| > 0 {
      var n := |extra| - 1;
      var init, last := extra[..n], extra[n];
      UniqueInit(extra);
      HasKeyLast(extra, k);
      SpreadGet(base, init, k);
      AssignGet(Spread(base, init), last.0, last.1, k);
      assert extra == init + [last];
      GetAppend(init, last, k);
    }
  }

  /** Spreading keeps keys unique and holds exactly the keys of both sides. */
  lemma {:induction false} SpreadUnique<V>(base: Record<V>, extra: Record<V>)
    requires UniqueKeys(base)
    ensures UniqueKeys(Spread(base, extra))
    ensures forall q :: HasKey(Spread(base, extra), q) <==> HasKey(base, q) || HasKey(extra, q)
    decreases |extra|
  {
    if |extra| > 0 {
      var n := |extra| - 1;
      SpreadUnique(base, extra[..n]);
      AssignUnique(Spread(base, extra[..n]), extra[n].0, extra[n].1);
      forall q ensures HasKey(extra, q) <==> HasKey(extra[..n], q) || q == extra[n].0 {
        HasKeyLast(extra, q);
      }
    }
  }

  /** `{ ...base, ...extra }` for a caller record without duplicate keys, with
      the lookup law of spreading in its contract. */
  function Overlay<V>(base: Record<V>, extra: Record<V>): (r: Record<V>)
    requires UniqueKeys(base) && UniqueKeys(extra)
    ensures UniqueKeys(r)
    ensures forall k :: Get(r, k) == if HasKey(extra, k) then Get(extra, k) else Get(base, k)
    ensures forall k :: HasKey(r, k) <==> HasKey(base, k) || HasKey(extra, k)
  {
    SpreadUnique(base, extra);
    assert forall k :: Get(Spread(base, extra), k) == if HasKey(extra, k) then Get(extra, k) else Get(base, k) by {
      forall k ensures Get(Spread(base, extra), k) == if HasKey(extra, k) then Get(extra, k) else Get(base, k) {
        SpreadGet(base, extra, k);
      }
    }
    Spread(base, extra)
  }
}
