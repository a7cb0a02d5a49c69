/**
 The sum of a weight over the values of a finite map, and how it changes
 when one key is set.
 */
module MapSum {

  /** Some key of a non-empty map. */
  ghost function AnyKey<V>(m: map<string, V>): (k: string)
    requires |m| > 0
    ensures k in m
  {
    assert m.Keys != {} by {
      assert |m.Keys| == |m|;
    }
    var k :| k in m; k
  }

  /** The total weight of the values of a map, each value weighed by `w`. */
  ghost function SumOver<V>(m: map<string, V>, w: V -> nat): nat
    decreases |m|
  {
    if |m| == 0 then 0
    else
      var k := AnyKey(m);
      w(m[k]) + SumOver(m - {k}, w)
  }

  /** Taking a key out of a map leaves one key fewer. */
  lemma RemoveSize<V>(m: map<string, V>, k: string)
    requires k in m
    ensures |m - {k}| == |m| - 1
  {
    assert (m - {k}).Keys == m.Keys - {k};
  }

  /** Any key may be taken out first. */
  lemma {:induction false} SumOverRemove<V>(m: map<string, V>, w: V -> nat, k: string)
    requires k in m
    ensures SumOver(m, w) == w(m[k]) + SumOver(m - {k}, w)
    decreases |m|
  {
    RemoveSize(m, k);
    var j := AnyKey(m);
    if j != k {
      RemoveSize(m, j);
      var mj, mk := m - {j}, m - {k};
      assert k in mj && j in mk;
      SumOverRemove(mj, w, k);
      SumOverRemove(mk, w, j);
      assert mj - {k} == mk - {j};
      assert mj[k] == m[k] && mk[j] == m[j];
    }
  }

  /** Setting one key changes the sum by the difference of the two values. */
  lemma SumOverUpdate<V>(m: map<string, V>, w: V -> nat, k: string, v: V)
    ensures SumOver(m[k := v], w) == SumOver(m, w) - (if k in m then w(m[k]) else 0) + w(v)
  {
    SumOverRemove(m[k := v], w, k);
    assert m[k := v] - {k} == m - {k};
    if k in m {
      SumOverRemove(m, w, k);
    } else {
      assert m - {k} == m;
    }
  }

}
