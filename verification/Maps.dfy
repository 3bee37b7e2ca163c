/** Sums over finite maps. */
module Maps {

  /** The weights of all values together. */
  ghost function Total<V(!new)>(m: map<nat, V>, weight: V -> nat): nat
    decreases |m|
  {
    if m == map[] then 0
    else
      var p :| p in m;
      assert |m - {p}| < |m| by { assert m.Keys == (m - {p}).Keys + {p}; }
      weight(m[p]) + Total(m - {p}, weight)
  }

  lemma {:induction false} TotalSplit<V(!new)>(m: map<nat, V>, weight: V -> nat, p: nat)
    requires p in m
    ensures Total(m, weight) == weight(m[p]) + Total(m - {p}, weight)
    decreases |m|
  {
    var q :| q in m && Total(m, weight) == weight(m[q]) + Total(m - {q}, weight);
    if q != p {
      assert m.Keys == (m - {q}).Keys + {q} && m.Keys == (m - {p}).Keys + {p};
      TotalSplit(m - {q}, weight, p);
      TotalSplit(m - {p}, weight, q);
      assert m - {q} - {p} == m - {p} - {q};
    }
  }

  /** Changing one value changes the sum by its weight. */
  lemma {:induction false} TotalChange<V(!new)>(m: map<nat, V>, weight: V -> nat, p: nat, v: V)
    requires p in m
    ensures Total(m[p := v], weight) + weight(m[p]) == Total(m, weight) + weight(v)
  {
    TotalSplit(m, weight, p);
    TotalSplit(m[p := v], weight, p);
    assert m[p := v] - {p} == m - {p};
  }
}
