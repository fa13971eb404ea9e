/** Sums over the values of a finite map. */
module Sums {
  ghost function Sum<K(!new)>(m: map<K, nat>): nat
    decreases |m|
  {
    if m == map[] then 0
    else
      var k :| k in m;
      OneFewer(m, k);
      m[k] + Sum(m - {k})
  }

  lemma OneFewer<K, V>(m: map<K, V>, k: K)
    requires k in m
    ensures |m - {k}| == |m| - 1
  {
    assert m.Keys == (m - {k}).Keys + {k};
    assert |m.Keys| == |m| && |(m - {k}).Keys| == |m - {k}|;
  }

  lemma {:induction false} SumWithout<K(!new)>(m: map<K, nat>, k: K)
    requires k in m
    ensures Sum(m) == m[k] + Sum(m - {k})
    decreases |m|
  {
    var x :| x in m && Sum(m) == m[x] + Sum(m - {x});
    if x != k {
      OneFewer(m, x);
      SumWithout(m - {x}, k);
      OneFewer(m, k);
      SumWithout(m - {k}, x);
      assert m - {x} - {k} == m - {k} - {x};
    }
  }

  function Value<K>(m: map<K, nat>, k: K): nat {
    if k in m then m[k] else 0
  }

  /** Storing `v` under `k` changes the sum by the difference. */
  lemma SumUpdate<K(!new)>(m: map<K, nat>, k: K, v: nat)
    ensures Sum(m[k := v]) + Value(m, k) == Sum(m) + v
  {
    SumWithout(m[k := v], k);
    assert m[k := v] - {k} == m - {k};
    if k in m {
      SumWithout(m, k);
    } else {
      assert m - {k} == m;
    }
  }

  lemma ValueAtMostSum<K(!new)>(m: map<K, nat>, k: K)
    ensures Value(m, k) <= Sum(m)
  {
    if k in m {
      SumWithout(m, k);
    }
  }

  // -------- weights of sets of keys --------

  function Restrict<K>(m: map<K, nat>, s: set<K>): map<K, nat> {
    map k | k in m && k in s :: m[k]
  }

  ghost function Weight<K(!new)>(m: map<K, nat>, s: set<K>): nat {
    Sum(Restrict(m, s))
  }

  lemma WeightAdd<K(!new)>(m: map<K, nat>, s: set<K>, k: K)
    requires k !in s
    ensures Weight(m, s + {k}) == Weight(m, s) + Value(m, k)
  {
    if k in m {
      SumWithout(Restrict(m, s + {k}), k);
      assert Restrict(m, s + {k}) - {k} == Restrict(m, s);
    } else {
      assert Restrict(m, s + {k}) == Restrict(m, s);
    }
  }

  lemma WeightOfNone<K(!new)>(m: map<K, nat>)
    ensures Weight(m, {}) == 0
  {
    assert Restrict(m, {}) == map[];
  }

  lemma {:induction false} InclusionExclusion<K(!new)>(m: map<K, nat>, a: set<K>, b: set<K>)
    ensures Weight(m, a) + Weight(m, b) == Weight(m, a + b) + Weight(m, a * b)
    decreases a
  {
    hide Weight;
    if a == {} {
      assert a + b == b && a * b == {};
    } else {
      var x :| x in a;
      var rest := a - {x};
      InclusionExclusion(m, rest, b);
      assert a == rest + {x};
      WeightAdd(m, rest, x);
      if x in b {
        assert a + b == rest + b && a * b == rest * b + {x};
        WeightAdd(m, rest * b, x);
      } else {
        assert a + b == rest + b + {x} && a * b == rest * b;
        WeightAdd(m, rest + b, x);
      }
    }
  }

  lemma WeightMonotone<K(!new)>(m: map<K, nat>, a: set<K>, b: set<K>)
    requires a <= b
    ensures Weight(m, a) <= Weight(m, b)
  {
    hide Weight;
    InclusionExclusion(m, a, b - a);
    WeightOfNone(m);
    assert a + (b - a) == b && a * (b - a) == {};
  }

  /** No set of keys weighs more than everything. */
  lemma WeightAtMostSum<K(!new)>(m: map<K, nat>, s: set<K>)
    ensures Weight(m, s) <= Sum(m)
  {
    hide Weight;
    WeightMonotone(m, s, s + m.Keys);
    assert Restrict(m, s + m.Keys) == m;
    WeightIsSum(m, s + m.Keys);
  }

  lemma WeightIsSum<K(!new)>(m: map<K, nat>, s: set<K>)
    requires Restrict(m, s) == m
    ensures Weight(m, s) == Sum(m)
  {
  }
}
