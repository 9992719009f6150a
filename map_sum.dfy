/** Order-independent sums over the values of a finite map. */
module MapSum {

  /** Some element of a non-empty set; the choice is fixed by the set. */
  ghost function Pick<K>(s: set<K>): (k: K)
    requires s != {}
    ensures k in s
  {
    var k :| k in s; k
  }

  /** The sum of the values of `m`. */
  ghost function Sum<K>(m: map<K, real>): real
    decreases m.Keys
  {
    if m.Keys == {} then 0.0
    else
      var k := Pick(m.Keys);
      m[k] + Sum(m - {k})
  }

  /** The sum does not depend on which key is taken out first. */
  lemma {:induction false} SumRemove<K>(m: map<K, real>, x: K)
    requires x in m
    ensures Sum(m) == m[x] + Sum(m - {x})
    decreases m.Keys
  {
    var k := Pick(m.Keys);
    if k != x {
      SumRemove(m - {k}, x);
      SumRemove(m - {x}, k);
      assert m - {k} - {x} == m - {x} - {k};
    }
  }

  /** Overwriting one entry changes the sum by the difference of the two values. */
  lemma SumUpdate<K>(m: map<K, real>, x: K, v: real)
    ensures Sum(m[x := v]) == Sum(m) - (if x in m then m[x] else 0.0) + v
  {
    SumRemove(m[x := v], x);
    assert m[x := v] - {x} == m - {x};
    if x in m {
      SumRemove(m, x);
    } else {
      assert m - {x} == m;
    }
  }

  /** Dividing every value by `d` divides the sum by `d`. */
  lemma {:induction false} SumScale<K>(m: map<K, real>, d: real)
    requires d != 0.0
    ensures Sum(map k | k in m :: m[k] / d) == Sum(m) / d
    decreases m.Keys
  {
    var md := map k | k in m :: m[k] / d;
    if m.Keys == {} {
      assert md.Keys == {};
    } else {
      var k := Pick(m.Keys);
      var rest := m - {k};
      SumRemove(md, k);
      ScaleRemove(m, d, k);
      SumScale(rest, d);
      DivAdd(m[k], Sum(rest), d);
    }
  }

  /** Scaling commutes with taking a key out. */
  lemma ScaleRemove<K>(m: map<K, real>, d: real, k: K)
    requires d != 0.0
    ensures (map j | j in m :: m[j] / d) - {k} == map j | j in m - {k} :: (m - {k})[j] / d
  {
  }

  /** Division distributes over a sum. */
  lemma DivAdd(a: real, b: real, d: real)
    requires d != 0.0
    ensures a / d + b / d == (a + b) / d
  {
  }

  /** A map of non-negative values has a non-negative sum. */
  lemma {:induction false} SumNonNegative<K>(m: map<K, real>)
    requires forall k :: k in m ==> m[k] >= 0.0
    ensures Sum(m) >= 0.0
    decreases m.Keys
  {
    if m.Keys != {} {
      SumNonNegative(m - {Pick(m.Keys)});
    }
  }
}
