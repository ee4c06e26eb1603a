/** What the values of a dictionary hold altogether. */
module MapSums {

  /** The total of `part(v)` over all values `v` of a dictionary. */
  ghost function Total<K(!new), V, T>(m: map<K, V>, part: V -> multiset<T>): multiset<T> {
    Sum(map k | k in m :: part(m[k]))
  }

  ghost function Sum<K(!new), T>(m: map<K, multiset<T>>): multiset<T>
    decreases |m|
  {
    if m == map[] then multiset{}
    else
      var k :| k in m;
      assert (m - {k}).Keys == m.Keys - {k};
      m[k] + Sum(m - {k})
  }

  /** The total does not depend on the order in which the keys are visited. */
  lemma {:induction false} SumWithout<K(!new), T>(m: map<K, multiset<T>>, k: K)
    requires k in m
    ensures Sum(m) == m[k] + Sum(m - {k})
    decreases |m|
  {
    var j :| j in m && Sum(m) == m[j] + Sum(m - {j});
    if j != k {
      assert (m - {j}).Keys == m.Keys - {j} && (m - {k}).Keys == m.Keys - {k};
      SumWithout(m - {j}, k);
      SumWithout(m - {k}, j);
      assert m - {j} - {k} == m - {k} - {j};
    }
  }

  lemma TotalWithout<K(!new), V, T>(m: map<K, V>, part: V -> multiset<T>, k: K)
    requires k in m
    ensures Total(m, part) == part(m[k]) + Total(m - {k}, part)
  {
    var parts := map j | j in m :: part(m[j]);
    var rest := m - {k};
    SumWithout(parts, k);
    assert parts - {k} == map j | j in rest :: part(rest[j]);
  }

  lemma TotalWith<K(!new), V, T>(m: map<K, V>, part: V -> multiset<T>, k: K, v: V)
    requires k !in m
    ensures Total(m[k := v], part) == Total(m, part) + part(v)
  {
    var more := m[k := v];
    TotalWithout(more, part, k);
    assert more - {k} == m;
  }

  lemma TotalOfNone<K(!new), V, T>(m: map<K, V>, part: V -> multiset<T>)
    requires m == map[]
    ensures Total(m, part) == multiset{}
  {
    var parts := map k | k in m :: part(m[k]);
    assert parts.Keys == {};
  }

  lemma WithoutAbsent<K, V>(m: map<K, V>, k: K)
    requires k !in m
    ensures m - {k} == m
  {
  }

  lemma {:induction false} TotalOfSingles<K(!new), V(!new), T>(m: map<K, V>, part: V -> multiset<T>)
    requires forall v :: |part(v)| == 1
    ensures |Total(m, part)| == |m|
    decreases |m|
  {
    if m == map[] {
      TotalOfNone(m, part);
    } else {
      var k :| k in m;
      var rest := m - {k};
      assert rest.Keys == m.Keys - {k};
      TotalWithout(m, part, k);
      TotalOfSingles(rest, part);
    }
  }

  lemma SizeWithout<K, V>(m: map<K, V>, k: K)
    ensures |m - {k}| == if k in m then |m| - 1 else |m|
  {
    assert (m - {k}).Keys == m.Keys - {k};
  }

  lemma SizeWith<K, V>(m: map<K, V>, k: K, v: V)
    requires k !in m
    ensures |m[k := v]| == |m| + 1
  {
    assert m[k := v].Keys == m.Keys + {k};
  }

  lemma TotalDependsOnParts<K(!new), V, T>(m: map<K, V>, n: map<K, V>, part: V -> multiset<T>)
    requires m.Keys == n.Keys && forall k <- m :: part(m[k]) == part(n[k])
    ensures Total(m, part) == Total(n, part)
  {
    assert (map k | k in m :: part(m[k])) == map k | k in n :: part(n[k]);
  }

  lemma {:induction false} SameSizeSameMap<K(!new), V>(m: map<K, V>, n: map<K, V>)
    requires |m| == |n| && forall k <- m :: k in n && n[k] == m[k]
    ensures m == n
  {
    if k :| k in n && k !in m {
      assert m.Keys <= n.Keys - {k};
      assert |m.Keys| <= |n.Keys - {k}| by { SubsetIsSmaller(m.Keys, n.Keys - {k}); }
    }
  }

  lemma {:induction false} SubsetIsSmaller<K>(a: set<K>, b: set<K>)
    requires a <= b
    ensures |a| <= |b|
  {
    assert b == a + (b - a);
  }
}
