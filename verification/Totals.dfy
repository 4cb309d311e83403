/** Sums and bags over the values of a finite map: how many threads are in some phase, which
    tasks they hold. */
module Totals {

  ghost function Total<K, P>(m: map<K, P>, w: P -> nat): nat
    decreases |m|
  {
    if m == map[] then 0
    else
      var k :| k in m;
      w(m[k]) + Total(m - {k}, w)
  }

  /** The order of summation does not matter. */
  lemma {:induction false} TotalRemove<K, P>(m: map<K, P>, w: P -> nat, k: K)
    requires k in m
    ensures Total(m, w) == w(m[k]) + Total(m - {k}, w)
    decreases |m|
  {
    var j :| j in m && Total(m, w) == w(m[j]) + Total(m - {j}, w);
    if j != k {
      TotalRemove(m - {j}, w, k);
      TotalRemove(m - {k}, w, j);
      assert m - {j} - {k} == m - {k} - {j};
    }
  }

  /** Entering or changing one entry. */
  lemma TotalUpdate<K, P>(m: map<K, P>, w: P -> nat, k: K, p: P)
    ensures Total(m[k := p], w) + (if k in m then w(m[k]) else 0) == Total(m, w) + w(p)
  {
    TotalRemove(m[k := p], w, k);
    assert m[k := p] - {k} == m - {k};
    if k in m { TotalRemove(m, w, k); } else { assert m - {k} == m; }
  }

  /** A weight of 0 or 1 counts entries. */
  lemma {:induction false} TotalCounts<K, P>(m: map<K, P>, w: P -> nat)
    requires forall k | k in m :: w(m[k]) <= 1
    ensures Total(m, w) <= |m|
    decreases |m|
  {
    if m != map[] {
      var k :| k in m;
      TotalRemove(m, w, k);
      TotalCounts(m - {k}, w);
    }
  }

  lemma {:induction false} TotalZero<K, P>(m: map<K, P>, w: P -> nat)
    ensures Total(m, w) == 0 <==> forall k | k in m :: w(m[k]) == 0
    decreases |m|
  {
    if m != map[] {
      var k :| k in m;
      TotalRemove(m, w, k);
      var rest := m - {k};
      TotalZero(rest, w);
      assert forall j | j in m :: j == k || (j in rest && rest[j] == m[j]);
    }
  }

  ghost function Bag<K, P, T>(m: map<K, P>, f: P -> multiset<T>): multiset<T>
    decreases |m|
  {
    if m == map[] then multiset{}
    else
      var k :| k in m;
      f(m[k]) + Bag(m - {k}, f)
  }

  lemma {:induction false} BagRemove<K, P, T>(m: map<K, P>, f: P -> multiset<T>, k: K)
    requires k in m
    ensures Bag(m, f) == f(m[k]) + Bag(m - {k}, f)
    decreases |m|
  {
    var j :| j in m && Bag(m, f) == f(m[j]) + Bag(m - {j}, f);
    if j != k {
      BagRemove(m - {j}, f, k);
      BagRemove(m - {k}, f, j);
      assert m - {j} - {k} == m - {k} - {j};
    }
  }

  lemma BagUpdate<K, P, T>(m: map<K, P>, f: P -> multiset<T>, k: K, p: P)
    ensures Bag(m[k := p], f) + (if k in m then f(m[k]) else multiset{}) == Bag(m, f) + f(p)
  {
    BagRemove(m[k := p], f, k);
    assert m[k := p] - {k} == m - {k};
    if k in m { BagRemove(m, f, k); } else { assert m - {k} == m; }
  }

  lemma BagUpdateAt<K, P, T>(m: map<K, P>, f: P -> multiset<T>, k: K, p: P, x: T)
    requires k in m
    ensures Bag(m[k := p], f)[x] + f(m[k])[x] == Bag(m, f)[x] + f(p)[x]
  {
    BagUpdate(m, f, k, p);
    assert (Bag(m[k := p], f) + f(m[k]))[x] == (Bag(m, f) + f(p))[x];
  }

  lemma {:induction false} BagSame<K, P, T>(m: map<K, P>, m': map<K, P>, f: P -> multiset<T>)
    requires m.Keys == m'.Keys && forall k | k in m :: f(m[k]) == f(m'[k])
    ensures Bag(m, f) == Bag(m', f)
    decreases |m|
  {
    if m != map[] {
      var k :| k in m;
      BagRemove(m, f, k);
      BagRemove(m', f, k);
      BagSame(m - {k}, m' - {k}, f);
    }
  }

  lemma {:induction false} BagEmpty<K, P, T>(m: map<K, P>, f: P -> multiset<T>)
    requires forall k | k in m :: f(m[k]) == multiset{}
    ensures Bag(m, f) == multiset{}
    decreases |m|
  {
    if m != map[] {
      var k :| k in m;
      BagRemove(m, f, k);
      BagEmpty(m - {k}, f);
    }
  }

  /** Two different entries contribute separately. */
  lemma BagTwo<K, P, T>(m: map<K, P>, f: P -> multiset<T>, j: K, k: K)
    requires j in m && k in m && j != k
    ensures f(m[j]) + f(m[k]) <= Bag(m, f)
  {
    BagRemove(m, f, j);
    BagRemove(m - {j}, f, k);
  }
}
