/** Finite sums over integer-keyed maps.

    JavaScript's `Array.from(map.values()).reduce((acc, v) => acc + ..., 0)` is
    modelled by `Sum`, which folds the entries in ascending key order. Real
    addition is associative and commutative, so the order is immaterial; the
    lemmas below make that precise (`SumRemove` takes out any key). */
module Sums {

  /** Every non-empty finite set of integers has a least element. */
  lemma MinExists(s: set<int>)
    requires s != {}
    ensures exists k :: k in s && forall j :: j in s ==> k <= j
  {
    if forall y :: y !in s {
      assert false;
    }
    var x :| x in s;
    if s != {x} {
      var t := s - {x};
      MinExists(t);
      var y :| y in t && forall j :: j in t ==> y <= j;
      var m := if x < y then x else y;
      forall j | j in s
        ensures m <= j
      {
        if j != x {
          assert j in t;
        }
      }
    } else {
      assert forall j :: j in s ==> x <= j;
    }
  }

  /** The least element of a non-empty set of integers. */
  function MinKey(s: set<int>): (k: int)
    requires s != {}
    ensures k in s
  {
    MinExists(s);
    var k :| k in s && forall j :: j in s ==> k <= j; k
  }

  /** The entries of `m` whose keys lie in `s`. */
  function Restrict<V>(m: map<int, V>, s: set<int>): (r: map<int, V>)
    ensures r.Keys == m.Keys * s
    ensures forall k :: k in r ==> r[k] == m[k]
  {
    map k | k in m && k in s :: m[k]
  }

  /** The sum of `f(k, m[k])` over all keys `k` of `m`. */
  function Sum<V>(m: map<int, V>, f: (int, V) -> real): (total: real)
    decreases m.Keys
  {
    if m.Keys == {} then 0.0
    else
      var k := MinKey(m.Keys);
      f(k, m[k]) + Sum(m - {k}, f)
  }

  /** The term `v` of an entry, for sums of a map's values. */
  function Value(k: int, v: real): (r: real) { v }

  /** Any single entry can be taken out of a sum. */
  lemma {:induction false} SumRemove<V>(m: map<int, V>, f: (int, V) -> real, k: int)
    requires k in m
    ensures Sum(m, f) == f(k, m[k]) + Sum(m - {k}, f)
    decreases m.Keys
  {
    var j := MinKey(m.Keys);
    if j != k {
      var rest := m - {j};
      SumRemove(rest, f, k);
      SumRemove(m - {k}, f, j);
      assert (m - {k}) - {j} == rest - {k};
    }
  }

  /** Adding an entry under a fresh key adds its term. */
  lemma SumInsert<V>(m: map<int, V>, f: (int, V) -> real, k: int, v: V)
    requires k !in m
    ensures Sum(m[k := v], f) == Sum(m, f) + f(k, v)
  {
    SumRemove(m[k := v], f, k);
    assert m[k := v] - {k} == m;
  }

  /** A map of two entries sums to their two terms. */
  lemma SumPair<V>(f: (int, V) -> real, k1: int, v1: V, k2: int, v2: V)
    requires k1 != k2
    ensures Sum(map[k1 := v1, k2 := v2], f) == f(k1, v1) + f(k2, v2)
  {
    var one: map<int, V> := map[k1 := v1];
    assert Sum(one, f) == f(k1, v1) by {
      SumInsert(map[], f, k1, v1);
      assert map[][k1 := v1] == one;
    }
    SumInsert(one, f, k2, v2);
    assert one[k2 := v2] == map[k1 := v1, k2 := v2];
  }

  /** Replacing an entry swaps its term. */
  lemma SumUpdate<V>(m: map<int, V>, f: (int, V) -> real, k: int, v: V)
    requires k in m
    ensures Sum(m[k := v], f) == Sum(m, f) - f(k, m[k]) + f(k, v)
  {
    SumRemove(m[k := v], f, k);
    SumRemove(m, f, k);
    assert m[k := v] - {k} == m - {k};
  }

  /** Sums over maps with the same keys and pointwise equal terms are equal. */
  lemma {:induction false} SumCongruent<V, W>(m1: map<int, V>, f: (int, V) -> real, m2: map<int, W>, g: (int, W) -> real)
    requires m1.Keys == m2.Keys
    requires forall k :: k in m1 ==> f(k, m1[k]) == g(k, m2[k])
    ensures Sum(m1, f) == Sum(m2, g)
    decreases m1.Keys
  {
    if m1.Keys != {} {
      var k := MinKey(m1.Keys);
      assert (m1 - {k}).Keys == (m2 - {k}).Keys;
      SumCongruent(m1 - {k}, f, m2 - {k}, g);
    }
  }

  /** A sum of terms that are all zero is zero. */
  lemma {:induction false} SumZero<V>(m: map<int, V>, f: (int, V) -> real)
    requires forall k :: k in m ==> f(k, m[k]) == 0.0
    ensures Sum(m, f) == 0.0
    decreases m.Keys
  {
    if m.Keys != {} {
      SumZero(m - {MinKey(m.Keys)}, f);
    }
  }

  /** Entries whose terms are zero can be left out of a sum: summing over the
      keys in `s` gives the same value. */
  lemma {:induction false} SumSkipsZeros<V>(m: map<int, V>, f: (int, V) -> real, s: set<int>)
    requires forall k :: k in m && k !in s ==> f(k, m[k]) == 0.0
    ensures Sum(m, f) == Sum(Restrict(m, s), f)
    decreases m.Keys
  {
    if m.Keys != {} {
      var k := MinKey(m.Keys);
      var rest := m - {k};
      SumSkipsZeros(rest, f, s);
      if k in s {
        SumRemove(Restrict(m, s), f, k);
        assert Restrict(m, s) - {k} == Restrict(rest, s);
      } else {
        assert Restrict(m, s) == Restrict(rest, s);
      }
    } else {
      assert Restrict(m, s) == map[];
    }
  }

  /** A sum of pointwise sums is the sum of the two sums. */
  lemma {:induction false} SumAdd<V>(m: map<int, V>, f: (int, V) -> real, g: (int, V) -> real, h: (int, V) -> real)
    requires forall k :: k in m ==> h(k, m[k]) == f(k, m[k]) + g(k, m[k])
    ensures Sum(m, h) == Sum(m, f) + Sum(m, g)
    decreases m.Keys
  {
    if m.Keys != {} {
      SumAdd(m - {MinKey(m.Keys)}, f, g, h);
    }
  }

  /** `x + y`, named so that additivity can be stated with a trigger. */
  function Plus(x: real, y: real): (r: real) { x + y }

  /** `L` maps 0 to 0 and sums to sums. */
  ghost predicate Additive(L: real -> real) {
    L(0.0) == 0.0 && forall x, y {:trigger L(Plus(x, y))} :: L(Plus(x, y)) == L(x) + L(y)
  }

  /** An additive map can be taken out of a sum. */
  lemma {:induction false} SumLinear<V>(m: map<int, V>, f: (int, V) -> real, g: (int, V) -> real, L: real -> real)
    requires Additive(L)
    requires forall k :: k in m ==> g(k, m[k]) == L(f(k, m[k]))
    ensures Sum(m, g) == L(Sum(m, f))
    decreases m.Keys
  {
    if m.Keys != {} {
      var k := MinKey(m.Keys);
      var rest := m - {k};
      SumLinear(rest, f, g, L);
      assert L(Plus(f(k, m[k]), Sum(rest, f))) == L(f(k, m[k])) + L(Sum(rest, f));
    }
  }

  /** Multiplication by `c`. */
  function Times(c: real): (L: real -> real) {
    x => c * x
  }

  /** Multiplication distributes over addition. */
  lemma TimesAdditive(c: real)
    ensures Additive(Times(c))
  {
    forall x: real, y: real
      ensures Times(c)(Plus(x, y)) == Times(c)(x) + Times(c)(y)
    {
      assert c * (x + y) == c * x + c * y;
    }
  }

  /** A constant factor can be taken out of a sum. */
  lemma SumScale<V>(m: map<int, V>, f: (int, V) -> real, h: (int, V) -> real, c: real)
    requires forall k :: k in m ==> h(k, m[k]) == c * f(k, m[k])
    ensures Sum(m, h) == c * Sum(m, f)
  {
    TimesAdditive(c);
    SumLinear(m, f, h, Times(c));
  }

  /** The term `g(k1, k2)` of row `k1`, as a function of the column entry. */
  function Row<W>(g: (int, int) -> real, k1: int): (int, W) -> real {
    (k2: int, w: W) => g(k1, k2)
  }

  /** The term `g(k1, k2)` of column `k2`, as a function of the row entry. */
  function Column<V>(g: (int, int) -> real, k2: int): (int, V) -> real {
    (k1: int, v: V) => g(k1, k2)
  }

  /** Row `k1` summed over the columns `m2`. */
  function RowSums<V, W>(m2: map<int, W>, g: (int, int) -> real): (int, V) -> real {
    (k1: int, v: V) => Sum(m2, Row<W>(g, k1))
  }

  /** Column `k2` summed over the rows `m1`. */
  function ColumnSums<V, W>(m1: map<int, V>, g: (int, int) -> real): (int, W) -> real {
    (k2: int, w: W) => Sum(m1, Column<V>(g, k2))
  }

  /** A double sum may be taken in either order. */
  lemma {:induction false} SumSwap<V, W>(m1: map<int, V>, m2: map<int, W>, g: (int, int) -> real)
    ensures Sum(m1, RowSums<V, W>(m2, g)) == Sum(m2, ColumnSums<V, W>(m1, g))
    decreases m1.Keys
  {
    if m1.Keys == {} {
      forall k2 | k2 in m2
        ensures ColumnSums<V, W>(m1, g)(k2, m2[k2]) == 0.0
      {
      }
      SumZero(m2, ColumnSums<V, W>(m1, g));
    } else {
      var k := MinKey(m1.Keys);
      var rest := m1 - {k};
      SumSwap(rest, m2, g);
      forall k2 | k2 in m2
        ensures ColumnSums<V, W>(m1, g)(k2, m2[k2])
             == Row<W>(g, k)(k2, m2[k2]) + ColumnSums<V, W>(rest, g)(k2, m2[k2])
      {
        assert Sum(m1, Column<V>(g, k2)) == g(k, k2) + Sum(rest, Column<V>(g, k2));
      }
      SumAdd(m2, Row<W>(g, k), ColumnSums<V, W>(rest, g), ColumnSums<V, W>(m1, g));
    }
  }
}
