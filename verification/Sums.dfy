/** Sums over the values of a finite map. The sum is defined by taking keys out in an
    arbitrary order; SumOut says that the order does not matter. */
module Sums {
  ghost function Sum<K>(m: map<K, real>): real {
    if m == map[] then 0.0 else
      var k :| k in m;
      m[k] + Sum(m - {k})
  }

  /** Any key can be taken out first. */
  lemma {:induction false} SumOut<K>(m: map<K, real>, k: K)
    requires k in m
    ensures Sum(m) == m[k] + Sum(m - {k})
    decreases |m|
  {
    var j :| j in m && Sum(m) == m[j] + Sum(m - {j});
    if j != k {
      SumOut(m - {j}, k);
      SumOut(m - {k}, j);
      assert m - {j} - {k} == m - {k} - {j};
    }
  }

  /** The effect of `insert` on the sum. */
  lemma SumInsert<K>(m: map<K, real>, k: K, v: real)
    ensures Sum(m[k := v]) == v + Sum(m - {k})
  {
    SumOut(m[k := v], k);
    assert m[k := v] - {k} == m - {k};
  }

  /** The effect of `*entry(k).or_default() += v` on the sum. */
  lemma SumBump<K>(m: map<K, real>, k: K, v: real)
    ensures Sum(m[k := (if k in m then m[k] else 0.0) + v]) == Sum(m) + v
  {
    SumInsert(m, k, (if k in m then m[k] else 0.0) + v);
    if k in m {
      SumOut(m, k);
    } else {
      assert m - {k} == m;
    }
  }

  lemma {:induction false} SumAdd<K>(a: map<K, real>, b: map<K, real>, c: map<K, real>)
    requires a.Keys == b.Keys == c.Keys
    requires forall k :: k in a ==> c[k] == a[k] + b[k]
    ensures Sum(c) == Sum(a) + Sum(b)
    decreases |a|
  {
    if a != map[] {
      var k :| k in a;
      SumOut(a, k);
      SumOut(b, k);
      SumOut(c, k);
      SumAdd(a - {k}, b - {k}, c - {k});
    } else {
      assert b == map[] && c == map[];
    }
  }

  /** Keys with a zero do not count. */
  lemma {:induction false} SumPad<K>(a: map<K, real>, b: map<K, real>)
    requires a.Keys <= b.Keys
    requires forall k :: k in b ==> b[k] == if k in a then a[k] else 0.0
    ensures Sum(a) == Sum(b)
    decreases |b|
  {
    if b != map[] {
      var k :| k in b;
      SumOut(b, k);
      if k in a {
        SumOut(a, k);
      }
      assert k !in a ==> a - {k} == a;
      SumPad(a - {k}, b - {k});
    } else {
      assert a == map[];
    }
  }

  ghost predicate Additive(g: real -> real) {
    g(0.0) == 0.0 && forall x, y, z :: z == x + y ==> g(z) == g(x) + g(y)
  }

  function Mapped<K>(a: map<K, real>, g: real -> real): (c: map<K, real>)
    ensures c.Keys == a.Keys
  {
    map k | k in a :: g(a[k])
  }

  lemma {:induction false} SumMapped<K>(a: map<K, real>, g: real -> real)
    requires Additive(g)
    ensures Sum(Mapped(a, g)) == g(Sum(a))
    decreases |a|
  {
    var c := Mapped(a, g);
    if a == map[] {
      assert c == map[];
    } else {
      var k :| k in a;
      hide Sum, Additive, Mapped;
      SumOut(a, k);
      SumOut(c, k);
      SumMapped(a - {k}, g);
      MappedWithout(a, g, k);
      Adds(g, a[k], Sum(a - {k}), Sum(a));
    }
  }

  lemma MappedWithout<K>(a: map<K, real>, g: real -> real, k: K)
    requires k in a
    ensures Mapped(a, g)[k] == g(a[k]) && Mapped(a, g) - {k} == Mapped(a - {k}, g)
  {
  }

  lemma Adds(g: real -> real, x: real, y: real, z: real)
    requires Additive(g) && z == x + y
    ensures g(z) == g(x) + g(y)
  {
  }

  function Times(f: real): real -> real {
    x => x * f
  }

  lemma TimesDistributes(f: real, x: real, y: real, z: real)
    requires z == x + y
    ensures Times(f)(z) == Times(f)(x) + Times(f)(y)
  {
    assert (x + y) * f == x * f + y * f;
  }

  lemma TimesAdditive(f: real)
    ensures Additive(Times(f))
  {
    var g := Times(f);
    forall x, y, z | z == x + y ensures g(z) == g(x) + g(y) {
      TimesDistributes(f, x, y, z);
    }
  }

  /** Multiplying the sum is multiplying every value. */
  lemma SumScale<K>(a: map<K, real>, f: real)
    ensures Sum(Mapped(a, Times(f))) == Times(f)(Sum(a))
  {
    TimesAdditive(f);
    SumMapped(a, Times(f));
  }

  lemma {:induction false} SumMono<K>(a: map<K, real>, b: map<K, real>)
    requires a.Keys <= b.Keys
    requires forall k :: k in a ==> a[k] <= b[k]
    requires forall k :: k in b && k !in a ==> b[k] >= 0.0
    ensures Sum(a) <= Sum(b)
    decreases |b|
  {
    if b != map[] {
      var k :| k in b;
      SumOut(b, k);
      if k in a {
        SumOut(a, k);
        SumMono(a - {k}, b - {k});
      } else {
        SumMono(a, b - {k});
      }
    } else {
      assert a == map[];
    }
  }

  lemma SumNonNegative<K>(m: map<K, real>)
    requires forall k :: k in m ==> m[k] >= 0.0
    ensures Sum(m) >= 0.0
  {
    SumMono(map[], m);
  }
}
