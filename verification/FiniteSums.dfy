/**
  Sums of finite tables of real numbers, for the figures that the token ledger keeps by model and by
  day. A sum is taken in an arbitrary order, so the first lemma shows that the order does not matter; the
  others say how a sum changes with one entry, and compare the sums of two tables entry by entry.
 */
module FiniteSums {

  function At<K>(table: map<K, real>, k: K): real {
    if k in table then table[k] else 0.0
  }

  ghost predicate NonNegative<K(!new)>(table: map<K, real>) {
    forall k :: k in table ==> 0.0 <= table[k]
  }

  ghost predicate Below<K(!new)>(a: map<K, real>, b: map<K, real>) {
    forall k :: k in a ==> a[k] <= At(b, k)
  }

  ghost function SumOn<K(!new)>(keys: set<K>, table: map<K, real>): real {
    if keys == {} then 0.0
    else
      var k :| k in keys;
      At(table, k) + SumOn(keys - {k}, table)
  }

  ghost function Sum<K(!new)>(table: map<K, real>): real {
    SumOn(table.Keys, table)
  }

  /** The order of summation does not matter. */
  lemma {:induction false} SumOnRemove<K(!new)>(keys: set<K>, table: map<K, real>, k: K)
    requires k in keys
    ensures SumOn(keys, table) == At(table, k) + SumOn(keys - {k}, table)
  {
    var first :| first in keys && SumOn(keys, table) == At(table, first) + SumOn(keys - {first}, table);
    if first != k {
      SumOnRemove(keys - {first}, table, k);
      SumOnRemove(keys - {k}, table, first);
      assert keys - {first} - {k} == keys - {k} - {first};
    }
  }

  lemma {:induction false} SumOnMonotone<K(!new)>(keys: set<K>, a: map<K, real>, b: map<K, real>)
    requires forall k :: k in keys ==> At(a, k) <= At(b, k)
    ensures SumOn(keys, a) <= SumOn(keys, b)
  {
    if keys != {} {
      var k :| k in keys;
      SumOnRemove(keys, a, k);
      SumOnRemove(keys, b, k);
      SumOnMonotone(keys - {k}, a, b);
    }
  }

  lemma SumOnSame<K(!new)>(keys: set<K>, a: map<K, real>, b: map<K, real>)
    requires forall k :: k in keys ==> At(a, k) == At(b, k)
    ensures SumOn(keys, a) == SumOn(keys, b)
  {
    SumOnMonotone(keys, a, b);
    SumOnMonotone(keys, b, a);
  }

  lemma {:induction false} SumOnSubset<K(!new)>(keys: set<K>, more: set<K>, table: map<K, real>)
    requires keys <= more && NonNegative(table)
    ensures SumOn(keys, table) <= SumOn(more, table)
    decreases more
  {
    if more != {} {
      var k :| k in more;
      SumOnRemove(more, table, k);
      if k in keys {
        SumOnRemove(keys, table, k);
      }
      SumOnSubset(keys - {k}, more - {k}, table);
      if k !in keys { assert keys - {k} == keys; }
    }
  }

  lemma SumUpdate<K(!new)>(table: map<K, real>, k: K, v: real)
    ensures Sum(table[k := v]) == Sum(table) - At(table, k) + v
  {
    var updated := table[k := v];
    SumOnRemove(updated.Keys, updated, k);
    SumOnSame(updated.Keys - {k}, updated, table);
    if k in table {
      SumOnRemove(table.Keys, table, k);
    }
    assert updated.Keys - {k} == table.Keys - {k};
    if k !in table { assert table.Keys - {k} == table.Keys; }
  }

  /** Entries missing on one side count as zero. */
  lemma SumMonotone<K(!new)>(a: map<K, real>, b: map<K, real>)
    requires Below(a, b) && NonNegative(b)
    ensures Sum(a) <= Sum(b)
  {
    SumOnMonotone(a.Keys, a, b);
    SumOnDrop(a.Keys, b);
    SumOnSubset(a.Keys * b.Keys, b.Keys, b);
  }

  lemma {:induction false} SumOnDrop<K(!new)>(keys: set<K>, table: map<K, real>)
    ensures SumOn(keys, table) == SumOn(keys * table.Keys, table)
  {
    if keys != {} {
      var k :| k in keys;
      SumOnRemove(keys, table, k);
      SumOnDrop(keys - {k}, table);
      assert (keys - {k}) * table.Keys == keys * table.Keys - {k};
      if k in table {
        SumOnRemove(keys * table.Keys, table, k);
      } else {
        assert keys * table.Keys - {k} == keys * table.Keys;
      }
    }
  }

  lemma SumNonNegative<K(!new)>(table: map<K, real>)
    requires NonNegative(table)
    ensures 0.0 <= Sum(table)
    ensures forall k :: k in table ==> table[k] <= Sum(table)
  {
    SumOnSubset({}, table.Keys, table);
    forall k | k in table ensures table[k] <= Sum(table) {
      SumOnRemove(table.Keys, table, k);
      SumOnSubset({}, table.Keys - {k}, table);
    }
  }

  lemma SumSame<K(!new)>(a: map<K, real>, b: map<K, real>)
    requires forall k :: k in a || k in b ==> At(a, k) == At(b, k)
    ensures Sum(a) == Sum(b)
  {
    SumOnSame(a.Keys + b.Keys, a, b);
    SumOnDrop(a.Keys + b.Keys, a);
    SumOnDrop(a.Keys + b.Keys, b);
    assert (a.Keys + b.Keys) * a.Keys == a.Keys && (a.Keys + b.Keys) * b.Keys == b.Keys;
  }
}
