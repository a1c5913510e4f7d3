/** Sums, counts and maxima over the values of a `HashMap`, whose iteration
    order is unspecified: each is defined without an order, and a remove
    lemma shows that visiting the keys in any order gives the same result. */
module MapAggregates {
  import opened Wrappers

  /** The sum of the map's values. */
  ghost function Sum<K>(m: map<K, int>): int
    decreases |m|
  {
    if m == map[] then 0
    else
      var k :| k in m;
      m[k] + Sum(m - {k})
  }

  /** Taking out any one key first leaves the sum unchanged. */
  lemma {:induction false} SumRemove<K>(m: map<K, int>, k: K)
    requires k in m
    ensures Sum(m) == m[k] + Sum(m - {k})
    decreases |m|
  {
    var j :| j in m && Sum(m) == m[j] + Sum(m - {j});
    if j != k {
      var mj, mk := m - {j}, m - {k};
      SumRemove(mj, k);
      SumRemove(mk, j);
      assert mj - {k} == mk - {j};
    }
  }

  /** Values all within [lo, hi] sum to within [lo * |m|, hi * |m|]. */
  lemma {:induction false} SumBounds<K>(m: map<K, int>, lo: int, hi: int)
    requires forall k :: k in m ==> lo <= m[k] <= hi
    ensures lo * |m| <= Sum(m) <= hi * |m|
    decreases |m|
  {
    if m != map[] {
      var k :| k in m;
      var rest := m - {k};
      SumRemove(m, k);
      SumBounds(rest, lo, hi);
      Distribute(lo, |rest|);
      Distribute(hi, |rest|);
    }
  }

  lemma Distribute(a: int, n: int)
    ensures a * (n + 1) == a * n + a
  {
  }

  /** The number of keys whose value is positive. */
  ghost function CountPositive<K>(m: map<K, int>): (n: nat)
    ensures n <= |m|
  {
    var pos := set k | k in m && m[k] > 0;
    assert pos <= m.Keys;
    Subset(pos, m.Keys);
    |pos|
  }

  lemma CountPositiveRemove<K>(m: map<K, int>, k: K)
    requires k in m
    ensures CountPositive(m) == (if m[k] > 0 then 1 else 0) + CountPositive(m - {k})
  {
    var all := set j | j in m && m[j] > 0;
    var rest := set j | j in m - {k} && (m - {k})[j] > 0;
    if m[k] > 0 {
      assert all == rest + {k};
    } else {
      assert all == rest;
    }
  }

  lemma {:induction false} Subset<T>(a: set<T>, b: set<T>)
    requires a <= b
    ensures |a| <= |b|
  {
    if a != {} {
      var x :| x in a;
      Subset(a - {x}, b - {x});
    }
  }

  /** Java's `if (last == null || t > last) last = t`. */
  function Later(last: Option<int>, t: int): (r: Option<int>)
    ensures r.Some? && r.value >= t
    ensures last.Some? ==> r.value >= last.value
    ensures r.value == t || r == last
  {
    if last.None? || t > last.value then Some(t) else last
  }

  /** `v` is the largest value of `m`. */
  ghost predicate IsMaxValue<K>(v: int, m: map<K, int>) {
    && (exists k :: k in m && m[k] == v)
    && (forall k :: k in m ==> m[k] <= v)
  }

  /** The largest value of the map; `None` for the empty map. */
  ghost function MaxValue<K>(m: map<K, int>): (r: Option<int>)
    ensures r.None? <==> m == map[]
    ensures r.Some? ==> IsMaxValue(r.value, m)
    decreases |m|
  {
    if m == map[] then None
    else
      var k :| k in m;
      var r := Later(MaxValue(m - {k}), m[k]);
      assert forall j :: j in m ==> j == k || j in m - {k};
      r
  }

  /** Taking out any one key first leaves the maximum unchanged. */
  lemma MaxValueRemove<K>(m: map<K, int>, k: K)
    requires k in m
    ensures MaxValue(m) == Later(MaxValue(m - {k}), m[k])
  {
    var r := Later(MaxValue(m - {k}), m[k]);
    assert forall j :: j in m ==> j == k || j in m - {k};
    assert IsMaxValue(r.value, m);
    MaxValueUnique(r.value, MaxValue(m).value, m);
  }

  lemma MaxValueUnique<K>(a: int, b: int, m: map<K, int>)
    requires IsMaxValue(a, m) && IsMaxValue(b, m)
    ensures a == b
  {
  }

  /** The sum of a map's values, visiting keys in an arbitrary order. */
  method SumValues<K>(m: map<K, int>) returns (total: int)
    ensures total == Sum(m)
  {
    total := 0;
    var rest := m;
    while rest != map[]
      invariant total + Sum(rest) == Sum(m)
      decreases |rest|
    {
      var k :| k in rest;
      SumRemove(rest, k);
      total := total + rest[k];
      rest := rest - {k};
    }
  }

  /** The number of positive values, visiting keys in an arbitrary order. */
  method CountPositiveValues<K>(m: map<K, int>) returns (n: nat)
    ensures n == CountPositive(m)
  {
    n := 0;
    var rest := m;
    while rest != map[]
      invariant n + CountPositive(rest) == CountPositive(m)
      decreases |rest|
    {
      var k :| k in rest;
      CountPositiveRemove(rest, k);
      if rest[k] > 0 {
        n := n + 1;
      }
      rest := rest - {k};
    }
  }
}
