/**
 * Frequency maps as the trainer keeps them: a missing key reads as zero, an
 * increment creates the key, and the total of a map is the sum of its values.
 */
module Tally {
  import opened Common

  /** The count of `k`, zero when `k` was never counted (a Go map read with its default). */
  function Get<K>(m: map<K, nat>, k: K): (r: nat)
    ensures r > 0 ==> k in m
    ensures k !in m ==> r == 0
  {
    if k in m then m[k] else 0
  }

  /** `m[k]++` on a Go map: the key is created with count 1 when absent. */
  function Incr<K>(m: map<K, nat>, k: K): (r: map<K, nat>)
    ensures r.Keys == m.Keys + {k}
    ensures Get(r, k) == Get(m, k) + 1
    ensures forall j :: j in r && j != k ==> r[j] == m[j]
  {
    m[k := Get(m, k) + 1]
  }

  /** The sum of all counts in `m`. */
  ghost function Total<K>(m: map<K, nat>): nat
    decreases |m|
  {
    if m == map[] then 0
    else
      var k :| k in m;
      assert |m - {k}| < |m| by { assert (m - {k}).Keys == m.Keys - {k}; }
      m[k] + Total(m - {k})
  }

  /** The sum of all values in a map of reals. */
  ghost function RealTotal<K>(m: map<K, real>): real
    decreases |m|
  {
    if m == map[] then 0.0
    else
      var k :| k in m;
      assert |m - {k}| < |m| by { assert (m - {k}).Keys == m.Keys - {k}; }
      m[k] + RealTotal(m - {k})
  }

  /** A total may be computed by taking out any key first. */
  lemma {:induction false} TotalRemove<K>(m: map<K, nat>, k: K)
    requires k in m
    ensures Total(m) == m[k] + Total(m - {k})
    decreases |m|
  {
    var j :| j in m && Total(m) == m[j] + Total(m - {j});
    if j != k {
      assert (m - {j}).Keys == m.Keys - {j};
      assert (m - {k}).Keys == m.Keys - {k};
      TotalRemove(m - {j}, k);
      TotalRemove(m - {k}, j);
      assert m - {j} - {k} == m - {k} - {j};
    }
  }

  lemma {:induction false} RealTotalRemove<K>(m: map<K, real>, k: K)
    requires k in m
    ensures RealTotal(m) == m[k] + RealTotal(m - {k})
    decreases |m|
  {
    var j :| j in m && RealTotal(m) == m[j] + RealTotal(m - {j});
    if j != k {
      assert (m - {j}).Keys == m.Keys - {j};
      assert (m - {k}).Keys == m.Keys - {k};
      RealTotalRemove(m - {j}, k);
      RealTotalRemove(m - {k}, j);
      assert m - {j} - {k} == m - {k} - {j};
    }
  }

  /** One increment adds exactly one to the total. */
  lemma TotalIncr<K>(m: map<K, nat>, k: K)
    ensures Total(Incr(m, k)) == Total(m) + 1
  {
    var r := Incr(m, k);
    TotalRemove(r, k);
    assert r - {k} == m - {k};
    if k in m {
      TotalRemove(m, k);
    } else {
      assert m - {k} == m;
    }
  }

  /** The entries of transitions leaving `s`. */
  function Out<V>(m: map<Transition, V>, s: Tag): (r: map<Transition, V>)
    ensures forall t :: t in r <==> t in m && t.from == s
  {
    map t | t in m && t.from == s :: m[t]
  }

  /** Counting a transition adds one to the outgoing total of its source only. */
  lemma OutTotalIncr(m: map<Transition, nat>, k: Transition, s: Tag)
    ensures Total(Out(Incr(m, k), s)) == Total(Out(m, s)) + (if k.from == s then 1 else 0)
  {
    if k.from == s {
      assert Out(Incr(m, k), s) == Incr(Out(m, s), k);
      TotalIncr(Out(m, s), k);
    } else {
      assert Out(Incr(m, k), s) == Out(m, s);
    }
  }

  /** Each count divided by a common denominator. */
  function Ratios<K>(m: map<K, nat>, d: nat): (r: map<K, real>)
    requires d > 0
    ensures r.Keys == m.Keys
  {
    map k | k in m :: m[k] as real / d as real
  }

  /** Dividing every count by `d` divides the total by `d`. */
  lemma {:induction false} RatiosTotal<K>(m: map<K, nat>, d: nat)
    requires d > 0
    ensures RealTotal(Ratios(m, d)) == Total(m) as real / d as real
    decreases |m|
  {
    if m != map[] {
      var k :| k in m;
      assert (m - {k}).Keys == m.Keys - {k};
      RatiosTotal(m - {k}, d);
      RatiosTotalStep(m, d, k);
    } else {
      assert Ratios(m, d) == map[];
    }
  }

  lemma RatiosTotalStep<K>(m: map<K, nat>, d: nat, k: K)
    requires d > 0 && k in m
    requires RealTotal(Ratios(m - {k}, d)) == Total(m - {k}) as real / d as real
    ensures RealTotal(Ratios(m, d)) == Total(m) as real / d as real
  {
    var r := Ratios(m, d);
    TotalRemove(m, k);
    RealTotalRemove(r, k);
    RatiosRemove(m, d, k);
    DivAdd(m[k] as real, Total(m - {k}) as real, d as real, r[k], RealTotal(r - {k}), Total(m) as real);
  }

  lemma RatiosRemove<K>(m: map<K, nat>, d: nat, k: K)
    requires d > 0 && k in m
    ensures Ratios(m, d)[k] == m[k] as real / d as real
    ensures Ratios(m, d) - {k} == Ratios(m - {k}, d)
  {
  }

  /** `x + y == t / d` when `x == a / d`, `y == b / d` and `t == a + b`. */
  lemma DivAdd(a: real, b: real, d: real, x: real, y: real, t: real)
    requires d > 0.0 && x == a / d && y == b / d && t == a + b
    ensures x + y == t / d
  {
    assert x * d == a && y * d == b;
    assert (x + y) * d == x * d + y * d;
  }
}
