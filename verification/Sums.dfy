/** Finite sums over maps and sequences, the arithmetic behind every conservation law here. */
module Sums {

  /** The sum of all values of a map, key by key. */
  ghost function SumFrom<K>(m: map<K, int>): int
    decreases |m|
  {
    if m == map[] then 0
    else
      var k :| k in m;
      m[k] + SumFrom(m - {k})
  }

  /** Mentioned where the definition of a sum is needed, and nowhere else. */
  ghost predicate Opened<K>(m: map<K, int>) {
    true
  }

  ghost predicate IsSum<K>(m: map<K, int>, sum: int) {
    forall n: map<K, int> {:trigger Opened(n)} :: n == m && Opened(n) ==> sum == SumFrom(n)
  }

  lemma SumExists<K>(m: map<K, int>)
    ensures exists sum: int :: IsSum(m, sum)
  {
    assert IsSum(m, SumFrom(m));
  }

  /** The sum of all values of a map. */
  ghost function SumValues<K>(m: map<K, int>): int {
    SumExists(m);
    var sum: int :| IsSum(m, sum);
    sum
  }

  lemma SumIs<K>(m: map<K, int>)
    ensures SumValues(m) == SumFrom(m)
  {
    assert Opened(m);
  }

  /** The sum may be opened at any key. */
  lemma SumAt<K>(m: map<K, int>, k: K)
    requires k in m
    ensures SumValues(m) == m[k] + SumValues(m - {k})
  {
    SumFromAt(m, k);
    SumIs(m);
    SumIs(m - {k});
  }

  lemma {:induction false} SumFromAt<K>(m: map<K, int>, k: K)
    requires k in m
    ensures SumFrom(m) == m[k] + SumFrom(m - {k})
    decreases |m|
  {
    var c :| c in m && SumFrom(m) == m[c] + SumFrom(m - {c});
    if c != k {
      SumFromAt(m - {c}, k);
      SumFromAt(m - {k}, c);
      assert m - {c} - {k} == m - {k} - {c};
    }
  }

  lemma SumUpdate<K>(m: map<K, int>, k: K, v: int)
    ensures SumValues(m[k := v]) == SumValues(m) + v - if k in m then m[k] else 0
  {
    SumAt(m[k := v], k);
    assert m[k := v] - {k} == m - {k};
    if k in m {
      SumAt(m, k);
    } else {
      assert m - {k} == m;
    }
  }

  lemma {:induction false} SumZero<K>(m: map<K, int>)
    requires forall k <- m :: m[k] == 0
    ensures SumValues(m) == 0
    decreases |m|
  {
    if m == map[] {
      SumIs(m);
    } else {
      var k :| k in m;
      SumAt(m, k);
      SumZero(m - {k});
    }
  }

  lemma {:induction false} SumBounds<K>(m: map<K, int>)
    requires forall k <- m :: m[k] >= 0
    ensures SumValues(m) >= 0
    ensures forall k <- m :: m[k] <= SumValues(m)
    decreases |m|
  {
    if m == map[] {
      SumIs(m);
    } else {
      forall k | k in m
        ensures SumValues(m) >= m[k] >= 0
      {
        SumAt(m, k);
        SumBounds(m - {k});
      }
      var k :| k in m;
      assert SumValues(m) >= m[k] >= 0;
    }
  }

  /** The sum of a sequence. */
  ghost function SumSeq(s: seq<int>): int {
    if s == [] then 0 else s[0] + SumSeq(s[1..])
  }

  lemma {:induction false} SumAppend(a: seq<int>, b: seq<int>)
    ensures SumSeq(a + b) == SumSeq(a) + SumSeq(b)
    decreases |a|
  {
    if a == [] {
      assert a + b == b;
    } else {
      assert (a + b)[1..] == a[1..] + b;
      SumAppend(a[1..], b);
    }
  }

  /** The total weight of a map's entries. */
  ghost function Total<K, V>(m: map<K, V>, weight: (K, V) -> int): int {
    SumValues(Weights(m, weight))
  }

  ghost function Weights<K, V>(m: map<K, V>, weight: (K, V) -> int): map<K, int> {
    map k | k in m :: weight(k, m[k])
  }

  lemma TotalNone<K, V>(m: map<K, V>, weight: (K, V) -> int)
    requires m == map[]
    ensures Total(m, weight) == 0
  {
    SumZero(Weights(m, weight));
  }

  lemma TotalOne<K, V>(m: map<K, V>, k: K, weight: (K, V) -> int)
    requires m.Keys == {k}
    ensures Total(m, weight) == weight(k, m[k])
  {
    TotalDrop(m, k, weight);
    TotalNone(m - {k}, weight);
  }

  lemma TotalSet<K, V>(m: map<K, V>, k: K, v: V, weight: (K, V) -> int)
    ensures Total(m[k := v], weight) == Total(m, weight) + weight(k, v) - if k in m then weight(k, m[k]) else 0
  {
    SumUpdate(Weights(m, weight), k, weight(k, v));
    assert Weights(m[k := v], weight) == Weights(m, weight)[k := weight(k, v)];
  }

  lemma TotalDrop<K, V>(m: map<K, V>, k: K, weight: (K, V) -> int)
    requires k in m
    ensures Total(m - {k}, weight) == Total(m, weight) - weight(k, m[k])
  {
    SumAt(Weights(m, weight), k);
    assert Weights(m - {k}, weight) == Weights(m, weight) - {k};
  }

  /** With non-negative weights every entry weighs at most the total. */
  lemma TotalBounds<K, V>(m: map<K, V>, weight: (K, V) -> int)
    requires forall k {:trigger m[k]} :: k in m ==> weight(k, m[k]) >= 0
    ensures Total(m, weight) >= 0
    ensures forall k {:trigger m[k]} :: k in m ==> weight(k, m[k]) <= Total(m, weight)
  {
    SumBounds(Weights(m, weight));
    forall k | k in m ensures weight(k, m[k]) <= Total(m, weight) {
      assert Weights(m, weight)[k] <= Total(m, weight);
    }
  }
}
